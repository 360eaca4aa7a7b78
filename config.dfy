/** The `cors_origins` setting validator (backend/app/config.py): a string is read as
    a JSON array when it starts with "[" and as a comma-separated list otherwise; a
    list is taken as given. JSON decoding is a parameter. */
module Config {
  import opened Wrappers
  import opened Text

  /** The raw value of the setting: a string from the environment or a list. */
  datatype CorsValue = Str(s: string) | List(origins: seq<string>)

  /** `[origin.strip() for origin in v.split(",")]`. */
  function CommaList(v: string): (r: seq<string>)
    ensures |r| == |SplitOn(v, ',')|
    ensures forall k :: 0 <= k < |r| ==> r[k] == Strip(SplitOn(v, ',')[k])
  {
    var pieces := SplitOn(v, ',');
    seq(|pieces|, k requires 0 <= k < |pieces| => Strip(pieces[k]))
  }

  /** `parse_cors_origins`. `decodeJson` is `json.loads` followed by the list-of-strings
      validation; it may fail, and only the JSON branch can. */
  function ParseCorsOrigins(v: CorsValue, decodeJson: string -> Result<seq<string>>): (r: Result<seq<string>>)
    ensures r.Err? ==> v.Str? && |Strip(v.s)| > 0 && Strip(v.s)[0] == '['
  {
    match v
    case List(origins) => Ok(origins)
    case Str(s) =>
      var t := Strip(s);
      if |t| > 0 && t[0] == '[' then decodeJson(t)
      else Ok(CommaList(t))
  }

  /** A list is returned unchanged; a string takes the JSON branch exactly when it
      starts with "[" once stripped; otherwise there is one origin per comma plus one,
      none with surrounding whitespace and none containing a comma. */
  lemma ParseCorsOriginsSpec(v: CorsValue, decodeJson: string -> Result<seq<string>>)
    ensures v.List? ==> ParseCorsOrigins(v, decodeJson) == Ok(v.origins)
    ensures v.Str? && |Strip(v.s)| > 0 && Strip(v.s)[0] == '[' ==>
      ParseCorsOrigins(v, decodeJson) == decodeJson(Strip(v.s))
    ensures v.Str? && !(|Strip(v.s)| > 0 && Strip(v.s)[0] == '[') ==>
      var r := ParseCorsOrigins(v, decodeJson);
      r.Ok? && |r.value| == Count(Strip(v.s), ',') + 1 &&
      forall k :: 0 <= k < |r.value| ==> IsStripped(r.value[k]) && ',' !in r.value[k]
  {
    if v.Str? && !(|Strip(v.s)| > 0 && Strip(v.s)[0] == '[') {
      var t := Strip(v.s);
      SplitOnLength(t, ',');
      CommaListClean(t);
    }
  }

  /** Every entry of the comma list is stripped and free of commas. */
  lemma CommaListClean(t: string)
    ensures forall k :: 0 <= k < |CommaList(t)| ==> IsStripped(CommaList(t)[k]) && ',' !in CommaList(t)[k]
  {
    SplitOnPieces(t, ',');
    var r := CommaList(t);
    forall k | 0 <= k < |r| ensures IsStripped(r[k]) && ',' !in r[k] {
      var piece := SplitOn(t, ',')[k];
      StripSpec(piece);
      var a := |piece| - |TrimLeft(piece)|;
      assert r[k] == piece[a..a + |r[k]|];
      assert forall i :: 0 <= i < |r[k]| ==> r[k][i] == piece[a + i];
    }
  }

  /** The first character of a join is that of its first piece. */
  lemma JoinFirst(xs: seq<string>, sep: string)
    requires |xs| > 0 && |xs[0]| > 0
    ensures |Join(xs, sep)| > 0 && Join(xs, sep)[0] == xs[0][0]
  {
  }

  /** A join ends with its last piece. */
  lemma {:induction false} JoinLast(xs: seq<string>, sep: string)
    requires |xs| > 0 && |xs[|xs| - 1]| > 0
    ensures |Join(xs, sep)| > 0 && Join(xs, sep)[|Join(xs, sep)| - 1] == xs[|xs| - 1][|xs[|xs| - 1]| - 1]
    decreases |xs|
  {
    if |xs| > 1 {
      JoinLast(xs[1..], sep);
    }
  }

  /** Origins that are non-empty, stripped and comma-free, the first not starting
      with "[", come back unchanged from their comma-joined string. */
  lemma CommaRoundTrip(xs: seq<string>, decodeJson: string -> Result<seq<string>>)
    requires |xs| > 0
    requires forall k :: 0 <= k < |xs| ==> |xs[k]| > 0 && IsStripped(xs[k]) && ',' !in xs[k]
    requires xs[0][0] != '['
    ensures ParseCorsOrigins(Str(Join(xs, ",")), decodeJson) == Ok(xs)
  {
    var s := Join(xs, ",");
    JoinFirst(xs, ",");
    JoinLast(xs, ",");
    assert IsStripped(s);
    StripStripped(s);
    assert "," == [','];
    SplitOnJoin(xs, ',');
    assert SplitOn(s, ',') == xs;
    var r := CommaList(s);
    forall k | 0 <= k < |xs| ensures r[k] == xs[k] {
      StripStripped(xs[k]);
    }
    assert r == xs;
    assert Strip(s)[0] != '[';
  }
}
