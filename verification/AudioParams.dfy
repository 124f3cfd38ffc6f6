/** ParseAudioParams and the printer of out_get_parameters. */
module AudioParams {
  /** android::base::Split with a one-character delimiter: always at least one segment. */
  function Split(s: string, delimiter: char): (r: seq<string>)
    ensures 0 < |r|
  {
    if s == "" then [""] else Prefixed(s[0], delimiter, Split(s[1..], delimiter))
  }

  /** A character in front of a split text: a delimiter opens a segment, anything else joins the first. */
  function Prefixed(c: char, delimiter: char, rest: seq<string>): (r: seq<string>)
    requires 0 < |rest|
    ensures 0 < |r|
  {
    if c == delimiter then [""] + rest else [[c] + rest[0]] + rest[1..]
  }

  /** What one segment puts into the map. */
  function WithSegment(params: map<string, string>, segment: string): map<string, string> {
    var kv := Split(segment, '=');
    if segment == "" || kv[0] == "" then params
    else params[kv[0] := if |kv| > 1 then kv[1] else ""]
  }

  function WithSegments(params: map<string, string>, segments: seq<string>): map<string, string>
    decreases |segments|
  {
    if segments == [] then params else WithSegments(WithSegment(params, segments[0]), segments[1..])
  }

  function Parse(s: string): map<string, string> {
    WithSegments(map[], Split(s, ';'))
  }

  method ParseAudioParams(params: string) returns (paramsMap: map<string, string>)
    ensures paramsMap == Parse(params)
  {
    var segments := Split(params, ';');
    paramsMap := map[];
    for i := 0 to |segments|
      invariant WithSegments(paramsMap, segments[i..]) == Parse(params)
    {
      assert segments[i..][1..] == segments[i + 1..];
      var segment := segments[i];
      if |segment| == 0 { continue; }
      var kv := Split(segment, '=');
      if kv[0] == "" { continue; }
      paramsMap := paramsMap[kv[0] := if |kv| > 1 then kv[1] else ""];
    }
  }

  // ---------- printing ----------

  datatype Pair = Pair(key: string, value: string)

  /** The text out_get_parameters builds when its map yields the pairs in this order. */
  function Print(pairs: seq<Pair>): string {
    if pairs == [] then ""
    else Print(pairs[..|pairs| - 1]) + pairs[|pairs| - 1].key + "=" + pairs[|pairs| - 1].value + ";"
  }

  method PrintParams(pairs: seq<Pair>) returns (result: string)
    ensures result == Print(pairs)
  {
    result := "";
    for i := 0 to |pairs|
      invariant result == Print(pairs[..i])
    {
      assert pairs[..i + 1][..i] == pairs[..i];
      result := result + pairs[i].key + "=" + pairs[i].value + ";";
    }
    assert pairs[..|pairs|] == pairs;
  }

  /** The pairs of a map, each key once, in some order. */
  ghost predicate Lists(pairs: seq<Pair>, m: map<string, string>) {
    && (forall i, j :: 0 <= i < j < |pairs| ==> pairs[i].key != pairs[j].key)
    && (forall i :: 0 <= i < |pairs| ==> pairs[i].key in m && m[pairs[i].key] == pairs[i].value)
    && (forall k :: k in m ==> Pair(k, m[k]) in pairs)
  }

  ghost predicate CleanText(s: string) {
    ';' !in s && '=' !in s
  }

  ghost predicate Clean(m: map<string, string>) {
    forall k :: k in m ==> k != "" && CleanText(k) && CleanText(m[k])
  }

  // ---------- splitting ----------

  /** A text splits at every delimiter and nowhere else. */
  lemma {:induction false} SplitAt(a: string, delimiter: char, b: string)
    ensures Split(a + [delimiter] + b, delimiter) == Split(a, delimiter) + Split(b, delimiter)
  {
    var s := a + [delimiter] + b;
    if a == "" {
      assert s[0] == delimiter && s[1..] == b;
    } else {
      SplitAt(a[1..], delimiter, b);
      assert s[0] == a[0] && s[1..] == a[1..] + [delimiter] + b;
      PrefixedConcat(a[0], delimiter, Split(a[1..], delimiter), Split(b, delimiter));
    }
  }

  lemma {:induction false} PrefixedConcat(c: char, delimiter: char, l: seq<string>, r: seq<string>)
    requires 0 < |l|
    ensures Prefixed(c, delimiter, l + r) == Prefixed(c, delimiter, l) + r
  {
    assert (l + r)[0] == l[0] && (l + r)[1..] == l[1..] + r;
  }

  lemma {:induction false} SplitNone(s: string, delimiter: char)
    requires delimiter !in s
    ensures Split(s, delimiter) == [s]
  {
    if s != "" {
      SplitNone(s[1..], delimiter);
      assert s == [s[0]] + s[1..];
    }
  }

  lemma {:induction false} SegmentsLack(s: string, delimiter: char, other: char, i: nat)
    requires i < |Split(s, delimiter)|
    ensures delimiter !in Split(s, delimiter)[i]
    ensures other !in s ==> other !in Split(s, delimiter)[i]
  {
    if s != "" {
      var rest := Split(s[1..], delimiter);
      assert s == [s[0]] + s[1..];
      if s[0] == delimiter {
        if i > 0 { SegmentsLack(s[1..], delimiter, other, i - 1); }
      } else {
        SegmentsLack(s[1..], delimiter, other, i);
      }
    }
  }

  // ---------- the laws ----------

  lemma {:induction false} Overridden(params: map<string, string>, segments: seq<string>)
    ensures WithSegments(params, segments) == params + WithSegments(map[], segments)
    decreases |segments|
  {
    if segments != [] {
      var one := WithSegment(map[], segments[0]);
      Overridden(WithSegment(params, segments[0]), segments[1..]);
      Overridden(one, segments[1..]);
      assert WithSegment(params, segments[0]) == params + one;
    }
  }

  lemma {:induction false} SegmentsConcat(params: map<string, string>, a: seq<string>, b: seq<string>)
    ensures WithSegments(params, a + b) == WithSegments(WithSegments(params, a), b)
    decreases |a|
  {
    if a == [] {
      assert a + b == b;
    } else {
      assert (a + b)[1..] == a[1..] + b;
      SegmentsConcat(WithSegment(params, a[0]), a[1..], b);
    }
  }

  /** Parsing two texts joined by a semicolon is parsing the first, overridden by the second. */
  lemma {:induction false} ParseJoins(a: string, b: string)
    ensures Parse(a + ";" + b) == Parse(a) + Parse(b)
  {
    assert a + ";" + b == a + [';'] + b;
    SplitAt(a, ';', b);
    SegmentsConcat(map[], Split(a, ';'), Split(b, ';'));
    Overridden(Parse(a), Split(b, ';'));
  }

  /** Whatever the text, the parsed keys are not empty and neither keys nor values hold a separator. */
  lemma {:induction false} ParseIsClean(s: string)
    ensures Clean(Parse(s))
  {
    var segments := Split(s, ';');
    forall i | 0 <= i < |segments| ensures ';' !in segments[i] { SegmentsLack(s, ';', '=', i); }
    SegmentsAreClean(map[], segments);
  }

  lemma {:induction false} SegmentsAreClean(params: map<string, string>, segments: seq<string>)
    requires Clean(params) && forall i :: 0 <= i < |segments| ==> ';' !in segments[i]
    ensures Clean(WithSegments(params, segments))
    decreases |segments|
  {
    if segments != [] {
      var segment := segments[0];
      var kv := Split(segment, '=');
      SegmentsLack(segment, '=', ';', 0);
      if |kv| > 1 { SegmentsLack(segment, '=', ';', 1); }
      SegmentsAreClean(WithSegment(params, segment), segments[1..]);
    }
  }

  /**
   What one segment says: without an equals sign the key with an empty value, else
   the key with the text up to the second equals sign; an empty key says nothing.
   */
  lemma {:induction false} ParseSegment(k: string, v: string, rest: string)
    requires CleanText(k) && CleanText(v) && ';' !in rest
    ensures Parse(k) == if k == "" then map[] else map[k := ""]
    ensures Parse(k + "=" + v + "=" + rest) == if k == "" then map[] else map[k := v]
  {
    OneSegment(k);
    SplitNone(k, '=');
    var segment := k + "=" + v + "=" + rest;
    OneSegment(segment);
    assert segment == k + ['='] + (v + ['='] + rest);
    SplitAt(k, '=', v + ['='] + rest);
    SplitAt(v, '=', rest);
    SplitNone(v, '=');
    assert Split(segment, '=') == [k] + ([v] + Split(rest, '='));
  }

  lemma {:induction false} OneSegment(segment: string)
    requires ';' !in segment
    ensures Parse(segment) == WithSegment(map[], segment)
  {
    SplitNone(segment, ';');
    var one := WithSegment(map[], segment);
    assert [segment][1..] == [] && WithSegments(one, []) == one;
    assert WithSegments(map[], [segment]) == WithSegments(WithSegment(map[], [segment][0]), [segment][1..]);
  }

  lemma {:induction false} ParsePair(k: string, v: string)
    requires k != "" && CleanText(k) && CleanText(v)
    ensures Parse(k + "=" + v) == map[k := v]
  {
    var segment := k + "=" + v;
    assert segment == k + ['='] + v;
    assert ';' !in segment;
    SplitNone(segment, ';');
    SplitAt(k, '=', v);
    SplitNone(k, '=');
    SplitNone(v, '=');
    assert Split(segment, '=') == [k, v];
    assert WithSegment(map[], segment) == map[k := v];
    assert [segment][1..] == [] && WithSegments(map[k := v], []) == map[k := v];
    assert WithSegments(map[], [segment]) == WithSegments(WithSegment(map[], segment), [segment][1..]);
  }

  /** Printing a clean pair after `text` overrides what `text` says with that pair. */
  lemma {:induction false} ParsePrinted(pairs: seq<Pair>)
    requires forall i :: 0 <= i < |pairs| ==> pairs[i].key != "" && CleanText(pairs[i].key) && CleanText(pairs[i].value)
    ensures Parse(Print(pairs)) == LastValues(pairs)
  {
    if pairs == [] {
      assert Split("", ';') == [""] && [""][1..] == [];
    } else {
      var n := |pairs| - 1;
      var front, k, v := Print(pairs[..n]), pairs[n].key, pairs[n].value;
      ParsePrinted(pairs[..n]);
      ParsePair(k, v);
      PrintedEndsSegment(pairs[..n], k + "=" + v);
      ParseJoins(front + (k + "=" + v), "");
      assert front + k + "=" + v + ";" == front + (k + "=" + v) + ";" + "";
      assert Split("", ';') == [""] && [""][1..] == [];
    }
  }

  /** A printed text ends with a semicolon or is empty, so what follows is a segment of its own. */
  lemma {:induction false} PrintedEndsSegment(pairs: seq<Pair>, text: string)
    ensures Parse(Print(pairs) + text) == Parse(Print(pairs)) + Parse(text)
  {
    if pairs == [] {
      assert Print(pairs) + text == text;
      assert Split("", ';') == [""] && [""][1..] == [];
    } else {
      var n := |pairs| - 1;
      var body := Print(pairs[..n]) + pairs[n].key + "=" + pairs[n].value;
      assert Print(pairs) + text == body + ";" + text;
      assert Print(pairs) == body + ";" + "";
      ParseJoins(body, text);
      ParseJoins(body, "");
      assert Split("", ';') == [""] && [""][1..] == [];
    }
  }

  ghost function LastValues(pairs: seq<Pair>): map<string, string> {
    if pairs == [] then map[]
    else LastValues(pairs[..|pairs| - 1])[pairs[|pairs| - 1].key := pairs[|pairs| - 1].value]
  }

  lemma {:induction false} LastValuesOfMap(pairs: seq<Pair>, m: map<string, string>)
    requires Lists(pairs, m)
    ensures LastValues(pairs) == m
  {
    forall i | 0 <= i < |pairs|
      ensures pairs[i].key in LastValues(pairs) && LastValues(pairs)[pairs[i].key] == pairs[i].value
    {
      LastValueAt(pairs, i);
    }
    forall k | k in m ensures k in LastValues(pairs) && LastValues(pairs)[k] == m[k] {
      var i :| 0 <= i < |pairs| && pairs[i] == Pair(k, m[k]);
    }
    forall k | k in LastValues(pairs) ensures k in m { LastValueFrom(pairs, k); }
  }

  lemma {:induction false} LastValueAt(pairs: seq<Pair>, i: nat)
    requires i < |pairs| && forall i, j :: 0 <= i < j < |pairs| ==> pairs[i].key != pairs[j].key
    ensures pairs[i].key in LastValues(pairs) && LastValues(pairs)[pairs[i].key] == pairs[i].value
  {
    if i < |pairs| - 1 { LastValueAt(pairs[..|pairs| - 1], i); }
  }

  lemma {:induction false} LastValueFrom(pairs: seq<Pair>, k: string)
    requires k in LastValues(pairs)
    ensures exists i :: 0 <= i < |pairs| && pairs[i].key == k
  {
    var n := |pairs| - 1;
    if pairs[n].key != k {
      LastValueFrom(pairs[..n], k);
      var i :| 0 <= i < n && pairs[..n][i].key == k;
      assert pairs[i].key == k;
    }
  }

  /** Parsing undoes printing, in whatever order the map is printed, exactly for clean maps. */
  lemma {:induction false} RoundTrip(m: map<string, string>, pairs: seq<Pair>)
    requires Lists(pairs, m)
    ensures Parse(Print(pairs)) == m <==> Clean(m)
  {
    if Clean(m) {
      ParsePrinted(pairs);
      LastValuesOfMap(pairs, m);
    }
    ParseIsClean(Print(pairs));
  }
}
