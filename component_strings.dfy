/**
  Maya component strings such as `pCube1.e[8]` or `pCube1.f[2:5]`: the pattern that both
  versions of `separateComponentString` match, `name.type[indices`, the text groups of a match,
  and the reading of the indices group as one index or an inclusive range.
*/
module ComponentStrings {
  import opened Common

  /** What a Python call raises, when it raises. */
  datatype PyError = ValueError | IndexError

  datatype Outcome<T> = Ok(value: T) | Raises(error: PyError)

  /** The three groups of a match: the object name, the component type and the indices text. */
  datatype ComponentMatch = ComponentMatch(objectName: string, kind: string, indices: string)

  /** The length of the longest prefix of `s` that does not hold `c`. */
  function Span(s: string, c: char): (n: nat)
    ensures n <= |s|
    ensures forall i :: 0 <= i < n ==> s[i] != c
    ensures n < |s| ==> s[n] == c
  {
    if s == [] || s[0] == c then 0 else 1 + Span(s[1..], c)
  }

  /**
    The pattern `([^.]+)\.([^\[]+)\[([^\]]+)` matched at the start of `s`. Each group is the
    longest run without its stop character and none may be empty; the closing `]` is not part
    of the pattern, so whatever follows the indices is ignored.
  */
  function MatchComponent(s: string): Option<ComponentMatch> {
    var i := Span(s, '.');
    if i == 0 || i == |s| then None
    else
      var after := s[i + 1..];
      var j := Span(after, '[');
      if j == 0 || j == |after| then None
      else
        var rest := after[j + 1..];
        var k := Span(rest, ']');
        if k == 0 then None
        else Some(ComponentMatch(s[..i], after[..j], rest[..k]))
  }

  /** The text the whole pattern matched: group 0. */
  function MatchedText(m: ComponentMatch): string {
    m.objectName + "." + m.kind + "[" + m.indices
  }

  /** A printed range `name.type[a:b]` is the text its match reads, closed by the bracket. */
  lemma RangeText(name: string, kind: string, da: string, db: string)
    ensures name + "." + kind + "[" + da + ":" + db + "]"
         == MatchedText(ComponentMatch(name, kind, da + ":" + db)) + "]"
  {
    var head := name + "." + kind + "[";
    assert head + da + ":" + db == head + (da + ":" + db);
  }

  /** Groups as the pattern can produce them: non-empty and free of their stop characters. */
  predicate WellFormed(m: ComponentMatch) {
    && m.objectName != [] && '.' !in m.objectName
    && m.kind != [] && '[' !in m.kind
    && m.indices != [] && ']' !in m.indices
  }

  /** What may follow the indices in a string that matches: nothing, or the closing bracket first. */
  predicate Closes(tail: string) {
    tail == [] || tail[0] == ']'
  }

  /** `match.group(g)` for the text groups; any group number other than 0 to 3 raises IndexError. */
  function GroupText(m: ComponentMatch, g: int): (r: Outcome<string>)
    requires g != 3
    ensures r.Ok? <==> 0 <= g <= 2
  {
    if g == 0 then Ok(MatchedText(m))
    else if g == 1 then Ok(m.objectName)
    else if g == 2 then Ok(m.kind)
    else Raises(IndexError)
  }

  /** A run without `c`, followed by `c` or by nothing, spans exactly that run. */
  lemma {:induction false} SpanStops(a: string, b: string, c: char)
    requires c !in a && (b == [] || b[0] == c)
    ensures Span(a + b, c) == |a|
  {
    if a != [] {
      assert (a + b)[0] == a[0] && (a + b)[1..] == a[1..] + b;
      SpanStops(a[1..], b, c);
    }
  }

  /** The groups of a match are non-empty and free of their stop characters. */
  lemma MatchWellFormed(s: string)
    requires MatchComponent(s).Some?
    ensures WellFormed(MatchComponent(s).value)
  {
    var i := Span(s, '.');
    var after := s[i + 1..];
    var j := Span(after, '[');
    var rest := after[j + 1..];
    var k := Span(rest, ']');
    assert forall x :: 0 <= x < i ==> s[..i][x] == s[x];
    assert forall x :: 0 <= x < j ==> after[..j][x] == after[x];
    assert forall x :: 0 <= x < k ==> rest[..k][x] == rest[x];
  }

  /**
    A matching string is its groups printed as `name.type[indices`, followed by nothing or by
    `]`: printing the groups of a match gives back the start of the string.
  */
  lemma MatchSound(s: string)
    requires MatchComponent(s).Some?
    ensures exists tail :: s == MatchedText(MatchComponent(s).value) + tail && Closes(tail)
  {
    var i := Span(s, '.');
    var after := s[i + 1..];
    var j := Span(after, '[');
    var rest := after[j + 1..];
    var k := Span(rest, ']');
    MatchFromSpans(s, i, j, k);
    PrintedParts(s, i, after, j, rest, k);
    assert Closes(rest[k..]);
  }

  /** A string cut at a `.` and then at a `[` is its three parts printed, then the rest. */
  lemma PrintedParts(s: string, i: nat, after: string, j: nat, rest: string, k: nat)
    requires i < |s| && s[i] == '.' && after == s[i + 1..]
    requires j < |after| && after[j] == '[' && rest == after[j + 1..] && k <= |rest|
    ensures s == MatchedText(ComponentMatch(s[..i], after[..j], rest[..k])) + rest[k..]
  {
    var m := ComponentMatch(s[..i], after[..j], rest[..k]);
    var tail := rest[k..];
    assert rest == m.indices + tail;
    assert after == m.kind + ("[" + rest) by {
      SplitAround(after, j);
    }
    assert s == m.objectName + ("." + after) by {
      SplitAround(s, i);
    }
    PrintNested(m, tail);
  }

  /** A string around one of its positions. */
  lemma SplitAround(s: string, i: nat)
    requires i < |s|
    ensures s == s[..i] + ([s[i]] + s[i + 1..])
  {
    assert s[i..] == [s[i]] + s[i + 1..];
  }

  /** The printed triple, associated to the right. */
  lemma PrintNested(m: ComponentMatch, tail: string)
    ensures MatchedText(m) + tail == m.objectName + ("." + (m.kind + ("[" + (m.indices + tail))))
  {
    var o, k, x := m.objectName, m.kind, m.indices;
    AppendAssoc(o + "." + k + "[", x, tail);
    AppendAssoc(o + "." + k, "[", x + tail);
    AppendAssoc(o + ".", k, "[" + (x + tail));
    AppendAssoc(o, ".", k + ("[" + (x + tail)));
  }

  /** Reading a printed well-formed triple gives it back, whatever closes it. */
  lemma MatchComplete(m: ComponentMatch, tail: string)
    requires WellFormed(m) && Closes(tail)
    ensures MatchComponent(MatchedText(m) + tail) == Some(m)
  {
    var s := MatchedText(m) + tail;
    var rest := m.indices + tail;
    var after := m.kind + ("[" + rest);
    var i, j, k := |m.objectName|, |m.kind|, |m.indices|;
    assert Span(s, '.') == i && s[..i] == m.objectName && s[i + 1..] == after by {
      PrintNested(m, tail);
      SpanStops(m.objectName, "." + after, '.');
      CutAt(m.objectName, '.', after);
    }
    assert Span(after, '[') == j && after[..j] == m.kind && after[j + 1..] == rest by {
      SpanStops(m.kind, "[" + rest, '[');
      CutAt(m.kind, '[', rest);
    }
    assert Span(rest, ']') == k && rest[..k] == m.indices by {
      SpanStops(m.indices, tail, ']');
    }
    MatchFromSpans(s, i, j, k);
  }

  /** The two sides of a string cut at one character. */
  lemma CutAt(a: string, c: char, b: string)
    ensures (a + ([c] + b))[..|a|] == a && (a + ([c] + b))[|a| + 1..] == b
  {
  }

  /** The match read off the three spans of a string. */
  lemma MatchFromSpans(s: string, i: nat, j: nat, k: nat)
    requires Span(s, '.') == i && 0 < i < |s|
    requires Span(s[i + 1..], '[') == j && 0 < j < |s| - i - 1
    requires Span(s[i + 1..][j + 1..], ']') == k > 0
    ensures MatchComponent(s) == Some(ComponentMatch(s[..i], s[i + 1..][..j], s[i + 1..][j + 1..][..k]))
  {
  }

  /* ---------------- the indices group ---------------- */

  /** One index, or the bounds of an inclusive range. */
  datatype Indices = Single(index: nat) | Range(first: nat, last: nat)

  /** The length of the longest prefix of ASCII digits. */
  function DigitRun(s: string): (n: nat)
    ensures n <= |s| && AllDigits(s[..n])
    ensures n < |s| ==> !IsDigit(s[n])
  {
    if s == [] || !IsDigit(s[0]) then 0
    else
      var n := 1 + DigitRun(s[1..]);
      assert s[..n] == [s[0]] + s[1..][..n - 1];
      n
  }

  /**
    The indices group read the way both versions read it: `(\d+):(\d+)` matched at its start
    gives a range, and otherwise `int()` of the whole group gives one index. Text that is
    neither raises ValueError.
  */
  function ParseIndices(g: string): Outcome<Indices> {
    var a := DigitRun(g);
    if 0 < a < |g| && g[a] == ':' && DigitRun(g[a + 1..]) > 0 then
      var b := DigitRun(g[a + 1..]);
      Ok(Range(ParseDigits(g[..a]), ParseDigits(g[a + 1..][..b])))
    else if g != [] && AllDigits(g) then Ok(Single(ParseDigits(g)))
    else Raises(ValueError)
  }

  /** `list(range(first, last + 1))`: empty when `last < first`. */
  function InclusiveRange(first: nat, last: nat): (r: seq<nat>)
    ensures |r| == if last < first then 0 else last - first + 1
    ensures forall i :: 0 <= i < |r| ==> r[i] == first + i
  {
    seq(if last < first then 0 else last - first + 1, i => first + i)
  }

  /** The indices a group stands for: the one index, or every index of the range in order. */
  function IndexList(ix: Indices): seq<nat> {
    match ix
    case Single(n) => [n]
    case Range(first, last) => InclusiveRange(first, last)
  }

  /** A range holds exactly the numbers between its bounds. */
  lemma InclusiveRangeMembers(first: nat, last: nat, x: nat)
    ensures x in InclusiveRange(first, last) <==> first <= x <= last
  {
    var r := InclusiveRange(first, last);
    if first <= x <= last {
      assert r[x - first] == x;
    }
  }

  /** A string of digits is one digit run. */
  lemma {:induction false} DigitRunAll(s: string)
    requires AllDigits(s)
    ensures DigitRun(s) == |s|
  {
    if s != [] {
      DigitRunAll(s[1..]);
    }
  }

  /** A printed index reads back as that index. */
  lemma ParseSingle(n: nat)
    ensures ParseIndices(NatToString(n)) == Ok(Single(n))
  {
    DigitRunAll(NatToString(n));
    ParseNatToString(n);
  }

  /** A printed range `a:b` reads back as that range. */
  lemma ParseRange(a: nat, b: nat)
    ensures ParseIndices(NatToString(a) + ":" + NatToString(b)) == Ok(Range(a, b))
  {
    var da, db := NatToString(a), NatToString(b);
    var g := da + ":" + db;
    DigitRunAll(da);
    DigitRunAll(db);
    assert g == da + (":" + db);
    assert DigitRun(g) == |da| by {
      DigitRunPrefix(da, ":" + db);
    }
    assert g[..|da|] == da;
    assert g[|da| + 1..] == db;
    assert db[..|db|] == db;
    ParseNatToString(a);
    ParseNatToString(b);
  }

  /** A digit run ends at the first character that is not a digit. */
  lemma {:induction false} DigitRunPrefix(a: string, b: string)
    requires AllDigits(a) && b != [] && !IsDigit(b[0])
    ensures DigitRun(a + b) == |a|
  {
    if a == [] {
      assert a + b == b;
    } else {
      assert (a + b)[0] == a[0] && (a + b)[1..] == a[1..] + b;
      DigitRunPrefix(a[1..], b);
    }
  }

  /** Indices that do not start with a digit cannot be read: `int()` raises. */
  lemma ParseNonDigit(g: string)
    requires g == [] || !IsDigit(g[0])
    ensures ParseIndices(g) == Raises(ValueError)
  {
  }
}
