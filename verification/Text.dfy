/** The string operations of Go's `strings` package that the program leans on. Strings are sequences of runes. */
module Text {

  /** unicode.IsSpace. */
  predicate IsSpace(c: char) {
    || '\t' <= c <= '\r' || c == ' ' || c == '\U{85}' || c == '\U{A0}' || c == '\U{1680}'
    || '\U{2000}' <= c <= '\U{200A}' || c == '\U{2028}' || c == '\U{2029}' || c == '\U{202F}'
    || c == '\U{205F}' || c == '\U{3000}'
  }

  /** strings.ToLower maps every rune on its own; `lower` is that mapping (unicode.ToLower, or any other). */
  function ToLower(lower: char -> char, s: string): (r: string)
    ensures |r| == |s|
    ensures forall i :: 0 <= i < |s| ==> r[i] == lower(s[i])
  {
    seq(|s|, i requires 0 <= i < |s| => lower(s[i]))
  }

  predicate HasPrefix(s: string, p: string) {
    |p| <= |s| && s[..|p|] == p
  }

  /** strings.Contains. */
  predicate Contains(s: string, sub: string) {
    HasPrefix(s, sub) || (s != "" && Contains(s[1..], sub))
  }

  /** Contains finds a substring exactly when there is a place where it stands. */
  lemma {:induction false} ContainsIsSubstring(s: string, sub: string)
    ensures Contains(s, sub) <==> exists i :: 0 <= i <= |s| && HasPrefix(s[i..], sub)
  {
    assert s[0..] == s;
    if s != "" {
      var t := s[1..];
      ContainsIsSubstring(t, sub);
      forall i | 0 <= i <= |t| ensures t[i..] == s[i + 1..] { }
      if i :| 0 <= i <= |s| && HasPrefix(s[i..], sub) {
        if i > 0 { assert HasPrefix(t[i - 1..], sub); }
      }
    }
  }

  function Trimmed(s: string): (r: string)
    ensures |r| <= |s|
    ensures r != "" ==> !IsSpace(r[0]) && !IsSpace(r[|r| - 1])
  {
    if s == "" then ""
    else if IsSpace(s[0]) then Trimmed(s[1..])
    else if IsSpace(s[|s| - 1]) then Trimmed(s[..|s| - 1])
    else s
  }

  predicate AllSpace(s: string) {
    forall i :: 0 <= i < |s| ==> IsSpace(s[i])
  }

  lemma AllSpaceJoins(a: string, b: string)
    requires AllSpace(a) && AllSpace(b)
    ensures AllSpace(a + b)
  { }

  /** Trimming takes white space off both ends, and with the contract above all of it. */
  lemma {:induction false} TrimmedCover(s: string) returns (a: string, b: string)
    ensures s == a + Trimmed(s) + b && AllSpace(a) && AllSpace(b)
    decreases |s|
  {
    if s == "" || (!IsSpace(s[0]) && !IsSpace(s[|s| - 1])) {
      a, b := "", "";
    } else if IsSpace(s[0]) {
      a, b := TrimmedCoverFirst(s);
    } else {
      a, b := TrimmedCoverLast(s);
    }
  }

  lemma {:induction false} TrimmedCoverFirst(s: string) returns (a: string, b: string)
    requires s != "" && IsSpace(s[0])
    ensures s == a + Trimmed(s) + b && AllSpace(a) && AllSpace(b)
    decreases |s|, 0
  {
    var x;
    x, b := TrimmedCover(s[1..]);
    AllSpaceJoins([s[0]], x);
    a := PrefixedAround(s[0], x, Trimmed(s), b);
  }

  lemma {:induction false} TrimmedCoverLast(s: string) returns (a: string, b: string)
    requires s != "" && !IsSpace(s[0]) && IsSpace(s[|s| - 1])
    ensures s == a + Trimmed(s) + b && AllSpace(a) && AllSpace(b)
    decreases |s|, 0
  {
    var y;
    a, y := TrimmedCover(s[..|s| - 1]);
    AllSpaceJoins(y, [s[|s| - 1]]);
    b := SuffixedAround(s[|s| - 1], a, Trimmed(s), y);
  }

  lemma PrefixedAround(c: char, a: string, m: string, b: string) returns (ca: string)
    ensures ca == [c] + a && [c] + (a + m + b) == ca + m + b
  {
    ca := [c] + a;
  }

  lemma SuffixedAround(c: char, a: string, m: string, b: string) returns (bc: string)
    ensures bc == b + [c] && a + m + b + [c] == a + m + bc
  {
    bc := b + [c];
  }

  /** The number of leading runes of `s` that are spaces (`space`) or that are not (`!space`). */
  function Span(s: string, space: bool): (n: nat)
    ensures n <= |s|
    ensures forall i :: 0 <= i < n ==> IsSpace(s[i]) == space
    ensures n < |s| ==> IsSpace(s[n]) != space
  {
    if s == "" || IsSpace(s[0]) != space then 0 else 1 + Span(s[1..], space)
  }

  /** A maximal run of non-space runes. */
  predicate IsField(f: string) {
    f != "" && forall c :: c in f ==> !IsSpace(c)
  }

  /** strings.Fields. */
  function Fields(s: string): (fs: seq<string>)
    ensures forall f :: f in fs ==> IsField(f)
    decreases |s|
  {
    var skip := Span(s, true);
    var rest := s[skip..];
    if rest == "" then []
    else
      var n := Span(rest, false);
      [rest[..n]] + Fields(rest[n..])
  }

  /** gaps[0] f[0] gaps[1] f[1] .. gaps[|f|]. */
  function Spaced(fs: seq<string>, gaps: seq<string>): string
    requires |gaps| == |fs| + 1
  {
    if fs == [] then gaps[0] else gaps[0] + fs[0] + Spaced(fs[1..], gaps[1..])
  }

  /** White space, of which only the first and the last may be missing. */
  predicate AreGaps(gaps: seq<string>) {
    && (forall i :: 0 <= i < |gaps| ==> AllSpace(gaps[i]))
    && (forall i :: 0 < i < |gaps| - 1 ==> gaps[i] != "")
  }

  lemma {:induction false} SpanSplits(a: string, b: string, space: bool)
    requires forall i :: 0 <= i < |a| ==> IsSpace(a[i]) == space
    requires b == "" || IsSpace(b[0]) != space
    ensures Span(a + b, space) == |a|
  {
    if a == "" {
      assert a + b == b;
    } else {
      assert (a + b)[1..] == a[1..] + b;
      SpanSplits(a[1..], b, space);
    }
  }

  lemma FieldsOfOne(gap: string, f: string, tail: string)
    requires AllSpace(gap) && IsField(f) && (tail == "" || IsSpace(tail[0]))
    ensures Fields(gap + f + tail) == [f] + Fields(tail)
  {
    var s, rest := gap + f + tail, f + tail;
    assert f[0] in f && s == gap + rest;
    SpanSplits(gap, rest, true);
    SpanSplits(f, tail, false);
    assert s[|gap|..] == rest && rest[..|f|] == f && rest[|f|..] == tail;
  }

  lemma GapsAfter(gaps: seq<string>)
    requires |gaps| > 1 && AreGaps(gaps)
    ensures AreGaps(gaps[1..])
  { }

  lemma SpacedStarts(fs: seq<string>, gaps: seq<string>)
    requires |gaps| == |fs| + 1 && AllSpace(gaps[0]) && (fs != [] ==> gaps[0] != "")
    ensures Spaced(fs, gaps) == "" || IsSpace(Spaced(fs, gaps)[0])
  { }

  /** Fields finds exactly the fields: whatever stands with white space around and between is what it returns. */
  lemma {:induction false} FieldsOfSpaced(fs: seq<string>, gaps: seq<string>)
    requires |gaps| == |fs| + 1 && AreGaps(gaps) && forall i :: 0 <= i < |fs| ==> IsField(fs[i])
    ensures Fields(Spaced(fs, gaps)) == fs
  {
    if fs == [] {
      SpanSplits(gaps[0], "", true);
      assert gaps[0] + "" == gaps[0];
    } else {
      GapsAfter(gaps);
      FieldsOfSpaced(fs[1..], gaps[1..]);
      SpacedStarts(fs[1..], gaps[1..]);
      FieldsOfOne(gaps[0], fs[0], Spaced(fs[1..], gaps[1..]));
      assert fs == [fs[0]] + fs[1..];
    }
  }

  lemma GapsBefore(gap: string, gaps: seq<string>)
    requires AllSpace(gap) && gaps != [] && AreGaps(gaps) && (|gaps| > 1 ==> gaps[0] != "")
    ensures AreGaps([gap] + gaps)
  { }

  lemma SpacedCons(gap: string, f: string, fs: seq<string>, gaps: seq<string>)
    requires |gaps| == |fs| + 1
    ensures Spaced([f] + fs, [gap] + gaps) == gap + f + Spaced(fs, gaps)
  {
    assert ([f] + fs)[1..] == fs && ([gap] + gaps)[1..] == gaps;
  }

  lemma FirstField(s: string) returns (gap: string, f: string, tail: string)
    requires Fields(s) != []
    ensures s == gap + f + tail && Fields(s) == [f] + Fields(tail) && |tail| < |s|
    ensures AllSpace(gap) && (IsSpace(s[0]) ==> gap != "") && (tail == "" || IsSpace(tail[0]))
  {
    var skip := Span(s, true);
    var rest := s[skip..];
    var n := Span(rest, false);
    gap, f, tail := s[..skip], rest[..n], rest[n..];
  }

  /** And every string is of that form, with its fields. */
  lemma {:induction false} FieldsCover(s: string) returns (gaps: seq<string>)
    ensures |gaps| == |Fields(s)| + 1 && AreGaps(gaps) && Spaced(Fields(s), gaps) == s
    ensures s != "" && IsSpace(s[0]) ==> gaps[0] != ""
    decreases |s|
  {
    if Fields(s) == [] {
      gaps := [s];
    } else {
      var gap, f, tail := FirstField(s);
      var more := FieldsCover(tail);
      gaps := [gap] + more;
      GapsBefore(gap, more);
      SpacedCons(gap, f, Fields(tail), more);
    }
  }

  /** strings.Join. */
  function Join(parts: seq<string>, sep: string): string {
    if parts == [] then ""
    else if |parts| == 1 then parts[0]
    else parts[0] + sep + Join(parts[1..], sep)
  }

  /** strings.Split on a one-rune separator: never empty, and "" splits into [""]. */
  function Split(s: string, sep: char): (r: seq<string>)
    ensures |r| >= 1
    ensures forall p :: p in r ==> sep !in p
  {
    if s == "" then [""]
    else
      var rest := Split(s[1..], sep);
      if s[0] == sep then [""] + rest else [[s[0]] + rest[0]] + rest[1..]
  }

  /** Joining the pieces gives the string back, so with the contract above Split is the one splitting there is. */
  lemma {:induction false} SplitJoins(s: string, sep: char)
    ensures Join(Split(s, sep), [sep]) == s
  {
    if s != "" {
      SplitJoins(s[1..], sep);
      var rest := Split(s[1..], sep);
      if s[0] == sep {
        assert Join([""] + rest, [sep]) == "" + [sep] + Join(rest, [sep]) by { assert ([""] + rest)[1..] == rest; }
      } else {
        var r := [[s[0]] + rest[0]] + rest[1..];
        assert r[1..] == rest[1..];
        assert Join(r, [sep]) == [s[0]] + Join(rest, [sep]);
      }
    }
  }

  lemma {:induction false} SplitWhole(s: string, sep: char)
    requires sep !in s
    ensures Split(s, sep) == [s]
  {
    if s != "" {
      SplitWhole(s[1..], sep);
      assert [s[0]] + s[1..] == s;
    }
  }

  /** Appending a separator and a piece appends exactly that piece to the split. */
  lemma {:induction false} SplitAppend(a: string, sep: char, s: string)
    requires sep !in s
    ensures Split(a + [sep] + s, sep) == Split(a, sep) + [s]
  {
    var whole := a + [sep] + s;
    if a == "" {
      assert whole[1..] == s;
      SplitWhole(s, sep);
    } else {
      SplitAppend(a[1..], sep, s);
      assert whole[1..] == a[1..] + [sep] + s;
    }
  }
}
