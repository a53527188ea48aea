/** sanitizeFTS of internal/store/store.go, against the string syntax of SQLite's FTS5 query language. */
module Fts {
  import opened Basics
  import opened Text

  /** strings.ReplaceAll(s, `"`, ""). */
  function Unquoted(s: string): (r: string)
    ensures '"' !in r
    ensures forall c :: c in r <==> c in s && c != '"'
  {
    if s == "" then "" else (if s[0] == '"' then "" else [s[0]]) + Unquoted(s[1..])
  }

  lemma UnquotedFirst(c: char, s: string)
    ensures Unquoted([c] + s) == (if c == '"' then "" else [c]) + Unquoted(s)
  {
    assert ([c] + s)[1..] == s;
  }

  /** Taking the quotes out keeps the order of what remains.. */
  lemma {:induction false} UnquotedParts(a: string, b: string)
    ensures Unquoted(a + b) == Unquoted(a) + Unquoted(b)
  {
    if a == "" {
      assert a + b == b;
    } else {
      var c, t := a[0], a[1..];
      assert a == [c] + t && a + b == [c] + (t + b);
      UnquotedFirst(c, t);
      UnquotedFirst(c, t + b);
      UnquotedParts(t, b);
    }
  }

  /** ..of which nothing is changed. */
  lemma {:induction false} UnquotedKeeps(s: string)
    ensures Unquoted("\"") == ""
    ensures '"' !in s ==> Unquoted(s) == s
  {
    if s != "" {
      UnquotedKeeps(s[1..]);
    }
  }

  function Quoted(s: string): string {
    "\"" + s + "\""
  }

  function UnquotedAll(tokens: seq<string>): (r: seq<string>)
    ensures |r| == |tokens|
    ensures forall i :: 0 <= i < |tokens| ==> r[i] == Unquoted(tokens[i])
  {
    if tokens == [] then [] else [Unquoted(tokens[0])] + UnquotedAll(tokens[1..])
  }

  function QuotedAll(tokens: seq<string>): (r: seq<string>)
    ensures |r| == |tokens|
    ensures forall i :: 0 <= i < |tokens| ==> r[i] == Quoted(Unquoted(tokens[i]))
  {
    if tokens == [] then [] else [Quoted(Unquoted(tokens[0]))] + QuotedAll(tokens[1..])
  }

  function Sanitized(q: string): string {
    Join(QuotedAll(Fields(Trimmed(q))), " ")
  }

  method SanitizeFts(query: string) returns (text: string)
    ensures text == Sanitized(query)
  {
    var q := Trimmed(query);
    if q == "" {
      return "";
    }
    var tokens := Fields(q);
    for i := 0 to |tokens|
      invariant |tokens| == |Fields(q)|
      invariant forall j :: 0 <= j < |tokens| ==>
                  tokens[j] == if j < i then Quoted(Unquoted(Fields(q)[j])) else Fields(q)[j]
    {
      tokens := tokens[i := Quoted(Unquoted(tokens[i]))];
    }
    assert tokens == QuotedAll(Fields(q));
    text := Join(tokens, " ");
  }

  // ---------------- FTS5 strings ----------------

  /** The contents of a string up to its closing quote, a doubled quote standing for one, and what follows it. */
  function StringEnd(s: string): Option<(string, string)> {
    if s == "" then None
    else if s[0] != '"' then
      match StringEnd(s[1..])
      case None => None
      case Some((text, rest)) => Some(([s[0]] + text, rest))
    else if |s| > 1 && s[1] == '"' then
      match StringEnd(s[2..])
      case None => None
      case Some((text, rest)) => Some(("\"" + text, rest))
    else Some(("", s[1..]))
  }

  lemma {:induction false} StringEndShorter(s: string)
    ensures StringEnd(s).Some? ==> |StringEnd(s).value.1| < |s|
  {
    if s != "" {
      if s[0] != '"' {
        StringEndShorter(s[1..]);
      } else if |s| > 1 && s[1] == '"' {
        StringEndShorter(s[2..]);
      }
    }
  }

  /**
   * The strings of an expression that consists of quoted strings and blanks only; None if a string is not closed or if
   * anything else, an operator or a bareword, stands outside the quotes.
   */
  function Strings(s: string): Option<seq<string>>
    decreases |s|
  {
    if s == "" then Some([])
    else if s[0] == ' ' || s[0] == '\t' || s[0] == '\n' || s[0] == '\r' then Strings(s[1..])
    else if s[0] != '"' then None
    else
      StringEndShorter(s[1..]);
      match StringEnd(s[1..])
      case None => None
      case Some((text, rest)) =>
        match Strings(rest)
        case None => None
        case Some(more) => Some([text] + more)
  }

  lemma {:induction false} StringEndOf(text: string, rest: string)
    requires '"' !in text && (rest == "" || rest[0] != '"')
    ensures StringEnd(text + "\"" + rest) == Some((text, rest))
  {
    var s := text + "\"" + rest;
    if text == "" {
      assert s[1..] == rest;
    } else {
      assert s[1..] == text[1..] + "\"" + rest;
      StringEndOf(text[1..], rest);
      assert s[0] == text[0] && text[0] in text && [text[0]] + text[1..] == text;
    }
  }

  lemma StringsFirst(s: string, text: string, rest: string)
    requires s != "" && s[0] == '"' && StringEnd(s[1..]) == Some((text, rest)) && Strings(rest).Some?
    ensures Strings(s) == Some([text] + Strings(rest).value)
  { }

  lemma StringsOfQuoted(text: string, rest: string)
    requires '"' !in text && (rest == "" || rest[0] != '"') && Strings(rest).Some?
    ensures Strings(Quoted(text) + rest) == Some([text] + Strings(rest).value)
  {
    var s := Quoted(text) + rest;
    assert s[1..] == text + "\"" + rest;
    StringEndOf(text, rest);
    StringsFirst(s, text, rest);
  }

  lemma StringsAfterBlank(s: string)
    ensures Strings(" " + s) == Strings(s)
  {
    assert (" " + s)[1..] == s;
  }

  lemma JoinFirst(part: string, rest: seq<string>, sep: string)
    ensures Join([part] + rest, sep) == if rest == [] then part else part + sep + Join(rest, sep)
  {
    assert ([part] + rest)[1..] == rest;
  }

  lemma {:induction false} StringsOfJoin(tokens: seq<string>)
    ensures Strings(Join(QuotedAll(tokens), " ")) == Some(UnquotedAll(tokens))
  {
    if tokens != [] {
      var text, parts := Unquoted(tokens[0]), QuotedAll(tokens[1..]);
      var rest := if parts == [] then "" else " " + Join(parts, " ");
      JoinFirst(Quoted(text), parts, " ");
      StringsOfJoin(tokens[1..]);
      StringsAfterBlank(Join(parts, " "));
      StringsOfQuoted(text, rest);
      assert Join([Quoted(text)] + parts, " ") == Quoted(text) + rest;
    }
  }

  // ---------------- fields and trimming ----------------

  lemma {:induction false} FieldsSkipFirst(c: char, s: string)
    requires IsSpace(c)
    ensures Fields([c] + s) == Fields(s)
  {
    var t := [c] + s;
    assert t[1..] == s;
    assert t[Span(t, true)..] == s[Span(s, true)..];
  }

  lemma FieldsOfOneMore(gap: string, f: string, tail: string, c: char)
    requires AllSpace(gap) && IsField(f) && (tail == "" || IsSpace(tail[0])) && IsSpace(c)
    ensures Fields((gap + f + tail) + [c]) == [f] + Fields(tail + [c])
  {
    assert (gap + f + tail) + [c] == gap + f + (tail + [c]);
    FieldsOfOne(gap, f, tail + [c]);
  }

  lemma BlankHasNoField(s: string)
    requires AllSpace(s)
    ensures Fields(s) == []
  {
    SpanSplits(s, "", true);
    assert s + "" == s;
  }

  lemma NoFieldIsBlank(s: string)
    requires Fields(s) == []
    ensures AllSpace(s)
  { }

  lemma {:induction false} FieldsSkipLast(s: string, c: char)
    requires IsSpace(c)
    ensures Fields(s + [c]) == Fields(s)
    decreases |s|
  {
    if Fields(s) == [] {
      NoFieldIsBlank(s);
      BlankHasNoField(s + [c]);
    } else {
      var gap, f, tail := FirstField(s);
      assert f in Fields(s);
      FieldsOfOneMore(gap, f, tail, c);
      FieldsSkipLast(tail, c);
    }
  }

  /** Trimming changes no field. */
  lemma {:induction false} FieldsOfTrimmed(s: string)
    ensures Fields(Trimmed(s)) == Fields(s)
    decreases |s|
  {
    if s != "" {
      if IsSpace(s[0]) {
        var t := s[1..];
        assert s == [s[0]] + t;
        FieldsOfTrimmed(t);
        FieldsSkipFirst(s[0], t);
      } else if IsSpace(s[|s| - 1]) {
        var t, c := s[..|s| - 1], s[|s| - 1];
        assert s == t + [c];
        FieldsOfTrimmed(t);
        FieldsSkipLast(t, c);
      }
    }
  }

  /**
   * For every input the sanitized text is a well-formed list of quoted strings, one for each whitespace-separated
   * field, with the quotes of the field removed.
   */
  lemma SanitizedIsStrings(q: string)
    ensures Strings(Sanitized(q)) == Some(UnquotedAll(Fields(q)))
  {
    FieldsOfTrimmed(q);
    StringsOfJoin(Fields(q));
  }

  /** The text is empty, and Search gives up, exactly when there is no field. */
  lemma SanitizedEmpty(q: string)
    ensures Sanitized(q) == "" <==> Fields(q) == []
  {
    FieldsOfTrimmed(q);
    var all := QuotedAll(Fields(q));
    if all != [] {
      assert all[0][0] == '"';
    }
  }
}
