/** internal/search/search.go: filtering, merging, deduplicating and ranking of search results. */
module Results {
  import opened Basics
  import opened Text

  /** `date` is an instant, 0 being time.Time's zero value. */
  datatype Result = Result(title: string, infoHash: string, magnet: string, size: int,
                           seeders: int, leechers: int, source: string, date: int)

  // ---------------- filterByQuery ----------------

  predicate Matches(lower: char -> char, tokens: seq<string>, title: string) {
    forall t :: t in tokens ==> Contains(ToLower(lower, title), t)
  }

  function Filtered(lower: char -> char, tokens: seq<string>, rows: seq<Result>): seq<Result> {
    if rows == [] then []
    else
      var n := |rows| - 1;
      Filtered(lower, tokens, rows[..n]) + if Matches(lower, tokens, rows[n].title) then [rows[n]] else []
  }

  function Tokens(lower: char -> char, query: string): seq<string> {
    Fields(ToLower(lower, query))
  }

  lemma {:induction false} FilteredAppend(lower: char -> char, tokens: seq<string>, a: seq<Result>, b: seq<Result>)
    ensures Filtered(lower, tokens, a + b) == Filtered(lower, tokens, a) + Filtered(lower, tokens, b)
  {
    if b == [] {
      assert a + b == a;
    } else {
      var n := |b| - 1;
      FilteredAppend(lower, tokens, a, b[..n]);
      assert (a + b)[..|a + b| - 1] == a + b[..n];
    }
  }

  lemma {:induction false} FilteredMembers(lower: char -> char, tokens: seq<string>, rows: seq<Result>)
    ensures forall r :: r in Filtered(lower, tokens, rows) <==> r in rows && Matches(lower, tokens, r.title)
    ensures tokens == [] ==> Filtered(lower, tokens, rows) == rows
  {
    if rows != [] {
      FilteredMembers(lower, tokens, rows[..|rows| - 1]);
      assert rows == rows[..|rows| - 1] + [rows[|rows| - 1]];
    }
  }

  /** A single result is kept as it is or dropped; with FilteredAppend this fixes order and number of the results. */
  lemma FilteredOne(lower: char -> char, tokens: seq<string>, r: Result)
    ensures Filtered(lower, tokens, [r]) == if Matches(lower, tokens, r.title) then [r] else []
  {
    assert [r][..0] == [];
  }

  /** The same text, rune by rune, once `lower` is applied to the first. */
  predicate IsLowered(lower: char -> char, s: string, t: string) {
    |t| == |s| && forall i :: 0 <= i < |s| ==> t[i] == lower(s[i])
  }

  /** `f` stands somewhere in `t`. */
  predicate StandsIn(f: string, t: string) {
    exists i :: 0 <= i <= |t| && HasPrefix(t[i..], f)
  }

  lemma MatchesMeans(lower: char -> char, tokens: seq<string>, title: string, t: string)
    requires IsLowered(lower, title, t)
    ensures Matches(lower, tokens, title) <==> forall f :: f in tokens ==> StandsIn(f, t)
  {
    assert ToLower(lower, title) == t;
    forall f ensures Contains(t, f) <==> StandsIn(f, t) {
      ContainsIsSubstring(t, f);
    }
  }

  /** In full: a result is kept iff every field of the lower-cased query stands somewhere in its lower-cased title. */
  lemma FilteredMeans(lower: char -> char, query: string, rows: seq<Result>, r: Result, q: string, t: string)
    requires IsLowered(lower, query, q) && IsLowered(lower, r.title, t)
    ensures r in Filtered(lower, Tokens(lower, query), rows) <==>
            r in rows && forall f :: f in Fields(q) ==> StandsIn(f, t)
  {
    assert ToLower(lower, query) == q;
    FilteredMembers(lower, Fields(q), rows);
    MatchesMeans(lower, Fields(q), r.title, t);
  }

  method FilterByQuery(lower: char -> char, rows: seq<Result>, query: string) returns (out: seq<Result>)
    ensures out == Filtered(lower, Tokens(lower, query), rows)
    ensures forall r :: r in out <==> r in rows && Matches(lower, Tokens(lower, query), r.title)
  {
    var tokens := Fields(ToLower(lower, query));
    FilteredMembers(lower, tokens, rows);
    if |tokens| == 0 {
      return rows;
    }
    out := [];
    for i := 0 to |rows|
      invariant out == Filtered(lower, tokens, rows[..i])
    {
      var title := ToLower(lower, rows[i].title);
      var keep := true;
      for j := 0 to |tokens|
        invariant keep <==> forall t :: t in tokens[..j] ==> Contains(title, t)
      {
        if !Contains(title, tokens[j]) {
          assert tokens[j] in tokens;
          keep := false;
          break;
        }
      }
      assert tokens[..|tokens|] == tokens;
      assert rows[..i + 1][..i] == rows[..i];
      if keep {
        out := out + [rows[i]];
      }
    }
    assert rows[..|rows|] == rows;
  }

  // ---------------- mergeSources ----------------

  /** The source names in a "+"-joined list. */
  function Names(source: string): set<string> {
    set n | n in Split(source, '+') && n != ""
  }

  /** `a` extended by the `names` that are neither empty nor among the `known` ones. */
  function Extended(a: string, known: set<string>, names: seq<string>): string
    decreases |names|
  {
    if names == [] then a
    else if names[0] == "" || names[0] in known then Extended(a, known, names[1..])
    else Extended(a + "+" + names[0], known + {names[0]}, names[1..])
  }

  function SourceUnion(a: string, b: string): string {
    if a == "" then b else Extended(a, (set n | n in Split(a, '+')), Split(b, '+'))
  }

  ghost predicate NoDuplicates(names: seq<string>) {
    forall i, j :: 0 <= i < j < |names| ==> names[i] != names[j]
  }

  lemma {:induction false} ExtendedSplits(a: string, known: set<string>, names: seq<string>)
    requires known == set n | n in Split(a, '+')
    requires forall n :: n in names ==> '+' !in n
    ensures a <= Extended(a, known, names)
    ensures forall n :: n in Split(Extended(a, known, names), '+') <==> n in known || (n in names && n != "")
    ensures NoDuplicates(Split(a, '+')) ==> NoDuplicates(Split(Extended(a, known, names), '+'))
    decreases |names|
  {
    if names != [] {
      var s, rest := names[0], names[1..];
      assert names == [s] + rest;
      if s == "" || s in known {
        ExtendedSplits(a, known, rest);
      } else {
        SplitAppend(a, '+', s);
        ExtendedSplits(a + "+" + s, known + {s}, rest);
      }
    }
  }

  /** Merging unites the names, loses and invents none, keeps `a` as a prefix and introduces no duplicate. */
  lemma SourceUnionNames(a: string, b: string)
    ensures Names(SourceUnion(a, b)) == Names(a) + Names(b)
    ensures a <= SourceUnion(a, b)
    ensures NoDuplicates(Split(a, '+')) && NoDuplicates(Split(b, '+')) ==>
              NoDuplicates(Split(SourceUnion(a, b), '+'))
  {
    if a != "" {
      ExtendedSplits(a, (set n | n in Split(a, '+')), Split(b, '+'));
    }
  }

  lemma {:induction false} ExtendedAppend(a: string, known: set<string>, names: seq<string>, s: string)
    ensures Extended(a, known, names + [s]) ==
            Extended(a, known, names) + if s == "" || s in known || s in names then "" else "+" + s
    decreases |names|
  {
    if names == [] {
      assert ([] + [s])[1..] == [];
    } else {
      assert (names + [s])[1..] == names[1..] + [s] && names == [names[0]] + names[1..];
      if names[0] == "" || names[0] in known {
        ExtendedAppend(a, known, names[1..], s);
      } else {
        ExtendedAppend(a + "+" + names[0], known + {names[0]}, names[1..], s);
      }
    }
  }

  /** The names of `b` that are new are appended in their order, each at its first appearance. */
  lemma SourceUnionOrder(a: string, b: string, s: string)
    requires a != "" && '+' !in s
    ensures SourceUnion(a, b + ['+'] + s) ==
            SourceUnion(a, b) + if s == "" || s in Names(a) + Names(b) then "" else "+" + s
    ensures SourceUnion(a, s) == a + (if s == "" || s in Names(a) then "" else "+" + s) && SourceUnion("", b) == b
  {
    SplitAppend(b, '+', s);
    ExtendedAppend(a, (set n | n in Split(a, '+')), Split(b, '+'), s);
    SplitWhole(s, '+');
    ExtendedAppend(a, (set n | n in Split(a, '+')), [], s);
    assert [] + [s] == [s];
  }

  method MergeSources(first: string, second: string) returns (a: string)
    ensures a == SourceUnion(first, second)
    ensures Names(a) == Names(first) + Names(second) && first <= a
  {
    SourceUnionNames(first, second);
    if first == "" {
      return second;
    }
    a := first;
    var seen: set<string> := {};
    var parts := Split(first, '+');
    for i := 0 to |parts|
      invariant seen == set n | n in parts[..i]
    {
      seen := seen + {parts[i]};
    }
    assert parts[..|parts|] == parts;
    parts := Split(second, '+');
    for i := 0 to |parts|
      invariant Extended(a, seen, parts[i..]) == SourceUnion(first, second)
    {
      if parts[i] != "" && parts[i] !in seen {
        seen := seen + {parts[i]};
        a := a + "+" + parts[i];
      }
    }
  }

  // ---------------- mergeResult ----------------

  /** `a` as the base, its empty fields taken from `b`. */
  function Merge(a: Result, b: Result): Result {
    a.(magnet := if a.magnet == "" then b.magnet else a.magnet,
       infoHash := if a.infoHash == "" then b.infoHash else a.infoHash,
       size := if a.size == 0 then b.size else a.size,
       date := if a.date == 0 then b.date else a.date,
       source := SourceUnion(a.source, b.source))
  }

  method MergeResult(base: Result, other: Result) returns (a: Result)
    ensures a == Merge(base, other)
  {
    a := base;
    if a.magnet == "" {
      a := a.(magnet := other.magnet);
    }
    if a.infoHash == "" {
      a := a.(infoHash := other.infoHash);
    }
    if a.size == 0 {
      a := a.(size := other.size);
    }
    if a.date == 0 {
      a := a.(date := other.date);
    }
    var s := MergeSources(a.source, other.source);
    a := a.(source := s);
  }

  // ---------------- DedupAndRank ----------------

  /** The lower-cased info-hash, or the title of a result without one. */
  function Key(lower: char -> char, r: Result): string {
    var k := ToLower(lower, r.infoHash);
    if k == "" then r.title else k
  }

  /** Merging keeps the key, even when a title collides with another result's info-hash. */
  lemma MergeKeepsKey(lower: char -> char, a: Result, b: Result)
    requires Key(lower, a) == Key(lower, b)
    ensures Key(lower, Merge(a, b)) == Key(lower, a)
  { }

  /** The place of the first row with key `k`, or the number of rows. */
  function IndexOf(lower: char -> char, rows: seq<Result>, k: string): (i: nat)
    ensures i <= |rows|
    ensures i < |rows| ==> Key(lower, rows[i]) == k
    ensures forall j :: 0 <= j < i ==> Key(lower, rows[j]) != k
  {
    if rows == [] || Key(lower, rows[0]) == k then 0 else 1 + IndexOf(lower, rows[1..], k)
  }

  /** The two rows merged, the one with more seeders (the older one on a tie) being the base. */
  function Combined(held: Result, r: Result): Result {
    if r.seeders > held.seeders then Merge(r, held) else Merge(held, r)
  }

  function Absorbed(lower: char -> char, rows: seq<Result>, r: Result): seq<Result> {
    var i := IndexOf(lower, rows, Key(lower, r));
    if i == |rows| then rows + [r] else rows[i := Combined(rows[i], r)]
  }

  /** One row per key, in order of first arrival. */
  function Merged(lower: char -> char, input: seq<Result>): seq<Result> {
    if input == [] then []
    else Absorbed(lower, Merged(lower, input[..|input| - 1]), input[|input| - 1])
  }

  ghost predicate DistinctKeys(lower: char -> char, rows: seq<Result>) {
    forall i, j :: 0 <= i < j < |rows| ==> Key(lower, rows[i]) != Key(lower, rows[j])
  }

  ghost predicate Descending(rows: seq<Result>) {
    forall i, j :: 0 <= i < j < |rows| ==> rows[i].seeders >= rows[j].seeders
  }

  /** What sort.Slice promises: the same rows, best seeded first, ties in any order. */
  ghost predicate IsRanking(ranked: seq<Result>, rows: seq<Result>) {
    multiset(ranked) == multiset(rows) && Descending(ranked)
  }

  ghost predicate InGroup(lower: char -> char, input: seq<Result>, k: string, r: Result) {
    r in input && Key(lower, r) == k
  }

  /** What a result says itself, it still says in the row `o`. */
  predicate Keeps(r: Result, o: Result) {
    && (r.magnet != "" ==> o.magnet == r.magnet) && (r.infoHash != "" ==> o.infoHash == r.infoHash)
    && (r.size != 0 ==> o.size == r.size) && (r.date != 0 ==> o.date == r.date)
  }

  /** `o` has its own words from the i-th result, the first of its group with that many seeders. */
  ghost predicate Headlines(lower: char -> char, input: seq<Result>, i: nat, o: Result) {
    && i < |input| && Key(lower, input[i]) == Key(lower, o)
    && input[i].title == o.title && input[i].seeders == o.seeders && input[i].leechers == o.leechers
    && Keeps(input[i], o)
    && forall j :: 0 <= j < i && Key(lower, input[j]) == Key(lower, o) ==> input[j].seeders < o.seeders
  }

  /** The row `o` tells the truth about all the results in `input` that share its key. */
  ghost predicate Summarises(lower: char -> char, o: Result, input: seq<Result>) {
    var k := Key(lower, o);
    && (exists i: nat :: Headlines(lower, input, i, o))
    && (forall r :: InGroup(lower, input, k, r) ==> r.seeders <= o.seeders)
    && (forall n :: n in Names(o.source) <==> exists r :: InGroup(lower, input, k, r) && n in Names(r.source))
    && FillsFields(lower, o, input, k)
  }

  /** Each optional field of `o` is one of its group's, and empty only if it is empty in the whole group. */
  ghost predicate FillsFields(lower: char -> char, o: Result, input: seq<Result>, k: string) {
    && (exists r :: InGroup(lower, input, k, r) && r.magnet == o.magnet)
    && (exists r :: InGroup(lower, input, k, r) && r.infoHash == o.infoHash)
    && (exists r :: InGroup(lower, input, k, r) && r.size == o.size)
    && (exists r :: InGroup(lower, input, k, r) && r.date == o.date)
    && (forall r :: InGroup(lower, input, k, r) ==>
          && (r.magnet != "" ==> o.magnet != "") && (r.infoHash != "" ==> o.infoHash != "")
          && (r.size != 0 ==> o.size != 0) && (r.date != 0 ==> o.date != 0))
  }

  lemma GroupOfAppend(lower: char -> char, input: seq<Result>, x: Result, k: string)
    ensures forall r :: InGroup(lower, input + [x], k, r) <==>
                        InGroup(lower, input, k, r) || (r == x && Key(lower, x) == k)
  { }

  lemma SummaryOfOne(lower: char -> char, input: seq<Result>, x: Result)
    requires forall r :: !InGroup(lower, input, Key(lower, x), r)
    ensures Summarises(lower, x, input + [x])
  {
    GroupOfAppend(lower, input, x, Key(lower, x));
    assert InGroup(lower, input + [x], Key(lower, x), x);
    assert forall j :: 0 <= j < |input| && Key(lower, input[j]) == Key(lower, x) ==>
                       InGroup(lower, input, Key(lower, x), input[j]);
    assert Headlines(lower, input + [x], |input|, x);
  }

  lemma SummaryUntouched(lower: char -> char, input: seq<Result>, o: Result, x: Result)
    requires Summarises(lower, o, input) && Key(lower, x) != Key(lower, o)
    ensures Summarises(lower, o, input + [x])
  {
    GroupOfAppend(lower, input, x, Key(lower, o));
    var i: nat :| Headlines(lower, input, i, o);
    assert Headlines(lower, input + [x], i, o);
  }

  lemma SummaryCombined(lower: char -> char, input: seq<Result>, o: Result, x: Result)
    requires Summarises(lower, o, input) && Key(lower, x) == Key(lower, o)
    ensures Summarises(lower, Combined(o, x), input + [x])
  {
    MergeKeepsKey(lower, o, x);
    MergeKeepsKey(lower, x, o);
    GroupOfAppend(lower, input, x, Key(lower, o));
    SummaryCombinedHeadline(lower, input, o, x);
    SummaryCombinedNames(lower, input, o, x);
    SummaryCombinedFields(lower, input, o, x);
  }

  lemma SummaryCombinedHeadline(lower: char -> char, input: seq<Result>, o: Result, x: Result)
    requires Summarises(lower, o, input) && Key(lower, x) == Key(lower, o)
    ensures exists i: nat :: Headlines(lower, input + [x], i, Combined(o, x))
  {
    var k := Key(lower, o);
    MergeKeepsKey(lower, o, x);
    MergeKeepsKey(lower, x, o);
    var i: nat :| Headlines(lower, input, i, o);
    assert forall j :: 0 <= j < |input| && Key(lower, input[j]) == k ==> InGroup(lower, input, k, input[j]);
    assert Headlines(lower, input + [x], if x.seeders > o.seeders then |input| else i, Combined(o, x));
  }

  lemma SummaryCombinedNames(lower: char -> char, input: seq<Result>, o: Result, x: Result)
    requires Summarises(lower, o, input) && Key(lower, x) == Key(lower, o)
    ensures forall n :: n in Names(Combined(o, x).source) <==>
                        exists r :: InGroup(lower, input + [x], Key(lower, o), r) && n in Names(r.source)
  {
    SourceUnionNames(o.source, x.source);
    SourceUnionNames(x.source, o.source);
    GroupOfAppend(lower, input, x, Key(lower, o));
    assert InGroup(lower, input + [x], Key(lower, o), x);
  }

  lemma SummaryCombinedFields(lower: char -> char, input: seq<Result>, o: Result, x: Result)
    requires Summarises(lower, o, input) && Key(lower, x) == Key(lower, o)
    ensures FillsFields(lower, Combined(o, x), input + [x], Key(lower, o))
  {
    GroupOfAppend(lower, input, x, Key(lower, o));
    assert InGroup(lower, input + [x], Key(lower, o), x);
  }

  function Keys(lower: char -> char, rows: seq<Result>): set<string> {
    set r | r in rows :: Key(lower, r)
  }

  /** The rows have distinct keys, one for each key of the input, and each summarises its group. */
  ghost predicate Digests(lower: char -> char, rows: seq<Result>, input: seq<Result>) {
    && DistinctKeys(lower, rows)
    && Keys(lower, rows) == Keys(lower, input)
    && forall o :: o in rows ==> Summarises(lower, o, input)
  }

  lemma AbsorbedKeys(lower: char -> char, rows: seq<Result>, x: Result)
    requires DistinctKeys(lower, rows)
    ensures DistinctKeys(lower, Absorbed(lower, rows, x))
    ensures Keys(lower, Absorbed(lower, rows, x)) == Keys(lower, rows) + {Key(lower, x)}
  {
    var i := IndexOf(lower, rows, Key(lower, x));
    var after := Absorbed(lower, rows, x);
    if i < |rows| {
      MergeKeepsKey(lower, rows[i], x);
      MergeKeepsKey(lower, x, rows[i]);
    }
    assert forall j :: 0 <= j < |rows| ==> Key(lower, after[j]) == Key(lower, rows[j]);
    assert Key(lower, after[i]) == Key(lower, x) && after[i] in after;
    forall k | k in Keys(lower, rows) ensures k in Keys(lower, after) {
      var j :| 0 <= j < |rows| && Key(lower, rows[j]) == k;
      assert after[j] in after;
    }
  }

  lemma AbsorbedSummaries(lower: char -> char, rows: seq<Result>, input: seq<Result>, x: Result, o: Result)
    requires Digests(lower, rows, input)
    requires o in Absorbed(lower, rows, x)
    ensures Summarises(lower, o, input + [x])
  {
    var k := Key(lower, x);
    var i := IndexOf(lower, rows, k);
    var j :| 0 <= j < |Absorbed(lower, rows, x)| && Absorbed(lower, rows, x)[j] == o;
    if j != i {
      SummaryUntouched(lower, input, rows[j], x);
    } else if i < |rows| {
      SummaryCombined(lower, input, rows[i], x);
    } else {
      assert k !in Keys(lower, rows);
      SummaryOfOne(lower, input, x);
    }
  }

  lemma {:induction false} MergedKeys(lower: char -> char, input: seq<Result>)
    ensures DistinctKeys(lower, Merged(lower, input))
    ensures Keys(lower, Merged(lower, input)) == Keys(lower, input)
  {
    if input != [] {
      var before, x := input[..|input| - 1], input[|input| - 1];
      assert input == before + [x];
      MergedKeys(lower, before);
      AbsorbedKeys(lower, Merged(lower, before), x);
    }
  }

  /** The fold of DedupAndRank digests its input. */
  lemma {:induction false} MergedDigests(lower: char -> char, input: seq<Result>)
    ensures Digests(lower, Merged(lower, input), input)
  {
    MergedKeys(lower, input);
    if input != [] {
      var before, x := input[..|input| - 1], input[|input| - 1];
      assert input == before + [x];
      MergedDigests(lower, before);
      forall o | o in Merged(lower, input) ensures Summarises(lower, o, input) {
        AbsorbedSummaries(lower, Merged(lower, before), before, x, o);
      }
    }
  }

  function Inserted(rows: seq<Result>, j: nat, r: Result): (after: seq<Result>)
    requires j <= |rows|
    ensures |after| == |rows| + 1 && after[j] == r
    ensures forall p :: 0 <= p < j ==> after[p] == rows[p]
    ensures forall p :: j < p < |after| ==> after[p] == rows[p - 1]
  {
    rows[..j] + [r] + rows[j..]
  }

  lemma InsertedMultiset(rows: seq<Result>, j: nat, r: Result)
    requires j <= |rows|
    ensures multiset(Inserted(rows, j, r)) == multiset(rows) + multiset{r}
  {
    assert rows == rows[..j] + rows[j..];
  }

  lemma InsertedDescending(ranked: seq<Result>, j: nat, r: Result)
    requires Descending(ranked) && j <= |ranked|
    requires forall h :: 0 <= h < j ==> ranked[h].seeders >= r.seeders
    requires j < |ranked| ==> ranked[j].seeders < r.seeders
    ensures Descending(Inserted(ranked, j, r))
  { }

  method InsertBySeeders(ranked: seq<Result>, r: Result) returns (after: seq<Result>)
    requires Descending(ranked)
    ensures multiset(after) == multiset(ranked) + multiset{r} && Descending(after)
  {
    var j := 0;
    while j < |ranked| && ranked[j].seeders >= r.seeders
      invariant j <= |ranked|
      invariant forall h :: 0 <= h < j ==> ranked[h].seeders >= r.seeders
    {
      j := j + 1;
    }
    InsertedMultiset(ranked, j, r);
    InsertedDescending(ranked, j, r);
    after := Inserted(ranked, j, r);
  }

  /** Stands for sort.Slice: callers rely on the contract alone, which leaves the order of ties open. */
  method SortBySeeders(rows: seq<Result>) returns (ranked: seq<Result>)
    ensures IsRanking(ranked, rows)
  {
    ranked := [];
    for i := 0 to |rows|
      invariant multiset(ranked) == multiset(rows[..i]) && Descending(ranked)
    {
      ranked := InsertBySeeders(ranked, rows[i]);
      assert rows[..i + 1] == rows[..i] + [rows[i]];
    }
    assert rows[..|rows|] == rows;
  }

  /** The map `seen` sends each key to the place of its row. */
  ghost predicate Indexes(lower: char -> char, seen: map<string, nat>, rows: seq<Result>) {
    && (forall k :: k in seen ==> seen[k] < |rows| && Key(lower, rows[seen[k]]) == k)
    && (forall i :: 0 <= i < |rows| ==> Key(lower, rows[i]) in seen && seen[Key(lower, rows[i])] == i)
  }

  lemma IndexFound(lower: char -> char, seen: map<string, nat>, rows: seq<Result>, k: string)
    requires Indexes(lower, seen, rows)
    ensures IndexOf(lower, rows, k) == if k in seen then seen[k] else |rows|
  { }

  lemma IndexesAfter(lower: char -> char, seen: map<string, nat>, rows: seq<Result>, r: Result)
    requires Indexes(lower, seen, rows)
    ensures Absorbed(lower, rows, r) ==
            if Key(lower, r) !in seen then rows + [r]
            else var i := seen[Key(lower, r)]; rows[i := Combined(rows[i], r)]
    ensures Indexes(lower, if Key(lower, r) in seen then seen else seen[Key(lower, r) := |rows|],
                    Absorbed(lower, rows, r))
  {
    IndexFound(lower, seen, rows, Key(lower, r));
    if Key(lower, r) in seen {
      MergeKeepsKey(lower, rows[seen[Key(lower, r)]], r);
      MergeKeepsKey(lower, r, rows[seen[Key(lower, r)]]);
    }
  }

  lemma MergedNext(lower: char -> char, input: seq<Result>, n: nat)
    requires n < |input|
    ensures Merged(lower, input[..n + 1]) == Absorbed(lower, Merged(lower, input[..n]), input[n])
  {
    assert input[..n + 1][..n] == input[..n];
  }

  /** The loop of DedupAndRank. */
  method Dedup(lower: char -> char, input: seq<Result>) returns (out: seq<Result>)
    ensures out == Merged(lower, input)
  {
    var seen: map<string, nat> := map[];
    out := [];
    for n := 0 to |input|
      invariant out == Merged(lower, input[..n])
      invariant Indexes(lower, seen, out)
    {
      var r := input[n];
      var key := ToLower(lower, r.infoHash);
      if key == "" {
        key := r.title;
      }
      MergedNext(lower, input, n);
      IndexesAfter(lower, seen, out, r);
      ghost var next := Absorbed(lower, out, r);
      if key in seen {
        var i := seen[key];
        var merged;
        if r.seeders > out[i].seeders {
          merged := MergeResult(r, out[i]);
        } else {
          merged := MergeResult(out[i], r);
        }
        out := out[i := merged];
      } else {
        seen := seen[key := |out|];
        out := out + [r];
      }
      assert out == next;
    }
    assert input[..|input|] == input;
  }

  method DedupAndRank(lower: char -> char, input: seq<Result>) returns (ranked: seq<Result>)
    ensures IsRanking(ranked, Merged(lower, input))
    ensures Digests(lower, ranked, input)
    ensures RanksTorrents(lower, ranked, input)
  {
    var out := Dedup(lower, input);
    ranked := SortBySeeders(out);
    RankedDigests(lower, ranked, input);
    RankedTorrents(lower, ranked, input);
  }

  lemma RankingMembers(ranked: seq<Result>, rows: seq<Result>)
    requires multiset(ranked) == multiset(rows)
    ensures forall o :: o in ranked <==> o in rows
  {
    forall o ensures o in ranked <==> o in rows {
      assert o in ranked <==> o in multiset(ranked);
      assert o in rows <==> o in multiset(rows);
    }
  }

  lemma {:induction false} DistinctKeysOfPermutation(lower: char -> char, a: seq<Result>, b: seq<Result>)
    requires DistinctKeys(lower, a) && multiset(a) == multiset(b)
    ensures DistinctKeys(lower, b)
  {
    RankingMembers(a, b);
    forall i, j | 0 <= i < j < |b| ensures Key(lower, b[i]) != Key(lower, b[j]) {
      if Key(lower, b[i]) == Key(lower, b[j]) {
        assert b[i] in a && b[j] in a;
        assert b[i] == b[j];
        TwiceInSeq(b, i, j);
        OnceInDistinct(lower, a, b[i]);
      }
    }
  }

  lemma OnceInDistinct(lower: char -> char, a: seq<Result>, x: Result)
    requires DistinctKeys(lower, a) && x in a
    ensures multiset(a)[x] == 1
  {
    var i :| 0 <= i < |a| && a[i] == x;
    assert a == a[..i] + [x] + a[i + 1..];
    assert x !in a[..i] && x !in a[i + 1..];
  }

  lemma RankingDigests(lower: char -> char, ranked: seq<Result>, rows: seq<Result>, input: seq<Result>)
    requires Digests(lower, rows, input) && IsRanking(ranked, rows)
    ensures Digests(lower, ranked, input)
  {
    RankingMembers(ranked, rows);
    DistinctKeysOfPermutation(lower, rows, ranked);
  }

  /** However ties fall, the ranked rows digest the input. */
  lemma RankedDigests(lower: char -> char, ranked: seq<Result>, input: seq<Result>)
    requires IsRanking(ranked, Merged(lower, input))
    ensures Digests(lower, ranked, input)
  {
    MergedDigests(lower, input);
    RankingDigests(lower, ranked, Merged(lower, input), input);
  }

  // ---------------- what the rows mean ----------------

  /** The same text rune by rune, up to the case mapping. */
  predicate SameFolded(lower: char -> char, a: string, b: string) {
    |a| == |b| && forall i :: 0 <= i < |a| ==> lower(a[i]) == lower(b[i])
  }

  /**
   * Results are one torrent if they have the same info-hash up to case, or if neither has an info-hash and they have
   * the same title. A result without an info-hash also joins a torrent whose lower-cased info-hash is its title.
   */
  predicate SameTorrent(lower: char -> char, a: Result, b: Result) {
    if a.infoHash != "" then
      if b.infoHash != "" then SameFolded(lower, a.infoHash, b.infoHash) else IsLowered(lower, a.infoHash, b.title)
    else
      if b.infoHash != "" then IsLowered(lower, b.infoHash, a.title) else a.title == b.title
  }

  lemma KeyMeansTorrent(lower: char -> char, a: Result, b: Result)
    ensures Key(lower, a) == Key(lower, b) <==> SameTorrent(lower, a, b)
  {
    var x, y := ToLower(lower, a.infoHash), ToLower(lower, b.infoHash);
    assert x == y <==> SameFolded(lower, a.infoHash, b.infoHash);
    assert x == b.title <==> IsLowered(lower, a.infoHash, b.title);
    assert y == a.title <==> IsLowered(lower, b.infoHash, a.title);
  }

  /**
   * One row for each torrent, best seeded first. Its title, seeders and leechers, and whatever else it says itself, are
   * those of the first of its results with the most seeders; its sources are all of theirs; and a field is empty only
   * if it is in all of them.
   */
  ghost predicate RanksTorrents(lower: char -> char, ranked: seq<Result>, input: seq<Result>) {
    && (forall i, j :: 0 <= i < j < |ranked| ==> ranked[i].seeders >= ranked[j].seeders)
    && (forall i, j :: 0 <= i < j < |ranked| ==> !SameTorrent(lower, ranked[i], ranked[j]))
    && (forall r :: r in input ==> exists o :: o in ranked && SameTorrent(lower, o, r))
    && (forall o :: o in ranked ==> TellsTorrent(lower, o, input))
  }

  ghost predicate TellsTorrent(lower: char -> char, o: Result, input: seq<Result>) {
    && (exists i :: 0 <= i < |input| && LeadsTorrent(lower, input, i, o))
    && (forall r :: r in input && SameTorrent(lower, o, r) ==>
          && r.seeders <= o.seeders && (r.magnet != "" ==> o.magnet != "") && (r.infoHash != "" ==> o.infoHash != "")
          && (r.size != 0 ==> o.size != 0) && (r.date != 0 ==> o.date != 0))
    && (forall n :: n in Names(o.source) <==>
          exists r :: r in input && SameTorrent(lower, o, r) && n in Split(r.source, '+') && n != "")
  }

  ghost predicate LeadsTorrent(lower: char -> char, input: seq<Result>, i: nat, o: Result)
    requires i < |input|
  {
    && SameTorrent(lower, o, input[i]) && Keeps(input[i], o)
    && input[i].title == o.title && input[i].seeders == o.seeders && input[i].leechers == o.leechers
    && forall j :: 0 <= j < i && SameTorrent(lower, o, input[j]) ==> input[j].seeders < o.seeders
  }

  lemma SummaryTells(lower: char -> char, o: Result, input: seq<Result>)
    requires Summarises(lower, o, input)
    ensures TellsTorrent(lower, o, input)
  {
    forall r ensures InGroup(lower, input, Key(lower, o), r) <==> r in input && SameTorrent(lower, o, r) {
      KeyMeansTorrent(lower, o, r);
    }
    var i: nat :| Headlines(lower, input, i, o);
    forall j | 0 <= j <= i ensures Key(lower, input[j]) == Key(lower, o) <==> SameTorrent(lower, o, input[j]) {
      KeyMeansTorrent(lower, o, input[j]);
    }
    assert LeadsTorrent(lower, input, i, o);
  }

  lemma RankedTorrents(lower: char -> char, ranked: seq<Result>, input: seq<Result>)
    requires IsRanking(ranked, Merged(lower, input))
    ensures RanksTorrents(lower, ranked, input)
  {
    RankedDigests(lower, ranked, input);
    forall i, j | 0 <= i < j < |ranked| ensures !SameTorrent(lower, ranked[i], ranked[j]) {
      KeyMeansTorrent(lower, ranked[i], ranked[j]);
    }
    forall r | r in input ensures exists o :: o in ranked && SameTorrent(lower, o, r) {
      assert Key(lower, r) in Keys(lower, ranked);
      var o :| o in ranked && Key(lower, o) == Key(lower, r);
      KeyMeansTorrent(lower, o, r);
    }
    forall o | o in ranked ensures TellsTorrent(lower, o, input) {
      SummaryTells(lower, o, input);
    }
  }

  /** So a result with an info-hash is in a row with that info-hash. */
  lemma HashHasRow(lower: char -> char, ranked: seq<Result>, input: seq<Result>, r: Result) returns (o: Result)
    requires RanksTorrents(lower, ranked, input) && r in input && r.infoHash != ""
    ensures o in ranked && o.infoHash != "" && SameFolded(lower, o.infoHash, r.infoHash)
  {
    o :| o in ranked && SameTorrent(lower, o, r);
    assert TellsTorrent(lower, o, input);
  }

  // ---------------- order independence ----------------

  /** What two rows for one key share whatever the order of arrival. */
  predicate Agree(a: Result, b: Result) {
    && a.seeders == b.seeders
    && Names(a.source) == Names(b.source)
    && (a.magnet == "" <==> b.magnet == "")
    && (a.infoHash == "" <==> b.infoHash == "")
    && (a.size == 0 <==> b.size == 0)
    && (a.date == 0 <==> b.date == 0)
  }

  ghost predicate SameView(lower: char -> char, a: seq<Result>, b: seq<Result>) {
    && Keys(lower, a) == Keys(lower, b)
    && |a| == |b|
    && forall x, y :: x in a && y in b && Key(lower, x) == Key(lower, y) ==> Agree(x, y)
  }

  lemma SummariesAgree(lower: char -> char, x: Result, y: Result, a: seq<Result>, b: seq<Result>)
    requires forall r :: r in a <==> r in b
    requires Summarises(lower, x, a) && Summarises(lower, y, b) && Key(lower, x) == Key(lower, y)
    ensures Agree(x, y)
  {
    var k := Key(lower, x);
    assert forall r :: InGroup(lower, a, k, r) <==> InGroup(lower, b, k, r);
    var i: nat :| Headlines(lower, a, i, x);
    var j: nat :| Headlines(lower, b, j, y);
    assert InGroup(lower, a, k, a[i]) && InGroup(lower, b, k, b[j]);
  }

  /** Rows with distinct keys are as many as their keys. */
  lemma {:induction false} CountByKeys(lower: char -> char, rows: seq<Result>)
    requires DistinctKeys(lower, rows)
    ensures |Keys(lower, rows)| == |rows|
  {
    if rows != [] {
      var last := |rows| - 1;
      assert rows == rows[..last] + [rows[last]];
      CountByKeys(lower, rows[..last]);
      assert Keys(lower, rows) == Keys(lower, rows[..last]) + {Key(lower, rows[last])};
    }
  }

  /**
   * Any two rankings of any two arrival orders of the same results show the same keys, and per key the same
   * maximum of seeders, the same sources and the same fields filled.
   */
  lemma OrderIndependent(lower: char -> char, a: seq<Result>, b: seq<Result>, x: seq<Result>, y: seq<Result>)
    requires forall r :: r in a <==> r in b
    requires IsRanking(x, Merged(lower, a)) && IsRanking(y, Merged(lower, b))
    ensures SameView(lower, x, y)
  {
    RankedDigests(lower, x, a);
    RankedDigests(lower, y, b);
    DigestsAgree(lower, a, b, x, y);
  }

  lemma DigestsAgree(lower: char -> char, a: seq<Result>, b: seq<Result>, x: seq<Result>, y: seq<Result>)
    requires forall r :: r in a <==> r in b
    requires Digests(lower, x, a) && Digests(lower, y, b)
    ensures SameView(lower, x, y)
  {
    assert Keys(lower, a) == Keys(lower, b);
    CountByKeys(lower, x);
    CountByKeys(lower, y);
    forall p, q | p in x && q in y && Key(lower, p) == Key(lower, q) ensures Agree(p, q) {
      SummariesAgree(lower, p, q, a, b);
    }
  }
}
