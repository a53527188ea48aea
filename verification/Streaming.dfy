/**
 * Batch and streamed search: Aggregator.Search and SearchStream of internal/search/search.go, and the search pane of
 * internal/tui/app.go that consumes the stream while newer searches may supersede it.
 */
module Streaming {
  import opened Basics
  import opened Results

  /** What one indexer's Search call returns. */
  datatype Reply = Reply(name: string, rows: seq<Result>, err: Option<string>)

  /** IndexerResult: what a producer puts on the channel. */
  datatype Chunk = Chunk(name: string, results: seq<Result>, err: Option<string>)

  function ChunkOf(lower: char -> char, query: string, reply: Reply): Chunk {
    Chunk(reply.name, Filtered(lower, Tokens(lower, query), reply.rows), reply.err)
  }

  ghost predicate Within(order: seq<nat>, n: nat) {
    forall j :: 0 <= j < |order| ==> order[j] < n
  }

  /** The chunks of the indexers `order`, in that order. */
  function Chunks(lower: char -> char, query: string, replies: seq<Reply>, order: seq<nat>): (cs: seq<Chunk>)
    requires Within(order, |replies|)
    ensures |cs| == |order|
    ensures forall j :: 0 <= j < |order| ==> cs[j] == ChunkOf(lower, query, replies[order[j]])
  {
    seq(|order|, j requires 0 <= j < |order| => ChunkOf(lower, query, replies[order[j]]))
  }

  /** The results of the error-free chunks, concatenated. */
  function Accumulated(cs: seq<Chunk>): seq<Result> {
    if cs == [] then []
    else
      var c := cs[|cs| - 1];
      Accumulated(cs[..|cs| - 1]) + if c.err.None? then c.results else []
  }

  /** The errors by indexer name, later ones overwriting earlier ones. */
  function Failures(cs: seq<Chunk>): map<string, string> {
    if cs == [] then map[]
    else
      var c, before := cs[|cs| - 1], Failures(cs[..|cs| - 1]);
      if c.err.None? then before else before[c.name := c.err.value]
  }

  ghost predicate NoRepeat(order: seq<nat>) {
    forall i, j :: 0 <= i < j < |order| ==> order[i] != order[j]
  }

  /** Every one of `n` indexers, each exactly once. */
  ghost predicate IsSchedule(order: seq<nat>, n: nat) {
    NoRepeat(order) && Within(order, n) && forall i: nat :: i < n ==> i in order
  }

  lemma {:induction false} AccumulatedMembers(cs: seq<Chunk>)
    ensures forall r :: r in Accumulated(cs) <==> exists c :: c in cs && c.err.None? && r in c.results
    ensures forall n :: n in Failures(cs) <==> exists c :: c in cs && c.err.Some? && c.name == n
    ensures forall n :: n in Failures(cs) ==> exists c :: c in cs && c.err == Some(Failures(cs)[n]) && c.name == n
  {
    if cs != [] {
      var before, c := cs[..|cs| - 1], cs[|cs| - 1];
      assert cs == before + [c];
      AccumulatedMembers(before);
    }
  }

  lemma ChunksAppend(lower: char -> char, query: string, replies: seq<Reply>, order: seq<nat>, i: nat)
    requires Within(order, |replies|) && i < |replies|
    ensures Within(order + [i], |replies|)
    ensures var cs, c := Chunks(lower, query, replies, order), ChunkOf(lower, query, replies[i]);
            && Accumulated(Chunks(lower, query, replies, order + [i])) ==
                 Accumulated(cs) + (if c.err.None? then c.results else [])
            && Failures(Chunks(lower, query, replies, order + [i])) ==
                 if c.err.None? then Failures(cs) else Failures(cs)[c.name := c.err.value]
  {
    var cs, cs' := Chunks(lower, query, replies, order), Chunks(lower, query, replies, order + [i]);
    assert cs'[..|cs'| - 1] == cs;
  }

  /** The unfiltered results of the error-free replies, concatenated in the same order. */
  function Collected(replies: seq<Reply>, order: seq<nat>): seq<Result>
    requires Within(order, |replies|)
  {
    if order == [] then []
    else
      var r := replies[order[|order| - 1]];
      Collected(replies, order[..|order| - 1]) + if r.err.None? then r.rows else []
  }

  /** Filtering each reply on its own keeps what filtering the whole collection would. */
  lemma {:induction false} FilteringChunkwise(lower: char -> char, query: string, replies: seq<Reply>, order: seq<nat>)
    requires Within(order, |replies|)
    ensures Accumulated(Chunks(lower, query, replies, order)) ==
            Filtered(lower, Tokens(lower, query), Collected(replies, order))
  {
    if order != [] {
      var before, i := order[..|order| - 1], order[|order| - 1];
      assert order == before + [i];
      FilteringChunkwise(lower, query, replies, before);
      ChunksAppend(lower, query, replies, before, i);
      FilteredAppend(lower, Tokens(lower, query), Collected(replies, before),
                     if replies[i].err.None? then replies[i].rows else []);
    }
  }

  /** Of the replies of `order`, the i-th came without an error and has the result `r`. */
  predicate Replied(replies: seq<Reply>, order: seq<nat>, i: nat, r: Result) {
    i < |replies| && i in order && replies[i].err.None? && r in replies[i].rows
  }

  predicate Failed(replies: seq<Reply>, order: seq<nat>, i: nat, name: string, err: string) {
    i < |replies| && i in order && replies[i].name == name && replies[i].err == Some(err)
  }

  lemma ChunkMembers(lower: char -> char, query: string, replies: seq<Reply>, order: seq<nat>, c: Chunk)
    requires Within(order, |replies|)
    ensures c in Chunks(lower, query, replies, order) <==>
            exists i: nat :: i < |replies| && i in order && c == ChunkOf(lower, query, replies[i])
  {
    var cs := Chunks(lower, query, replies, order);
    if i: nat :| i < |replies| && i in order && c == ChunkOf(lower, query, replies[i]) {
      var j :| 0 <= j < |order| && order[j] == i;
      assert cs[j] == c;
    }
  }

  /** What is collected are the matching results of the replies without an error.. */
  lemma CollectsResult(lower: char -> char, query: string, replies: seq<Reply>, order: seq<nat>, r: Result)
    requires Within(order, |replies|)
    ensures r in Accumulated(Chunks(lower, query, replies, order)) <==>
            Matches(lower, Tokens(lower, query), r.title) && exists i: nat :: Replied(replies, order, i, r)
  {
    var cs := Chunks(lower, query, replies, order);
    AccumulatedMembers(cs);
    if r in Accumulated(cs) {
      var c :| c in cs && c.err.None? && r in c.results;
      ChunkMembers(lower, query, replies, order, c);
      var i: nat :| i < |replies| && i in order && c == ChunkOf(lower, query, replies[i]);
      FilteredMembers(lower, Tokens(lower, query), replies[i].rows);
      assert Replied(replies, order, i, r);
    }
    if Matches(lower, Tokens(lower, query), r.title) && exists i: nat :: Replied(replies, order, i, r) {
      var i: nat :| Replied(replies, order, i, r);
      ChunkMembers(lower, query, replies, order, ChunkOf(lower, query, replies[i]));
      FilteredMembers(lower, Tokens(lower, query), replies[i].rows);
    }
  }

  /** ..and the errors of the others. */
  lemma CollectsFailure(lower: char -> char, query: string, replies: seq<Reply>, order: seq<nat>, n: string)
    requires Within(order, |replies|)
    ensures var errs := Failures(Chunks(lower, query, replies, order));
            && (n in errs ==> exists i: nat :: Failed(replies, order, i, n, errs[n]))
            && ((exists i: nat, e :: Failed(replies, order, i, n, e)) ==> n in errs)
  {
    var cs := Chunks(lower, query, replies, order);
    var errs := Failures(cs);
    AccumulatedMembers(cs);
    if n in errs {
      var c :| c in cs && c.err == Some(errs[n]) && c.name == n;
      ChunkMembers(lower, query, replies, order, c);
      var i: nat :| i < |replies| && i in order && c == ChunkOf(lower, query, replies[i]);
      assert Failed(replies, order, i, n, errs[n]);
    }
    if i: nat, e :| Failed(replies, order, i, n, e) {
      var c := ChunkOf(lower, query, replies[i]);
      ChunkMembers(lower, query, replies, order, c);
      assert c in cs && c.err.Some? && c.name == n;
    }
  }

  // ---------------- Aggregator.Search ----------------

  /** The goroutines append under one mutex; `order` is the order in which they took it. */
  method Search(lower: char -> char, query: string, replies: seq<Reply>, order: seq<nat>)
    returns (ranked: seq<Result>, errs: map<string, string>)
    requires IsSchedule(order, |replies|)
    ensures IsRanking(ranked, Merged(lower, Accumulated(Chunks(lower, query, replies, order))))
    ensures RanksTorrents(lower, ranked, Accumulated(Chunks(lower, query, replies, order)))
    ensures errs == Failures(Chunks(lower, query, replies, order))
  {
    var out: seq<Result> := [];
    errs := map[];
    ghost var cs := Chunks(lower, query, replies, order);
    for j := 0 to |order|
      invariant out == Accumulated(cs[..j]) && errs == Failures(cs[..j])
    {
      assert cs[..j + 1][..j] == cs[..j];
      var reply := replies[order[j]];
      if reply.err.Some? {
        errs := errs[reply.name := reply.err.value];
      } else {
        var kept := FilterByQuery(lower, reply.rows, query);
        out := out + kept;
      }
    }
    assert cs[..|order|] == cs;
    ranked := DedupAndRank(lower, out);
  }

  // ---------------- SearchStream ----------------

  /** The producers still searching, what waits in the channel, what has been read from it. */
  datatype Stream = Stream(running: set<nat>, buffer: seq<nat>, received: seq<nat>, closed: bool)

  datatype StreamStep = Send(i: nat) | Close | Receive

  /** The indexers 0 .. n-1. */
  function Below(n: nat): (s: set<nat>)
    ensures |s| == n
    ensures forall i: nat :: i in s <==> i < n
  {
    if n == 0 then {} else Below(n - 1) + {n - 1}
  }

  function Opened(n: nat): Stream {
    Stream(Below(n), [], [], false)
  }

  /** A send waits for room in the buffer of `n` places; the closer waits for every producer. */
  predicate Ready(n: nat, s: Stream, step: StreamStep) {
    match step
    case Send(i) => i in s.running && |s.buffer| < n
    case Close => s.running == {} && !s.closed
    case Receive => s.buffer != []
  }

  function After(n: nat, s: Stream, step: StreamStep): Stream
    requires Ready(n, s, step)
  {
    match step
    case Send(i) => s.(running := s.running - {i}, buffer := s.buffer + [i])
    case Close => s.(closed := true)
    case Receive => s.(buffer := s.buffer[1..], received := s.received + [s.buffer[0]])
  }

  ghost predicate StreamInv(n: nat, s: Stream) {
    && |s.received| + |s.buffer| + |s.running| == n
    && NoRepeat(s.received + s.buffer)
    && (forall i: nat :: i < n <==> i in s.running || i in s.received + s.buffer)
    && (forall i :: i in s.running ==> i !in s.received + s.buffer)
    && (s.closed ==> s.running == {})
  }

  lemma StreamKeepsInv(n: nat, s: Stream, step: StreamStep)
    requires StreamInv(n, s) && Ready(n, s, step)
    ensures StreamInv(n, After(n, s, step))
  {
    var t := After(n, s, step);
    match step
    case Send(i) =>
      assert t.received + t.buffer == (s.received + s.buffer) + [i];
      assert s.running == t.running + {i};
    case Close =>
    case Receive =>
      assert t.received + t.buffer == s.received + s.buffer;
  }

  /** Messages are received in the order in which they were sent, and each is sent by its own producer. */
  lemma StreamKeepsOrder(n: nat, s: Stream, step: StreamStep)
    requires Ready(n, s, step)
    ensures var t := After(n, s, step);
            && t.received + t.buffer == s.received + s.buffer + (if step.Send? then [step.i] else [])
            && |t.received| == |s.received| + (if step.Receive? then 1 else 0)
  { }

  /** A schedule of the stream: any producers in any order, a consumer that reads when it likes or never again. */
  ghost predicate StreamRun(n: nat, steps: seq<StreamStep>, states: seq<Stream>) {
    && |states| == |steps| + 1 && states[0] == Opened(n)
    && forall k :: 0 <= k < |steps| ==> Ready(n, states[k], steps[k]) && states[k + 1] == After(n, states[k], steps[k])
  }

  lemma {:induction false} StreamRunInv(n: nat, steps: seq<StreamStep>, states: seq<Stream>, k: nat)
    requires StreamRun(n, steps, states) && k < |states|
    ensures StreamInv(n, states[k])
  {
    if k == 0 {
    } else {
      StreamRunInv(n, steps, states, k - 1);
      StreamKeepsInv(n, states[k - 1], steps[k - 1]);
    }
  }

  /**
   * At every point of every schedule: a producer that has not sent yet finds room and an open channel, and a consumer
   * that finds the channel closed and empty has read one message from every indexer, none twice.
   */
  lemma NoProducerBlocks(n: nat, steps: seq<StreamStep>, states: seq<Stream>, k: nat)
    requires StreamRun(n, steps, states) && k < |states|
    ensures forall i :: i in states[k].running ==> Ready(n, states[k], Send(i)) && !states[k].closed
    ensures states[k].closed && states[k].buffer == [] ==>
              |states[k].received| == n && IsSchedule(states[k].received, n)
  {
    StreamRunInv(n, steps, states, k);
    var s := states[k];
    if i :| i in s.running {
      assert s.running == (s.running - {i}) + {i};
    }
    if s.closed && s.buffer == [] {
      assert s.received + s.buffer == s.received;
      forall j | 0 <= j < |s.received| ensures s.received[j] < n {
        assert s.received[j] in s.received;
      }
    }
  }

  // ---------------- the search pane ----------------

  /** The fields of the TUI model that a search touches; `rows` is what the result list shows. */
  datatype Pane = Pane(gen: nat, acc: seq<Result>, errs: map<string, string>, rows: seq<Result>)

  function Restarted(p: Pane): Pane {
    Pane(p.gen + 1, [], map[], [])
  }

  /** The handling of a searchChunkMsg; `chunk` is None when the channel was found closed. */
  ghost predicate Handled(lower: char -> char, p: Pane, gen: nat, chunk: Option<Chunk>, p': Pane) {
    if gen != p.gen || chunk.None? then p' == p
    else
      && p'.gen == p.gen
      && p'.acc == p.acc + (if chunk.value.err.None? then chunk.value.results else [])
      && p'.errs == (if chunk.value.err.None? then p.errs else p.errs[chunk.value.name := chunk.value.err.value])
      && IsRanking(p'.rows, Merged(lower, p'.acc))
  }

  class Model {
    var searchGen: nat
    var searchAcc: seq<Result>
    var searchErrs: map<string, string>
    var items: seq<Result>

    ghost function View(): Pane
      reads this
    {
      Pane(searchGen, searchAcc, searchErrs, items)
    }

    constructor ()
      ensures View() == Pane(0, [], map[], [])
    {
      searchGen, searchAcc, searchErrs, items := 0, [], map[], [];
    }

    method StartSearch() returns (gen: nat)
      modifies this
      ensures View() == Restarted(old(View())) && gen == searchGen
    {
      searchGen := searchGen + 1;
      searchAcc := [];
      searchErrs := map[];
      items := [];
      gen := searchGen;
    }

    /** Returns whether another chunk is to be waited for. */
    method OnChunk(lower: char -> char, gen: nat, chunk: Option<Chunk>) returns (again: bool)
      modifies this
      ensures Handled(lower, old(View()), gen, chunk, View())
      ensures again <==> gen == old(searchGen) && chunk.Some?
    {
      if gen != searchGen {
        return false;
      }
      if chunk.None? {
        return false;
      }
      if chunk.value.err.Some? {
        searchErrs := searchErrs[chunk.value.name := chunk.value.err.value];
      } else {
        searchAcc := searchAcc + chunk.value.results;
      }
      items := DedupAndRank(lower, searchAcc);
      again := true;
    }
  }

  // ---------------- searches, channels and messages, interleaved ----------------

  /** The one waitChunk command a search may have: blocked on the channel, or its message on the way to Update. */
  datatype Command = Idle | Waiting | Carries(i: nat) | CarriesClose

  /** One search; `delivered` and `ended` record what Update has made of its messages. */
  datatype Query = Query(text: string, replies: seq<Reply>, ch: Stream, cmd: Command, delivered: seq<nat>, ended: bool)

  /** The search of generation g is searches[g - 1]. */
  datatype Ui = Ui(pane: Pane, searches: seq<Query>)

  /** The newest search. */
  function Last(u: Ui): Query
    requires u.searches != []
  {
    u.searches[|u.searches| - 1]
  }

  /** What may happen to a started search: its producers act, its command reads the channel, Update runs. */
  datatype QueryStep = Produce(step: StreamStep) | Fetch | Update

  datatype UiStep = Start(text: string, replies: seq<Reply>) | Advance(g: nat, step: QueryStep)

  ghost function UiInit(): Ui {
    Ui(Pane(0, [], map[], []), [])
  }

  predicate CanAdvance(q: Query, step: QueryStep) {
    match step
    case Produce(s) => !s.Receive? && Ready(|q.replies|, q.ch, s)
    case Fetch => q.cmd == Waiting && (q.ch.buffer != [] || q.ch.closed)
    case Update => q.cmd == CarriesClose || (q.cmd.Carries? && q.cmd.i < |q.replies|)
  }

  /** `current` says whether no newer search has been started. */
  function Advanced(q: Query, step: QueryStep, current: bool): Query
    requires CanAdvance(q, step)
  {
    match step
    case Produce(s) => q.(ch := After(|q.replies|, q.ch, s))
    case Fetch =>
      if q.ch.buffer != [] then q.(ch := After(|q.replies|, q.ch, Receive), cmd := Carries(q.ch.buffer[0]))
      else q.(cmd := CarriesClose)
    case Update =>
      if q.cmd == CarriesClose then q.(cmd := Idle, ended := current)
      else if current then q.(cmd := Waiting, delivered := q.delivered + [q.cmd.i])
      else q.(cmd := Idle)
  }

  /** What the model makes of a step of the search of generation g. */
  ghost predicate PaneNext(lower: char -> char, p: Pane, g: nat, q: Query, step: QueryStep, p': Pane)
    requires CanAdvance(q, step)
  {
    if step.Update? then
      Handled(lower, p, g,
              if q.cmd == CarriesClose then None else Some(ChunkOf(lower, q.text, q.replies[q.cmd.i])), p')
    else p' == p
  }

  ghost predicate UiNext(lower: char -> char, u: Ui, step: UiStep, u': Ui) {
    match step
    case Start(text, replies) =>
      u' == Ui(Restarted(u.pane), u.searches + [Query(text, replies, Opened(|replies|), Waiting, [], false)])
    case Advance(g, s) =>
      && 1 <= g <= |u.searches| && CanAdvance(u.searches[g - 1], s)
      && u'.searches == u.searches[g - 1 := Advanced(u.searches[g - 1], s, g == u.pane.gen)]
      && PaneNext(lower, u.pane, g, u.searches[g - 1], s, u'.pane)
  }

  ghost predicate SearchInv(q: Query) {
    && StreamInv(|q.replies|, q.ch)
    && Within(q.delivered, |q.replies|)
    && (q.cmd.Carries? ==> q.cmd.i < |q.replies|)
    && (q.cmd.CarriesClose? ==> q.ch.closed && q.ch.buffer == [])
  }

  /** A search that has not been superseded: every message read from its channel is delivered or on its way. */
  ghost predicate CurrentInv(q: Query) {
    && q.ch.received == q.delivered + (if q.cmd.Carries? then [q.cmd.i] else [])
    && (q.ended ==> q.ch.closed && q.ch.buffer == [] && q.cmd == Idle)
    && (!q.ended ==> q.cmd != Idle)
  }

  /** What is accumulated, the errors and the rows are those of the delivered chunks of `q`, and nothing else. */
  ghost predicate Shows(lower: char -> char, p: Pane, q: Query) {
    && Within(q.delivered, |q.replies|)
    && p.acc == Accumulated(Chunks(lower, q.text, q.replies, q.delivered))
    && p.errs == Failures(Chunks(lower, q.text, q.replies, q.delivered))
    && IsRanking(p.rows, Merged(lower, p.acc))
  }

  ghost predicate SearchesInv(u: Ui) {
    && u.pane.gen == |u.searches|
    && forall k :: 0 <= k < |u.searches| ==> SearchInv(u.searches[k])
  }

  /** The pane is empty before the first search, and reflects the newest search after. */
  ghost predicate ShownInv(lower: char -> char, u: Ui) {
    if u.searches == [] then u.pane == Pane(0, [], map[], [])
    else
      QueryShown(lower, u.pane, Last(u))
  }

  ghost predicate QueryShown(lower: char -> char, p: Pane, q: Query) {
    SearchInv(q) && CurrentInv(q) && Shows(lower, p, q)
  }

  lemma DeliveryKeepsPane(lower: char -> char, p: Pane, q: Query, i: nat, p': Pane)
    requires Shows(lower, p, q) && i < |q.replies|
    requires Handled(lower, p, p.gen, Some(ChunkOf(lower, q.text, q.replies[i])), p')
    ensures Shows(lower, p', q.(cmd := Waiting, delivered := q.delivered + [i]))
  {
    ChunksAppend(lower, q.text, q.replies, q.delivered, i);
  }

  lemma AdvanceKeepsSearch(q: Query, step: QueryStep, current: bool)
    requires SearchInv(q) && CanAdvance(q, step)
    ensures SearchInv(Advanced(q, step, current))
  {
    match step
    case Produce(s) => StreamKeepsInv(|q.replies|, q.ch, s);
    case Fetch =>
      if q.ch.buffer != [] {
        StreamKeepsInv(|q.replies|, q.ch, Receive);
        assert q.ch.buffer[0] in q.ch.received + q.ch.buffer;
      }
    case Update =>
  }

  lemma AdvanceKeepsCurrent(q: Query, step: QueryStep)
    requires SearchInv(q) && CurrentInv(q) && CanAdvance(q, step)
    ensures CurrentInv(Advanced(q, step, true))
  { }

  lemma AdvanceKeepsPane(lower: char -> char, p: Pane, q: Query, step: QueryStep, p': Pane)
    requires SearchInv(q) && CanAdvance(q, step) && SearchInv(Advanced(q, step, true))
    requires Shows(lower, p, q) && PaneNext(lower, p, p.gen, q, step, p')
    ensures Shows(lower, p', Advanced(q, step, true))
  {
    if step.Update? && q.cmd.Carries? {
      DeliveryKeepsPane(lower, p, q, q.cmd.i, p');
    }
  }

  lemma StartShows(lower: char -> char, p: Pane, text: string, replies: seq<Reply>)
    ensures var q := Query(text, replies, Opened(|replies|), Waiting, [], false);
            QueryShown(lower, Restarted(p), q)
  { }

  lemma AdvanceKeepsShown(lower: char -> char, p: Pane, q: Query, step: QueryStep, p': Pane)
    requires QueryShown(lower, p, q) && CanAdvance(q, step) && PaneNext(lower, p, p.gen, q, step, p')
    ensures QueryShown(lower, p', Advanced(q, step, true))
  {
    AdvanceKeepsSearch(q, step, true);
    AdvanceKeepsCurrent(q, step);
    AdvanceKeepsPane(lower, p, q, step, p');
  }

  lemma SearchesKeepInv(lower: char -> char, u: Ui, step: UiStep, u': Ui, k: nat)
    requires SearchesInv(u) && UiNext(lower, u, step, u') && k < |u'.searches|
    ensures SearchInv(u'.searches[k])
  {
    if step.Start? && k == |u.searches| {
      StartShows(lower, u.pane, step.text, step.replies);
    } else if step.Advance? && k == step.g - 1 {
      AdvanceKeepsSearch(u.searches[k], step.step, step.g == u.pane.gen);
    } else {
      assert u'.searches[k] == u.searches[k];
    }
  }

  lemma LastAfter(lower: char -> char, u: Ui, g: nat, step: QueryStep, u': Ui)
    requires UiNext(lower, u, Advance(g, step), u') && u.pane.gen == |u.searches|
    ensures |u'.searches| == |u.searches| && u'.pane.gen == u.pane.gen
    ensures g == u.pane.gen ==> Last(u') == Advanced(Last(u), step, true)
    ensures g != u.pane.gen ==> Last(u') == Last(u) && u'.pane == u.pane
  { }

  lemma ShownKeepsInv(lower: char -> char, u: Ui, step: UiStep, u': Ui)
    requires u.pane.gen == |u.searches| && ShownInv(lower, u) && UiNext(lower, u, step, u')
    ensures u'.pane.gen == |u'.searches| && ShownInv(lower, u')
  {
    if step.Start? {
      StartShows(lower, u.pane, step.text, step.replies);
    } else {
      LastAfter(lower, u, step.g, step.step, u');
      if step.g == u.pane.gen {
        AdvanceKeepsShown(lower, u.pane, Last(u), step.step, u'.pane);
      }
    }
  }

  lemma UiKeepsInv(lower: char -> char, u: Ui, step: UiStep, u': Ui)
    requires SearchesInv(u) && ShownInv(lower, u) && UiNext(lower, u, step, u')
    ensures SearchesInv(u') && ShownInv(lower, u')
  {
    ShownKeepsInv(lower, u, step, u');
    forall k | 0 <= k < |u'.searches| ensures SearchInv(u'.searches[k]) {
      SearchesKeepInv(lower, u, step, u', k);
    }
  }

  ghost predicate UiRun(lower: char -> char, steps: seq<UiStep>, states: seq<Ui>) {
    && |states| == |steps| + 1 && states[0] == UiInit()
    && forall k :: 0 <= k < |steps| ==> UiNext(lower, states[k], steps[k], states[k + 1])
  }

  lemma {:induction false} UiRunInv(lower: char -> char, steps: seq<UiStep>, states: seq<Ui>, k: nat)
    requires UiRun(lower, steps, states) && k < |states|
    ensures SearchesInv(states[k]) && ShownInv(lower, states[k])
  {
    if k > 0 {
      UiRunInv(lower, steps, states, k - 1);
      UiKeepsInv(lower, states[k - 1], steps[k - 1], states[k]);
    }
  }

  lemma EndedIsComplete(q: Query)
    requires SearchInv(q) && CurrentInv(q) && q.ended
    ensures IsSchedule(q.delivered, |q.replies|)
  {
    assert q.ch.received + q.ch.buffer == q.delivered;
  }

  /**
   * Whatever searches are started and however their chunks interleave, what is accumulated, the errors and the rows
   * shown come from the newest search alone: its error-free chunks, in the order they were delivered. Once its close
   * message is handled every indexer has been heard; until then a command is out to fetch the next message.
   */
  lemma GenerationIsolation(lower: char -> char, steps: seq<UiStep>, states: seq<Ui>, k: nat)
    requires UiRun(lower, steps, states) && k < |states| && states[k].searches != []
    ensures var q := Last(states[k]);
            && Shows(lower, states[k].pane, q)
            && (if q.ended then IsSchedule(q.delivered, |q.replies|) else q.cmd != Idle)
  {
    UiRunInv(lower, steps, states, k);
    var q := Last(states[k]);
    if q.ended {
      EndedIsComplete(q);
    }
  }

  lemma SchedulesDeliverTheSame(lower: char -> char, query: string, replies: seq<Reply>, a: seq<nat>, b: seq<nat>)
    requires IsSchedule(a, |replies|) && IsSchedule(b, |replies|)
    ensures forall r :: r in Accumulated(Chunks(lower, query, replies, a)) <==>
                        r in Accumulated(Chunks(lower, query, replies, b))
    ensures Failures(Chunks(lower, query, replies, a)).Keys == Failures(Chunks(lower, query, replies, b)).Keys
  {
    var x, y := Chunks(lower, query, replies, a), Chunks(lower, query, replies, b);
    AccumulatedMembers(x);
    AccumulatedMembers(y);
    forall c ensures c in x <==> c in y {
      ChunkMembers(lower, query, replies, a, c);
      ChunkMembers(lower, query, replies, b, c);
    }
  }

  /**
   * A streamed search that has ended shows what a batch search of the same replies returns: the same keys, agreeing
   * rows, and errors from the same indexers, whatever the order of the goroutines in either.
   */
  lemma StreamedMatchesBatch(lower: char -> char, steps: seq<UiStep>, states: seq<Ui>, k: nat,
                             order: seq<nat>, ranked: seq<Result>)
    requires UiRun(lower, steps, states) && k < |states| && states[k].searches != []
    requires Last(states[k]).ended
    requires IsSchedule(order, |Last(states[k]).replies|)
    requires var q := Last(states[k]);
             IsRanking(ranked, Merged(lower, Accumulated(Chunks(lower, q.text, q.replies, order))))
    ensures SameView(lower, states[k].pane.rows, ranked)
    ensures var q := Last(states[k]);
            states[k].pane.errs.Keys == Failures(Chunks(lower, q.text, q.replies, order)).Keys
  {
    GenerationIsolation(lower, steps, states, k);
    var q := Last(states[k]);
    SchedulesDeliverTheSame(lower, q.text, q.replies, q.delivered, order);
    OrderIndependent(lower, states[k].pane.acc, Accumulated(Chunks(lower, q.text, q.replies, order)),
                     states[k].pane.rows, ranked);
  }
}
