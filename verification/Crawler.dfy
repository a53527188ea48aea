/**
 * The pipeline of internal/dht/crawler.go: DHT callbacks, metadata workers and the replenish loop, interleaved step by
 * step over the recent set, the bounded channel and the store.
 */
module Crawler {
  import opened Basics
  import Recent
  import Store

  const QUEUE_CAPACITY := 1024
  const RECENT_CAPACITY := 50_000
  const PAGE_SIZE := 64

  /**
   * `marking`: passed the recent set, SeenInfoHash not called yet. `offering`: stored, not offered to the channel yet.
   * `fetching`: taken by a worker. `refill`: what the replenish loop has still to offer of its page.
   * `accepted`, `saved` and `failed` record whose sighting was stored, whose metadata was saved, and whose last
   * SeenInfoHash failed.
   */
  datatype State = State(recent: Recent.State, marking: multiset<InfoHash>, offering: multiset<InfoHash>,
                         queue: seq<InfoHash>, fetching: multiset<InfoHash>, refill: seq<InfoHash>, db: Store.Db,
                         accepted: set<InfoHash>, saved: set<InfoHash>, failed: set<InfoHash>)

  datatype Fetched = NoInfo | Info(name: string, size: int, files: nat, now: int, fault: Store.Fault)

  datatype Step =
    | Arrive(h: InfoHash)
    | Mark(h: InfoHash, now: int, fails: bool)
    | Offer(h: InfoHash)
    | Take
    | Finish(h: InfoHash, result: Fetched)
    | Query(page: seq<InfoHash>)
    | Refill

  /** A crawler on an index that may have rows from earlier runs. */
  ghost function Started(db: Store.Db): State {
    State(Recent.Fresh(RECENT_CAPACITY), multiset{}, multiset{}, [], multiset{}, [], db,
          db.torrents.Keys, Store.ResolvedHashes(db), {})
  }

  ghost predicate Enabled(workers: nat, s: State, step: Step) {
    match step
    case Arrive(_) => true
    case Mark(h, _, _) => h in s.marking
    case Offer(h) => h in s.offering
    case Take => s.queue != [] && |s.fetching| < workers
    case Finish(h, _) => h in s.fetching
    case Query(page) => s.refill == [] && Store.IsPendingPage(s.db, page, PAGE_SIZE)
    case Refill => s.refill != []
  }

  /** select { case c.seen <- h: default: } */
  function Pushed(queue: seq<InfoHash>, h: InfoHash): seq<InfoHash> {
    if |queue| < QUEUE_CAPACITY then queue + [h] else queue
  }

  function SaveOp(h: InfoHash, info: Fetched): Store.Op
    requires info.Info?
  {
    var files := if info.files == 0 then 1 else info.files;
    Store.Save(Store.Record(h, info.name, info.size, files, 0), info.now, info.fault)
  }

  function Next(s: State, step: Step): State {
    match step
    case Arrive(h) =>
      if h == 0 then s
      else s.(recent := Recent.Presented(s.recent, h),
              marking := if Recent.Known(s.recent, h) then s.marking else s.marking + multiset{h})
    case Mark(h, now, fails) =>
      var t := s.(marking := s.marking - multiset{h}, db := Store.Applied(s.db, Store.Sight(h, now, fails)));
      if fails then t.(failed := s.failed + {h})
      else t.(offering := s.offering + multiset{h}, accepted := s.accepted + {h}, failed := s.failed - {h})
    case Offer(h) => s.(offering := s.offering - multiset{h}, queue := Pushed(s.queue, h))
    case Take => if s.queue == [] then s
                 else s.(queue := s.queue[1..], fetching := s.fetching + multiset{s.queue[0]})
    case Finish(h, result) =>
      var t := s.(fetching := s.fetching - multiset{h});
      if result.NoInfo? then t
      else t.(db := Store.Applied(s.db, SaveOp(h, result)),
              saved := if result.fault.NoFault? then s.saved + {h} else s.saved)
    case Query(page) => s.(refill := page)
    case Refill => if s.refill == [] then s
                   else s.(queue := Pushed(s.queue, s.refill[0]), refill := s.refill[1..])
  }

  // ---------------- safety ----------------

  /** Everything on its way through the pipeline is a row of the store. */
  ghost predicate Stored(s: State) {
    && (forall i :: 0 <= i < |s.queue| ==> s.queue[i] in s.db.torrents)
    && (forall i :: 0 <= i < |s.refill| ==> s.refill[i] in s.db.torrents)
    && (forall h :: h in s.offering || h in s.fetching ==> h in s.db.torrents)
  }

  /** What the recent set suppresses is stored, about to be, or the victim of a store error. */
  ghost predicate Accounted(s: State) {
    forall h :: Recent.Known(s.recent, h) ==> h in s.db.torrents || h in s.marking || h in s.failed
  }

  ghost predicate Inv(workers: nat, s: State) {
    && |s.queue| <= QUEUE_CAPACITY && |s.fetching| <= workers
    && Stored(s) && Accounted(s)
    && s.accepted == s.db.torrents.Keys && s.saved == Store.ResolvedHashes(s.db)
  }

  lemma MarkKeepsInv(workers: nat, s: State, h: InfoHash, now: int, fails: bool)
    requires Inv(workers, s) && h in s.marking
    ensures Inv(workers, Next(s, Mark(h, now, fails)))
  {
    Store.AppliedRows(s.db, Store.Sight(h, now, fails));
  }

  lemma FinishKeepsInv(workers: nat, s: State, h: InfoHash, result: Fetched)
    requires Inv(workers, s) && h in s.fetching
    ensures Inv(workers, Next(s, Finish(h, result)))
  {
    if result.Info? {
      Store.AppliedRows(s.db, SaveOp(h, result));
    }
  }

  lemma ArriveKeepsInv(workers: nat, s: State, h: InfoHash)
    requires Inv(workers, s)
    ensures Inv(workers, Next(s, Arrive(h)))
  { }

  /** The steps that only move hashes along. */
  lemma TransferKeepsInv(workers: nat, s: State, step: Step)
    requires Inv(workers, s) && Enabled(workers, s, step)
    requires step.Offer? || step.Take? || step.Query? || step.Refill?
    ensures Inv(workers, Next(s, step))
  {
    if step.Query? {
      assert forall i :: 0 <= i < |step.page| ==> step.page[i] in Store.PendingHashes(s.db);
    }
  }

  lemma StepKeepsInv(workers: nat, s: State, step: Step)
    requires Inv(workers, s) && Enabled(workers, s, step)
    ensures Inv(workers, Next(s, step))
  {
    match step
    case Arrive(h) => ArriveKeepsInv(workers, s, h);
    case Mark(h, now, fails) => MarkKeepsInv(workers, s, h, now, fails);
    case Finish(h, result) => FinishKeepsInv(workers, s, h, result);
    case _ => TransferKeepsInv(workers, s, step);
  }

  lemma StepKeepsIndex(s: State, step: Step)
    requires Store.Indexed(s.db)
    ensures Store.Indexed(Next(s, step).db)
  {
    if step.Mark? {
      Store.OpKeepsIndex(s.db, Store.Sight(step.h, step.now, step.fails));
    } else if step.Finish? && step.result.Info? {
      Store.OpKeepsIndex(s.db, SaveOp(step.h, step.result));
    }
  }

  /** The steps lead from `s` through the states. */
  ghost predicate Segment(workers: nat, s: State, steps: seq<Step>, states: seq<State>) {
    && |states| == |steps| + 1 && states[0] == s
    && forall k :: 0 <= k < |steps| ==>
         Enabled(workers, states[k], steps[k]) && states[k + 1] == Next(states[k], steps[k])
  }

  ghost predicate Run(workers: nat, db: Store.Db, steps: seq<Step>, states: seq<State>) {
    Segment(workers, Started(db), steps, states)
  }

  lemma {:induction false} RunInv(workers: nat, db: Store.Db, steps: seq<Step>, states: seq<State>, k: nat)
    requires Run(workers, db, steps, states) && k < |states|
    ensures Inv(workers, states[k])
    ensures Store.Indexed(db) ==> Store.Indexed(states[k].db)
  {
    if k > 0 {
      RunInv(workers, db, steps, states, k - 1);
      StepKeepsInv(workers, states[k - 1], steps[k - 1]);
      if Store.Indexed(db) {
        StepKeepsIndex(states[k - 1], steps[k - 1]);
      }
    }
  }

  /**
   * At every point of every interleaving the channel holds at most 1024 hashes, whatever is queued or in flight is a
   * stored row, and the accepted hashes are exactly the pending and the resolved ones, resolved meaning saved.
   */
  lemma PipelineSafety(workers: nat, db: Store.Db, steps: seq<Step>, states: seq<State>, k: nat)
    requires Store.Indexed(db) && Run(workers, db, steps, states) && k < |states|
    ensures var s := states[k];
            && |s.queue| <= 1024 && |s.fetching| <= workers && Stored(s) && Store.Indexed(s.db)
            && s.accepted == Store.PendingHashes(s.db) + Store.ResolvedHashes(s.db)
            && s.saved == Store.ResolvedHashes(s.db)
  {
    RunInv(workers, db, steps, states, k);
    var s := states[k];
    assert s.db.torrents.Keys == Store.PendingHashes(s.db) + Store.ResolvedHashes(s.db);
  }

  /** Rows are never lost. */
  ghost predicate KeepsRows(s: State, t: State) {
    s.db.torrents.Keys <= t.db.torrents.Keys
  }

  lemma StepKeepsRows(s: State, step: Step, t: State)
    requires t == Next(s, step)
    ensures KeepsRows(s, t)
  {
    if step.Mark? {
      Store.AppliedRows(s.db, Store.Sight(step.h, step.now, step.fails));
    } else if step.Finish? && step.result.Info? {
      Store.AppliedRows(s.db, SaveOp(step.h, step.result));
    }
  }

  lemma RowsKeptAt(workers: nat, db: Store.Db, steps: seq<Step>, states: seq<State>, k: nat)
    requires Run(workers, db, steps, states) && k < |steps|
    ensures KeepsRows(states[k], states[k + 1])
  {
    StepKeepsRows(states[k], steps[k], states[k + 1]);
  }

  lemma {:induction false} RunKeepsRows(workers: nat, db: Store.Db, steps: seq<Step>, states: seq<State>,
                                        k: nat, j: nat)
    requires Run(workers, db, steps, states) && k <= j < |states|
    ensures KeepsRows(states[k], states[j])
    decreases j
  {
    if k < j {
      RunKeepsRows(workers, db, steps, states, k, j - 1);
      RowsKeptAt(workers, db, steps, states, j - 1);
    }
  }

  /**
   * An offered hash goes to the end of the channel, or, if 1024 wait there, is dropped; but either way, at every later
   * point of the run, the store has it as pending or its metadata has been saved.
   */
  lemma DroppedStaysPending(workers: nat, db: Store.Db, steps: seq<Step>, states: seq<State>, k: nat, j: nat,
                            h: InfoHash)
    requires Run(workers, db, steps, states) && k < |steps| && k <= j < |states|
    requires steps[k] == Offer(h)
    ensures states[k + 1].queue == if |states[k].queue| < 1024 then states[k].queue + [h] else states[k].queue
    ensures h in Store.PendingHashes(states[j].db) || h in states[j].saved
  {
    RunInv(workers, db, steps, states, k);
    RunInv(workers, db, steps, states, j);
    RunKeepsRows(workers, db, steps, states, k, j);
    assert h in states[k].db.torrents;
  }

  // ---------------- store errors ----------------

  ghost predicate NeverFails(steps: seq<Step>) {
    forall k :: 0 <= k < |steps| ==> !(steps[k].Mark? && steps[k].fails)
  }

  lemma {:induction false} NothingFailed(workers: nat, db: Store.Db, steps: seq<Step>, states: seq<State>, k: nat)
    requires Run(workers, db, steps, states) && NeverFails(steps) && k < |states|
    ensures states[k].failed == {}
  {
    if k > 0 {
      NothingFailed(workers, db, steps, states, k - 1);
    }
  }

  /** While SeenInfoHash never fails, every key in the recent set is stored or on its way to the store. */
  lemma RecentIsStored(workers: nat, db: Store.Db, steps: seq<Step>, states: seq<State>, k: nat)
    requires Run(workers, db, steps, states) && NeverFails(steps) && k < |states|
    ensures forall h :: Recent.Known(states[k].recent, h) ==> h in states[k].db.torrents || h in states[k].marking
  {
    RunInv(workers, db, steps, states, k);
    NothingFailed(workers, db, steps, states, k);
  }

  ghost predicate Covered(s: State) {
    forall h :: Recent.Known(s.recent, h) ==> h in s.db.torrents || h in s.marking
  }

  /** A call of SeenInfoHash keeps the recent set covered exactly if it succeeds or the hash needs no covering. */
  lemma MarkKeepsCovered(s: State, h: InfoHash, now: int, fails: bool)
    requires Covered(s) && h in s.marking
    ensures Covered(Next(s, Mark(h, now, fails))) <==>
            !fails || h in s.db.torrents || s.marking[h] > 1 || !Recent.Known(s.recent, h)
  {
    var t := Next(s, Mark(h, now, fails));
    forall x | x != h && Recent.Known(s.recent, x) ensures x in t.db.torrents || x in t.marking { }
  }

  /** SeenInfoHash fails for a hash in the recent set that is not stored and that no other callback is marking. */
  predicate Uncovers(s: State, step: Step) {
    && step.Mark? && step.fails && Recent.Known(s.recent, step.h)
    && step.h !in s.db.torrents && s.marking[step.h] == 1
  }

  lemma ArriveKeepsCovered(s: State, h: InfoHash)
    requires Covered(s)
    ensures Covered(Next(s, Arrive(h)))
  {
    var t := Next(s, Arrive(h));
    forall x | Recent.Known(t.recent, x) ensures x in t.db.torrents || x in t.marking {
      assert Recent.Known(s.recent, x) || x == h;
    }
  }

  lemma StepKeepsCovered(workers: nat, s: State, step: Step)
    requires Covered(s) && Enabled(workers, s, step)
    ensures Covered(Next(s, step)) <==> !Uncovers(s, step)
  {
    match step
    case Arrive(h) => ArriveKeepsCovered(s, h);
    case Mark(h, now, fails) => MarkKeepsCovered(s, h, now, fails);
    case Finish(_, _) => StepKeepsRows(s, step, Next(s, step));
    case _ =>
  }

  /** The recent set is covered throughout a run if and only if no such call happens in it. */
  lemma {:induction false} RunKeepsCovered(workers: nat, db: Store.Db, steps: seq<Step>, states: seq<State>, k: nat)
    requires Run(workers, db, steps, states) && k < |states|
    ensures (forall i :: 0 <= i <= k ==> Covered(states[i])) <==>
            (forall i :: 0 <= i < k ==> !Uncovers(states[i], steps[i]))
  {
    if k > 0 {
      RunKeepsCovered(workers, db, steps, states, k - 1);
      if forall i :: 0 <= i < k ==> Covered(states[i]) {
        CoveredNext(workers, db, steps, states, k - 1);
      }
    }
  }

  lemma CoveredNext(workers: nat, db: Store.Db, steps: seq<Step>, states: seq<State>, k: nat)
    requires Run(workers, db, steps, states) && k < |steps| && Covered(states[k])
    ensures Covered(states[k + 1]) <==> !Uncovers(states[k], steps[k])
  {
    StepKeepsCovered(workers, states[k], steps[k]);
  }

  /** The run on an empty index in which the first sighting of hash 1 meets a failing store. */
  lemma UncoveredRun(workers: nat, now: int) returns (steps: seq<Step>, states: seq<State>)
    ensures Run(workers, Store.Db(map[], []), steps, states) && |steps| == 2
    ensures steps == [Arrive(1), Mark(1, now, true)]
    ensures !Covered(states[2]) && 1 !in states[2].db.torrents && Next(states[2], Arrive(1)) == states[2]
  {
    var s0 := Started(Store.Db(map[], []));
    var s1 := Next(s0, Arrive(1));
    var s2 := Next(s1, Mark(1, now, true));
    steps, states := [Arrive(1), Mark(1, now, true)], [s0, s1, s2];
    assert Recent.Known(s2.recent, 1);
  }

  /** The hashes that the callbacks of some steps present to the recent set. */
  function Arrived(steps: seq<Step>): seq<InfoHash> {
    if steps == [] then []
    else
      var step := steps[|steps| - 1];
      Arrived(steps[..|steps| - 1]) + if step.Arrive? && step.h != 0 then [step.h] else []
  }

  lemma StepFeedsRecent(s: State, step: Step)
    ensures Next(s, step).recent ==
            if step.Arrive? && step.h != 0 then Recent.Presented(s.recent, step.h) else s.recent
  { }

  lemma FedOneMore(r: Recent.State, hs: seq<InfoHash>, h: InfoHash)
    ensures Recent.Fed(r, hs + [h]) == Recent.Presented(Recent.Fed(r, hs), h)
  {
    Recent.FedAppend(r, hs, [h]);
    assert [h][1..] == [];
  }

  lemma {:induction false} SegmentFeedsRecent(workers: nat, s: State, steps: seq<Step>, states: seq<State>, k: nat)
    requires Segment(workers, s, steps, states) && k <= |steps|
    ensures states[k].recent == Recent.Fed(s.recent, Arrived(steps[..k]))
  {
    if k > 0 {
      var step := steps[k - 1];
      SegmentFeedsRecent(workers, s, steps, states, k - 1);
      assert steps[..k][..k - 1] == steps[..k - 1];
      StepFeedsRecent(states[k - 1], step);
      if step.Arrive? && step.h != 0 {
        FedOneMore(s.recent, Arrived(steps[..k - 1]), step.h);
        assert Arrived(steps[..k]) == Arrived(steps[..k - 1]) + [step.h];
      } else {
        assert Arrived(steps[..k]) == Arrived(steps[..k - 1]);
      }
    }
  }

  lemma {:induction false} ArrivedPrefix(steps: seq<Step>, k: nat)
    requires k <= |steps|
    ensures Recent.Distinct(Arrived(steps[..k])) <= Recent.Distinct(Arrived(steps))
    decreases |steps|
  {
    if k < |steps| {
      var front := steps[..|steps| - 1];
      assert front[..k] == steps[..k];
      ArrivedPrefix(front, k);
      assert forall h :: h in Arrived(front) ==> h in Arrived(steps);
    } else {
      assert steps[..k] == steps;
    }
  }

  /** A hash that is neither in the store nor being marked, and that the recent set suppresses. */
  ghost predicate Lost(s: State, h: InfoHash) {
    h !in s.db.torrents && h !in s.marking && Recent.Known(s.recent, h)
  }

  lemma LostStep(workers: nat, s: State, step: Step, h: InfoHash)
    requires Inv(workers, s) && Enabled(workers, s, step) && Lost(s, h)
    ensures h !in Next(s, step).db.torrents && h !in Next(s, step).marking
  {
    if step.Mark? {
      Store.AppliedRows(s.db, Store.Sight(step.h, step.now, step.fails));
    } else if step.Finish? && step.result.Info? {
      Store.AppliedRows(s.db, SaveOp(step.h, step.result));
    }
  }

  /**
   * After a failure the sighting is lost: while at most 50,000 distinct hashes arrive, whatever else happens and
   * however often the hash itself is seen again, it stays suppressed and is neither stored nor on its way there.
   */
  lemma {:induction false} LostSighting(workers: nat, s: State, h: InfoHash, steps: seq<Step>, states: seq<State>,
                                        k: nat)
    requires Inv(workers, s) && Lost(s, h) && h in s.recent.active && s.recent.cap == 50_000
    requires Segment(workers, s, steps, states) && k <= |steps|
    requires |Recent.Distinct(Arrived(steps))| <= 50_000
    ensures Inv(workers, states[k]) && Lost(states[k], h)
  {
    if k > 0 {
      LostSighting(workers, s, h, steps, states, k - 1);
      StepKeepsInv(workers, states[k - 1], steps[k - 1]);
      LostStep(workers, states[k - 1], steps[k - 1], h);
      StillKnown(workers, s, h, steps, states, k);
    }
  }

  lemma StillKnown(workers: nat, s: State, h: InfoHash, steps: seq<Step>, states: seq<State>, k: nat)
    requires h in s.recent.active && s.recent.cap == 50_000
    requires Segment(workers, s, steps, states) && k <= |steps|
    requires |Recent.Distinct(Arrived(steps))| <= 50_000
    ensures Recent.Known(states[k].recent, h)
  {
    var between := Arrived(steps[..k]);
    SegmentFeedsRecent(workers, s, steps, states, k);
    ArrivedPrefix(steps, k);
    Recent.SubsetCard(Recent.Distinct(between), Recent.Distinct(Arrived(steps)));
    assert {} + Recent.Distinct(between) == Recent.Distinct(between);
    Recent.HoldsWhileFew(s.recent, h, {}, between);
  }

  // ---------------- fetching twice ----------------

  /** No hash is fetched by two workers at a time: such fetches share a torrent, which the first to end closes. */
  ghost predicate FetchedOnce(s: State) {
    forall h :: s.fetching[h] <= 1
  }

  /** Only a worker can break that, exactly by taking a hash that another one is fetching. */
  lemma StepKeepsFetchedOnce(workers: nat, s: State, step: Step)
    requires FetchedOnce(s) && Enabled(workers, s, step)
    ensures FetchedOnce(Next(s, step)) <==> !(step.Take? && s.queue[0] in s.fetching)
  {
    if step.Take? {
      assert Next(s, step).fetching[s.queue[0]] == s.fetching[s.queue[0]] + 1;
    }
  }

  lemma OneMore(workers: nat, db: Store.Db, steps: seq<Step>, states: seq<State>, step: Step)
    requires Run(workers, db, steps, states) && Enabled(workers, states[|steps|], step)
    ensures Run(workers, db, steps + [step], states + [Next(states[|steps|], step)])
  { }

  lemma FetchingOne(now: int) returns (steps: seq<Step>, states: seq<State>)
    ensures Run(8, Store.Db(map[], []), steps, states) && |steps| == 4
    ensures steps == [Arrive(1), Mark(1, now, false), Offer(1), Take]
    ensures var s := states[4];
            && s.queue == [] && s.fetching == multiset{1} && s.refill == []
            && s.db.torrents == map[1 := Store.Row("", 0, 0, now, false)]
  {
    var s0 := Started(Store.Db(map[], []));
    var s1 := Next(s0, Arrive(1));
    var s2 := Next(s1, Mark(1, now, false));
    var s3 := Next(s2, Offer(1));
    var s4 := Next(s3, Take);
    assert s1.marking == multiset{1} && s1.db == s0.db && s1.queue == [];
    assert s2.offering == multiset{1} && s2.queue == [] && s2.fetching == multiset{};
    assert s3.queue == [1] && s3.fetching == multiset{};
    steps := [Arrive(1), Mark(1, now, false), Offer(1), Take];
    states := [s0, s1, s2, s3, s4];
  }

  /** It happens: the replenish loop queues a pending hash that is being fetched already. */
  lemma FetchedTwice(now: int) returns (steps: seq<Step>, states: seq<State>)
    ensures Run(8, Store.Db(map[], []), steps, states) && |steps| == 7
    ensures steps == [Arrive(1), Mark(1, now, false), Offer(1), Take, Query([1]), Refill, Take]
    ensures states[7].fetching[1] == 2
  {
    var db := Store.Db(map[], []);
    steps, states := FetchingOne(now);
    var s4 := states[4];
    assert Store.PendingHashes(s4.db) == {1};
    var s5, s6 := Next(s4, Query([1])), Next(Next(s4, Query([1])), Refill);
    assert s5.refill == [1] && s5.queue == [] && s6.queue == [1] && s6.fetching == multiset{1};
    OneMore(8, db, steps, states, Query([1]));
    OneMore(8, db, steps + [Query([1])], states + [s5], Refill);
    OneMore(8, db, steps + [Query([1])] + [Refill], states + [s5] + [s6], Take);
    steps := steps + [Query([1])] + [Refill] + [Take];
    states := states + [s5] + [s6] + [Next(s6, Take)];
    assert Next(s6, Take).fetching == multiset{1, 1};
  }
}
