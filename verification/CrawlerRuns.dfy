/**
 * What the pipeline of internal/dht/crawler.go does over whole runs: the order of the channel, the sightings that are
 * let through and those that are suppressed, the conservation of hashes between its stages, and what ends up stored.
 */
module CrawlerRuns {
  import opened Basics
  import Recent
  import Store
  import opened Crawler

  // ---------------- the channel ----------------

  /** The hash that a step offers to the channel, if it offers one. */
  function Offered(s: State, step: Step): seq<InfoHash> {
    if step.Offer? then [step.h]
    else if step.Refill? && s.refill != [] then [s.refill[0]]
    else []
  }

  /** All the hashes that found room among the 1024 places during the first k steps, in order. */
  ghost function Entered(steps: seq<Step>, states: seq<State>, k: nat): seq<InfoHash>
    requires k <= |steps| <= |states|
  {
    if k == 0 then []
    else
      Entered(steps, states, k - 1) +
      if |states[k - 1].queue| < 1024 then Offered(states[k - 1], steps[k - 1]) else []
  }

  /** How many hashes the workers have taken in the first k steps. */
  function Takes(steps: seq<Step>, k: nat): nat
    requires k <= |steps|
  {
    if k == 0 then 0 else Takes(steps, k - 1) + if steps[k - 1].Take? then 1 else 0
  }

  /** In any reachable state an offered hash goes to the end of the channel if fewer than 1024 wait, else nowhere. */
  lemma OfferedIsQueued(workers: nat, db: Store.Db, steps: seq<Step>, states: seq<State>, k: nat)
    requires Run(workers, db, steps, states) && k < |steps| && (steps[k].Offer? || steps[k].Refill?)
    ensures var s := states[k];
            && |s.queue| <= 1024 && Offered(s, steps[k]) != []
            && states[k + 1].queue == (if |s.queue| < 1024 then s.queue + Offered(s, steps[k]) else s.queue)
            && states[k + 1].fetching == s.fetching && states[k + 1].db == s.db
  {
    RunInv(workers, db, steps, states, k);
  }

  lemma QueueNext(workers: nat, s: State, step: Step)
    requires Enabled(workers, s, step)
    ensures step.Take? ==> s.queue != [] && Next(s, step).queue == s.queue[1..]
    ensures !step.Take? ==>
              Next(s, step).queue == s.queue + if |s.queue| < 1024 then Offered(s, step) else []
  { }

  lemma QueueAt(workers: nat, db: Store.Db, steps: seq<Step>, states: seq<State>, k: nat)
    requires Run(workers, db, steps, states) && k < |steps|
    ensures var q, after := states[k].queue, states[k + 1].queue;
            if steps[k].Take? then q != [] && after == q[1..]
            else after == q + if |q| < 1024 then Offered(states[k], steps[k]) else []
  {
    QueueNext(workers, states[k], steps[k]);
  }

  lemma DropNext(hs: seq<InfoHash>, n: nat, more: seq<InfoHash>)
    requires n <= |hs|
    ensures (hs + more)[n..] == hs[n..] + more
    ensures hs[n..] != [] ==> n < |hs| && hs[n..][1..] == hs[n + 1..]
  { }

  /** The channel is first-in first-out: what waits in it are the hashes that entered, less those already taken. */
  lemma {:induction false} ChannelIsFifo(workers: nat, db: Store.Db, steps: seq<Step>, states: seq<State>, k: nat)
    requires Run(workers, db, steps, states) && k <= |steps|
    ensures Takes(steps, k) <= |Entered(steps, states, k)|
    ensures states[k].queue == Entered(steps, states, k)[Takes(steps, k)..]
  {
    if k > 0 {
      ChannelIsFifo(workers, db, steps, states, k - 1);
      QueueAt(workers, db, steps, states, k - 1);
      var more := if |states[k - 1].queue| < 1024 then Offered(states[k - 1], steps[k - 1]) else [];
      DropNext(Entered(steps, states, k - 1), Takes(steps, k - 1), more);
      assert steps[k - 1].Take? ==> Entered(steps, states, k) == Entered(steps, states, k - 1);
    }
  }

  lemma {:induction false} EnteredGrows(steps: seq<Step>, states: seq<State>, k: nat, j: nat)
    requires k <= j <= |steps| <= |states|
    ensures Entered(steps, states, k) <= Entered(steps, states, j) && Takes(steps, k) <= Takes(steps, j)
    decreases j
  {
    if k < j {
      EnteredGrows(steps, states, k, j - 1);
    }
  }

  /** The (n + 1)-th take. */
  lemma {:induction false} TakeNumbered(steps: seq<Step>, j: nat, n: nat) returns (m: nat)
    requires j <= |steps| && n < Takes(steps, j)
    ensures m < j && steps[m].Take? && Takes(steps, m) == n
  {
    if steps[j - 1].Take? && n == Takes(steps, j) - 1 {
      m := j - 1;
    } else {
      m := TakeNumbered(steps, j - 1, n);
    }
  }

  /** The n-th hash to enter is the n-th to be taken. */
  lemma TakenInOrder(workers: nat, db: Store.Db, steps: seq<Step>, states: seq<State>, k: nat)
    requires Run(workers, db, steps, states) && k < |steps| && steps[k].Take?
    ensures Takes(steps, k) < |Entered(steps, states, k)|
    ensures states[k + 1].fetching ==
            states[k].fetching + multiset{Entered(steps, states, k)[Takes(steps, k)]}
  {
    ChannelIsFifo(workers, db, steps, states, k);
  }

  /** A hash once queued stays queued, each take bringing it one place forward.. */
  lemma QueuedUntilTaken(workers: nat, db: Store.Db, steps: seq<Step>, states: seq<State>, k: nat, j: nat, i: nat)
    requires Run(workers, db, steps, states) && k <= j <= |steps| && i < |states[k].queue|
    requires Takes(steps, j) <= Takes(steps, k) + i
    ensures var ahead := Takes(steps, k) + i - Takes(steps, j);
            ahead <= i && ahead < |states[j].queue| && states[j].queue[ahead] == states[k].queue[i]
  {
    TakesGrow(steps, k, j);
    QueuedEntered(workers, db, steps, states, k, j, i);
    ChannelIsFifo(workers, db, steps, states, j);
    LeftAt(Entered(steps, states, j), Takes(steps, j), states[j].queue, Takes(steps, k) + i);
  }

  lemma LeftAt(hs: seq<InfoHash>, n: nat, rest: seq<InfoHash>, at: nat)
    requires n <= at < |hs| && rest == hs[n..]
    ensures at - n < |rest| && rest[at - n] == hs[at]
  { }

  /** ..until the take after those that were before it hands it from the front of the channel to a worker. */
  lemma QueuedIsTaken(workers: nat, db: Store.Db, steps: seq<Step>, states: seq<State>, k: nat, j: nat, i: nat)
    returns (m: nat)
    requires Run(workers, db, steps, states) && k <= j <= |steps| && i < |states[k].queue|
    requires Takes(steps, j) > Takes(steps, k) + i
    ensures k <= m < j && HandedOver(steps, states, m, states[k].queue[i]) && Takes(steps, m) == Takes(steps, k) + i
  {
    QueuedEntered(workers, db, steps, states, k, j, i);
    m := TakeNumbered(steps, j, Takes(steps, k) + i);
    TakenBetween(steps, k, m, Takes(steps, k) + i);
    FrontTaken(workers, db, steps, states, m, j);
  }

  lemma QueuedEntered(workers: nat, db: Store.Db, steps: seq<Step>, states: seq<State>, k: nat, j: nat, i: nat)
    requires Run(workers, db, steps, states) && k <= j <= |steps| && i < |states[k].queue|
    ensures Takes(steps, k) + i < |Entered(steps, states, j)|
    ensures Entered(steps, states, j)[Takes(steps, k) + i] == states[k].queue[i]
  {
    ChannelIsFifo(workers, db, steps, states, k);
    EnteredGrows(steps, states, k, j);
    DroppedAt(Entered(steps, states, k), Entered(steps, states, j), Takes(steps, k), states[k].queue, i);
  }

  lemma DroppedAt(hs: seq<InfoHash>, more: seq<InfoHash>, n: nat, rest: seq<InfoHash>, i: nat)
    requires hs <= more && n <= |hs| && rest == hs[n..] && i < |rest|
    ensures n + i < |more| && more[n + i] == rest[i]
  { }

  lemma TakenBetween(steps: seq<Step>, k: nat, m: nat, n: nat)
    requires k <= |steps| && m < |steps| && steps[m].Take? && Takes(steps, m) == n >= Takes(steps, k)
    ensures k <= m
  {
    if m < k {
      TakesGrow(steps, m + 1, k);
    }
  }

  lemma {:induction false} TakesGrow(steps: seq<Step>, k: nat, j: nat)
    requires k <= j <= |steps|
    ensures Takes(steps, k) <= Takes(steps, j)
    decreases j
  {
    if k < j {
      TakesGrow(steps, k, j - 1);
    }
  }

  lemma FrontTaken(workers: nat, db: Store.Db, steps: seq<Step>, states: seq<State>, m: nat, j: nat)
    requires Run(workers, db, steps, states) && m < j <= |steps| && steps[m].Take?
    ensures Takes(steps, m) < |Entered(steps, states, j)|
    ensures HandedOver(steps, states, m, Entered(steps, states, j)[Takes(steps, m)])
  {
    ChannelIsFifo(workers, db, steps, states, m);
    QueueAt(workers, db, steps, states, m);
    EnteredGrows(steps, states, m, j);
    var s := states[m];
    assert s.queue[0] == Entered(steps, states, m)[Takes(steps, m)];
    assert Enabled(workers, s, steps[m]) && states[m + 1] == Next(s, steps[m]);
  }

  /** At step m a worker takes `h` from the front of the channel. */
  ghost predicate HandedOver(steps: seq<Step>, states: seq<State>, m: nat, h: InfoHash) {
    && m < |steps| && m + 1 < |states| && steps[m].Take? && states[m].queue != [] && states[m].queue[0] == h
    && states[m + 1].fetching == states[m].fetching + multiset{h}
  }

  // ---------------- conservation ----------------

  /** What can happen to a hash on its way through the pipeline. */
  datatype Event = LetThrough | Marked | Stored | Queued | Taken | Finished

  predicate Happens(event: Event, s: State, step: Step, h: InfoHash) {
    match event
    case LetThrough => step == Arrive(h) && h != 0 && h !in s.recent.active && h !in s.recent.retired
    case Marked => step.Mark? && step.h == h
    case Stored => step.Mark? && step.h == h && !step.fails
    case Queued => step == Offer(h)
    case Taken => step.Take? && s.queue != [] && s.queue[0] == h
    case Finished => step.Finish? && step.h == h
  }

  /** How often it happened to `h` in the first k steps. */
  ghost function Times(event: Event, steps: seq<Step>, states: seq<State>, h: InfoHash, k: nat): nat
    requires k <= |steps| <= |states|
  {
    if k == 0 then 0
    else Times(event, steps, states, h, k - 1) + if Happens(event, states[k - 1], steps[k - 1], h) then 1 else 0
  }

  lemma MarkingMoves(workers: nat, s: State, step: Step, h: InfoHash)
    requires Enabled(workers, s, step)
    ensures Next(s, step).marking[h] + (if Happens(Marked, s, step, h) then 1 else 0) ==
            s.marking[h] + (if Happens(LetThrough, s, step, h) then 1 else 0)
  { }

  lemma OfferingMoves(workers: nat, s: State, step: Step, h: InfoHash)
    requires Enabled(workers, s, step)
    ensures Next(s, step).offering[h] + (if Happens(Queued, s, step, h) then 1 else 0) ==
            s.offering[h] + (if Happens(Stored, s, step, h) then 1 else 0)
  { }

  lemma FetchingMoves(workers: nat, s: State, step: Step, h: InfoHash)
    requires Enabled(workers, s, step)
    ensures Next(s, step).fetching[h] + (if Happens(Finished, s, step, h) then 1 else 0) ==
            s.fetching[h] + (if Happens(Taken, s, step, h) then 1 else 0)
  { }

  /** No sighting is lost or doubled between the stages: what went into one is in it or has left it. */
  lemma {:induction false} HashesConserved(workers: nat, db: Store.Db, steps: seq<Step>, states: seq<State>, k: nat,
                                           h: InfoHash)
    requires Run(workers, db, steps, states) && k <= |steps|
    ensures Times(LetThrough, steps, states, h, k) == states[k].marking[h] + Times(Marked, steps, states, h, k)
    ensures Times(Stored, steps, states, h, k) == states[k].offering[h] + Times(Queued, steps, states, h, k)
    ensures Times(Taken, steps, states, h, k) == states[k].fetching[h] + Times(Finished, steps, states, h, k)
  {
    if k > 0 {
      HashesConserved(workers, db, steps, states, k - 1, h);
      MarkingMoves(workers, states[k - 1], steps[k - 1], h);
      OfferingMoves(workers, states[k - 1], steps[k - 1], h);
      FetchingMoves(workers, states[k - 1], steps[k - 1], h);
    }
  }

  // ---------------- which sightings are let through ----------------

  /** A hash that has not arrived before goes on to the store. */
  lemma FirstSightingPasses(workers: nat, db: Store.Db, steps: seq<Step>, states: seq<State>, k: nat, h: InfoHash)
    requires Run(workers, db, steps, states) && k < |steps| && steps[k] == Arrive(h) && h != 0
    requires h !in Arrived(steps[..k])
    ensures states[k + 1].marking == states[k].marking + multiset{h}
  {
    SegmentFeedsRecent(workers, states[0], steps, states, k);
    Recent.KnownWasPresented(states[0].recent, Arrived(steps[..k]));
  }

  lemma RestOfRun(workers: nat, s: State, steps: seq<Step>, states: seq<State>, i: nat)
    requires Segment(workers, s, steps, states) && i < |states|
    ensures Segment(workers, states[i], steps[i..], states[i..])
  {
    var more, after := steps[i..], states[i..];
    forall k | 0 <= k < |more| ensures Enabled(workers, after[k], more[k]) && after[k + 1] == Next(after[k], more[k]) {
      assert after[k] == states[i + k] && after[k + 1] == states[i + k + 1] && more[k] == steps[i + k];
    }
  }

  lemma ArrivalKnown(workers: nat, s: State, steps: seq<Step>, states: seq<State>, j: nat, h: InfoHash)
    requires Segment(workers, s, steps, states) && 0 < j <= |steps| && steps[0] == Arrive(h) && h != 0
    requires |Recent.Distinct(Arrived(steps[1..j]))| <= s.recent.cap
    ensures Recent.Known(states[j].recent, h)
  {
    RestOfRun(workers, s, steps, states, 1);
    var since := Arrived(steps[1..j]);
    assert steps[1..][..j - 1] == steps[1..j];
    SegmentFeedsRecent(workers, states[1], steps[1..], states[1..], j - 1);
    StepFeedsRecent(states[0], steps[0]);
    assert {} + Recent.Distinct(since) == Recent.Distinct(since);
    Recent.HoldsWhileFew(states[1].recent, h, {}, since);
  }

  /** A hash that arrives again after at most 50,000 distinct others is suppressed: nothing but the recent set moves. */
  lemma RepeatedSightingStops(workers: nat, db: Store.Db, steps: seq<Step>, states: seq<State>, i: nat, j: nat,
                              h: InfoHash)
    requires Run(workers, db, steps, states) && i < j < |steps| && h != 0
    requires steps[i] == Arrive(h) && steps[j] == Arrive(h)
    requires |Recent.Distinct(Arrived(steps[i + 1..j]))| <= 50_000
    ensures states[j + 1] == states[j].(recent := states[j + 1].recent)
  {
    RecentHasCapacity(workers, db, steps, states, i);
    RestOfRun(workers, states[0], steps, states, i);
    assert steps[i..][1..j - i] == steps[i + 1..j];
    ArrivalKnown(workers, states[i], steps[i..], states[i..], j - i, h);
    SuppressedNext(states[j], h);
  }

  lemma RecentHasCapacity(workers: nat, db: Store.Db, steps: seq<Step>, states: seq<State>, i: nat)
    requires Run(workers, db, steps, states) && i <= |steps|
    ensures states[i].recent.cap == 50_000
  {
    SegmentFeedsRecent(workers, states[0], steps, states, i);
    Recent.CapKept(states[0].recent, Arrived(steps[..i]));
  }

  lemma SuppressedNext(s: State, h: InfoHash)
    requires Recent.Known(s.recent, h)
    ensures Next(s, Arrive(h)) == s.(recent := Next(s, Arrive(h)).recent)
  { }

  /** The all-zero hash is ignored. */
  lemma ZeroIgnored(workers: nat, db: Store.Db, steps: seq<Step>, states: seq<State>, k: nat)
    requires Run(workers, db, steps, states) && k < |steps| && steps[k] == Arrive(0)
    ensures states[k + 1] == states[k]
  { }

  // ---------------- what is stored ----------------

  /** A worker saves the metadata of `h`. */
  predicate Resolves(step: Step, h: InfoHash) {
    step.Finish? && step.h == h && step.result.Info? && step.result.fault.NoFault?
  }

  /** The two ways a step changes the index. */
  ghost predicate Indexes(was: Store.Db, step: Step, now: Store.Db) {
    if step.Mark? && !step.fails then Store.Sighted(was, step.h, step.now, now)
    else if step.Finish? && Resolves(step, step.h) then
      var files := if step.result.files == 0 then 1 else step.result.files;
      Store.Recorded(was, Store.Record(step.h, step.result.name, step.result.size, files, 0), step.result.now, now)
    else now == was
  }

  lemma IndexNext(workers: nat, db: Store.Db, steps: seq<Step>, states: seq<State>, k: nat)
    requires Run(workers, db, steps, states) && k < |steps|
    ensures Indexes(states[k].db, steps[k], states[k + 1].db)
  {
    var was, step := states[k].db, steps[k];
    if step.Mark? {
      Store.SeenSights(was, step.h, step.now);
    } else if step.Finish? && step.result.Info? {
      Store.SavedRecords(was, SaveOp(step.h, step.result).r, step.result.now);
    }
  }

  ghost predicate HoldsInfo(db: Store.Db, h: InfoHash, info: Fetched)
    requires info.Info?
  {
    && h in db.torrents && db.torrents[h].resolved
    && db.torrents[h].name == info.name && db.torrents[h].size == info.size
    && db.torrents[h].files == (if info.files == 0 then 1 else info.files)
  }

  lemma FetchedHolds(was: Store.Db, step: Step, now: Store.Db, h: InfoHash)
    requires Indexes(was, step, now) && Resolves(step, h)
    ensures HoldsInfo(now, h, step.result)
  { }

  lemma StillHolds(was: Store.Db, step: Step, now: Store.Db, h: InfoHash, info: Fetched)
    requires info.Info? && HoldsInfo(was, h, info) && Indexes(was, step, now) && !Resolves(step, h)
    ensures HoldsInfo(now, h, info)
  { }

  /** A resolved row has the name, size and number of files (1 for a single-file torrent) of the last fetch saved. */
  lemma {:induction false} LastFetchStands(workers: nat, db: Store.Db, steps: seq<Step>, states: seq<State>, k: nat,
                                           j: nat, h: InfoHash)
    requires Run(workers, db, steps, states) && k < j <= |steps| && Resolves(steps[k], h)
    requires forall m :: k < m < j ==> !Resolves(steps[m], h)
    ensures HoldsInfo(states[j].db, h, steps[k].result)
    decreases j
  {
    IndexNext(workers, db, steps, states, j - 1);
    if k < j - 1 {
      LastFetchStands(workers, db, steps, states, k, j - 1, h);
      StillHolds(states[j - 1].db, steps[j - 1], states[j].db, h, steps[k].result);
    } else {
      FetchedHolds(states[k].db, steps[k], states[j].db, h);
    }
  }

  // ---------------- the replenish loop ----------------

  /** How many hashes of its pages the replenish loop has offered. */
  function Refills(steps: seq<Step>, k: nat): nat
    requires k <= |steps|
  {
    if k == 0 then 0 else Refills(steps, k - 1) + if steps[k - 1].Refill? then 1 else 0
  }

  /** What a step does to the part of the page that is left. */
  ghost predicate Refilled(s: State, step: Step, t: State) {
    match step
    case Query(page) => t.refill == page
    case Refill => s.refill != [] && t.refill == s.refill[1..]
    case _ => t.refill == s.refill
  }

  ghost predicate RefillRun(steps: seq<Step>, states: seq<State>) {
    |states| == |steps| + 1 && forall k :: 0 <= k < |steps| ==> Refilled(states[k], steps[k], states[k + 1])
  }

  lemma RunRefills(workers: nat, db: Store.Db, steps: seq<Step>, states: seq<State>)
    requires Run(workers, db, steps, states)
    ensures RefillRun(steps, states)
  {
    forall k | 0 <= k < |steps| ensures Refilled(states[k], steps[k], states[k + 1]) {
      assert Enabled(workers, states[k], steps[k]) && states[k + 1] == Next(states[k], steps[k]);
    }
  }

  /** After n of its hashes were offered, this is left of the page. */
  ghost predicate IsLeft(page: seq<InfoHash>, n: int, left: seq<InfoHash>) {
    0 <= n <= |page| && left == page[n..]
  }

  lemma OfferedNext(page: seq<InfoHash>, n: int, s: State, step: Step, t: State)
    requires IsLeft(page, n, s.refill) && !step.Query?
    requires if step.Refill? then s.refill != [] && t.refill == s.refill[1..] else t.refill == s.refill
    ensures IsLeft(page, n + if step.Refill? then 1 else 0, t.refill)
  { }

  lemma {:induction false} PageLeft(steps: seq<Step>, states: seq<State>, k: nat, j: nat)
    requires RefillRun(steps, states) && k < j <= |steps| && steps[k].Query?
    requires forall m :: k < m < j ==> !steps[m].Query?
    ensures IsLeft(steps[k].page, Refills(steps, j) - Refills(steps, k), states[j].refill)
    decreases j
  {
    assert Refilled(states[j - 1], steps[j - 1], states[j]);
    if k < j - 1 {
      PageLeft(steps, states, k, j - 1);
      OfferedNext(steps[k].page, Refills(steps, j - 1) - Refills(steps, k), states[j - 1], steps[j - 1], states[j]);
    }
  }

  /** A page is the 64 newest pending rows, or all, and is offered hash by hash in that order. */
  lemma PageInOrder(workers: nat, db: Store.Db, steps: seq<Step>, states: seq<State>, k: nat, j: nat)
    requires Run(workers, db, steps, states) && k < j <= |steps| && steps[k].Query?
    requires forall m :: k < m < j ==> !steps[m].Query?
    ensures Store.IsPendingPage(states[k].db, steps[k].page, 64)
    ensures IsLeft(steps[k].page, Refills(steps, j) - Refills(steps, k), states[j].refill)
  {
    assert Enabled(workers, states[k], steps[k]);
    RunRefills(workers, db, steps, states);
    PageLeft(steps, states, k, j);
  }
}
