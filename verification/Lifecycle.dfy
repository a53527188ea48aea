/**
 * The life cycle of downloads in internal/engine/engine.go: the engine's list, the client's live torrents, the
 * awaitMetadata goroutines and the metadata fetches, under every interleaving.
 */
module Lifecycle {
  import opened Basics
  import opened Downloads

  datatype Registry = Registry(
    /** The engine's list. */
    listed: map<InfoHash, Download>,
    /** The client's torrents; any other torrent is closed. */
    live: map<InfoHash, Torrent>,
    /** The downloads whose awaitMetadata is still running. */
    waiting: set<Download>,
    /** The downloads with an error. */
    failed: set<Download>,
    /** The downloads whose selection is initialised. */
    chosen: set<Download>,
    /** Every download ever tracked. */
    made: set<Download>,
    /** The torrents that calls of FetchInfo are waiting on, and will drop. */
    held: multiset<Torrent>)
  {
    predicate Live(t: Torrent) {
      t.hash in live && live[t.hash] == t
    }

    predicate Tracked(d: Download) {
      d.t.hash in listed && listed[d.t.hash] == d
    }

    predicate Healthy(h: InfoHash) {
      h in listed && listed[h] !in failed
    }

    /** The torrent of a healthy entry. */
    predicate InUse(t: Torrent) {
      Healthy(t.hash) && listed[t.hash].t == t
    }
  }

  /** How an awaitMetadata ends. */
  datatype Wake = GotInfo | Closed | TimedOut

  /**
   * The atomic operations. `t` is the torrent that the client hands out, and `d` the object that is made if one is
   * needed. FetchInfo is two steps: it waits between adding its torrent and dropping it.
   */
  datatype Step =
    | Add(t: Torrent, d: Download)
    | Remove(h: InfoHash)
    | Restart(h: InfoHash, readded: bool, t: Torrent, d: Download)
    | End(d: Download, wake: Wake)
    | BeginFetch(t: Torrent)
    | EndFetch(t: Torrent)

  function Track(r: Registry, t: Torrent, d: Download): Registry {
    if r.Healthy(t.hash) then r
    else r.(listed := r.listed[t.hash := d], waiting := r.waiting + {d}, made := r.made + {d})
  }

  function Enlivened(r: Registry, t: Torrent): Registry {
    r.(live := r.live[t.hash := t])
  }

  function Added(r: Registry, t: Torrent, d: Download): Registry {
    Track(Enlivened(r, t), t, d)
  }

  function Dropped(r: Registry, t: Torrent): Registry {
    if r.Live(t) then r.(live := r.live - {t.hash}) else r
  }

  function Unlisted(r: Registry, h: InfoHash): Registry {
    r.(listed := r.listed - {h})
  }

  function Removed(r: Registry, h: InfoHash): Registry {
    if h in r.listed then Dropped(Unlisted(r, h), r.listed[h].t) else r
  }

  function Restarted(r: Registry, h: InfoHash, readded: bool, t: Torrent, d: Download): Registry {
    if h in r.listed && readded then Added(Removed(r, h), t, d) else Removed(r, h)
  }

  function Woken(r: Registry, d: Download, wake: Wake): Registry {
    var q := r.(waiting := r.waiting - {d});
    match wake
    case GotInfo => q.(chosen := q.chosen + {d})
    case Closed => q
    case TimedOut => Dropped(q.(failed := q.failed + {d}), d.t)
  }

  function Fetching(r: Registry, t: Torrent): Registry {
    Enlivened(r, t).(held := r.held + multiset{t})
  }

  function Fetched(r: Registry, t: Torrent): Registry {
    Dropped(r.(held := r.held - multiset{t}), t)
  }

  function Stepped(r: Registry, s: Step): Registry {
    match s
    case Add(t, d) => Added(r, t, d)
    case Remove(h) => Removed(r, h)
    case Restart(h, readded, t, d) => Restarted(r, h, readded, t, d)
    case End(d, wake) => Woken(r, d, wake)
    case BeginFetch(t) => Fetching(r, t)
    case EndFetch(t) => Fetched(r, t)
  }

  /** The client hands out the live torrent of an info-hash, or else one that nobody has had. */
  ghost predicate Hands(r: Registry, t: Torrent) {
    if t.hash in r.live then t == r.live[t.hash] else t !in r.held && forall e :: e in r.made ==> e.t != t
  }

  /** New objects are new; a wait ends once, and it reports a closed torrent only when the torrent is closed. */
  ghost predicate Enabled(r: Registry, s: Step) {
    match s
    case Add(t, d) => Hands(r, t) && d.t == t && (r.Healthy(t.hash) || d !in r.made)
    case Remove(_) => true
    case Restart(h, _, t, d) => t.hash == h && Hands(Removed(r, h), t) && d.t == t && d !in r.made
    case End(d, wake) => d in r.waiting && (wake.Closed? ==> !r.Live(d.t))
    case BeginFetch(t) => Hands(r, t)
    case EndFetch(t) => t in r.held
  }

  /** Keys are hashes. */
  ghost predicate Keyed(r: Registry) {
    && (forall h :: h in r.listed ==> r.listed[h] in r.made && r.listed[h].t.hash == h)
    && (forall h :: h in r.live ==> r.live[h].hash == h)
  }

  /** Every live torrent, but for one not yet tracked, has its owner in the list or is held by a fetch. */
  ghost predicate Owned(r: Registry, pending: Torrent?) {
    forall h :: h in r.live ==>
      r.live[h] == pending || r.live[h] in r.held || (h in r.listed && r.listed[h].t == r.live[h])
  }

  /** A download's torrent is live exactly if the download is listed and has not failed. */
  ghost predicate LiveIffHealthy(r: Registry) {
    forall d :: d in r.made ==> (r.Live(d.t) <==> r.Tracked(d) && d !in r.failed)
  }

  /** A live download's selection is missing only while its awaitMetadata runs, which never finds one already made. */
  ghost predicate Awaited(r: Registry) {
    && r.waiting <= r.made && r.failed <= r.made && r.chosen <= r.made
    && r.waiting !! r.chosen && r.waiting !! r.failed
    && forall d :: d in r.made && r.Live(d.t) && d !in r.chosen ==> d in r.waiting
  }

  ghost predicate SoundBut(r: Registry, pending: Torrent?) {
    Keyed(r) && Owned(r, pending) && LiveIffHealthy(r) && Awaited(r)
  }

  ghost predicate Sound(r: Registry) {
    SoundBut(r, null)
  }

  // ---------------- what every step keeps ----------------

  /**
   * The client serves h if the entry of h is healthy, and then with the torrent of that very download; any other live
   * torrent is held by a fetch.
   */
  predicate Served(r: Registry, h: InfoHash) {
    && (r.Healthy(h) ==> h in r.live && r.live[h] == r.listed[h].t)
    && (h in r.live ==> r.live[h].hash == h && (r.Healthy(h) || r.live[h] in r.held))
    && (h in r.listed ==> r.listed[h] in r.made)
  }

  lemma LiveIsHealthy(r: Registry, h: InfoHash)
    requires Sound(r)
    ensures Served(r, h)
    ensures r.held == multiset{} ==> (h in r.live <==> r.Healthy(h))
    ensures r.Healthy(h) && r.listed[h] !in r.chosen ==> r.listed[h] in r.waiting
  {
    if h in r.listed {
      assert r.Live(r.listed[h].t) <==> r.Healthy(h);
    }
  }

  /** The client hands out a torrent that belongs to the healthy entry track returns, or to no download at all. */
  lemma HandedIsUnowned(r: Registry, t: Torrent, e: Download)
    requires Sound(r) && Hands(r, t) && !r.Healthy(t.hash) && e in r.made
    ensures e.t != t
  { }

  lemma EnlivenKeepsSound(r: Registry, t: Torrent)
    requires Sound(r) && Hands(r, t)
    ensures SoundBut(Enlivened(r, t), t)
    ensures r.Healthy(t.hash) ==> Enlivened(r, t) == r
  {
    LiveIsHealthy(r, t.hash);
  }

  lemma TrackKeepsSound(r: Registry, t: Torrent, d: Download)
    requires SoundBut(r, t) && r.Live(t)
    requires !r.Healthy(t.hash) ==> d.t == t && d !in r.made
    ensures Sound(Track(r, t, d))
  {
    if r.Healthy(t.hash) {
      assert r.Live(r.listed[t.hash].t);
    } else {
      assert forall e :: e in r.made && e.t == t ==> r.Tracked(e) && e !in r.failed;
    }
  }

  lemma AddKeepsSound(r: Registry, t: Torrent, d: Download)
    requires Sound(r) && Hands(r, t) && d.t == t
    ensures Sound(Added(r, t, d))
  {
    EnlivenKeepsSound(r, t);
    if !r.Healthy(t.hash) && d in r.made {
      HandedIsUnowned(r, t, d);
    }
    TrackKeepsSound(Enlivened(r, t), t, d);
  }

  lemma RemoveKeepsSound(r: Registry, h: InfoHash)
    requires Sound(r)
    ensures Sound(Removed(r, h))
  { }

  lemma WakeKeepsSound(r: Registry, d: Download, wake: Wake)
    requires Sound(r) && d in r.waiting && (wake.Closed? ==> !r.Live(d.t))
    ensures Sound(Woken(r, d, wake))
  { }

  lemma FetchingKeepsSound(r: Registry, t: Torrent)
    requires Sound(r) && Hands(r, t)
    ensures Sound(Fetching(r, t))
  {
    LiveIsHealthy(r, t.hash);
  }

  /** Ending a fetch keeps it exactly if its torrent is not in use at that moment: it would kill the healthy entry. */
  lemma FetchedKeepsSound(r: Registry, t: Torrent)
    requires Sound(r)
    ensures Sound(Fetched(r, t)) <==> !r.InUse(t)
    ensures r.InUse(t) ==> !Fetched(r, t).Live(t) && Fetched(r, t).InUse(t)
  {
    LiveIsHealthy(r, t.hash);
    if r.InUse(t) {
      assert !Served(Fetched(r, t), t.hash);
      if Sound(Fetched(r, t)) {
        LiveIsHealthy(Fetched(r, t), t.hash);
      }
    } else {
      UnusedDropKeepsSound(r, t);
    }
  }

  lemma UnusedDropKeepsSound(r: Registry, t: Torrent)
    requires Sound(r) && !r.InUse(t)
    ensures Sound(Fetched(r, t))
  {
    var q := r.(held := r.held - multiset{t});
    forall h | h in q.live && q.live[h] != t && q.live[h] in r.held ensures q.live[h] in q.held { }
    if r.Live(t) {
      UnusedIsUnowned(r, t);
    }
  }

  lemma UnusedIsUnowned(r: Registry, t: Torrent)
    requires Sound(r) && !r.InUse(t) && r.Live(t)
    ensures !r.Healthy(t.hash) && forall d :: d in r.made ==> d.t != t
  {
    LiveIsHealthy(r, t.hash);
    forall d | d in r.made ensures d.t != t {
      HandedIsUnowned(r, t, d);
    }
  }

  /** Only the end of a fetch can do harm. */
  predicate Harmless(r: Registry, s: Step) {
    s.EndFetch? ==> !r.InUse(s.t)
  }

  lemma StepKeepsSound(r: Registry, s: Step)
    requires Sound(r) && Enabled(r, s)
    ensures Sound(Stepped(r, s)) <==> Harmless(r, s)
  {
    match s
    case Add(t, d) => AddKeepsSound(r, t, d);
    case Remove(h) => RemoveKeepsSound(r, h);
    case Restart(h, readded, t, d) =>
      RemoveKeepsSound(r, h);
      if h in r.listed && readded {
        AddKeepsSound(Removed(r, h), t, d);
      }
    case End(d, wake) => WakeKeepsSound(r, d, wake);
    case BeginFetch(t) => FetchingKeepsSound(r, t);
    case EndFetch(t) => FetchedKeepsSound(r, t);
  }

  // ---------------- whole runs ----------------

  function After(r: Registry, steps: seq<Step>): Registry
    decreases |steps|
  {
    if steps == [] then r else After(Stepped(r, steps[0]), steps[1..])
  }

  ghost predicate Possible(r: Registry, steps: seq<Step>)
    decreases |steps|
  {
    steps != [] ==> Enabled(r, steps[0]) && Possible(Stepped(r, steps[0]), steps[1..])
  }

  /** No fetch ends while its torrent is in use. */
  predicate AllHarmless(r: Registry, steps: seq<Step>)
    decreases |steps|
  {
    steps != [] ==> Harmless(r, steps[0]) && AllHarmless(Stepped(r, steps[0]), steps[1..])
  }

  lemma {:induction false} RunKeepsSound(r: Registry, steps: seq<Step>)
    requires Sound(r) && Possible(r, steps) && AllHarmless(r, steps)
    ensures Sound(After(r, steps))
    decreases |steps|
  {
    if steps != [] {
      StepKeepsSound(r, steps[0]);
      RunKeepsSound(Stepped(r, steps[0]), steps[1..]);
    }
  }

  /** Re-adding a healthy download changes nothing; otherwise the new object takes the place of a failed entry. */
  lemma AddOutcome(r: Registry, t: Torrent, d: Download)
    requires Sound(r) && Hands(r, t) && d.t == t
    ensures r.Healthy(t.hash) ==> Added(r, t, d) == r
    ensures !r.Healthy(t.hash) ==>
              && Added(r, t, d).listed == r.listed[t.hash := d] && Added(r, t, d).live == r.live[t.hash := t]
              && d !in r.made && d in Added(r, t, d).waiting
  {
    EnlivenKeepsSound(r, t);
    if !r.Healthy(t.hash) && d in r.made {
      HandedIsUnowned(r, t, d);
    }
  }

  lemma RemoveOutcome(r: Registry, h: InfoHash)
    requires Sound(r) && h in r.listed
    ensures Removed(r, h).listed == r.listed - {h} && Removed(r, h).made == r.made
    ensures Removed(r, h).live == if r.Healthy(h) then r.live - {h} else r.live
    ensures !Removed(r, h).Live(r.listed[h].t)
  {
    LiveIsHealthy(r, h);
    assert r.Tracked(r.listed[h]);
  }

  lemma RestartLists(r: Registry, h: InfoHash, t: Torrent, d: Download)
    requires h in r.listed && t.hash == h
    ensures Restarted(r, h, true, t, d).listed == r.listed[h := d]
  {
    assert (r.listed - {h})[h := d] == r.listed[h := d];
  }

  /** A restart replaces the download and its torrent by others, or, if the re-add fails, loses the entry. */
  lemma RestartOutcome(r: Registry, h: InfoHash, readded: bool, t: Torrent, d: Download)
    requires Sound(r) && h in r.listed && Enabled(r, Restart(h, readded, t, d))
    ensures var q := Restarted(r, h, readded, t, d);
            && q.listed == (if readded then r.listed[h := d] else r.listed - {h})
            && q.live == (if readded then r.live[h := t] else Removed(r, h).live)
            && !q.Live(r.listed[h].t) && r.listed[h] != d
  {
    RemoveKeepsSound(r, h);
    RemoveOutcome(r, h);
    AddOutcome(Removed(r, h), t, d);
    HandedIsUnowned(Removed(r, h), t, r.listed[h]);
    RestartLists(r, h, t, d);
    assert r.Healthy(h) ==> (r.live - {h})[h := t] == r.live[h := t];
  }

  /** The timeout of a download that is no longer listed touches neither the list nor its successor's torrent. */
  lemma StaleTimeoutIsHarmless(r: Registry, d: Download)
    requires Sound(r) && d in r.waiting && !r.Tracked(d)
    ensures Woken(r, d, TimedOut).live == r.live && Woken(r, d, TimedOut).listed == r.listed
  { }

  /** What a step makes of a download that exists already. */
  ghost predicate Retires(r: Registry, q: Registry, d: Download) {
    && d in q.made
    && (!r.Live(d.t) ==> !q.Live(d.t))
    && (d in r.failed ==> d in q.failed)
    && (d in r.chosen ==> d in q.chosen)
  }

  lemma AddRetires(r: Registry, t: Torrent, e: Download, d: Download)
    requires Sound(r) && Hands(r, t) && d in r.made
    ensures Retires(r, Added(r, t, e), d) && Retires(r, Fetching(r, t), d)
  { }

  lemma RemoveRetires(r: Registry, h: InfoHash, d: Download)
    requires d in r.made
    ensures Retires(r, Removed(r, h), d)
  { }

  lemma RetiredStep(r: Registry, s: Step, d: Download)
    requires Sound(r) && Enabled(r, s) && d in r.made
    ensures Retires(r, Stepped(r, s), d)
  {
    match s
    case Add(t, e) => AddRetires(r, t, e, d);
    case Remove(h) => RemoveRetires(r, h, d);
    case Restart(h, readded, t, e) =>
      RemoveKeepsSound(r, h);
      RemoveRetires(r, h, d);
      if h in r.listed && readded {
        AddRetires(Removed(r, h), t, e, d);
      }
    case End(_, _) =>
    case BeginFetch(t) => AddRetires(r, t, d, d);
    case EndFetch(_) =>
  }

  /**
   * Once a download's torrent is dropped, no later step brings either back; once it has failed or its selection is
   * initialised, that is for good, and so no awaitMetadata ever overwrites a selection.
   */
  lemma {:induction false} RetiredForGood(r: Registry, steps: seq<Step>, d: Download)
    requires Sound(r) && Possible(r, steps) && AllHarmless(r, steps) && d in r.made
    ensures !r.Live(d.t) ==> !After(r, steps).Live(d.t)
    ensures d in r.failed ==> d in After(r, steps).failed && !After(r, steps).Live(d.t)
    ensures d in r.chosen ==> d in After(r, steps).chosen && d !in After(r, steps).waiting
    decreases |steps|
  {
    if steps != [] {
      StepKeepsSound(r, steps[0]);
      RetiredStep(r, steps[0], d);
      RetiredForGood(Stepped(r, steps[0]), steps[1..], d);
    }
  }

  /** No torrent ever belongs to two downloads, not even to a download and the one that replaced it. */
  ghost predicate OneOwner(r: Registry) {
    forall d, e :: d in r.made && e in r.made && d.t == e.t ==> d == e
  }

  lemma AddKeepsOneOwner(r: Registry, t: Torrent, d: Download)
    requires Sound(r) && OneOwner(r) && Hands(r, t) && d.t == t
    ensures OneOwner(Added(r, t, d))
  {
    if !r.Healthy(t.hash) {
      forall e | e in r.made ensures e.t != t {
        HandedIsUnowned(r, t, e);
      }
    }
  }

  lemma StepKeepsOneOwner(r: Registry, s: Step)
    requires Sound(r) && OneOwner(r) && Enabled(r, s)
    ensures OneOwner(Stepped(r, s))
  {
    match s
    case Add(t, d) => AddKeepsOneOwner(r, t, d);
    case Restart(h, readded, t, d) =>
      RemoveKeepsSound(r, h);
      if h in r.listed && readded {
        AddKeepsOneOwner(Removed(r, h), t, d);
      }
    case _ =>
  }

  lemma {:induction false} RunKeepsOneOwner(r: Registry, steps: seq<Step>)
    requires Sound(r) && OneOwner(r) && Possible(r, steps) && AllHarmless(r, steps)
    ensures OneOwner(After(r, steps))
    decreases |steps|
  {
    if steps != [] {
      StepKeepsSound(r, steps[0]);
      StepKeepsOneOwner(r, steps[0]);
      RunKeepsOneOwner(Stepped(r, steps[0]), steps[1..]);
    }
  }

  // ---------------- fetches ----------------

  /**
   * A fetch does harm even if its hash is not tracked when it starts: an add during the wait is handed the fetched
   * torrent, which the end of the fetch then drops.
   */
  lemma AddDuringFetchIsKilled(r: Registry, t: Torrent, d: Download)
    requires Sound(r) && Hands(r, t) && !r.Healthy(t.hash) && d.t == t && d !in r.made
    ensures Possible(r, [BeginFetch(t), Add(t, d), EndFetch(t)])
    ensures var q := After(r, [BeginFetch(t), Add(t, d), EndFetch(t)]);
            q.Healthy(t.hash) && q.listed[t.hash] == d && !q.Live(t) && !Sound(q)
  {
    var p := Fetching(r, t);
    var q := Added(p, t, d);
    FetchingKeepsSound(r, t);
    AddKeepsSound(p, t, d);
    AddOutcome(p, t, d);
    FetchedKeepsSound(q, t);
    ThreeSteps(r, BeginFetch(t), Add(t, d), EndFetch(t));
  }

  lemma FirstStep(r: Registry, s: Step, rest: seq<Step>)
    ensures After(r, [s] + rest) == After(Stepped(r, s), rest)
    ensures Possible(r, [s] + rest) <==> Enabled(r, s) && Possible(Stepped(r, s), rest)
  {
    assert ([s] + rest)[1..] == rest;
  }

  lemma ThreeSteps(r: Registry, a: Step, b: Step, c: Step)
    ensures After(r, [a, b, c]) == Stepped(Stepped(Stepped(r, a), b), c)
    ensures Possible(r, [a, b, c]) <==>
            Enabled(r, a) && Enabled(Stepped(r, a), b) && Enabled(Stepped(Stepped(r, a), b), c)
  {
    var p := Stepped(r, a);
    var q := Stepped(p, b);
    assert [a, b, c] == [a] + [b, c] && [b, c] == [b] + [c] && [c] == [c] + [];
    FirstStep(r, a, [b, c]);
    FirstStep(p, b, [c]);
    FirstStep(q, c, []);
  }

  predicate OnlyFetches(steps: seq<Step>) {
    forall i :: 0 <= i < |steps| ==> steps[i].BeginFetch? || steps[i].EndFetch?
  }

  /**
   * An engine that only fetches, as the crawler's does, stays sound, and keeps no torrent after its last fetch. Whether
   * its fetches disturb each other is another matter.
   */
  lemma {:induction false} FetchesAloneStaySound(r: Registry, steps: seq<Step>)
    requires Sound(r) && r.listed == map[] && Possible(r, steps) && OnlyFetches(steps)
    ensures AllHarmless(r, steps) && Sound(After(r, steps)) && After(r, steps).listed == map[]
    ensures After(r, steps).held == multiset{} ==> After(r, steps).live == map[]
    decreases |steps|
  {
    if steps != [] {
      StepKeepsSound(r, steps[0]);
      FetchesAloneStaySound(Stepped(r, steps[0]), steps[1..]);
    }
  }

  /** Every fetch waits on a live torrent; a closed one gets no metadata any more, until the context ends. */
  ghost predicate HeldLive(r: Registry) {
    forall t :: t in r.held ==> r.Live(t)
  }

  /** The step drops no torrent that another fetch is waiting on. */
  predicate Considerate(r: Registry, s: Step) {
    match s
    case Add(_, _) => true
    case Remove(h) => h in r.listed ==> r.listed[h].t !in r.held
    case Restart(h, _, _, _) => h in r.listed ==> r.listed[h].t !in r.held
    case End(d, wake) => wake.TimedOut? ==> d.t !in r.held
    case BeginFetch(_) => true
    case EndFetch(t) => r.held[t] == 1
  }

  lemma HandingKeepsHeldLive(r: Registry, t: Torrent, d: Download)
    requires Hands(r, t)
    ensures HeldLive(r) ==> HeldLive(Added(r, t, d))
    ensures forall x :: x in r.held && !r.Live(x) ==> !Added(r, t, d).Live(x)
  { }

  lemma FetchingKeepsHeldLive(r: Registry, t: Torrent)
    requires Hands(r, t) && HeldLive(r)
    ensures HeldLive(Fetching(r, t))
  { }

  lemma DroppingKeepsHeldLive(r: Registry, t: Torrent)
    requires HeldLive(r)
    ensures HeldLive(Dropped(r, t)) <==> t !in r.held
    ensures t in r.held ==> !Dropped(r, t).Live(t)
  { }

  lemma EndFetchKeepsHeldLive(r: Registry, t: Torrent)
    requires HeldLive(r) && t in r.held
    ensures HeldLive(Fetched(r, t)) <==> r.held[t] == 1
    ensures r.held[t] > 1 ==> t in Fetched(r, t).held && !Fetched(r, t).Live(t)
  {
    DroppingKeepsHeldLive(r.(held := r.held - multiset{t}), t);
  }

  /** The exact condition, for every step: fetches of one hash share one torrent, and the first to end closes it. */
  lemma StepKeepsHeldLive(r: Registry, s: Step)
    requires HeldLive(r) && Enabled(r, s)
    ensures HeldLive(Stepped(r, s)) <==> Considerate(r, s)
  {
    match s
    case Add(t, d) => HandingKeepsHeldLive(r, t, d);
    case Remove(h) => RemoveKeepsHeldLive(r, h);
    case Restart(h, readded, t, d) => RestartKeepsHeldLive(r, h, readded, t, d);
    case End(d, wake) =>
      if wake.TimedOut? {
        DroppingKeepsHeldLive(r.(waiting := r.waiting - {d}, failed := r.failed + {d}), d.t);
      }
    case BeginFetch(t) => FetchingKeepsHeldLive(r, t);
    case EndFetch(t) => EndFetchKeepsHeldLive(r, t);
  }

  lemma RestartKeepsHeldLive(r: Registry, h: InfoHash, readded: bool, t: Torrent, d: Download)
    requires HeldLive(r) && Hands(Removed(r, h), t)
    ensures HeldLive(Restarted(r, h, readded, t, d)) <==> (h in r.listed ==> r.listed[h].t !in r.held)
  {
    var q := Removed(r, h);
    RemoveKeepsHeldLive(r, h);
    HandingKeepsHeldLive(q, t, d);
    assert Added(q, t, d).held == r.held;
  }

  lemma RemoveKeepsHeldLive(r: Registry, h: InfoHash)
    requires HeldLive(r)
    ensures HeldLive(Removed(r, h)) <==> (h in r.listed ==> r.listed[h].t !in r.held)
    ensures Removed(r, h).held == r.held
    ensures h in r.listed && r.listed[h].t in r.held ==> !Removed(r, h).Live(r.listed[h].t)
  {
    if h in r.listed {
      DroppingKeepsHeldLive(Unlisted(r, h), r.listed[h].t);
    }
  }

  ghost predicate AlwaysHeldLive(r: Registry, steps: seq<Step>)
    decreases |steps|
  {
    HeldLive(r) && (steps != [] ==> AlwaysHeldLive(Stepped(r, steps[0]), steps[1..]))
  }

  predicate AllConsiderate(r: Registry, steps: seq<Step>)
    decreases |steps|
  {
    steps != [] ==> Considerate(r, steps[0]) && AllConsiderate(Stepped(r, steps[0]), steps[1..])
  }

  /** No fetch is ever left waiting on a closed torrent if and only if every step of the run is considerate. */
  lemma {:induction false} RunKeepsHeldLive(r: Registry, steps: seq<Step>)
    requires HeldLive(r) && Possible(r, steps)
    ensures AlwaysHeldLive(r, steps) <==> AllConsiderate(r, steps)
    decreases |steps|
  {
    if steps != [] {
      StepKeepsHeldLive(r, steps[0]);
      if Considerate(r, steps[0]) {
        RunKeepsHeldLive(Stepped(r, steps[0]), steps[1..]);
      } else {
        assert !AlwaysHeldLive(Stepped(r, steps[0]), steps[1..]);
      }
    }
  }

  /** The shortest such run: two fetches of one hash overlap, and the first ends. */
  lemma OverlappingFetches(r: Registry, t: Torrent)
    requires Hands(r, t) && t !in r.held
    ensures var steps := [BeginFetch(t), BeginFetch(t), EndFetch(t)];
            Possible(r, steps) && OnlyFetches(steps) && t in After(r, steps).held && !After(r, steps).Live(t)
  {
    ThreeSteps(r, BeginFetch(t), BeginFetch(t), EndFetch(t));
  }

  // ---------------- removing in two steps ----------------

  /**
   * A removal that is not one step: `o` is off the list and its torrent is about to be dropped. Everything else is
   * sound, but a download added meanwhile may have been handed that torrent.
   */
  ghost predicate Departing(r: Registry, o: Download) {
    && o in r.made && !r.Tracked(o) && (r.InUse(o.t) ==> r.Live(o.t))
    && Keyed(r) && Owned(r, o.t) && Awaited(r)
    && forall d :: d in r.made && d.t != o.t ==> (r.Live(d.t) <==> r.Tracked(d) && d !in r.failed)
  }

  lemma UnlistingDeparts(r: Registry, h: InfoHash)
    requires Sound(r) && OneOwner(r) && h in r.listed
    ensures Departing(Unlisted(r, h), r.listed[h])
  { }

  /** The drop that completes the removal leaves all sound exactly if no healthy entry has the torrent by then. */
  lemma DropCompletes(r: Registry, o: Download)
    requires Departing(r, o)
    ensures Sound(Dropped(r, o.t)) <==> !r.InUse(o.t)
  {
    var q := Dropped(r, o.t);
    if r.InUse(o.t) {
      if Sound(q) {
        LiveIsHealthy(q, o.t.hash);
      }
    } else {
      forall d | d in q.made ensures q.Live(d.t) <==> q.Tracked(d) && d !in q.failed {
        if d.t != o.t {
          assert r.Live(d.t) <==> r.Tracked(d) && d !in r.failed;
        }
      }
    }
  }

  /** The step drops no torrent that is in use, be it at the end of a fetch or of a wait that `o` left behind. */
  predicate Gentle(r: Registry, s: Step) {
    && Harmless(r, s)
    && (s.End? && s.wake.TimedOut? ==> r.Tracked(s.d) || !r.InUse(s.d.t))
  }

  /** In between, the client serves healthy entries as ever. */
  lemma DepartingServes(r: Registry, o: Download, h: InfoHash)
    requires Departing(r, o)
    ensures r.Healthy(h) ==> h in r.live && r.live[h] == r.listed[h].t
  {
    if r.Healthy(h) {
      assert r.listed[h].t == o.t ==> r.InUse(o.t);
    }
  }

  lemma AddKeepsDeparting(r: Registry, o: Download, t: Torrent, d: Download)
    requires Departing(r, o) && Hands(r, t) && d.t == t && (r.Healthy(t.hash) || d !in r.made)
    ensures Departing(Added(r, t, d), o)
  {
    DepartingServes(r, o, t.hash);
    if r.Healthy(t.hash) {
      assert Added(r, t, d) == r;
    } else {
      assert forall e :: e in r.made && e.t != o.t ==> e.t != t;
    }
  }

  lemma RemoveKeepsDeparting(r: Registry, o: Download, h: InfoHash)
    requires Departing(r, o)
    ensures Departing(Removed(r, h), o)
  { }

  lemma EndKeepsDeparting(r: Registry, o: Download, d: Download, wake: Wake)
    requires Departing(r, o) && Enabled(r, End(d, wake)) && Gentle(r, End(d, wake))
    ensures Departing(Woken(r, d, wake), o)
  { }

  lemma BeginFetchKeepsDeparting(r: Registry, o: Download, t: Torrent)
    requires Departing(r, o) && Hands(r, t)
    ensures Departing(Fetching(r, t), o)
  {
    DepartingServes(r, o, t.hash);
    if t.hash !in r.live {
      assert forall d :: d in r.made ==> d.t != t;
    }
  }

  lemma EndFetchKeepsDeparting(r: Registry, o: Download, t: Torrent)
    requires Departing(r, o) && !r.InUse(t)
    ensures Departing(Fetched(r, t), o)
  {
    var p := r.(held := r.held - multiset{t});
    forall h | h in r.live && r.live[h] != t && r.live[h] in r.held ensures r.live[h] in p.held { }
    if r.Live(t) {
      UnusedDropKeepsDeparting(r, o, t);
    }
  }

  lemma UnusedDropKeepsDeparting(r: Registry, o: Download, t: Torrent)
    requires Departing(r, o) && !r.InUse(t) && r.Live(t)
    ensures Departing(Fetched(r, t), o)
  {
    forall h | h in r.live && r.live[h] != t && r.live[h] in r.held ensures r.live[h] in Fetched(r, t).held { }
    assert forall d :: d in r.made && d.t == t && d.t != o.t ==> r.Tracked(d) && d !in r.failed;
  }

  lemma StepKeepsDeparting(r: Registry, o: Download, s: Step)
    requires Departing(r, o) && Enabled(r, s) && Gentle(r, s)
    ensures Departing(Stepped(r, s), o)
  {
    match s
    case Add(t, d) => AddKeepsDeparting(r, o, t, d);
    case Remove(h) => RemoveKeepsDeparting(r, o, h);
    case Restart(h, readded, t, d) =>
      RemoveKeepsDeparting(r, o, h);
      if h in r.listed && readded {
        AddKeepsDeparting(Removed(r, h), o, t, d);
      }
    case End(d, wake) => EndKeepsDeparting(r, o, d, wake);
    case BeginFetch(t) => BeginFetchKeepsDeparting(r, o, t);
    case EndFetch(t) => EndFetchKeepsDeparting(r, o, t);
  }

  predicate AllGentle(r: Registry, steps: seq<Step>)
    decreases |steps|
  {
    steps != [] ==> Gentle(r, steps[0]) && AllGentle(Stepped(r, steps[0]), steps[1..])
  }

  lemma {:induction false} RunKeepsDeparting(r: Registry, o: Download, steps: seq<Step>)
    requires Departing(r, o) && Possible(r, steps) && AllGentle(r, steps)
    ensures Departing(After(r, steps), o)
    decreases |steps|
  {
    if steps != [] {
      StepKeepsDeparting(r, o, steps[0]);
      RunKeepsDeparting(Stepped(r, steps[0]), o, steps[1..]);
    }
  }

  /**
   * When removing may be two steps: whatever happens between the map delete and the drop, the result is sound exactly
   * if no healthy entry has got hold of the departing torrent by the time of the drop.
   */
  lemma TwoStepRemoval(r: Registry, h: InfoHash, steps: seq<Step>)
    requires Sound(r) && OneOwner(r) && h in r.listed
    requires Possible(Unlisted(r, h), steps) && AllGentle(Unlisted(r, h), steps)
    ensures var q, t := After(Unlisted(r, h), steps), r.listed[h].t;
            Sound(Dropped(q, t)) <==> !q.InUse(t)
  {
    UnlistingDeparts(r, h);
    RunKeepsDeparting(Unlisted(r, h), r.listed[h], steps);
    DropCompletes(After(Unlisted(r, h), steps), r.listed[h]);
  }

  /**
   * With one add of the same hash in between: exactly if the removed entry had failed. A healthy entry's torrent is
   * still live and is handed to the new download, which then looks healthy on a closed torrent.
   */
  lemma RacingAdd(r: Registry, h: InfoHash, t: Torrent, d: Download)
    requires Sound(r) && OneOwner(r) && h in r.listed
    requires t.hash == h && Enabled(Unlisted(r, h), Add(t, d))
    ensures var q := Dropped(Added(Unlisted(r, h), t, d), r.listed[h].t);
            && (Sound(q) <==> !r.Healthy(h))
            && q.Healthy(h) && q.listed[h] == d
            && (r.Healthy(h) ==> t == r.listed[h].t && !q.Live(d.t))
  {
    var o, p := r.listed[h], Added(Unlisted(r, h), t, d);
    LiveIsHealthy(r, h);
    UnlistingDeparts(r, h);
    AddKeepsDeparting(Unlisted(r, h), o, t, d);
    DropCompletes(p, o);
    assert r.Live(o.t) <==> r.Healthy(h);
    assert o in Unlisted(r, h).made;
  }

  /**
   * Restart goes on to add the hash again. If the removed entry was healthy, that add gets a new torrent, which the
   * engine does not track, as the racing download looks healthy; so it stays live without an owner.
   */
  lemma RacingAddInRestart(r: Registry, h: InfoHash, t: Torrent, d: Download, u: Torrent, e: Download)
    requires Sound(r) && OneOwner(r) && h in r.listed
    requires t.hash == h && Enabled(Unlisted(r, h), Add(t, d))
    requires u.hash == h && Enabled(Dropped(Added(Unlisted(r, h), t, d), r.listed[h].t), Add(u, e))
    ensures var q := Added(Dropped(Added(Unlisted(r, h), t, d), r.listed[h].t), u, e);
            && (Sound(q) <==> !r.Healthy(h))
            && q.Healthy(h) && q.listed[h] == d
            && (r.Healthy(h) ==> q.live[h] == u && u != d.t && u !in q.held && forall x :: x in q.made ==> x.t != u)
  {
    var p := Dropped(Added(Unlisted(r, h), t, d), r.listed[h].t);
    var q := Added(p, u, e);
    RacingAdd(r, h, t, d);
    LiveIsHealthy(r, h);
    if r.Healthy(h) {
      assert h !in p.live;
      if Sound(q) {
        LiveIsHealthy(q, h);
      }
    } else {
      AddKeepsSound(p, u, e);
    }
  }
}
