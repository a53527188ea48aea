/** internal/dht/recent.go: the two-generation set that recognises recently presented info-hashes. */
module Recent {
  import opened Basics

  datatype State = State(active: set<InfoHash>, retired: set<InfoHash>, cap: nat)

  function Capacity(cap: int): nat {
    if cap <= 0 then 1024 else cap
  }

  function Fresh(cap: int): State {
    State({}, {}, Capacity(cap))
  }

  /** `h` was dropped from the active generation but not yet forgotten: it is taken back without a look at the size. */
  predicate Promotes(s: State, h: InfoHash) {
    h !in s.active && h in s.retired
  }

  /** `h` is new and the active generation is full: the generations rotate. */
  predicate Rotates(s: State, h: InfoHash) {
    h !in s.active && h !in s.retired && |s.active| >= s.cap
  }

  function Known(s: State, h: InfoHash): bool {
    h in s.active || h in s.retired
  }

  function Presented(s: State, h: InfoHash): State {
    if h in s.active then s
    else if Rotates(s, h) then State({h}, s.active, s.cap)
    else s.(active := s.active + {h})
  }

  class RecentSet {
    var active: set<InfoHash>
    var retired: set<InfoHash>
    const cap: nat

    ghost function View(): State
      reads this
    {
      State(active, retired, cap)
    }

    constructor (cap: int)
      ensures View() == Fresh(cap)
      ensures active == retired == {} && this.cap == if cap <= 0 then 1024 else cap
    {
      this.cap := Capacity(cap);
      active := {};
      retired := {};
    }

    method Seen(h: InfoHash) returns (known: bool)
      modifies this
      ensures known == Known(old(View()), h)
      ensures View() == Presented(old(View()), h)
      ensures known <==> h in old(active) || h in old(retired)
      ensures if known || |old(active)| < cap then active == old(active) + {h} && retired == old(retired)
              else active == {h} && retired == old(active)
    {
      if h in active {
        return true;
      }
      if h in retired {
        active := active + {h};
        return true;
      }
      if |active| >= cap {
        retired := active;
        active := {};
      }
      active := active + {h};
      known := false;
    }
  }

  // ---------------- runs ----------------

  /** The state after presenting `run`, key by key, to the state `s`. */
  function Fed(s: State, run: seq<InfoHash>): State
    decreases |run|
  {
    if run == [] then s else Fed(Presented(s, run[0]), run[1..])
  }

  function Rotations(s: State, run: seq<InfoHash>): nat
    decreases |run|
  {
    if run == [] then 0 else (if Rotates(s, run[0]) then 1 else 0) + Rotations(Presented(s, run[0]), run[1..])
  }

  /** The answer to presenting `h` after `run` to a fresh set. */
  function Answer(cap: int, run: seq<InfoHash>, h: InfoHash): bool {
    Known(Fed(Fresh(cap), run), h)
  }

  function Distinct(run: seq<InfoHash>): set<InfoHash> {
    set h | h in run
  }

  lemma DistinctCons(run: seq<InfoHash>)
    requires run != []
    ensures Distinct(run) == {run[0]} + Distinct(run[1..])
  { }

  lemma {:induction false} FedAppend(s: State, a: seq<InfoHash>, b: seq<InfoHash>)
    ensures Fed(s, a + b) == Fed(Fed(s, a), b)
    ensures Rotations(s, a + b) == Rotations(s, a) + Rotations(Fed(s, a), b)
    decreases |a|
  {
    if a == [] {
      assert a + b == b;
    } else {
      FedAppend(Presented(s, a[0]), a[1..], b);
      assert (a + b)[1..] == a[1..] + b;
    }
  }

  lemma SubsetCard(a: set<InfoHash>, b: set<InfoHash>)
    requires a <= b
    ensures |a| <= |b|
  {
    assert b == a + (b - a);
  }

  // ---------------- what is recognised ----------------

  /** No key is recognised that was never presented. */
  lemma {:induction false} KnownWasPresented(s: State, run: seq<InfoHash>)
    ensures Fed(s, run).active + Fed(s, run).retired <= s.active + s.retired + Distinct(run)
    decreases |run|
  {
    if run != [] {
      DistinctCons(run);
      KnownWasPresented(Presented(s, run[0]), run[1..]);
    }
  }

  /** Since its last presentation `h` has stayed active, or only the keys `since` have been active after it. */
  ghost predicate Holding(s: State, h: InfoHash, since: set<InfoHash>) {
    h in s.active || (h in s.retired && s.active <= since)
  }

  lemma HoldingStep(s: State, h: InfoHash, since: set<InfoHash>, x: InfoHash)
    requires Holding(s, h, since) && |since + {x}| <= s.cap
    ensures Holding(Presented(s, x), h, since + {x})
  {
    if Rotates(s, x) && h !in s.active {
      SubsetCard(s.active + {x}, since + {x});
      assert false;
    }
  }

  lemma {:induction false} HoldsWhileFew(s: State, h: InfoHash, since: set<InfoHash>, between: seq<InfoHash>)
    requires Holding(s, h, since) && |since + Distinct(between)| <= s.cap
    ensures Known(Fed(s, between), h)
    decreases |between|
  {
    if between != [] {
      var x := between[0];
      DistinctCons(between);
      assert since + Distinct(between) == (since + {x}) + Distinct(between[1..]);
      SubsetCard(since + {x}, since + Distinct(between));
      HoldingStep(s, h, since, x);
      HoldsWhileFew(Presented(s, x), h, since + {x}, between[1..]);
    }
  }

  /** The retention window: `h` is recognised as long as at most `cap` distinct keys came since it was presented. */
  lemma Retention(cap: int, before: seq<InfoHash>, h: InfoHash, between: seq<InfoHash>)
    requires |Distinct(between)| <= Capacity(cap)
    ensures Answer(cap, before + [h] + between, h)
  {
    FedAppend(Fresh(cap), before + [h], between);
    FedAppend(Fresh(cap), before, [h]);
    var s := Fed(Fresh(cap), before + [h]);
    CapKept(Fresh(cap), before + [h]);
    assert s == Presented(Fed(Fresh(cap), before), h);
    assert {} + Distinct(between) == Distinct(between);
    HoldsWhileFew(s, h, {}, between);
  }

  lemma {:induction false} CapKept(s: State, run: seq<InfoHash>)
    ensures Fed(s, run).cap == s.cap
    decreases |run|
  {
    if run != [] {
      CapKept(Presented(s, run[0]), run[1..]);
    }
  }

  function LastIndex(run: seq<InfoHash>, h: InfoHash): (i: nat)
    requires h in run
    ensures i < |run| && run[i] == h && h !in run[i + 1..]
  {
    if run[|run| - 1] == h then |run| - 1 else LastIndex(run[..|run| - 1], h)
  }

  /** On runs of at most cap + 1 distinct keys the set answers like one that never forgets. */
  lemma ExactOnFewKeys(cap: int, run: seq<InfoHash>, h: InfoHash)
    requires |Distinct(run + [h])| <= Capacity(cap) + 1
    ensures Answer(cap, run, h) <==> h in run
  {
    KnownWasPresented(Fresh(cap), run);
    if h in run {
      var i := LastIndex(run, h);
      var before, between := run[..i], run[i + 1..];
      assert run == before + [h] + between;
      SubsetCard(Distinct(between), Distinct(run + [h]) - {h});
      Retention(cap, before, h, between);
    }
  }

  // ---------------- runs of consecutive keys ----------------

  /** The keys lo, lo + 1, .., hi - 1. */
  function Range(lo: nat, hi: nat): seq<InfoHash>
    decreases hi - lo
  {
    if lo >= hi then [] else [lo] + Range(lo + 1, hi)
  }

  lemma {:induction false} RangeKeys(lo: nat, hi: nat)
    requires lo <= hi
    ensures |Distinct(Range(lo, hi))| == |Range(lo, hi)| == hi - lo
    ensures forall k :: k in Range(lo, hi) <==> lo <= k < hi
    decreases hi - lo
  {
    if lo < hi {
      RangeKeys(lo + 1, hi);
      DistinctCons(Range(lo, hi));
      assert Range(lo, hi)[1..] == Range(lo + 1, hi);
    }
  }

  lemma {:induction false} RangeSplits(lo: nat, mid: nat, hi: nat)
    requires lo <= mid <= hi
    ensures Range(lo, hi) == Range(lo, mid) + Range(mid, hi)
    decreases mid - lo
  {
    if lo < mid {
      RangeSplits(lo + 1, mid, hi);
    }
  }

  /** `after` is `before` and the keys from `lo` to `hi`, which are new to it. */
  ghost predicate Grown(after: set<InfoHash>, before: set<InfoHash>, lo: nat, hi: nat) {
    |after| == |before| + hi - lo && forall k :: k in after <==> k in before || lo <= k < hi
  }

  ghost predicate Below(keys: set<InfoHash>, lo: nat) {
    forall k :: k in keys ==> k < lo
  }

  /** New keys that fit into the active generation. */
  lemma {:induction false} Filling(s: State, lo: nat, hi: nat)
    requires lo <= hi && Below(s.active, lo) && Below(s.retired, lo) && |s.active| + (hi - lo) <= s.cap
    ensures var t := Fed(s, Range(lo, hi));
            t.cap == s.cap && t.retired == s.retired && Grown(t.active, s.active, lo, hi)
    ensures Rotations(s, Range(lo, hi)) == 0
    decreases hi - lo
  {
    if lo < hi {
      assert Range(lo, hi)[1..] == Range(lo + 1, hi);
      Filling(Presented(s, lo), lo + 1, hi);
    }
  }

  /** A full active generation is rotated away by the first of the new keys. */
  lemma Rotating(s: State, lo: nat, hi: nat)
    requires lo < hi <= lo + s.cap && Below(s.active, lo) && Below(s.retired, lo) && s.cap <= |s.active|
    ensures var t := Fed(s, Range(lo, hi));
            t.cap == s.cap && t.retired == s.active && Grown(t.active, {}, lo, hi)
    ensures Rotations(s, Range(lo, hi)) == 1
  {
    assert Range(lo, hi)[1..] == Range(lo + 1, hi);
    Filling(Presented(s, lo), lo + 1, hi);
  }

  /** Keys of the retired generation are taken back. */
  lemma {:induction false} Promoting(s: State, lo: nat, hi: nat)
    requires lo <= hi && (forall k :: lo <= k < hi ==> k in s.retired && k !in s.active)
    ensures var t := Fed(s, Range(lo, hi));
            t.cap == s.cap && t.retired == s.retired && Grown(t.active, s.active, lo, hi)
    ensures Rotations(s, Range(lo, hi)) == 0
    decreases hi - lo
  {
    if lo < hi {
      assert Range(lo, hi)[1..] == Range(lo + 1, hi);
      Promoting(Presented(s, lo), lo + 1, hi);
    }
  }

  /**
   * The window is tight: presenting one new key more than `cap` (see RangeKeys for their number) makes the set forget
   * a full generation to its last key.
   */
  lemma RetentionIsTight(s: State, lo: nat, h: InfoHash)
    requires s.cap > 0 && Below(s.active, lo) && Below(s.retired, lo) && s.cap <= |s.active| && h in s.active
    ensures !Known(Fed(s, Range(lo, lo + s.cap + 1)), h)
  {
    var mid := lo + s.cap;
    RangeSplits(lo, mid, mid + 1);
    FedAppend(s, Range(lo, mid), Range(mid, mid + 1));
    Rotating(s, lo, mid);
    ForgottenNext(Fed(s, Range(lo, mid)), mid, h);
  }

  lemma ForgottenNext(s: State, lo: nat, h: InfoHash)
    requires s.cap > 0 && Below(s.active, lo) && Below(s.retired, lo) && s.cap <= |s.active|
    requires h !in s.active && h < lo
    ensures !Known(Fed(s, Range(lo, lo + 1)), h)
  {
    Rotating(s, lo, lo + 1);
  }

  // ---------------- size ----------------

  lemma GrowthStep(s: State, h: InfoHash)
    requires |s.active - s.retired| <= s.cap && s.cap >= 1
    ensures var t := Presented(s, h);
            |t.active - t.retired| <= t.cap && |t.retired| <= |s.retired| + if Rotates(s, h) then s.cap else 0
  {
    if Rotates(s, h) {
      RotationGrows(s.active, s.retired, h);
    } else if h !in s.active {
      InsertionGrows(s.active, s.retired, h);
    }
  }

  lemma RotationGrows(active: set<InfoHash>, retired: set<InfoHash>, h: InfoHash)
    ensures |active| <= |active - retired| + |retired|
    ensures |{h} - active| <= 1
  {
    assert active == (active - retired) + (active * retired);
    SubsetCard(active * retired, retired);
    SubsetCard({h} - active, {h});
  }

  lemma InsertionGrows(active: set<InfoHash>, retired: set<InfoHash>, h: InfoHash)
    requires h !in active
    ensures |(active + {h}) - retired| == |active - retired| + if h in retired then 0 else 1
    ensures |active - retired| <= |active|
  {
    assert (active + {h}) - retired == if h in retired then active - retired else (active - retired) + {h};
    SubsetCard(active - retired, active);
  }

  lemma {:induction false} GrowthInv(s: State, run: seq<InfoHash>)
    requires |s.active - s.retired| <= s.cap && s.cap >= 1
    ensures var t := Fed(s, run);
            |t.active - t.retired| <= s.cap && |t.retired| <= |s.retired| + Rotations(s, run) * s.cap
    decreases |run|
  {
    if run != [] {
      GrowthStep(s, run[0]);
      GrowthInv(Presented(s, run[0]), run[1..]);
      assert (1 + Rotations(Presented(s, run[0]), run[1..])) * s.cap ==
             s.cap + Rotations(Presented(s, run[0]), run[1..]) * s.cap;
    }
  }

  /** What the set can hold after r rotations. */
  lemma GrowthBound(cap: int, run: seq<InfoHash>)
    ensures var s, r, c := Fed(Fresh(cap), run), Rotations(Fresh(cap), run), Capacity(cap);
            |s.active + s.retired| <= r * c + c && |s.active| + |s.retired| <= 2 * (r * c) + c
  {
    GrowthInv(Fresh(cap), run);
    UnionCard(Fed(Fresh(cap), run).active, Fed(Fresh(cap), run).retired);
  }

  lemma UnionCard(a: set<InfoHash>, b: set<InfoHash>)
    ensures |a + b| == |a - b| + |b| && |a| <= |a - b| + |b|
  {
    assert a + b == (a - b) + b;
    SubsetCard(a, a + b);
  }

  /** A run of r rotations: generation after generation of `cap` new keys, each followed by all the older keys. */
  function GrowthRun(cap: nat, r: nat): seq<InfoHash>
    decreases r
  {
    if r == 0 then Range(0, cap)
    else GrowthRun(cap, r - 1) + (Range(r * cap, r * cap + cap) + Range(0, r * cap))
  }

  /** The active generation consists of the keys below n. */
  ghost predicate Full(s: State, n: nat) {
    Grown(s.active, {}, 0, n) && s.retired <= s.active
  }

  /** One more round: a generation of new keys, then everything that it retired. */
  lemma GrowthRound(cap: nat, run: seq<InfoHash>, n: nat)
    requires 1 <= cap <= n && Fed(Fresh(cap), run).cap == cap && Full(Fed(Fresh(cap), run), n)
    ensures var more := run + (Range(n, n + cap) + Range(0, n));
            var t := Fed(Fresh(cap), more);
            && t.cap == cap && Full(t, n + cap) && |t.retired| == n
            && Rotations(Fresh(cap), more) == Rotations(Fresh(cap), run) + 1
  {
    var s := Fed(Fresh(cap), run);
    Rotating(s, n, n + cap);
    Promoting(Fed(s, Range(n, n + cap)), 0, n);
    FedAppend(s, Range(n, n + cap), Range(0, n));
    FedAppend(Fresh(cap), run, Range(n, n + cap) + Range(0, n));
  }

  /**
   * The growth bound is reached, for every capacity and every number of rotations: with one rotation already three
   * capacities, not the two that are documented, and with more rotations any number of them.
   */
  lemma {:induction false} GrowthReached(cap: nat, r: nat)
    requires cap > 0
    ensures Rotations(Fresh(cap), GrowthRun(cap, r)) == r
    ensures var s := Fed(Fresh(cap), GrowthRun(cap, r));
            s.cap == cap && Full(s, r * cap + cap) && |s.retired| == r * cap
    decreases r
  {
    if r == 0 {
      Filling(Fresh(cap), 0, cap);
    } else {
      GrowthReached(cap, r - 1);
      assert (r - 1) * cap + cap == r * cap;
      GrowthRound(cap, GrowthRun(cap, r - 1), r * cap);
    }
  }

  /** The sizes in that state, which are the bounds of GrowthBound. */
  lemma GrowthReachedSize(cap: nat, r: nat)
    requires cap > 0
    ensures var s := Fed(Fresh(cap), GrowthRun(cap, r));
            |s.active + s.retired| == r * cap + cap && |s.active| + |s.retired| == 2 * (r * cap) + cap
  {
    GrowthReached(cap, r);
    FullSize(Fed(Fresh(cap), GrowthRun(cap, r)), r * cap + cap);
  }

  lemma FullSize(s: State, n: nat)
    requires Full(s, n)
    ensures |s.active| == n && |s.active + s.retired| == n
  {
    assert s.active + s.retired == s.active;
  }

  /** Both generations within the capacity, the older one full unless there is none: so it starts. */
  ghost predicate Regular(s: State) {
    s.cap >= 1 && |s.active| <= s.cap && (s.retired == {} || |s.retired| == s.cap)
  }

  /** The documented memory bound, throughout a run. */
  ghost predicate AlwaysBounded(s: State, run: seq<InfoHash>)
    decreases |run|
  {
    |s.active| + |s.retired| <= 2 * s.cap && (run != [] ==> AlwaysBounded(Presented(s, run[0]), run[1..]))
  }

  /** Some presentation takes a retired key back into a generation that is already full. */
  predicate PromotesWhenFull(s: State, run: seq<InfoHash>)
    decreases |run|
  {
    run != [] && ((Promotes(s, run[0]) && |s.active| >= s.cap) || PromotesWhenFull(Presented(s, run[0]), run[1..]))
  }

  lemma RegularStep(s: State, h: InfoHash)
    requires Regular(s)
    ensures Promotes(s, h) && |s.active| >= s.cap ==>
              |Presented(s, h).active| + |Presented(s, h).retired| > 2 * s.cap
    ensures !(Promotes(s, h) && |s.active| >= s.cap) ==> Regular(Presented(s, h))
  { }

  lemma {:induction false} BoundedFrom(s: State, run: seq<InfoHash>)
    requires Regular(s)
    ensures AlwaysBounded(s, run) <==> !PromotesWhenFull(s, run)
    decreases |run|
  {
    if run != [] {
      RegularStep(s, run[0]);
      if !(Promotes(s, run[0]) && |s.active| >= s.cap) {
        BoundedFrom(Presented(s, run[0]), run[1..]);
      }
    }
  }

  /** At most twice the capacity in all, as documented, throughout a run: exactly without such a promotion. */
  lemma DocumentedBound(cap: int, run: seq<InfoHash>)
    ensures AlwaysBounded(Fresh(cap), run) <==> !PromotesWhenFull(Fresh(cap), run)
  {
    BoundedFrom(Fresh(cap), run);
  }
}
