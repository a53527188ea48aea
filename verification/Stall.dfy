/** The rate meter and stall detector of internal/engine/download.go, and the watchdog of internal/tui/app.go. */
module Stall {
  import opened Basics

  /** Times in nanoseconds of a monotonic clock. */
  const SECOND: nat := 1_000_000_000
  const STALL_RESTART_THRESHOLD: nat := 180 * SECOND

  /** What SampleRate reads: the clock, the byte counters and the active peers. */
  datatype Sample = Sample(at: int, down: int, up: int, peers: int)

  /** The fields SampleRate keeps in a Download. */
  datatype Meter = Meter(lastAt: Option<int>, lastDown: int, lastUp: int, downRate: real, upRate: real,
                         stallSince: Option<int>)

  function NewMeter(): Meter {
    Meter(None, 0, 0, 0.0, 0.0, None)
  }

  function Seconds(from: int, to: int): real {
    (to - from) as real / SECOND as real
  }

  function Sampled(m: Meter, s: Sample): Meter {
    var rated := m.lastAt.Some? && s.at > m.lastAt.value;
    var down := if rated then (s.down - m.lastDown) as real / Seconds(m.lastAt.value, s.at) else m.downRate;
    var up := if rated then (s.up - m.lastUp) as real / Seconds(m.lastAt.value, s.at) else m.upRate;
    Meter(Some(s.at), s.down, s.up, down, up,
          if !rated then m.stallSince
          else if down < 1.0 && s.peers == 0 then (if m.stallSince.None? then Some(s.at) else m.stallSince)
          else None)
  }

  /** StallDuration at time `now`. */
  function StallDuration(m: Meter, now: int): int {
    if m.stallSince.None? then 0 else now - m.stallSince.value
  }

  // ---------------- the meter as a summary of its samples ----------------

  /** The meter of a new download after the samples `ss`. */
  function Metered(ss: seq<Sample>): Meter {
    if ss == [] then NewMeter() else Sampled(Metered(ss[..|ss| - 1]), ss[|ss| - 1])
  }

  /** Sample i yields a rate: it is not the first, and the clock has moved. */
  predicate Rated(ss: seq<Sample>, i: nat)
    requires i < |ss|
  {
    i > 0 && ss[i].at > ss[i - 1].at
  }

  function Rate(ss: seq<Sample>, i: nat): real
    requires i < |ss| && Rated(ss, i)
  {
    (ss[i].down - ss[i - 1].down) as real / Seconds(ss[i - 1].at, ss[i].at)
  }

  predicate Stalled(ss: seq<Sample>, i: nat)
    requires i < |ss|
  {
    Rated(ss, i) && Rate(ss, i) < 1.0 && ss[i].peers == 0
  }

  /** No rated sample lies strictly between i and j. */
  ghost predicate NoneRatedBetween(ss: seq<Sample>, i: nat, j: nat)
    requires j <= |ss|
  {
    forall k :: i < k < j ==> !Rated(ss, k)
  }

  /** The maximal trailing run of stalled samples, among the rated ones, starts with sample j. */
  ghost predicate StallsFrom(ss: seq<Sample>, j: nat) {
    && j < |ss| && Stalled(ss, j)
    && (forall k :: j <= k < |ss| && Rated(ss, k) ==> Stalled(ss, k))
    && (forall k :: 0 <= k < j && Rated(ss, k) && NoneRatedBetween(ss, k, j) ==> !Stalled(ss, k))
  }

  /** The last rated sample, if there is one, is not stalled. */
  ghost predicate NotStalling(ss: seq<Sample>) {
    forall k :: 0 <= k < |ss| && Rated(ss, k) && NoneRatedBetween(ss, k, |ss|) ==> !Stalled(ss, k)
  }

  lemma Prefix(ss: seq<Sample>, i: nat)
    requires ss != [] && i < |ss| - 1
    ensures Rated(ss[..|ss| - 1], i) == Rated(ss, i) && Stalled(ss[..|ss| - 1], i) == Stalled(ss, i)
  { }

  lemma {:induction false} MeterKeepsLast(ss: seq<Sample>)
    requires ss != []
    ensures var m, s := Metered(ss), ss[|ss| - 1]; m.lastAt == Some(s.at) && m.lastDown == s.down && m.lastUp == s.up
  { }

  /** What a new sample does to the trailing run. */
  lemma StallStep(ss: seq<Sample>, j: nat)
    requires ss != [] && j < |ss| - 1 && StallsFrom(ss[..|ss| - 1], j)
    ensures var n := |ss| - 1;
            if !Rated(ss, n) || Stalled(ss, n) then StallsFrom(ss, j) else NotStalling(ss)
  {
    var n, before := |ss| - 1, ss[..|ss| - 1];
    forall k | 0 <= k < n ensures Rated(before, k) == Rated(ss, k) && Stalled(before, k) == Stalled(ss, k) {
      Prefix(ss, k);
    }
    forall k | 0 <= k < j && Rated(ss, k) && NoneRatedBetween(ss, k, j) ensures !Stalled(ss, k) {
      assert NoneRatedBetween(before, k, j);
    }
  }

  lemma QuietStep(ss: seq<Sample>)
    requires ss != [] && NotStalling(ss[..|ss| - 1])
    ensures var n := |ss| - 1; if Stalled(ss, n) then StallsFrom(ss, n) else NotStalling(ss)
  {
    var n, before := |ss| - 1, ss[..|ss| - 1];
    forall k | 0 <= k < n ensures Rated(before, k) == Rated(ss, k) && Stalled(before, k) == Stalled(ss, k) {
      Prefix(ss, k);
    }
    forall k | 0 <= k < n && Rated(ss, k) && NoneRatedBetween(ss, k, n) ensures !Stalled(ss, k) {
      assert NoneRatedBetween(before, k, n);
    }
  }

  /**
   * stallSince is set exactly when the last rated sample is stalled, and then is the time of the first sample of the
   * maximal trailing run of stalled samples. Returns where that run starts.
   */
  lemma {:induction false} StallSinceSummarises(ss: seq<Sample>) returns (j: nat)
    ensures Metered(ss).stallSince.Some? ==> StallsFrom(ss, j) && Metered(ss).stallSince == Some(ss[j].at)
    ensures Metered(ss).stallSince.None? ==> NotStalling(ss)
  {
    j := 0;
    if ss != [] {
      var n, before := |ss| - 1, ss[..|ss| - 1];
      j := StallSinceSummarises(before);
      RatedAsMetered(ss);
      if Metered(before).stallSince.Some? {
        StallStep(ss, j);
      } else {
        QuietStep(ss);
        if Stalled(ss, n) {
          j := n;
        }
      }
    }
  }

  /** The meter rates the last sample as the trace does. */
  lemma RatedAsMetered(ss: seq<Sample>)
    requires ss != []
    ensures var n, m := |ss| - 1, Metered(ss[..|ss| - 1]);
            && (Rated(ss, n) <==> m.lastAt.Some? && ss[n].at > m.lastAt.value)
            && (Rated(ss, n) ==> Metered(ss).downRate == Rate(ss, n))
            && (!Rated(ss, n) ==> Metered(ss).downRate == m.downRate)
            && Metered(ss).stallSince ==
                 if !Rated(ss, n) then m.stallSince
                 else if Stalled(ss, n) then (if m.stallSince.None? then Some(ss[n].at) else m.stallSince) else None
  {
    var n, before := |ss| - 1, ss[..|ss| - 1];
    if n > 0 {
      MeterKeepsLast(before);
    }
  }

  // ---------------- bytes ----------------

  ghost predicate Increasing(ss: seq<Sample>) {
    forall i :: 0 < i < |ss| ==> ss[i - 1].at < ss[i].at
  }

  /** The sum of downRate times elapsed time over the samples. */
  function Received(ss: seq<Sample>): real {
    if |ss| <= 1 then 0.0
    else Received(ss[..|ss| - 1]) + Metered(ss).downRate * Seconds(ss[|ss| - 2].at, ss[|ss| - 1].at)
  }

  lemma RateTimesSeconds(ss: seq<Sample>, i: nat)
    requires i < |ss| && Rated(ss, i)
    ensures Rate(ss, i) * Seconds(ss[i - 1].at, ss[i].at) == (ss[i].down - ss[i - 1].down) as real
    ensures Seconds(ss[i - 1].at, ss[i].at) > 0.0
  { }

  /** The rates telescope: together they account for every byte between the first and the last sample. */
  lemma {:induction false} RatesTelescope(ss: seq<Sample>)
    requires ss != [] && Increasing(ss)
    ensures Received(ss) == (ss[|ss| - 1].down - ss[0].down) as real
  {
    if |ss| > 1 {
      var n := |ss| - 1;
      RatesTelescope(ss[..n]);
      RatedAsMetered(ss);
      RateTimesSeconds(ss, n);
    }
  }

  /** The sum of upRate times elapsed time. */
  function Sent(ss: seq<Sample>): real {
    if |ss| <= 1 then 0.0
    else Sent(ss[..|ss| - 1]) + Metered(ss).upRate * Seconds(ss[|ss| - 2].at, ss[|ss| - 1].at)
  }

  lemma UpRateOfLast(ss: seq<Sample>)
    requires |ss| > 1 && Rated(ss, |ss| - 1)
    ensures var n := |ss| - 1;
            Metered(ss).upRate * Seconds(ss[n - 1].at, ss[n].at) == (ss[n].up - ss[n - 1].up) as real
  {
    MeterKeepsLast(ss[..|ss| - 1]);
  }

  /** And so do the upload rates. */
  lemma {:induction false} UpRatesTelescope(ss: seq<Sample>)
    requires ss != [] && Increasing(ss)
    ensures Sent(ss) == (ss[|ss| - 1].up - ss[0].up) as real
  {
    if |ss| > 1 {
      UpRatesTelescope(ss[..|ss| - 1]);
      UpRateOfLast(ss);
    }
  }

  /** Fewer bytes than seconds, in nanoseconds and without rounding. */
  predicate Trickles(ss: seq<Sample>, i: nat)
    requires 0 < i < |ss|
  {
    (ss[i].down - ss[i - 1].down) * 1_000_000_000 < ss[i].at - ss[i - 1].at
  }

  lemma StalledBytes(ss: seq<Sample>, i: nat)
    requires i < |ss| && Rated(ss, i)
    ensures Rate(ss, i) < 1.0 <==> Trickles(ss, i)
  {
    RateTimesSeconds(ss, i);
    var secs := Seconds(ss[i - 1].at, ss[i].at);
    assert Rate(ss, i) < 1.0 ==> Rate(ss, i) * secs < secs;
    assert Rate(ss, i) >= 1.0 ==> Rate(ss, i) * secs >= secs;
  }

  /** Over a run of stalled samples fewer bytes arrive than seconds pass. */
  lemma {:induction false} RunBytes(ss: seq<Sample>, j: nat, i: nat)
    requires 0 < j <= i < |ss| && forall k :: j <= k <= i ==> Stalled(ss, k)
    ensures (ss[i].down - ss[j - 1].down) * 1_000_000_000 < ss[i].at - ss[j - 1].at
    decreases i
  {
    assert Stalled(ss, i);
    StalledBytes(ss, i);
    if j < i {
      RunBytes(ss, j, i - 1);
    }
  }

  // ---------------- the watchdog ----------------

  /** restartStalled's conditions on a download; `healthy` is: metadata known, not paused, not completed. */
  predicate Fires(m: Meter, healthy: bool, activePeers: int, now: int) {
    healthy && activePeers <= 0 && m.downRate < 1.0 && StallDuration(m, now) >= STALL_RESTART_THRESHOLD
  }

  /** Since sample j, three minutes ago or more, no sample has seen a peer or as many bytes as seconds. */
  ghost predicate LongStall(ss: seq<Sample>, j: nat, now: int) {
    && 0 < j < |ss| && now - ss[j].at >= 180_000_000_000
    && forall k :: j <= k < |ss| ==> ss[k].peers == 0 && Trickles(ss, k)
  }

  lemma FiringIsLongStall(ss: seq<Sample>, healthy: bool, activePeers: int, now: int) returns (j: nat)
    requires Increasing(ss) && Fires(Metered(ss), healthy, activePeers, now)
    ensures LongStall(ss, j, now)
  {
    j := StallSinceSummarises(ss);
    forall k | j <= k < |ss| ensures Stalled(ss, k) && ss[k].peers == 0 && Trickles(ss, k) {
      assert Rated(ss, k);
      StalledBytes(ss, k);
    }
  }

  lemma {:induction false} Later(ss: seq<Sample>, i: nat, j: nat)
    requires Increasing(ss) && i <= j < |ss|
    ensures ss[i].at <= ss[j].at
    decreases j
  {
    if i < j {
      Later(ss, i, j - 1);
    }
  }

  lemma RunStarts(ss: seq<Sample>, i: nat)
    requires Increasing(ss) && StallsFrom(ss, i) && i > 0
    ensures !Stalled(ss, i - 1)
  {
    assert NoneRatedBetween(ss, i - 1, i);
  }

  lemma LongStallFires(ss: seq<Sample>, activePeers: int, now: int, j: nat)
    requires Increasing(ss) && activePeers <= 0 && LongStall(ss, j, now)
    ensures Fires(Metered(ss), true, activePeers, now)
  {
    forall k | j <= k < |ss| ensures Stalled(ss, k) {
      StalledBytes(ss, k);
    }
    var i := StallSinceSummarises(ss);
    RatedAsMetered(ss);
    assert Stalled(ss, |ss| - 1) && NoneRatedBetween(ss, |ss| - 1, |ss|);
    if i > 0 {
      RunStarts(ss, i);
    }
    Later(ss, i, j);
  }

  /**
   * The watchdog fires on a healthy download without a peer exactly if the trace ends in such a stall: neither sooner,
   * nor later.
   */
  lemma FiresExactly(ss: seq<Sample>, healthy: bool, activePeers: int, now: int)
    requires Increasing(ss)
    ensures Fires(Metered(ss), healthy, activePeers, now) <==>
            healthy && activePeers <= 0 && exists j: nat :: LongStall(ss, j, now)
  {
    if Fires(Metered(ss), healthy, activePeers, now) {
      var j := FiringIsLongStall(ss, healthy, activePeers, now);
    }
    if healthy && activePeers <= 0 {
      if j: nat :| LongStall(ss, j, now) {
        LongStallFires(ss, activePeers, now, j);
      }
    }
  }

  /** The last rated sample before e, given that i is rated. */
  lemma {:induction false} LastRated(ss: seq<Sample>, i: nat, e: nat) returns (k: nat)
    requires i < e <= |ss| && Rated(ss, i)
    ensures i <= k < e && Rated(ss, k) && NoneRatedBetween(ss, k, e)
    decreases e
  {
    if Rated(ss, e - 1) {
      k := e - 1;
    } else {
      k := LastRated(ss, i, e - 1);
    }
  }

  lemma RunStartsOnce(ss: seq<Sample>, i: nat, j: nat)
    requires StallsFrom(ss, i) && StallsFrom(ss, j)
    ensures i >= j
  {
    if i < j {
      var k := LastRated(ss, i, j);
      assert false;
    }
  }

  lemma {:induction false} RateOfLast(ss: seq<Sample>, k: nat)
    requires k < |ss| && Rated(ss, k) && NoneRatedBetween(ss, k, |ss|)
    ensures Metered(ss).downRate == Rate(ss, k)
  {
    RatedAsMetered(ss);
    if k < |ss| - 1 {
      var before := ss[..|ss| - 1];
      assert forall i :: k < i < |before| ==> Rated(before, i) == Rated(ss, i);
      RateOfLast(before, k);
    }
  }

  lemma RunIsMetered(ss: seq<Sample>, j: nat)
    requires StallsFrom(ss, j)
    ensures Metered(ss).stallSince == Some(ss[j].at) && Metered(ss).downRate < 1.0
  {
    var k := LastRated(ss, j, |ss|);
    assert Stalled(ss, k);
    RateOfLast(ss, k);
    var i := StallSinceSummarises(ss);
    RunStartsOnce(ss, i, j);
    RunStartsOnce(ss, j, i);
  }

  /** On any trace, also one whose clock stands still at times, it fires iff the trailing stall is three minutes old. */
  lemma FiresOnTrace(ss: seq<Sample>, healthy: bool, activePeers: int, now: int)
    ensures Fires(Metered(ss), healthy, activePeers, now) <==>
            healthy && activePeers <= 0 && exists j: nat :: StallsFrom(ss, j) && now - ss[j].at >= 180_000_000_000
  {
    var i := StallSinceSummarises(ss);
    if j: nat :| StallsFrom(ss, j) && now - ss[j].at >= 180_000_000_000 {
      RunIsMetered(ss, j);
    }
  }

  /** During the whole of the run that makes the watchdog fire, fewer bytes arrived than seconds passed. */
  lemma FiringIsJustified(ss: seq<Sample>, healthy: bool, activePeers: int, now: int) returns (j: nat)
    requires Increasing(ss) && Fires(Metered(ss), healthy, activePeers, now)
    ensures LongStall(ss, j, now)
    ensures (ss[|ss| - 1].down - ss[j - 1].down) * 1_000_000_000 < ss[|ss| - 1].at - ss[j - 1].at
  {
    j := FiringIsLongStall(ss, healthy, activePeers, now);
    forall k | j <= k < |ss| ensures Stalled(ss, k) {
      StalledBytes(ss, k);
    }
    RunBytes(ss, j, |ss| - 1);
  }

  /** One info-hash seen by the refresh loop: the meter of its tracked download, if any, and the watchdog's restarts. */
  datatype Watch = Watch(meter: Option<Meter>, clock: int, restarts: seq<int>)

  /** `Track` puts a new Download in place, `Drop` takes it out; `readded` says whether Restart could add it again. */
  datatype Event =
    | Track
    | Drop
    | Measure(s: Sample)
    | Check(healthy: bool, activePeers: int, now: int, readded: bool)

  function TimeOf(w: Watch, e: Event): int {
    match e
    case Measure(s) => s.at
    case Check(_, _, now, _) => now
    case _ => w.clock
  }

  function Handled(w: Watch, e: Event): Watch {
    var v := w.(clock := TimeOf(w, e));
    match e
    case Track => v.(meter := Some(NewMeter()))
    case Drop => v.(meter := None)
    case Measure(s) => if w.meter.None? then v else v.(meter := Some(Sampled(w.meter.value, s)))
    case Check(healthy, activePeers, now, readded) =>
      if w.meter.None? || !Fires(w.meter.value, healthy, activePeers, now) then v
      else v.(meter := if readded then Some(NewMeter()) else None, restarts := w.restarts + [now])
  }

  /** The events of a clock that never runs backwards. */
  predicate Monotone(w: Watch, es: seq<Event>)
    decreases |es|
  {
    es != [] ==> TimeOf(w, es[0]) >= w.clock && Monotone(Handled(w, es[0]), es[1..])
  }

  function Watched(w: Watch, es: seq<Event>): Watch
    decreases |es|
  {
    if es == [] then w else Watched(Handled(w, es[0]), es[1..])
  }

  /** No sample of the tracked download is older than the last restart, and no stall as old. */
  ghost predicate WatchInv(w: Watch) {
    && (forall i :: 0 <= i < |w.restarts| ==> w.restarts[i] <= w.clock)
    && (w.meter.Some? && w.meter.value.stallSince.Some? ==> w.meter.value.lastAt.Some?)
    && (w.meter.Some? && w.meter.value.lastAt.Some? ==> w.meter.value.lastAt.value <= w.clock)
    && (w.meter.Some? && w.restarts != [] ==>
          var m, last := w.meter.value, w.restarts[|w.restarts| - 1];
          && (m.lastAt.Some? ==> m.lastAt.value >= last)
          && (m.stallSince.Some? ==> m.stallSince.value > last))
    && forall i :: 0 < i < |w.restarts| ==> w.restarts[i] - w.restarts[i - 1] > STALL_RESTART_THRESHOLD
  }

  lemma CheckKeepsInv(w: Watch, healthy: bool, activePeers: int, now: int, readded: bool)
    requires WatchInv(w) && now >= w.clock
    ensures WatchInv(Handled(w, Check(healthy, activePeers, now, readded)))
  {
    var w' := Handled(w, Check(healthy, activePeers, now, readded));
    if w'.restarts != w.restarts {
      assert w'.restarts == w.restarts + [now];
    }
  }

  lemma EventKeepsInv(w: Watch, e: Event)
    requires WatchInv(w) && TimeOf(w, e) >= w.clock
    ensures WatchInv(Handled(w, e))
  {
    match e
    case Check(healthy, activePeers, now, readded) => CheckKeepsInv(w, healthy, activePeers, now, readded);
    case _ =>
  }

  lemma {:induction false} RestartsApart(w: Watch, es: seq<Event>)
    requires WatchInv(w) && Monotone(w, es)
    ensures WatchInv(Watched(w, es))
    decreases |es|
  {
    if es != [] {
      EventKeepsInv(w, es[0]);
      RestartsApart(Handled(w, es[0]), es[1..]);
    }
  }

  lemma {:induction false} ApartTransitively(times: seq<int>, i: nat, j: nat)
    requires i < j < |times|
    requires forall k :: 0 < k < |times| ==> times[k] - times[k - 1] > STALL_RESTART_THRESHOLD
    ensures times[j] - times[i] > STALL_RESTART_THRESHOLD
    decreases j
  {
    if i < j - 1 {
      ApartTransitively(times, i, j - 1);
    }
  }

  /** Any two watchdog restarts of one info-hash are more than three minutes apart, whatever happens in between. */
  lemma WatchdogSpacing(start: int, es: seq<Event>, i: nat, j: nat)
    requires Monotone(Watch(None, start, []), es)
    requires i < j < |Watched(Watch(None, start, []), es).restarts|
    ensures var times := Watched(Watch(None, start, []), es).restarts;
            times[j] - times[i] > 180_000_000_000
  {
    RestartsApart(Watch(None, start, []), es);
    ApartTransitively(Watched(Watch(None, start, []), es).restarts, i, j);
  }
}
