/** What the refresh tick of internal/tui/app.go does to the download list. */
module Watchdog {
  import opened Basics
  import opened Downloads
  import opened Engine
  import Lifecycle
  import Selection
  import Stall

  /** Everything the refresh tick looks at in a download. */
  datatype Sight = Sight(hash: InfoHash, magnet: string, skip: seq<int>, files: Option<seq<Selection.File>>,
                         wanted: Option<seq<bool>>, paused: bool, activePeers: int, meter: Stall.Meter)

  ghost function SightOf(d: Download): Sight
    reads d, d.t, d.wanted
  {
    Sight(d.t.hash, d.magnet, d.skip, d.t.files, d.Wanted(), d.paused, d.t.activePeers, d.Meter())
  }

  /** isCompleted of the download's status. */
  predicate IsDone(s: Sight) {
    s.files.Some? &&
    var files := s.files.value;
    Selection.IsCompleted(true, Selection.TotalBytes(files, s.wanted, |files|),
                          Selection.BytesDone(files, s.wanted, |files|))
  }

  /** The download is one the watchdog restarts. */
  predicate IsStuck(s: Sight, now: int) {
    Stall.Fires(s.meter, s.files.Some? && !s.paused && !IsDone(s), s.activePeers, now)
  }

  /**
   * A turn of the pass is a check of the watch: it restarts exactly the stuck downloads, and what it leaves behind has
   * the same meter, or a new one as an untouched download has, or nothing if the client refuses it.
   */
  lemma TurnIsCheck(s: Sight, w: Stall.Watch, now: int, readded: bool)
    requires w.meter == Some(s.meter)
    ensures var healthy := s.files.Some? && !s.paused && !IsDone(s);
            var after := Stall.Handled(w, Stall.Check(healthy, s.activePeers, now, readded));
            if IsStuck(s, now)
            then after.restarts == w.restarts + [now] && after.meter == if readded then Some(Stall.NewMeter()) else None
            else after.restarts == w.restarts && after.meter == w.meter
  { }

  ghost predicate Completed(d: Download)
    reads d, d.t, d.wanted
  {
    IsDone(SightOf(d))
  }

  ghost predicate Stalled(d: Download, now: int)
    reads d, d.t, d.wanted
  {
    IsStuck(SightOf(d), now)
  }

  /**
   * What being completed means for the user: some wanted file has bytes, and every wanted file is complete. With
   * everything deselected a download is never completed.
   */
  lemma CompletedIsFinished(d: Download)
    requires d.Valid() && d.t.files.Some? && Selection.SaneFiles(d.t.files.value)
    ensures var files := d.t.files.value;
            Completed(d) <==> Selection.HasWantedBytes(files, d.Wanted(), |files|) &&
                              Selection.Finished(files, d.Wanted(), |files|)
    ensures d.wanted != null && true !in d.wanted[..] ==> !Completed(d)
  {
    Selection.CompletionExact(d.t.files.value, d.Wanted());
  }

  method IsCompleted(d: Download) returns (done: bool)
    ensures done == Completed(d)
  {
    var s := d.Status();
    done := Selection.IsCompleted(s.haveInfo, s.totalBytes, s.bytesDone);
  }

  method IsStalled(d: Download, now: int) returns (stalled: bool)
    ensures stalled == Stalled(d, now)
    ensures stalled <==>
              && d.t.files.Some? && !d.paused && !Completed(d) && d.t.activePeers <= 0 && d.downRate < 1.0
              && d.stallSince.Some? && now - d.stallSince.value >= 180_000_000_000
  {
    var s := d.Status();
    var done := IsCompleted(d);
    if !s.haveInfo || s.paused || done {
      return false;
    }
    if s.activePeers > 0 || s.downRate >= 1.0 {
      return false;
    }
    var duration := d.StallDuration(now);
    return duration >= Stall.STALL_RESTART_THRESHOLD;
  }

  /**
   * Over the samples its meter has taken: a download is stalled iff it has metadata, is neither paused nor completed,
   * has no active peer, and for three minutes no sample has shown a peer or a byte a second.
   */
  lemma StalledExactly(d: Download, ss: seq<Stall.Sample>, now: int)
    requires d.Meter() == Stall.Metered(ss) && Stall.Increasing(ss)
    ensures Stalled(d, now) <==>
              && d.t.files.Some? && !d.paused && !Completed(d) && d.t.activePeers <= 0
              && exists j: nat :: Stall.LongStall(ss, j, now)
  {
    Stall.FiresExactly(ss, d.t.files.Some? && !d.paused && !Completed(d), d.t.activePeers, now);
  }

  /** Going through a list, of which the entries in `gone` are taken out when their turn comes. */
  lemma Without(list: map<InfoHash, Download>, gone: set<InfoHash>, rest: set<InfoHash>, h: InfoHash)
    requires h in rest && rest <= list.Keys
    ensures h in list - (gone - rest) && (list - (gone - rest))[h] == list[h]
    ensures list - (gone - (rest - {h})) == if h in gone then (list - (gone - rest)) - {h} else list - (gone - rest)
  { }

  class Pane {
    const engine: Engine
    /** The download whose files the modal shows, which pins it. */
    var fileView: Download?

    constructor (engine: Engine)
      ensures this.engine == engine && fileView == null
    {
      this.engine, fileView := engine, null;
    }

    /** The engine of the TUI fetches nothing: only the crawler calls FetchInfo, on an engine of its own. */
    ghost predicate Ready()
      reads this, engine, engine.client, engine.made, engine.chosen
      reads set d | d in engine.chosen :: d.t, set d | d in engine.chosen :: d.wanted
    {
      engine.Valid() && engine.held == multiset{}
    }

    // ---------------- what the user does to a download ----------------

    method TogglePause(d: Download)
      requires Ready() && d in engine.made
      modifies d`paused, d.t`normal
      ensures Ready() && d.View() == Selection.Applied(old(d.View()), Selection.SetPaused(!old(d.paused)))
      ensures d.paused != old(d.paused)
    {
      d.SetPaused(!d.paused);
    }

    /** Toggles a file of the modal's download, as last listed there. */
    method ToggleFile(d: Download, f: FileInfo) returns (e: Option<SelectError>)
      requires Ready() && d in engine.made
      modifies d`wanted, d.t`normal
      ensures Ready() && d.View() == Selection.Applied(old(d.View()), Selection.SetFileWanted(f.index, !f.wanted))
      ensures e == None <==> old(d.wanted) != null && 0 <= f.index < old(d.wanted).Length
      ensures e == None ==> d.wanted != null && d.t.files.Some? && f.index < d.wanted.Length == |d.t.files.value|
      ensures e == None ==> d.wanted[..] == old(d.wanted[..])[f.index := !f.wanted]
      ensures e == None ==> forall k :: 0 <= k < |d.t.files.value| ==>
                              d.InfoOf(k) == old(d.InfoOf(k)).(wanted := if k == f.index then !f.wanted
                                                                        else old(d.InfoOf(k)).wanted)
    {
      e := d.SetFileWanted(f.index, !f.wanted);
    }

    method SelectAll(d: Download, want: bool)
      requires Ready() && d in engine.made
      modifies d`wanted, d.t`normal
      ensures Ready() && d.View() == Selection.Applied(old(d.View()), Selection.SetAllWanted(want))
      ensures d.wanted != null ==> forall i :: 0 <= i < d.wanted.Length ==> d.wanted[i] == want
      ensures d.wanted == null <==> old(d.wanted) == null
    {
      d.SetAllWanted(want);
    }

    // ---------------- the refresh tick ----------------

    /** Removes exactly the completed downloads, but for the pinned one. */
    method PruneCompleted()
      requires Ready()
      modifies engine, engine.client, engine.file
      ensures Ready()
      ensures engine.downloads == old(engine.downloads) - old(AllPrunable())
      ensures forall h :: h in old(engine.downloads) ==>
                (h in engine.downloads <==>
                   old(engine.downloads[h]) == fileView || !old(Completed(engine.downloads[h])))
    {
      var list := engine.downloads;
      var rest := list.Keys;
      ghost var prunable := AllPrunable();
      assert Pruning(list, prunable, rest);
      while rest != {}
        invariant Pruning(list, prunable, rest)
      {
        var h :| h in rest;
        PruneTurn(h, list, prunable, rest);
        rest := rest - {h};
      }
    }

    /** All but `rest` have had their turn, and who is to go has not changed. */
    ghost predicate Pruning(list: map<InfoHash, Download>, prunable: set<InfoHash>, rest: set<InfoHash>)
      reads this, engine, engine.client, engine.made, engine.chosen, list.Values
      reads set d | d in engine.chosen :: d.t, set d | d in engine.chosen :: d.wanted
      reads set d | d in list.Values :: d.t, set d | d in list.Values :: d.wanted
    {
      && Ready() && rest <= list.Keys && engine.downloads == list - (prunable - rest)
      && forall h :: h in rest ==> (h in prunable <==> Prunable(list[h]))
    }

    method PruneTurn(h: InfoHash, ghost list: map<InfoHash, Download>, ghost prunable: set<InfoHash>,
                     ghost rest: set<InfoHash>)
      requires Pruning(list, prunable, rest) && h in rest
      modifies engine, engine.client, engine.file
      ensures Pruning(list, prunable, rest - {h})
    {
      Without(list, prunable, rest, h);
      PruneOne(h);
    }

    method PruneOne(h: InfoHash)
      requires Ready() && h in engine.downloads
      modifies engine, engine.client, engine.file
      ensures Ready()
      ensures engine.downloads == if old(Prunable(engine.downloads[h])) then old(engine.downloads) - {h}
                                  else old(engine.downloads)
    {
      if engine.downloads[h] == fileView {
        return;
      }
      var done := IsCompleted(engine.downloads[h]);
      if done {
        Lifecycle.RemoveOutcome(engine.View(), h);
        var e := engine.Remove(h);
      }
    }

    ghost function AllPrunable(): set<InfoHash>
      reads this, engine, engine.downloads.Values
      reads set d | d in engine.downloads.Values :: d.t, set d | d in engine.downloads.Values :: d.wanted
    {
      set h | h in engine.downloads && Prunable(engine.downloads[h])
    }

    ghost predicate Prunable(d: Download)
      reads this, d, d.t, d.wanted
    {
      d != fileView && Completed(d)
    }

    /** Restarts exactly the stalled downloads, but for the pinned one; those that the client refuses are lost. */
    method RestartStalled(now: int, refused: set<InfoHash>) returns (ghost heirs: set<Download>)
      requires Ready()
      modifies engine, engine.client, engine.file
      ensures Ready()
      ensures Passed(old(engine.downloads), engine.downloads, old(Plan(now)), {}, refused, heirs) && AllUntouched(heirs)
      ensures engine.downloads.Keys <= old(engine.downloads).Keys
      ensures forall h :: h in old(engine.downloads) && !old(IsDue(engine.downloads[h], now)) ==>
                h in engine.downloads && engine.downloads[h] == old(engine.downloads[h])
      ensures forall h :: h in old(engine.downloads) && old(IsDue(engine.downloads[h], now)) ==>
                if h in refused then h !in engine.downloads
                else h in engine.downloads && engine.downloads[h] != old(engine.downloads[h]) &&
                     engine.downloads[h] in heirs && engine.downloads[h].added == now &&
                     engine.downloads[h].t.hash == old(engine.downloads[h].t.hash) &&
                     engine.downloads[h].magnet == old(engine.downloads[h].magnet)
    {
      var list := engine.downloads;
      var rest := list.Keys;
      ghost var plan := Plan(now);
      DueArePlanned(now);
      heirs := {};
      while rest != {}
        invariant Midway(list, plan, rest, now, refused, heirs)
      {
        var h :| h in rest;
        heirs := TakeTurn(h, now, refused, list, plan, rest, heirs);
        rest := rest - {h};
      }
    }

    /** Not shown in the modal, and stuck for three minutes. */
    ghost predicate IsDue(d: Download, now: int)
      reads this, d, d.t, d.wanted
    {
      && d != fileView && d.t.files.Some? && !d.paused && !Completed(d) && d.t.activePeers <= 0 && d.downRate < 1.0
      && d.stallSince.Some? && now - d.stallSince.value >= 180_000_000_000
    }

    lemma DueArePlanned(now: int)
      ensures forall h :: h in engine.downloads ==>
                (if IsDue(engine.downloads[h], now) then
                   Plan(now)[h].Some? && Plan(now)[h].value.added == now &&
                   Plan(now)[h].value.hash == engine.downloads[h].t.hash &&
                   Plan(now)[h].value.magnet == engine.downloads[h].magnet
                 else Plan(now)[h].None?)
    { }

    /** The pass has done what it had to for all but `rest`, and what it is to do for those has not changed. */
    ghost predicate Midway(list: map<InfoHash, Download>, plan: map<InfoHash, Option<Heir>>, rest: set<InfoHash>,
                           now: int, refused: set<InfoHash>, heirs: set<Download>)
      reads this, engine, engine.client, engine.made, engine.chosen, list.Values, heirs
      reads set d | d in engine.chosen :: d.t, set d | d in engine.chosen :: d.wanted
      reads set d | d in list.Values :: d.t, set d | d in list.Values :: d.wanted
    {
      && Ready() && rest <= list.Keys && Passed(list, engine.downloads, plan, rest, refused, heirs)
      && Planned(list, plan, rest, now) && AllUntouched(heirs)
    }

    ghost predicate Planned(list: map<InfoHash, Download>, plan: map<InfoHash, Option<Heir>>, rest: set<InfoHash>,
                            now: int)
      reads this, list.Values, set d | d in list.Values :: d.t, set d | d in list.Values :: d.wanted
    {
      forall k :: k in rest ==> k in list && k in plan && plan[k] == PlanFor(list[k], now)
    }

    /** One turn of the pass. */
    method TakeTurn(h: InfoHash, now: int, refused: set<InfoHash>, ghost list: map<InfoHash, Download>,
                    ghost plan: map<InfoHash, Option<Heir>>, ghost rest: set<InfoHash>, ghost heirs: set<Download>)
      returns (ghost more: set<Download>)
      requires Midway(list, plan, rest, now, refused, heirs) && h in rest
      modifies engine, engine.client, engine.file
      ensures Midway(list, plan, rest - {h}, now, refused, more)
    {
      ghost var before := engine.downloads;
      StillListed(list, before, plan, rest, refused, heirs, h);
      RestartPlanned(h, h !in refused, now, list, plan, rest, heirs);
      more := if plan[h].Some? && h !in refused then heirs + {engine.downloads[h]} else heirs;
      PassedOne(list, before, engine.downloads, plan, rest, refused, heirs, h);
    }

    /** The other downloads stay as they are. */
    method RestartPlanned(h: InfoHash, accepted: bool, now: int, ghost list: map<InfoHash, Download>,
                          ghost plan: map<InfoHash, Option<Heir>>, ghost rest: set<InfoHash>,
                          ghost heirs: set<Download>)
      requires Ready() && h in engine.downloads && Planned(list, plan, rest, now) && AllUntouched(heirs)
      modifies engine, engine.client, engine.file
      ensures Ready() && Planned(list, plan, rest - {h}, now) && AllUntouched(heirs)
      ensures Turned(old(engine.downloads), old(PlanFor(engine.downloads[h], now)), h, accepted)
    {
      RestartOne(h, accepted, now);
    }

    /** What one turn makes of the list. */
    twostate predicate Turned(before: map<InfoHash, Download>, plan: Option<Heir>, h: InfoHash, accepted: bool)
      requires h in before
      reads engine, engine.downloads.Values
    {
      if plan.None? then engine.downloads == before
      else if !accepted then engine.downloads == before - {h}
      else h in engine.downloads && engine.downloads == before[h := engine.downloads[h]] &&
           fresh(engine.downloads[h]) && Untouched(engine.downloads[h]) && Inherits(engine.downloads[h], plan.value)
    }

    method RestartOne(h: InfoHash, accepted: bool, now: int)
      requires Ready() && h in engine.downloads
      modifies engine, engine.client, engine.file
      ensures Ready()
      ensures Turned(old(engine.downloads), old(PlanFor(engine.downloads[h], now)), h, accepted)
    {
      if engine.downloads[h] == fileView {
        return;
      }
      var stalled := IsStalled(engine.downloads[h], now);
      if stalled {
        ghost var r := engine.View();
        Lifecycle.LiveIsHealthy(r, h);
        var e := engine.Restart(h, accepted, now);
        if accepted {
          Lifecycle.RestartLists(r, h, engine.downloads[h].t, engine.downloads[h]);
        } else {
          Lifecycle.RemoveOutcome(r, h);
        }
      }
    }

    /** What the pass is to do with a download: nothing, or replace it by the given heir. */
    ghost function PlanFor(d: Download, now: int): Option<Heir>
      reads this, d, d.t, d.wanted
    {
      if d == fileView then None else HeirIfStuck(SightOf(d), now)
    }

    ghost function Plan(now: int): map<InfoHash, Option<Heir>>
      reads this, engine, engine.downloads.Values
      reads set d | d in engine.downloads.Values :: d.t, set d | d in engine.downloads.Values :: d.wanted
    {
      map h | h in engine.downloads :: PlanFor(engine.downloads[h], now)
    }
  }

  /** What is fixed for good in the download that takes over from another at time `now`. */
  datatype Heir = Heir(hash: InfoHash, magnet: string, skip: seq<int>, added: int)

  function HeirIfStuck(s: Sight, now: int): Option<Heir> {
    var count := if s.files.None? then None else Some(|s.files.value|);
    if IsStuck(s, now) then Some(Heir(s.hash, s.magnet, Selection.RestartSkip(count, s.wanted, s.skip), now)) else None
  }

  predicate Inherits(d: Download, heir: Heir) {
    Heir(d.t.hash, d.magnet, d.skip, d.added) == heir
  }

  ghost predicate AllUntouched(ds: set<Download>)
    reads ds
  {
    forall d :: d in ds ==> Untouched(d)
  }

  /** Every entry of `before` but those still waiting for their turn has met its fate. */
  ghost predicate Passed(before: map<InfoHash, Download>, after: map<InfoHash, Download>,
                         plan: map<InfoHash, Option<Heir>>, rest: set<InfoHash>, refused: set<InfoHash>,
                         heirs: set<Download>) {
    && after.Keys <= before.Keys == plan.Keys
    && forall h :: h in before ==>
         if h in rest || plan[h].None? then h in after && after[h] == before[h]
         else if h in refused then h !in after
         else h in after && after[h] != before[h] && after[h] in heirs && Inherits(after[h], plan[h].value)
  }

  lemma StillListed(list: map<InfoHash, Download>, now: map<InfoHash, Download>, plan: map<InfoHash, Option<Heir>>,
                    rest: set<InfoHash>, refused: set<InfoHash>, heirs: set<Download>, h: InfoHash)
    requires Passed(list, now, plan, rest, refused, heirs) && h in list && h in rest
    ensures h in now && now[h] == list[h]
  { }

  lemma PassedOne(list: map<InfoHash, Download>, before: map<InfoHash, Download>, after: map<InfoHash, Download>,
                  plan: map<InfoHash, Option<Heir>>, rest: set<InfoHash>, refused: set<InfoHash>,
                  heirs: set<Download>, h: InfoHash)
    requires h in list && h in rest && Passed(list, before, plan, rest, refused, heirs)
    requires if plan[h].None? then after == before
             else if h in refused then after == before - {h}
             else h in after && after == before[h := after[h]] && after[h] != list[h] &&
                  Inherits(after[h], plan[h].value)
    ensures Passed(list, after, plan, rest - {h}, refused,
                   if plan[h].Some? && h !in refused then heirs + {after[h]} else heirs)
  { }
}
