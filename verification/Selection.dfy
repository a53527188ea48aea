/** The per-file selection of internal/engine/download.go, its projection onto priorities, and the byte totals. */
module Selection {
  import opened Basics

  datatype Priority = NoPriority | Normal

  /** One file of a torrent as the library reports it. */
  datatype File = File(path: string, length: int, completed: int)

  // ---------------- selection and priorities ----------------

  /** initSelection: every file but those on the skip list, which may hold any indices. */
  function InitWanted(n: nat, skip: seq<int>): (wanted: seq<bool>)
    ensures |wanted| == n
    ensures forall i :: 0 <= i < n ==> wanted[i] == (i !in skip)
  {
    seq(n, i requires 0 <= i => i !in skip)
  }

  /** applyLocked: file i downloads iff it is wanted and the download is not paused. */
  function Projection(wanted: seq<bool>, paused: bool): (priority: seq<Priority>)
    ensures |priority| == |wanted|
    ensures forall i :: 0 <= i < |wanted| ==> (priority[i] == Normal <==> wanted[i] && !paused)
  {
    seq(|wanted|, i requires 0 <= i < |wanted| => if wanted[i] && !paused then Normal else NoPriority)
  }

  /** What the d.mu-guarded operations act on; `count` is the number of files once metadata is known. */
  datatype State = State(count: Option<nat>, skip: seq<int>, wanted: Option<seq<bool>>, paused: bool,
                         priority: seq<Priority>)

  datatype Op = MetadataArrives(n: nat) | InitSelection | SetPaused(paused: bool)
              | SetFileWanted(index: int, wanted: bool) | SetAllWanted(all: bool)

  /** A download as it is made. */
  function Fresh(skip: seq<int>, count: Option<nat>): State {
    State(count, skip, None, false, if count.Some? then seq(count.value, _ => NoPriority) else [])
  }

  /** A changed selection, or a changed pause, projected onto the files. */
  function Reprojected(s: State): State {
    if s.wanted.None? then s else s.(priority := Projection(s.wanted.value, s.paused))
  }

  function Applied(s: State, op: Op): State {
    match op
    case MetadataArrives(n) =>
      if s.count.Some? then s else s.(count := Some(n), priority := seq(n, _ => NoPriority))
    case InitSelection =>
      if s.count.None? then s else Reprojected(s.(wanted := Some(InitWanted(s.count.value, s.skip))))
    case SetPaused(p) => Reprojected(s.(paused := p))
    case SetFileWanted(index, w) =>
      if s.wanted.None? || index < 0 || index >= |s.wanted.value| then s
      else Reprojected(s.(wanted := Some(s.wanted.value[index := w])))
    case SetAllWanted(w) =>
      if s.wanted.None? then s else Reprojected(s.(wanted := Some(seq(|s.wanted.value|, _ => w))))
  }

  /** Choosing one file sets its flag, and that alone; it then downloads iff it was chosen and nothing is paused. */
  lemma ChosenFile(s: State, index: nat, want: bool)
    requires Projected(s) && s.wanted.Some? && index < |s.wanted.value|
    ensures var t := Applied(s, SetFileWanted(index, want));
            && t.count == s.count && t.skip == s.skip && t.paused == s.paused
            && t.wanted.Some? && t.wanted.value == s.wanted.value[index := want]
            && |t.priority| == |s.priority| && (t.priority[index] == Normal <==> want && !s.paused)
            && forall i :: 0 <= i < |s.priority| && i != index ==> t.priority[i] == s.priority[i]
  { }

  /** Choosing all or none sets every flag, and a pause none. */
  lemma ChosenAll(s: State, want: bool, pause: bool)
    requires Projected(s) && s.wanted.Some?
    ensures var t := Applied(s, SetAllWanted(want));
            && t.count == s.count && t.skip == s.skip && t.paused == s.paused && t.wanted.Some?
            && |t.wanted.value| == |s.wanted.value| && |t.priority| == |s.priority|
            && forall i :: 0 <= i < |s.priority| ==>
                 t.wanted.value[i] == want && (t.priority[i] == Normal <==> want && !s.paused)
    ensures var t := Applied(s, SetPaused(pause));
            && t.paused == pause && t.wanted == s.wanted && t.count == s.count && t.skip == s.skip
            && |t.priority| == |s.priority|
            && forall i :: 0 <= i < |s.priority| ==> (t.priority[i] == Normal <==> s.wanted.value[i] && !pause)
  { }

  function Run(s: State, ops: seq<Op>): State
    decreases |ops|
  {
    if ops == [] then s else Run(Applied(s, ops[0]), ops[1..])
  }

  /** File i has Normal priority iff the selection is initialised, wants it, and the download is not paused. */
  ghost predicate Projected(s: State) {
    && |s.priority| == (if s.count.Some? then s.count.value else 0)
    && (s.wanted.Some? ==> s.count == Some(|s.wanted.value|))
    && forall i :: 0 <= i < |s.priority| ==>
         (s.priority[i] == Normal <==> s.wanted.Some? && s.wanted.value[i] && !s.paused)
  }

  /** Whatever the interleaving of metadata, pauses and selections. */
  lemma {:induction false} AlwaysProjected(s: State, ops: seq<Op>)
    requires Projected(s)
    ensures Projected(Run(s, ops))
    decreases |ops|
  {
    if ops != [] {
      assert Projected(Applied(s, ops[0]));
      AlwaysProjected(Applied(s, ops[0]), ops[1..]);
    }
  }

  /** So it is for every download from its start. */
  lemma ProjectedFromStart(skip: seq<int>, count: Option<nat>, ops: seq<Op>)
    ensures Projected(Run(Fresh(skip, count), ops))
  {
    AlwaysProjected(Fresh(skip, count), ops);
  }

  /** A download that is paused before its metadata arrives requests nothing until it is resumed. */
  lemma {:induction false} PausedRequestsNothing(s: State, ops: seq<Op>)
    requires Projected(s) && s.paused && forall i :: 0 <= i < |ops| ==> ops[i] != SetPaused(false)
    ensures Normal !in Run(s, ops).priority && Run(s, ops).paused
    decreases |ops|
  {
    if ops != [] {
      AlwaysProjected(s, [ops[0]]);
      assert Run(s, [ops[0]]) == Applied(s, ops[0]) by {
        assert [ops[0]][1..] == [];
      }
      PausedRequestsNothing(Applied(s, ops[0]), ops[1..]);
    }
  }

  // ---------------- the skip list ----------------

  /** The indices of the deselected files from `i` on, ascending: what persistState and Restart write down. */
  function Deselected(wanted: seq<bool>, i: nat := 0): seq<int>
    requires i <= |wanted|
    decreases |wanted| - i
  {
    if i == |wanted| then [] else (if wanted[i] then [] else [i]) + Deselected(wanted, i + 1)
  }

  lemma {:induction false} DeselectedMembers(wanted: seq<bool>, i: nat)
    requires i <= |wanted|
    ensures forall k :: k in Deselected(wanted, i) <==> i <= k < |wanted| && !wanted[k]
    decreases |wanted| - i
  {
    if i < |wanted| {
      var rest := Deselected(wanted, i + 1);
      DeselectedMembers(wanted, i + 1);
      if wanted[i] {
        assert Deselected(wanted, i) == rest;
      } else {
        assert Deselected(wanted, i) == [i] + rest;
      }
    }
  }

  /** They are in ascending order, each once. */
  lemma {:induction false} DeselectedAscending(wanted: seq<bool>, i: nat)
    requires i <= |wanted|
    ensures forall p, q :: 0 <= p < q < |Deselected(wanted, i)| ==> Deselected(wanted, i)[p] < Deselected(wanted, i)[q]
    decreases |wanted| - i
  {
    if i < |wanted| {
      DeselectedAscending(wanted, i + 1);
      DeselectedMembers(wanted, i + 1);
      var rest := Deselected(wanted, i + 1);
      forall q | 0 <= q < |rest| ensures i < rest[q] {
        assert rest[q] in rest;
      }
    }
  }

  /** Re-reading the deselected indices gives the same selection. */
  lemma SelectionRoundTrip(wanted: seq<bool>)
    ensures InitWanted(|wanted|, Deselected(wanted)) == wanted
  {
    DeselectedMembers(wanted, 0);
  }

  /** Files() reports a file as wanted while there is no selection. */
  function Reported(n: nat, wanted: Option<seq<bool>>): (r: seq<bool>)
    ensures |r| == n
  {
    seq(n, i requires 0 <= i => if wanted.Some? && i < |wanted.value| then wanted.value[i] else true)
  }

  /** The skip list of a persisted record. */
  function PersistedSkip(count: Option<nat>, wanted: Option<seq<bool>>): seq<int> {
    if count.None? then [] else Deselected(Reported(count.value, wanted))
  }

  /** The skip list Restart hands on: as persisted, or the old one while metadata is missing. */
  function RestartSkip(count: Option<nat>, wanted: Option<seq<bool>>, skip: seq<int>): seq<int> {
    if count.None? then skip else Deselected(Reported(count.value, wanted))
  }

  /** The selection a download has or, without user intervention, will have when its n files are known. */
  function Eventual(n: nat, wanted: Option<seq<bool>>, skip: seq<int>): seq<bool> {
    if wanted.Some? then wanted.value else InitWanted(n, skip)
  }

  /** A skip list that names none of n files. */
  predicate SkipsNone(n: nat, skip: seq<int>) {
    forall i :: 0 <= i < n ==> i !in skip
  }

  lemma ReportedSurvives(n: nat, wanted: Option<seq<bool>>)
    requires wanted.Some? ==> |wanted.value| == n
    ensures InitWanted(n, Deselected(Reported(n, wanted))) == if wanted.Some? then wanted.value else seq(n, _ => true)
  {
    SelectionRoundTrip(Reported(n, wanted));
    assert wanted.Some? ==> Reported(n, wanted) == wanted.value;
  }

  lemma AllWantedIffSkipsNone(n: nat, skip: seq<int>)
    ensures InitWanted(n, skip) == seq(n, _ => true) <==> SkipsNone(n, skip)
  {
    var all := seq(n, _ => true);
    if SkipsNone(n, skip) {
      assert InitWanted(n, skip) == all;
    } else {
      var i :| 0 <= i < n && i in skip;
      assert !InitWanted(n, skip)[i] && all[i];
    }
  }

  /**
   * The selection survives Restart exactly if it is initialised, or the metadata is missing (the skip list is handed
   * on), or there is nothing to lose. With metadata but before initSelection a restored skip list is forgotten.
   */
  lemma RestartKeepsSelection(n: nat, count: Option<nat>, wanted: Option<seq<bool>>, skip: seq<int>)
    requires count.None? || count == Some(n)
    requires wanted.Some? ==> count == Some(|wanted.value|)
    ensures Eventual(n, None, RestartSkip(count, wanted, skip)) == Eventual(n, wanted, skip) <==>
            wanted.Some? || count.None? || SkipsNone(n, skip)
  {
    if count.Some? {
      ReportedSurvives(n, wanted);
      AllWantedIffSkipsNone(n, skip);
    }
  }

  /** And it survives persisting and restoring exactly if it is initialised or there is nothing to lose. */
  lemma PersistKeepsSelection(n: nat, count: Option<nat>, wanted: Option<seq<bool>>, skip: seq<int>)
    requires count.None? || count == Some(n)
    requires wanted.Some? ==> count == Some(|wanted.value|)
    ensures Eventual(n, None, PersistedSkip(count, wanted)) == Eventual(n, wanted, skip) <==>
            wanted.Some? || SkipsNone(n, skip)
  {
    AllWantedIffSkipsNone(n, skip);
    if count.Some? {
      ReportedSurvives(n, wanted);
    } else {
      AllWantedIffSkipsNone(n, []);
    }
  }

  /**
   * So, from any state of a download: the one that replaces it, once its n files are known and its selection is
   * initialised, wants what the old one wanted, or would have, under exactly that condition. It is not paused.
   */
  lemma RestartedSelection(s: State, n: nat)
    requires Projected(s) && (s.count.None? || s.count == Some(n))
    ensures var made := Fresh(RestartSkip(s.count, s.wanted, s.skip), s.count);
            var ready := Applied(Applied(made, MetadataArrives(n)), InitSelection);
            && Projected(ready) && !ready.paused && ready.wanted.Some?
            && (ready.wanted.value == Eventual(n, s.wanted, s.skip) <==>
                  s.wanted.Some? || s.count.None? || SkipsNone(n, s.skip))
  {
    RestartKeepsSelection(n, s.count, s.wanted, s.skip);
  }

  /**
   * The losses, on two files of which the second was deselected in an earlier session: persisting before the metadata
   * arrives, and restarting after it arrives but before initSelection runs.
   */
  lemma LostSelections()
    ensures Eventual(2, None, [1]) == [true, false]
    ensures Eventual(2, None, PersistedSkip(None, None)) == [true, true]
    ensures Eventual(2, None, RestartSkip(Some(2), None, [1])) == [true, true]
  {
    PersistKeepsSelection(2, None, None, [1]);
    RestartKeepsSelection(2, Some(2), None, [1]);
    ReportedSurvives(2, None);
  }

  // ---------------- totals ----------------

  /** Whether Status counts file i: all files count while there is no selection. */
  predicate Counts(wanted: Option<seq<bool>>, i: nat) {
    wanted.None? || i >= |wanted.value| || wanted.value[i]
  }

  /** TotalBytes and BytesDone over the first k files. */
  function TotalBytes(files: seq<File>, wanted: Option<seq<bool>>, k: nat): int
    requires k <= |files|
  {
    if k == 0 then 0
    else TotalBytes(files, wanted, k - 1) + if Counts(wanted, k - 1) then files[k - 1].length else 0
  }

  function BytesDone(files: seq<File>, wanted: Option<seq<bool>>, k: nat): int
    requires k <= |files|
  {
    if k == 0 then 0
    else BytesDone(files, wanted, k - 1) + if Counts(wanted, k - 1) then files[k - 1].completed else 0
  }

  /** The totals are sums over the counted files: what changes in one of those changes them by as much. */
  lemma {:induction false} TotalsFollow(files: seq<File>, wanted: Option<seq<bool>>, k: nat, i: nat, f: File)
    requires i < |files| && k <= |files|
    ensures var counted := i < k && (wanted.None? || i >= |wanted.value| || wanted.value[i]);
            && TotalBytes(files[i := f], wanted, k) ==
                 TotalBytes(files, wanted, k) + (if counted then f.length - files[i].length else 0)
            && BytesDone(files[i := f], wanted, k) ==
                 BytesDone(files, wanted, k) + (if counted then f.completed - files[i].completed else 0)
  {
    if k > 0 {
      TotalsFollow(files, wanted, k - 1, i, f);
    }
  }

  /** And they start from nothing, so with TotalsFollow these are the only such sums. */
  lemma {:induction false} TotalsOfNothing(files: seq<File>, wanted: Option<seq<bool>>, k: nat)
    requires k <= |files| && forall i :: 0 <= i < k ==> files[i].length == files[i].completed == 0
    ensures TotalBytes(files, wanted, k) == BytesDone(files, wanted, k) == 0
  {
    if k > 0 {
      TotalsOfNothing(files, wanted, k - 1);
    }
  }

  /** isCompleted of internal/tui/app.go. */
  predicate IsCompleted(haveInfo: bool, total: int, done: int) {
    haveInfo && total > 0 && done >= total
  }

  ghost predicate SaneFiles(files: seq<File>) {
    forall i :: 0 <= i < |files| ==> 0 <= files[i].completed <= files[i].length
  }

  ghost predicate Finished(files: seq<File>, wanted: Option<seq<bool>>, k: nat)
    requires k <= |files|
  {
    forall i :: 0 <= i < k && Counts(wanted, i) ==> files[i].completed == files[i].length
  }

  ghost predicate HasWantedBytes(files: seq<File>, wanted: Option<seq<bool>>, k: nat)
    requires k <= |files|
  {
    exists i :: 0 <= i < k && Counts(wanted, i) && files[i].length > 0
  }

  lemma {:induction false} TotalsCompare(files: seq<File>, wanted: Option<seq<bool>>, k: nat)
    requires SaneFiles(files) && k <= |files|
    ensures 0 <= BytesDone(files, wanted, k) <= TotalBytes(files, wanted, k)
    ensures BytesDone(files, wanted, k) == TotalBytes(files, wanted, k) <==> Finished(files, wanted, k)
    ensures TotalBytes(files, wanted, k) > 0 <==> HasWantedBytes(files, wanted, k)
  {
    if k > 0 {
      TotalsCompare(files, wanted, k - 1);
    }
  }

  /**
   * A download counts as completed exactly if some counted file has bytes and every counted file is complete; so never
   * with everything deselected.
   */
  lemma CompletionExact(files: seq<File>, wanted: Option<seq<bool>>)
    requires SaneFiles(files) && (wanted.Some? ==> |wanted.value| == |files|)
    ensures var total, done := TotalBytes(files, wanted, |files|), BytesDone(files, wanted, |files|);
            && done <= total
            && (IsCompleted(true, total, done) <==>
                  HasWantedBytes(files, wanted, |files|) && Finished(files, wanted, |files|))
            && (wanted.Some? && true !in wanted.value ==> !IsCompleted(true, total, done))
  {
    TotalsCompare(files, wanted, |files|);
    if wanted.Some? && HasWantedBytes(files, wanted, |files|) {
      var i :| 0 <= i < |files| && Counts(wanted, i) && files[i].length > 0;
      assert wanted.value[i] in wanted.value;
    }
  }
}
