/** The download object of internal/engine/download.go over the torrent library's handle. */
module Downloads {
  import opened Basics
  import opened Selection
  import Stall

  /** What the engine uses of a torrent handle: its identity, its files once metadata is known, and its counters. */
  class Torrent {
    const hash: InfoHash
    var files: Option<seq<File>>
    /** The files at Normal priority; the others are at none. */
    var normal: set<nat>
    var bytesRead: int
    var bytesWritten: int
    var activePeers: int

    function Count(): nat
      reads this
    {
      if files.Some? then |files.value| else 0
    }

    ghost function Priorities(): (p: seq<Priority>)
      reads this
      ensures |p| == Count()
      ensures forall i :: 0 <= i < |p| ==> (p[i] == Normal <==> i in normal)
    {
      var high := normal;
      seq(Count(), i requires 0 <= i => if i in high then Normal else NoPriority)
    }

    constructor (hash: InfoHash, files: Option<seq<File>>)
      ensures this.hash == hash && this.files == files && normal == {}
      ensures bytesRead == bytesWritten == activePeers == 0
    {
      this.hash, this.files, normal := hash, files, {};
      bytesRead, bytesWritten, activePeers := 0, 0, 0;
    }

    /** Metadata, from peers or from a .torrent file; later copies change nothing. */
    method SetInfo(info: seq<File>)
      modifies this`files, this`normal
      ensures if old(files).Some? then files == old(files) && normal == old(normal)
              else files == Some(info) && normal == {}
    {
      if files.None? {
        files, normal := Some(info), {};
      }
    }

    method SetPriority(i: nat, p: Priority)
      requires i < Count()
      modifies this`normal
      ensures normal == if p == Normal then old(normal) + {i} else old(normal) - {i}
    {
      normal := if p == Normal then normal + {i} else normal - {i};
    }
  }

  datatype FileInfo = FileInfo(index: int, path: string, length: int, completed: int, wanted: bool)

  datatype Status = Snapshot(hash: InfoHash, haveInfo: bool, totalBytes: int, bytesDone: int, activePeers: int,
                             downRate: real, upRate: real, paused: bool, err: Option<string>)

  datatype SelectError = MetadataNotReady | OutOfRange

  /** The indices of the files that a breakdown reports as deselected. */
  method Deselections(files: seq<FileInfo>, ghost wanted: seq<bool>) returns (skip: seq<int>)
    requires |files| == |wanted|
    requires forall i :: 0 <= i < |files| ==> files[i].index == i && files[i].wanted == wanted[i]
    ensures skip == Deselected(wanted)
  {
    skip := [];
    for k := 0 to |files|
      invariant skip + Deselected(wanted, k) == Deselected(wanted)
    {
      if !files[k].wanted {
        assert skip + Deselected(wanted, k) == skip + [k] + Deselected(wanted, k + 1);
        skip := skip + [files[k].index];
      }
    }
  }

  class Download {
    const t: Torrent
    const added: int
    const magnet: string
    const skip: seq<int>
    var err: Option<string>
    /** null until initSelection; replaced by a new array on every change, so readers may keep the one they saw. */
    var wanted: array?<bool>
    var paused: bool
    var lastSampleAt: Option<int>
    var lastDown: int
    var lastUp: int
    var downRate: real
    var upRate: real
    var stallSince: Option<int>

    ghost function Wanted(): Option<seq<bool>>
      reads this, wanted
    {
      if wanted == null then None else Some(wanted[..])
    }

    ghost function FileCount(): Option<nat>
      reads this, t
    {
      if t.files.None? then None else Some(|t.files.value|)
    }

    ghost function View(): State
      reads this, t, wanted
    {
      State(FileCount(), skip, Wanted(), paused, t.Priorities())
    }

    ghost function Meter(): Stall.Meter
      reads this
    {
      Stall.Meter(lastSampleAt, lastDown, lastUp, downRate, upRate, stallSince)
    }

    ghost predicate Valid()
      reads this, t, wanted
    {
      Projected(View())
    }

    constructor (t: Torrent, added: int, magnet: string, skip: seq<int>)
      ensures this.t == t && this.added == added && this.magnet == magnet && this.skip == skip
      ensures err == None && wanted == null && !paused && Meter() == Stall.NewMeter()
      ensures t.normal == {} ==> Valid() && View() == Fresh(skip, FileCount())
    {
      this.t, this.added, this.magnet, this.skip := t, added, magnet, skip;
      err, wanted, paused := None, null, false;
      lastSampleAt, lastDown, lastUp, downRate, upRate, stallSince := None, 0, 0, 0.0, 0.0, None;
      new;
      assert t.normal == {} ==> t.Priorities() == Fresh(skip, FileCount()).priority;
    }

    /** The library's side of a download: its metadata arrives. */
    method ReceiveInfo(info: seq<File>)
      requires Valid()
      modifies t`files, t`normal
      ensures Valid() && View() == Applied(old(View()), MetadataArrives(|info|))
    {
      t.SetInfo(info);
      assert old(t.files).None? ==> t.Priorities() == seq(|info|, _ => NoPriority);
    }

    /** Gives each file the priority that the selection and the pause ask for. */
    method ApplyLocked()
      modifies t`normal
      ensures wanted == null ==> t.normal == old(t.normal)
      ensures wanted != null ==>
                forall i :: 0 <= i < t.Count() ==> (i in t.normal <==> i < wanted.Length && wanted[i] && !paused)
    {
      if wanted == null {
        return;
      }
      for i := 0 to t.Count()
        invariant forall k :: 0 <= k < i ==> (k in t.normal <==> k < wanted.Length && wanted[k] && !paused)
      {
        if i < wanted.Length && wanted[i] && !paused {
          t.SetPriority(i, Normal);
        } else {
          t.SetPriority(i, NoPriority);
        }
      }
    }

    /** Once metadata is known: the selection is everything but the skip list, whatever the priorities were. */
    method InitSelection()
      requires t.files.Some?
      modifies this`wanted, t`normal
      ensures Valid() && View() == Applied(old(View()), Op.InitSelection)
      ensures wanted != null && fresh(wanted) && wanted.Length == |t.files.value|
      ensures forall i :: 0 <= i < wanted.Length ==>
                wanted[i] == (i !in skip) && (i in t.normal <==> i !in skip && !paused)
    {
      var w := new bool[t.Count()](i => i !in skip);
      assert w[..] == InitWanted(t.Count(), skip);
      wanted := w;
      ApplyLocked();
      assert t.Priorities() == Projection(w[..], paused);
    }

    method SetPaused(p: bool)
      requires wanted != null ==> Valid()
      modifies this`paused, t`normal
      ensures (old(Valid()) ==> Valid()) && View() == Applied(old(View()), Op.SetPaused(p))
      ensures paused == p
      ensures if wanted == null then t.normal == old(t.normal)
              else forall i :: 0 <= i < wanted.Length ==> (i in t.normal <==> wanted[i] && !p)
    {
      paused := p;
      ApplyLocked();
      assert wanted != null ==> t.Priorities() == Projection(wanted[..], paused);
      assert wanted == null ==> t.Priorities() == old(t.Priorities());
    }

    method SetFileWanted(index: int, want: bool) returns (e: Option<SelectError>)
      requires wanted != null ==> Valid()
      modifies this`wanted, t`normal
      ensures (old(Valid()) ==> Valid()) && View() == Applied(old(View()), Op.SetFileWanted(index, want))
      ensures e == if old(wanted) == null then Some(MetadataNotReady)
                   else if index < 0 || index >= old(wanted).Length then Some(OutOfRange) else None
      ensures if e == None then wanted != null && fresh(wanted) else wanted == old(wanted) && t.normal == old(t.normal)
      ensures e == None ==> wanted[..] == old(wanted[..])[index := want]
      ensures e == None ==> forall i :: 0 <= i < wanted.Length ==>
                              (i in t.normal <==> (if i == index then want else old(wanted[..])[i]) && !paused)
      ensures old(wanted) != null ==> old(wanted)[..] == old(wanted[..])
    {
      if wanted == null {
        return Some(MetadataNotReady);
      }
      if index < 0 || index >= wanted.Length {
        return Some(OutOfRange);
      }
      var before := wanted;
      var w := new bool[before.Length](i requires 0 <= i < before.Length reads before => before[i]);
      w[index] := want;
      assert w[..] == before[..][index := want];
      wanted := w;
      ApplyLocked();
      assert t.Priorities() == Projection(w[..], paused);
      return None;
    }

    method SetAllWanted(want: bool)
      requires wanted != null ==> Valid()
      modifies this`wanted, t`normal
      ensures (old(Valid()) ==> Valid()) && View() == Applied(old(View()), Op.SetAllWanted(want))
      ensures if old(wanted) == null then wanted == null && t.normal == old(t.normal)
              else wanted != null && fresh(wanted) && wanted.Length == old(wanted).Length
      ensures wanted != null ==>
                forall i :: 0 <= i < wanted.Length ==> wanted[i] == want && (i in t.normal <==> want && !paused)
      ensures old(wanted) != null ==> old(wanted)[..] == old(wanted[..])
    {
      if wanted == null {
        return;
      }
      var w := new bool[wanted.Length](_ => want);
      assert w[..] == seq(wanted.Length, _ => want);
      wanted := w;
      ApplyLocked();
      assert t.Priorities() == Projection(w[..], paused);
    }

    /** The per-file breakdown, None without metadata. */
    method Files() returns (out: Option<seq<FileInfo>>)
      ensures out.None? <==> t.files.None?
      ensures out.Some? ==> ReportsFiles(out.value)
      ensures out.Some? ==> |out.value| == |t.files.value|
      ensures out.Some? ==>
                forall k :: 0 <= k < |out.value| ==>
                  var f := t.files.value[k];
                  out.value[k] == FileInfo(k, f.path, f.length, f.completed,
                                           if wanted != null && k < wanted.Length then wanted[k] else true)
    {
      if t.files.None? {
        return None;
      }
      var files, seen := t.files.value, wanted;
      var infos: seq<FileInfo> := [];
      for i := 0 to |files|
        invariant |infos| == i
        invariant forall k :: 0 <= k < i ==> infos[k] == InfoOf(k)
      {
        var w := true;
        if seen != null && i < seen.Length {
          w := seen[i];
        }
        infos := infos + [FileInfo(i, files[i].path, files[i].length, files[i].completed, w)];
      }
      return Some(infos);
    }

    ghost function InfoOf(k: nat): FileInfo
      requires t.files.Some? && k < |t.files.value|
      reads this, t, wanted
    {
      var f := t.files.value[k];
      FileInfo(k, f.path, f.length, f.completed, Reported(|t.files.value|, Wanted())[k])
    }

    ghost predicate ReportsFiles(infos: seq<FileInfo>)
      requires t.files.Some?
      reads this, t, wanted
    {
      && |infos| == |t.files.value|
      && forall k :: 0 <= k < |infos| ==> infos[k] == InfoOf(k)
    }

    /** The totals count wanted files only; pausing does not change them. */
    method Status() returns (st: Status)
      ensures st.hash == t.hash && st.haveInfo == t.files.Some? && st.paused == paused && st.err == err
      ensures st.activePeers == t.activePeers && st.downRate == downRate && st.upRate == upRate
      ensures t.files.None? ==> st.totalBytes == st.bytesDone == 0
      ensures t.files.Some? ==> st.totalBytes == TotalBytes(t.files.value, Wanted(), |t.files.value|)
      ensures t.files.Some? ==> st.bytesDone == BytesDone(t.files.value, Wanted(), |t.files.value|)
    {
      st := Snapshot(t.hash, false, 0, 0, t.activePeers, downRate, upRate, paused, err);
      var seen := wanted;
      if t.files.Some? {
        var files := t.files.value;
        var total, done := 0, 0;
        for i := 0 to |files|
          invariant total == TotalBytes(files, Wanted(), i) && done == BytesDone(files, Wanted(), i)
        {
          if seen == null || i >= seen.Length || seen[i] {
            total, done := total + files[i].length, done + files[i].completed;
          }
        }
        st := st.(haveInfo := true, totalBytes := total, bytesDone := done);
      }
    }

    /** The sample this call takes of the torrent's counters. */
    ghost function SampleAt(now: int): Stall.Sample
      reads this, t
    {
      Stall.Sample(now, t.bytesRead, t.bytesWritten, t.activePeers)
    }

    method SampleRate(now: int)
      modifies this`lastSampleAt, this`lastDown, this`lastUp, this`downRate, this`upRate, this`stallSince
      ensures Meter() == Stall.Sampled(old(Meter()), SampleAt(now))
      ensures lastSampleAt == Some(now) && lastDown == t.bytesRead && lastUp == t.bytesWritten
      ensures var rated := old(lastSampleAt).Some? && now > old(lastSampleAt).value;
              if !rated then downRate == old(downRate) && upRate == old(upRate) && stallSince == old(stallSince)
              else
                && downRate * (now - old(lastSampleAt).value) as real == 1.0e9 * (t.bytesRead - old(lastDown)) as real
                && upRate * (now - old(lastSampleAt).value) as real == 1.0e9 * (t.bytesWritten - old(lastUp)) as real
                && stallSince == if downRate >= 1.0 || t.activePeers != 0 then None
                                 else if old(stallSince).Some? then old(stallSince) else Some(now)
    {
      var down, up := t.bytesRead, t.bytesWritten;
      var haveRate := false;
      if lastSampleAt.Some? && now > lastSampleAt.value {
        var elapsed := Stall.Seconds(lastSampleAt.value, now);
        downRate := (down - lastDown) as real / elapsed;
        upRate := (up - lastUp) as real / elapsed;
        haveRate := true;
      }
      lastSampleAt, lastDown, lastUp := Some(now), down, up;
      if haveRate {
        if downRate < 1.0 && t.activePeers == 0 {
          if stallSince.None? {
            stallSince := Some(now);
          }
        } else {
          stallSince := None;
        }
      }
    }

    method StallDuration(now: int) returns (d: int)
      ensures d == Stall.StallDuration(Meter(), now)
      ensures d == if stallSince == None then 0 else now - stallSince.value
    {
      if stallSince.None? {
        return 0;
      }
      return now - stallSince.value;
    }
  }
}
