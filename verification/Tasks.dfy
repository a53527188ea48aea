/** tasks.json of internal/engine/engine.go as values: what is written, and what is read back. */
module Tasks {
  import opened Basics
  import opened Selection

  /** taskRecord; `hash` is None if the recorded text is not 40 hex digits. */
  datatype Task = Task(hash: Option<InfoHash>, magnet: string, skip: seq<int>)

  /** What a download contributes to the list. */
  datatype Entry = Entry(magnet: string, count: Option<nat>, wanted: Option<seq<bool>>, skip: seq<int>)

  /** What restore passes to track. */
  datatype Resumed = Resumed(magnet: string, skip: seq<int>)

  function RecordOf(h: InfoHash, e: Entry): Task {
    Task(Some(h), e.magnet, PersistedSkip(e.count, e.wanted))
  }

  /** Some record among the first n has the hash h. */
  ghost predicate Mentions(recs: seq<Task>, n: nat, h: InfoHash)
    requires n <= |recs|
  {
    exists i :: 0 <= i < n && recs[i].hash == Some(h)
  }

  ghost predicate Records(r: Task, entries: map<InfoHash, Entry>) {
    r.hash.Some? && r.hash.value in entries && r == RecordOf(r.hash.value, entries[r.hash.value])
  }

  /** `recs` lists the entries, each once, in any order: Go does not order a map. */
  ghost predicate Lists(recs: seq<Task>, entries: map<InfoHash, Entry>) {
    && (forall i :: 0 <= i < |recs| ==> Records(recs[i], entries))
    && (forall i, j :: 0 <= i < j < |recs| ==> recs[i].hash != recs[j].hash)
    && forall h :: h in entries ==> Mentions(recs, |recs|, h)
  }

  lemma ListsOneMore(recs: seq<Task>, entries: map<InfoHash, Entry>, h: InfoHash, e: Entry)
    requires Lists(recs, entries) && h !in entries
    ensures Lists(recs + [RecordOf(h, e)], entries[h := e])
  {
    var all, more := recs + [RecordOf(h, e)], entries[h := e];
    forall i | 0 <= i < |recs| ensures all[i] == recs[i] && Records(all[i], more) && all[i].hash != Some(h) {
      assert Records(recs[i], entries);
    }
    assert all[|recs|] == RecordOf(h, e) && Records(all[|recs|], more);
    forall k | k in more ensures Mentions(all, |all|, k) {
      if k == h {
        assert all[|recs|].hash == Some(h);
      } else {
        assert Mentions(recs, |recs|, k);
        var i :| 0 <= i < |recs| && recs[i].hash == Some(k);
        assert all[i].hash == Some(k);
      }
    }
  }

  lemma ListsNext(recs: seq<Task>, entries: map<InfoHash, Entry>, rest: set<InfoHash>, h: InfoHash)
    requires h in rest && rest <= entries.Keys && Lists(recs, entries - rest)
    ensures Lists(recs + [RecordOf(h, entries[h])], entries - (rest - {h}))
  {
    ListsOneMore(recs, entries - rest, h, entries[h]);
    assert (entries - rest)[h := entries[h]] == entries - (rest - {h});
  }

  /** The torrent a record is re-added as: by its magnet if it has one, else by its hash; None if neither parses. */
  function Target(r: Task, parse: string -> Option<InfoHash>): Option<InfoHash> {
    if r.magnet != "" then parse(r.magnet) else r.hash
  }

  /** The list restore builds: unusable records are skipped, and the first record of a hash wins. */
  function Restored(recs: seq<Task>, parse: string -> Option<InfoHash>): map<InfoHash, Resumed>
    decreases |recs|
  {
    if recs == [] then map[]
    else Resume(Restored(recs[..|recs| - 1], parse), recs[|recs| - 1], parse)
  }

  function Resume(before: map<InfoHash, Resumed>, r: Task, parse: string -> Option<InfoHash>): map<InfoHash, Resumed> {
    var h := Target(r, parse);
    if h.None? || h.value in before then before else before[h.value := Resumed(r.magnet, r.skip)]
  }

  /** The record names `h`, by its magnet if it has one, else by its hash. */
  predicate Designates(r: Task, parse: string -> Option<InfoHash>, h: InfoHash) {
    (r.magnet != "" && parse(r.magnet) == Some(h)) || (r.magnet == "" && r.hash == Some(h))
  }

  /** The i-th record is the first to name `h`. */
  ghost predicate FirstOf(recs: seq<Task>, parse: string -> Option<InfoHash>, h: InfoHash, i: nat) {
    i < |recs| && Designates(recs[i], parse, h) && forall j :: 0 <= j < i ==> !Designates(recs[j], parse, h)
  }

  /** Of any records, well-formed or not, those that name a torrent are restored, and of several the first. */
  lemma {:induction false} RestoresFirst(recs: seq<Task>, parse: string -> Option<InfoHash>, h: InfoHash)
    ensures h in Restored(recs, parse) <==> exists i: nat :: FirstOf(recs, parse, h, i)
    ensures forall i: nat :: FirstOf(recs, parse, h, i) ==>
              h in Restored(recs, parse) && Restored(recs, parse)[h] == Resumed(recs[i].magnet, recs[i].skip)
  {
    if recs != [] {
      var n := |recs| - 1;
      var front := recs[..n];
      RestoresFirst(front, parse, h);
      forall i: nat | i < n ensures FirstOf(recs, parse, h, i) <==> FirstOf(front, parse, h, i) { }
      if Designates(recs[n], parse, h) && h !in Restored(front, parse) {
        NoneDesignates(front, parse, h, n);
        assert FirstOf(recs, parse, h, n);
      }
    }
  }

  lemma {:induction false} NoneDesignates(recs: seq<Task>, parse: string -> Option<InfoHash>, h: InfoHash, k: nat)
    requires k <= |recs| && forall i: nat :: !FirstOf(recs, parse, h, i)
    ensures forall j :: 0 <= j < k ==> !Designates(recs[j], parse, h)
  {
    if k > 0 {
      NoneDesignates(recs, parse, h, k - 1);
      assert !FirstOf(recs, parse, h, k - 1);
    }
  }

  /** A magnet names the torrent it was added as. */
  ghost predicate MagnetsMatch(entries: map<InfoHash, Entry>, parse: string -> Option<InfoHash>) {
    forall h :: h in entries && entries[h].magnet != "" ==> parse(entries[h].magnet) == Some(h)
  }

  function ResumedFrom(e: Entry): Resumed {
    Resumed(e.magnet, PersistedSkip(e.count, e.wanted))
  }

  function AllResumed(entries: map<InfoHash, Entry>): map<InfoHash, Resumed> {
    map h | h in entries :: ResumedFrom(entries[h])
  }

  lemma RecordResumes(r: Task, entries: map<InfoHash, Entry>, parse: string -> Option<InfoHash>)
    requires MagnetsMatch(entries, parse) && Records(r, entries)
    ensures MagnetsMatch(entries - {r.hash.value}, parse)
    ensures Resume(AllResumed(entries - {r.hash.value}), r, parse) == AllResumed(entries)
  {
    var h := r.hash.value;
    assert AllResumed(entries) == AllResumed(entries - {h})[h := ResumedFrom(entries[h])];
  }

  lemma ListsFront(recs: seq<Task>, entries: map<InfoHash, Entry>)
    requires Lists(recs, entries) && recs != []
    ensures Records(recs[|recs| - 1], entries)
    ensures Lists(recs[..|recs| - 1], entries - {recs[|recs| - 1].hash.value})
  {
    var n := |recs| - 1;
    var front, rest := recs[..n], entries - {recs[n].hash.value};
    forall i | 0 <= i < n ensures Records(front[i], rest) {
      assert Records(recs[i], entries) && recs[i].hash != recs[n].hash;
    }
    forall h | h in rest ensures Mentions(front, n, h) {
      assert Mentions(recs, |recs|, h);
      var i :| 0 <= i < |recs| && recs[i].hash == Some(h);
      assert front[i].hash == Some(h);
    }
  }

  /** Whatever order the list was written in, restoring it resumes every entry, and nothing else. */
  lemma {:induction false} PersistThenRestore(recs: seq<Task>, entries: map<InfoHash, Entry>,
                                              parse: string -> Option<InfoHash>)
    requires Lists(recs, entries) && MagnetsMatch(entries, parse)
    ensures Restored(recs, parse) == AllResumed(entries)
    decreases |recs|
  {
    if recs == [] {
      assert AllResumed(entries) == map[];
    } else {
      var n := |recs| - 1;
      ListsFront(recs, entries);
      RecordResumes(recs[n], entries, parse);
      PersistThenRestore(recs[..n], entries - {recs[n].hash.value}, parse);
    }
  }

  /** What comes back of an entry: its magnet, and as skipped the files it was deselected for. */
  lemma EntryResumes(recs: seq<Task>, entries: map<InfoHash, Entry>, parse: string -> Option<InfoHash>, h: InfoHash)
    requires Lists(recs, entries) && MagnetsMatch(entries, parse) && h in entries
    ensures Restored(recs, parse).Keys == entries.Keys && Restored(recs, parse)[h].magnet == entries[h].magnet
    ensures var e := entries[h];
            forall k :: k in Restored(recs, parse)[h].skip <==>
                          e.count.Some? && 0 <= k < e.count.value &&
                          e.wanted.Some? && k < |e.wanted.value| && !e.wanted.value[k]
  {
    PersistThenRestore(recs, entries, parse);
    var e := entries[h];
    if e.count.Some? {
      DeselectedMembers(Reported(e.count.value, e.wanted), 0);
    }
  }

  /** So an n-file download comes back with its selection exactly if it was initialised or deselected nothing. */
  lemma SelectionAcrossSessions(recs: seq<Task>, entries: map<InfoHash, Entry>, parse: string -> Option<InfoHash>,
                                h: InfoHash, n: nat)
    requires Lists(recs, entries) && MagnetsMatch(entries, parse) && h in entries
    requires entries[h].count.None? || entries[h].count == Some(n)
    requires entries[h].wanted.Some? ==> entries[h].count == Some(|entries[h].wanted.value|)
    ensures h in Restored(recs, parse)
    ensures Eventual(n, None, Restored(recs, parse)[h].skip) == Eventual(n, entries[h].wanted, entries[h].skip) <==>
            entries[h].wanted.Some? || SkipsNone(n, entries[h].skip)
  {
    PersistThenRestore(recs, entries, parse);
    PersistKeepsSelection(n, entries[h].count, entries[h].wanted, entries[h].skip);
  }
}
