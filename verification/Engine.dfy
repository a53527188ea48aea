/** The engine of internal/engine/engine.go over the torrent library's client. */
module Engine {
  import opened Basics
  import opened Downloads
  import opened Lifecycle
  import opened Tasks
  import Selection
  import Stall

  /** The library's client: the live torrents by info-hash. A torrent that is not live is closed. */
  class Client {
    var torrents: map<InfoHash, Torrent>

    constructor ()
      ensures torrents == map[]
    {
      torrents := map[];
    }

    /** Adds a torrent, with its metadata if the source carries it; an info-hash that is already live is reused. */
    method Add(h: InfoHash, info: Option<seq<Selection.File>>) returns (t: Torrent)
      requires h in torrents ==> torrents[h].hash == h
      modifies this, if h in torrents && info.Some? then {torrents[h]} else {}
      ensures t.hash == h && torrents == old(torrents)[h := t]
      ensures if old(h in torrents) then t == old(torrents[h]) && Informed(t, info)
              else fresh(t) && t.files == info && t.normal == {}
    {
      if h in torrents {
        t := torrents[h];
        if info.Some? {
          t.SetInfo(info.value);
        }
      } else {
        t := new Torrent(h, info);
        torrents := torrents[h := t];
      }
    }

    /** Takes a torrent out of the client, which closes it; nothing happens if it is closed already. */
    method Drop(t: Torrent)
      modifies this
      ensures torrents == if old(t.hash in torrents && torrents[t.hash] == t) then old(torrents) - {t.hash}
                          else old(torrents)
    {
      if t.hash in torrents && torrents[t.hash] == t {
        torrents := torrents - {t.hash};
      }
    }
  }

  /** What adding metadata to a live torrent changes: only a torrent without metadata takes it. */
  twostate predicate Informed(t: Torrent, info: Option<seq<Selection.File>>)
    reads t
  {
    if old(t.files).Some? || info.None? then t.files == old(t.files) && t.normal == old(t.normal)
    else t.files == info && t.normal == {}
  }

  /** tasks.json. */
  class StateFile {
    var tasks: Option<seq<Task>>

    constructor (tasks: Option<seq<Task>>)
      ensures this.tasks == tasks
    {
      this.tasks := tasks;
    }
  }

  datatype EngineError = InvalidSource | NoSuchDownload | ReaddFailed

  datatype Result = Ok(d: Download) | Err(error: EngineError)

  /** A .torrent file. */
  datatype MetaInfo = MetaInfo(hash: InfoHash, files: seq<Selection.File>)

  ghost function EntryOf(d: Download): Entry
    reads d, d.t, d.wanted
  {
    Entry(d.magnet, d.FileCount(), d.Wanted(), d.skip)
  }

  /** A download as it is when tracking starts. */
  ghost predicate Untouched(d: Download)
    reads d
  {
    d.err.None? && d.wanted == null && !d.paused && d.Meter() == Stall.NewMeter()
  }

  /** A magnet names the torrent it was added as. */
  predicate Names(magnet: string, parse: string -> Option<InfoHash>, h: InfoHash) {
    magnet != "" ==> parse(magnet) == Some(h)
  }

  ghost predicate Named(made: set<Download>, parse: string -> Option<InfoHash>) {
    forall d :: d in made ==> Names(d.magnet, parse, d.t.hash)
  }

  ghost predicate ByHash(downloads: map<InfoHash, Download>) {
    forall h :: h in downloads ==> downloads[h].t.hash == h
  }

  class Engine {
    const client: Client
    /** null if persistence is disabled. */
    const file: StateFile?
    /** The library's magnet parser: the info-hash a URI names, or None for a URI it rejects. */
    const parse: string -> Option<InfoHash>
    var downloads: map<InfoHash, Download>
    /** The downloads whose awaitMetadata is still running, those with an error, those with a selection, and all. */
    ghost var waiting: set<Download>
    ghost var failed: set<Download>
    ghost var chosen: set<Download>
    ghost var made: set<Download>
    /** The torrents that calls of FetchInfo wait on. */
    ghost var held: multiset<Torrent>

    ghost function View(): Registry
      reads this, client
    {
      Registry(downloads, client.torrents, waiting, failed, chosen, made, held)
    }

    /** The ghost sets say what the downloads' fields say. */
    ghost predicate Linked()
      reads this, made
    {
      forall d :: d in made ==> (d in failed <==> d.err.Some?) && (d in chosen <==> d.wanted != null)
    }

    ghost predicate Consistent()
      reads this, made
    {
      Linked() && Named(made, parse)
    }

    /** The selection of every download that has one is projected onto its torrent. */
    ghost predicate AllProjected()
      reads this, chosen, set d | d in chosen :: d.t, set d | d in chosen :: d.wanted
    {
      forall d :: d in chosen ==> d.Valid()
    }

    ghost predicate Valid()
      reads this, client, made, chosen, set d | d in chosen :: d.t, set d | d in chosen :: d.wanted
    {
      Consistent() && Sound(View()) && OneOwner(View()) && AllProjected()
    }

    constructor (parse: string -> Option<InfoHash>, file: StateFile?)
      ensures this.parse == parse && this.file == file && fresh(client)
      ensures Valid() && View() == Registry(map[], map[], {}, {}, {}, {}, multiset{})
    {
      this.parse, this.file := parse, file;
      client := new Client();
      downloads, waiting, failed, chosen, made, held := map[], {}, {}, {}, {}, multiset{};
    }

    /** Takes a torrent of the client into the list; a healthy entry is kept, a failed one is replaced. */
    method Track(t: Torrent, magnet: string, skip: seq<int>, now: int) returns (d: Download)
      requires Consistent() && Names(magnet, parse, t.hash)
      requires t.hash in downloads ==> downloads[t.hash] in made
      requires View().Healthy(t.hash) ==> downloads[t.hash].t == t
      modifies this
      ensures Consistent() && View() == Lifecycle.Track(old(View()), t, d)
      ensures d.t == t && downloads == old(downloads)[t.hash := d]
      ensures if old(View()).Healthy(t.hash) then d == old(downloads[t.hash])
              else fresh(d) && d.magnet == magnet && d.skip == skip && d.added == now && Untouched(d)
      ensures fresh(d) && t.normal == {} ==> d.Valid()
      ensures old(AllProjected()) ==> AllProjected()
    {
      var h := t.hash;
      if h in downloads && downloads[h].err.None? {
        return downloads[h];
      }
      d := new Download(t, now, magnet, skip);
      downloads := downloads[h := d];
      waiting := waiting + {d};
      made := made + {d};
    }

    /** The client's torrent; a download that has a selection has its metadata already. */
    method Obtain(h: InfoHash, info: Option<seq<Selection.File>>) returns (t: Torrent)
      requires AllProjected() && (h in client.torrents ==> client.torrents[h].hash == h)
      modifies client, if h in client.torrents && info.Some? then {client.torrents[h]} else {}
      ensures AllProjected()
      ensures t.hash == h && client.torrents == old(client.torrents)[h := t]
      ensures if h in old(client.torrents) then t == old(client.torrents[h]) && Informed(t, info)
              else fresh(t) && t.files == info && t.normal == {}
    {
      t := client.Add(h, info);
    }

    /** Adds to the client and to the list. */
    method AddAndTrack(h: InfoHash, info: Option<seq<Selection.File>>, magnet: string, skip: seq<int>, now: int)
      returns (d: Download)
      requires Consistent() && Served(View(), h) && Names(magnet, parse, h) && AllProjected()
      modifies this, client, if h in client.torrents && info.Some? then {client.torrents[h]} else {}
      ensures Consistent() && Adopted(d, h, info, magnet, skip, now) && AllProjected()
    {
      ghost var r := View();
      var t := Obtain(h, info);
      assert View() == Enlivened(r, t);
      d := Track(t, magnet, skip, now);
    }

    /** The client's torrent for h, live before or new, and the download that tracks it. */
    method Adopt(h: InfoHash, info: Option<seq<Selection.File>>, magnet: string, skip: seq<int>, now: int)
      returns (d: Download)
      requires Valid() && Names(magnet, parse, h)
      modifies this, client, if h in client.torrents && info.Some? then {client.torrents[h]} else {}
      ensures Valid() && Adopted(d, h, info, magnet, skip, now)
    {
      ghost var r := View();
      LiveIsHealthy(r, h);
      d := AddAndTrack(h, info, magnet, skip, now);
      assert Hands(r, d.t);
      AddKeepsSound(r, d.t, d);
      AddKeepsOneOwner(r, d.t, d);
    }

    /** A healthy download of that hash is returned as it is; otherwise a new one is listed, with the live torrent. */
    twostate predicate Adopted(new d: Download, h: InfoHash, info: Option<seq<Selection.File>>, magnet: string,
                               skip: seq<int>, now: int)
      reads this, client, d, d.t, d.wanted
    {
      && View() == Added(old(View()), d.t, d) && d.t.hash == h && downloads == old(downloads)[h := d]
      && (if h in old(client.torrents) then d.t == old(client.torrents[h]) && Informed(old(client.torrents[h]), info)
          else fresh(d.t) && d.t.files == info)
      && (if old(View()).Healthy(h) then d == old(downloads[h])
          else fresh(d) && d.magnet == magnet && d.skip == skip && d.added == now && Untouched(d))
      && (fresh(d.t) ==> d.Valid())
    }

    // ---------------- adding and removing ----------------

    method AdoptAndPersist(h: InfoHash, info: Option<seq<Selection.File>>, magnet: string, skip: seq<int>, now: int)
      returns (d: Download)
      requires Valid() && Names(magnet, parse, h)
      modifies this, client, file, if h in client.torrents && info.Some? then {client.torrents[h]} else {}
      ensures Valid() && Adopted(d, h, info, magnet, skip, now) && Saved()
    {
      d := Adopt(h, info, magnet, skip, now);
      ghost var r := View();
      PersistState();
      assert View() == r;
    }

    method AddMagnet(uri: string, now: int) returns (r: Result)
      requires Valid()
      modifies this, client, file
      ensures Valid()
      ensures parse(uri).None? ==> r == Err(InvalidSource) && View() == old(View()) && FileKept()
      ensures parse(uri).Some? ==> r.Ok? && Adopted(r.d, parse(uri).value, None, uri, [], now) && Saved()
    {
      if parse(uri).None? {
        return Err(InvalidSource);
      }
      var d := AdoptAndPersist(parse(uri).value, None, uri, [], now);
      return Ok(d);
    }

    /** `h` is None if the given text is not 40 hex digits. */
    method AddInfoHash(h: Option<InfoHash>, now: int) returns (r: Result)
      requires Valid()
      modifies this, client, file
      ensures Valid()
      ensures h.None? ==> r == Err(InvalidSource) && View() == old(View()) && FileKept()
      ensures h.Some? ==> r.Ok? && Adopted(r.d, h.value, None, "", [], now) && Saved()
    {
      if h.None? {
        return Err(InvalidSource);
      }
      var d := AdoptAndPersist(h.value, None, "", [], now);
      return Ok(d);
    }

    /** A .torrent file, local or fetched; None if it could not be loaded or the client rejects it. */
    method AddTorrentFile(mi: Option<MetaInfo>, now: int) returns (r: Result)
      requires Valid()
      modifies this, client, file
      modifies if mi.Some? && mi.value.hash in client.torrents then {client.torrents[mi.value.hash]} else {}
      ensures Valid()
      ensures mi.None? ==> r == Err(InvalidSource) && View() == old(View()) && FileKept()
      ensures mi.Some? ==> r.Ok? && Adopted(r.d, mi.value.hash, Some(mi.value.files), "", [], now) && Saved()
    {
      if mi.None? {
        return Err(InvalidSource);
      }
      var d := AdoptAndPersist(mi.value.hash, Some(mi.value.files), "", [], now);
      return Ok(d);
    }

    method Remove(h: InfoHash) returns (e: Option<EngineError>)
      requires Valid()
      modifies this, client, file
      ensures Valid() && View() == Removed(old(View()), h)
      ensures e == if h in old(downloads) then None else Some(NoSuchDownload)
      ensures e.None? ==> Saved()
      ensures e.Some? ==> FileKept()
    {
      if h !in downloads {
        return Some(NoSuchDownload);
      }
      Discard(h);
      PersistState();
      return None;
    }

    /** Takes an entry off the list and drops its torrent. */
    method Discard(h: InfoHash)
      requires Valid() && h in downloads
      modifies this, client
      ensures Valid() && View() == Removed(old(View()), h)
      ensures FileKept()
      ensures client.torrents == if old(View()).Healthy(h) then old(client.torrents) - {h} else old(client.torrents)
    {
      ghost var r := View();
      RemoveOutcome(r, h);
      var d := downloads[h];
      downloads := downloads - {h};
      client.Drop(d.t);
      assert View() == Removed(r, h);
      RemoveKeepsSound(r, h);
    }

    /**
     * The entry of h starts over with a new download, made from the metadata if it is known, else from the magnet, else
     * from the bare hash. `accepted` says whether the client takes the metadata back; if it does not, the entry is
     * lost. A magnet always parses again.
     */
    method Restart(h: InfoHash, accepted: bool, now: int) returns (e: Option<EngineError>)
      requires Valid()
      modifies this, client, file
      modifies if h in client.torrents && !View().Healthy(h) then {client.torrents[h]} else {}
      ensures Valid()
      ensures h !in old(downloads) ==> e == Some(NoSuchDownload) && View() == old(View())
      ensures h in old(downloads) ==>
                e == if old(downloads[h].t.files).Some? && !accepted then Some(ReaddFailed) else None
      ensures e == Some(ReaddFailed) ==> View() == Removed(old(View()), h)
      ensures e.None? ==> Replaced(h, now) && Saved()
      ensures e.Some? ==> FileKept()
    {
      if h !in downloads {
        return Some(NoSuchDownload);
      }
      e := RestartListed(h, accepted, now);
    }

    method RestartListed(h: InfoHash, accepted: bool, now: int) returns (e: Option<EngineError>)
      requires Valid() && h in downloads
      modifies this, client, file
      modifies if h in client.torrents && !View().Healthy(h) then {client.torrents[h]} else {}
      ensures Valid() && e == if old(downloads[h].t.files).Some? && !accepted then Some(ReaddFailed) else None
      ensures e.Some? ==> View() == Removed(old(View()), h) && FileKept()
      ensures e.None? ==> Replaced(h, now) && Saved()
    {
      var before := downloads[h];
      var magnet, info := before.magnet, before.t.files;
      var skip := RestartSkipOf(before);
      assert Names(magnet, parse, h);
      Discard(h);
      e := Readd(h, info, magnet, skip, accepted, now);
    }

    /** Takes an entry's source back to the client and into the list. */
    method Readd(h: InfoHash, info: Option<seq<Selection.File>>, magnet: string, skip: seq<int>, accepted: bool,
                 now: int)
      returns (e: Option<EngineError>)
      requires Valid() && Names(magnet, parse, h)
      modifies this, client, file, if h in client.torrents && info.Some? then {client.torrents[h]} else {}
      ensures Valid() && e == if info.Some? && !accepted then Some(ReaddFailed) else None
      ensures e.Some? ==> View() == old(View()) && FileKept()
      ensures e.None? ==> h in downloads && Adopted(downloads[h], h, info, magnet, skip, now) && Saved()
    {
      var target := if info.None? && magnet != "" then parse(magnet) else Some(h);
      if target.None? || (info.Some? && !accepted) {
        return Some(ReaddFailed);
      }
      var d := AdoptAndPersist(target.value, info, magnet, skip, now);
      return None;
    }

    /**
     * The entry of h is a new download that knows and wants what its predecessor did. Its torrent is new as well,
     * unless the predecessor had failed and a fetch of the same hash has a live one.
     */
    twostate predicate Replaced(h: InfoHash, now: int)
      requires h in old(downloads)
      reads this, client, downloads.Values, set d | d in downloads.Values :: d.t
      reads set d | d in downloads.Values :: d.wanted
    {
      && h in downloads
      && var d, before := downloads[h], old(downloads[h]);
         && View() == Restarted(old(View()), h, true, d.t, d) && fresh(d)
         && d.t.hash == h && d.magnet == before.magnet && d.added == now && Untouched(d)
         && d.skip == Selection.RestartSkip(old(before.FileCount()), old(before.Wanted()), before.skip)
         && (if h in Removed(old(View()), h).live then d.t == old(client.torrents[h])
             else fresh(d.t) && d.t.files == old(before.t.files) && d.Valid())
    }

    // ---------------- waiting for metadata ----------------

    /** Peers deliver the metadata of some torrent. */
    method MetadataArrives(t: Torrent, info: seq<Selection.File>)
      requires Valid()
      modifies t`files, t`normal
      ensures Valid() && View() == old(View())
      ensures t.files == if old(t.files).Some? then old(t.files) else Some(info)
      ensures t.normal == if old(t.files).Some? then old(t.normal) else {}
    {
      t.SetInfo(info);
    }

    /** The end of an awaitMetadata; it may come after the download was removed, restarted or replaced. */
    method EndWait(d: Download, wake: Wake)
      requires Valid() && d in waiting
      requires wake.GotInfo? ==> d.t.files.Some?
      requires wake.Closed? ==> !View().Live(d.t)
      modifies this, client, d`err, d`wanted, d.t`normal
      ensures Valid() && View() == Woken(old(View()), d, wake)
      ensures wake.GotInfo? ==> d.Valid() && d.View() == Selection.Applied(old(d.View()), Selection.InitSelection)
      ensures !wake.GotInfo? ==> d.View() == old(d.View())
      ensures d.err == if wake.TimedOut? then Some("metadata fetch timed out") else old(d.err)
      ensures downloads == old(downloads) && waiting == old(waiting) - {d}
      ensures client.torrents == if wake.TimedOut? && old(View()).Live(d.t) then old(client.torrents) - {d.t.hash}
                                 else old(client.torrents)
      ensures wake.GotInfo? <==> d.wanted != old(d.wanted)
    {
      ghost var r := View();
      WakeKeepsSound(r, d, wake);
      waiting := waiting - {d};
      match wake {
        case GotInfo =>
          Choose(d);
        case Closed =>
        case TimedOut =>
          Fail(d);
      }
      assert View() == Woken(r, d, wake);
    }

    method Fail(d: Download)
      requires Consistent() && AllProjected() && d in made
      modifies this`failed, client, d`err
      ensures Consistent() && AllProjected() && failed == old(failed) + {d}
      ensures d.err == Some("metadata fetch timed out") && d.View() == old(d.View())
      ensures client.torrents == if old(View()).Live(d.t) then old(client.torrents) - {d.t.hash}
                                 else old(client.torrents)
    {
      d.err := Some("metadata fetch timed out");
      failed := failed + {d};
      client.Drop(d.t);
    }

    /** The initial selection of a download; no other download shares its torrent. */
    method Choose(d: Download)
      requires Consistent() && AllProjected() && OneOwner(View()) && chosen <= made && d in made && d.t.files.Some?
      modifies this`chosen, d`wanted, d.t`normal
      ensures Consistent() && AllProjected() && chosen == old(chosen) + {d}
      ensures d.Valid() && d.View() == Selection.Applied(old(d.View()), Selection.InitSelection)
    {
      d.InitSelection();
      chosen := chosen + {d};
    }

    // ---------------- tasks.json ----------------

    ghost function Entries(): map<InfoHash, Entry>
      reads this, downloads.Values, set d | d in downloads.Values :: d.t, set d | d in downloads.Values :: d.wanted
    {
      map h | h in downloads :: EntryOf(downloads[h])
    }

    /** The state file lists the downloads as they are now. */
    ghost predicate Saved()
      reads this, file, downloads.Values
      reads set d | d in downloads.Values :: d.t, set d | d in downloads.Values :: d.wanted
    {
      file != null ==> file.tasks.Some? && Lists(file.tasks.value, Entries())
    }

    twostate predicate FileKept()
      reads file
    {
      file != null ==> file.tasks == old(file.tasks)
    }

    method PersistState()
      requires ByHash(downloads)
      modifies file
      ensures Saved() && (old(AllProjected()) ==> AllProjected())
    {
      if file == null {
        return;
      }
      var recs := Records();
      file.tasks := Some(recs);
    }

    /** One record for each entry, in the order in which the map happens to yield them. */
    method Records() returns (recs: seq<Task>)
      requires ByHash(downloads)
      ensures Lists(recs, Entries())
    {
      var rest := downloads.Keys;
      recs := [];
      ghost var entries := Entries();
      while rest != {}
        invariant rest <= downloads.Keys && Lists(recs, entries - rest)
      {
        var h :| h in rest;
        var rec := RecordFor(downloads[h]);
        assert rec == RecordOf(h, entries[h]);
        ListsNext(recs, entries, rest, h);
        recs, rest := recs + [rec], rest - {h};
      }
      assert entries - rest == entries;
    }

    /** One usable record; an earlier record of the same hash wins. */
    method AdoptResumed(h: InfoHash, magnet: string, skip: seq<int>, now: int)
      requires Valid() && failed == {} && Names(magnet, parse, h)
      requires AllUntouched()
      modifies this, client
      ensures Valid() && failed == {}
      ensures AllUntouched()
      ensures h in downloads && downloads == old(downloads)[h := downloads[h]]
      ensures if h in old(downloads) then downloads[h] == old(downloads[h])
              else downloads[h].magnet == magnet && downloads[h].skip == skip
    {
      var d := Adopt(h, None, magnet, skip, now);
    }

    ghost predicate AllUntouched()
      reads this, downloads.Values
    {
      forall h :: h in downloads ==> Untouched(downloads[h])
    }

    method RestoreRecord(r: Task, now: int, ghost m: map<InfoHash, Resumed>)
      requires Valid() && failed == {} && Resumes(downloads, m) && AllUntouched()
      modifies this, client
      ensures Valid() && failed == {} && Resumes(downloads, Resume(m, r, parse)) && AllUntouched()
    {
      var h := Target(r, parse);
      if h.Some? {
        AdoptResumed(h.value, r.magnet, r.skip, now);
        ResumesNext(old(downloads), downloads, m, r, parse, h.value);
      }
    }

    /** Re-adds what the state file lists, into an engine that has just been made. */
    method Restore(now: int)
      requires Valid() && View() == Registry(map[], map[], {}, {}, {}, {}, multiset{})
      modifies this, client
      ensures Valid() && failed == {} && AllUntouched()
      ensures file == null || file.tasks.None? ==> downloads == map[]
      ensures file != null && file.tasks.Some? ==> Resumes(downloads, Restored(file.tasks.value, parse))
    {
      if file == null || file.tasks.None? {
        return;
      }
      var recs := file.tasks.value;
      for i := 0 to |recs|
        invariant Valid() && failed == {} && Resumes(downloads, Restored(recs[..i], parse)) && AllUntouched()
      {
        assert recs[..i + 1][..i] == recs[..i];
        RestoreRecord(recs[i], now, Restored(recs[..i], parse));
      }
      assert recs[..|recs|] == recs;
    }

    /** FetchInfo, the crawler's metadata fetch, bypasses the list: it adds a torrent and waits for its metadata. */
    method BeginFetch(h: InfoHash) returns (t: Torrent)
      requires Valid()
      modifies this, client
      ensures Valid() && View() == Fetching(old(View()), t) && t in held
      ensures t.hash == h && if h in old(client.torrents) then t == old(client.torrents[h]) else fresh(t)
      ensures downloads == old(downloads) && client.torrents == old(client.torrents)[h := t]
    {
      ghost var r := View();
      LiveIsHealthy(r, h);
      t := Obtain(h, None);
      held := held + multiset{t};
      assert View() == Fetching(r, t);
      FetchingKeepsSound(r, t);
    }

    /**
     * Its deferred drop, with metadata or without. The engine stays valid exactly if no healthy download uses the
     * torrent by then; another fetch that waits on it is left with a closed torrent in any case.
     */
    method EndFetch(t: Torrent) returns (info: Option<seq<Selection.File>>)
      requires Valid() && t in held
      modifies this, client
      ensures info == t.files
      ensures View() == Fetched(old(View()), t)
      ensures Valid() <==> !old(View()).InUse(t)
      ensures downloads == old(downloads) && held == old(held) - multiset{t}
      ensures client.torrents == if old(View()).Live(t) then old(client.torrents) - {t.hash} else old(client.torrents)
      ensures old(held)[t] > 1 ==> t in held && !View().Live(t)
    {
      ghost var r := View();
      info := t.files;
      held := held - multiset{t};
      client.Drop(t);
      assert View() == Fetched(r, t);
      FetchedKeepsSound(r, t);
    }
  }

  /** The list is exactly `m`: every entry has the magnet and the skip list given there. */
  ghost predicate Resumes(downloads: map<InfoHash, Download>, m: map<InfoHash, Resumed>) {
    && downloads.Keys == m.Keys
    && forall h :: h in downloads ==> Resumed(downloads[h].magnet, downloads[h].skip) == m[h]
  }

  /** A download that is untouched and valid is in its initial state. */
  lemma UntouchedIsFresh(d: Download)
    requires d.Valid() && Untouched(d)
    ensures d.View() == Selection.Fresh(d.skip, d.FileCount())
  {
    assert d.t.Priorities() == Selection.Fresh(d.skip, d.FileCount()).priority;
  }

  lemma ResumesNext(before: map<InfoHash, Download>, after: map<InfoHash, Download>, m: map<InfoHash, Resumed>,
                    r: Task, parse: string -> Option<InfoHash>, h: InfoHash)
    requires Resumes(before, m) && Target(r, parse) == Some(h)
    requires h in after && after == before[h := after[h]]
    requires if h in before then after[h] == before[h] else after[h].magnet == r.magnet && after[h].skip == r.skip
    ensures Resumes(after, Resume(m, r, parse))
  { }

  /** The skip list that a restarted download starts with. */
  method RestartSkipOf(d: Download) returns (skip: seq<int>)
    ensures skip == Selection.RestartSkip(d.FileCount(), d.Wanted(), d.skip)
  {
    skip := [];
    var files := d.Files();
    if files.Some? {
      skip := Deselections(files.value, Selection.Reported(|files.value|, d.Wanted()));
    }
    if d.t.files.None? && |skip| == 0 {
      skip := d.skip;
    }
  }

  method RecordFor(d: Download) returns (rec: Task)
    ensures rec == RecordOf(d.t.hash, EntryOf(d))
  {
    var skip := [];
    var files := d.Files();
    if files.Some? {
      skip := Deselections(files.value, Selection.Reported(|files.value|, d.Wanted()));
    }
    rec := Task(Some(d.t.hash), d.magnet, skip);
  }
}
