/** internal/store/store.go: the two SQLite tables of the DHT index, and the statements run on them. */
module Store {
  import opened Basics
  import Fts

  /** A row of `torrents`; its key is the lower-cased info-hash. */
  datatype Row = Row(name: string, size: int, files: int, seenAt: int, resolved: bool)

  /** A row of the virtual table `torrents_fts`, which has no key. */
  datatype FtsRow = FtsRow(hash: InfoHash, name: string)

  datatype Db = Db(torrents: map<InfoHash, Row>, fts: seq<FtsRow>)

  datatype Record = Record(hash: InfoHash, name: string, size: int, files: int, seenAt: int)

  /** Where the transaction of SaveMetadata fails, if it does. */
  datatype Fault = NoFault | AtBegin | AtUpsert | AtDelete | AtInsert | AtCommit

  function Max(a: int, b: int): int {
    if a > b then a else b
  }

  /** INSERT ... ON CONFLICT DO UPDATE of a sighting. */
  function Seen(db: Db, h: InfoHash, now: int): Db {
    db.(torrents := db.torrents[h :=
      if h in db.torrents then db.torrents[h].(seenAt := now) else Row("", 0, 0, now, false)])
  }

  function Upserted(t: map<InfoHash, Row>, r: Record, now: int): map<InfoHash, Row> {
    t[r.hash := Row(r.name, r.size, r.files, if r.hash in t then Max(t[r.hash].seenAt, now) else now, true)]
  }

  /** DELETE FROM torrents_fts WHERE info_hash = h. */
  function Without(fts: seq<FtsRow>, h: InfoHash): seq<FtsRow> {
    if fts == [] then []
    else (if fts[0].hash == h then [] else [fts[0]]) + Without(fts[1..], h)
  }

  function Saved(db: Db, r: Record, now: int): Db {
    Db(Upserted(db.torrents, r, now), Without(db.fts, r.hash) + [FtsRow(r.hash, r.name)])
  }

  /** The row of an fts match, joined on the info-hash. */
  function Join(db: Db, row: FtsRow): Record
    requires row.hash in db.torrents
  {
    var t := db.torrents[row.hash];
    Record(row.hash, t.name, t.size, t.files, t.seenAt)
  }

  /** The fts rows whose name satisfies MATCH. */
  function Matching(fts: seq<FtsRow>, matches: string -> bool): seq<FtsRow> {
    if fts == [] then []
    else (if matches(fts[0].name) then [fts[0]] else []) + Matching(fts[1..], matches)
  }

  function ResolvedHashes(db: Db): set<InfoHash> {
    set h | h in db.torrents && db.torrents[h].resolved
  }

  function PendingHashes(db: Db): set<InfoHash> {
    set h | h in db.torrents && !db.torrents[h].resolved
  }

  /** A page of PendingMetadata: the n newest unresolved rows, newest first, ties in any order. */
  ghost predicate IsPendingPage(db: Db, page: seq<InfoHash>, n: nat) {
    && (forall i :: 0 <= i < |page| ==> page[i] in db.torrents && !db.torrents[page[i]].resolved)
    && (forall i, j :: 0 <= i < j < |page| ==>
          page[i] != page[j] && db.torrents[page[i]].seenAt >= db.torrents[page[j]].seenAt)
    && (forall h, i :: h in db.torrents && !db.torrents[h].resolved && h !in page && 0 <= i < |page| ==>
          db.torrents[h].seenAt <= db.torrents[page[i]].seenAt)
    && |page| <= n
    && (|page| < n ==> forall h :: h in db.torrents && !db.torrents[h].resolved ==> h in page)
  }

  // ---------------- what a statement leaves behind, field by field ----------------

  /** A new row with the time alone, or the time of the row there is; nothing else. */
  ghost predicate Sighted(was: Db, h: InfoHash, now: int, db: Db) {
    && h in db.torrents && db.torrents[h].seenAt == now
    && db.torrents[h].name == (if h in was.torrents then was.torrents[h].name else "")
    && db.torrents[h].size == (if h in was.torrents then was.torrents[h].size else 0)
    && db.torrents[h].files == (if h in was.torrents then was.torrents[h].files else 0)
    && (db.torrents[h].resolved <==> h in was.torrents && was.torrents[h].resolved)
    && OthersKept(was, h, db) && db.fts == was.fts
  }

  /** The row of the record, resolved, its time never set back, and one fts row with its name; nothing else. */
  ghost predicate Recorded(was: Db, r: Record, now: int, db: Db) {
    && r.hash in db.torrents && db.torrents[r.hash].resolved
    && db.torrents[r.hash].name == r.name
    && db.torrents[r.hash].size == r.size
    && db.torrents[r.hash].files == r.files
    && db.torrents[r.hash].seenAt >= now
    && (r.hash in was.torrents ==> db.torrents[r.hash].seenAt >= was.torrents[r.hash].seenAt)
    && (db.torrents[r.hash].seenAt == now
        || (r.hash in was.torrents && db.torrents[r.hash].seenAt == was.torrents[r.hash].seenAt))
    && OthersKept(was, r.hash, db)
    && forall row :: row in db.fts <==> row == FtsRow(r.hash, r.name) || (row in was.fts && row.hash != r.hash)
  }

  ghost predicate OthersKept(was: Db, h: InfoHash, db: Db) {
    forall k :: k != h ==> (k in db.torrents <==> k in was.torrents)
                           && (k in db.torrents ==> db.torrents[k] == was.torrents[k])
  }

  lemma SeenSights(db: Db, h: InfoHash, now: int)
    ensures Sighted(db, h, now, Seen(db, h, now))
  { }

  lemma SavedRecords(db: Db, r: Record, now: int)
    ensures Recorded(db, r, now, Saved(db, r, now))
  {
    WithoutRows(db.fts, r.hash);
  }

  class Store {
    var torrents: map<InfoHash, Row>
    var fts: seq<FtsRow>

    ghost function View(): Db
      reads this
    {
      Db(torrents, fts)
    }

    /** A new database file. */
    constructor ()
      ensures View() == Db(map[], [])
    {
      torrents, fts := map[], [];
    }

    method SeenInfoHash(h: InfoHash, now: int, fails: bool) returns (ok: bool)
      modifies this
      ensures ok == !fails
      ensures View() == if ok then Seen(old(View()), h, now) else old(View())
      ensures ok ==> Sighted(old(View()), h, now, View())
    {
      if fails {
        return false;
      }
      if h in torrents {
        torrents := torrents[h := torrents[h].(seenAt := now)];
      } else {
        torrents := torrents[h := Row("", 0, 0, now, false)];
      }
      ok := true;
      SeenSights(old(View()), h, now);
    }

    /** The statements change the tables in place; a failure rolls them back to what they were at BEGIN. */
    method SaveMetadata(r: Record, now: int, fault: Fault) returns (ok: bool)
      modifies this
      ensures ok <==> fault.NoFault?
      ensures View() == if ok then Saved(old(View()), r, now) else old(View())
      ensures ok ==> Recorded(old(View()), r, now, View())
    {
      if fault.AtBegin? {
        return false;
      }
      var torrentsAtBegin, ftsAtBegin := torrents, fts;
      SavedRecords(View(), r, now);
      ok := SaveStatements(r, now, fault);
      if !ok {
        torrents, fts := torrentsAtBegin, ftsAtBegin;
      }
    }

    method SaveStatements(r: Record, now: int, fault: Fault) returns (ok: bool)
      requires !fault.AtBegin?
      modifies this
      ensures ok <==> fault.NoFault?
      ensures ok ==> View() == Saved(old(View()), r, now)
    {
      if fault.AtUpsert? {
        return false;
      }
      torrents := Upserted(torrents, r, now);
      if fault.AtDelete? {
        return false;
      }
      fts := Without(fts, r.hash);
      if fault.AtInsert? {
        return false;
      }
      fts := fts + [FtsRow(r.hash, r.name)];
      ok := !fault.AtCommit?;
    }

    /**
     * `matches` is MATCH on the sanitized text and `bm25` the score of a row for it; `ranking` are the matching rows as
     * SQLite orders them, by ascending score and, where that is equal, descending seen_at.
     */
    method Search(query: string, limit: int, matches: string -> string -> bool, bm25: FtsRow -> real,
                  ranking: seq<FtsRow>)
      returns (out: seq<Record>)
      requires Indexed(View())
      requires multiset(ranking) == multiset(Matching(fts, matches(Fts.Sanitized(query))))
      requires IsOrdered(View(), bm25, ranking)
      ensures Fts.Sanitized(query) == "" ==> out == []
      ensures Fts.Sanitized(query) != "" ==>
                && IsAnswer(View(), out, matches(Fts.Sanitized(query)), if limit <= 0 then 100 else limit)
                && IsBestFirst(View(), out, matches(Fts.Sanitized(query)), bm25)
      ensures forall i :: 0 <= i < |out| ==> i < |ranking| && out[i].hash == ranking[i].hash
      ensures forall i, j :: 0 <= i < j < |out| ==>
                var x, y := bm25(FtsRow(out[i].hash, out[i].name)), bm25(FtsRow(out[j].hash, out[j].name));
                x < y || (x == y && out[i].seenAt >= out[j].seenAt)
    {
      var n := if limit <= 0 then 100 else limit;
      var q := Fts.SanitizeFts(query);
      if q == "" {
        return [];
      }
      RankedRowsIndexed(View(), matches(q), ranking);
      out := Scan(ranking, n);
      PageIsAnswer(View(), matches(q), ranking, out, n);
      PageIsBestFirst(View(), matches(q), bm25, ranking, out);
    }

    /** The loop over the joined rows. */
    method Scan(ranking: seq<FtsRow>, limit: nat) returns (out: seq<Record>)
      requires forall i :: 0 <= i < |ranking| ==> ranking[i].hash in torrents
      ensures |out| == if |ranking| < limit then |ranking| else limit
      ensures forall i :: 0 <= i < |out| ==> out[i] == Join(View(), ranking[i])
    {
      out := [];
      var i := 0;
      while i < |ranking| && i < limit
        invariant 0 <= i <= |ranking| && i <= limit && |out| == i
        invariant forall j :: 0 <= j < i ==> out[j] == Join(View(), ranking[j])
      {
        var t := torrents[ranking[i].hash];
        out := out + [Record(ranking[i].hash, t.name, t.size, t.files, t.seenAt)];
        i := i + 1;
      }
    }

    method PendingMetadata(n: nat) returns (out: seq<InfoHash>)
      ensures IsPendingPage(View(), out, n)
    {
      var rest := set h | h in torrents && !torrents[h].resolved;
      out := [];
      while |out| < n && rest != {}
        invariant |out| <= n
        invariant forall h :: h in rest <==> h in torrents && !torrents[h].resolved && h !in out
        invariant forall i :: 0 <= i < |out| ==> out[i] in torrents && !torrents[out[i]].resolved
        invariant forall i, j :: 0 <= i < j < |out| ==>
                    out[i] != out[j] && torrents[out[i]].seenAt >= torrents[out[j]].seenAt
        invariant forall h, i :: h in rest && 0 <= i < |out| ==> torrents[h].seenAt <= torrents[out[i]].seenAt
        decreases |rest|
      {
        var h := Newest(rest);
        out := out + [h];
        rest := rest - {h};
      }
    }

    method Newest(hashes: set<InfoHash>) returns (newest: InfoHash)
      requires hashes != {} && hashes <= torrents.Keys
      ensures newest in hashes
      ensures forall h :: h in hashes ==> torrents[h].seenAt <= torrents[newest].seenAt
    {
      newest :| newest in hashes;
      var rest := hashes - {newest};
      while rest != {}
        invariant newest in hashes && rest <= hashes
        invariant forall h :: h in hashes && h !in rest ==> torrents[h].seenAt <= torrents[newest].seenAt
        decreases |rest|
      {
        var h :| h in rest;
        rest := rest - {h};
        if torrents[h].seenAt > torrents[newest].seenAt {
          newest := h;
        }
      }
    }

    method Stats() returns (total: nat, resolved: nat)
      ensures total == |torrents| && resolved == |ResolvedHashes(View())|
    {
      total := |torrents|;
      var hashes := set h | h in torrents && torrents[h].resolved;
      assert hashes == ResolvedHashes(View());
      resolved := |hashes|;
    }
  }

  // ---------------- the index agrees with the table ----------------

  /** One fts row for each resolved row of torrents, with its name, and none besides. */
  ghost predicate Indexed(db: Db) {
    && (forall i, j :: 0 <= i < j < |db.fts| ==> db.fts[i].hash != db.fts[j].hash)
    && (forall i :: 0 <= i < |db.fts| ==> RowIndexed(db, db.fts[i]))
    && (forall h :: h in db.torrents && db.torrents[h].resolved ==> FtsRow(h, db.torrents[h].name) in db.fts)
  }

  ghost predicate RowIndexed(db: Db, row: FtsRow) {
    row.hash in db.torrents && db.torrents[row.hash].resolved && db.torrents[row.hash].name == row.name
  }

  lemma SeenKeepsIndex(db: Db, h: InfoHash, now: int)
    requires Indexed(db)
    ensures Indexed(Seen(db, h, now))
  {
    forall i | 0 <= i < |db.fts| ensures RowIndexed(Seen(db, h, now), db.fts[i]) {
      assert RowIndexed(db, db.fts[i]);
    }
  }

  lemma {:induction false} WithoutRows(fts: seq<FtsRow>, h: InfoHash)
    ensures forall row :: row in Without(fts, h) <==> row in fts && row.hash != h
  {
    if fts != [] {
      WithoutRows(fts[1..], h);
      assert fts == [fts[0]] + fts[1..];
    }
  }

  lemma {:induction false} WithoutDistinct(fts: seq<FtsRow>, h: InfoHash)
    requires forall i, j :: 0 <= i < j < |fts| ==> fts[i].hash != fts[j].hash
    ensures forall i, j :: 0 <= i < j < |Without(fts, h)| ==> Without(fts, h)[i].hash != Without(fts, h)[j].hash
  {
    if fts != [] {
      var rest := Without(fts[1..], h);
      WithoutRows(fts[1..], h);
      WithoutDistinct(fts[1..], h);
      assert forall i :: 0 <= i < |rest| ==> rest[i] in rest;
    }
  }

  lemma SaveKeepsIndex(db: Db, r: Record, now: int)
    requires Indexed(db)
    ensures Indexed(Saved(db, r, now))
  {
    WithoutRows(db.fts, r.hash);
    WithoutDistinct(db.fts, r.hash);
    var db', kept := Saved(db, r, now), Without(db.fts, r.hash);
    forall i | 0 <= i < |kept| ensures RowIndexed(db', kept[i]) && kept[i].hash != r.hash {
      assert kept[i] in kept;
      assert kept[i] in db.fts;
    }
  }

  datatype Op = Sight(h: InfoHash, now: int, fails: bool) | Save(r: Record, now: int, fault: Fault)

  function Applied(db: Db, op: Op): Db {
    match op
    case Sight(h, now, fails) => if fails then db else Seen(db, h, now)
    case Save(r, now, fault) => if fault.NoFault? then Saved(db, r, now) else db
  }

  function After(db: Db, ops: seq<Op>): Db
    decreases |ops|
  {
    if ops == [] then db else After(Applied(db, ops[0]), ops[1..])
  }

  lemma OpKeepsIndex(db: Db, op: Op)
    requires Indexed(db)
    ensures Indexed(Applied(db, op))
  {
    match op
    case Sight(h, now, _) => SeenKeepsIndex(db, h, now);
    case Save(r, now, _) => SaveKeepsIndex(db, r, now);
  }

  /** After any run of the two operations, failures at any statement included, the index agrees with the table. */
  lemma {:induction false} RunKeepsIndex(db: Db, ops: seq<Op>)
    requires Indexed(db)
    ensures Indexed(After(db, ops))
    decreases |ops|
  {
    if ops != [] {
      OpKeepsIndex(db, ops[0]);
      RunKeepsIndex(Applied(db, ops[0]), ops[1..]);
    }
  }

  /** What an operation does to the rows and to the resolved ones. */
  lemma AppliedRows(db: Db, op: Op)
    ensures var done := if op.Sight? then !op.fails else op.fault.NoFault?;
            var h := if op.Sight? then op.h else op.r.hash;
            && Applied(db, op).torrents.Keys == db.torrents.Keys + (if done then {h} else {})
            && ResolvedHashes(Applied(db, op)) == ResolvedHashes(db) + (if done && op.Save? then {h} else {})
  { }

  /** Rows are never lost and a resolved row never becomes unresolved. */
  lemma {:induction false} ResolvedNeverReverts(db: Db, ops: seq<Op>)
    ensures db.torrents.Keys <= After(db, ops).torrents.Keys
    ensures ResolvedHashes(db) <= ResolvedHashes(After(db, ops))
    decreases |ops|
  {
    if ops != [] {
      AppliedRows(db, ops[0]);
      ResolvedNeverReverts(Applied(db, ops[0]), ops[1..]);
    }
  }

  /** A successful save of `h`. */
  predicate Saves(op: Op, h: InfoHash) {
    op.Save? && op.fault.NoFault? && op.r.hash == h
  }

  ghost predicate LastSave(ops: seq<Op>, k: nat, h: InfoHash) {
    k < |ops| && Saves(ops[k], h) && forall j :: k < j < |ops| ==> !Saves(ops[j], h)
  }

  /** What a run without a successful save of `h` keeps of its row. */
  lemma {:induction false} UnsavedKeepsRow(db: Db, ops: seq<Op>, h: InfoHash)
    requires forall j :: 0 <= j < |ops| ==> !Saves(ops[j], h)
    ensures var t := After(db, ops).torrents;
            if h in db.torrents then
              && h in t && t[h].name == db.torrents[h].name && t[h].size == db.torrents[h].size
              && t[h].files == db.torrents[h].files && (t[h].resolved <==> db.torrents[h].resolved)
            else h in t ==> !t[h].resolved
    decreases |ops|
  {
    if ops != [] {
      assert !Saves(ops[0], h);
      UnsavedKeepsRow(Applied(db, ops[0]), ops[1..], h);
    }
  }

  /** After any run a resolved row has name, size and files of the last successful save of its hash. */
  lemma {:induction false} LastSaveStands(db: Db, ops: seq<Op>, k: nat, h: InfoHash)
    requires LastSave(ops, k, h)
    ensures var t := After(db, ops).torrents;
            h in t && t[h].resolved && t[h].name == ops[k].r.name && t[h].size == ops[k].r.size
            && t[h].files == ops[k].r.files
    decreases |ops|
  {
    if k == 0 {
      SavedRecords(db, ops[0].r, ops[0].now);
      UnsavedKeepsRow(Applied(db, ops[0]), ops[1..], h);
    } else {
      LastSaveStands(Applied(db, ops[0]), ops[1..], k - 1, h);
    }
  }

  /** A hash with a successful save has a last one. */
  lemma {:induction false} HasLastSave(ops: seq<Op>, h: InfoHash, i: nat) returns (k: nat)
    requires i < |ops| && Saves(ops[i], h)
    ensures LastSave(ops, k, h)
    decreases |ops| - i
  {
    if j: nat :| i < j < |ops| && Saves(ops[j], h) {
      k := HasLastSave(ops, h, j);
    } else {
      k := i;
    }
  }

  /** Whatever Search returns after a run from the empty database is what was last saved under that hash. */
  lemma SearchReturnsLastSave(ops: seq<Op>, out: seq<Record>, matches: string -> bool, limit: nat, i: nat)
    returns (k: nat)
    requires IsAnswer(After(Db(map[], []), ops), out, matches, limit) && i < |out|
    ensures LastSave(ops, k, out[i].hash)
    ensures out[i].name == ops[k].r.name && out[i].size == ops[k].r.size && out[i].files == ops[k].r.files
  {
    var db, h := Db(map[], []), out[i].hash;
    assert IsMatch(After(db, ops), out[i], matches);
    if forall j :: 0 <= j < |ops| ==> !Saves(ops[j], h) {
      UnsavedKeepsRow(db, ops, h);
      assert false;
    }
    var j: nat :| j < |ops| && Saves(ops[j], h);
    k := HasLastSave(ops, h, j);
    LastSaveStands(db, ops, k, h);
  }

  // ---------------- what Search and Stats return ----------------

  /** The records of resolved rows with a matching name, none twice, as many as there are up to the limit. */
  ghost predicate IsAnswer(db: Db, out: seq<Record>, matches: string -> bool, limit: nat) {
    && (forall i :: 0 <= i < |out| ==> IsMatch(db, out[i], matches))
    && (forall i, j :: 0 <= i < j < |out| ==> out[i].hash != out[j].hash)
    && |out| <= limit
    && (|out| < limit ==> forall h :: h in ResolvedHashes(db) && matches(db.torrents[h].name) ==>
                            exists i :: 0 <= i < |out| && out[i].hash == h)
  }

  /** The row of `a` comes no later than that of `b`. */
  predicate Precedes(db: Db, bm25: FtsRow -> real, a: InfoHash, b: InfoHash) {
    && a in db.torrents && b in db.torrents
    && var x, y := bm25(FtsRow(a, db.torrents[a].name)), bm25(FtsRow(b, db.torrents[b].name));
       x < y || (x == y && db.torrents[a].seenAt >= db.torrents[b].seenAt)
  }

  ghost predicate IsOrdered(db: Db, bm25: FtsRow -> real, ranking: seq<FtsRow>) {
    forall i, j :: 0 <= i < j < |ranking| ==> Precedes(db, bm25, ranking[i].hash, ranking[j].hash)
  }

  /** The records are in order, and no matching row that is left out would come before one of them. */
  ghost predicate IsBestFirst(db: Db, out: seq<Record>, matches: string -> bool, bm25: FtsRow -> real) {
    && (forall i, j :: 0 <= i < j < |out| ==> Precedes(db, bm25, out[i].hash, out[j].hash))
    && (forall h, i :: IsOmitted(db, out, matches, h) && 0 <= i < |out| ==> Precedes(db, bm25, out[i].hash, h))
  }

  ghost predicate IsOmitted(db: Db, out: seq<Record>, matches: string -> bool, h: InfoHash) {
    h in ResolvedHashes(db) && matches(db.torrents[h].name) && forall j :: 0 <= j < |out| ==> out[j].hash != h
  }

  ghost predicate IsMatch(db: Db, r: Record, matches: string -> bool) {
    && r.hash in ResolvedHashes(db) && matches(r.name)
    && r == Record(r.hash, db.torrents[r.hash].name, db.torrents[r.hash].size, db.torrents[r.hash].files,
                   db.torrents[r.hash].seenAt)
  }

  lemma {:induction false} MatchingRows(fts: seq<FtsRow>, matches: string -> bool)
    ensures forall row :: row in Matching(fts, matches) <==> row in fts && matches(row.name)
    ensures forall row :: multiset(Matching(fts, matches))[row] <= multiset(fts)[row]
  {
    if fts != [] {
      MatchingRows(fts[1..], matches);
      assert fts == [fts[0]] + fts[1..];
    }
  }

  lemma DistinctOccurOnce(fts: seq<FtsRow>, row: FtsRow)
    requires forall i, j :: 0 <= i < j < |fts| ==> fts[i].hash != fts[j].hash
    ensures multiset(fts)[row] <= 1
  {
    if row in fts {
      var i :| 0 <= i < |fts| && fts[i] == row;
      assert fts == fts[..i] + [row] + fts[i + 1..];
      assert row !in fts[..i] && row !in fts[i + 1..];
    }
  }

  lemma RankedRowsIndexed(db: Db, matches: string -> bool, ranking: seq<FtsRow>)
    requires Indexed(db) && multiset(ranking) == multiset(Matching(db.fts, matches))
    ensures forall i :: 0 <= i < |ranking| ==> RowIndexed(db, ranking[i]) && matches(ranking[i].name)
    ensures forall i, j :: 0 <= i < j < |ranking| ==> ranking[i].hash != ranking[j].hash
    ensures forall h :: h in ResolvedHashes(db) && matches(db.torrents[h].name) ==>
              FtsRow(h, db.torrents[h].name) in ranking
  {
    var m := Matching(db.fts, matches);
    MatchingRows(db.fts, matches);
    forall row ensures row in ranking <==> row in m {
      assert row in ranking <==> row in multiset(ranking);
      assert row in m <==> row in multiset(m);
    }
    forall i | 0 <= i < |ranking| ensures RowIndexed(db, ranking[i]) && matches(ranking[i].name) {
      assert ranking[i] in ranking;
    }
    forall i, j | 0 <= i < j < |ranking| ensures ranking[i].hash != ranking[j].hash {
      if ranking[i].hash == ranking[j].hash {
        assert RowIndexed(db, ranking[i]) && RowIndexed(db, ranking[j]);
        TwiceInSeq(ranking, i, j);
        DistinctOccurOnce(db.fts, ranking[i]);
        assert false;
      }
    }
  }

  lemma PageIsAnswer(db: Db, matches: string -> bool, ranking: seq<FtsRow>, out: seq<Record>, limit: nat)
    requires Indexed(db) && multiset(ranking) == multiset(Matching(db.fts, matches))
    requires forall i :: 0 <= i < |ranking| ==> ranking[i].hash in db.torrents
    requires |out| == (if |ranking| < limit then |ranking| else limit)
    requires forall i :: 0 <= i < |out| ==> out[i] == Join(db, ranking[i])
    ensures IsAnswer(db, out, matches, limit)
  {
    RankedRowsIndexed(db, matches, ranking);
    if |out| < limit {
      forall h | h in ResolvedHashes(db) && matches(db.torrents[h].name)
        ensures exists i :: 0 <= i < |out| && out[i].hash == h
      {
        var i :| 0 <= i < |ranking| && ranking[i] == FtsRow(h, db.torrents[h].name);
        assert out[i].hash == h;
      }
    }
  }

  lemma PageIsBestFirst(db: Db, matches: string -> bool, bm25: FtsRow -> real, ranking: seq<FtsRow>, out: seq<Record>)
    requires Indexed(db) && multiset(ranking) == multiset(Matching(db.fts, matches)) && IsOrdered(db, bm25, ranking)
    requires |out| <= |ranking| && forall i :: 0 <= i < |out| ==> out[i].hash == ranking[i].hash
    ensures IsBestFirst(db, out, matches, bm25)
  {
    RankedRowsIndexed(db, matches, ranking);
    forall h, i | IsOmitted(db, out, matches, h) && 0 <= i < |out| ensures Precedes(db, bm25, out[i].hash, h) {
      var k :| 0 <= k < |ranking| && ranking[k] == FtsRow(h, db.torrents[h].name);
      assert ranking[k].hash == h && i < k;
    }
  }

  function HashesOf(fts: seq<FtsRow>): set<InfoHash> {
    set row | row in fts :: row.hash
  }

  lemma {:induction false} CountHashes(fts: seq<FtsRow>)
    requires forall i, j :: 0 <= i < j < |fts| ==> fts[i].hash != fts[j].hash
    ensures |HashesOf(fts)| == |fts|
  {
    if fts != [] {
      CountHashes(fts[1..]);
      assert fts == [fts[0]] + fts[1..];
      assert HashesOf(fts) == {fts[0].hash} + HashesOf(fts[1..]);
    }
  }

  /** The resolved count of Stats is the number of rows in the index. */
  lemma ResolvedCount(db: Db)
    requires Indexed(db)
    ensures |ResolvedHashes(db)| == |db.fts|
    ensures ResolvedHashes(db) == HashesOf(db.fts)
  {
    CountHashes(db.fts);
    forall h ensures h in ResolvedHashes(db) <==> h in HashesOf(db.fts) {
      if h in ResolvedHashes(db) {
        assert FtsRow(h, db.torrents[h].name) in db.fts;
      }
      if h in HashesOf(db.fts) {
        var i :| 0 <= i < |db.fts| && db.fts[i].hash == h;
        assert RowIndexed(db, db.fts[i]);
      }
    }
    assert ResolvedHashes(db) == HashesOf(db.fts);
  }
}
