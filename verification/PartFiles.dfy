/** migratePartFiles of internal/engine/engine.go: the one-off renaming of files left by older versions. */
module PartFiles {
  const SUFFIX := ".part"

  datatype Node<C> = Directory | Content(c: C)

  predicate IsPart(path: string) {
    |path| >= |SUFFIX| && path[|path| - |SUFFIX|..] == SUFFIX
  }

  function Target(path: string): string
    requires IsPart(path)
  {
    path[..|path| - |SUFFIX|]
  }

  /**
   * The target is the name of a file. A file called just ".part" has its own directory as its target, with a slash at
   * the end, or no target at all, and is left alone.
   */
  predicate HasName(path: string)
    requires IsPart(path)
  {
    Target(path) != "" && Target(path)[|Target(path)| - 1] != '/'
  }

  /** What these mean for a name and the name with the suffix. */
  lemma PartOf<C>(before: map<string, Node<C>>, unreadable: set<string>, r: string)
    ensures IsPart(r + ".part") && Target(r + ".part") == r
    ensures Rescuable(before, unreadable, r + ".part") <==>
              && r + ".part" in before && before[r + ".part"].Content? && r !in before && r !in unreadable
              && r != "" && r[|r| - 1] != '/'
  {
    assert (r + ".part")[|r|..] == ".part";
  }

  lemma PartsOnly(p: string)
    ensures IsPart(p) ==> p == Target(p) + ".part"
  { }

  lemma TargetInjective(p: string, q: string)
    requires IsPart(p) && IsPart(q) && Target(p) == Target(q)
    ensures p == q
  {
    assert p == Target(p) + SUFFIX && q == Target(q) + SUFFIX;
  }

  /** Where each path went, and where each came from: one-to-one, so nothing is overwritten. */
  datatype Moves = Moves(to: map<string, string>, home: map<string, string>)

  /** A file stays where it is, or moves to its own name without the suffix; nothing else appears or disappears. */
  ghost predicate Lossless<C>(before: map<string, Node<C>>, after: map<string, Node<C>>, m: Moves) {
    && m.to.Keys == before.Keys && m.home.Keys == after.Keys
    && (forall p :: p in before ==> Arrives(before, after, m, p))
    && forall r :: r in after ==> m.home[r] in before && m.to[m.home[r]] == r
  }

  ghost predicate Arrives<C>(before: map<string, Node<C>>, after: map<string, Node<C>>, m: Moves, p: string)
    requires m.to.Keys == before.Keys && m.home.Keys == after.Keys && p in before
  {
    && m.to[p] in after && m.home[m.to[p]] == p && after[m.to[p]] == before[p]
    && (m.to[p] != p ==> before[p].Content? && IsPart(p) && HasName(p) && m.to[p] == Target(p))
  }

  /** What is not an old file is where it was. */
  ghost predicate Stays<C>(before: map<string, Node<C>>, after: map<string, Node<C>>) {
    forall p :: p in before && !(before[p].Content? && IsPart(p) && HasName(p)) ==> p in after && after[p] == before[p]
  }

  lemma OthersStay<C>(before: map<string, Node<C>>, after: map<string, Node<C>>, m: Moves)
    requires Lossless(before, after, m)
    ensures Stays(before, after)
  {
    forall p | p in before && !(before[p].Content? && IsPart(p) && HasName(p))
      ensures p in after && after[p] == before[p]
    {
      assert Arrives(before, after, m, p);
    }
  }

  function Renamed<C>(now: map<string, Node<C>>, p: string): map<string, Node<C>>
    requires p in now && IsPart(p)
  {
    (now - {p})[Target(p) := now[p]]
  }

  function Moved(m: Moves, p: string): Moves
    requires IsPart(p)
  {
    Moves(m.to[p := Target(p)], (m.home - {p})[Target(p) := p])
  }

  lemma MoveIsLossless<C>(before: map<string, Node<C>>, now: map<string, Node<C>>, m: Moves, p: string)
    requires Lossless(before, now, m) && p in before && m.to[p] == p
    requires p in now && before[p].Content? && IsPart(p) && HasName(p) && Target(p) !in now
    ensures Lossless(before, Renamed(now, p), Moved(m, p))
  {
    assert Target(p) != p && Arrives(before, now, m, p);
    forall q | q in before ensures Arrives(before, Renamed(now, p), Moved(m, p), q) {
      assert Arrives(before, now, m, q);
    }
  }

  /** A target that was free at the start is still free when its file's turn comes. */
  lemma TargetStaysFree<C>(before: map<string, Node<C>>, now: map<string, Node<C>>, m: Moves, p: string)
    requires Lossless(before, now, m) && p in before && m.to[p] == p && IsPart(p) && Target(p) !in before
    ensures Target(p) !in now
  {
    if Target(p) in now {
      var q := m.home[Target(p)];
      assert Arrives(before, now, m, q);
      TargetInjective(p, q);
    }
  }

  /** A file to be renamed whose plain name is free at the start. */
  predicate Rescuable<C>(before: map<string, Node<C>>, unreadable: set<string>, p: string) {
    && p in before && before[p].Content? && IsPart(p) && HasName(p)
    && Target(p) !in before && Target(p) !in unreadable
  }

  /** The walk's visit to one path. */
  method Visit<C>(ghost before: map<string, Node<C>>, now: map<string, Node<C>>, ghost m: Moves, p: string,
                  unreadable: set<string>)
    returns (after: map<string, Node<C>>, ghost m': Moves)
    requires Lossless(before, now, m) && p in before && m.to[p] == p
    ensures Lossless(before, after, m')
    ensures p in m'.to && m'.to == m.to[p := m'.to[p]]
    ensures Rescuable(before, unreadable, p) ==> m'.to[p] == Target(p)
  {
    after, m' := now, m;
    assert Arrives(before, now, m, p);
    if now[p].Content? && IsPart(p) {
      if Target(p) !in before {
        TargetStaysFree(before, now, m, p);
      }
      if HasName(p) && Target(p) !in now && Target(p) !in unreadable {
        MoveIsLossless(before, now, m, p);
        after, m' := Renamed(now, p), Moved(m, p);
      }
    }
  }

  /**
   * `walk` is the order in which the directory walk visits the paths it listed; `unreadable` are the targets whose
   * status cannot be read. Nothing is overwritten or lost, and every file whose plain name was free gets it.
   */
  method MigratePartFiles<C>(before: map<string, Node<C>>, walk: seq<string>, unreadable: set<string>)
    returns (after: map<string, Node<C>>, ghost m: Moves)
    requires forall i :: 0 <= i < |walk| ==> walk[i] in before
    requires forall i, j :: 0 <= i < j < |walk| ==> walk[i] != walk[j]
    ensures Lossless(before, after, m)
    ensures forall i :: 0 <= i < |walk| && Rescuable(before, unreadable, walk[i]) ==> m.to[walk[i]] == Target(walk[i])
    ensures Stays(before, after)
    ensures forall p :: p in before ==>
              m.to[p] in after && after[m.to[p]] == before[p] && (m.to[p] == p || m.to[p] + ".part" == p)
  {
    ghost var none := map p | p in before :: p;
    after, m := before, Moves(none, none);
    for i := 0 to |walk|
      invariant Lossless(before, after, m)
      invariant forall j :: i <= j < |walk| ==> m.to[walk[j]] == walk[j]
      invariant forall j :: 0 <= j < i && Rescuable(before, unreadable, walk[j]) ==> m.to[walk[j]] == Target(walk[j])
    {
      after, m := Visit(before, after, m, walk[i], unreadable);
    }
    OthersStay(before, after, m);
    forall p | p in before ensures m.to[p] in after && after[m.to[p]] == before[p] {
      assert Arrives(before, after, m, p);
    }
    forall p | p in before && m.to[p] != p ensures m.to[p] + ".part" == p {
      assert Arrives(before, after, m, p);
      PartsOnly(p);
    }
  }
}
