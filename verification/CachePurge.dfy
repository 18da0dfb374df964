/** TTL purge of the cache tree `<base>/<user>/<hash>/result.json`. Paths are relative to base. */
module CachePurge {
  import opened Basics

  type Path = seq<string>

  datatype Node = File(mtime: int, content: string) | Dir(mtime: int)

  type Tree = map<Path, Node>

  datatype OsError = NotFound | PermissionDenied | IsADirectory

  const RESULT := "result.json"

  predicate Child(p: Path, d: Path) {
    |p| == |d| + 1 && p[..|d|] == d
  }

  /** Every entry but the base sits in a directory of the tree. */
  predicate WellFormed(t: Tree) {
    && ([] in t ==> t[[]].Dir?)
    && forall p :: p in t && p != [] ==> p[..|p| - 1] in t && t[p[..|p| - 1]].Dir?
  }

  predicate IsExpectedLayout(p: Path) {
    |p| == 3 && p[2] == RESULT
  }

  /** What `rglob("result.json")` lists, in some order: files and directories alike. */
  ghost predicate Listing(t: Tree, candidates: seq<Path>) {
    && (forall i, j :: 0 <= i < j < |candidates| ==> candidates[i] != candidates[j])
    && forall p :: p in candidates <==> p in t && p != [] && p[|p| - 1] == RESULT
  }

  function Rmdir(t: Tree, denied: set<Path>, d: Path): Tree {
    if d in t && t[d].Dir? && d !in denied && Empty(t, d) then t - {d} else t
  }

  // ---------------------------------------------------------------- what a purge should leave

  predicate Expired(t: Tree, cutoff: int, denied: set<Path>, p: Path) {
    p in t && IsExpectedLayout(p) && t[p].mtime < cutoff && p !in denied
  }

  /** The entries an error-free purge deletes. `denied`: paths the system refuses to stat, unlink
      or rmdir. */
  function Doomed(t: Tree, cutoff: int, denied: set<Path>): set<Path> {
    set p | p in t && Expired(t, cutoff, denied, p)
  }

  predicate HashGone(t: Tree, denied: set<Path>, deleted: set<Path>, h: Path) {
    |h| == 2 && h !in denied && h + [RESULT] in deleted && forall q {:trigger Child(q, h)} :: q in t && Child(q, h) ==> q in deleted
  }

  predicate UserGone(t: Tree, denied: set<Path>, deleted: set<Path>, u: Path) {
    && |u| == 1 && u !in denied
    && (exists x :: x in deleted && |x| == 3 && x[..1] == u)
    && forall q {:trigger Child(q, u)} :: q in t && Child(q, u) ==> HashGone(t, denied, deleted, q)
  }

  /** The tree without the deleted entries and the directories that emptied because of them. */
  function After(t: Tree, denied: set<Path>, deleted: set<Path>): Tree {
    map p | p in t && p !in deleted && !HashGone(t, denied, deleted, p) && !UserGone(t, denied, deleted, p) :: t[p]
  }

  predicate Deletable(t: Tree, deleted: set<Path>) {
    forall p :: p in deleted ==> p in t && t[p].File? && IsExpectedLayout(p)
  }

  // ---------------------------------------------------------------- the code

  class CacheTree {
    var nodes: Tree

    constructor (nodes: Tree)
      ensures this.nodes == nodes
    {
      this.nodes := nodes;
    }

    method Stat(p: Path, denied: set<Path>) returns (r: Result<int, OsError>)
      ensures r == if p !in nodes then Err(NotFound) else if p in denied then Err(PermissionDenied) else Ok(nodes[p].mtime)
    {
      if p !in nodes {
        return Err(NotFound);
      }
      r := if p in denied then Err(PermissionDenied) else Ok(nodes[p].mtime);
    }

    method Unlink(p: Path, denied: set<Path>) returns (r: Result<(), OsError>)
      modifies this
      ensures r.Ok? <==> p in old(nodes) && p !in denied && old(nodes)[p].File?
      ensures r == Err(IsADirectory) <==> p in old(nodes) && p !in denied && old(nodes)[p].Dir?
      ensures nodes == if r.Ok? then old(nodes) - {p} else old(nodes)
    {
      if p !in nodes {
        return Err(NotFound);
      }
      if p in denied {
        return Err(PermissionDenied);
      }
      if nodes[p].Dir? {
        return Err(IsADirectory);
      }
      nodes := nodes - {p};
      r := Ok(());
    }

    method SafeRmdir(d: Path, denied: set<Path>)
      modifies this
      ensures nodes == Rmdir(old(nodes), denied, d)
    {
      if d in nodes && nodes[d].Dir? && d !in denied && (forall p <- nodes.Keys :: !Child(p, d)) {
        nodes := nodes - {d};
      }
    }

    /** The loop body for one candidate: whether it was deleted. */
    method Visit(p: Path, cutoff: int, denied: set<Path>, ghost t: Tree, ghost gone: set<Path>)
      returns (r: Result<bool, OsError>)
      requires WellFormed(t) && Deletable(t, gone) && nodes == After(t, denied, gone) && p in t && p !in gone
      modifies this
      ensures r.Ok? ==> r.value == (p in Doomed(t, cutoff, denied))
      ensures r.Ok? && r.value ==> t[p].File? && nodes == After(t, denied, gone + {p})
      ensures !(r.Ok? && r.value) ==> nodes == old(nodes)
      ensures r.Err? ==> p in Doomed(t, cutoff, denied) && t[p].Dir?
    {
      if !IsExpectedLayout(p) {
        return Ok(false);
      }
      assert p in nodes && nodes[p] == t[p];
      var mtime := Stat(p, denied);
      if mtime.Err? || mtime.value >= cutoff {
        return Ok(false);
      }
      var unlinked := Unlink(p, denied);
      if unlinked.Err? {
        return Err(IsADirectory);
      }
      SafeRmdir(p[..2], denied);
      SafeRmdir(p[..1], denied);
      DeleteOne(t, denied, gone, p);
      r := Ok(true);
    }

    /** In whatever order the candidates come: exactly the expired entries go, their count is
        returned, and emptied directories go with them. An old *directory* named result.json
        is the one thing that stops a purge, with a prefix of the work done. */
    method PurgeExpired(cutoff: int, candidates: seq<Path>, denied: set<Path>) returns (r: Result<nat, OsError>)
      requires WellFormed(nodes) && ([] in nodes ==> Listing(nodes, candidates))
      modifies this
      ensures [] !in old(nodes) ==> r == Ok(0) && nodes == old(nodes)
      ensures [] in old(nodes) ==>
        (r.Ok? <==> forall p :: p in Doomed(old(nodes), cutoff, denied) ==> old(nodes)[p].File?)
      ensures [] in old(nodes) && r.Ok? ==>
        && r.value == |Doomed(old(nodes), cutoff, denied)|
        && nodes == After(old(nodes), denied, Doomed(old(nodes), cutoff, denied))
      ensures [] in old(nodes) && r.Err? ==>
        && r.error == IsADirectory
        && exists some :: some <= Doomed(old(nodes), cutoff, denied) && nodes == After(old(nodes), denied, some)
    {
      ghost var t := nodes;
      if [] !in nodes {
        return Ok(0);
      }
      var deleted := 0;
      ghost var gone: set<Path> := {};
      NothingDeleted(t, denied);
      for i := 0 to |candidates|
        invariant gone == Among(t, cutoff, denied, candidates[..i]) && Deletable(t, gone)
        invariant deleted == |gone| && nodes == After(t, denied, gone)
      {
        var p := candidates[i];
        OneMoreCandidate(t, cutoff, denied, candidates, i);
        var visited := Visit(p, cutoff, denied, t, gone);
        if visited.Err? {
          return Err(IsADirectory);
        }
        if visited.value {
          deleted := deleted + 1;
          gone := gone + {p};
        }
      }
      AllListed(t, cutoff, denied, candidates);
      r := Ok(deleted);
    }
  }

  /** The entries to delete among the candidates seen so far. */
  function Among(t: Tree, cutoff: int, denied: set<Path>, candidates: seq<Path>): (r: set<Path>)
    ensures r <= Doomed(t, cutoff, denied)
  {
    set p | p in candidates && p in Doomed(t, cutoff, denied)
  }

  lemma OneMoreCandidate(t: Tree, cutoff: int, denied: set<Path>, candidates: seq<Path>, i: nat)
    requires Listing(t, candidates) && i < |candidates|
    ensures var (p, gone) := (candidates[i], Among(t, cutoff, denied, candidates[..i]));
      && p in t && p !in gone
      && Among(t, cutoff, denied, candidates[..i + 1]) == if p in Doomed(t, cutoff, denied) then gone + {p} else gone
  {
    assert candidates[..i + 1] == candidates[..i] + [candidates[i]];
  }

  lemma AllListed(t: Tree, cutoff: int, denied: set<Path>, candidates: seq<Path>)
    requires Listing(t, candidates)
    ensures Among(t, cutoff, denied, candidates[..|candidates|]) == Doomed(t, cutoff, denied)
  {
    assert candidates[..|candidates|] == candidates;
    assert forall p :: p in Doomed(t, cutoff, denied) ==> p in candidates;
  }

  lemma Parents(t: Tree, p: Path)
    requires WellFormed(t) && p in t && |p| == 3
    ensures p[..2] in t && t[p[..2]].Dir? && p[..1] in t && t[p[..1]].Dir?
    ensures Child(p, p[..2]) && Child(p[..2], p[..1])
  {
    assert p[..|p| - 1] == p[..2] && p[..2][..|p[..2]| - 1] == p[..1];
  }

  lemma NothingDeleted(t: Tree, denied: set<Path>)
    ensures After(t, denied, {}) == t
  {
  }

  function If(b: bool, d: Path): set<Path> {
    if b then {d} else {}
  }

  lemma RemovedInTurn(t: Tree, a: set<Path>, b: set<Path>, c: set<Path>)
    ensures t - a - b - c == t - (a + b + c)
  {
  }

  lemma SameNodes(t: Tree, left: Tree, right: Tree)
    requires forall q :: q in left <==> q in right
    requires forall q :: q in left ==> q in t && left[q] == t[q]
    requires forall q :: q in right ==> q in t && right[q] == t[q]
    ensures left == right
  {
  }

  /** Unlink, then try both parents: one more entry counted as deleted. */
  lemma DeleteOne(t: Tree, denied: set<Path>, gone: set<Path>, p: Path)
    requires WellFormed(t) && Deletable(t, gone + {p}) && p !in gone
    ensures Rmdir(Rmdir(After(t, denied, gone) - {p}, denied, p[..2]), denied, p[..1]) == After(t, denied, gone + {p})
  {
    var h, u, more := p[..2], p[..1], gone + {p};
    HashRemovedWhenEmpty(t, denied, gone, p);
    UserRemovedWhenEmpty(t, denied, gone, p);
    RemovedInTurn(After(t, denied, gone), {p}, If(HashGone(t, denied, more, h), h), If(UserGone(t, denied, more, u), u));
    AfterMore(t, denied, gone, p);
  }

  lemma AfterMore(t: Tree, denied: set<Path>, gone: set<Path>, p: Path)
    requires WellFormed(t) && Deletable(t, gone + {p}) && p !in gone
    ensures var more := gone + {p};
      After(t, denied, more) == After(t, denied, gone) - ({p} + If(HashGone(t, denied, more, p[..2]), p[..2]) + If(UserGone(t, denied, more, p[..1]), p[..1]))
  {
    var more := gone + {p};
    var removed := {p} + If(HashGone(t, denied, more, p[..2]), p[..2]) + If(UserGone(t, denied, more, p[..1]), p[..1]);
    forall q ensures q in After(t, denied, more) <==> q in After(t, denied, gone) - removed {
      SurvivesOneMore(t, denied, gone, p, q);
    }
    SameNodes(t, After(t, denied, more), After(t, denied, gone) - removed);
  }

  /** Only the hash directory of `p` can become empty by deleting `p`. */
  lemma OtherHashes(t: Tree, denied: set<Path>, gone: set<Path>, p: Path, q: Path)
    requires Deletable(t, gone + {p}) && p !in gone
    ensures if q == p[..2] then !HashGone(t, denied, gone, q) else HashGone(t, denied, gone + {p}, q) <==> HashGone(t, denied, gone, q)
  {
    assert p == p[..2] + [RESULT];
    if q != p[..2] && |q| == 2 {
      assert (q + [RESULT])[..2] == q;
      assert !Child(p, q);
    }
  }

  /** Only the user directory of `p` can become empty by deleting `p`. */
  lemma OtherUsers(t: Tree, denied: set<Path>, gone: set<Path>, p: Path, q: Path)
    requires WellFormed(t) && Deletable(t, gone + {p}) && p !in gone
    ensures if q == p[..1] then !UserGone(t, denied, gone, q) else UserGone(t, denied, gone + {p}, q) <==> UserGone(t, denied, gone, q)
  {
    Parents(t, p);
    forall c ensures c == p[..2] || (HashGone(t, denied, gone + {p}, c) <==> HashGone(t, denied, gone, c)) {
      OtherHashes(t, denied, gone, p, c);
    }
    OtherHashes(t, denied, gone, p, p[..2]);
    if q != p[..1] {
      assert !Child(p[..2], q);
    }
  }

  lemma SurvivesOneMore(t: Tree, denied: set<Path>, gone: set<Path>, p: Path, q: Path)
    requires WellFormed(t) && Deletable(t, gone + {p}) && p !in gone
    ensures q in After(t, denied, gone + {p}) <==>
      && q in After(t, denied, gone) && q != p
      && !(q == p[..2] && HashGone(t, denied, gone + {p}, q)) && !(q == p[..1] && UserGone(t, denied, gone + {p}, q))
  {
    OtherHashes(t, denied, gone, p, q);
    OtherUsers(t, denied, gone, p, q);
  }

  predicate Empty(t: Tree, d: Path) {
    forall p {:trigger Child(p, d)} :: p in t ==> !Child(p, d)
  }

  lemma RmdirWhenEmpty(t: Tree, denied: set<Path>, d: Path)
    requires d in t && t[d].Dir?
    ensures Rmdir(t, denied, d) == t - If(d !in denied && Empty(t, d), d)
  {
  }

  lemma ChildOfHashStays(t: Tree, denied: set<Path>, gone: set<Path>, h: Path, q: Path)
    requires |h| == 2 && Child(q, h)
    ensures q in After(t, denied, gone) <==> q in t && q !in gone
  {
  }

  lemma HashRemovedWhenEmpty(t: Tree, denied: set<Path>, gone: set<Path>, p: Path)
    requires WellFormed(t) && Deletable(t, gone + {p}) && p !in gone
    ensures Rmdir(After(t, denied, gone) - {p}, denied, p[..2]) == After(t, denied, gone) - {p} - If(HashGone(t, denied, gone + {p}, p[..2]), p[..2])
  {
    var h := p[..2];
    var t1 := After(t, denied, gone) - {p};
    Parents(t, p);
    OtherHashes(t, denied, gone, p, h);
    assert h in t1 && t1[h].Dir?;
    forall q | Child(q, h) ensures q in t1 <==> q in t && q !in gone + {p} {
      ChildOfHashStays(t, denied, gone, h, q);
    }
    EmptyIsGone(t, denied, gone + {p}, t1, h, p);
    RmdirWhenEmpty(t1, denied, h);
  }

  lemma EmptyIsGone(t: Tree, denied: set<Path>, more: set<Path>, left: Tree, h: Path, p: Path)
    requires p in more && |p| == 3 && p[2] == RESULT && h == p[..2]
    requires forall q {:trigger Child(q, h)} :: Child(q, h) ==> (q in left <==> q in t && q !in more)
    ensures h !in denied && Empty(left, h) <==> HashGone(t, denied, more, h)
  {
    assert p == h + [RESULT];
  }

  lemma UserRemovedWhenEmpty(t: Tree, denied: set<Path>, gone: set<Path>, p: Path)
    requires WellFormed(t) && Deletable(t, gone + {p}) && p !in gone
    ensures var t2 := After(t, denied, gone) - {p} - If(HashGone(t, denied, gone + {p}, p[..2]), p[..2]);
      Rmdir(t2, denied, p[..1]) == t2 - If(UserGone(t, denied, gone + {p}, p[..1]), p[..1])
  {
    var u := p[..1];
    var t2 := After(t, denied, gone) - {p} - If(HashGone(t, denied, gone + {p}, p[..2]), p[..2]);
    Parents(t, p);
    OtherUsers(t, denied, gone, p, u);
    assert u in t2 && t2[u].Dir?;
    forall q | Child(q, u) ensures q in t2 <==> q in t && !HashGone(t, denied, gone + {p}, q) {
      ChildOfUserStays(t, denied, gone, p, q);
    }
    assert p in gone + {p};
    assert u !in denied && Empty(t2, u) <==> UserGone(t, denied, gone + {p}, u);
    RmdirWhenEmpty(t2, denied, u);
  }

  lemma ChildOfUserStays(t: Tree, denied: set<Path>, gone: set<Path>, p: Path, q: Path)
    requires WellFormed(t) && Deletable(t, gone + {p}) && p !in gone && |q| == 2
    ensures var left := After(t, denied, gone) - {p} - If(HashGone(t, denied, gone + {p}, p[..2]), p[..2]);
      q in left <==> q in t && !HashGone(t, denied, gone + {p}, q)
  {
    OtherHashes(t, denied, gone, p, q);
  }

  // ---------------------------------------------------------------- main results

  predicate OnDeletedPath(deleted: set<Path>, d: Path) {
    exists x :: x in deleted && |d| < |x| && x[..|d|] == d
  }

  lemma HashGoesExactlyWhen(t: Tree, denied: set<Path>, deleted: set<Path>, d: Path)
    requires Deletable(t, deleted) && d in t && |d| == 2
    ensures HashGone(t, denied, deleted, d) <==> d !in denied && OnDeletedPath(deleted, d) && Empty(After(t, denied, deleted), d)
  {
    assert (d + [RESULT])[..|d|] == d;
    forall x | x in deleted && x[..2] == d ensures x == d + [RESULT] {
    }
    forall p | Child(p, d) ensures p in After(t, denied, deleted) <==> p in t && p !in deleted {
    }
  }

  lemma UserGoesExactlyWhen(t: Tree, denied: set<Path>, deleted: set<Path>, d: Path)
    requires Deletable(t, deleted) && d in t && |d| == 1
    ensures UserGone(t, denied, deleted, d) <==> d !in denied && OnDeletedPath(deleted, d) && Empty(After(t, denied, deleted), d)
  {
  }

  lemma DeeperStays(t: Tree, denied: set<Path>, deleted: set<Path>, d: Path)
    requires Deletable(t, deleted) && d in t && t[d].Dir? && |d| > 2
    ensures d in After(t, denied, deleted) && !OnDeletedPath(deleted, d)
  {
  }

  /** A directory goes exactly when it lies on a deleted entry's path, is left empty, and may be
      removed; the base never goes. */
  lemma DirectoryGoesExactlyWhen(t: Tree, denied: set<Path>, deleted: set<Path>, d: Path)
    requires WellFormed(t) && Deletable(t, deleted) && d in t && t[d].Dir?
    ensures d !in After(t, denied, deleted) <==>
      d != [] && d !in denied && OnDeletedPath(deleted, d) && forall p {:trigger Child(p, d)} :: p in After(t, denied, deleted) ==> !Child(p, d)
  {
    if |d| == 2 {
      HashGoesExactlyWhen(t, denied, deleted, d);
    } else if |d| == 1 {
      UserGoesExactlyWhen(t, denied, deleted, d);
    } else if |d| > 2 {
      DeeperStays(t, denied, deleted, d);
    }
  }

  /** Everything that is not an expired entry or an emptied directory is still there, unchanged;
      in particular every other entry reads as before, and the tree is still a tree. */
  lemma PurgeKeepsTheRest(t: Tree, cutoff: int, denied: set<Path>, p: Path)
    requires WellFormed(t) && Deletable(t, Doomed(t, cutoff, denied))
    ensures var left := After(t, denied, Doomed(t, cutoff, denied));
      && WellFormed(left)
      && (p in t && t[p].File? ==>
            (p in left <==> !(|p| == 3 && p[2] == "result.json" && t[p].mtime < cutoff && p !in denied)))
      && (p in left ==> p in t && left[p] == t[p])
  {
    var gone := Doomed(t, cutoff, denied);
    var left := After(t, denied, gone);
    forall q | q in left && q != []
      ensures q[..|q| - 1] in left && left[q[..|q| - 1]].Dir?
    {
      var d := q[..|q| - 1];
      assert Child(q, d);
      assert d in t && t[d].Dir?;
      DirectoryGoesExactlyWhen(t, denied, gone, d);
    }
    if p in t && t[p].File? {
      FilesAreNotDirectories(t, denied, gone, p);
    }
  }

  lemma FilesAreNotDirectories(t: Tree, denied: set<Path>, gone: set<Path>, p: Path)
    requires WellFormed(t) && Deletable(t, gone) && p in t && t[p].File?
    ensures !HashGone(t, denied, gone, p) && !UserGone(t, denied, gone, p)
  {
    forall x | x in gone
      ensures x[..2] in t && t[x[..2]].Dir? && x[..1] in t && t[x[..1]].Dir?
    {
      Parents(t, x);
    }
    assert |p| == 2 ==> (p + [RESULT])[..2] == p;
  }

  /** A second purge with the same cutoff deletes nothing. */
  lemma PurgeIsIdempotent(t: Tree, cutoff: int, denied: set<Path>)
    requires WellFormed(t) && Deletable(t, Doomed(t, cutoff, denied))
    ensures Doomed(After(t, denied, Doomed(t, cutoff, denied)), cutoff, denied) == {}
  {
  }
}
