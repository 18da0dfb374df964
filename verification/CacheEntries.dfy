/** The cache as the store reads it, over the tree as the purge walks it. */
module CacheEntries {
  import CacheHistory
  import CachePurge
  import CacheStore
  import Pipeline

  /** How a user's directory is named, and what the text of a file holds. */
  datatype Layout = Layout(dir: nat -> string, decode: string -> CacheStore.Content<Pipeline.Payload>)

  function EntryPath(l: Layout, user: nat, hash: string): CachePurge.Path {
    [l.dir(user), hash, CachePurge.RESULT]
  }

  /** The one file `get` looks at; a directory of that name is not a file. */
  function EntryFile(l: Layout, t: CachePurge.Tree, user: nat, hash: string): CacheHistory.Files {
    var path := EntryPath(l, user, hash);
    if path in t && t[path].File? then
      map[CacheStore.Path(user, hash, CacheStore.ResultFile) := l.decode(t[path].content)]
    else map[]
  }

  function GetIn(l: Layout, t: CachePurge.Tree, user: nat, hash: string): CacheStore.Lookup<Pipeline.Payload> {
    CacheStore.Get(EntryFile(l, t, user, hash), user, hash)
  }

  /** Every `get` answers from the tree what it answers from the store's files. */
  ghost predicate Shows(l: Layout, t: CachePurge.Tree, files: CacheHistory.Files) {
    forall user: nat, hash: string :: GetIn(l, t, user, hash) == CacheStore.Get(files, user, hash)
  }

  /** The store's entries at the given paths of the tree. */
  function EntriesAt(l: Layout, files: CacheHistory.Files, gone: set<CachePurge.Path>): set<CacheStore.Path> {
    set path | path in files && path.name.ResultFile? && EntryPath(l, path.user, path.hash) in gone
  }

  /** After a purge that deleted the entries `gone`, `get` misses exactly those keys and answers
      every other key as before: hits, misses, malformed hashes and failures alike. */
  lemma PurgeChangesOnlyDeleted(l: Layout, t: CachePurge.Tree, denied: set<CachePurge.Path>, gone: set<CachePurge.Path>,
                                user: nat, hash: string)
    requires CachePurge.WellFormed(t) && CachePurge.Deletable(t, gone)
    ensures GetIn(l, CachePurge.After(t, denied, gone), user, hash) ==
            if EntryPath(l, user, hash) in gone && CacheStore.ValidHash(hash) then CacheStore.Miss
            else GetIn(l, t, user, hash)
  {
  }

  /** `get` is unchanged for every key that is not expired, and misses for every key that is. */
  lemma UnexpiredReadsAsBefore(l: Layout, t: CachePurge.Tree, cutoff: int, denied: set<CachePurge.Path>, user: nat, hash: string)
    requires CachePurge.WellFormed(t) && CachePurge.Deletable(t, CachePurge.Doomed(t, cutoff, denied))
    ensures GetIn(l, CachePurge.After(t, denied, CachePurge.Doomed(t, cutoff, denied)), user, hash) ==
            (var path := [l.dir(user), hash, "result.json"];
             if path in t && t[path].mtime < cutoff && path !in denied && CacheStore.ValidHash(hash) then CacheStore.Miss
             else GetIn(l, t, user, hash))
  {
    PurgeChangesOnlyDeleted(l, t, denied, CachePurge.Doomed(t, cutoff, denied), user, hash);
  }

  lemma StoreAfterPurge(l: Layout, files: CacheHistory.Files, gone: set<CachePurge.Path>, user: nat, hash: string)
    ensures CacheStore.Get(files - EntriesAt(l, files, gone), user, hash) ==
            if EntryPath(l, user, hash) in gone && CacheStore.ValidHash(hash) then CacheStore.Miss
            else CacheStore.Get(files, user, hash)
  {
  }

  /** A purge of the tree, whole or stopped, is the purge event of the cache histories. */
  lemma PurgeIsAnEvent(l: Layout, o: CacheHistory.Oracle, t: CachePurge.Tree, denied: set<CachePurge.Path>,
                       gone: set<CachePurge.Path>, s: CacheHistory.System)
    requires CachePurge.WellFormed(t) && CachePurge.Deletable(t, gone) && Shows(l, t, s.files)
    ensures var purge := CacheHistory.Purge(EntriesAt(l, s.files, gone));
      Shows(l, CachePurge.After(t, denied, gone), CacheHistory.Apply(o, s, purge).files)
  {
    var left := s.files - EntriesAt(l, s.files, gone);
    forall user: nat, hash: string
      ensures GetIn(l, CachePurge.After(t, denied, gone), user, hash) == CacheStore.Get(left, user, hash)
    {
      PurgeChangesOnlyDeleted(l, t, denied, gone, user, hash);
      StoreAfterPurge(l, s.files, gone, user, hash);
    }
  }
}
