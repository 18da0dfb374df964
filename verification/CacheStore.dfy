/** Per-user result files on disk, keyed by (user, audio hash). */
module CacheStore {
  datatype Name = ResultFile | TempFile

  datatype Path = Path(user: nat, hash: string, name: Name)

  /** What a file holds: a payload; text that parses to something the caller cannot use as one;
      text that is not JSON (or `null`); or bytes that are not UTF-8. */
  datatype Content<+P> = Json(payload: P) | NotPayload | BadJson | BadUtf8

  /** `Unusable` is returned like a hit, and the caller raises on it. `DecodeError` escapes `get`:
      only OSError and JSONDecodeError are treated as a miss. */
  datatype Lookup<+P> = Hit(payload: P) | Unusable | Miss | InvalidHash | DecodeError

  /** Where `put` raises OSError, if it does. A failed write leaves a partial temp file. */
  datatype PutFault<+P> = NoFault | MkdirFails | WriteFails(partial: Content<P>) | RenameFails

  datatype PutOutcome = Written | BadHash | IoError

  /** What may go wrong in `delete`: `unlink` raises, which escapes, or `rmdir` does, which is
      swallowed. */
  datatype DeleteFault = NoTrouble | UnlinkDenied | RmdirDenied

  datatype DeleteOutcome = Deleted | NothingThere | MalformedHash | Denied

  predicate ValidHash(hash: string) {
    |hash| == 64 && forall c :: c in hash ==> '0' <= c <= '9' || 'a' <= c <= 'f'
  }

  function Get<P>(files: map<Path, Content<P>>, user: nat, hash: string): Lookup<P> {
    var path := Path(user, hash, ResultFile);
    if !ValidHash(hash) then InvalidHash
    else if path !in files then Miss
    else
      match files[path]
      case Json(p) => Hit(p)
      case NotPayload => Unusable
      case BadJson => Miss
      case BadUtf8 => DecodeError
  }

  /** The same when reading the file raises OSError, if it comes to that. */
  function GetOr<P>(files: map<Path, Content<P>>, user: nat, hash: string, readFails: bool): Lookup<P> {
    if readFails && ValidHash(hash) then Miss else Get(files, user, hash)
  }

  function Put<P>(files: map<Path, Content<P>>, user: nat, hash: string, payload: P, fault: PutFault<P>)
    : map<Path, Content<P>>
  {
    var temp := Path(user, hash, TempFile);
    if !ValidHash(hash) then files
    else
      match fault
      case MkdirFails => files
      case WriteFails(partial) => files[temp := partial]
      case RenameFails => files[temp := Json(payload)]
      case NoFault => files[Path(user, hash, ResultFile) := Json(payload)] - {temp}
  }

  /** Readers of any key see the old entry, or of the written key the new one. */
  lemma PutReads<P>(files: map<Path, Content<P>>, user: nat, hash: string, payload: P, fault: PutFault<P>, u: nat, h: string)
    ensures Get(Put(files, user, hash, payload, fault), u, h) ==
            if (u, h) == (user, hash) && ValidHash(hash) && fault.NoFault? then Hit(payload) else Get(files, u, h)
  {
  }

  /** `dirs`: the `<user>/<hash>` directories. */
  class Store<P> {
    var files: map<Path, Content<P>>
    var dirs: set<(nat, string)>

    ghost predicate Valid()
      reads this
    {
      forall path :: path in files ==> (path.user, path.hash) in dirs
    }

    constructor ()
      ensures Valid() && files == map[] && dirs == {}
    {
      files, dirs := map[], {};
    }

    method Read(user: nat, hash: string, readFails: bool) returns (r: Lookup<P>)
      ensures r == GetOr(files, user, hash, readFails)
      ensures r.InvalidHash? <==> !(|hash| == 64 && forall c :: c in hash ==> '0' <= c <= '9' || 'a' <= c <= 'f')
    {
      if !ValidHash(hash) {
        return InvalidHash;
      }
      var path := Path(user, hash, ResultFile);
      if path !in files {
        return Miss;
      }
      if readFails {
        return Miss;
      }
      match files[path] {
        case Json(p) => r := Hit(p);
        case NotPayload => r := Unusable;
        case BadJson => r := Miss;
        case BadUtf8 => r := DecodeError;
      }
    }

    /** Temp file, then rename: wherever it stops, readers of any key see the old entry, and
        readers of this key see the new one exactly when it reports success. */
    method Write(user: nat, hash: string, payload: P, fault: PutFault<P>) returns (r: PutOutcome)
      requires Valid()
      modifies this
      ensures Valid() && files == Put(old(files), user, hash, payload, fault)
      ensures dirs == if ValidHash(hash) && !fault.MkdirFails? then old(dirs) + {(user, hash)} else old(dirs)
      ensures r == if !ValidHash(hash) then BadHash else if fault.NoFault? then Written else IoError
      ensures forall u: nat, h: string :: Get(files, u, h) ==
                if (u, h) == (user, hash) && r == Written then Hit(payload) else Get(old(files), u, h)
      ensures ValidHash(hash) && !fault.MkdirFails? ==> (Path(user, hash, TempFile) in files <==> !fault.NoFault?)
      ensures forall path :: path !in {Path(user, hash, ResultFile), Path(user, hash, TempFile)} ==>
                (path in files <==> path in old(files)) && (path in files ==> files[path] == old(files)[path])
    {
      forall u: nat, h: string
        ensures Get(Put(files, user, hash, payload, fault), u, h) ==
                if (u, h) == (user, hash) && ValidHash(hash) && fault.NoFault? then Hit(payload) else Get(files, u, h)
      {
        PutReads(files, user, hash, payload, fault, u, h);
      }
      if !ValidHash(hash) {
        return BadHash;
      }
      if fault.MkdirFails? {
        return IoError;
      }
      dirs := dirs + {(user, hash)};
      var temp := Path(user, hash, TempFile);
      if fault.WriteFails? {
        files := files[temp := fault.partial];
        return IoError;
      }
      files := files[temp := Json(payload)];
      if fault.RenameFails? {
        return IoError;
      }
      files := files[Path(user, hash, ResultFile) := files[temp]];
      files := files - {temp};
      assert files == Put(old(files), user, hash, payload, fault);
      r := Written;
    }

    /** A missing entry is not an error. The entry's directory goes with it, best effort: exactly
        when an entry was unlinked and no temp file was left beside it. */
    method Delete(user: nat, hash: string, fault: DeleteFault) returns (r: DeleteOutcome)
      requires Valid()
      modifies this
      ensures Valid()
      ensures r == if !ValidHash(hash) then MalformedHash
                   else if Path(user, hash, ResultFile) !in old(files) then NothingThere
                   else if fault.UnlinkDenied? then Denied else Deleted
      ensures files == if r.Deleted? then old(files) - {Path(user, hash, ResultFile)} else old(files)
      ensures r.Deleted? || r.NothingThere? ==> Get(files, user, hash) == Miss
      ensures dirs == if r.Deleted? && fault.NoTrouble? && Path(user, hash, TempFile) !in old(files)
                      then old(dirs) - {(user, hash)} else old(dirs)
    {
      if !ValidHash(hash) {
        return MalformedHash;
      }
      var path := Path(user, hash, ResultFile);
      if path !in files {
        return NothingThere;
      }
      if fault.UnlinkDenied? {
        return Denied;
      }
      files := files - {path};
      if Path(user, hash, TempFile) !in files && !fault.RmdirDenied? {
        dirs := dirs - {(user, hash)};
        forall p | p in files ensures (p.user, p.hash) in dirs {
          assert p.name.ResultFile? || p.name.TempFile?;
        }
      }
      r := Deleted;
    }
  }
}
