/** The per-user tools: list, get, delete, request an upload, look an upload up. Each runs in a
    session armed with its caller, over one table shared by all users. */
module UserTools {
  import opened Basics
  import opened Scoping
  import opened Sessions

  datatype Sort = CreatedDesc | CreatedAsc | DurationDesc

  datatype Settings = Settings(maxAudioBytes: int, maxImageBytes: int, ttl: int, grace: int, imageMimes: set<string>)

  /** Ids arrive as text: None is text that is not a UUID. `newId` and `now` come from outside. */
  datatype Command =
    | List(limit: int, offset: int, sort: Option<Sort>)
    | Get(tid: Option<nat>)
    | Delete(tid: Option<nat>, now: int)
    | RequestUpload(kind: string, size: int, mime: Option<string>, target: Option<Option<nat>>, newId: nat, now: int)
    | LoadUpload(uid: Option<nat>, now: int)

  datatype Response =
    | Failed(code: string)
    | Page(items: seq<Row>, total: nat, limit: nat, offset: nat)
    | Full(row: Row, images: seq<Row>)
    | Deleted
    | Issued(uploadId: nat, expiresAt: int)
    | Found(row: Row)

  const INVALID := "INVALID_PARAMETER"
  const TOO_LARGE := "FILE_TOO_LARGE"
  const NO_TRANSCRIPTION := "TRANSCRIPTION_NOT_FOUND"
  const NO_UPLOAD := "UPLOAD_SESSION_NOT_FOUND"
  const CONSUMED := "UPLOAD_SESSION_ALREADY_CONSUMED"
  const INTERNAL := "INTERNAL_ERROR"
  const LIST_LIMIT_MAX := 100

  // ---------------------------------------------------------------- statements

  function SelectWhere(e: Entity, where: Row -> bool): Statement {
    Statement(Select, Some(e), where, (r: Row) => r, false)
  }

  function SoftDelete(e: Entity, where: Row -> bool, now: int): Statement {
    Statement(Update, Some(e), where, (r: Row) => r.(deletedAt := Some(now)), false)
  }

  function LiveTranscription(tid: nat): Row -> bool {
    (r: Row) => r.id == tid && r.deletedAt.None?
  }

  function LiveImagesOf(tid: nat): Row -> bool {
    (r: Row) => r.parent == Some(tid) && r.deletedAt.None?
  }

  function Live(): Row -> bool {
    (r: Row) => r.deletedAt.None?
  }

  function AudioUpload(uid: nat): Row -> bool {
    (r: Row) => r.id == uid && r.kind == "audio"
  }

  /** A statement in a session armed with `u`: rows touched, table after. */
  function RunAs(u: nat, db: seq<Row>, s: Statement): (seq<Row>, seq<Row>) {
    match Execute(Armed(u), db, s)
    case Ok(v) => v
    case Err(_) => ([], db)
  }

  function Read(u: nat, db: seq<Row>, s: Statement): seq<Row> {
    RunAs(u, db, s).0
  }

  // ---------------------------------------------------------------- list

  function Before(sort: Sort, a: Row, b: Row): bool {
    match sort
    case CreatedDesc => a.createdAt >= b.createdAt
    case CreatedAsc => a.createdAt <= b.createdAt
    case DurationDesc => a.duration >= b.duration
  }

  function InsertRow(sort: Sort, sorted: seq<Row>, r: Row): (out: seq<Row>)
    ensures multiset(out) == multiset(sorted) + multiset{r}
  {
    if sorted == [] then [r]
    else if Before(sort, sorted[0], r) then
      assert sorted == [sorted[0]] + sorted[1..];
      [sorted[0]] + InsertRow(sort, sorted[1..], r)
    else [r] + sorted
  }

  /** ORDER BY, ties in table order. */
  function OrderBy(sort: Sort, rows: seq<Row>): (out: seq<Row>)
    ensures multiset(out) == multiset(rows) && |out| == |rows|
  {
    if rows == [] then []
    else
      var last := |rows| - 1;
      assert rows == rows[..last] + [rows[last]];
      var out := InsertRow(sort, OrderBy(sort, rows[..last]), rows[last]);
      assert |out| == |multiset(out)|;
      out
  }

  /** In bounds, in the grace window up to twice the maximum (clamped), or refused. */
  function ClampOrRaise(value: int, lo: int, hi: int): Option<int> {
    if value < lo then None else if value <= hi then Some(value) else if value <= hi * 2 then Some(hi) else None
  }

  function Slice(rows: seq<Row>, offset: nat, limit: nat): seq<Row> {
    if offset >= |rows| then [] else if limit <= |rows| - offset then rows[offset..offset + limit] else rows[offset..]
  }

  function LiveTranscriptions(u: nat, db: seq<Row>): seq<Row> {
    Read(u, db, SelectWhere(Transcriptions, Live()))
  }

  /** One page of an ordered listing of `total` rows. */
  function PageOf(ordered: seq<Row>, total: nat, limit: int, offset: int): Response {
    var clamped := ClampOrRaise(limit, 1, LIST_LIMIT_MAX);
    if clamped.None? || offset < 0 then Failed(INVALID)
    else Page(Slice(ordered, offset, clamped.value), total, clamped.value, offset)
  }

  function ListMine(u: nat, db: seq<Row>, limit: int, offset: int, sort: Option<Sort>): Response {
    if sort.None? then Failed(INVALID)
    else
      var live := LiveTranscriptions(u, db);
      PageOf(OrderBy(sort.value, live), |live|, limit, offset)
  }

  // ---------------------------------------------------------------- lookups

  /** `scalar_one_or_none` on a hit list: one row, a miss, or more than one row, which raises. */
  function OneOr(rows: seq<Row>, miss: string): Result<Row, string> {
    if rows == [] then Err(miss) else if |rows| == 1 then Ok(rows[0]) else Err(INTERNAL)
  }

  /** Another user's, unknown and soft-deleted ids are one and the same miss. */
  function LookupOwned(u: nat, db: seq<Row>, tid: nat): Result<Row, string> {
    OneOr(Read(u, db, SelectWhere(Transcriptions, LiveTranscription(tid))), NO_TRANSCRIPTION)
  }

  function GetOne(u: nat, db: seq<Row>, tid: Option<nat>): Response {
    if tid.None? then Failed(INVALID)
    else
      match LookupOwned(u, db, tid.value)
      case Err(code) => Failed(code)
      case Ok(row) => Full(row, Read(u, db, SelectWhere(Images, LiveImagesOf(tid.value))))
  }

  function LoadUploadRow(u: nat, db: seq<Row>, uid: Option<nat>, grace: int, now: int): Response {
    if uid.None? then Failed(INVALID)
    else
      match OneOr(Read(u, db, SelectWhere(UploadSessions, AudioUpload(uid.value))), NO_UPLOAD)
      case Err(code) => Failed(code)
      case Ok(row) =>
        if row.status.Consumed? then Failed(CONSUMED)
        else if !row.status.Uploaded? || now > row.expiresAt + grace then Failed(NO_UPLOAD)
        else Found(row)
  }

  // ---------------------------------------------------------------- writes

  function DeleteOne(u: nat, db: seq<Row>, tid: Option<nat>, now: int): (seq<Row>, Response) {
    if tid.None? then (db, Failed(INVALID))
    else
      var (hit, after) := RunAs(u, db, SoftDelete(Transcriptions, LiveTranscription(tid.value), now));
      if hit == [] then (db, Failed(NO_TRANSCRIPTION))
      else (RunAs(u, after, SoftDelete(Images, LiveImagesOf(tid.value), now)).1, Deleted)
  }

  /** The checks that need no database, in their order. */
  function RefuseUpload(c: Settings, kind: string, size: int, mime: Option<string>, target: Option<Option<nat>>)
    : Option<string>
  {
    if kind != "audio" && kind != "image" then Some(INVALID)
    else if size <= 0 then Some(INVALID)
    else if kind == "image" && (mime.None? || mime.value !in c.imageMimes || target.None?) then Some(INVALID)
    else if size > (if kind == "audio" then c.maxAudioBytes else c.maxImageBytes) then Some(TOO_LARGE)
    else None
  }

  function UploadRow(u: nat, kind: string, parent: Option<nat>, newId: nat, now: int, ttl: int): Row {
    Row(UploadSessions, newId, u, parent, None, now, 0, kind, Requested, now + ttl, "")
  }

  /** What the request is refused for, or the transcription the upload belongs to. */
  function Admit(c: Settings, u: nat, db: seq<Row>, kind: string, size: int, mime: Option<string>, target: Option<Option<nat>>)
    : Result<Option<nat>, string>
  {
    var refused := RefuseUpload(c, kind, size, mime, target);
    if refused.Some? then Err(refused.value)
    else if kind == "audio" then Ok(None)
    else if target.value.None? then Err(INVALID)
    else
      match LookupOwned(u, db, target.value.value)
      case Err(code) => Err(code)
      case Ok(_) => Ok(target.value)
  }

  function RequestUrl(c: Settings, u: nat, db: seq<Row>, kind: string, size: int, mime: Option<string>,
                      target: Option<Option<nat>>, newId: nat, now: int): (seq<Row>, Response)
  {
    match Admit(c, u, db, kind, size, mime, target)
    case Err(code) => (db, Failed(code))
    case Ok(parent) => (db + [UploadRow(u, kind, parent, newId, now, c.ttl)], Issued(newId, now + c.ttl))
  }

  function Exec(c: Settings, u: nat, db: seq<Row>, cmd: Command): (seq<Row>, Response) {
    match cmd
    case List(limit, offset, sort) => (db, ListMine(u, db, limit, offset, sort))
    case Get(tid) => (db, GetOne(u, db, tid))
    case Delete(tid, now) => DeleteOne(u, db, tid, now)
    case RequestUpload(kind, size, mime, target, newId, now) => RequestUrl(c, u, db, kind, size, mime, target, newId, now)
    case LoadUpload(uid, now) => (db, LoadUploadRow(u, db, uid, c.grace, now))
  }

  // ---------------------------------------------------------------- the writing handlers

  /** Two updates in one scoped session; no row hit rolls back. */
  method DeleteTranscription(u: nat, db: seq<Row>, tid: Option<nat>, now: int)
    returns (after: seq<Row>, response: Response)
    ensures (after, response) == DeleteOne(u, db, tid, now)
  {
    if tid.None? {
      return db, Failed(INVALID);
    }
    var session := new Session.Scoped(u, db);
    var hit := session.Run(SoftDelete(Transcriptions, LiveTranscription(tid.value), now));
    if hit.Err? || hit.value == [] {
      session.Close(true, db);
      return session.rows, Failed(NO_TRANSCRIPTION);
    }
    var _ := session.Run(SoftDelete(Images, LiveImagesOf(tid.value), now));
    session.Close(false, db);
    return session.rows, Deleted;
  }

  /** Validation, then in a scoped session the ownership check and the insert. */
  method RequestUploadUrl(c: Settings, u: nat, db: seq<Row>, kind: string, size: int, mime: Option<string>,
                          target: Option<Option<nat>>, newId: nat, now: int)
    returns (after: seq<Row>, response: Response)
    ensures (after, response) == RequestUrl(c, u, db, kind, size, mime, target, newId, now)
  {
    if kind != "audio" && kind != "image" {
      return db, Failed(INVALID);
    }
    if size <= 0 {
      return db, Failed(INVALID);
    }
    var maxBytes := c.maxAudioBytes;
    if kind == "image" {
      maxBytes := c.maxImageBytes;
      if mime.None? || mime.value !in c.imageMimes || target.None? {
        return db, Failed(INVALID);
      }
    }
    if size > maxBytes {
      return db, Failed(TOO_LARGE);
    }
    var session := new Session.Scoped(u, db);
    var parent: Option<nat> := None;
    if kind == "image" {
      if target.value.None? {
        session.Close(true, db);
        return session.rows, Failed(INVALID);
      }
      parent := target.value;
      var rows := session.Run(SelectWhere(Transcriptions, LiveTranscription(parent.value)));
      var owned := if rows.Ok? then OneOr(rows.value, NO_TRANSCRIPTION) else Err(INTERNAL);
      if owned.Err? {
        session.Close(true, db);
        return session.rows, Failed(owned.error);
      }
    }
    session.Add(UploadRow(u, kind, parent, newId, now, c.ttl));
    session.Close(false, db);
    return session.rows, Issued(newId, now + c.ttl);
  }

  // ---------------------------------------------------------------- one command

  /** As all the tools' updates do. */
  ghost predicate KeepsOwner(s: Statement) {
    forall r :: s.values(r).owner == r.owner
  }

  lemma RunAsOwn(u: nat, db: seq<Row>, s: Statement, v: nat)
    requires !s.verb.Insert? && s.entity.Some? && Scoped(s.entity.value) && !s.bypass && KeepsOwner(s)
    ensures RunAs(u, Owned(db, u), s) == (RunAs(u, db, s).0, Owned(RunAs(u, db, s).1, u))
    ensures v != u ==> Owned(RunAs(u, db, s).1, v) == Owned(db, v)
    ensures forall r :: r in RunAs(u, db, s).0 <==> r in db && r.owner == u && Hits(s, r)
  {
    ArmedSeesOnlyOwn(db, s, u);
    ListenerFailsClosed(Armed(u), db, s, v);
  }

  lemma ReadIsLocal(u: nat, db: seq<Row>, e: Entity, where: Row -> bool)
    requires Scoped(e)
    ensures Read(u, Owned(db, u), SelectWhere(e, where)) == Read(u, db, SelectWhere(e, where))
  {
  }

  lemma DeleteIsLocal(u: nat, db: seq<Row>, tid: Option<nat>, now: int, v: nat)
    ensures var (after, response) := DeleteOne(u, db, tid, now);
      && DeleteOne(u, Owned(db, u), tid, now) == (Owned(after, u), response)
      && (v != u ==> Owned(after, v) == Owned(db, v))
  {
    if tid.Some? {
      var first := SoftDelete(Transcriptions, LiveTranscription(tid.value), now);
      RunAsOwn(u, db, first, v);
      RunAsOwn(u, RunAs(u, db, first).1, SoftDelete(Images, LiveImagesOf(tid.value), now), v);
    }
  }

  lemma AdmitIsLocal(c: Settings, u: nat, db: seq<Row>, kind: string, size: int, mime: Option<string>, target: Option<Option<nat>>)
    ensures Admit(c, u, Owned(db, u), kind, size, mime, target) == Admit(c, u, db, kind, size, mime, target)
  {
    if target.Some? && target.value.Some? {
      ReadIsLocal(u, db, Transcriptions, LiveTranscription(target.value.value));
    }
  }

  lemma RequestIsLocal(c: Settings, u: nat, db: seq<Row>, kind: string, size: int, mime: Option<string>,
                       target: Option<Option<nat>>, newId: nat, now: int, v: nat)
    ensures var (after, response) := RequestUrl(c, u, db, kind, size, mime, target, newId, now);
      && RequestUrl(c, u, Owned(db, u), kind, size, mime, target, newId, now) == (Owned(after, u), response)
      && (v != u ==> Owned(after, v) == Owned(db, v))
  {
    AdmitIsLocal(c, u, db, kind, size, mime, target);
    var admitted := Admit(c, u, db, kind, size, mime, target);
    if admitted.Ok? {
      OwnedAppend(db, UploadRow(u, kind, admitted.value, newId, now, c.ttl), u);
      OwnedAppend(db, UploadRow(u, kind, admitted.value, newId, now, c.ttl), v);
    }
  }

  /** Only the caller's rows matter to a command, and only the caller's rows change. */
  lemma CommandIsLocal(c: Settings, u: nat, db: seq<Row>, cmd: Command, v: nat)
    ensures var (after, response) := Exec(c, u, db, cmd);
      && Exec(c, u, Owned(db, u), cmd) == (Owned(after, u), response)
      && (v != u ==> Owned(after, v) == Owned(db, v))
  {
    match cmd
    case List(limit, offset, sort) => ReadIsLocal(u, db, Transcriptions, Live());
    case Get(tid) =>
      if tid.Some? {
        ReadIsLocal(u, db, Transcriptions, LiveTranscription(tid.value));
        ReadIsLocal(u, db, Images, LiveImagesOf(tid.value));
      }
    case Delete(tid, now) => DeleteIsLocal(u, db, tid, now, v);
    case RequestUpload(kind, size, mime, target, newId, now) =>
      RequestIsLocal(c, u, db, kind, size, mime, target, newId, now, v);
    case LoadUpload(uid, now) =>
      if uid.Some? {
        ReadIsLocal(u, db, UploadSessions, AudioUpload(uid.value));
      }
  }

  // ---------------------------------------------------------------- whole histories

  datatype Call = Call(user: nat, cmd: Command)

  function Play(c: Settings, db: seq<Row>, calls: seq<Call>): seq<Row>
    decreases calls
  {
    if calls == [] then db else Play(c, Exec(c, calls[0].user, db, calls[0].cmd).0, calls[1..])
  }

  /** The responses user `u` receives, in order. */
  function Seen(c: Settings, db: seq<Row>, calls: seq<Call>, u: nat): seq<Response>
    decreases calls
  {
    if calls == [] then []
    else
      var (after, response) := Exec(c, calls[0].user, db, calls[0].cmd);
      if calls[0].user == u then [response] + Seen(c, after, calls[1..], u) else Seen(c, after, calls[1..], u)
  }

  function CallsOf(calls: seq<Call>, u: nat): seq<Call> {
    if calls == [] then []
    else if calls[0].user == u then [calls[0]] + CallsOf(calls[1..], u)
    else CallsOf(calls[1..], u)
  }

  /** Every user lives alone: in any interleaving of everyone's calls over the shared table, `u`
      gets the responses, and ends with the rows, of running only `u`'s calls on `u`'s rows. */
  lemma {:induction false} EveryUserLivesAlone(c: Settings, db: seq<Row>, calls: seq<Call>, u: nat)
    ensures Seen(c, db, calls, u) == Seen(c, Owned(db, u), CallsOf(calls, u), u)
    ensures Owned(Play(c, db, calls), u) == Play(c, Owned(db, u), CallsOf(calls, u))
    decreases calls
  {
    if calls != [] {
      var after := Exec(c, calls[0].user, db, calls[0].cmd).0;
      CommandIsLocal(c, calls[0].user, db, calls[0].cmd, u);
      EveryUserLivesAlone(c, after, calls[1..], u);
      if calls[0].user == u {
        assert CallsOf(calls, u)[1..] == CallsOf(calls[1..], u);
      }
    }
  }

  /** Two worlds that agree on `u`'s rows and calls, whatever else differs, look the same to
      `u` and leave `u` the same rows. */
  lemma NonInterference(c: Settings, db1: seq<Row>, db2: seq<Row>, calls1: seq<Call>, calls2: seq<Call>, u: nat)
    requires Owned(db1, u) == Owned(db2, u) && CallsOf(calls1, u) == CallsOf(calls2, u)
    ensures Seen(c, db1, calls1, u) == Seen(c, db2, calls2, u)
    ensures Owned(Play(c, db1, calls1), u) == Owned(Play(c, db2, calls2), u)
  {
    EveryUserLivesAlone(c, db1, calls1, u);
    EveryUserLivesAlone(c, db2, calls2, u);
  }

  // ---------------------------------------------------------------- list

  predicate Ordered(sort: Sort, rows: seq<Row>) {
    forall i, j :: 0 <= i < j < |rows| ==> Before(sort, rows[i], rows[j])
  }

  lemma {:induction false} InsertKeepsOrder(sort: Sort, sorted: seq<Row>, r: Row)
    requires Ordered(sort, sorted)
    ensures Ordered(sort, InsertRow(sort, sorted, r))
    ensures forall x :: x in InsertRow(sort, sorted, r) <==> x in sorted || x == r
  {
    if sorted == [] {
    } else if Before(sort, sorted[0], r) {
      InsertKeepsOrder(sort, sorted[1..], r);
      var tail := InsertRow(sort, sorted[1..], r);
      assert forall x :: x in sorted <==> x == sorted[0] || x in sorted[1..];
      assert forall x :: x in tail ==> Before(sort, sorted[0], x);
    }
  }

  lemma {:induction false} OrderByOrders(sort: Sort, rows: seq<Row>)
    ensures Ordered(sort, OrderBy(sort, rows))
  {
    if rows != [] {
      OrderByOrders(sort, rows[..|rows| - 1]);
      InsertKeepsOrder(sort, OrderBy(sort, rows[..|rows| - 1]), rows[|rows| - 1]);
    }
  }

  lemma LiveRowsAreOwn(u: nat, db: seq<Row>, r: Row)
    ensures r in LiveTranscriptions(u, db) <==>
              r in db && r.owner == u && r.entity == Transcriptions && r.deletedAt.None?
  {
    RunAsOwn(u, db, SelectWhere(Transcriptions, Live()), u);
  }

  /** What a client collects that asks for page after page until it has seen the total. */
  function Browse(ordered: seq<Row>, limit: int, offset: nat): seq<Row>
    decreases |ordered| - offset
  {
    match PageOf(ordered, |ordered|, limit, offset)
    case Page(items, total, step, _) =>
      if offset + step >= total then items else items + Browse(ordered, limit, offset + step)
    case _ => []
  }

  /** A listing is a page exactly when the limit is 1 to 200 and the offset is not negative. */
  predicate Listable(limit: int, offset: int) {
    1 <= limit <= 200 && offset >= 0
  }

  function Most(limit: int): nat
    requires 1 <= limit
  {
    if limit <= 100 then limit else 100
  }

  lemma BrowseStep(ordered: seq<Row>, limit: int, offset: nat)
    requires Listable(limit, offset)
    ensures Browse(ordered, limit, offset) ==
            if offset + Most(limit) >= |ordered| then Slice(ordered, offset, Most(limit))
            else Slice(ordered, offset, Most(limit)) + Browse(ordered, limit, offset + Most(limit))
  {
  }

  lemma SliceThenRest(ordered: seq<Row>, offset: nat, n: nat)
    ensures offset + n < |ordered| ==> Slice(ordered, offset, n) + ordered[offset + n..] == ordered[offset..]
    ensures offset <= |ordered| <= offset + n ==> Slice(ordered, offset, n) == ordered[offset..]
  {
  }

  lemma {:induction false} BrowseIsTail(ordered: seq<Row>, limit: int, offset: nat)
    requires Listable(limit, offset)
    ensures Browse(ordered, limit, offset) == if offset <= |ordered| then ordered[offset..] else []
    decreases |ordered| - offset
  {
    BrowseStep(ordered, limit, offset);
    SliceThenRest(ordered, offset, Most(limit));
    if offset + Most(limit) < |ordered| {
      BrowseIsTail(ordered, limit, offset + Most(limit));
    }
  }

  lemma OrderedLiveRows(u: nat, db: seq<Row>, sort: Sort, r: Row)
    ensures r in OrderBy(sort, LiveTranscriptions(u, db)) <==>
              r in db && r.owner == u && r.entity == Transcriptions && r.deletedAt.None?
  {
    var live := LiveTranscriptions(u, db);
    LiveRowsAreOwn(u, db, r);
    assert r in OrderBy(sort, live) <==> r in multiset(OrderBy(sort, live));
  }

  /** The page of a list of rows: from its offset, at most its limit long, with its total. */
  predicate IsPage(all: seq<Row>, limit: int, offset: int, answer: Response)
    requires Listable(limit, offset)
  {
    var most := Most(limit);
    var end := if offset + most <= |all| then offset + most else |all|;
    answer == Page(if offset <= |all| then all[offset..end] else [], |all|, most, offset)
  }

  lemma PageIsPage(all: seq<Row>, limit: int, offset: int)
    requires Listable(limit, offset)
    ensures IsPage(all, limit, offset, PageOf(all, |all|, limit, offset))
  {
  }

  lemma OrderReads(sort: Sort, all: seq<Row>, i: nat, j: nat)
    requires Ordered(sort, all) && i < j < |all|
    ensures match sort
      case CreatedDesc => all[i].createdAt >= all[j].createdAt
      case CreatedAsc => all[i].createdAt <= all[j].createdAt
      case DurationDesc => all[i].duration >= all[j].duration
  {
  }

  /** However many rows there are and whatever page size is asked for, clamped or not: every page is
      a page of one list, which page after page gives whole; anything else is refused. */
  lemma EveryPageIsOfOneList(c: Settings, u: nat, db: seq<Row>, limit: int, offset: int, sort: Option<Sort>)
    ensures var answer := Exec(c, u, db, List(limit, offset, sort));
      answer.0 == db && if sort.None? || !Listable(limit, offset) then answer.1 == Failed(INVALID)
      else
        var all := OrderBy(sort.value, LiveTranscriptions(u, db));
        IsPage(all, limit, offset, answer.1) && Browse(all, limit, 0) == all
  {
    if sort.Some? && Listable(limit, offset) {
      PageIsPage(OrderBy(sort.value, LiveTranscriptions(u, db)), limit, offset);
      BrowseIsTail(OrderBy(sort.value, LiveTranscriptions(u, db)), limit, 0);
    }
  }

  /** That list is exactly the caller's live transcriptions, each once, newest, oldest or longest
      first as asked. */
  lemma PagesListEverything(u: nat, db: seq<Row>, sort: Sort, i: nat, j: nat)
    ensures var all := OrderBy(sort, LiveTranscriptions(u, db));
      && multiset(all) == multiset(LiveTranscriptions(u, db))
      && (forall r :: r in all <==> r in db && r.owner == u && r.entity == Transcriptions && r.deletedAt.None?)
      && (i < j < |all| ==>
            match sort
            case CreatedDesc => all[i].createdAt >= all[j].createdAt
            case CreatedAsc => all[i].createdAt <= all[j].createdAt
            case DurationDesc => all[i].duration >= all[j].duration)
  {
    var all := OrderBy(sort, LiveTranscriptions(u, db));
    OrderByOrders(sort, LiveTranscriptions(u, db));
    forall r ensures r in all <==> r in db && r.owner == u && r.entity == Transcriptions && r.deletedAt.None? {
      OrderedLiveRows(u, db, sort, r);
    }
    if i < j < |all| {
      OrderReads(sort, all, i, j);
    }
  }

  // ---------------------------------------------------------------- misses

  /** Get and delete answer not-found exactly when the caller owns no live row with that id:
      foreign, unknown and soft-deleted ids cannot be told apart. */
  lemma MissExactlyWhen(u: nat, db: seq<Row>, tid: nat, now: int)
    ensures var missing := forall r :: r in db ==>
        !(r.entity == Transcriptions && r.id == tid && r.owner == u && r.deletedAt.None?);
      && (GetOne(u, db, Some(tid)) == Failed(NO_TRANSCRIPTION) <==> missing)
      && (DeleteOne(u, db, Some(tid), now) == (db, Failed(NO_TRANSCRIPTION)) <==> missing)
  {
    var select := SelectWhere(Transcriptions, LiveTranscription(tid));
    var remove := SoftDelete(Transcriptions, LiveTranscription(tid), now);
    RunAsOwn(u, db, select, u);
    RunAsOwn(u, db, remove, u);
    var found, hit := RunAs(u, db, select).0, RunAs(u, db, remove).0;
    assert found != [] ==> found[0] in found;
    assert hit != [] ==> hit[0] in hit;
    assert forall r :: r in found <==> r in hit;
  }

  // ---------------------------------------------------------------- one row or none

  function OwnLive(u: nat, tid: nat): Row -> bool {
    (r: Row) => r.entity == Transcriptions && r.owner == u && r.id == tid && r.deletedAt.None?
  }

  function OwnLiveImage(u: nat, tid: nat): Row -> bool {
    (r: Row) => r.entity == Images && r.owner == u && r.parent == Some(tid) && r.deletedAt.None?
  }

  function OwnAudioUpload(u: nat, uid: nat): Row -> bool {
    (r: Row) => r.entity == UploadSessions && r.owner == u && r.id == uid && r.kind == "audio"
  }

  predicate OnlyAt(db: seq<Row>, i: nat, mine: Row -> bool) {
    i < |db| && mine(db[i]) && forall j :: 0 <= j < |db| && j != i ==> !mine(db[j])
  }

  predicate Nowhere(db: seq<Row>, mine: Row -> bool) {
    forall j :: 0 <= j < |db| ==> !mine(db[j])
  }

  predicate Twice(db: seq<Row>, i: nat, j: nat, mine: Row -> bool) {
    i < j < |db| && mine(db[i]) && mine(db[j])
  }

  lemma {:induction false} NoneMatch(db: seq<Row>, s: Statement)
    requires forall j :: 0 <= j < |db| ==> !Hits(s, db[j])
    ensures Matching(db, s) == []
  {
    if db != [] {
      NoneMatch(db[1..], s);
    }
  }

  lemma {:induction false} SomeMatch(db: seq<Row>, s: Statement, i: nat)
    requires i < |db| && Hits(s, db[i])
    ensures |Matching(db, s)| >= 1
  {
    if i > 0 {
      SomeMatch(db[1..], s, i - 1);
    }
  }

  lemma {:induction false} OneMatches(db: seq<Row>, s: Statement, i: nat)
    requires i < |db| && Hits(s, db[i]) && forall j :: 0 <= j < |db| && j != i ==> !Hits(s, db[j])
    ensures Matching(db, s) == [db[i]]
  {
    if i == 0 {
      NoneMatch(db[1..], s);
    } else {
      OneMatches(db[1..], s, i - 1);
    }
  }

  lemma {:induction false} TwoMatch(db: seq<Row>, s: Statement, i: nat, j: nat)
    requires i < j < |db| && Hits(s, db[i]) && Hits(s, db[j])
    ensures |Matching(db, s)| >= 2
  {
    if i == 0 {
      SomeMatch(db[1..], s, j - 1);
    } else {
      TwoMatch(db[1..], s, i - 1, j - 1);
    }
  }

  /** What `scalar_one_or_none` sees of a scoped statement: no own row, the only one, or more. */
  lemma OneOrSees(u: nat, db: seq<Row>, e: Entity, where: Row -> bool, mine: Row -> bool, i: nat, j: nat, miss: string)
    requires Scoped(e) && forall r :: mine(r) <==> r.entity == e && r.owner == u && where(r)
    ensures var seen := OneOr(Read(u, db, SelectWhere(e, where)), miss);
      && (Nowhere(db, mine) ==> seen == Err(miss))
      && (OnlyAt(db, i, mine) ==> seen == Ok(db[i]))
      && (Twice(db, i, j, mine) ==> seen == Err(INTERNAL))
  {
    var s := OnOrmExecute(Armed(u), SelectWhere(e, where)).value;
    assert Read(u, db, SelectWhere(e, where)) == Matching(db, s);
    assert forall r :: Hits(s, r) <==> mine(r);
    if Nowhere(db, mine) {
      NoneMatch(db, s);
    }
    if OnlyAt(db, i, mine) {
      OneMatches(db, s, i);
    }
    if Twice(db, i, j, mine) {
      TwoMatch(db, s, i, j);
    }
  }

  /** The caller's audio uploads with that id: none is not-found, more than one an internal error;
      the only one is consumed, or found when received and in time, or else not-found. */
  lemma LoadUploadAnswers(c: Settings, u: nat, db: seq<Row>, uid: nat, now: int, i: nat, j: nat)
    ensures var (after, answer) := Exec(c, u, db, LoadUpload(Some(uid), now));
      && after == db
      && (Nowhere(db, OwnAudioUpload(u, uid)) ==> answer == Failed(NO_UPLOAD))
      && (OnlyAt(db, i, OwnAudioUpload(u, uid)) ==>
            answer == if db[i].status.Consumed? then Failed(CONSUMED)
                      else if db[i].status.Uploaded? && now <= db[i].expiresAt + c.grace then Found(db[i])
                      else Failed(NO_UPLOAD))
      && (Twice(db, i, j, OwnAudioUpload(u, uid)) ==> answer == Failed(INTERNAL))
    ensures Exec(c, u, db, LoadUpload(None, now)) == (db, Failed(INVALID))
  {
    OneOrSees(u, db, UploadSessions, AudioUpload(uid), OwnAudioUpload(u, uid), i, j, NO_UPLOAD);
  }

  /** The caller's live transcriptions with that id: none is not-found, more than one an internal
      error; the only one is answered with exactly its own live images. */
  lemma GetAnswers(c: Settings, u: nat, db: seq<Row>, tid: nat, i: nat, j: nat)
    ensures var (after, answer) := Exec(c, u, db, Get(Some(tid)));
      && after == db
      && (Nowhere(db, OwnLive(u, tid)) ==> answer == Failed(NO_TRANSCRIPTION))
      && (OnlyAt(db, i, OwnLive(u, tid)) ==>
            answer.Full? && answer.row == db[i] && forall r :: r in answer.images <==> r in db && OwnLiveImage(u, tid)(r))
      && (Twice(db, i, j, OwnLive(u, tid)) ==> answer == Failed(INTERNAL))
    ensures Exec(c, u, db, Get(None)) == (db, Failed(INVALID))
  {
    OneOrSees(u, db, Transcriptions, LiveTranscription(tid), OwnLive(u, tid), i, j, NO_TRANSCRIPTION);
    RunAsOwn(u, db, SelectWhere(Images, LiveImagesOf(tid)), u);
  }

  /** Which uploads are issued: for what is refused first, and when; an image only for the caller's
      only live transcription with that id. An issued one adds exactly its row. */
  lemma RequestUploadAnswers(c: Settings, u: nat, db: seq<Row>, kind: string, size: int, mime: Option<string>,
                             target: Option<Option<nat>>, newId: nat, now: int, i: nat, j: nat)
    ensures var answer := Exec(c, u, db, RequestUpload(kind, size, mime, target, newId, now));
      var image := kind == "image";
      var wellFormed := (kind == "audio" || image) && size > 0
                        && (image ==> mime.Some? && mime.value in c.imageMimes && target.Some?);
      var most := if image then c.maxImageBytes else c.maxAudioBytes;
      var parent := if image && target.Some? then target.value else None;
      var issued := (db + [Row(UploadSessions, newId, u, parent, None, now, 0, kind, Requested, now + c.ttl, "")],
                     Issued(newId, now + c.ttl));
      if !wellFormed then answer == (db, Failed(INVALID))
      else if size > most then answer == (db, Failed(TOO_LARGE))
      else if !image then answer == issued
      else if parent.None? then answer == (db, Failed(INVALID))
      else
        && (Nowhere(db, OwnLive(u, parent.value)) ==> answer == (db, Failed(NO_TRANSCRIPTION)))
        && (OnlyAt(db, i, OwnLive(u, parent.value)) ==> answer == issued)
        && (Twice(db, i, j, OwnLive(u, parent.value)) ==> answer == (db, Failed(INTERNAL)))
  {
    if target.Some? && target.value.Some? {
      var tid := target.value.value;
      OneOrSees(u, db, Transcriptions, LiveTranscription(tid), OwnLive(u, tid), i, j, NO_TRANSCRIPTION);
    }
  }

  // ---------------------------------------------------------------- delete

  lemma {:induction false} SoftDeletedIsGone(db: seq<Row>, s: Statement, live: Statement)
    requires live.entity == s.entity
    requires forall r :: !(live.where(s.values(r)) && s.where(r)) && s.values(r).entity == r.entity
    requires forall r :: live.where(r) ==> s.where(r)
    ensures Matching(Updated(db, s), live) == []
  {
    if db != [] {
      SoftDeletedIsGone(db[1..], s, live);
      assert Updated(db, s)[1..] == Updated(db[1..], s);
    }
  }

  lemma {:induction false} OtherEntityUnchanged(db: seq<Row>, s: Statement, other: Statement)
    requires s.entity.Some? && other.entity.Some? && s.entity != other.entity
    requires forall r :: s.values(r).entity == r.entity
    ensures Matching(Updated(db, s), other) == Matching(db, other)
  {
    if db != [] {
      OtherEntityUnchanged(db[1..], s, other);
      assert Updated(db, s)[1..] == Updated(db[1..], s);
    }
  }

  lemma SoftDeleteAt(u: nat, db: seq<Row>, e: Entity, where: Row -> bool, now: int, i: nat)
    requires Scoped(e) && i < |db|
    ensures var after := RunAs(u, db, SoftDelete(e, where, now)).1;
      && |after| == |db|
      && after[i] == if db[i].entity == e && db[i].owner == u && where(db[i]) then db[i].(deletedAt := Some(now)) else db[i]
  {
    ListenerFailsClosed(Armed(u), db, SoftDelete(e, where, now), u);
  }

  /** A delete marks the caller's live transcription with that id, and its own live images, and
      leaves every other row, the caller's own included, in its place as it was. */
  lemma DeleteTouchesOnlyIts(c: Settings, u: nat, db: seq<Row>, tid: nat, now: int, i: nat)
    requires DeleteOne(u, db, Some(tid), now).1.Deleted? && i < |db|
    ensures var after := Exec(c, u, db, Command.Delete(Some(tid), now)).0;
      && |after| == |db|
      && after[i] == if OwnLive(u, tid)(db[i]) || OwnLiveImage(u, tid)(db[i]) then db[i].(deletedAt := Some(now)) else db[i]
  {
    SoftDeleteAt(u, db, Transcriptions, LiveTranscription(tid), now, i);
    var mid := RunAs(u, db, SoftDelete(Transcriptions, LiveTranscription(tid), now)).1;
    SoftDeleteAt(u, mid, Images, LiveImagesOf(tid), now, i);
  }

  function ScopedTo(s: Statement, u: nat): Statement {
    s.(where := (r: Row) => s.where(r) && r.owner == u)
  }

  /** After a delete the transcription is a miss for its owner, none of the owner's images of it
      are live, and deleting again is the same miss and changes nothing. */
  lemma DeletedIsAMiss(c: Settings, u: nat, db: seq<Row>, tid: nat, now: int, later: int)
    requires DeleteOne(u, db, Some(tid), now).1.Deleted?
    ensures var after := DeleteOne(u, db, Some(tid), now).0;
      && Exec(c, u, after, Get(Some(tid))) == (after, Failed(NO_TRANSCRIPTION))
      && Exec(c, u, after, Command.Delete(Some(tid), later)) == (after, Failed(NO_TRANSCRIPTION))
      && Read(u, after, SelectWhere(Images, LiveImagesOf(tid))) == []
  {
    var first := ScopedTo(SoftDelete(Transcriptions, LiveTranscription(tid), now), u);
    var second := ScopedTo(SoftDelete(Images, LiveImagesOf(tid), now), u);
    var mid := Updated(db, first);
    var after := Updated(mid, second);
    assert DeleteOne(u, db, Some(tid), now).0 == after;
    var get := ScopedTo(SelectWhere(Transcriptions, LiveTranscription(tid)), u);
    var images := ScopedTo(SelectWhere(Images, LiveImagesOf(tid)), u);
    var again := ScopedTo(SoftDelete(Transcriptions, LiveTranscription(tid), later), u);
    SoftDeletedIsGone(db, first, get);
    OtherEntityUnchanged(mid, second, get);
    SoftDeletedIsGone(db, first, again);
    OtherEntityUnchanged(mid, second, again);
    SoftDeletedIsGone(mid, second, images);
  }
}
