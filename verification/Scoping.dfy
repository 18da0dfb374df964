/** The listener that adds the owner filter to every ORM statement, and the session it reads. */
module Scoping {
  import opened Basics
  import opened Sessions

  datatype Entity = Users | Transcriptions | Images | UploadSessions | OAuthTokens | McpBearers

  /** One wide row type; columns an entity lacks are unused. */
  datatype Row = Row(entity: Entity, id: nat, owner: nat, parent: Option<nat>, deletedAt: Option<int>,
                     createdAt: int, duration: int, kind: string, status: Status, expiresAt: int, body: string)

  datatype Verb = Select | Update | Delete | Insert

  /** `entity` is None for statements with no mapper; `bypass` is the execution option. */
  datatype Statement = Statement(verb: Verb, entity: Option<Entity>, where: Row -> bool, values: Row -> Row, bypass: bool)

  /** Anything can be stored under `session.info["user_id"]`. */
  datatype InfoValue = Uuid(id: nat) | NotUuid

  datatype Info = Info(userId: Option<InfoValue>, bypass: Option<bool>)

  datatype ScopingError = ScopingNotArmed

  /** Models with a `user_id` column; `User` itself has none. */
  predicate Scoped(e: Entity) {
    e != Users
  }

  predicate Bypassed(info: Info, s: Statement) {
    info.bypass == Some(true) || s.bypass
  }

  function ResolveUserId(info: Info): Result<Option<nat>, ScopingError> {
    match info.userId
    case None => Ok(None)
    case Some(NotUuid) => Err(ScopingNotArmed)
    case Some(Uuid(u)) => Ok(Some(u))
  }

  function OnOrmExecute(info: Info, s: Statement): Result<Statement, ScopingError> {
    if s.verb.Insert? || Bypassed(info, s) || s.entity.None? || !Scoped(s.entity.value) then Ok(s)
    else
      match ResolveUserId(info)
      case Err(e) => Err(e)
      case Ok(None) => Err(ScopingNotArmed)
      case Ok(Some(u)) => Ok(s.(where := r => s.where(r) && r.owner == u))
  }

  // ---------------------------------------------------------------- the database

  predicate Hits(s: Statement, r: Row) {
    (s.entity.Some? ==> r.entity == s.entity.value) && s.where(r)
  }

  /** Rows in table order. */
  function Matching(db: seq<Row>, s: Statement): seq<Row> {
    if db == [] then []
    else if Hits(s, db[0]) then [db[0]] + Matching(db[1..], s)
    else Matching(db[1..], s)
  }

  function Updated(db: seq<Row>, s: Statement): seq<Row> {
    if db == [] then [] else [if Hits(s, db[0]) then s.values(db[0]) else db[0]] + Updated(db[1..], s)
  }

  function Kept(db: seq<Row>, s: Statement): seq<Row> {
    if db == [] then []
    else if Hits(s, db[0]) then Kept(db[1..], s)
    else [db[0]] + Kept(db[1..], s)
  }

  /** The rows a statement returns or touches, and the table after it. */
  function Execute(info: Info, db: seq<Row>, s: Statement): Result<(seq<Row>, seq<Row>), ScopingError> {
    match OnOrmExecute(info, s)
    case Err(e) => Err(e)
    case Ok(rewritten) =>
      match s.verb
      case Select => Ok((Matching(db, rewritten), db))
      case Update => Ok((Matching(db, rewritten), Updated(db, rewritten)))
      case Delete => Ok((Matching(db, rewritten), Kept(db, rewritten)))
      case Insert => Ok(([], db))
  }

  function Owned(db: seq<Row>, u: nat): seq<Row> {
    if db == [] then []
    else if db[0].owner == u then [db[0]] + Owned(db[1..], u)
    else Owned(db[1..], u)
  }

  /** The rows of an UPDATE that assigns `user_id`, as far as they end up with `v`. */
  predicate HandsTo(s: Statement, touched: seq<Row>, v: nat) {
    s.verb.Update? && exists r :: r in touched && s.values(r).owner == v
  }

  function Armed(u: nat): Info {
    Info(Some(Uuid(u)), None)
  }

  // ---------------------------------------------------------------- the session object

  class Session {
    var userId: Option<InfoValue>
    var bypass: Option<bool>
    var rows: seq<Row>

    function Flags(): Info
      reads this
    {
      Info(userId, bypass)
    }

    /** `scoped_session`: a fresh session with the caller armed. */
    constructor Scoped(u: nat, rows: seq<Row>)
      ensures Flags() == Armed(u) && this.rows == rows
    {
      userId, bypass, this.rows := Some(Uuid(u)), None, rows;
    }

    method SetSessionUser(u: Option<nat>)
      modifies this`userId
      ensures userId == if u.Some? then Some(Uuid(u.value)) else None
    {
      userId := if u.Some? then Some(Uuid(u.value)) else None;
    }

    /** Entering and leaving `bypass_scoping` around any body restores what was set before. */
    method EnterBypass() returns (prior: Option<bool>)
      modifies this`bypass
      ensures prior == old(bypass) && bypass == Some(true)
    {
      prior := bypass;
      bypass := Some(true);
    }

    method LeaveBypass(prior: Option<bool>)
      modifies this`bypass
      ensures bypass == prior
    {
      bypass := if prior.None? then None else prior;
    }

    method Run(s: Statement) returns (r: Result<seq<Row>, ScopingError>)
      modifies this`rows
      ensures match Execute(Flags(), old(rows), s)
        case Err(e) => r == Err(e) && rows == old(rows)
        case Ok(v) => r == Ok(v.0) && rows == v.1
    {
      var rewritten := OnOrmExecute(Flags(), s);
      if rewritten.Err? {
        return Err(rewritten.error);
      }
      if s.verb.Insert? {
        return Ok([]);
      }
      r := Ok(Matching(rows, rewritten.value));
      match s.verb {
        case Update => rows := Updated(rows, rewritten.value);
        case Delete => rows := Kept(rows, rewritten.value);
        case _ =>
      }
    }

    /** A statement inside `with bypass_scoping`: it is never refused, it reaches every user's
        rows, and the flags are afterwards what they were, nested or not. */
    method RunBypassed(s: Statement) returns (r: Result<seq<Row>, ScopingError>)
      modifies this
      ensures Flags() == old(Flags())
      ensures r.Ok? && (!s.verb.Insert? ==> r.value == Matching(old(rows), s))
      ensures rows == match s.verb case Update => Updated(old(rows), s) case Delete => Kept(old(rows), s) case _ => old(rows)
    {
      var prior := EnterBypass();
      r := Run(s);
      LeaveBypass(prior);
    }

    method Add(row: Row)
      modifies this`rows
      ensures rows == old(rows) + [row]
    {
      rows := rows + [row];
    }

    /** Leaving `scoped_session`: commit, or roll back to `before`; disarm either way. */
    method Close(failed: bool, before: seq<Row>)
      modifies this
      ensures Flags() == Info(None, None) && rows == if failed then before else old(rows)
    {
      if failed {
        rows := before;
      }
      userId, bypass := None, None;
    }
  }

  // ---------------------------------------------------------------- one statement

  lemma {:induction false} MatchingScoped(db: seq<Row>, s: Statement, scoped: Statement, u: nat)
    requires scoped.entity == s.entity && forall r :: scoped.where(r) <==> s.where(r) && r.owner == u
    ensures Matching(db, scoped) == Matching(Owned(db, u), scoped) == Matching(Owned(db, u), s)
    ensures forall r :: r in Matching(db, scoped) <==> r in db && r.owner == u && Hits(s, r)
  {
    if db != [] {
      MatchingScoped(db[1..], s, scoped, u);
      if db[0].owner == u {
        assert Owned(db, u)[1..] == Owned(db[1..], u);
      }
    }
  }

  /** In an UPDATE of `u`'s rows each row stays in its place, and only those change. */
  lemma {:induction false} UpdatedScoped(db: seq<Row>, s: Statement, u: nat)
    requires forall r :: s.where(r) ==> r.owner == u
    ensures |Updated(db, s)| == |db|
    ensures forall i :: 0 <= i < |db| ==> Updated(db, s)[i] == if Hits(s, db[i]) then s.values(db[i]) else db[i]
    ensures Owned(Updated(db, s), u) == Owned(Updated(Owned(db, u), s), u)
  {
    if db != [] {
      UpdatedScoped(db[1..], s, u);
      assert Updated(db, s)[1..] == Updated(db[1..], s);
      if db[0].owner == u {
        assert Owned(db, u)[1..] == Owned(db[1..], u);
        assert Updated(Owned(db, u), s)[1..] == Updated(Owned(db[1..], u), s);
      }
    }
  }

  /** Another user gains a row for each one handed over, and loses none. */
  lemma {:induction false} UpdatedOthers(db: seq<Row>, s: Statement, u: nat, v: nat)
    requires (forall r :: s.where(r) ==> r.owner == u) && v != u
    ensures |Owned(Updated(db, s), v)| >= |Owned(db, v)|
    ensures Owned(Updated(db, s), v) == Owned(db, v) <==> !exists r :: r in db && Hits(s, r) && s.values(r).owner == v
    ensures Owned(Updated(db, s), v) != Owned(db, v) ==> |Owned(Updated(db, s), v)| > |Owned(db, v)|
  {
    if db != [] {
      UpdatedOthers(db[1..], s, u, v);
      assert db == [db[0]] + db[1..];
      assert Updated(db, s)[1..] == Updated(db[1..], s);
      if db[0].owner == v {
        assert Owned(db, v)[1..] == Owned(db[1..], v);
        assert Owned(Updated(db, s), v)[1..] == Owned(Updated(db[1..], s), v);
      }
    }
  }

  lemma {:induction false} OwnedIsAll(db: seq<Row>, u: nat)
    ensures |Owned(db, u)| <= |db|
    ensures Owned(db, u) == db <==> forall r :: r in db ==> r.owner == u
  {
    if db != [] {
      OwnedIsAll(db[1..], u);
      assert db == [db[0]] + db[1..];
    }
  }

  lemma {:induction false} OwnedAreOwn(db: seq<Row>, u: nat)
    ensures forall r :: r in Owned(db, u) <==> r in db && r.owner == u
  {
    if db != [] {
      OwnedAreOwn(db[1..], u);
    }
  }

  lemma {:induction false} KeptScoped(db: seq<Row>, s: Statement, u: nat, v: nat)
    requires forall r :: s.where(r) ==> r.owner == u
    ensures Owned(Kept(db, s), v) == if v == u then Kept(Owned(db, u), s) else Owned(db, v)
    ensures forall r :: r in Kept(db, s) <==> r in db && !Hits(s, r)
  {
    if db != [] {
      KeptScoped(db[1..], s, u, v);
      if db[0].owner == u {
        assert Owned(db, u)[1..] == Owned(db[1..], u);
      }
      if !Hits(s, db[0]) {
        assert Kept(db, s)[1..] == Kept(db[1..], s);
      }
    }
  }

  lemma {:induction false} MatchingInOrder(a: seq<Row>, b: seq<Row>, s: Statement)
    ensures Matching(a + b, s) == Matching(a, s) + Matching(b, s)
    decreases a
  {
    if a == [] {
      assert a + b == b;
    } else {
      MatchingInOrder(a[1..], b, s);
      assert (a + b)[1..] == a[1..] + b;
    }
  }

  lemma {:induction false} KeptInOrder(a: seq<Row>, b: seq<Row>, s: Statement)
    ensures Kept(a + b, s) == Kept(a, s) + Kept(b, s)
    decreases a
  {
    if a == [] {
      assert a + b == b;
    } else {
      KeptInOrder(a[1..], b, s);
      assert (a + b)[1..] == a[1..] + b;
    }
  }

  lemma {:induction false} OwnedInOrder(a: seq<Row>, b: seq<Row>, u: nat)
    ensures Owned(a + b, u) == Owned(a, u) + Owned(b, u)
    decreases a
  {
    if a == [] {
      assert a + b == b;
    } else {
      OwnedInOrder(a[1..], b, u);
      assert (a + b)[1..] == a[1..] + b;
    }
  }

  /** Rows are returned, kept and owned one by one, in table order. */
  lemma TableOrderIsKept(a: seq<Row>, r: Row, b: seq<Row>, s: Statement, u: nat)
    ensures Matching(a + [r] + b, s) == Matching(a, s) + (if Hits(s, r) then [r] else []) + Matching(b, s)
    ensures Kept(a + [r] + b, s) == Kept(a, s) + (if Hits(s, r) then [] else [r]) + Kept(b, s)
    ensures Owned(a + [r] + b, u) == Owned(a, u) + (if r.owner == u then [r] else []) + Owned(b, u)
  {
    MatchingInOrder(a + [r], b, s);
    MatchingInOrder(a, [r], s);
    KeptInOrder(a + [r], b, s);
    KeptInOrder(a, [r], s);
    OwnedInOrder(a + [r], b, u);
    OwnedInOrder(a, [r], u);
  }

  lemma {:induction false} OwnedAppend(db: seq<Row>, row: Row, u: nat)
    ensures Owned(db + [row], u) == Owned(db, u) + if row.owner == u then [row] else []
  {
    if db == [] {
      assert db + [row] == [row];
    } else {
      OwnedAppend(db[1..], row, u);
      assert (db + [row])[1..] == db[1..] + [row];
    }
  }

  // ---------------------------------------------------------------- main results

  /** A statement on a per-user model, without bypass: refused unless a UUID is armed; armed with
      `u`, it touches exactly the matching rows of `u`, each other row stays in its place, and
      another user's rows stay as they were exactly when none of `u`'s is handed to that user. */
  lemma ListenerFailsClosed(info: Info, db: seq<Row>, s: Statement, v: nat)
    requires !s.verb.Insert? && info.bypass != Some(true) && !s.bypass && s.entity.Some? && s.entity.value != Users
    ensures Execute(info, db, s).Ok? <==> info.userId.Some? && info.userId.value.Uuid?
    ensures Execute(info, db, s).Ok? ==>
      var u := info.userId.value.id;
      var (touched, after) := Execute(info, db, s).value;
      && (forall r :: r in touched <==> r in db && r.owner == u && Hits(s, r))
      && (s.verb.Select? ==> after == db)
      && (s.verb.Update? ==> |after| == |db| && forall i :: 0 <= i < |db| ==>
            after[i] == if db[i] in touched then s.values(db[i]) else db[i])
      && (s.verb.Delete? ==> forall r :: r in after <==> r in db && r !in touched)
      && (v != u ==> (Owned(after, v) == Owned(db, v) <==> !HandsTo(s, touched, v)))
  {
    if info.userId.Some? && info.userId.value.Uuid? {
      var u := info.userId.value.id;
      var scoped := OnOrmExecute(info, s).value;
      MatchingScoped(db, s, scoped, u);
      UpdatedScoped(db, scoped, u);
      KeptScoped(db, scoped, u, v);
      if v != u {
        UpdatedOthers(db, scoped, u, v);
      }
    }
  }

  /** An insert, a bypass in the session or on the statement, no mapper, or the users' own table:
      never refused and never narrowed, whoever is armed. */
  lemma BypassedIsWhole(info: Info, db: seq<Row>, s: Statement)
    requires s.verb.Insert? || info.bypass == Some(true) || s.bypass || s.entity.None? || s.entity.value == Users
    ensures Execute(info, db, s).Ok?
    ensures var (touched, after) := Execute(info, db, s).value;
      && touched == (if s.verb.Insert? then [] else Matching(db, s))
      && after == match s.verb case Update => Updated(db, s) case Delete => Kept(db, s) case _ => db
  {
  }

  /** An armed statement does to a user's own rows, alone, what it does to the whole table: the
      same rows touched and the same own rows left; and alone nothing else is left either,
      exactly when it hands no row away. */
  lemma ArmedSeesOnlyOwn(db: seq<Row>, s: Statement, u: nat)
    requires !s.verb.Insert? && s.entity.Some? && Scoped(s.entity.value) && !s.bypass
    ensures var whole, own := Execute(Armed(u), db, s), Execute(Armed(u), Owned(db, u), s);
      && whole.Ok? && own.Ok? && own.value.0 == whole.value.0
      && Owned(own.value.1, u) == Owned(whole.value.1, u)
      && (own.value.1 == Owned(whole.value.1, u) <==>
            (s.verb.Update? ==> forall r :: r in own.value.0 ==> s.values(r).owner == u))
  {
    var scoped := OnOrmExecute(Armed(u), s).value;
    var mine := Owned(db, u);
    OwnedAreOwn(db, u);
    OwnedIsAll(mine, u);
    MatchingScoped(db, s, scoped, u);
    UpdatedScoped(db, scoped, u);
    UpdatedScoped(mine, scoped, u);
    KeptScoped(db, scoped, u, u);
    KeptScoped(mine, scoped, u, u);
    OwnedIsAll(Updated(mine, scoped), u);
    AllOwnAfter(mine, s, scoped, u);
  }

  lemma AllOwnAfter(mine: seq<Row>, s: Statement, scoped: Statement, u: nat)
    requires scoped.entity == s.entity && scoped.values == s.values
    requires forall r :: scoped.where(r) <==> s.where(r) && r.owner == u
    requires forall r :: r in mine ==> r.owner == u
    ensures (forall r :: r in Updated(mine, scoped) ==> r.owner == u) <==>
              forall r :: r in Matching(mine, scoped) ==> s.values(r).owner == u
  {
  }
}
