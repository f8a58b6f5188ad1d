/**
  One-time email verification. A VerifyEmail call is a sequence of repository calls, and the
  repository calls of concurrent VerifyEmail calls interleave freely. Any of them can fail,
  before or after it has taken effect.
 */
module EmailVerification {
  import opened Prelude

  type TokenId = nat
  type UserId = nat
  type CallId = nat
  type Hash = nat
  type Time = int

  /** 48 hours, in seconds. */
  const TOKEN_TTL: int := 48 * 60 * 60

  datatype TokenRow = TokenRow(id: TokenId, user: UserId, hash: Hash, createdAt: Time)
  datatype Outcome = Verified | Resent
  datatype Error = InvalidVerificationToken | Failure

  /** `issued` is every token row ever inserted; `users` maps a user to the verified flag. */
  datatype Db = Db(tokens: map<TokenId, TokenRow>, issued: map<TokenId, TokenRow>, users: map<UserId, bool>)

  /** Where a call stands; `at` is the clock reading of the age check. */
  datatype Phase =
    | Begun(hash: Hash)
    | Found(row: TokenRow)
    | Expired(row: TokenRow, at: Time)
    | Removed(row: TokenRow, at: Time)
    | Replaced(row: TokenRow, at: Time)
    | Fresh(row: TokenRow, at: Time)
    | Loaded(row: TokenRow, at: Time, verified: bool)
    | Consumed(row: TokenRow, at: Time)
    | Done(result: Result<Outcome, Error>)

  datatype Fault = NoFault | BeforeEffect | AfterEffect

  /** What the outside gives a step: the clock, the id and hash of a new token, a fault. */
  datatype Env = Env(now: Time, id: TokenId, hash: Hash, fault: Fault)

  predicate TooOld(row: TokenRow, at: Time) {
    at - row.createdAt > TOKEN_TTL
  }

  // ---------------------------------------------------------------------------
  // One step of one call
  // ---------------------------------------------------------------------------

  ghost function Find(tokens: map<TokenId, TokenRow>, hash: Hash): Option<TokenRow> {
    if id :| id in tokens && tokens[id].hash == hash then Some(tokens[id]) else None
  }

  function Insert(db: Db, row: TokenRow): Db {
    db.(tokens := db.tokens[row.id := row], issued := db.issued[row.id := row])
  }

  const FAILED := Done(Err(Failure))

  ghost function Advance(db: Db, p: Phase, env: Env): (Db, Phase) {
    if env.fault.BeforeEffect? && !p.Found? && !p.Done? then (db, FAILED)
    else
      var fails := env.fault.AfterEffect?;
      match p
      case Begun(hash) =>
        var row := Find(db.tokens, hash);
        (db, if fails then FAILED else if row.None? then Done(Err(InvalidVerificationToken)) else Found(row.value))
      case Found(row) =>
        (db, if TooOld(row, env.now) then Expired(row, env.now) else Fresh(row, env.now))
      case Expired(row, at) =>
        if row.id !in db.tokens then (db, FAILED)
        else (db.(tokens := db.tokens - {row.id}), if fails then FAILED else Removed(row, at))
      case Removed(row, at) =>
        if row.user !in db.users then (db, FAILED)
        else
          (Insert(db, TokenRow(env.id, row.user, env.hash, env.now)), if fails then FAILED else Replaced(row, at))
      case Replaced(row, _) =>
        (db, if fails || row.user !in db.users then FAILED else Done(Ok(Resent)))
      case Fresh(row, at) =>
        (db, if fails || row.user !in db.users then FAILED else Loaded(row, at, db.users[row.user]))
      case Loaded(row, at, verified) =>
        if row.id !in db.tokens then (db, FAILED)
        else (db.(tokens := db.tokens - {row.id}),
              if fails then FAILED else if verified then Done(Ok(Verified)) else Consumed(row, at))
      case Consumed(row, _) =>
        if row.user !in db.users then (db, FAILED)
        else (db.(users := db.users[row.user := true]), if fails then FAILED else Done(Ok(Verified)))
      case Done(_) => (db, p)
  }

  function Rank(p: Phase): nat {
    match p
    case Begun(_) => 6
    case Found(_) => 5
    case Expired(_, _) | Fresh(_, _) => 4
    case Removed(_, _) | Loaded(_, _, _) => 3
    case Replaced(_, _) | Consumed(_, _) => 2
    case Done(_) => 0
  }

  /** A call that nothing interrupts. */
  ghost function Alone(db: Db, p: Phase, env: Env): (Db, Phase)
    decreases Rank(p)
  {
    if p.Done? then (db, p) else var (db', p') := Advance(db, p, env); Alone(db', p', env)
  }

  function Begin(token: Option<Hash>): Phase {
    if token.None? then Done(Err(InvalidVerificationToken)) else Begun(token.value)
  }

  // ---------------------------------------------------------------------------
  // The tables
  // ---------------------------------------------------------------------------

  ghost predicate IssuedOk(issued: map<TokenId, TokenRow>) {
    && (forall id :: id in issued ==> issued[id].id == id)
    && (forall a, b :: a in issued && b in issued && issued[a].hash == issued[b].hash ==> a == b)
  }

  ghost predicate TokensOk(tokens: map<TokenId, TokenRow>, issued: map<TokenId, TokenRow>) {
    forall id :: id in tokens ==> id in issued && tokens[id] == issued[id]
  }

  ghost predicate DbOk(db: Db) {
    IssuedOk(db.issued) && TokensOk(db.tokens, db.issued)
  }

  /** Ids and random tokens are never generated twice. */
  ghost predicate Unused(db: Db, id: TokenId, hash: Hash) {
    id !in db.issued && forall k :: k in db.issued ==> db.issued[k].hash != hash
  }

  class AuthStore {
    var tokens: map<TokenId, TokenRow>
    var users: map<UserId, bool>
    ghost var issued: map<TokenId, TokenRow>

    ghost function View(): Db
      reads this
    {
      Db(tokens, issued, users)
    }

    constructor ()
      ensures View() == Db(map[], map[], map[])
    {
      tokens, users, issued := map[], map[], map[];
    }

    method GetTokenByHash(hash: Hash) returns (row: Option<TokenRow>)
      requires DbOk(View())
      ensures row == Find(tokens, hash)
    {
      if id :| id in tokens && tokens[id].hash == hash {
        row := Some(tokens[id]);
      } else {
        row := None;
      }
    }

    /** Reports whether a row was removed. */
    method DeleteTokenById(id: TokenId) returns (removed: bool)
      modifies this`tokens
      ensures tokens == old(tokens) - {id} && (removed <==> id in old(tokens))
    {
      removed := id in tokens;
      tokens := tokens - {id};
    }

    method CreateToken(row: TokenRow) returns (ok: bool)
      modifies this`tokens, this`issued
      ensures ok <==> row.user in users
      ensures View() == if ok then Insert(old(View()), row) else old(View())
    {
      ok := row.user in users;
      if ok {
        tokens := tokens[row.id := row];
        issued := issued[row.id := row];
      }
    }

    /** The branch for an expired link: the token is replaced and a new email is queued. */
    method Replace(row: TokenRow, now: Time, id: TokenId, hash: Hash) returns (r: Result<Outcome, Error>)
      modifies this
      ensures (View(), Done(r)) == Alone(old(View()), Expired(row, now), Env(now, id, hash, NoFault))
    {
      ghost var env := Env(now, id, hash, NoFault);
      AloneStep(View(), Expired(row, now), env);
      var removed := DeleteTokenById(row.id);
      if !removed {
        assert tokens == old(tokens);
        return Err(Failure);
      }
      AloneStep(View(), Removed(row, now), env);
      var created := CreateToken(TokenRow(id, row.user, hash, now));
      if !created {
        return Err(Failure);
      }
      AloneStep(View(), Replaced(row, now), env);
      r := if row.user in users then Ok(Resent) else Err(Failure);
    }

    /** The branch for a live link: the token is consumed before the flag is set. */
    method Consume(row: TokenRow, now: Time, ghost env: Env) returns (r: Result<Outcome, Error>)
      requires env.fault.NoFault?
      modifies this
      ensures (View(), Done(r)) == Alone(old(View()), Fresh(row, now), env)
    {
      AloneStep(View(), Fresh(row, now), env);
      if row.user !in users {
        return Err(Failure);
      }
      var verified := users[row.user];
      AloneStep(View(), Loaded(row, now, verified), env);
      var removed := DeleteTokenById(row.id);
      if !removed {
        assert tokens == old(tokens);
        return Err(Failure);
      }
      if verified {
        return Ok(Verified);
      }
      AloneStep(View(), Consumed(row, now), env);
      users := users[row.user := true];
      return Ok(Verified);
    }

    method VerifyEmail(token: Option<Hash>, now: Time, id: TokenId, hash: Hash) returns (r: Result<Outcome, Error>)
      requires DbOk(View())
      modifies this
      ensures (View(), Done(r)) == Alone(old(View()), Begin(token), Env(now, id, hash, NoFault))
    {
      if token.None? {
        return Err(InvalidVerificationToken);
      }
      var found := GetTokenByHash(token.value);
      if found.None? {
        return Err(InvalidVerificationToken);
      }
      var row := found.value;
      if TooOld(row, now) {
        r := Replace(row, now, id, hash);
      } else {
        r := Consume(row, now, Env(now, id, hash, NoFault));
      }
    }
  }

  // ---------------------------------------------------------------------------
  // A call that nothing interrupts
  // ---------------------------------------------------------------------------

  lemma AloneStep(db: Db, p: Phase, env: Env)
    requires !p.Done?
    ensures var (db', p') := Advance(db, p, env); Alone(db, p, env) == Alone(db', p', env)
  {
  }

  lemma FindIsIssued(tokens: map<TokenId, TokenRow>, issued: map<TokenId, TokenRow>, hash: Hash)
    requires IssuedOk(issued) && TokensOk(tokens, issued)
    ensures var r := Find(tokens, hash);
            r.Some? ==> r.value.hash == hash && r.value.id in tokens && tokens[r.value.id] == r.value
  {
  }

  /** The look-up finds the one row with the hash. */
  lemma StoredIsFound(db: Db, row: TokenRow)
    requires DbOk(db) && row.id in db.tokens && db.tokens[row.id] == row
    ensures Find(db.tokens, row.hash) == Some(row)
  {
    FindIsIssued(db.tokens, db.issued, row.hash);
  }

  /** An expired link is replaced by a new token of the same user; no flag changes. */
  lemma ExpiredLinkIsReplaced(db: Db, row: TokenRow, env: Env)
    requires DbOk(db) && row.id in db.tokens && db.tokens[row.id] == row && row.user in db.users
    requires env.fault.NoFault? && env.now - row.createdAt > 48 * 60 * 60
    ensures var token := TokenRow(env.id, row.user, env.hash, env.now);
            Alone(db, Begun(row.hash), env)
            == (Db((db.tokens - {row.id})[env.id := token], db.issued[env.id := token], db.users), Done(Ok(Resent)))
  {
    StoredIsFound(db, row);
    var removed := db.(tokens := db.tokens - {row.id});
    var replaced := Insert(removed, TokenRow(env.id, row.user, env.hash, env.now));
    AloneStep(db, Begun(row.hash), env);
    AloneStep(db, Found(row), env);
    AloneStep(db, Expired(row, env.now), env);
    AloneStep(removed, Removed(row, env.now), env);
    AloneStep(replaced, Replaced(row, env.now), env);
  }

  /** A live link verifies its user and is used up. */
  lemma LiveLinkVerifies(db: Db, row: TokenRow, env: Env)
    requires DbOk(db) && row.id in db.tokens && db.tokens[row.id] == row && row.user in db.users
    requires env.fault.NoFault? && env.now - row.createdAt <= 48 * 60 * 60
    ensures Alone(db, Begun(row.hash), env)
            == (Db(db.tokens - {row.id}, db.issued, db.users[row.user := true]), Done(Ok(Verified)))
  {
    StoredIsFound(db, row);
    var removed := db.(tokens := db.tokens - {row.id});
    AloneStep(db, Begun(row.hash), env);
    AloneStep(db, Found(row), env);
    AloneStep(db, Fresh(row, env.now), env);
    AloneStep(db, Loaded(row, env.now, db.users[row.user]), env);
    if db.users[row.user] {
      assert db.users[row.user := true] == db.users;
    } else {
      AloneStep(removed, Consumed(row, env.now), env);
    }
  }

  /** The same link a second time is refused as invalid. */
  lemma LinkWorksOnce(db: Db, row: TokenRow, env: Env, again: Env)
    requires DbOk(db) && row.id in db.tokens && db.tokens[row.id] == row && row.user in db.users
    requires env.fault.NoFault? && again.fault.NoFault? && Unused(db, env.id, env.hash)
    ensures Alone(Alone(db, Begun(row.hash), env).0, Begun(row.hash), again)
            == (Alone(db, Begun(row.hash), env).0, Done(Err(InvalidVerificationToken)))
  {
    FindIsIssued(db.tokens, db.issued, row.hash);
    if TooOld(row, env.now) {
      ExpiredLinkIsReplaced(db, row, env);
    } else {
      LiveLinkVerifies(db, row, env);
    }
    var after := Alone(db, Begun(row.hash), env).0;
    assert Find(after.tokens, row.hash) == None;
    AloneStep(after, Begun(row.hash), again);
  }

  // ---------------------------------------------------------------------------
  // Interleavings
  // ---------------------------------------------------------------------------

  /** A row that a call removed, with the clock reading of that call's age check. */
  datatype Deletion = Deletion(call: CallId, row: TokenRow, at: Time)

  /** `links` keeps the token that each call was given. */
  datatype System = System(
    db: Db, calls: map<CallId, Phase>, links: map<CallId, Option<Hash>>, deletions: seq<Deletion>)

  datatype Event =
    | CreateUser(user: UserId)
    | CreateToken(row: TokenRow)
    | Start(call: CallId, token: Option<Hash>)
    | Proceed(call: CallId, env: Env)

  const INITIAL := System(Db(map[], map[], map[]), map[], map[], [])

  ghost predicate Enabled(s: System, e: Event) {
    match e
    case CreateUser(_) => true
    case CreateToken(row) => Unused(s.db, row.id, row.hash)
    case Start(call, _) => call !in s.calls
    case Proceed(call, env) =>
      call in s.calls && (s.calls[call].Removed? ==> Unused(s.db, env.id, env.hash))
  }

  /** The row that a step removes. */
  ghost function Removal(db: Db, call: CallId, p: Phase, env: Env): seq<Deletion> {
    if (p.Expired? || p.Loaded?) && p.row.id in db.tokens && p.row.id !in Advance(db, p, env).0.tokens
    then [Deletion(call, p.row, p.at)] else []
  }

  ghost function Happen(s: System, e: Event): System
    requires Enabled(s, e)
  {
    match e
    case CreateUser(user) =>
      if user in s.db.users then s else s.(db := s.db.(users := s.db.users[user := false]))
    case CreateToken(row) =>
      if row.user in s.db.users then s.(db := Insert(s.db, row)) else s
    case Start(call, token) => s.(calls := s.calls[call := Begin(token)], links := s.links[call := token])
    case Proceed(call, env) =>
      var (db', p') := Advance(s.db, s.calls[call], env);
      System(db', s.calls[call := p'], s.links, s.deletions + Removal(s.db, call, s.calls[call], env))
  }

  ghost function After(run: seq<Event>): System {
    if run == [] then INITIAL
    else
      var before, e := After(run[..|run| - 1]), run[|run| - 1];
      if Enabled(before, e) then Happen(before, e) else before
  }

  // ---------------------------------------------------------------------------
  // The invariant
  // ---------------------------------------------------------------------------

  /** A removed row was issued, is gone for good, and nobody else removed it. */
  ghost predicate DeletionsOk(
    deletions: seq<Deletion>, tokens: map<TokenId, TokenRow>, issued: map<TokenId, TokenRow>)
  {
    && (forall d :: d in deletions ==> d.row.id in issued && issued[d.row.id] == d.row && d.row.id !in tokens)
    && (forall i, k :: 0 <= i < k < |deletions| ==> deletions[i].row.id != deletions[k].row.id)
  }

  ghost predicate Holds(deletions: seq<Deletion>, call: CallId, expired: bool) {
    exists d :: d in deletions && d.call == call && TooOld(d.row, d.at) == expired
  }

  /** What a call may rely on in each phase. */
  ghost predicate PhaseOk(
    call: CallId, p: Phase, deletions: seq<Deletion>, issued: map<TokenId, TokenRow>, users: map<UserId, bool>)
  {
    && (!p.Begun? && !p.Done? ==> p.row.id in issued && issued[p.row.id] == p.row)
    && (p.Expired? ==> TooOld(p.row, p.at))
    && (p.Fresh? || p.Loaded? ==> !TooOld(p.row, p.at))
    && (p.Loaded? && p.verified ==> Flag(users, p.row.user))
    && (p.Removed? || p.Replaced? ==> TooOld(p.row, p.at) && Deletion(call, p.row, p.at) in deletions)
    && (p.Consumed? ==> !TooOld(p.row, p.at) && Deletion(call, p.row, p.at) in deletions)
    && (p.Done? && p.result.Ok? ==> Holds(deletions, call, p.result.value == Resent))
  }

  predicate Flag(users: map<UserId, bool>, user: UserId) {
    user in users && users[user]
  }

  ghost predicate CallsOk(
    calls: map<CallId, Phase>, deletions: seq<Deletion>, issued: map<TokenId, TokenRow>, users: map<UserId, bool>)
  {
    forall call :: call in calls ==> PhaseOk(call, calls[call], deletions, issued, users)
  }

  ghost predicate Proven(deletions: seq<Deletion>, user: UserId) {
    exists d :: d in deletions && d.row.user == user && !TooOld(d.row, d.at)
  }

  /** A set flag is backed by the removal of an unexpired token of that user. */
  ghost predicate UsersOk(users: map<UserId, bool>, deletions: seq<Deletion>) {
    forall user :: Flag(users, user) ==> Proven(deletions, user)
  }

  /** A call that removed a row is past that step, and a used unexpired token had its effect. */
  ghost predicate SettledOk(deletions: seq<Deletion>, calls: map<CallId, Phase>, users: map<UserId, bool>) {
    && (forall d :: d in deletions ==> d.call in calls && Settled(d, calls[d.call], users))
    && (forall i, k :: 0 <= i < k < |deletions| ==> deletions[i].call != deletions[k].call)
  }

  ghost predicate Settled(d: Deletion, p: Phase, users: map<UserId, bool>) {
    if TooOld(d.row, d.at) then p.Removed? || p.Replaced? || p.Done?
    else p == Consumed(d.row, d.at) || (p.Done? && (p.result.Ok? ==> Flag(users, d.row.user)))
  }

  ghost predicate Inv(s: System) {
    && DbOk(s.db)
    && DeletionsOk(s.deletions, s.db.tokens, s.db.issued)
    && CallsOk(s.calls, s.deletions, s.db.issued, s.db.users)
    && UsersOk(s.db.users, s.deletions)
    && SettledOk(s.deletions, s.calls, s.db.users)
  }

  // ---------------------------------------------------------------------------
  // Every step keeps it
  // ---------------------------------------------------------------------------

  lemma InsertKeepsInv(s: System, row: TokenRow)
    requires Inv(s) && Unused(s.db, row.id, row.hash)
    ensures Inv(s.(db := Insert(s.db, row)))
  {
  }

  /** More deletions and more set flags leave the other calls as they were. */
  lemma PhaseKept(
    call: CallId, p: Phase, deletions: seq<Deletion>, more: seq<Deletion>,
    issued: map<TokenId, TokenRow>, issued': map<TokenId, TokenRow>,
    users: map<UserId, bool>, users': map<UserId, bool>)
    requires PhaseOk(call, p, deletions, issued, users)
    requires forall id :: id in issued ==> id in issued' && issued'[id] == issued[id]
    requires forall u :: Flag(users, u) ==> Flag(users', u)
    ensures PhaseOk(call, p, deletions + more, issued', users')
  {
    if p.Done? && p.result.Ok? {
      var d :| d in deletions && d.call == call && TooOld(d.row, d.at) == (p.result.value == Resent);
      assert d in deletions + more;
    }
  }

  ghost predicate Grows(db: Db, db': Db) {
    && (forall id :: id in db.issued ==> id in db'.issued && db'.issued[id] == db.issued[id])
    && (forall id :: id in db'.tokens ==> id in db.tokens || id !in db.issued)
    && (forall u :: Flag(db.users, u) ==> Flag(db'.users, u))
  }

  lemma AdvanceGrows(db: Db, p: Phase, env: Env)
    requires DbOk(db) && (p.Removed? ==> Unused(db, env.id, env.hash))
    ensures DbOk(Advance(db, p, env).0) && Grows(db, Advance(db, p, env).0)
  {
  }

  lemma PhaseNext(db: Db, call: CallId, p: Phase, env: Env, deletions: seq<Deletion>)
    requires DbOk(db) && PhaseOk(call, p, deletions, db.issued, db.users)
    requires p.Removed? ==> Unused(db, env.id, env.hash)
    ensures var (db', p') := Advance(db, p, env);
            PhaseOk(call, p', deletions + Removal(db, call, p, env), db'.issued, db'.users)
  {
    AdvanceGrows(db, p, env);
    var (db', p') := Advance(db, p, env);
    var more := Removal(db, call, p, env);
    if p.Begun? {
      FindIsIssued(db.tokens, db.issued, p.hash);
    } else if p.Done? {
      PhaseKept(call, p, deletions, more, db.issued, db'.issued, db.users, db'.users);
    } else if p'.Done? && p'.result.Ok? {
      var d := Deletion(call, p.row, p.at);
      assert d in deletions + more;
    }
  }

  lemma DeletionsNext(db: Db, call: CallId, p: Phase, env: Env, deletions: seq<Deletion>)
    requires DbOk(db) && DeletionsOk(deletions, db.tokens, db.issued)
    requires PhaseOk(call, p, deletions, db.issued, db.users)
    requires p.Removed? ==> Unused(db, env.id, env.hash)
    ensures var db' := Advance(db, p, env).0;
            DeletionsOk(deletions + Removal(db, call, p, env), db'.tokens, db'.issued)
  {
    AdvanceGrows(db, p, env);
  }

  lemma UsersNext(db: Db, call: CallId, p: Phase, env: Env, deletions: seq<Deletion>)
    requires UsersOk(db.users, deletions) && PhaseOk(call, p, deletions, db.issued, db.users)
    ensures UsersOk(Advance(db, p, env).0.users, deletions + Removal(db, call, p, env))
  {
    var more := Removal(db, call, p, env);
    forall user | Flag(Advance(db, p, env).0.users, user)
      ensures Proven(deletions + more, user)
    {
      if Flag(db.users, user) {
        var d :| d in deletions && d.row.user == user && !TooOld(d.row, d.at);
        assert d in deletions + more;
      } else {
        assert Deletion(call, p.row, p.at) in deletions + more;
      }
    }
  }

  lemma CallsNext(s: System, call: CallId, env: Env)
    requires Inv(s) && Enabled(s, Proceed(call, env))
    ensures var s' := Happen(s, Proceed(call, env)); CallsOk(s'.calls, s'.deletions, s'.db.issued, s'.db.users)
  {
    var p := s.calls[call];
    AdvanceGrows(s.db, p, env);
    PhaseNext(s.db, call, p, env, s.deletions);
    var s' := Happen(s, Proceed(call, env));
    var more := Removal(s.db, call, p, env);
    forall c | c in s.calls && c != call
      ensures PhaseOk(c, s.calls[c], s'.deletions, s'.db.issued, s'.db.users)
    {
      PhaseKept(c, s.calls[c], s.deletions, more, s.db.issued, s'.db.issued, s.db.users, s'.db.users);
    }
  }

  /** The removals a call has made so far stay settled when it proceeds, and so does a new one. */
  lemma SettledStep(db: Db, call: CallId, p: Phase, env: Env, deletions: seq<Deletion>, d: Deletion)
    requires PhaseOk(call, p, deletions, db.issued, db.users) && d.call == call
    requires Settled(d, p, db.users) || d in Removal(db, call, p, env)
    ensures Settled(d, Advance(db, p, env).1, Advance(db, p, env).0.users)
  {
  }

  lemma SettledNext(s: System, call: CallId, env: Env)
    requires Inv(s) && Enabled(s, Proceed(call, env))
    ensures var s' := Happen(s, Proceed(call, env)); SettledOk(s'.deletions, s'.calls, s'.db.users)
  {
    var p := s.calls[call];
    AdvanceGrows(s.db, p, env);
    var s' := Happen(s, Proceed(call, env));
    forall d | d in s'.deletions
      ensures d.call in s'.calls && Settled(d, s'.calls[d.call], s'.db.users)
    {
      if d.call == call {
        SettledStep(s.db, call, p, env, s.deletions, d);
      }
    }
    if Removal(s.db, call, p, env) != [] {
      assert forall d :: d in s.deletions ==> d.call != call;
    }
  }

  lemma StepKeepsInv(s: System, e: Event)
    requires Inv(s) && Enabled(s, e)
    ensures Inv(Happen(s, e))
  {
    match e
    case CreateUser(user) =>
    case CreateToken(row) =>
      InsertKeepsInv(s, row);
    case Start(_, _) =>
    case Proceed(call, env) =>
      AdvanceGrows(s.db, s.calls[call], env);
      DeletionsNext(s.db, call, s.calls[call], env, s.deletions);
      UsersNext(s.db, call, s.calls[call], env, s.deletions);
      CallsNext(s, call, env);
      SettledNext(s, call, env);
  }

  lemma {:induction false} ReachableOk(run: seq<Event>)
    ensures Inv(After(run))
    decreases |run|
  {
    if run != [] {
      ReachableOk(run[..|run| - 1]);
      if Enabled(After(run[..|run| - 1]), run[|run| - 1]) {
        StepKeepsInv(After(run[..|run| - 1]), run[|run| - 1]);
      }
    }
  }

  // ---------------------------------------------------------------------------
  // What that gives
  // ---------------------------------------------------------------------------

  /** Each token row is removed by at most one call, and each call removes at most one row. */
  lemma EachTokenIsUsedOnce(run: seq<Event>, d1: Deletion, d2: Deletion)
    requires d1 in After(run).deletions && d2 in After(run).deletions
    requires d1.row.id == d2.row.id || d1.row.hash == d2.row.hash || d1.call == d2.call
    ensures d1 == d2
  {
    ReachableOk(run);
    var ds := After(run).deletions;
    var i :| 0 <= i < |ds| && ds[i] == d1;
    var k :| 0 <= k < |ds| && ds[k] == d2;
  }

  /** Verified flags, once set, stay set; removed rows stay removed. */
  lemma {:induction false} NothingIsUndone(run: seq<Event>, later: seq<Event>, user: UserId)
    requires run <= later
    ensures Flag(After(run).db.users, user) ==> Flag(After(later).db.users, user)
    ensures After(run).deletions <= After(later).deletions
    decreases |later|
  {
    if run == later {
    } else {
      var init, e := later[..|later| - 1], later[|later| - 1];
      NothingIsUndone(run, init, user);
      ReachableOk(init);
      if Enabled(After(init), e) && e.Proceed? {
        AdvanceGrows(After(init).db, After(init).calls[e.call], e.env);
      }
    }
  }

  /** The call took a step in the run at which the clock read `at`. */
  predicate ReadsClock(run: seq<Event>, call: CallId, at: Time) {
    exists i :: 0 <= i < |run| && run[i].Proceed? && run[i].call == call && run[i].env.now == at
  }

  predicate Timed(p: Phase) {
    !p.Begun? && !p.Found? && !p.Done?
  }

  /** Every age was checked against a clock reading of the call's own steps. */
  ghost predicate ReadingsOk(run: seq<Event>, s: System) {
    && (forall call :: call in s.calls && Timed(s.calls[call]) ==> ReadsClock(run, call, s.calls[call].at))
    && (forall d :: d in s.deletions ==> ReadsClock(run, d.call, d.at))
  }

  lemma ReadsLater(run: seq<Event>, e: Event, call: CallId, at: Time)
    requires ReadsClock(run, call, at)
    ensures ReadsClock(run + [e], call, at)
  {
    var i :| 0 <= i < |run| && run[i].Proceed? && run[i].call == call && run[i].env.now == at;
    assert (run + [e])[i] == run[i];
  }

  lemma ReadingsGrow(run: seq<Event>, e: Event, s: System)
    requires ReadingsOk(run, s)
    ensures ReadingsOk(run + [e], s)
  {
    forall call | call in s.calls && Timed(s.calls[call])
      ensures ReadsClock(run + [e], call, s.calls[call].at)
    {
      ReadsLater(run, e, call, s.calls[call].at);
    }
    forall d | d in s.deletions
      ensures ReadsClock(run + [e], d.call, d.at)
    {
      ReadsLater(run, e, d.call, d.at);
    }
  }

  /** A call's reading is the one it had, or that of the step it takes. */
  lemma ReadingKept(db: Db, call: CallId, p: Phase, env: Env)
    ensures var p' := Advance(db, p, env).1; Timed(p') ==> (Timed(p) && p'.at == p.at) || p'.at == env.now
    ensures forall d :: d in Removal(db, call, p, env) ==> Timed(p) && d.call == call && d.at == p.at
  {
  }

  lemma ReadingsNext(run: seq<Event>, e: Event, s: System)
    requires ReadingsOk(run + [e], s) && Enabled(s, e)
    ensures ReadingsOk(run + [e], Happen(s, e))
  {
    if e.Proceed? {
      ReadingKept(s.db, e.call, s.calls[e.call], e.env);
      assert (run + [e])[|run|] == e;
      assert ReadsClock(run + [e], e.call, e.env.now);
    }
  }

  lemma {:induction false} ReadingsAreFromRun(run: seq<Event>)
    ensures ReadingsOk(run, After(run))
    decreases |run|
  {
    if run != [] {
      var init, e := run[..|run| - 1], run[|run| - 1];
      ReadingsAreFromRun(init);
      ReadingsGrow(init, e, After(init));
      assert init + [e] == run;
      if Enabled(After(init), e) {
        ReadingsNext(init, e, After(init));
      }
    }
  }

  /** A flag is set only after an unexpired token of that user was removed. */
  lemma FlagMeansTokenUsed(run: seq<Event>, user: UserId) returns (d: Deletion)
    requires Flag(After(run).db.users, user)
    ensures d in After(run).deletions && d.row.user == user && d.at - d.row.createdAt <= 48 * 60 * 60
    ensures d.row.id !in After(run).db.tokens && ReadsClock(run, d.call, d.at)
  {
    ReachableOk(run);
    ReadingsAreFromRun(run);
    assert Proven(After(run).deletions, user);
    d :| d in After(run).deletions && d.row.user == user && !TooOld(d.row, d.at);
  }

  /** Only a call that removed a row returns an outcome, and which one depends on the row's age. */
  lemma OutcomeMeansTokenUsed(run: seq<Event>, call: CallId) returns (d: Deletion)
    requires call in After(run).calls
    requires After(run).calls[call].Done? && After(run).calls[call].result.Ok?
    ensures d in After(run).deletions && d.call == call
    ensures After(run).calls[call].result.value
            == if d.at - d.row.createdAt > 48 * 60 * 60 then Resent else Verified
    ensures ReadsClock(run, d.call, d.at)
    ensures After(run).calls[call].result.value == Verified ==> Flag(After(run).db.users, d.row.user)
  {
    ReachableOk(run);
    ReadingsAreFromRun(run);
    var s := After(run);
    assert PhaseOk(call, s.calls[call], s.deletions, s.db.issued, s.db.users);
    d :| d in s.deletions && d.call == call && TooOld(d.row, d.at) == (s.calls[call].result.value == Resent);
    assert Settled(d, s.calls[d.call], s.db.users);
  }

  /**
    A used unexpired token has verified its user, unless the call that used it is still to write
    the flag or has returned an error.
   */
  lemma UsedTokenVerifies(run: seq<Event>, d: Deletion)
    requires d in After(run).deletions && d.at - d.row.createdAt <= 48 * 60 * 60
    ensures d.call in After(run).calls
    ensures var p := After(run).calls[d.call];
            Flag(After(run).db.users, d.row.user) || p == Consumed(d.row, d.at) || (p.Done? && p.result.Err?)
  {
    ReachableOk(run);
  }

  // ---------------------------------------------------------------------------
  // One outcome per link
  // ---------------------------------------------------------------------------

  predicate Follows(p: Phase, link: Option<Hash>) {
    && (p.Begun? ==> link == Some(p.hash))
    && (!p.Begun? && !p.Done? ==> link == Some(p.row.hash))
  }

  /** A call only ever handles the row of the token it was given. */
  ghost predicate LinksOk(s: System) {
    && (forall call :: call in s.calls ==> call in s.links && Follows(s.calls[call], s.links[call]))
    && (forall d :: d in s.deletions ==> d.call in s.links && s.links[d.call] == Some(d.row.hash))
    && (forall d :: d in s.deletions ==> d.call in s.calls)
  }

  lemma {:induction false} LinksAreFollowed(run: seq<Event>)
    ensures LinksOk(After(run))
    decreases |run|
  {
    if run != [] {
      var s, e := After(run[..|run| - 1]), run[|run| - 1];
      LinksAreFollowed(run[..|run| - 1]);
      ReachableOk(run[..|run| - 1]);
      if Enabled(s, e) && e.Proceed? {
        LinkKept(s.db, e.call, s.calls[e.call], e.env, s.links[e.call]);
      }
    }
  }

  lemma LinkKept(db: Db, call: CallId, p: Phase, env: Env, link: Option<Hash>)
    requires DbOk(db) && Follows(p, link)
    ensures Follows(Advance(db, p, env).1, link)
    ensures forall d :: d in Removal(db, call, p, env) ==> d.call == call && link == Some(d.row.hash)
  {
    if p.Begun? {
      FindIsIssued(db.tokens, db.issued, p.hash);
    }
  }

  /** Of all calls given the same link, at most one returns an outcome. */
  lemma OneOutcomePerLink(run: seq<Event>, c1: CallId, c2: CallId)
    requires c1 in After(run).calls && After(run).calls[c1].Done? && After(run).calls[c1].result.Ok?
    requires c2 in After(run).calls && After(run).calls[c2].Done? && After(run).calls[c2].result.Ok?
    requires c1 in After(run).links && c2 in After(run).links && After(run).links[c1] == After(run).links[c2]
    ensures c1 == c2
  {
    LinksAreFollowed(run);
    var d1 := OutcomeMeansTokenUsed(run, c1);
    var d2 := OutcomeMeansTokenUsed(run, c2);
    EachTokenIsUsedOnce(run, d1, d2);
  }
}
