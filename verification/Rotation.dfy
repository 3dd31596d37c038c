/**
 Refresh-token rotation as a transition system. Any number of Refresh, Login and Delete calls are in flight;
 each carries a program point and the values it has read so far, and one step executes exactly one command
 of one call. Row creation, email changes and the TTL index run in between. A step that is not possible in
 the current state leaves it unchanged, so every sequence of actions is a run.
 */
module Rotation {
  import opened Wrappers
  import opened TokenStore

  type CallId = nat
  type Email = string

  datatype Answer =
    | Session(user: UserId, hash: Hash)
    | Removed
    | Unauthorized
    | InvalidCredentials
    | Forbidden
    | NoSuchUser
    | BadInput
    | Internal

  /** Where a call stands: the command it sends next, with what it has learned. */
  datatype Call =
    | Finding(hash: Hash, now: Time)
    | Wiping(user: UserId, now: Time)
    | LookingUp(token: TokenId, user: UserId, now: Time)
    | Claiming(token: TokenId, user: UserId, now: Time)
    | LoggingIn(email: Email)
    | Issuing(user: UserId, now: Time, parent: Option<TokenId>)
    | Storing(user: UserId, hash: Hash, now: Time, parent: Option<TokenId>)
    | RemovingRow(user: UserId)
    | RevokingAll(user: UserId)
    | Done(answer: Answer)

  datatype Verdict = Match | Mismatch | Broken

  /** What the world decides about one step: faults, the clock, the random bytes, the password comparison. */
  datatype Env = Env(fault: Fault, now: Time, random: Option<Hash>, verdict: Verdict)

  datatype Action =
    | StartRefresh(call: CallId, raw: Option<Hash>, now: Time)
    | StartLogin(call: CallId, address: Option<Email>)
    | StartDelete(call: CallId, actor: UserId, user: UserId)
    | Advance(call: CallId, env: Env)
    | AddRow(user: UserId, email: Email)
    | ChangeEmail(user: UserId, email: Email)
    | ExpireToken(token: TokenId, serverNow: Time)

  datatype Origin = FromLogin(caller: CallId) | FromRotation(parent: TokenId, caller: CallId)

  datatype Birth = Birth(user: UserId, hash: Hash, origin: Origin)

  /**
   The last five fields are history that no step reads: user ids ever given out, the birth of every token ever
   stored, which call stored it, which call was told it claimed which token, and which logins passed the
   password check.
   */
  datatype State = State(
    rows: map<UserId, Email>,
    db: Db,
    calls: map<CallId, Call>,
    known: set<UserId>,
    born: map<TokenId, Birth>,
    stored: map<CallId, TokenId>,
    claims: map<TokenId, CallId>,
    authed: map<CallId, UserId>)

  const INIT := State(map[], Db(map[], 0), map[], {}, map[], map[], map[], map[])

  function Goto(s: State, c: CallId, next: Call): State {
    s.(calls := s.calls[c := next])
  }

  function Begin(s: State, c: CallId, first: Call): State {
    if c in s.calls then s else Goto(s, c, first)
  }

  /** requireID, then requireSelf: decided before any command is sent. */
  function DeleteEntry(actor: UserId, user: UserId): Call {
    if user == "" then Done(BadInput)
    else if actor == "" || actor != user then Done(Forbidden)
    else RemovingRow(user)
  }

  ghost function AfterFind(tokens: map<TokenId, Token>, hash: Hash, now: Time, fault: Fault): Call {
    if !fault.NoFault? then Done(Internal)
    else
      match Lookup(tokens, hash)
      case None => Done(Unauthorized)
      case Some(t) =>
        if tokens[t].Revoked() then Wiping(tokens[t].userId, now)
        else if tokens[t].expiresAt <= now then Done(Unauthorized)
        else LookingUp(t, tokens[t].userId, now)
  }

  /** FindOne on the email. */
  ghost function RowByEmail(rows: map<UserId, Email>, email: Email): Option<UserId> {
    if exists u <- rows :: rows[u] == email then
      var u :| u in rows && rows[u] == email;
      Some(u)
    else
      None
  }

  function AfterPassword(row: Option<UserId>, env: Env): Call {
    if !env.fault.NoFault? then Done(Internal)
    else if row.None? then Done(InvalidCredentials)
    else
      match env.verdict
      case Match => Issuing(row.value, env.now, None)
      case Mismatch => Done(InvalidCredentials)
      case Broken => Done(Internal)
  }

  /** A command that matched no live token is ErrRefreshTokenNotFound; anything else is an infrastructure error. */
  function AfterClaim(e: Effect, t: TokenId, user: UserId, now: Time, fault: Fault): Call {
    if e.ok then Issuing(user, now, Some(t))
    else if fault.NoFault? then Done(Unauthorized)
    else Done(Internal)
  }

  function AfterRemoval(found: bool, user: UserId, fault: Fault): Call {
    match fault
    case NoFault => if found then RevokingAll(user) else Done(NoSuchUser)
    case _ => Done(Internal)
  }

  function NewToken(user: UserId, hash: Hash, now: Time, ttl: Time): Token {
    Token(user, hash, now, now + ttl, None)
  }

  function OriginOf(c: CallId, parent: Option<TokenId>): Origin {
    match parent
    case None => FromLogin(c)
    case Some(p) => FromRotation(p, c)
  }

  /** Where call c goes when it runs its next command. */
  ghost function NextPoint(s: State, c: CallId, env: Env, ttl: Time): Call
    requires c in s.calls
  {
    match s.calls[c]
    case Finding(hash, now) => AfterFind(s.db.tokens, hash, now, env.fault)
    case Wiping(user, now) => Done(if env.fault.NoFault? then Unauthorized else Internal)
    case LookingUp(t, user, now) =>
      if !env.fault.NoFault? then Done(Internal)
      else if user !in s.rows then Done(Unauthorized)
      else Claiming(t, user, now)
    case Claiming(t, user, now) => AfterClaim(Claim(s.db, t, now, env.fault), t, user, now, env.fault)
    case LoggingIn(email) => AfterPassword(RowByEmail(s.rows, email), env)
    case Issuing(user, now, parent) =>
      if env.random.None? then Done(Internal) else Storing(user, env.random.value, now, parent)
    case Storing(user, hash, now, parent) =>
      Done(if Insert(s.db, NewToken(user, hash, now, ttl), env.fault).ok then Session(user, hash) else Internal)
    case RemovingRow(user) => AfterRemoval(user in s.rows, user, env.fault)
    case RevokingAll(user) => Done(if env.fault.NoFault? then Removed else Internal)
    case Done(answer) => Done(answer)
  }

  function Remember(s: State, t: TokenId, b: Birth): State {
    s.(born := s.born[t := b], stored := s.stored[b.origin.caller := t])
  }

  /** What that command does to everything but the calls. */
  ghost function World(s: State, c: CallId, env: Env, ttl: Time): State
    requires c in s.calls
  {
    match s.calls[c]
    case Wiping(user, now) => s.(db := Wipe(s.db, user, now, env.fault).db)
    case Claiming(t, user, now) =>
      var e := Claim(s.db, t, now, env.fault);
      s.(db := e.db, claims := if e.ok then s.claims[t := c] else s.claims)
    case LoggingIn(email) =>
      var next := NextPoint(s, c, env, ttl);
      s.(authed := if next.Issuing? then s.authed[c := next.user] else s.authed)
    case Storing(user, hash, now, parent) =>
      var e := Insert(s.db, NewToken(user, hash, now, ttl), env.fault);
      if e.applied then Remember(s, s.db.nextId, Birth(user, hash, OriginOf(c, parent))).(db := e.db) else s
    case RemovingRow(user) => s.(rows := if env.fault.RequestLost? then s.rows else s.rows - {user})
    case RevokingAll(user) => s.(db := Wipe(s.db, user, env.now, env.fault).db)
    case _ => s
  }

  ghost function Command(s: State, c: CallId, env: Env, ttl: Time): State
    requires c in s.calls
  {
    Goto(World(s, c, env, ttl), c, NextPoint(s, c, env, ttl))
  }

  ghost function Step(s: State, a: Action, ttl: Time): State {
    match a
    case StartRefresh(c, raw, now) =>
      Begin(s, c, if raw.None? then Done(Unauthorized) else Finding(raw.value, now))
    case StartLogin(c, address) =>
      Begin(s, c, if address.None? then Done(InvalidCredentials) else LoggingIn(address.value))
    case StartDelete(c, actor, user) => Begin(s, c, DeleteEntry(actor, user))
    case Advance(c, env) => if c in s.calls then Command(s, c, env, ttl) else s
    case AddRow(user, email) =>
      if user in s.known then s else s.(rows := s.rows[user := email], known := s.known + {user})
    case ChangeEmail(user, email) => if user in s.rows then s.(rows := s.rows[user := email]) else s
    case ExpireToken(t, serverNow) => s.(db := Expire(s.db, t, serverNow))
  }

  ghost function Exec(s: State, acts: seq<Action>, ttl: Time): State
    decreases |acts|
  {
    if acts == [] then s else Exec(Step(s, acts[0], ttl), acts[1..], ttl)
  }

  // ---- what a single step can change ----

  lemma WorldFrame(s: State, c: CallId, env: Env, ttl: Time)
    requires c in s.calls
    ensures World(s, c, env, ttl).calls == s.calls
    ensures !s.calls[c].Storing? ==> World(s, c, env, ttl).born == s.born
  {
    match s.calls[c]
    case Wiping(_, _) =>
    case Claiming(_, _, _) =>
    case LoggingIn(_) =>
    case Storing(_, _, _, _) =>
    case RemovingRow(_) =>
    case RevokingAll(_) =>
    case _ =>
  }

  /** Only the Store command adds to the history of births. */
  lemma NewBirth(s: State, a: Action, ttl: Time, t: TokenId)
    requires t !in s.born && t in Step(s, a, ttl).born
    ensures a.Advance? && a.call in s.calls && s.calls[a.call].Storing? && t == s.db.nextId
    ensures var Storing(user, hash, now, parent) := s.calls[a.call];
            Step(s, a, ttl).born[t] == Birth(user, hash, OriginOf(a.call, parent))
  {
    if a.Advance? && a.call in s.calls && !s.calls[a.call].Storing? {
      WorldFrame(s, a.call, a.env, ttl);
    }
  }

  /** A step moves at most the call it names. */
  lemma OthersWait(s: State, a: Action, ttl: Time, k: CallId)
    requires k in s.calls && !(a.Advance? && a.call == k)
    ensures k in Step(s, a, ttl).calls && Step(s, a, ttl).calls[k] == s.calls[k]
  {
    if a.Advance? && a.call in s.calls {
      WorldFrame(s, a.call, a.env, ttl);
    }
  }

  predicate EntryPoint(k: Call) {
    k.Finding? || k.LoggingIn? || k.RemovingRow? || (k.Done? && !k.answer.Session?)
  }

  /** A call that appears in a step is at its entry point. */
  lemma Entry(s: State, a: Action, ttl: Time, k: CallId)
    requires k !in s.calls && k in Step(s, a, ttl).calls
    ensures EntryPoint(Step(s, a, ttl).calls[k])
  {
    if a.Advance? && a.call in s.calls {
      WorldFrame(s, a.call, a.env, ttl);
    }
  }

  // ---- the invariant every step keeps ----

  predicate Spent(s: State, t: TokenId) {
    !IsLive(s.db.tokens, t)
  }

  /** Call c has been told it owns the claim on p and has not stored the replacement yet. */
  predicate Holds(k: Call, p: TokenId) {
    match k
    case Issuing(_, _, parent) => parent == Some(p)
    case Storing(_, _, _, parent) => parent == Some(p)
    case _ => false
  }

  predicate StoreOk(s: State) {
    && Valid(s.db)
    && (forall t <- s.db.tokens ::
          t in s.born && s.born[t].user == s.db.tokens[t].userId && s.born[t].hash == s.db.tokens[t].hash)
    && (forall t <- s.born :: t < s.db.nextId)
  }

  predicate BirthOk(s: State, t: TokenId)
    requires t in s.born
  {
    var b := s.born[t];
    && b.origin.caller in s.stored
    && s.stored[b.origin.caller] == t
    && (match b.origin
        case FromLogin(c) => c in s.authed && s.authed[c] == b.user
        case FromRotation(p, c) =>
          p in s.claims && s.claims[p] == c && p < t && p in s.born && s.born[p].user == b.user)
  }

  predicate ClaimOk(s: State, p: TokenId)
    requires p in s.claims
  {
    p in s.born && Spent(s, p) && s.claims[p] in s.calls
  }

  predicate LineageOk(s: State) {
    && (forall p {:trigger ClaimOk(s, p)} | p in s.claims :: ClaimOk(s, p))
    && (forall t {:trigger BirthOk(s, t)} | t in s.born :: BirthOk(s, t))
    && (forall c | c in s.stored :: c in s.calls && s.stored[c] in s.born && s.born[s.stored[c]].origin.caller == c)
  }

  predicate PendingOk(s: State, c: CallId, user: UserId, parent: Option<TokenId>) {
    && c !in s.stored
    && match parent
       case Some(p) => p in s.claims && s.claims[p] == c && p in s.born && s.born[p].user == user && c !in s.authed
       case None => c in s.authed && s.authed[c] == user
  }

  predicate CallOk(s: State, c: CallId)
    requires c in s.calls
  {
    match s.calls[c]
    case LookingUp(t, user, _) => c !in s.stored && c !in s.authed && t in s.born && s.born[t].user == user
    case Claiming(t, user, _) => c !in s.stored && c !in s.authed && t in s.born && s.born[t].user == user
    case Issuing(user, _, parent) => PendingOk(s, c, user, parent)
    case Storing(user, _, _, parent) => PendingOk(s, c, user, parent)
    case Done(Session(user, hash)) =>
      c in s.stored && s.stored[c] in s.born && s.born[s.stored[c]].user == user && s.born[s.stored[c]].hash == hash
    case Done(Internal) => true
    case _ => c !in s.stored && c !in s.authed
  }

  predicate Inv(s: State) {
    && StoreOk(s)
    && LineageOk(s)
    && (forall c {:trigger CallOk(s, c)} | c in s.calls :: CallOk(s, c))
    && s.authed.Keys <= s.calls.Keys
    && s.rows.Keys <= s.known
  }

  lemma InvInit()
    ensures Inv(INIT)
  {
  }

  /** Tokens may be revoked or removed; nothing else about them changes and nothing is added. */
  predicate Decays(before: Db, after: Db) {
    && after.nextId == before.nextId
    && forall t <- after.tokens ::
         && t in before.tokens
         && after.tokens[t].userId == before.tokens[t].userId
         && after.tokens[t].hash == before.tokens[t].hash
         && (before.tokens[t].Revoked() ==> after.tokens[t].Revoked())
  }

  /** The invariant, but for the program point of call c. */
  predicate InvBut(s: State, c: CallId) {
    && StoreOk(s)
    && LineageOk(s)
    && (forall k {:trigger CallOk(s, k)} | k in s.calls && k != c :: CallOk(s, k))
    && s.authed.Keys <= s.calls.Keys
    && s.rows.Keys <= s.known
  }

  lemma GotoLineageOk(s: State, c: CallId, next: Call)
    requires LineageOk(s)
    ensures LineageOk(Goto(s, c, next))
  {
    var s' := Goto(s, c, next);
    forall t <- s'.born ensures BirthOk(s', t) {
      assert BirthOk(s, t);
    }
    forall p <- s'.claims ensures ClaimOk(s', p) {
      assert ClaimOk(s, p);
    }
  }

  lemma GotoCallOk(s: State, c: CallId, next: Call, k: CallId)
    requires k != c && k in s.calls && CallOk(s, k)
    ensures CallOk(Goto(s, c, next), k)
  {
  }

  lemma InvGoto(s: State, c: CallId, next: Call)
    requires InvBut(s, c)
    requires CallOk(Goto(s, c, next), c)
    ensures Inv(Goto(s, c, next))
  {
    var s' := Goto(s, c, next);
    GotoLineageOk(s, c, next);
    forall k <- s'.calls ensures CallOk(s', k) {
      if k != c {
        assert CallOk(s, k);
        GotoCallOk(s, c, next, k);
      }
    }
  }

  lemma InvDecay(s: State, db: Db)
    requires Inv(s) && Decays(s.db, db)
    ensures Inv(s.(db := db))
  {
    var s' := s.(db := db);
    forall k <- s'.calls ensures CallOk(s', k) {
      assert CallOk(s, k);
    }
    forall t <- s'.born ensures BirthOk(s', t) {
      assert BirthOk(s, t);
    }
    forall p <- s'.claims ensures ClaimOk(s', p) {
      assert ClaimOk(s, p);
    }
  }

  lemma InvRows(s: State, rows: map<UserId, Email>, known: set<UserId>)
    requires Inv(s) && rows.Keys <= known
    ensures Inv(s.(rows := rows, known := known))
  {
    var s' := s.(rows := rows, known := known);
    forall k <- s'.calls ensures CallOk(s', k) {
      assert CallOk(s, k);
    }
    forall t <- s'.born ensures BirthOk(s', t) {
      assert BirthOk(s, t);
    }
    forall p <- s'.claims ensures ClaimOk(s', p) {
      assert ClaimOk(s, p);
    }
  }

  lemma AuthedLineageOk(s: State, c: CallId, u: UserId)
    requires LineageOk(s) && c !in s.authed
    ensures LineageOk(s.(authed := s.authed[c := u]))
  {
    var s' := s.(authed := s.authed[c := u]);
    forall t <- s'.born ensures BirthOk(s', t) {
      assert BirthOk(s, t);
    }
    forall p <- s'.claims ensures ClaimOk(s', p) {
      assert ClaimOk(s, p);
    }
  }

  lemma InvAuthed(s: State, c: CallId, u: UserId)
    requires Inv(s) && c in s.calls && c !in s.stored && c !in s.authed
    ensures InvBut(s.(authed := s.authed[c := u]), c)
  {
    var s' := s.(authed := s.authed[c := u]);
    AuthedLineageOk(s, c, u);
    forall k | k in s'.calls && k != c ensures CallOk(s', k) {
      assert CallOk(s, k);
    }
  }

  lemma ClaimedLineageOk(s: State, c: CallId, t: TokenId)
    requires LineageOk(s) && c in s.calls && t in s.born && t !in s.claims && Spent(s, t)
    ensures LineageOk(s.(claims := s.claims[t := c]))
  {
    var s' := s.(claims := s.claims[t := c]);
    forall k <- s'.born ensures BirthOk(s', k) {
      assert BirthOk(s, k);
    }
    forall p <- s'.claims ensures ClaimOk(s', p) {
      assert p != t ==> ClaimOk(s, p);
    }
  }

  lemma ClaimedCallOk(s: State, c: CallId, t: TokenId, k: CallId)
    requires k in s.calls && CallOk(s, k) && t !in s.claims
    ensures CallOk(s.(claims := s.claims[t := c]), k)
  {
    match s.calls[k]
    case Issuing(_, _, _) =>
    case Storing(_, _, _, _) =>
    case _ =>
  }

  lemma InvClaimed(s: State, c: CallId, t: TokenId)
    requires Inv(s) && c in s.calls && t in s.born && t !in s.claims && Spent(s, t)
    ensures InvBut(s.(claims := s.claims[t := c]), c)
  {
    var s' := s.(claims := s.claims[t := c]);
    ClaimedLineageOk(s, c, t);
    forall k | k in s'.calls && k != c ensures CallOk(s', k) {
      assert CallOk(s, k);
      ClaimedCallOk(s, c, t, k);
    }
  }

  lemma InsertStoreOk(s: State, token: Token, fault: Fault, b: Birth)
    requires StoreOk(s) && Insert(s.db, token, fault).applied
    requires b.user == token.userId && b.hash == token.hash
    ensures StoreOk(Remember(s, s.db.nextId, b).(db := Insert(s.db, token, fault).db))
  {
  }

  lemma InsertLineageOk(s: State, t: TokenId, b: Birth, db: Db)
    requires LineageOk(s) && t !in s.born && b.origin.caller !in s.stored && b.origin.caller in s.calls
    requires db.tokens.Keys <= s.db.tokens.Keys + {t}
    requires forall p <- s.db.tokens :: p in db.tokens && db.tokens[p] == s.db.tokens[p]
    requires BirthOk(Remember(s, t, b), t)
    ensures LineageOk(Remember(s, t, b).(db := db))
  {
    var s' := Remember(s, t, b).(db := db);
    forall k <- s'.born ensures BirthOk(s', k) {
      assert k != t ==> BirthOk(s, k);
    }
    forall p <- s'.claims ensures ClaimOk(s', p) {
      assert ClaimOk(s, p);
    }
  }

  lemma InvInserted(s: State, c: CallId, token: Token, fault: Fault, b: Birth)
    requires Inv(s) && c in s.calls && c !in s.stored && c == b.origin.caller
    requires Insert(s.db, token, fault).applied && b.user == token.userId && b.hash == token.hash
    requires s.db.nextId !in s.born && BirthOk(Remember(s, s.db.nextId, b), s.db.nextId)
    ensures InvBut(Remember(s, s.db.nextId, b).(db := Insert(s.db, token, fault).db), c)
  {
    var db := Insert(s.db, token, fault).db;
    InsertStoreOk(s, token, fault, b);
    InsertLineageOk(s, s.db.nextId, b, db);
    var s' := Remember(s, s.db.nextId, b).(db := db);
    forall k | k in s'.calls && k != c ensures CallOk(s', k) {
      assert CallOk(s, k);
    }
  }

  lemma ClaimingOk(s: State, c: CallId, env: Env, ttl: Time)
    requires Inv(s) && c in s.calls && s.calls[c].Claiming?
    ensures InvBut(World(s, c, env, ttl), c)
  {
    assert CallOk(s, c);
    var Claiming(t, user, now) := s.calls[c];
    var e := Claim(s.db, t, now, env.fault);
    InvDecay(s, e.db);
    assert t in s.claims ==> ClaimOk(s, t);
    if e.ok {
      InvClaimed(s.(db := e.db), c, t);
    }
  }

  lemma StoringOk(s: State, c: CallId, env: Env, ttl: Time)
    requires Inv(s) && c in s.calls && s.calls[c].Storing?
    ensures InvBut(World(s, c, env, ttl), c)
  {
    assert CallOk(s, c);
    var Storing(user, hash, now, parent) := s.calls[c];
    var token := NewToken(user, hash, now, ttl);
    if Insert(s.db, token, env.fault).applied {
      InvInserted(s, c, token, env.fault, Birth(user, hash, OriginOf(c, parent)));
    }
  }

  lemma WorldOk(s: State, c: CallId, env: Env, ttl: Time)
    requires Inv(s) && c in s.calls
    ensures InvBut(World(s, c, env, ttl), c)
  {
    assert CallOk(s, c);
    match s.calls[c]
    case Wiping(user, now) => InvDecay(s, Wipe(s.db, user, now, env.fault).db);
    case Claiming(_, _, _) => ClaimingOk(s, c, env, ttl);
    case LoggingIn(_) =>
      var next := NextPoint(s, c, env, ttl);
      if next.Issuing? {
        InvAuthed(s, c, next.user);
      }
    case Storing(_, _, _, _) => StoringOk(s, c, env, ttl);
    case RemovingRow(user) => InvRows(s, World(s, c, env, ttl).rows, s.known);
    case RevokingAll(user) => InvDecay(s, Wipe(s.db, user, env.now, env.fault).db);
    case _ =>
  }

  lemma StoredPointOk(s: State, c: CallId, env: Env, ttl: Time)
    requires c in s.calls && s.calls[c].Storing? && s.db.nextId !in s.born
    ensures CallOk(Command(s, c, env, ttl), c)
  {
    var Storing(user, hash, now, parent) := s.calls[c];
    var e := Insert(s.db, NewToken(user, hash, now, ttl), env.fault);
    if e.applied {
      assert World(s, c, env, ttl).stored[c] == s.db.nextId;
    } else {
      assert NextPoint(s, c, env, ttl) == Done(Internal);
    }
  }

  lemma ReadPointOk(s: State, c: CallId, env: Env, ttl: Time)
    requires StoreOk(s) && c in s.calls && CallOk(s, c) && (s.calls[c].Finding? || s.calls[c].LookingUp?)
    ensures CallOk(Command(s, c, env, ttl), c)
  {
    if s.calls[c].Finding? {
    } else {
    }
  }

  lemma GrantPointOk(s: State, c: CallId, env: Env, ttl: Time)
    requires c in s.calls && CallOk(s, c) && (s.calls[c].Claiming? || s.calls[c].LoggingIn? || s.calls[c].Issuing?)
    ensures CallOk(Command(s, c, env, ttl), c)
  {
    if s.calls[c].Claiming? {
    } else if s.calls[c].LoggingIn? {
    } else {
    }
  }

  lemma PointOk(s: State, c: CallId, env: Env, ttl: Time)
    requires StoreOk(s) && c in s.calls && CallOk(s, c)
    ensures CallOk(Command(s, c, env, ttl), c)
  {
    if s.calls[c].Finding? || s.calls[c].LookingUp? {
      ReadPointOk(s, c, env, ttl);
    } else if s.calls[c].Claiming? || s.calls[c].LoggingIn? || s.calls[c].Issuing? {
      GrantPointOk(s, c, env, ttl);
    } else if s.calls[c].Storing? {
      StoredPointOk(s, c, env, ttl);
    } else if s.calls[c].Done? {
    } else if s.calls[c].RemovingRow? {
    } else {
    }
  }

  lemma InvBegin(s: State, c: CallId, first: Call)
    requires Inv(s) && EntryPoint(first)
    ensures Inv(Begin(s, c, first))
  {
    if c !in s.calls {
      assert c !in s.stored && c !in s.authed;
      InvGoto(s, c, first);
    }
  }

  lemma InvCommand(s: State, c: CallId, env: Env, ttl: Time)
    requires Inv(s) && c in s.calls
    ensures Inv(Command(s, c, env, ttl))
  {
    WorldOk(s, c, env, ttl);
    assert CallOk(s, c);
    PointOk(s, c, env, ttl);
    InvGoto(World(s, c, env, ttl), c, NextPoint(s, c, env, ttl));
  }

  lemma InvStep(s: State, a: Action, ttl: Time)
    requires Inv(s)
    ensures Inv(Step(s, a, ttl))
  {
    match a
    case StartRefresh(c, raw, now) => InvBegin(s, c, if raw.None? then Done(Unauthorized) else Finding(raw.value, now));
    case StartLogin(c, address) =>
      InvBegin(s, c, if address.None? then Done(InvalidCredentials) else LoggingIn(address.value));
    case StartDelete(c, actor, user) => InvBegin(s, c, DeleteEntry(actor, user));
    case Advance(c, env) => if c in s.calls { InvCommand(s, c, env, ttl); }
    case ExpireToken(t, serverNow) => InvDecay(s, Expire(s.db, t, serverNow));
    case AddRow(user, email) => if user !in s.known { InvRows(s, s.rows[user := email], s.known + {user}); }
    case ChangeEmail(user, email) => if user in s.rows { InvRows(s, s.rows[user := email], s.known); }
  }

  /** Every reachable state satisfies the invariant. */
  lemma {:induction false} InvExec(s: State, acts: seq<Action>, ttl: Time)
    requires Inv(s)
    ensures Inv(Exec(s, acts, ttl))
    decreases |acts|
  {
    if acts != [] {
      InvStep(s, acts[0], ttl);
      InvExec(Step(s, acts[0], ttl), acts[1..], ttl);
    }
  }

  /** Only a matched compare-and-swap on a live token gives a call a claim to hold. */
  lemma HoldsFrom(s: State, a: Action, ttl: Time, c: CallId, p: TokenId)
    requires c in Step(s, a, ttl).calls && Holds(Step(s, a, ttl).calls[c], p)
    ensures c in s.calls
    ensures Holds(s.calls[c], p) || (s.calls[c].Claiming? && s.calls[c].token == p && IsLive(s.db.tokens, p))
  {
    if c !in s.calls {
      Entry(s, a, ttl, c);
    } else if !(a.Advance? && a.call == c) {
      OthersWait(s, a, ttl, c);
    }
  }

  lemma WorldHistory(s: State, c: CallId, env: Env, ttl: Time, t: TokenId)
    requires Inv(s) && c in s.calls && t in s.born
    ensures t in World(s, c, env, ttl).born && World(s, c, env, ttl).born[t] == s.born[t]
    ensures Spent(s, t) ==> Spent(World(s, c, env, ttl), t)
  {
    match s.calls[c]
    case Wiping(_, _) =>
    case Claiming(_, _, _) =>
    case LoggingIn(_) =>
    case Storing(_, _, _, _) =>
    case RemovingRow(_) =>
    case RevokingAll(_) =>
    case _ =>
  }

  /** Births are never forgotten or rewritten, and a spent token never comes back. */
  lemma HistoryStands(s: State, a: Action, ttl: Time, t: TokenId)
    requires Inv(s) && t in s.born
    ensures t in Step(s, a, ttl).born && Step(s, a, ttl).born[t] == s.born[t]
    ensures Spent(s, t) ==> Spent(Step(s, a, ttl), t)
  {
    if a.Advance? && a.call in s.calls {
      WorldHistory(s, a.call, a.env, ttl, t);
    }
  }
}
