/**
 The race: any number of refreshes presenting the same live token, interleaved in any way, with nothing else
 going on and no faults. Exactly one of them gets a session.
 */
module RotationRace {
  import opened Wrappers
  import opened TokenStore
  import opened Rotation
  import opened RotationFamilies

  /** A step of the race on a token: a new contender presenting it in time, or a fault-free command. */
  ghost predicate RaceStep(s: State, a: Action, token: Token) {
    match a
    case StartRefresh(c, raw, now) => raw == Some(token.hash) && now < token.expiresAt
    case Advance(c, env) =>
      && env.fault.NoFault?
      && (c in s.calls && s.calls[c].Issuing? ==> env.random.Some? && !HashTaken(s.db.tokens, env.random.value))
    case _ => false
  }

  ghost predicate RaceRun(s: State, acts: seq<Action>, token: Token, ttl: Time)
    decreases |acts|
  {
    acts == [] || (RaceStep(s, acts[0], token) && RaceRun(Step(s, acts[0], ttl), acts[1..], token, ttl))
  }

  predicate AllDone(s: State) {
    forall c <- s.calls :: s.calls[c].Done?
  }

  /** How far the race has come: nobody has claimed the token, w has, or w has stored its replacement. */
  datatype Phase = Unclaimed | Claimed(w: CallId) | Won(w: CallId)

  predicate Contender(k: Call, t: TokenId, token: Token) {
    match k
    case Finding(hash, now) => hash == token.hash && now < token.expiresAt
    case LookingUp(t', user, _) => t' == t && user == token.userId
    case Claiming(t', user, _) => t' == t && user == token.userId
    case _ => false
  }

  predicate Beaten(k: Call, token: Token) {
    k == Done(Unauthorized) || (k.Wiping? && k.user == token.userId)
  }

  /** The tokens of the start are all there, the same but for revocations of this one user's. */
  predicate SameTokens(start: map<TokenId, Token>, tokens: map<TokenId, Token>, user: UserId) {
    forall t <- start ::
      && t in tokens
      && tokens[t] == start[t].(revokedAt := tokens[t].revokedAt)
      && (start[t].userId != user ==> tokens[t] == start[t])
  }

  predicate Claimant(k: Call, t: TokenId, token: Token, start: map<TokenId, Token>) {
    match k
    case Issuing(user, _, parent) => user == token.userId && parent == Some(t)
    case Storing(user, hash, _, parent) => user == token.userId && parent == Some(t) && !HashTaken(start, hash)
    case _ => false
  }

  predicate Ready(s0: State, t: TokenId) {
    IsLive(s0.db.tokens, t) && s0.db.tokens[t].userId in s0.rows && AllDone(s0)
  }

  predicate CallsIn(s0: State, s: State, t: TokenId, phase: Phase)
    requires t in s0.db.tokens
  {
    var token := s0.db.tokens[t];
    forall c <- s.calls ::
      if c in s0.calls then s.calls[c] == s0.calls[c]
      else match phase
           case Unclaimed => Contender(s.calls[c], t, token)
           case Claimed(w) =>
             if c == w then Claimant(s.calls[c], t, token, s0.db.tokens)
             else Contender(s.calls[c], t, token) || Beaten(s.calls[c], token)
           case Won(w) =>
             if c == w then s.calls[c].Done? && s.calls[c].answer.Session? && s.calls[c].answer.user == token.userId
             else Contender(s.calls[c], t, token) || Beaten(s.calls[c], token)
  }

  predicate StoreIn(s0: State, s: State, t: TokenId, phase: Phase)
    requires t in s0.db.tokens
  {
    && SameTokens(s0.db.tokens, s.db.tokens, s0.db.tokens[t].userId)
    && match phase
       case Unclaimed => s.db == s0.db && s.born == s0.born
       case Claimed(w) =>
         s.db.nextId == s0.db.nextId && s.db.tokens.Keys == s0.db.tokens.Keys && s.born == s0.born && Spent(s, t)
       case Won(w) =>
         var n := s0.db.nextId;
         && s.db.tokens.Keys == s0.db.tokens.Keys + {n}
         && s.born.Keys == s0.born.Keys + {n}
         && s.born[n].origin == FromRotation(t, w)
         && Spent(s, t)
  }

  predicate RaceInv(s0: State, s: State, t: TokenId, phase: Phase) {
    && Ready(s0, t)
    && s.rows == s0.rows
    && s0.calls.Keys <= s.calls.Keys
    && (phase.Claimed? || phase.Won? ==> phase.w in s.calls && phase.w !in s0.calls)
    && CallsIn(s0, s, t, phase)
    && StoreIn(s0, s, t, phase)
  }

  lemma RaceStart(s0: State, s: State, t: TokenId, phase: Phase, a: Action, ttl: Time)
    requires RaceInv(s0, s, t, phase) && a.StartRefresh? && RaceStep(s, a, s0.db.tokens[t])
    ensures RaceInv(s0, Step(s, a, ttl), t, phase)
  {
    if a.call !in s.calls {
      var next := Finding(a.raw.value, a.now);
      assert Step(s, a, ttl) == Goto(s, a.call, next);
      assert Contender(next, t, s0.db.tokens[t]);
    }
  }

  /** A contender reads: it goes on contending, unless it finds the token revoked. */
  lemma RaceFind(s0: State, s: State, t: TokenId, phase: Phase, c: CallId, env: Env, ttl: Time)
    requires RaceInv(s0, s, t, phase) && UniqueHashes(s.db.tokens)
    requires c in s.calls && c !in s0.calls && s.calls[c].Finding? && env.fault.NoFault?
    ensures RaceInv(s0, Command(s, c, env, ttl), t, phase)
  {
    var token := s0.db.tokens[t];
    assert s.db.tokens[t].hash == token.hash && s.db.tokens[t].expiresAt == token.expiresAt;
    assert HashTaken(s.db.tokens, token.hash);
    assert Lookup(s.db.tokens, token.hash) == Some(t);
  }

  lemma RaceLookUp(s0: State, s: State, t: TokenId, phase: Phase, c: CallId, env: Env, ttl: Time)
    requires RaceInv(s0, s, t, phase)
    requires c in s.calls && c !in s0.calls && s.calls[c].LookingUp? && env.fault.NoFault?
    ensures RaceInv(s0, Command(s, c, env, ttl), t, phase)
  {
  }

  lemma RaceWipe(s0: State, s: State, t: TokenId, phase: Phase, c: CallId, env: Env, ttl: Time)
    requires RaceInv(s0, s, t, phase)
    requires c in s.calls && c !in s0.calls && s.calls[c].Wiping? && env.fault.NoFault?
    ensures RaceInv(s0, Command(s, c, env, ttl), t, phase)
  {
    var s' := Command(s, c, env, ttl);
    assert s'.calls == s.calls[c := Done(Unauthorized)] && s'.rows == s.rows;
    assert s.calls[c].user == s0.db.tokens[t].userId;
    WipeKeepsStore(s0, s, t, phase, c, env, ttl);
  }

  lemma WipeKeepsStore(s0: State, s: State, t: TokenId, phase: Phase, c: CallId, env: Env, ttl: Time)
    requires t in s0.db.tokens && StoreIn(s0, s, t, phase) && !phase.Unclaimed?
    requires c in s.calls && s.calls[c].Wiping? && s.calls[c].user == s0.db.tokens[t].userId && env.fault.NoFault?
    ensures StoreIn(s0, Command(s, c, env, ttl), t, phase)
  {
    var s', user := Command(s, c, env, ttl), s0.db.tokens[t].userId;
    assert s'.db == s.db.(tokens := RevokeAll(s.db.tokens, user, s.calls[c].now)) && s'.born == s.born;
    WipeKeepsTokens(s0.db.tokens, s.db.tokens, user, s.calls[c].now, t);
    match phase
    case Claimed(_) =>
    case Won(_) =>
  }

  lemma WipeKeepsTokens(start: map<TokenId, Token>, tokens: map<TokenId, Token>, user: UserId, now: Time, t: TokenId)
    requires SameTokens(start, tokens, user)
    ensures SameTokens(start, RevokeAll(tokens, user, now), user)
    ensures RevokeAll(tokens, user, now).Keys == tokens.Keys
    ensures !IsLive(tokens, t) ==> !IsLive(RevokeAll(tokens, user, now), t)
  {
  }

  /** The compare-and-swap: the first contender to get here wins the claim, every later one is beaten. */
  lemma RaceClaim(s0: State, s: State, t: TokenId, phase: Phase, c: CallId, env: Env, ttl: Time) returns (next: Phase)
    requires RaceInv(s0, s, t, phase)
    requires c in s.calls && c !in s0.calls && s.calls[c].Claiming? && env.fault.NoFault?
    ensures RaceInv(s0, Command(s, c, env, ttl), t, next)
  {
    if phase.Unclaimed? {
      next := Claimed(c);
      FirstClaim(s0, s, t, c, env, ttl);
    } else {
      next := phase;
      assert Command(s, c, env, ttl) == Goto(s, c, Done(Unauthorized));
    }
  }

  lemma FirstClaim(s0: State, s: State, t: TokenId, c: CallId, env: Env, ttl: Time)
    requires RaceInv(s0, s, t, Unclaimed)
    requires c in s.calls && c !in s0.calls && s.calls[c].Claiming? && env.fault.NoFault?
    ensures RaceInv(s0, Command(s, c, env, ttl), t, Claimed(c))
  {
    var s' := Command(s, c, env, ttl);
    var Claiming(_, user, now) := s.calls[c];
    assert s'.db == s.db.(tokens := s.db.tokens[t := s.db.tokens[t].(revokedAt := Some(now))]);
    assert s'.calls == s.calls[c := Issuing(user, now, Some(t))];
  }

  lemma RaceIssue(s0: State, s: State, t: TokenId, phase: Phase, c: CallId, env: Env, ttl: Time)
    requires RaceInv(s0, s, t, phase)
    requires c in s.calls && c !in s0.calls && s.calls[c].Issuing? && env.fault.NoFault?
    requires env.random.Some? && !HashTaken(s.db.tokens, env.random.value)
    ensures RaceInv(s0, Command(s, c, env, ttl), t, phase)
  {
    assert phase == Claimed(c);
    assert !HashTaken(s0.db.tokens, env.random.value);
  }

  lemma StoreLands(s0: State, s: State, t: TokenId, c: CallId, env: Env, ttl: Time)
    requires t in s0.db.tokens && StoreIn(s0, s, t, Claimed(c)) && StoreOk(s)
    requires c in s.calls && s.calls[c].Storing? && env.fault.NoFault?
    requires s.calls[c].parent == Some(t) && !HashTaken(s0.db.tokens, s.calls[c].hash)
    ensures StoreIn(s0, Command(s, c, env, ttl), t, Won(c))
    ensures NextPoint(s, c, env, ttl) == Done(Session(s.calls[c].user, s.calls[c].hash))
  {
    var Storing(user, hash, now, parent) := s.calls[c];
    assert !HashTaken(s.db.tokens, hash);
    var e := Insert(s.db, NewToken(user, hash, now, ttl), env.fault);
    assert e.ok && e.applied;
    assert World(s, c, env, ttl) ==
           Remember(s, s.db.nextId, Birth(user, hash, FromRotation(t, c))).(db := e.db);
    assert s.db.nextId !in s.db.tokens && s.db.nextId !in s.born;
  }

  lemma RaceStore(s0: State, s: State, t: TokenId, phase: Phase, c: CallId, env: Env, ttl: Time)
    requires RaceInv(s0, s, t, phase) && StoreOk(s)
    requires c in s.calls && c !in s0.calls && s.calls[c].Storing? && env.fault.NoFault?
    ensures RaceInv(s0, Command(s, c, env, ttl), t, Won(c))
  {
    assert phase == Claimed(c);
    StoreLands(s0, s, t, c, env, ttl);
    WorldFrame(s, c, env, ttl);
  }

  lemma RaceAdvance(s0: State, s: State, t: TokenId, phase: Phase, a: Action, ttl: Time) returns (next: Phase)
    requires RaceInv(s0, s, t, phase) && StoreOk(s) && RaceStep(s, a, s0.db.tokens[t])
    ensures RaceInv(s0, Step(s, a, ttl), t, next)
  {
    next := phase;
    if a.StartRefresh? {
      RaceStart(s0, s, t, phase, a, ttl);
    } else if a.call in s.calls {
      if s.calls[a.call].Done? {
        assert Step(s, a, ttl) == s;
      } else if s.calls[a.call].Finding? {
        RaceFind(s0, s, t, phase, a.call, a.env, ttl);
      } else if s.calls[a.call].LookingUp? {
        RaceLookUp(s0, s, t, phase, a.call, a.env, ttl);
      } else if s.calls[a.call].Wiping? {
        RaceWipe(s0, s, t, phase, a.call, a.env, ttl);
      } else if s.calls[a.call].Claiming? {
        next := RaceClaim(s0, s, t, phase, a.call, a.env, ttl);
      } else if s.calls[a.call].Issuing? {
        RaceIssue(s0, s, t, phase, a.call, a.env, ttl);
      } else {
        RaceStore(s0, s, t, phase, a.call, a.env, ttl);
        next := Won(a.call);
      }
    }
  }

  lemma {:induction false} RaceExec(s0: State, s: State, t: TokenId, phase: Phase, acts: seq<Action>, ttl: Time)
    returns (last: Phase)
    requires Inv(s) && RaceInv(s0, s, t, phase) && RaceRun(s, acts, s0.db.tokens[t], ttl)
    ensures RaceInv(s0, Exec(s, acts, ttl), t, last)
    decreases |acts|
  {
    if acts == [] {
      last := phase;
    } else {
      var next := RaceAdvance(s0, s, t, phase, acts[0], ttl);
      InvStep(s, acts[0], ttl);
      last := RaceExec(s0, Step(s, acts[0], ttl), t, next, acts[1..], ttl);
    }
  }

  /**
   Exactly one winner, for every number of contenders and every interleaving. From any reachable state with all
   calls answered, run any fault-free race on one live token of an existing user until every call is answered.
   If anyone took part, one call got a session, all others got Unauthorized, exactly one token was stored, with
   the contested token as its parent, and no token of another user changed.
   */
  lemma ExactlyOneWinner(before: seq<Action>, race: seq<Action>, ttl: Time, s0: State, e: State, t: TokenId)
    returns (w: CallId)
    requires s0 == Exec(INIT, before, ttl) && Ready(s0, t)
    requires RaceRun(s0, race, s0.db.tokens[t], ttl) && e == Exec(s0, race, ttl)
    requires AllDone(e) && e.calls.Keys != s0.calls.Keys
    ensures w in e.calls && w !in s0.calls
    ensures e.calls[w].answer.Session? && e.calls[w].answer.user == s0.db.tokens[t].userId
    ensures forall c <- e.calls :: c !in s0.calls && c != w ==> e.calls[c] == Done(Unauthorized)
    ensures e.db.tokens.Keys == s0.db.tokens.Keys + {s0.db.nextId}
    ensures e.born.Keys == s0.born.Keys + {s0.db.nextId}
    ensures e.born[s0.db.nextId].origin == FromRotation(t, w)
    ensures Spent(e, t)
    ensures forall k <- s0.db.tokens :: s0.db.tokens[k].userId != s0.db.tokens[t].userId ==>
              e.db.tokens[k] == s0.db.tokens[k]
  {
    InvInit();
    InvExec(INIT, before, ttl);
    var last := RaceExec(s0, s0, t, Unclaimed, race, ttl);
    var c :| c in e.calls && c !in s0.calls;
    assert last.Won?;
    w := last.w;
  }

  lemma WinnersTokenIsNewest(s0: State, e: State, t: TokenId, w: CallId, live: TokenId)
    requires StoreOk(s0) && Inv(e) && WellFounded(e.born) && IsLive(e.db.tokens, live)
    requires e.born.Keys == s0.born.Keys + {s0.db.nextId} && e.born[s0.db.nextId].origin == FromRotation(t, w)
    ensures live in e.born && t in e.born
    ensures LoginOf(e.born, live) == LoginOf(e.born, t) ==> live == s0.db.nextId
  {
    var n := s0.db.nextId;
    assert LoginOf(e.born, n) == LoginOf(e.born, t);
    if LoginOf(e.born, live) == LoginOf(e.born, n) {
      OnlyTheNewestLives(e, n, live);
    }
  }

  /** Of the contested token's family, at most the winner's token is live at the end. */
  lemma OnlyTheWinnersTokenLives(before: seq<Action>, race: seq<Action>, ttl: Time, s0: State, e: State,
                                 t: TokenId, live: TokenId)
    requires s0 == Exec(INIT, before, ttl) && Ready(s0, t)
    requires RaceRun(s0, race, s0.db.tokens[t], ttl) && e == Exec(s0, race, ttl)
    requires AllDone(e) && e.calls.Keys != s0.calls.Keys
    requires IsLive(e.db.tokens, live)
    ensures WellFounded(e.born) && live in e.born && t in e.born
    ensures LoginOf(e.born, live) == LoginOf(e.born, t) ==> live == s0.db.nextId
  {
    var w := ExactlyOneWinner(before, race, ttl, s0, e, t);
    InvInit();
    InvExec(INIT, before, ttl);
    InvExec(s0, race, ttl);
    Lineage(e);
    WinnersTokenIsNewest(s0, e, t, w, live);
  }
}
