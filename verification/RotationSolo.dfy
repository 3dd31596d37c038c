/**
 One call at a time. Run alone and without faults, a refresh is a function of the store; so a client that presents
 each token it is given, in time, is never turned away.
 */
module RotationSolo {
  import opened Wrappers
  import opened TokenStore
  import opened Rotation

  /** The commands of one call, one after the other. */
  function Advances(c: CallId, envs: seq<Env>): (acts: seq<Action>)
    ensures |acts| == |envs| && forall i | 0 <= i < |envs| :: acts[i] == Advance(c, envs[i])
  {
    seq(|envs|, i requires 0 <= i < |envs| => Advance(c, envs[i]))
  }

  ghost function Alone(s: State, c: CallId, envs: seq<Env>, ttl: Time): State {
    Exec(s, Advances(c, envs), ttl)
  }

  lemma AloneStep(s: State, c: CallId, envs: seq<Env>, ttl: Time)
    ensures envs == [] ==> Alone(s, c, envs, ttl) == s
    ensures envs != [] && c in s.calls ==> Alone(s, c, envs, ttl) == Alone(Command(s, c, envs[0], ttl), c, envs[1..], ttl)
  {
    if envs != [] {
      assert Advances(c, envs)[1..] == Advances(c, envs[1..]);
    }
  }

  lemma AloneOnce(s: State, c: CallId, env: Env, ttl: Time)
    requires c in s.calls
    ensures Alone(s, c, [env], ttl) == Command(s, c, env, ttl)
  {
    AloneStep(s, c, [env], ttl);
    AloneStep(Command(s, c, env, ttl), c, [], ttl);
  }

  /** A call that has answered sends nothing more. */
  lemma {:induction false} AnsweredIsQuiet(s: State, c: CallId, envs: seq<Env>, ttl: Time)
    requires c in s.calls && s.calls[c].Done?
    ensures Alone(s, c, envs, ttl) == s
    decreases |envs|
  {
    AloneStep(s, c, envs, ttl);
    if envs != [] {
      assert Command(s, c, envs[0], ttl) == s;
      AnsweredIsQuiet(s, c, envs[1..], ttl);
    }
  }

  /** Refresh sends at most five commands. */
  ghost function SoloRefresh(s: State, c: CallId, raw: Option<Hash>, now: Time, envs: seq<Env>, ttl: Time): State {
    Alone(Step(s, StartRefresh(c, raw, now), ttl), c, envs, ttl)
  }

  ghost function SoloLogin(s: State, c: CallId, address: Option<Email>, envs: seq<Env>, ttl: Time): State {
    Alone(Step(s, StartLogin(c, address), ttl), c, envs, ttl)
  }

  ghost function SoloDelete(s: State, c: CallId, actor: UserId, user: UserId, envs: seq<Env>, ttl: Time): State {
    Alone(Step(s, StartDelete(c, actor, user), ttl), c, envs, ttl)
  }

  function Quiet(random: Hash): Env {
    Env(NoFault, 0, Some(random), Match)
  }

  ghost function QuietRefresh(s: State, c: CallId, hash: Hash, now: Time, random: Hash, ttl: Time): State {
    SoloRefresh(s, c, Some(hash), now, seq(5, _ => Quiet(random)), ttl)
  }

  /** The old token revoked, and one new token stored beside it. */
  function Rotated(db: Db, t: TokenId, user: UserId, now: Time, random: Hash, ttl: Time): Db
    requires t in db.tokens
  {
    Db(db.tokens[t := db.tokens[t].(revokedAt := Some(now))][db.nextId := NewToken(user, random, now, ttl)], db.nextId + 1)
  }

  /** What a refresh does to the documents when nothing interferes, and what it answers. */
  datatype Outcome = Outcome(db: Db, answer: Answer)

  ghost function Refreshed(rows: map<UserId, Email>, db: Db, hash: Hash, now: Time, random: Hash, ttl: Time): Outcome {
    match Lookup(db.tokens, hash)
    case None => Outcome(db, Unauthorized)
    case Some(t) =>
      var token := db.tokens[t];
      if token.Revoked() then Outcome(db.(tokens := RevokeAll(db.tokens, token.userId, now)), Unauthorized)
      else if token.expiresAt <= now || token.userId !in rows then Outcome(db, Unauthorized)
      else Outcome(Rotated(db, t, token.userId, now, random, ttl), Session(token.userId, random))
  }

  lemma QuietSteps(s: State, c: CallId, n: nat, random: Hash, ttl: Time)
    requires c in s.calls && n > 0
    ensures Alone(s, c, seq(n, _ => Quiet(random)), ttl) ==
            Alone(Command(s, c, Quiet(random), ttl), c, seq(n - 1, _ => Quiet(random)), ttl)
  {
    AloneStep(s, c, seq(n, _ => Quiet(random)), ttl);
    assert seq(n, _ => Quiet(random))[1..] == seq(n - 1, _ => Quiet(random));
  }

  /** Claim, issue and store, on a live token. */
  lemma QuietRotation(s: State, c: CallId, t: TokenId, user: UserId, now: Time, random: Hash, ttl: Time)
    requires c in s.calls && s.calls[c] == Claiming(t, user, now) && IsLive(s.db.tokens, t)
    requires Valid(s.db) && !HashTaken(s.db.tokens, random)
    ensures var e := Alone(s, c, seq(3, _ => Quiet(random)), ttl);
      && e.db == Rotated(s.db, t, user, now, random, ttl)
      && e.calls == s.calls[c := Done(Session(user, random))] && e.rows == s.rows
  {
    var claimed := Command(s, c, Quiet(random), ttl);
    QuietSteps(s, c, 3, random, ttl);
    assert claimed.calls[c] == Issuing(user, now, Some(t));
    var ready := Command(claimed, c, Quiet(random), ttl);
    QuietSteps(claimed, c, 2, random, ttl);
    assert ready.calls[c] == Storing(user, random, now, Some(t)) && ready.db == claimed.db;
    forall k <- ready.db.tokens ensures ready.db.tokens[k].hash != random {
      assert ready.db.tokens[k].hash == s.db.tokens[k].hash;
    }
    QuietStore(ready, c, random, ttl);
    QuietSteps(ready, c, 1, random, ttl);
    AnsweredIsQuiet(Command(ready, c, Quiet(random), ttl), c, seq(0, _ => Quiet(random)), ttl);
  }

  lemma QuietStore(s: State, c: CallId, random: Hash, ttl: Time)
    requires c in s.calls && s.calls[c].Storing? && s.calls[c].hash == random && !HashTaken(s.db.tokens, random)
    ensures var Storing(user, _, now, _) := s.calls[c];
      var e := Command(s, c, Quiet(random), ttl);
      && e.db == Db(s.db.tokens[s.db.nextId := NewToken(user, random, now, ttl)], s.db.nextId + 1)
      && e.calls == s.calls[c := Done(Session(user, random))] && e.rows == s.rows
  {
  }

  /** From the user lookup on. */
  lemma QuietLookup(s: State, c: CallId, t: TokenId, user: UserId, now: Time, random: Hash, ttl: Time)
    requires c in s.calls && s.calls[c] == LookingUp(t, user, now) && IsLive(s.db.tokens, t)
    requires Valid(s.db) && !HashTaken(s.db.tokens, random)
    ensures var e := Alone(s, c, seq(4, _ => Quiet(random)), ttl);
      && e.rows == s.rows
      && if user !in s.rows then e.db == s.db && e.calls == s.calls[c := Done(Unauthorized)]
         else e.db == Rotated(s.db, t, user, now, random, ttl) && e.calls == s.calls[c := Done(Session(user, random))]
  {
    QuietSteps(s, c, 4, random, ttl);
    var next := Command(s, c, Quiet(random), ttl);
    if user !in s.rows {
      AnsweredIsQuiet(next, c, seq(3, _ => Quiet(random)), ttl);
    } else {
      QuietRotation(next, c, t, user, now, random, ttl);
    }
  }

  /** Reuse: the wipe, and the refusal. */
  lemma QuietWipe(s: State, c: CallId, user: UserId, now: Time, random: Hash, ttl: Time)
    requires c in s.calls && s.calls[c] == Wiping(user, now)
    ensures var e := Alone(s, c, seq(4, _ => Quiet(random)), ttl);
      && e.db == s.db.(tokens := RevokeAll(s.db.tokens, user, now))
      && e.calls == s.calls[c := Done(Unauthorized)] && e.rows == s.rows
  {
    QuietSteps(s, c, 4, random, ttl);
    AnsweredIsQuiet(Command(s, c, Quiet(random), ttl), c, seq(3, _ => Quiet(random)), ttl);
  }

  /** That function, by what the lookup finds. */
  lemma RefreshedIs(rows: map<UserId, Email>, db: Db, hash: Hash, now: Time, random: Hash, ttl: Time)
    ensures var o := Refreshed(rows, db, hash, now, random, ttl);
      match AfterFind(db.tokens, hash, now, NoFault)
      case Wiping(user, at) => at == now && o == Outcome(db.(tokens := RevokeAll(db.tokens, user, now)), Unauthorized)
      case LookingUp(t, user, at) =>
        && at == now && IsLive(db.tokens, t)
        && o == (if user !in rows then Outcome(db, Unauthorized)
                 else Outcome(Rotated(db, t, user, now, random, ttl), Session(user, random)))
      case Done(answer) => o == Outcome(db, answer)
      case _ => false
  {
  }

  /** The lookup. */
  lemma QuietFind(s: State, c: CallId, hash: Hash, now: Time, random: Hash, ttl: Time)
    requires c !in s.calls
    ensures QuietRefresh(s, c, hash, now, random, ttl) ==
            Alone(Goto(s, c, AfterFind(s.db.tokens, hash, now, NoFault)), c, seq(4, _ => Quiet(random)), ttl)
  {
    var begun := Goto(s, c, Finding(hash, now));
    assert Step(s, StartRefresh(c, Some(hash), now), ttl) == begun;
    QuietSteps(begun, c, 5, random, ttl);
    assert Command(begun, c, Quiet(random), ttl) == Goto(s, c, AfterFind(s.db.tokens, hash, now, NoFault));
  }

  /**
   Alone and without faults, Refresh is a function of the rows and the documents: it answers a session exactly
   for a known, unrevoked, unexpired token of an existing user, and changes the documents accordingly.
   */
  lemma RefreshIsAFunction(s: State, c: CallId, hash: Hash, now: Time, random: Hash, ttl: Time)
    requires c !in s.calls && Valid(s.db) && !HashTaken(s.db.tokens, random)
    ensures var e, o := QuietRefresh(s, c, hash, now, random, ttl), Refreshed(s.rows, s.db, hash, now, random, ttl);
      e.db == o.db && e.calls == s.calls[c := Done(o.answer)] && e.rows == s.rows
  {
    QuietFind(s, c, hash, now, random, ttl);
    RefreshedIs(s.rows, s.db, hash, now, random, ttl);
    var next := AfterFind(s.db.tokens, hash, now, NoFault);
    var found := Goto(s, c, next);
    QuietRest(found, c, random, ttl, Refreshed(s.rows, s.db, hash, now, random, ttl));
    assert found.calls[c := Done(Unauthorized)] == s.calls[c := Done(Unauthorized)];
  }

  /** After the lookup. */
  lemma QuietRest(s: State, c: CallId, random: Hash, ttl: Time, o: Outcome)
    requires c in s.calls && Valid(s.db) && !HashTaken(s.db.tokens, random)
    requires match s.calls[c]
             case Wiping(user, now) => o == Outcome(s.db.(tokens := RevokeAll(s.db.tokens, user, now)), Unauthorized)
             case LookingUp(t, user, now) =>
               && IsLive(s.db.tokens, t)
               && o == (if user !in s.rows then Outcome(s.db, Unauthorized)
                        else Outcome(Rotated(s.db, t, user, now, random, ttl), Session(user, random)))
             case Done(answer) => o == Outcome(s.db, answer)
             case _ => false
    ensures var e := Alone(s, c, seq(4, _ => Quiet(random)), ttl);
      e.db == o.db && e.calls == s.calls[c := Done(o.answer)] && e.rows == s.rows
  {
    if s.calls[c].Wiping? {
      QuietWipe(s, c, s.calls[c].user, s.calls[c].now, random, ttl);
    } else if s.calls[c].LookingUp? {
      QuietLookup(s, c, s.calls[c].token, s.calls[c].user, s.calls[c].now, random, ttl);
    } else {
      AnsweredIsQuiet(s, c, seq(4, _ => Quiet(random)), ttl);
    }
  }

  /** The same, as a condition a caller can read off the documents. */
  lemma SessionIff(rows: map<UserId, Email>, db: Db, hash: Hash, now: Time, random: Hash, ttl: Time)
    requires Valid(db)
    ensures Refreshed(rows, db, hash, now, random, ttl).answer.Session? <==>
            exists t <- db.tokens :: db.tokens[t].hash == hash && !db.tokens[t].Revoked() && now < db.tokens[t].expiresAt
                                     && db.tokens[t].userId in rows
  {
    if t :| t in db.tokens && db.tokens[t].hash == hash && !db.tokens[t].Revoked() && now < db.tokens[t].expiresAt
            && db.tokens[t].userId in rows {
      assert HashTaken(db.tokens, hash);
    }
  }

  // ---- a chain of refreshes ----

  datatype Use = Use(now: Time, random: Hash)

  /** Call after call, each presenting the token the call before it was given. */
  ghost function Chained(s: State, c: CallId, hash: Hash, plan: seq<Use>, ttl: Time): State
    decreases |plan|
  {
    if plan == [] then s
    else Chained(QuietRefresh(s, c, hash, plan[0].now, plan[0].random, ttl), c + 1, plan[0].random, plan[1..], ttl)
  }

  /** Each token is presented before it expires. */
  predicate InTime(deadline: Time, plan: seq<Use>, ttl: Time)
    decreases |plan|
  {
    plan == [] || (plan[0].now < deadline && InTime(plan[0].now + ttl, plan[1..], ttl))
  }

  /** The random bytes never repeat. */
  predicate AllFresh(tokens: map<TokenId, Token>, plan: seq<Use>) {
    && (forall i | 0 <= i < |plan| :: !HashTaken(tokens, plan[i].random))
    && (forall i, j | 0 <= i < j < |plan| :: plan[i].random != plan[j].random)
  }

  predicate Unused(s: State, c: CallId) {
    forall k <- s.calls :: k < c
  }

  lemma OneLink(s: State, c: CallId, t: TokenId, use: Use, ttl: Time)
    requires Unused(s, c) && Valid(s.db) && IsLive(s.db.tokens, t) && s.db.tokens[t].userId in s.rows
    requires use.now < s.db.tokens[t].expiresAt && !HashTaken(s.db.tokens, use.random)
    ensures var user := s.db.tokens[t].userId;
      var e := QuietRefresh(s, c, s.db.tokens[t].hash, use.now, use.random, ttl);
      && e.calls == s.calls[c := Done(Session(user, use.random))] && e.rows == s.rows
      && Valid(e.db) && IsLive(e.db.tokens, s.db.nextId)
      && e.db.tokens[s.db.nextId] == NewToken(user, use.random, use.now, ttl)
      && (forall h :: HashTaken(e.db.tokens, h) ==> HashTaken(s.db.tokens, h) || h == use.random)
  {
    RefreshIsAFunction(s, c, s.db.tokens[t].hash, use.now, use.random, ttl);
    var e := QuietRefresh(s, c, s.db.tokens[t].hash, use.now, use.random, ttl);
    assert HashTaken(s.db.tokens, s.db.tokens[t].hash);
    assert Lookup(s.db.tokens, s.db.tokens[t].hash) == Some(t);
    assert forall k <- e.db.tokens :: k == s.db.nextId || (k in s.db.tokens && e.db.tokens[k].hash == s.db.tokens[k].hash);
    forall k, k' | k in e.db.tokens && k' in e.db.tokens && e.db.tokens[k].hash == e.db.tokens[k'].hash ensures k == k' {
    }
  }

  /**
   Reuse after the fact: once a refresh has been granted, presenting the old token again is refused and leaves the
   user without a live token, the one just granted included.
   */
  lemma ReuseWipes(s: State, c: CallId, t: TokenId, use: Use, again: Use, ttl: Time)
    requires Unused(s, c) && Valid(s.db) && IsLive(s.db.tokens, t) && s.db.tokens[t].userId in s.rows
    requires use.now < s.db.tokens[t].expiresAt && AllFresh(s.db.tokens, [use, again])
    ensures var old' := s.db.tokens[t];
      var granted := QuietRefresh(s, c, old'.hash, use.now, use.random, ttl);
      var e := QuietRefresh(granted, c + 1, old'.hash, again.now, again.random, ttl);
      && granted.calls == s.calls[c := Done(Session(old'.userId, use.random))]
      && e.calls == granted.calls[c + 1 := Done(Unauthorized)]
      && LiveOf(e.db.tokens, old'.userId) == {}
  {
    var hash := s.db.tokens[t].hash;
    var granted := QuietRefresh(s, c, hash, use.now, use.random, ttl);
    assert [use, again][0] == use && [use, again][1] == again;
    OneLink(s, c, t, use, ttl);
    RefreshIsAFunction(s, c, hash, use.now, use.random, ttl);
    assert HashTaken(s.db.tokens, hash) && Lookup(s.db.tokens, hash) == Some(t);
    assert granted.db.tokens[t].hash == hash && granted.db.tokens[t].Revoked();
    assert HashTaken(granted.db.tokens, hash) && Lookup(granted.db.tokens, hash) == Some(t);
    RefreshIsAFunction(granted, c + 1, hash, again.now, again.random, ttl);
  }

  /** Calls c, c + 1, ... were each given the session their part of the plan asked for. */
  predicate AllGranted(calls: map<CallId, Call>, c: CallId, user: UserId, plan: seq<Use>)
    decreases |plan|
  {
    plan == [] ||
    (c in calls && calls[c] == Done(Session(user, plan[0].random)) && AllGranted(calls, c + 1, user, plan[1..]))
  }

  /** A client that presents each token it is given before it expires gets a session every time, however long it goes on. */
  lemma {:induction false} ChainSucceeds(s: State, c: CallId, t: TokenId, plan: seq<Use>, ttl: Time)
    requires Unused(s, c) && Valid(s.db) && IsLive(s.db.tokens, t) && s.db.tokens[t].userId in s.rows
    requires InTime(s.db.tokens[t].expiresAt, plan, ttl) && AllFresh(s.db.tokens, plan)
    ensures var e := Chained(s, c, s.db.tokens[t].hash, plan, ttl);
      && AllGranted(e.calls, c, s.db.tokens[t].userId, plan)
      && (forall k <- s.calls :: k in e.calls && e.calls[k] == s.calls[k])
    decreases |plan|
  {
    if plan != [] {
      var next := QuietRefresh(s, c, s.db.tokens[t].hash, plan[0].now, plan[0].random, ttl);
      OneLink(s, c, t, plan[0], ttl);
      ChainSucceeds(next, c + 1, s.db.nextId, plan[1..], ttl);
      assert c in next.calls;
    }
  }

  /** With a positive lifetime there is always time: a token presented the moment it is given is in time. */
  lemma {:induction false} PresentedAtOnce(now: Time, plan: seq<Use>, ttl: Time)
    requires ttl > 0 && forall i | 0 <= i < |plan| :: plan[i].now == now
    ensures InTime(now + ttl, plan, ttl)
    decreases |plan|
  {
    if plan != [] {
      PresentedAtOnce(now, plan[1..], ttl);
    }
  }
}
