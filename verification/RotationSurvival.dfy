/**
 What becomes of the winner of a race. Its token survives unless a wipe runs after it was stored, and a wipe runs
 exactly when some contender looks the contested token up too late, once it is spent.
 */
module RotationSurvival {
  import opened Wrappers
  import opened TokenStore
  import opened Rotation
  import opened RotationFamilies
  import opened RotationRace
  import opened RotationSolo

  /** The step runs a wipe. */
  predicate IsWipe(s: State, a: Action) {
    a.Advance? && a.call in s.calls && s.calls[a.call].Wiping?
  }

  /** The step looks a token up although t is already spent. */
  predicate IsLate(s: State, a: Action, t: TokenId) {
    a.Advance? && a.call in s.calls && s.calls[a.call].Finding? && Spent(s, t)
  }

  /** Somewhere along the run a wipe runs while n is stored. */
  ghost predicate WipedAfterStore(s: State, acts: seq<Action>, n: TokenId, ttl: Time)
    decreases |acts|
  {
    acts != [] &&
    ((IsWipe(s, acts[0]) && n in s.db.tokens) || WipedAfterStore(Step(s, acts[0], ttl), acts[1..], n, ttl))
  }

  ghost predicate WipeRuns(s: State, acts: seq<Action>, ttl: Time)
    decreases |acts|
  {
    acts != [] && (IsWipe(s, acts[0]) || WipeRuns(Step(s, acts[0], ttl), acts[1..], ttl))
  }

  ghost predicate LateLookup(s: State, acts: seq<Action>, t: TokenId, ttl: Time)
    decreases |acts|
  {
    acts != [] && (IsLate(s, acts[0], t) || LateLookup(Step(s, acts[0], ttl), acts[1..], t, ttl))
  }

  /** A complete fault-free race on t, from a reachable state, that somebody took part in. */
  ghost predicate CompleteRace(before: seq<Action>, race: seq<Action>, ttl: Time, s0: State, e: State, t: TokenId) {
    && s0 == Exec(INIT, before, ttl) && Ready(s0, t)
    && RaceRun(s0, race, s0.db.tokens[t], ttl) && e == Exec(s0, race, ttl)
    && AllDone(e) && e.calls.Keys != s0.calls.Keys
  }

  // ---- one step of a race ----

  /** Not stored yet, or stored and live. */
  predicate Unharmed(s: State, n: TokenId) {
    n in s.db.tokens ==> IsLive(s.db.tokens, n)
  }

  /** The documents of the start, but for the contested one, are as they were. */
  predicate Untouched(s0: State, s: State, t: TokenId) {
    forall k <- s0.db.tokens :: k != t ==> k in s.db.tokens && s.db.tokens[k] == s0.db.tokens[k]
  }

  predicate AnyWiping(s: State) {
    exists c <- s.calls :: s.calls[c].Wiping?
  }

  /** The winner's token belongs to the user whose token was contested. */
  lemma WinnersUser(s0: State, s: State, t: TokenId, phase: Phase)
    requires RaceInv(s0, s, t, phase) && Inv(s) && s0.db.nextId in s.db.tokens && StoreOk(s0)
    ensures phase.Won? && s.db.tokens[s0.db.nextId].userId == s0.db.tokens[t].userId
  {
    var n := s0.db.nextId;
    assert n !in s0.db.tokens;
    assert phase.Won?;
    assert BirthOk(s, n);
  }

  /** At most the contested document changes, and at most n is added, live. */
  predicate OnlyRotates(before: map<TokenId, Token>, after: map<TokenId, Token>, t: TokenId, n: TokenId) {
    && (forall k <- before :: k != t ==> k in after && after[k] == before[k])
    && (forall k <- after :: k in before || (k == n && !after[k].Revoked()))
  }

  lemma ClaimRotates(s: State, c: CallId, env: Env, ttl: Time, t: TokenId, n: TokenId)
    requires c in s.calls && s.calls[c].Claiming? && s.calls[c].token == t
    ensures OnlyRotates(s.db.tokens, Command(s, c, env, ttl).db.tokens, t, n)
  {
  }

  lemma StoreRotates(s: State, c: CallId, env: Env, ttl: Time, t: TokenId)
    requires c in s.calls && s.calls[c].Storing? && StoreOk(s)
    ensures OnlyRotates(s.db.tokens, Command(s, c, env, ttl).db.tokens, t, s.db.nextId)
  {
  }

  lemma ReadKeepsTokens(s: State, c: CallId, env: Env, ttl: Time)
    requires c in s.calls
    requires var k := s.calls[c]; k.Done? || k.Finding? || k.LookingUp? || k.Issuing?
    ensures Command(s, c, env, ttl).db == s.db
  {
    match s.calls[c]
    case Done(_) =>
    case Finding(_, _) =>
    case LookingUp(_, _, _) =>
    case Issuing(_, _, _) =>
  }

  /** Where a call of a race can stand, and what it is then about. */
  lemma RacerAt(s0: State, s: State, t: TokenId, phase: Phase, c: CallId)
    requires RaceInv(s0, s, t, phase) && c in s.calls
    ensures match s.calls[c]
            case Done(_) => true
            case Finding(hash, now) => hash == s0.db.tokens[t].hash && now < s0.db.tokens[t].expiresAt
            case LookingUp(_, _, _) => true
            case Claiming(token, _, _) => token == t
            case Wiping(user, _) => user == s0.db.tokens[t].userId && Spent(s, t)
            case Issuing(_, _, _) => true
            case Storing(_, _, _, _) => phase == Claimed(c) && s.db.nextId == s0.db.nextId
            case _ => false
  {
  }

  /** Only a wipe touches more than the contested token and the winner's. */
  lemma TokensStep(s0: State, s: State, t: TokenId, phase: Phase, a: Action, ttl: Time)
    requires RaceInv(s0, s, t, phase) && StoreOk(s) && RaceStep(s, a, s0.db.tokens[t]) && !IsWipe(s, a)
    ensures OnlyRotates(s.db.tokens, Step(s, a, ttl).db.tokens, t, s0.db.nextId)
  {
    if a.Advance? && a.call in s.calls {
      RacerAt(s0, s, t, phase, a.call);
      if s.calls[a.call].Claiming? {
        ClaimRotates(s, a.call, a.env, ttl, t, s0.db.nextId);
      } else if s.calls[a.call].Storing? {
        StoreRotates(s, a.call, a.env, ttl, t);
      } else {
        ReadKeepsTokens(s, a.call, a.env, ttl);
      }
    }
  }

  /** A wipe of the race revokes the winner's token if it is stored. */
  lemma WipeStep(s0: State, s: State, t: TokenId, phase: Phase, a: Action, ttl: Time)
    requires RaceInv(s0, s, t, phase) && Inv(s) && StoreOk(s0) && RaceStep(s, a, s0.db.tokens[t]) && IsWipe(s, a)
    ensures Step(s, a, ttl).db.tokens.Keys == s.db.tokens.Keys
    ensures s0.db.nextId in s.db.tokens ==> !IsLive(Step(s, a, ttl).db.tokens, s0.db.nextId)
  {
    RacerAt(s0, s, t, phase, a.call);
    if s0.db.nextId in s.db.tokens {
      WinnersUser(s0, s, t, phase);
    }
  }

  // ---- the winner's token ----

  lemma {:induction false} SurvivalExec(s0: State, s: State, t: TokenId, phase: Phase, acts: seq<Action>, ttl: Time)
    requires Inv(s) && StoreOk(s0) && RaceInv(s0, s, t, phase) && RaceRun(s, acts, s0.db.tokens[t], ttl)
    ensures var e, n := Exec(s, acts, ttl), s0.db.nextId;
      n in e.db.tokens ==> (IsLive(e.db.tokens, n) <==> Unharmed(s, n) && !WipedAfterStore(s, acts, n, ttl))
    decreases |acts|
  {
    if acts != [] {
      var a, s', n := acts[0], Step(s, acts[0], ttl), s0.db.nextId;
      if IsWipe(s, a) {
        WipeStep(s0, s, t, phase, a, ttl);
      } else {
        TokensStep(s0, s, t, phase, a, ttl);
      }
      assert Unharmed(s', n) <==> Unharmed(s, n) && !(IsWipe(s, a) && n in s.db.tokens);
      var next := RaceAdvance(s0, s, t, phase, a, ttl);
      InvStep(s, a, ttl);
      SurvivalExec(s0, s', t, next, acts[1..], ttl);
    }
  }

  /**
   After a complete race the winner's token is live if and only if no wipe ran once it was stored.
   */
  lemma WinnerSurvivesIff(before: seq<Action>, race: seq<Action>, ttl: Time, s0: State, e: State, t: TokenId)
    requires CompleteRace(before, race, ttl, s0, e, t)
    ensures IsLive(e.db.tokens, s0.db.nextId) <==> !WipedAfterStore(s0, race, s0.db.nextId, ttl)
  {
    InvInit();
    InvExec(INIT, before, ttl);
    var w := ExactlyOneWinner(before, race, ttl, s0, e, t);
    assert StoreOk(s0);
    SurvivalExec(s0, s0, t, Unclaimed, race, ttl);
  }

  // ---- late lookups ----

  /** A step gives the race its first pending wipe exactly by looking the token up too late. */
  lemma LateStep(s0: State, s: State, t: TokenId, phase: Phase, a: Action, ttl: Time)
    requires RaceInv(s0, s, t, phase) && StoreOk(s) && RaceStep(s, a, s0.db.tokens[t]) && !IsWipe(s, a)
    ensures AnyWiping(Step(s, a, ttl)) <==> AnyWiping(s) || IsLate(s, a, t)
  {
    if a.Advance? && a.call in s.calls {
      LatePoint(s0, s, t, phase, a.call, a.env, ttl);
      WorldFrame(s, a.call, a.env, ttl);
      OneMoves(s, Step(s, a, ttl), a.call, NextPoint(s, a.call, a.env, ttl));
    } else if a.StartRefresh? && a.call !in s.calls {
      OneMoves(s, Step(s, a, ttl), a.call, Finding(a.raw.value, a.now));
    }
  }

  /** When a call that was not wiping moves, a wipe is pending afterwards if one was before, or if it moved to wiping. */
  lemma OneMoves(s: State, s': State, c: CallId, next: Call)
    requires s'.calls == s.calls[c := next] && (c in s.calls ==> !s.calls[c].Wiping?)
    ensures AnyWiping(s') <==> AnyWiping(s) || next.Wiping?
  {
    if k :| k in s.calls && s.calls[k].Wiping? {
      assert s'.calls[k].Wiping?;
    }
    if next.Wiping? {
      assert s'.calls[c].Wiping?;
    }
  }

  lemma LatePoint(s0: State, s: State, t: TokenId, phase: Phase, c: CallId, env: Env, ttl: Time)
    requires RaceInv(s0, s, t, phase) && StoreOk(s) && c in s.calls && !s.calls[c].Wiping? && env.fault.NoFault?
    ensures NextPoint(s, c, env, ttl).Wiping? <==> s.calls[c].Finding? && Spent(s, t)
  {
    RacerAt(s0, s, t, phase, c);
    match s.calls[c]
    case Finding(hash, now) =>
      assert s.db.tokens[t].hash == hash;
      assert HashTaken(s.db.tokens, hash) && Lookup(s.db.tokens, hash) == Some(t);
      assert s.db.tokens[t].expiresAt == s0.db.tokens[t].expiresAt;
    case LookingUp(_, _, _) =>
    case Claiming(_, _, _) =>
    case Issuing(_, _, _) =>
    case Storing(_, _, _, _) =>
    case Done(_) =>
    case _ =>
  }

  lemma {:induction false} LateExec(s0: State, s: State, t: TokenId, phase: Phase, acts: seq<Action>, ttl: Time)
    requires Inv(s) && RaceInv(s0, s, t, phase) && RaceRun(s, acts, s0.db.tokens[t], ttl)
    requires AllDone(Exec(s, acts, ttl))
    ensures WipeRuns(s, acts, ttl) <==> AnyWiping(s) || LateLookup(s, acts, t, ttl)
    decreases |acts|
  {
    if acts != [] {
      var a := acts[0];
      var next := RaceAdvance(s0, s, t, phase, a, ttl);
      InvStep(s, a, ttl);
      LateExec(s0, Step(s, a, ttl), t, next, acts[1..], ttl);
      if IsWipe(s, a) {
        assert s.calls[a.call].Wiping?;
      } else {
        LateStep(s0, s, t, phase, a, ttl);
      }
    }
  }

  /**
   In a complete race a wipe runs if and only if some contender looks the contested token up once it is spent:
   a race in which every contender has read the token before the first of them claims it is never punished.
   */
  lemma WipesIffLateLookup(before: seq<Action>, race: seq<Action>, ttl: Time, s0: State, e: State, t: TokenId)
    requires CompleteRace(before, race, ttl, s0, e, t)
    ensures WipeRuns(s0, race, ttl) <==> LateLookup(s0, race, t, ttl)
  {
    InvInit();
    InvExec(INIT, before, ttl);
    LateExec(s0, s0, t, Unclaimed, race, ttl);
  }

  // ---- a race without late lookups ----

  lemma {:induction false} NoWipeExec(s0: State, s: State, t: TokenId, phase: Phase, acts: seq<Action>, ttl: Time)
    requires Inv(s) && RaceInv(s0, s, t, phase) && RaceRun(s, acts, s0.db.tokens[t], ttl)
    requires !WipeRuns(s, acts, ttl) && Untouched(s0, s, t)
    ensures Untouched(s0, Exec(s, acts, ttl), t)
    ensures forall n :: !WipedAfterStore(s, acts, n, ttl)
    decreases |acts|
  {
    if acts != [] {
      TokensStep(s0, s, t, phase, acts[0], ttl);
      var next := RaceAdvance(s0, s, t, phase, acts[0], ttl);
      InvStep(s, acts[0], ttl);
      NoWipeExec(s0, Step(s, acts[0], ttl), t, next, acts[1..], ttl);
    }
  }

  /**
   If every contender looks the token up while it is live, losing is harmless: the winner's token is live at the
   end, and of all the tokens there were only the contested one has changed.
   */
  lemma TimelyRaceIsHarmless(before: seq<Action>, race: seq<Action>, ttl: Time, s0: State, e: State, t: TokenId)
    requires CompleteRace(before, race, ttl, s0, e, t)
    requires !LateLookup(s0, race, t, ttl)
    ensures IsLive(e.db.tokens, s0.db.nextId)
    ensures forall k <- s0.db.tokens :: k != t ==> k in e.db.tokens && e.db.tokens[k] == s0.db.tokens[k]
  {
    InvInit();
    InvExec(INIT, before, ttl);
    WipesIffLateLookup(before, race, ttl, s0, e, t);
    NoWipeExec(s0, s0, t, Unclaimed, race, ttl);
    WinnerSurvivesIff(before, race, ttl, s0, e, t);
  }

  /** What is live of the contested family after a race: the winner's token or nothing, and which it is. */
  lemma FamilyAfterRace(before: seq<Action>, race: seq<Action>, ttl: Time, s0: State, e: State, t: TokenId, k: TokenId)
    requires CompleteRace(before, race, ttl, s0, e, t)
    ensures WellFounded(e.born) && t in e.born
    ensures IsLive(e.db.tokens, k) ==> k in e.born
    ensures IsLive(e.db.tokens, k) && LoginOf(e.born, k) == LoginOf(e.born, t) <==>
            k == s0.db.nextId && !WipedAfterStore(s0, race, k, ttl)
  {
    WinnerSurvivesIff(before, race, ttl, s0, e, t);
    InvInit();
    InvExec(INIT, before, ttl);
    InvExec(s0, race, ttl);
    Lineage(e);
    var w := ExactlyOneWinner(before, race, ttl, s0, e, t);
    if IsLive(e.db.tokens, k) {
      OnlyTheWinnersTokenLives(before, race, ttl, s0, e, t, k);
    }
    assert LoginOf(e.born, s0.db.nextId) == LoginOf(e.born, t);
  }

  // ---- a race that ends with the winner's token revoked ----

  lemma {:induction false} ExecConcat(s: State, xs: seq<Action>, ys: seq<Action>, ttl: Time)
    ensures Exec(s, xs + ys, ttl) == Exec(Exec(s, xs, ttl), ys, ttl)
    decreases |xs|
  {
    if xs == [] {
      assert xs + ys == ys;
    } else {
      assert (xs + ys)[1..] == xs[1..] + ys;
      ExecConcat(Step(s, xs[0], ttl), xs[1..], ys, ttl);
    }
  }

  lemma {:induction false} RaceConcat(s: State, xs: seq<Action>, ys: seq<Action>, token: Token, ttl: Time)
    requires RaceRun(s, xs, token, ttl) && RaceRun(Exec(s, xs, ttl), ys, token, ttl)
    ensures RaceRun(s, xs + ys, token, ttl)
    decreases |xs|
  {
    if xs == [] {
      assert xs + ys == ys;
    } else {
      assert (xs + ys)[1..] == xs[1..] + ys;
      RaceConcat(Step(s, xs[0], ttl), xs[1..], ys, token, ttl);
    }
  }

  /** A call that has answered, or that could still store the random hash without a collision. */
  predicate Clear(s: State, c: CallId, random: Hash) {
    c in s.calls && (s.calls[c].Done? || !HashTaken(s.db.tokens, random))
  }

  lemma ClearStep(s: State, c: CallId, random: Hash, ttl: Time)
    requires Clear(s, c, random)
    ensures Clear(Command(s, c, Quiet(random), ttl), c, random)
  {
    match s.calls[c]
    case Wiping(_, _) =>
    case Claiming(_, _, _) =>
    case Storing(_, _, _, _) =>
    case RevokingAll(_) =>
    case RemovingRow(_) =>
    case LoggingIn(_) =>
    case _ =>
  }

  /** The commands of one call, without faults, are steps of a race. */
  lemma {:induction false} QuietRace(s: State, c: CallId, n: nat, random: Hash, token: Token, ttl: Time)
    requires Clear(s, c, random)
    ensures RaceRun(s, Advances(c, seq(n, _ => Quiet(random))), token, ttl)
    decreases n
  {
    if n > 0 {
      var envs := seq(n, _ => Quiet(random));
      assert envs[1..] == seq(n - 1, _ => Quiet(random));
      assert Advances(c, envs)[1..] == Advances(c, envs[1..]);
      ClearStep(s, c, random, ttl);
      QuietRace(Command(s, c, Quiet(random), ttl), c, n - 1, random, token, ttl);
    }
  }

  /** One refresh from start to answer. */
  function Whole(c: CallId, hash: Hash, use: Use): seq<Action> {
    [StartRefresh(c, Some(hash), use.now)] + Advances(c, seq(5, _ => Quiet(use.random)))
  }

  lemma WholeIsQuiet(s: State, c: CallId, token: Token, use: Use, ttl: Time)
    requires c !in s.calls && !HashTaken(s.db.tokens, use.random) && use.now < token.expiresAt
    ensures Exec(s, Whole(c, token.hash, use), ttl) == QuietRefresh(s, c, token.hash, use.now, use.random, ttl)
    ensures RaceRun(s, Whole(c, token.hash, use), token, ttl)
  {
    var start := StartRefresh(c, Some(token.hash), use.now);
    assert Whole(c, token.hash, use)[1..] == Advances(c, seq(5, _ => Quiet(use.random)));
    QuietRace(Step(s, start, ttl), c, 5, use.random, token, ttl);
  }

  /** If none of the user's tokens is live the winner's is not, and somebody was late. */
  lemma LoseToWipe(before: seq<Action>, race: seq<Action>, ttl: Time, s0: State, e: State, t: TokenId)
    requires CompleteRace(before, race, ttl, s0, e, t) && LiveOf(e.db.tokens, s0.db.tokens[t].userId) == {}
    ensures !IsLive(e.db.tokens, s0.db.nextId) && LateLookup(s0, race, t, ttl)
  {
    InvInit();
    InvExec(INIT, before, ttl);
    InvExec(s0, race, ttl);
    var w := ExactlyOneWinner(before, race, ttl, s0, e, t);
    WinnerOwns(e, w, s0.db.nextId);
    assert s0.db.nextId !in LiveOf(e.db.tokens, s0.db.tokens[t].userId);
    if !LateLookup(s0, race, t, ttl) {
      TimelyRaceIsHarmless(before, race, ttl, s0, e, t);
    }
  }

  lemma WinnerOwns(e: State, w: CallId, n: TokenId)
    requires Inv(e) && w in e.calls && e.calls[w].Done? && e.calls[w].answer.Session?
    requires n in e.db.tokens && n in e.born && e.born[n].origin.caller == w
    ensures e.db.tokens[n].userId == e.calls[w].answer.user
  {
    assert StoreOk(e);
    assert BirthOk(e, n) && CallOk(e, w);
  }

  /** Two whole refreshes with one token, one after the other, are a race; the second is the late one. */
  lemma OneAfterTheOther(s: State, c: CallId, t: TokenId, use: Use, late: Use, ttl: Time) returns (race: seq<Action>)
    requires Unused(s, c) && Valid(s.db) && IsLive(s.db.tokens, t) && s.db.tokens[t].userId in s.rows
    requires use.now < s.db.tokens[t].expiresAt && late.now < s.db.tokens[t].expiresAt
    requires AllFresh(s.db.tokens, [use, late])
    ensures RaceRun(s, race, s.db.tokens[t], ttl)
    ensures var e, user := Exec(s, race, ttl), s.db.tokens[t].userId;
      e.calls == s.calls[c := Done(Session(user, use.random))][c + 1 := Done(Unauthorized)] &&
      LiveOf(e.db.tokens, user) == {}
  {
    var token := s.db.tokens[t];
    var first, second := Whole(c, token.hash, use), Whole(c + 1, token.hash, late);
    assert [use, late][0] == use && [use, late][1] == late;
    WholeIsQuiet(s, c, token, use, ttl);
    OneLink(s, c, t, use, ttl);
    WholeIsQuiet(QuietRefresh(s, c, token.hash, use.now, use.random, ttl), c + 1, token, late, ttl);
    ReuseWipes(s, c, t, use, late, ttl);
    ExecConcat(s, first, second, ttl);
    RaceConcat(s, first, second, token, ttl);
    race := first + second;
  }

  /**
   The other outcome does occur, from every state ready for a race: two contenders, the second looking the token up
   once the first has been granted its session, make a race that ends with the winner's token revoked.
   */
  lemma WinnerCanBeRevoked(before: seq<Action>, ttl: Time, s0: State, c: CallId, t: TokenId, use: Use, late: Use)
    returns (race: seq<Action>, e: State)
    requires s0 == Exec(INIT, before, ttl) && Ready(s0, t) && Unused(s0, c)
    requires use.now < s0.db.tokens[t].expiresAt && late.now < s0.db.tokens[t].expiresAt
    requires AllFresh(s0.db.tokens, [use, late])
    ensures CompleteRace(before, race, ttl, s0, e, t) && e.calls.Keys == s0.calls.Keys + {c, c + 1}
    ensures e.calls[c] == Done(Session(s0.db.tokens[t].userId, use.random)) && e.calls[c + 1] == Done(Unauthorized)
    ensures !IsLive(e.db.tokens, s0.db.nextId) && LateLookup(s0, race, t, ttl)
  {
    InvInit();
    InvExec(INIT, before, ttl);
    assert StoreOk(s0);
    race := OneAfterTheOther(s0, c, t, use, late, ttl);
    e := Exec(s0, race, ttl);
    assert c !in s0.calls && c in e.calls;
    LoseToWipe(before, race, ttl, s0, e, t);
  }

  /** Such states are reachable: one user, and one login. */
  function OneLogin(): seq<Action> {
    [AddRow("u", "u@x.com"), StartLogin(0, Some("u@x.com"))] + Advances(0, seq(3, _ => Quiet("h")))
  }

  lemma OneLoginIsReady(ttl: Time) returns (s0: State)
    ensures s0 == Exec(INIT, OneLogin(), ttl) && Ready(s0, 0) && Unused(s0, 1)
    ensures s0.db.tokens == map[0 := NewToken("u", "h", 0, ttl)]
  {
    var start := [AddRow("u", "u@x.com"), StartLogin(0, Some("u@x.com"))];
    var s := Exec(INIT, start, ttl);
    assert s == Step(Step(INIT, start[0], ttl), start[1], ttl) by {
      assert start[1..] == [start[1]] && start[1..][1..] == [];
    }
    ExecConcat(INIT, start, Advances(0, seq(3, _ => Quiet("h"))), ttl);
    assert s.calls == map[0 := LoggingIn("u@x.com")] && s.rows == map["u" := "u@x.com"] && s.db == INIT.db;
    s0 := LoginCompletes(s, ttl);
  }

  lemma LoginCompletes(s: State, ttl: Time) returns (s0: State)
    requires s.calls == map[0 := LoggingIn("u@x.com")] && s.rows == map["u" := "u@x.com"] && s.db == INIT.db
    ensures s0 == Alone(s, 0, seq(3, _ => Quiet("h")), ttl)
    ensures Ready(s0, 0) && Unused(s0, 1) && s0.db.tokens == map[0 := NewToken("u", "h", 0, ttl)]
  {
    assert "u" in s.rows && RowByEmail(s.rows, "u@x.com") == Some("u");
    QuietSteps(s, 0, 3, "h", ttl);
    var checked := Command(s, 0, Quiet("h"), ttl);
    assert checked.calls == map[0 := Issuing("u", 0, None)];
    QuietSteps(checked, 0, 2, "h", ttl);
    var issued := Command(checked, 0, Quiet("h"), ttl);
    assert issued.calls == map[0 := Storing("u", "h", 0, None)];
    QuietSteps(issued, 0, 1, "h", ttl);
    s0 := Command(issued, 0, Quiet("h"), ttl);
    AnsweredIsQuiet(s0, 0, seq(0, _ => Quiet("h")), ttl);
  }

  /** A race from the initial state, of two contenders, whose winner ends with a revoked token. */
  lemma RevokedWinner(ttl: Time) returns (race: seq<Action>, s0: State, e: State)
    requires ttl > 0
    ensures CompleteRace(OneLogin(), race, ttl, s0, e, 0)
    ensures 1 in e.calls && e.calls[1] == Done(Session("u", "a")) && !IsLive(e.db.tokens, s0.db.nextId)
  {
    s0 := OneLoginIsReady(ttl);
    race, e := WinnerCanBeRevoked(OneLogin(), ttl, s0, 1, 0, Use(0, "a"), Use(0, "b"));
  }
}
