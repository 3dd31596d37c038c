/**
 What a wipe and what a delete guarantee afterwards, against every continuation of the run.
 */
module RotationSafety {
  import opened Wrappers
  import opened TokenStore
  import opened Rotation
  import opened RotationFamilies
  import opened Finite

  // ---- reuse detection and the wipe ----

  predicate AboutToWipe(s: State, c: CallId) {
    c in s.calls && s.calls[c].Wiping?
  }

  /** This step looks up, for call c, a token that is already revoked. */
  predicate FindsRevoked(s: State, a: Action, c: CallId, t: TokenId) {
    && a.Advance? && a.call == c && a.env.fault.NoFault? && c in s.calls && s.calls[c].Finding?
    && t in s.db.tokens && s.db.tokens[t].hash == s.calls[c].hash && s.db.tokens[t].Revoked()
  }

  /** In any run, a call turns to wiping exactly by looking up a revoked token, and then it wipes that token's user. */
  lemma WipeOnReuseOnly(before: seq<Action>, ttl: Time, s: State, a: Action, c: CallId)
    requires s == Exec(INIT, before, ttl) && !AboutToWipe(s, c)
    ensures AboutToWipe(Step(s, a, ttl), c) <==> exists t :: FindsRevoked(s, a, c, t)
    ensures forall t :: FindsRevoked(s, a, c, t) ==> Step(s, a, ttl).calls[c].user == s.db.tokens[t].userId
  {
    InvInit();
    InvExec(INIT, before, ttl);
    if c !in s.calls {
      if c in Step(s, a, ttl).calls { Entry(s, a, ttl, c); }
    } else if !(a.Advance? && a.call == c) {
      OthersWait(s, a, ttl, c);
    } else {
      WipePoint(s, c, a.env, ttl);
    }
  }

  lemma WipePoint(s: State, c: CallId, env: Env, ttl: Time)
    requires Inv(s) && c in s.calls && !s.calls[c].Wiping?
    ensures NextPoint(s, c, env, ttl).Wiping? <==> exists t :: FindsRevoked(s, Advance(c, env), c, t)
    ensures forall t :: FindsRevoked(s, Advance(c, env), c, t) ==> NextPoint(s, c, env, ttl).user == s.db.tokens[t].userId
  {
    assert StoreOk(s);
    match s.calls[c]
    case Finding(hash, now) =>
      forall t: TokenId | FindsRevoked(s, Advance(c, env), c, t) ensures Lookup(s.db.tokens, hash) == Some(t) {
        assert HashTaken(s.db.tokens, hash);
      }
      if NextPoint(s, c, env, ttl).Wiping? {
        var t := Lookup(s.db.tokens, hash).value;
        assert FindsRevoked(s, Advance(c, env), c, t);
      }
    case LookingUp(_, _, _) =>
    case Claiming(_, _, _) =>
    case LoggingIn(_) =>
    case Issuing(_, _, _) =>
    case Storing(_, _, _, _) =>
    case RemovingRow(_) =>
    case RevokingAll(_) =>
    case Done(_) =>
    case _ =>
  }

  /** A refresh that loses the compare-and-swap is refused, and revokes and stores nothing. */
  lemma LoserTouchesNothing(s: State, c: CallId, env: Env, ttl: Time)
    requires c in s.calls && s.calls[c].Claiming? && Spent(s, s.calls[c].token) && env.fault.NoFault?
    ensures Step(s, Advance(c, env), ttl) == s.(calls := s.calls[c := Done(Unauthorized)])
  {
  }

  /** The first token on the way down to t that was stored after the tokens in past. */
  ghost function FirstAfter(born: Births, past: set<TokenId>, t: TokenId): (f: TokenId)
    requires WellFounded(born) && t in born && t !in past
    ensures f in born && f !in past && Descends(born, f, t) && born[f].user == born[t].user
    decreases t
  {
    match born[t].origin
    case FromLogin(_) => t
    case FromRotation(p, _) => if p in past then t else FirstAfter(born, past, p)
  }

  /** What remains true of a user after a state in which none of the user's tokens was live. */
  ghost predicate Aftermath(w: State, s: State, user: UserId) {
    && (forall t {:trigger t in s.born} | t in w.born :: t in s.born && s.born[t] == w.born[t])
    && (forall t | t in w.born && w.born[t].user == user :: Spent(s, t))
    && (forall c, p | c in s.calls && Holds(s.calls[c], p) && p in w.born && w.born[p].user == user :: Pending(w, c, p))
    && (forall t | t in s.born && t !in w.born && s.born[t].user == user :: AfterOk(w, s.born[t].origin))
  }

  predicate AfterOk(w: State, origin: Origin) {
    match origin
    case FromLogin(_) => true
    case FromRotation(p, c) => p in w.born ==> Pending(w, c, p)
  }

  lemma AftermathStep(w: State, s: State, user: UserId, a: Action, ttl: Time)
    requires Inv(s) && Aftermath(w, s, user)
    ensures Aftermath(w, Step(s, a, ttl), user)
  {
    var s' := Step(s, a, ttl);
    forall t | t in w.born ensures t in s'.born && s'.born[t] == w.born[t] {
      HistoryStands(s, a, ttl, t);
    }
    forall t | t in w.born && w.born[t].user == user ensures Spent(s', t) {
      HistoryStands(s, a, ttl, t);
    }
    forall c, p | c in s'.calls && Holds(s'.calls[c], p) && p in w.born && w.born[p].user == user
      ensures Pending(w, c, p)
    {
      HoldsFrom(s, a, ttl, c, p);
    }
    forall t | t in s'.born && t !in w.born && s'.born[t].user == user ensures AfterOk(w, s'.born[t].origin) {
      AftermathBirth(w, s, user, a, ttl, t);
    }
  }

  lemma AftermathBirth(w: State, s: State, user: UserId, a: Action, ttl: Time, t: TokenId)
    requires Inv(s) && Aftermath(w, s, user)
    requires t in Step(s, a, ttl).born && t !in w.born && Step(s, a, ttl).born[t].user == user
    ensures AfterOk(w, Step(s, a, ttl).born[t].origin)
  {
    if t in s.born {
      HistoryStands(s, a, ttl, t);
    } else {
      NewBirth(s, a, ttl, t);
      assert CallOk(s, a.call);
    }
  }

  lemma {:induction false} AftermathExec(w: State, s: State, user: UserId, acts: seq<Action>, ttl: Time)
    requires Inv(s) && Aftermath(w, s, user)
    ensures Aftermath(w, Exec(s, acts, ttl), user) && Inv(Exec(s, acts, ttl))
    decreases |acts|
  {
    if acts != [] {
      AftermathStep(w, s, user, acts[0], ttl);
      InvStep(s, acts[0], ttl);
      AftermathExec(w, Step(s, acts[0], ttl), user, acts[1..], ttl);
    }
  }

  /** The wipe itself: no live token of the user is left, nobody else's tokens change, and none disappears. */
  lemma WipeClears(s: State, c: CallId, env: Env, ttl: Time)
    requires Inv(s) && c in s.calls && s.calls[c].Wiping? && !env.fault.RequestLost?
    ensures var user := s.calls[c].user; var w := Step(s, Advance(c, env), ttl);
      && LiveOf(w.db.tokens, user) == {}
      && w.db.tokens.Keys == s.db.tokens.Keys
      && (forall t <- s.db.tokens :: s.db.tokens[t].userId != user || s.db.tokens[t].Revoked()
                                     ==> w.db.tokens[t] == s.db.tokens[t])
      && w.born == s.born
      && (forall k <- s.calls :: k != c ==> w.calls[k] == s.calls[k])
      && w.calls[c] == Done(if env.fault.NoFault? then Unauthorized else Internal)
  {
  }

  lemma AftermathBegins(w: State, user: UserId)
    requires Inv(w) && LiveOf(w.db.tokens, user) == {}
    ensures Aftermath(w, w, user)
  {
    forall t | t in w.born && w.born[t].user == user ensures Spent(w, t) {
      assert t !in LiveOf(w.db.tokens, user);
    }
  }

  lemma {:induction false} FirstAfterOk(w: State, e: State, user: UserId, t: TokenId)
    requires Aftermath(w, e, user) && WellFounded(e.born)
    requires t in e.born && t !in w.born && e.born[t].user == user
    ensures match e.born[FirstAfter(e.born, w.born.Keys, t)].origin
            case FromLogin(_) => true
            case FromRotation(p, k) => p in w.born && Pending(w, k, p)
    decreases t
  {
    assert AfterOk(w, e.born[t].origin);
    if e.born[t].origin.FromRotation? && e.born[t].origin.parent !in w.born {
      FirstAfterOk(w, e, user, e.born[t].origin.parent);
    }
  }

  /**
   After a wipe at any point of any run, whatever happens next: a live token of that user was stored later,
   and its chain above the wipe starts with a token stored by a login, or by a rotation that already held its
   claim when the wipe struck.
   */
  lemma WipeAftermath(before: seq<Action>, c: CallId, env: Env, after: seq<Action>, ttl: Time,
                      s: State, w: State, e: State)
    requires s == Exec(INIT, before, ttl) && w == Step(s, Advance(c, env), ttl) && e == Exec(w, after, ttl)
    requires c in s.calls && s.calls[c].Wiping? && !env.fault.RequestLost?
    ensures LiveOf(w.db.tokens, s.calls[c].user) == {}
    ensures WellFounded(e.born)
    ensures forall t <- LiveOf(e.db.tokens, s.calls[c].user) ::
      && t in e.born && t !in w.born
      && (match e.born[FirstAfter(e.born, w.born.Keys, t)].origin
          case FromLogin(_) => true
          case FromRotation(p, k) => p in w.born && Pending(w, k, p))
  {
    InvInit();
    InvExec(INIT, before, ttl);
    WipeClears(s, c, env, ttl);
    InvStep(s, Advance(c, env), ttl);
    LaterThanWipe(w, s.calls[c].user, after, ttl, e);
  }

  lemma LaterThanWipe(w: State, user: UserId, after: seq<Action>, ttl: Time, e: State)
    requires Inv(w) && LiveOf(w.db.tokens, user) == {} && e == Exec(w, after, ttl)
    ensures WellFounded(e.born)
    ensures forall t <- LiveOf(e.db.tokens, user) ::
      && t in e.born && t !in w.born
      && (match e.born[FirstAfter(e.born, w.born.Keys, t)].origin
          case FromLogin(_) => true
          case FromRotation(p, k) => p in w.born && Pending(w, k, p))
  {
    AftermathBegins(w, user);
    AftermathExec(w, w, user, after, ttl);
    Lineage(e);
    forall t <- LiveOf(e.db.tokens, user)
      ensures t in e.born && t !in w.born
      ensures match e.born[FirstAfter(e.born, w.born.Keys, t)].origin
              case FromLogin(_) => true
              case FromRotation(p, k) => p in w.born && Pending(w, k, p)
    {
      LiveIsNew(w, e, user, t);
      FirstAfterOk(w, e, user, t);
    }
  }

  lemma LiveIsNew(w: State, e: State, user: UserId, t: TokenId)
    requires Aftermath(w, e, user) && StoreOk(e) && t in LiveOf(e.db.tokens, user)
    ensures t in e.born && e.born[t].user == user && t !in w.born
  {
  }

  // ---- deletion ----

  /** Past the point where the user's row is read: such a call may still return a session. */
  function PastLookup(s: State, user: UserId): set<CallId> {
    set c | c in s.calls && (s.calls[c].Claiming? || s.calls[c].Issuing? || s.calls[c].Storing?) && s.calls[c].user == user
  }

  function Sessions(s: State, user: UserId): set<CallId> {
    set c | c in s.calls && s.calls[c].Done? && s.calls[c].answer.Session? && s.calls[c].answer.user == user
  }

  /** What remains true of a user whose row is gone since state d. */
  predicate Gone(d: State, s: State, user: UserId) {
    && user in s.known && user !in s.rows
    && PastLookup(s, user) <= PastLookup(d, user)
    && Sessions(s, user) <= Sessions(d, user) + PastLookup(d, user)
  }

  lemma GoneCommand(s: State, c: CallId, env: Env, ttl: Time, user: UserId)
    requires c in s.calls && user !in s.rows
    ensures user !in Command(s, c, env, ttl).rows && Command(s, c, env, ttl).known == s.known
    ensures c in PastLookup(Command(s, c, env, ttl), user) ==> c in PastLookup(s, user)
    ensures c in Sessions(Command(s, c, env, ttl), user) ==> c in PastLookup(s, user) || c in Sessions(s, user)
  {
    match s.calls[c]
    case Finding(_, _) =>
    case Wiping(_, _) =>
    case LookingUp(_, _, _) =>
    case Claiming(_, _, _) =>
    case LoggingIn(_) =>
    case Issuing(_, _, _) =>
    case Storing(_, _, _, _) =>
    case RemovingRow(_) =>
    case RevokingAll(_) =>
    case Done(_) =>
  }

  /** A call that can still return a session for the user, or has, could already before the step. */
  lemma GoneCall(s: State, a: Action, ttl: Time, user: UserId, c: CallId)
    requires user !in s.rows && c in Step(s, a, ttl).calls
    ensures c in PastLookup(Step(s, a, ttl), user) ==> c in PastLookup(s, user)
    ensures c in Sessions(Step(s, a, ttl), user) ==> c in PastLookup(s, user) || c in Sessions(s, user)
  {
    if c !in s.calls {
      Entry(s, a, ttl, c);
    } else if a.Advance? && a.call == c {
      GoneCommand(s, c, a.env, ttl, user);
    } else {
      OthersWait(s, a, ttl, c);
    }
  }

  lemma GoneStep(d: State, s: State, user: UserId, a: Action, ttl: Time)
    requires Gone(d, s, user)
    ensures Gone(d, Step(s, a, ttl), user)
  {
    if a.Advance? && a.call in s.calls {
      GoneCommand(s, a.call, a.env, ttl, user);
    }
    forall c | c in PastLookup(Step(s, a, ttl), user) ensures c in PastLookup(s, user) {
      GoneCall(s, a, ttl, user, c);
    }
    forall c | c in Sessions(Step(s, a, ttl), user) ensures c in PastLookup(s, user) || c in Sessions(s, user) {
      GoneCall(s, a, ttl, user, c);
    }
  }

  lemma {:induction false} GoneExec(d: State, s: State, user: UserId, acts: seq<Action>, ttl: Time)
    requires Gone(d, s, user)
    ensures Gone(d, Exec(s, acts, ttl), user)
    decreases |acts|
  {
    if acts != [] {
      GoneStep(d, s, user, acts[0], ttl);
      GoneExec(d, Step(s, acts[0], ttl), user, acts[1..], ttl);
    }
  }

  /**
   Deleting a row ends its sessions, whatever becomes of the revocation that follows: from the step that removes
   the row on, a new session for that user goes only to a call that had already read the row, so there are at
   most as many new sessions as there were such calls, and the id never comes back.
   */
  lemma DeleteIsSafe(before: seq<Action>, c: CallId, env: Env, after: seq<Action>, ttl: Time, user: UserId)
    requires var s := Exec(INIT, before, ttl);
      c in s.calls && s.calls[c] == RemovingRow(user) && user in s.rows && !env.fault.RequestLost?
    ensures var d := Step(Exec(INIT, before, ttl), Advance(c, env), ttl);
      var e := Exec(d, after, ttl);
      && user !in e.rows
      && Sessions(e, user) - Sessions(d, user) <= PastLookup(d, user)
      && |Sessions(e, user) - Sessions(d, user)| <= |PastLookup(d, user)|
  {
    InvInit();
    InvExec(INIT, before, ttl);
    var s := Exec(INIT, before, ttl);
    var d := Step(s, Advance(c, env), ttl);
    GoneExec(d, d, user, after, ttl);
    SubsetCardinality(Sessions(Exec(d, after, ttl), user) - Sessions(d, user), PastLookup(d, user));
  }

  /** Since the row was removed, tokens of this user were stored only by calls already past their user lookup. */
  predicate StoredByStragglers(d: State, s: State, user: UserId) {
    && (forall t {:trigger t in s.born} | t in d.born :: t in s.born)
    && (forall t | t in s.born && t !in d.born && s.born[t].user == user :: s.born[t].origin.caller in PastLookup(d, user))
  }

  lemma StragglersStep(d: State, s: State, user: UserId, a: Action, ttl: Time)
    requires Inv(s) && Gone(d, s, user) && StoredByStragglers(d, s, user)
    ensures StoredByStragglers(d, Step(s, a, ttl), user)
  {
    var s' := Step(s, a, ttl);
    forall t | t in d.born ensures t in s'.born {
      HistoryStands(s, a, ttl, t);
    }
    forall t | t in s'.born && t !in d.born && s'.born[t].user == user
      ensures s'.born[t].origin.caller in PastLookup(d, user)
    {
      if t in s.born {
        HistoryStands(s, a, ttl, t);
      } else {
        NewBirth(s, a, ttl, t);
        assert a.call in PastLookup(s, user);
      }
    }
  }

  lemma {:induction false} StragglersExec(d: State, s: State, user: UserId, acts: seq<Action>, ttl: Time)
    requires Inv(s) && Gone(d, s, user) && StoredByStragglers(d, s, user)
    ensures var e := Exec(s, acts, ttl); Inv(e) && Gone(d, e, user) && StoredByStragglers(d, e, user)
    decreases |acts|
  {
    if acts != [] {
      InvStep(s, acts[0], ttl);
      GoneStep(d, s, user, acts[0], ttl);
      StragglersStep(d, s, user, acts[0], ttl);
      StragglersExec(d, Step(s, acts[0], ttl), user, acts[1..], ttl);
    }
  }

  /** The step of a Delete that revokes leaves the user no live token, and stores nothing. */
  lemma RevocationClears(s: State, c: CallId, env: Env, ttl: Time, user: UserId)
    requires Inv(s) && c in s.calls && s.calls[c] == RevokingAll(user) && !env.fault.RequestLost?
    ensures var w := Step(s, Advance(c, env), ttl);
      LiveOf(w.db.tokens, user) == {} && w.born == s.born
  {
  }

  lemma CallersAreDistinct(e: State, live: set<TokenId>, callers: set<CallId>)
    requires Inv(e) && forall t <- live :: t in e.born && e.born[t].origin.caller in callers
    ensures |live| <= |callers|
  {
    var callerOf := map t | t in live && t in e.born :: e.born[t].origin.caller;
    assert callerOf.Keys == live;
    forall t, t' | t in callerOf && t' in callerOf && callerOf[t] == callerOf[t'] ensures t == t' {
      assert BirthOk(e, t) && BirthOk(e, t');
    }
    InjectiveValues(callerOf);
    SubsetCardinality(callerOf.Values, callers);
  }

  /**
   What a Delete leaves once its revocation has taken effect, with anything in between the two commands and anything
   after: a live token of the deleted user was stored by a call that had already read the row when it was removed,
   and there are at most as many such tokens as there were such calls.
   */
  lemma DeleteAftermath(before: seq<Action>, between: seq<Action>, after: seq<Action>, ttl: Time, user: UserId,
                        c: CallId, removal: Env, revocation: Env, s: State, d: State, r: State, e: State)
    requires s == Exec(INIT, before, ttl) && c in s.calls && s.calls[c] == RemovingRow(user) && user in s.rows
    requires !removal.fault.RequestLost? && d == Step(s, Advance(c, removal), ttl) && r == Exec(d, between, ttl)
    requires c in r.calls && r.calls[c] == RevokingAll(user) && !revocation.fault.RequestLost?
    requires e == Exec(Step(r, Advance(c, revocation), ttl), after, ttl)
    ensures forall t <- LiveOf(e.db.tokens, user) :: t in e.born && e.born[t].origin.caller in PastLookup(d, user)
    ensures |LiveOf(e.db.tokens, user)| <= |PastLookup(d, user)|
  {
    var w := Step(r, Advance(c, revocation), ttl);
    InvInit();
    InvExec(INIT, before, ttl);
    InvStep(s, Advance(c, removal), ttl);
    StragglersExec(d, d, user, between, ttl);
    RevocationClears(r, c, revocation, ttl, user);
    InvStep(r, Advance(c, revocation), ttl);
    GoneStep(d, r, user, Advance(c, revocation), ttl);
    StragglersStep(d, r, user, Advance(c, revocation), ttl);
    StragglersExec(d, w, user, after, ttl);
    LaterThanWipe(w, user, after, ttl, e);
    forall t <- LiveOf(e.db.tokens, user) ensures t in e.born && e.born[t].origin.caller in PastLookup(d, user) {
      assert StoreOk(e);
      assert t !in w.born && t !in d.born;
    }
    CallersAreDistinct(e, LiveOf(e.db.tokens, user), PastLookup(d, user));
  }
}
