/**
 Login and Refresh as the service runs them, over the two repositories. Each is tied to the transition system: in
 any state of the system that agrees with the stores, running the call's commands alone leads to the same
 documents and the same answer. So what is proved of runs is proved of this code, one command at a time.
 */
module AuthService {
  import opened Wrappers
  import opened Errors
  import opened UserDomain
  import opened UserStore
  import opened RefreshRepo
  import opened RotationSolo
  import opened SessionAnswers
  import opened Listing
  import ObjectId
  import T = TokenStore
  import R = Rotation

  const UNAUTHORIZED := Sentinel(Kind.Unauthorized)
  const INVALID_CREDENTIALS := Sentinel(Kind.InvalidCredentials)

  /** How the system tells the service's errors apart. */
  function AnswerOf(e: Error): R.Answer {
    if Is(e, Kind.Unauthorized) then R.Unauthorized
    else if Is(e, Kind.InvalidCredentials) then R.InvalidCredentials
    else R.Internal
  }

  function Reply(r: Result<Session, Error>): R.Answer {
    match r
    case Ok(s) => R.Session(s.user, s.token)
    case Err(e) => AnswerOf(e)
  }

  lemma WrappedOpaque(text: string, cause: string)
    ensures AnswerOf(Breakdown(text, cause)) == R.Internal && !Is(Breakdown(text, cause), Kind.NotFound)
  {
  }

  lemma InfrastructureIsInternal(e: Error)
    requires Infrastructure(e)
    ensures AnswerOf(e) == R.Internal && !Is(e, Kind.RefreshTokenNotFound)
  {
  }

  /** The rows as the transition system sees them: emails by printed id. */
  ghost function Emails(rows: Rows): map<string, string> {
    map k | k in (set x | x in rows :: ObjectId.Print(x)) && OidOf(k).Ok? && OidOf(k).value in rows :: rows[OidOf(k).value].email
  }

  lemma EmailsAt(rows: Rows, x: Oid)
    requires Printable(rows) && x < ObjectId.Limit()
    ensures OidOf(ObjectId.Print(x)) == Ok(x)
    ensures ObjectId.Print(x) in Emails(rows) <==> x in rows
    ensures x in rows ==> Emails(rows)[ObjectId.Print(x)] == rows[x].email
  {
    ObjectId.ParsePrint(x);
  }

  lemma EmailsById(rows: Rows, id: string)
    requires Printable(rows) && ObjectId.Canonical(id)
    ensures OidOf(id).Ok? && ObjectId.Print(OidOf(id).value) == id
    ensures id in Emails(rows) <==> OidOf(id).value in rows
  {
    ObjectId.PrintParse(id);
    EmailsAt(rows, OidOf(id).value);
  }

  lemma OwnersById(rows: Rows, id: string)
    requires Printable(rows) && ObjectId.Canonical(id)
    ensures id in Owners(rows) <==> id in Emails(rows)
  {
    EmailsById(rows, id);
    if id in Owners(rows) {
      var x :| x in rows && ObjectId.Print(x) == id;
      EmailsAt(rows, x);
    }
  }

  lemma RowByEmailIs(rows: Rows, email: string)
    requires Printable(rows) && UniqueEmails(rows)
    ensures R.RowByEmail(Emails(rows), email).Some? <==> Taken(rows, email, None)
    ensures forall x <- rows :: rows[x].email == email ==> R.RowByEmail(Emails(rows), email) == Some(ObjectId.Print(x))
  {
    forall x | x in rows && rows[x].email == email ensures R.RowByEmail(Emails(rows), email) == Some(ObjectId.Print(x)) {
      EmailsAt(rows, x);
      var u := R.RowByEmail(Emails(rows), email).value;
      var y :| y in rows && ObjectId.Print(y) == u;
      EmailsAt(rows, y);
    }
    if u :| u in Emails(rows) && Emails(rows)[u] == email {
      var y :| y in rows && ObjectId.Print(y) == u;
      EmailsAt(rows, y);
    }
  }

  lemma AloneFour(s: R.State, c: R.CallId, lookup: R.Env, claim: R.Env, issue: R.Env, store: R.Env, ttl: Time)
    requires c in s.calls
    ensures Alone(s, c, [lookup, claim, issue, store], ttl) ==
            Alone(R.Command(s, c, lookup, ttl), c, [claim, issue, store], ttl)
  {
    AloneStep(s, c, [lookup, claim, issue, store], ttl);
    assert [lookup, claim, issue, store][1..] == [claim, issue, store];
  }

  /** The first of five commands. */
  lemma AloneFive(s: R.State, c: R.CallId, envs: seq<R.Env>, ttl: Time)
    requires c in s.calls && |envs| == 5
    ensures Alone(s, c, envs, ttl) == Alone(R.Command(s, c, envs[0], ttl), c, envs[1..], ttl)
    ensures envs[1..] == [envs[1], envs[2], envs[3], envs[4]]
  {
    AloneStep(s, c, envs, ttl);
  }

  /** The user lookup of a refresh, in terms of the rows. */
  lemma OwnerStep(rows: Rows, s: R.State, c: R.CallId, t: T.TokenId, id: string, now: Time, env: R.Env, ttl: Time)
    requires Printable(rows) && ObjectId.Canonical(id) && s.rows == Emails(rows)
    requires c in s.calls && s.calls[c] == R.LookingUp(t, id, now)
    ensures OidOf(id).Ok? && ObjectId.Print(OidOf(id).value) == id
    ensures R.Command(s, c, env, ttl) == R.Goto(s, c,
              if !env.fault.NoFault? then R.Done(R.Internal)
              else if OidOf(id).value in rows then R.Claiming(t, id, now)
              else R.Done(R.Unauthorized))
  {
    EmailsById(rows, id);
  }

  /** The compare-and-swap of a refresh. */
  lemma ClaimStep(s: R.State, c: R.CallId, t: T.TokenId, user: string, now: Time, env: R.Env, ttl: Time)
    requires c in s.calls && s.calls[c] == R.Claiming(t, user, now)
    ensures var next, e := R.Command(s, c, env, ttl), T.Claim(s.db, t, now, env.fault);
      && next.db == e.db && next.rows == s.rows && c in next.calls
      && next.calls[c] == (if e.ok then R.Issuing(user, now, Some(t))
                           else if env.fault.NoFault? then R.Done(R.Unauthorized) else R.Done(R.Internal))
  {
  }

  /** Drawing and storing the new token. */
  lemma IssueStep(s: R.State, c: R.CallId, env: R.Env, ttl: Time)
    requires c in s.calls && s.calls[c].Issuing?
    ensures var k := s.calls[c];
      R.Command(s, c, env, ttl) ==
      R.Goto(s, c, if env.random.None? then R.Done(R.Internal) else R.Storing(k.user, env.random.value, k.now, k.parent))
  {
  }

  lemma StoreStep(s: R.State, c: R.CallId, env: R.Env, ttl: Time)
    requires c in s.calls && s.calls[c].Storing?
    ensures var k, next := s.calls[c], R.Command(s, c, env, ttl);
      var e := T.Insert(s.db, T.Token(k.user, k.hash, k.now, k.now + ttl, None), env.fault);
      && next.db == e.db && c in next.calls
      && next.calls[c] == R.Done(if e.ok then R.Session(k.user, k.hash) else R.Internal)
  {
  }

  /** The first command of a login. */
  lemma LoginBegins(s: R.State, c: R.CallId, email: string, first: R.Env, issue: R.Env, store: R.Env, ttl: Time)
    requires c !in s.calls
    ensures var begun := R.Goto(s, c, R.LoggingIn(email));
      SoloLogin(s, c, Some(email), [first, issue, store], ttl) ==
      Alone(R.Command(begun, c, first, ttl), c, [issue, store], ttl)
  {
    AloneStep(R.Goto(s, c, R.LoggingIn(email)), c, [first, issue, store], ttl);
    assert [first, issue, store][1..] == [issue, store];
  }

  /** The email lookup of a login, and the comparison that follows it. */
  lemma LoginStep(rows: Rows, s: R.State, c: R.CallId, email: string, env: R.Env, ttl: Time, x: Oid)
    requires Printable(rows) && UniqueEmails(rows) && s.rows == Emails(rows)
    requires c in s.calls && s.calls[c] == R.LoggingIn(email)
    ensures var next := R.Command(s, c, env, ttl);
      && next.db == s.db && next.rows == s.rows && c in next.calls
      && (!env.fault.NoFault? ==> next.calls[c] == R.Done(R.Internal))
      && (env.fault.NoFault? && !Taken(rows, email, None) ==> next.calls[c] == R.Done(R.InvalidCredentials))
      && (env.fault.NoFault? && x in rows && rows[x].email == email ==>
            next.calls[c] == match env.verdict
              case Match => R.Issuing(ObjectId.Print(x), env.now, None)
              case Mismatch => R.Done(R.InvalidCredentials)
              case Broken => R.Done(R.Internal))
  {
    RowByEmailIs(rows, email);
  }

  /** How the system names a failed check. */
  lemma CheckAnswers(rows: Rows, compare: (string, string) -> R.Verdict, email: string, password: string, fault: Fault, x: Oid,
                     e: Error)
    requires CheckSays(rows, compare, email, password, fault, x, Err(e))
    ensures AnswerOf(e) ==
      if !fault.NoFault? then R.Internal
      else if !Taken(rows, email, None) then R.InvalidCredentials
      else if compare(rows[x].passwordHash, password).Mismatch? then R.InvalidCredentials
      else R.Internal
  {
    if !Taken(rows, email, None) {
      assert forall y <- rows :: rows[y].email != email;
    }
  }

  /** Tokens carry printed user ids: the service only ever stores ids it read from a row. */
  predicate Owned(db: T.Db) {
    forall t <- db.tokens :: ObjectId.Canonical(db.tokens[t].userId)
  }

  lemma InsertOwned(db: T.Db, token: T.Token, fault: Fault)
    requires Owned(db) && ObjectId.Canonical(token.userId)
    ensures Owned(T.Insert(db, token, fault).db)
  {
  }

  /** Storing, as the last command of a call, and the reply it leads to. */
  lemma StoreReplies(s: R.State, c: R.CallId, store: R.Env, ttl: Time, done: T.Effect, r: Result<Session, Error>)
    requires c in s.calls && s.calls[c].Storing?
    requires var k := s.calls[c];
      && done == T.Insert(s.db, T.Token(k.user, k.hash, k.now, k.now + ttl, None), store.fault)
      && if done.ok then r == Ok(Session(k.user, k.hash)) else Broke(r)
    ensures var e := Alone(s, c, [store], ttl);
      e.db == done.db && c in e.calls && e.calls[c] == R.Done(Reply(r))
    ensures IssueSays(s.db, s.calls[c].user, s.calls[c].now, Some(s.calls[c].hash), store.fault, ttl, done.db, r)
  {
    var k := s.calls[c];
    AloneOnce(s, c, store, ttl);
    StoreStep(s, c, store, ttl);
    InsertIssues(s.db, k.user, k.hash, k.now, store.fault, ttl, done.db, r);
    if r.Err? {
      InfrastructureIsInternal(r.error);
    }
  }

  /** A failed claim, and the reply it leads to. */
  lemma ClaimReplies(fault: Fault, e: Error, r: Result<Session, Error>)
    requires if fault.NoFault? then e == TOKEN_NOT_FOUND else Infrastructure(e)
    requires r == Err(if Is(e, Kind.RefreshTokenNotFound) then UNAUTHORIZED else e)
    ensures if fault.NoFault? then Refused(r) && Reply(r) == R.Unauthorized else Broke(r) && Reply(r) == R.Internal
  {
    if !fault.NoFault? {
      InfrastructureIsInternal(e);
    }
  }

  class AuthService {
    const users: UserRepo
    const refresh: RefreshTokenRepo
    const rule: AddressRule
    const refreshTTL: Time
    /** What the hasher says of a stored hash and a password. */
    const compare: (string, string) -> R.Verdict

    constructor (users: UserRepo, refresh: RefreshTokenRepo, rule: AddressRule, ttl: Time, compare: (string, string) -> R.Verdict)
      ensures this.users == users && this.refresh == refresh && refreshTTL == ttl && this.rule == rule && this.compare == compare
    {
      this.users, this.refresh, this.rule, this.refreshTTL, this.compare := users, refresh, rule, ttl, compare;
    }

    ghost predicate Valid()
      reads users, refresh
    {
      users.Valid() && T.Valid(refresh.db) && Owned(refresh.db)
    }

    /** Call c of system s is about to run on these stores. */
    ghost predicate Agrees(s: R.State)
      reads users, refresh
    {
      s.db == refresh.db && s.rows == Emails(users.rows)
    }

    /** Sign an access token and draw a refresh token; store it. */
    method IssueSession(user: string, now: Time, issue: R.Env, store: R.Env, ghost s: R.State, ghost c: R.CallId)
      returns (r: Result<Session, Error>)
      requires Valid() && Agrees(s) && ObjectId.Canonical(user)
      requires c in s.calls && s.calls[c].Issuing? && s.calls[c].user == user && s.calls[c].now == now
      modifies refresh
      ensures Valid()
      ensures var e := Alone(s, c, [issue, store], refreshTTL);
        c in e.calls && refresh.db == e.db && e.calls[c] == R.Done(Reply(r))
      ensures IssueSays(old(refresh.db), user, now, issue.random, store.fault, refreshTTL, refresh.db, r)
    {
      AloneStep(s, c, [issue, store], refreshTTL);
      IssueStep(s, c, issue, refreshTTL);
      ghost var s1 := R.Command(s, c, issue, refreshTTL);
      if issue.random.None? {
        AnsweredIsQuiet(s1, c, [store], refreshTTL);
        WrappedOpaque("issue access token", "no token");
        return Err(Breakdown("issue access token", "no token"));
      }
      r := StoreSession(user, issue.random.value, now, store, s1, c);
    }

    method StoreSession(user: string, hash: T.Hash, now: Time, store: R.Env, ghost s: R.State, ghost c: R.CallId)
      returns (r: Result<Session, Error>)
      requires Valid() && Agrees(s) && ObjectId.Canonical(user) && c in s.calls && s.calls[c].Storing?
      requires s.calls[c].user == user && s.calls[c].hash == hash && s.calls[c].now == now
      modifies refresh
      ensures Valid()
      ensures var e := Alone(s, c, [store], refreshTTL);
        c in e.calls && refresh.db == e.db && e.calls[c] == R.Done(Reply(r))
      ensures IssueSays(old(refresh.db), user, now, Some(hash), store.fault, refreshTTL, refresh.db, r)
    {
      ghost var e := T.Insert(refresh.db, T.Token(user, hash, now, now + refreshTTL, None), store.fault);
      InsertOwned(refresh.db, T.Token(user, hash, now, now + refreshTTL, None), store.fault);
      var err := refresh.Store(T.Token(user, hash, now, now + refreshTTL, None), store.fault);
      r := if err.Some? then Err(err.value) else Ok(Session(user, hash));
      StoreReplies(s, c, store, refreshTTL, e, r);
    }

    /** Claim first, then issue: whoever loses the claim gets nothing and changes nothing. */
    method Rotate(user: string, id: T.TokenId, now: Time, claim: R.Env, issue: R.Env, store: R.Env,
                  ghost s: R.State, ghost c: R.CallId)
      returns (r: Result<Session, Error>)
      requires Valid() && Agrees(s) && ObjectId.Canonical(user)
      requires c in s.calls && s.calls[c] == R.Claiming(id, user, now)
      modifies refresh
      ensures Valid()
      ensures var e := Alone(s, c, [claim, issue, store], refreshTTL);
        c in e.calls && refresh.db == e.db && e.calls[c] == R.Done(Reply(r))
      ensures RotateSays(old(refresh.db), user, id, now, claim.fault, issue.random, store.fault, refreshTTL, refresh.db, r)
    {
      AloneStep(s, c, [claim, issue, store], refreshTTL);
      ClaimStep(s, c, id, user, now, claim, refreshTTL);
      ghost var s1 := R.Command(s, c, claim, refreshTTL);
      ghost var before, done := refresh.db, T.Claim(refresh.db, id, now, claim.fault);
      var err := refresh.Revoke(id, now, claim.fault);
      if err.Some? {
        AnsweredIsQuiet(s1, c, [issue, store], refreshTTL);
        r := Err(if Is(err.value, Kind.RefreshTokenNotFound) then UNAUTHORIZED else err.value);
        ClaimReplies(claim.fault, err.value, r);
        NotClaimed(before, user, id, now, claim.fault, issue.random, store.fault, refreshTTL, done, r);
        return;
      }
      r := IssueSession(user, now, issue, store, s1, c);
      Claimed(before, user, id, now, claim.fault, issue.random, store.fault, refreshTTL, done, refresh.db, r);
    }

    /** An already-rotated token came back: revoke every session of its user. */
    method RevokeAllOnReuse(user: string, now: Time, envs: seq<R.Env>, ghost s: R.State, ghost c: R.CallId)
      returns (err: Option<Error>)
      requires Valid() && Agrees(s) && envs != [] && c in s.calls && s.calls[c] == R.Wiping(user, now)
      modifies refresh
      ensures Valid()
      ensures var e := Alone(s, c, envs, refreshTTL);
        && c in e.calls && refresh.db == e.db
        && e.calls[c] == R.Done(if err.Some? then AnswerOf(err.value) else R.Unauthorized)
      ensures if envs[0].fault.RequestLost? then refresh.db == old(refresh.db)
              else Wiped(old(refresh.db), refresh.db, user, now)
      ensures if envs[0].fault.NoFault? then err == None else err.Some? && Infrastructure(err.value)
    {
      AloneStep(s, c, envs, refreshTTL);
      AnsweredIsQuiet(R.Command(s, c, envs[0], refreshTTL), c, envs[1..], refreshTTL);
      err := refresh.RevokeAllForUser(user, now, envs[0].fault);
    }

    /**
     Everything that is not a usable token is Unauthorized; a token already revoked also costs its user every
     session, and only if that wipe is confirmed is the answer Unauthorized.
     */
    method FindLiveRefreshToken(raw: Option<T.Hash>, now: Time, envs: seq<R.Env>, ghost s: R.State, ghost c: R.CallId)
      returns (r: Result<(T.TokenId, T.Token), Error>, ghost found: R.State)
      requires Valid() && Agrees(s) && |envs| == 5 && c !in s.calls
      modifies refresh
      ensures Valid()
      ensures match r
              case Ok((t, token)) =>
                && Agrees(found) && c in found.calls && found.calls[c] == R.LookingUp(t, token.userId, now)
                && ObjectId.Canonical(token.userId)
                && SoloRefresh(s, c, raw, now, envs, refreshTTL) ==
                   Alone(found, c, [envs[1], envs[2], envs[3], envs[4]], refreshTTL)
              case Err(x) =>
                var e := SoloRefresh(s, c, raw, now, envs, refreshTTL);
                c in e.calls && refresh.db == e.db && e.calls[c] == R.Done(AnswerOf(x))
      ensures FindSays(old(refresh.db), raw, now, envs[0].fault, envs[1].fault, refresh.db, r)
    {
      ghost var begun := R.Step(s, R.StartRefresh(c, raw, now), refreshTTL);
      found := begun;
      if raw.None? {
        AnsweredIsQuiet(begun, c, envs, refreshTTL);
        return Err(UNAUTHORIZED), found;
      }
      AloneFive(begun, c, envs, refreshTTL);
      found := R.Command(begun, c, envs[0], refreshTTL);
      var stored := refresh.FindByHash(raw.value, envs[0].fault);
      if stored.Err? {
        AnsweredIsQuiet(found, c, envs[1..], refreshTTL);
        return Err(if Is(stored.error, Kind.RefreshTokenNotFound) then UNAUTHORIZED else stored.error), found;
      }
      ghost var before := refresh.db;
      var token := stored.value.1;
      if token.Revoked() {
        var err := RevokeAllOnReuse(token.userId, now, envs[1..], found, c);
        r := Err(if err.Some? then err.value else UNAUTHORIZED);
      } else if !(now < token.expiresAt) {
        AnsweredIsQuiet(found, c, envs[1..], refreshTTL);
        r := Err(UNAUTHORIZED);
      } else {
        r := Ok(stored.value);
      }
      FoundOne(before, raw.value, now, envs[1].fault, stored.value.0, refresh.db, r);
    }

    /** The owner of the token, read fresh; a user that is gone is Unauthorized. */
    method FindOwner(id: string, env: R.Env, ghost t: T.TokenId, ghost now: Time, ghost s: R.State, ghost c: R.CallId)
      returns (r: Result<string, Error>, ghost next: R.State)
      requires users.Valid() && Agrees(s) && ObjectId.Canonical(id)
      requires c in s.calls && s.calls[c] == R.LookingUp(t, id, now)
      ensures next == R.Command(s, c, env, refreshTTL) && next.db == s.db && next.rows == s.rows
      ensures match r
              case Ok(u) => u == id && next.calls[c] == R.Claiming(t, id, now)
              case Err(x) => next.calls[c] == R.Done(AnswerOf(x))
      ensures OwnerSays(Owners(users.rows), id, env.fault, r)
    {
      OwnersById(users.rows, id);
      next := R.Command(s, c, env, refreshTTL);
      OwnerStep(users.rows, s, c, t, id, now, env, refreshTTL);
      var u := users.FindByID(id, env.fault);
      if u.Err? {
        return Err(if Is(u.error, Kind.NotFound) then UNAUTHORIZED else u.error), next;
      }
      r := Ok(u.value.id);
    }

    /** The whole of Refresh, on one call's five commands. */
    method Refresh(raw: Option<T.Hash>, now: Time, envs: seq<R.Env>, ghost s: R.State, ghost c: R.CallId)
      returns (r: Result<Session, Error>)
      requires Valid() && Agrees(s) && |envs| == 5 && c !in s.calls
      modifies refresh
      ensures Valid()
      ensures var e := SoloRefresh(s, c, raw, now, envs, refreshTTL);
        c in e.calls && refresh.db == e.db && e.calls[c] == R.Done(Reply(r))
      ensures RefreshSays(Owners(users.rows), old(refresh.db), raw, now, envs, refreshTTL, refresh.db, r)
      ensures r.Err? && Is(r.error, Kind.Unauthorized) <==> Unusable(Owners(users.rows), old(refresh.db), raw, now, envs)
      ensures raw.Some? && !envs[0].fault.NoFault? ==>
        r.Err? && !Is(r.error, Kind.Unauthorized) && refresh.db == old(refresh.db)
    {
      ghost var found;
      ghost var owners, before := Owners(users.rows), refresh.db;
      var stored;
      stored, found := FindLiveRefreshToken(raw, now, envs, s, c);
      if stored.Err? {
        NothingFound(owners, before, raw, now, envs, refreshTTL, refresh.db, stored.error);
        return Err(stored.error);
      }
      var (id, token) := stored.value;
      r := RefreshLive(id, token.userId, now, envs[1], envs[2], envs[3], envs[4], found, c);
      SomethingFound(owners, before, raw, now, envs, refreshTTL, id, token, refresh.db, r);
    }

    /** From a live token on: its owner, then the rotation. */
    method RefreshLive(id: T.TokenId, owner: string, now: Time, lookup: R.Env, claim: R.Env, issue: R.Env, store: R.Env,
                       ghost s: R.State, ghost c: R.CallId)
      returns (r: Result<Session, Error>)
      requires Valid() && Agrees(s) && ObjectId.Canonical(owner)
      requires c in s.calls && s.calls[c] == R.LookingUp(id, owner, now)
      modifies refresh
      ensures Valid()
      ensures var e := Alone(s, c, [lookup, claim, issue, store], refreshTTL);
        c in e.calls && refresh.db == e.db && e.calls[c] == R.Done(Reply(r))
      ensures OwnedSays(Owners(users.rows), old(refresh.db), owner, id, now, lookup.fault, claim.fault, issue.random, store.fault,
                        refreshTTL, refresh.db, r)
    {
      ghost var looked;
      ghost var owners, before := Owners(users.rows), refresh.db;
      var user;
      AloneFour(s, c, lookup, claim, issue, store, refreshTTL);
      user, looked := FindOwner(owner, lookup, id, now, s, c);
      if user.Err? {
        AnsweredIsQuiet(looked, c, [claim, issue, store], refreshTTL);
        OwnerMissing(owners, before, owner, id, now, lookup.fault, claim.fault, issue.random, store.fault, refreshTTL,
                     user.error);
        return Err(user.error);
      }
      r := Rotate(user.value, id, now, claim, issue, store, looked, c);
      OwnerFound(owners, before, owner, id, now, lookup.fault, claim.fault, issue.random, store.fault, refreshTTL,
                 user.value, refresh.db, r);
    }

    /** The hasher's word on the row the email leads to. */
    ghost function Compared(email: string, password: string): R.Verdict
      reads users
    {
      if Taken(users.rows, email, None) then
        var x :| x in users.rows && users.rows[x].email == email;
        compare(users.rows[x].passwordHash, password)
      else
        R.Mismatch
    }

    /** Find the user by email and compare the password with the hash in that row, and no other. */
    method Authenticate(email: string, password: string, fault: Fault) returns (r: Result<string, Error>, ghost x: Oid)
      requires users.Valid()
      ensures CheckSays(users.rows, compare, email, password, fault, x, r)
    {
      x := 0;
      ghost var rows := users.rows;
      var u := users.FindByEmail(email, fault);
      if u.Err? {
        if Is(u.error, Kind.NotFound) {
          return Err(INVALID_CREDENTIALS), x;
        }
        return Err(u.error), x;
      }
      ghost var row := u.value.AsRow();
      x :| x in rows && u.value.id == ObjectId.Print(x) && row == rows[x];
      var outcome := compare(u.value.passwordHash, password);
      r := match outcome
        case Match => Ok(u.value.id)
        case Mismatch => Err(INVALID_CREDENTIALS)
        case Broken => Err(Breakdown("compare password", "corrupt hash"));
    }

    /** A malformed email, an unknown email and a wrong password get one and the same answer. */
    method Login(email: string, password: string, envs: seq<R.Env>, ghost s: R.State, ghost c: R.CallId)
      returns (r: Result<Session, Error>)
      requires Valid() && Agrees(s) && |envs| == 3 && c !in s.calls
      modifies refresh
      ensures Valid()
      ensures var address := NewEmail(rule, email);
        var e := match address
          case Err(_) => SoloLogin(s, c, None, envs, refreshTTL)
          case Ok(a) => SoloLogin(s, c, Some(a), [envs[0].(verdict := old(Compared(a, password))), envs[1], envs[2]], refreshTTL);
        c in e.calls && refresh.db == e.db && e.calls[c] == R.Done(Reply(r))
      ensures (forall a :: !EmailForm(rule, email, a)) ==> WrongCredentials(r) && refresh.db == old(refresh.db)
      ensures forall a | EmailForm(rule, email, a) ::
        LoginSays(users.rows, compare, a, password, envs, refreshTTL, old(refresh.db), refresh.db, r)
    {
      EmailUnfit(rule, email);
      var address := NewEmail(rule, email);
      if address.Err? {
        AnsweredIsQuiet(R.Step(s, R.StartLogin(c, None), refreshTTL), c, envs, refreshTTL);
        return Err(INVALID_CREDENTIALS);
      }
      NewEmailExactly(rule, email, address.value);
      r := LoginAs(address.value, password, envs, s, c);
      forall a | EmailForm(rule, email, a) ensures a == address.value {
        NewEmailExactly(rule, email, a);
      }
    }

    method LoginAs(email: string, password: string, envs: seq<R.Env>, ghost s: R.State, ghost c: R.CallId)
      returns (r: Result<Session, Error>)
      requires Valid() && Agrees(s) && |envs| == 3 && c !in s.calls
      modifies refresh
      ensures Valid()
      ensures var first := envs[0].(verdict := old(Compared(email, password)));
        var e := SoloLogin(s, c, Some(email), [first, envs[1], envs[2]], refreshTTL);
        c in e.calls && refresh.db == e.db && e.calls[c] == R.Done(Reply(r))
      ensures LoginSays(users.rows, compare, email, password, envs, refreshTTL, old(refresh.db), refresh.db, r)
    {
      ghost var x;
      var user;
      ghost var begun := R.Goto(s, c, R.LoggingIn(email));
      ghost var first := envs[0].(verdict := Compared(email, password));
      LoginBegins(s, c, email, first, envs[1], envs[2], refreshTTL);
      user, x := Authenticate(email, password, envs[0].fault);
      LoginStep(users.rows, begun, c, email, first, refreshTTL, x);
      ghost var checked := R.Command(begun, c, first, refreshTTL);
      if user.Err? {
        AnsweredIsQuiet(checked, c, [envs[1], envs[2]], refreshTTL);
        NotLoggedIn(users.rows, compare, email, password, envs, refreshTTL, refresh.db, x, user.error);
        CheckAnswers(users.rows, compare, email, password, envs[0].fault, x, user.error);
        return Err(user.error);
      }
      ObjectId.ParsePrint(x);
      r := IssueSession(user.value, envs[0].now, envs[1], envs[2], checked, c);
      LoggedIn(users.rows, compare, email, password, envs, refreshTTL, old(refresh.db), refresh.db, x, user.value, r);
    }
  }
}
