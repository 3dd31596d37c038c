/**
 What a login and a refresh answer and leave behind, case by case, in terms of the rows, the documents and the fault
 each command meets, and of nothing else. The methods of AuthService keep these promises.
 */
module SessionAnswers {
  import opened Wrappers
  import opened Errors
  import opened TokenStore
  import opened UserStore
  import opened Listing
  import ObjectId
  import R = Rotation

  /** A raw token is named by its hash, as in the transition system. */
  datatype Session = Session(user: string, token: Hash)

  predicate Refused<T(==)>(r: Result<T, Error>) {
    r == Err(Sentinel(Kind.Unauthorized))
  }

  predicate WrongCredentials<T(==)>(r: Result<T, Error>) {
    r == Err(Sentinel(Kind.InvalidCredentials))
  }

  /** The three kinds of failure are told apart by what the error is. */
  lemma FailuresDiffer<T>(r: Result<T, Error>)
    ensures !(Refused(r) && Broke(r)) && !(WrongCredentials(r) && Broke(r)) && !(Refused(r) && WrongCredentials(r))
    ensures Refused(r) ==> Is(r.error, Kind.Unauthorized)
  {
    assert Is(Sentinel(Kind.Unauthorized), Kind.Unauthorized);
    assert Is(Sentinel(Kind.InvalidCredentials), Kind.InvalidCredentials);
  }

  /** The user's live tokens, and no others, are revoked now. */
  predicate Wiped(before: Db, after: Db, user: UserId, now: Time) {
    && after.nextId == before.nextId && after.tokens.Keys == before.tokens.Keys
    && forall k <- before.tokens ::
         after.tokens[k] == if before.tokens[k].userId == user && before.tokens[k].revokedAt.None?
                            then before.tokens[k].(revokedAt := Some(now)) else before.tokens[k]
  }

  /** A revoked token was presented: the wipe, and a refusal only if the wipe was confirmed. */
  predicate ReuseSays<T(==)>(before: Db, user: UserId, now: Time, fault: Fault, after: Db, r: Result<T, Error>) {
    && (if fault.RequestLost? then after == before else Wiped(before, after, user, now))
    && (if fault.NoFault? then Refused(r) else Broke(r))
  }

  /** A token was to be drawn and stored for the user, over these documents. */
  predicate IssueSays(before: Db, user: UserId, now: Time, random: Option<Hash>, fault: Fault, ttl: Time,
                      after: Db, r: Result<Session, Error>)
  {
    if random.None? || fault.RequestLost? || exists k <- before.tokens :: before.tokens[k].hash == random.value then
      Broke(r) && after == before
    else
      && after == Db(before.tokens[before.nextId := Token(user, random.value, now, now + ttl, None)], before.nextId + 1)
      && if fault.NoFault? then r == Ok(Session(user, random.value)) else Broke(r)
  }

  lemma InsertIssues(before: Db, user: UserId, hash: Hash, now: Time, fault: Fault, ttl: Time,
                     after: Db, r: Result<Session, Error>)
    requires var e := Insert(before, Token(user, hash, now, now + ttl, None), fault);
      after == e.db && if e.ok then r == Ok(Session(user, hash)) else Broke(r)
    ensures IssueSays(before, user, now, Some(hash), fault, ttl, after, r)
  {
  }

  /** A token was to be claimed and replaced. A claim finds the token live or changes nothing. */
  predicate RotateSays(before: Db, user: UserId, t: TokenId, now: Time, claim: Fault, random: Option<Hash>, store: Fault,
                       ttl: Time, after: Db, r: Result<Session, Error>)
  {
    if t !in before.tokens || before.tokens[t].revokedAt.Some? then
      after == before && if claim.NoFault? then Refused(r) else Broke(r)
    else if claim.RequestLost? then
      after == before && Broke(r)
    else
      var spent := before.(tokens := before.tokens[t := before.tokens[t].(revokedAt := Some(now))]);
      if claim.ReplyLost? then after == spent && Broke(r)
      else IssueSays(spent, user, now, random, store, ttl, after, r)
  }

  /** The ids of the stored users. */
  function Owners(rows: Rows): set<string> {
    set x | x in rows :: ObjectId.Print(x)
  }

  /** From the user lookup on. */
  predicate OwnedSays(owners: set<string>, before: Db, user: UserId, t: TokenId, now: Time, lookup: Fault, claim: Fault,
                      random: Option<Hash>, store: Fault, ttl: Time, after: Db, r: Result<Session, Error>)
  {
    if !lookup.NoFault? then Broke(r) && after == before
    else if user !in owners then Refused(r) && after == before
    else RotateSays(before, user, t, now, claim, random, store, ttl, after, r)
  }

  /** The claim did not go through, or was not heard of. */
  lemma NotClaimed(before: Db, user: UserId, t: TokenId, now: Time, claim: Fault, random: Option<Hash>, store: Fault,
                   ttl: Time, done: TokenStore.Effect, r: Result<Session, Error>)
    requires done == Claim(before, t, now, claim) && !done.ok && if claim.NoFault? then Refused(r) else Broke(r)
    ensures RotateSays(before, user, t, now, claim, random, store, ttl, done.db, r)
  {
  }

  lemma Claimed(before: Db, user: UserId, t: TokenId, now: Time, claim: Fault, random: Option<Hash>, store: Fault,
                ttl: Time, done: TokenStore.Effect, after: Db, r: Result<Session, Error>)
    requires done == Claim(before, t, now, claim) && done.ok && IssueSays(done.db, user, now, random, store, ttl, after, r)
    ensures RotateSays(before, user, t, now, claim, random, store, ttl, after, r)
  {
  }

  /** The owner of a token was looked up. */
  predicate OwnerSays(owners: set<string>, user: UserId, lookup: Fault, r: Result<string, Error>) {
    if !lookup.NoFault? then Broke(r) else if user in owners then r == Ok(user) else Refused(r)
  }

  lemma OwnerMissing(owners: set<string>, before: Db, user: UserId, t: TokenId, now: Time, lookup: Fault, claim: Fault,
                     random: Option<Hash>, store: Fault, ttl: Time, e: Error)
    requires OwnerSays(owners, user, lookup, Err(e))
    ensures OwnedSays(owners, before, user, t, now, lookup, claim, random, store, ttl, before, Err(e))
  {
    var found: Result<string, Error>, r: Result<Session, Error> := Err(e), Err(e);
    assert Refused(found) == Refused(r) && Broke(found) == Broke(r);
  }

  lemma OwnerFound(owners: set<string>, before: Db, user: UserId, t: TokenId, now: Time, lookup: Fault, claim: Fault,
                   random: Option<Hash>, store: Fault, ttl: Time, u: string, after: Db, r: Result<Session, Error>)
    requires OwnerSays(owners, user, lookup, Ok(u))
    requires RotateSays(before, user, t, now, claim, random, store, ttl, after, r)
    ensures OwnedSays(owners, before, user, t, now, lookup, claim, random, store, ttl, after, r) && u == user
  {
  }

  /** A usable token was looked for: the one document with the hash, if it is neither revoked nor expired. */
  predicate FindSays(before: Db, raw: Option<Hash>, now: Time, find: Fault, wipe: Fault,
                     after: Db, r: Result<(TokenId, Token), Error>)
  {
    if raw.None? then Refused(r) && after == before
    else if !find.NoFault? then Broke(r) && after == before
    else
      && ((forall t <- before.tokens :: before.tokens[t].hash != raw.value) ==> Refused(r) && after == before)
      && forall t <- before.tokens | before.tokens[t].hash == raw.value ::
           var token := before.tokens[t];
           if token.revokedAt.Some? then ReuseSays(before, token.userId, now, wipe, after, r)
           else after == before && if token.expiresAt <= now then Refused(r) else r == Ok((t, token))
  }

  /** The one document with the hash decides. */
  lemma FoundOne(before: Db, hash: Hash, now: Time, wipe: Fault, t: TokenId, after: Db, r: Result<(TokenId, Token), Error>)
    requires Valid(before) && t in before.tokens && before.tokens[t].hash == hash
    requires var token := before.tokens[t];
      if token.revokedAt.Some? then ReuseSays(before, token.userId, now, wipe, after, r)
      else after == before && if token.expiresAt <= now then Refused(r) else r == Ok((t, token))
    ensures FindSays(before, Some(hash), now, NoFault, wipe, after, r)
  {
    assert forall k <- before.tokens :: before.tokens[k].hash == hash ==> k == t;
  }

  /** Refresh, by the token presented, the one document with its hash, and the faults of the five commands. */
  predicate RefreshSays(owners: set<string>, before: Db, raw: Option<Hash>, now: Time, envs: seq<R.Env>, ttl: Time,
                        after: Db, r: Result<Session, Error>)
    requires |envs| == 5
  {
    if raw.None? then Refused(r) && after == before
    else if !envs[0].fault.NoFault? then Broke(r) && after == before
    else
      && ((forall t <- before.tokens :: before.tokens[t].hash != raw.value) ==> Refused(r) && after == before)
      && forall t <- before.tokens | before.tokens[t].hash == raw.value ::
           var token := before.tokens[t];
           if token.revokedAt.Some? then ReuseSays(before, token.userId, now, envs[1].fault, after, r)
           else if token.expiresAt <= now then Refused(r) && after == before
           else OwnedSays(owners, before, token.userId, t, now, envs[1].fault, envs[2].fault, envs[3].random, envs[4].fault,
                          ttl, after, r)
  }

  /** Exactly when a refresh is answered Unauthorized: no token, or one that is unknown, spent, expired or orphaned. */
  predicate Unusable(owners: set<string>, before: Db, raw: Option<Hash>, now: Time, envs: seq<R.Env>)
    requires |envs| == 5
  {
    raw.None? ||
    (envs[0].fault.NoFault? &&
     forall t <- before.tokens | before.tokens[t].hash == raw.value ::
       var token := before.tokens[t];
       if token.revokedAt.Some? then envs[1].fault.NoFault?
       else token.expiresAt <= now || (envs[1].fault.NoFault? && token.userId !in owners))
  }

  lemma RefusedIffUnusable(owners: set<string>, before: Db, raw: Option<Hash>, now: Time, envs: seq<R.Env>, ttl: Time,
                           after: Db, r: Result<Session, Error>)
    requires |envs| == 5 && Valid(before) && RefreshSays(owners, before, raw, now, envs, ttl, after, r)
    ensures r.Err? && Is(r.error, Kind.Unauthorized) <==> Refused(r)
    ensures Refused(r) <==> Unusable(owners, before, raw, now, envs)
    ensures r.Ok? || Refused(r) || Broke(r)
  {
    FailuresDiffer(r);
    if raw.Some? && envs[0].fault.NoFault? {
      if t :| t in before.tokens && before.tokens[t].hash == raw.value {
        assert forall k <- before.tokens :: before.tokens[k].hash == raw.value ==> k == t;
      }
    }
  }

  lemma NothingFound(owners: set<string>, before: Db, raw: Option<Hash>, now: Time, envs: seq<R.Env>, ttl: Time,
                     after: Db, e: Error)
    requires |envs| == 5 && Valid(before) && FindSays(before, raw, now, envs[0].fault, envs[1].fault, after, Err(e))
    ensures RefreshSays(owners, before, raw, now, envs, ttl, after, Err(e))
    ensures Is(e, Kind.Unauthorized) <==> Unusable(owners, before, raw, now, envs)
  {
    var found: Result<(TokenId, Token), Error>, r: Result<Session, Error> := Err(e), Err(e);
    assert Refused(found) == Refused(r) && Broke(found) == Broke(r);
    RefusedIffUnusable(owners, before, raw, now, envs, ttl, after, Err(e));
  }

  lemma SomethingFound(owners: set<string>, before: Db, raw: Option<Hash>, now: Time, envs: seq<R.Env>, ttl: Time, t: TokenId,
                       token: Token, after: Db, r: Result<Session, Error>)
    requires |envs| == 5 && Valid(before) && FindSays(before, raw, now, envs[0].fault, envs[1].fault, before, Ok((t, token)))
    requires OwnedSays(owners, before, token.userId, t, now, envs[1].fault, envs[2].fault, envs[3].random, envs[4].fault,
                       ttl, after, r)
    ensures RefreshSays(owners, before, raw, now, envs, ttl, after, r)
    ensures r.Err? && Is(r.error, Kind.Unauthorized) <==> Unusable(owners, before, raw, now, envs)
  {
    var k :| k in before.tokens && before.tokens[k].hash == raw.value;
    assert k == t;
    RefusedIffUnusable(owners, before, raw, now, envs, ttl, after, r);
  }

  /** The row that has the email, and the hasher's word on its hash and the password. */
  predicate CheckSays(rows: Rows, compare: (string, string) -> R.Verdict, email: string, password: string, fault: Fault,
                      x: Oid, r: Result<string, Error>)
  {
    if !fault.NoFault? then Broke(r)
    else if forall y <- rows :: rows[y].email != email then WrongCredentials(r)
    else
      && x in rows && rows[x].email == email
      && match compare(rows[x].passwordHash, password)
         case Match => r == Ok(ObjectId.Print(x))
         case Mismatch => WrongCredentials(r)
         case Broken => Broke(r)
  }

  /** Login under an email in normal form, by the row that has it and the hasher's word on that row's hash. */
  predicate LoginSays(rows: Rows, compare: (string, string) -> R.Verdict, email: string, password: string, envs: seq<R.Env>,
                      ttl: Time, before: Db, after: Db, r: Result<Session, Error>)
    requires |envs| == 3
  {
    if !envs[0].fault.NoFault? then Broke(r) && after == before
    else
      && ((forall x <- rows :: rows[x].email != email) ==> WrongCredentials(r) && after == before)
      && forall x <- rows | rows[x].email == email ::
           match compare(rows[x].passwordHash, password)
           case Mismatch => WrongCredentials(r) && after == before
           case Broken => Broke(r) && after == before
           case Match =>
             IssueSays(before, ObjectId.Print(x), envs[0].now, envs[1].random, envs[2].fault, ttl, after, r)
  }

  lemma NotLoggedIn(rows: Rows, compare: (string, string) -> R.Verdict, email: string, password: string, envs: seq<R.Env>,
                    ttl: Time, before: Db, x: Oid, e: Error)
    requires |envs| == 3 && UniqueEmails(rows) && CheckSays(rows, compare, email, password, envs[0].fault, x, Err(e))
    ensures LoginSays(rows, compare, email, password, envs, ttl, before, before, Err(e))
  {
    var checked: Result<string, Error>, r: Result<Session, Error> := Err(e), Err(e);
    assert WrongCredentials(checked) == WrongCredentials(r) && Broke(checked) == Broke(r);
    FailuresDiffer(checked);
  }

  lemma LoggedIn(rows: Rows, compare: (string, string) -> R.Verdict, email: string, password: string, envs: seq<R.Env>,
                 ttl: Time, before: Db, after: Db, x: Oid, user: string, r: Result<Session, Error>)
    requires |envs| == 3 && UniqueEmails(rows) && CheckSays(rows, compare, email, password, envs[0].fault, x, Ok(user))
    requires IssueSays(before, user, envs[0].now, envs[1].random, envs[2].fault, ttl, after, r)
    ensures LoginSays(rows, compare, email, password, envs, ttl, before, after, r)
  {
  }
}
