/**
 What the caller of each use case is told when it fails: the code of its error, end to end, from the fields sent, the
 store and the faults. The methods of UserService and AuthService end in the relations these lemmas start from.
 */
module Codes {
  import opened Wrappers
  import opened Errors
  import opened UserDomain
  import opened UserStore
  import opened Listing
  import opened SessionAnswers
  import opened UserAnswers
  import ApiErr
  import ObjectId
  import R = Rotation
  import T = TokenStore

  function CodeOf(e: Error): ApiErr.Code {
    ApiErr.Classified(Some(e)).code
  }

  function FieldsOf(e: Error): seq<Invalid> {
    ApiErr.Classified(Some(e)).fields
  }

  /** Each of the domain's failures has its own code, and the application's two are nobody's business. */
  lemma SentinelCode(kind: Kind)
    ensures CodeOf(Sentinel(kind)) ==
      match kind
      case NotFound => ApiErr.UserNotFound
      case EmailTaken => ApiErr.Code.EmailTaken
      case InvalidCredentials => ApiErr.Code.InvalidCredentials
      case Unauthorized => ApiErr.Code.Unauthorized
      case Unauthenticated => ApiErr.Code.Unauthorized
      case Forbidden => ApiErr.Code.Forbidden
      case PasswordMismatch => ApiErr.Internal
      case RefreshTokenNotFound => ApiErr.Internal
  {
    var e := Sentinel(kind);
    ApiErr.ClassifiedTells(e);
    assert forall k :: Is(e, k) <==> k == kind;
  }

  /** Invalid fields are reported as such, every one of them. */
  lemma InvalidCode(v: Invalid, all: seq<Invalid>)
    ensures CodeOf(One(v)) == ApiErr.Validation && FieldsOf(One(v)) == [v]
    ensures CodeOf(Many(all)) == ApiErr.Validation && FieldsOf(Many(all)) == all
  {
    ApiErr.ClassifiedTells(One(v));
    ApiErr.ClassifiedTells(Many(all));
  }

  /** Nothing is said about a fault below. */
  lemma FaultCode(e: Error)
    requires Infrastructure(e)
    ensures CodeOf(e) == ApiErr.Internal && FieldsOf(e) == []
  {
    ApiErr.ClassifiedTells(e);
    assert ApiErr.AnsweredAs(e, ApiErr.Internal);
  }

  lemma WrappedCode(text: string, e: Error)
    ensures CodeOf(Wrap(text, e)) == CodeOf(e)
  {
    assert WrapAll([text][1..], e) == e;
    assert WrapAll([text], e) == Wrap(text, e);
    ApiErr.WrappingIsTransparent([text], e);
  }

  lemma BrokeCode<S>(r: Result<S, Error>)
    requires Broke(r)
    ensures CodeOf(r.error) == ApiErr.Internal
  {
    FaultCode(r.error);
  }

  /** A Create with an unfit field reports every unfit field. */
  lemma UnfitCreateCode(rule: AddressRule, name: string, email: string, password: string, hashed: Result<string, Error>,
                        now: Time, fault: Fault, before: Rows, nextId: Oid, after: Rows, nextId': Oid, r: Result<Found, Error>)
    requires CreateSays(rule, name, email, password, hashed, now, fault, before, nextId, after, nextId', r)
    requires forall n, e :: !Fit(rule, name, email, password, n, e)
    ensures r.Err? && CodeOf(r.error) == ApiErr.Validation
    ensures ReportsUnfit(rule, Some(name), Some(email), Some(password), FieldsOf(r.error))
  {
    InvalidCode(Invalid("", ""), r.error.all);
  }

  lemma InsertCode(before: Rows, nextId: Oid, row: Row, fault: Fault, after: Rows, nextId': Oid, r: Result<Found, Error>)
    requires InsertSays(before, nextId, row, fault, after, nextId', r) && r.Err?
    ensures if fault.NoFault? then CodeOf(r.error) == ApiErr.Code.EmailTaken && exists x <- before :: before[x].email == row.email
            else CodeOf(r.error) == ApiErr.Internal
  {
    SentinelCode(Kind.EmailTaken);
    if Broke(r) {
      BrokeCode(r);
    }
  }

  /** A Create of fit fields fails as the hasher does, or because the email is taken, or for a fault. */
  lemma FitCreateCode(rule: AddressRule, name: string, email: string, password: string, hashed: Result<string, Error>,
                      now: Time, fault: Fault, before: Rows, nextId: Oid, after: Rows, nextId': Oid, r: Result<Found, Error>,
                      n: string, e: string)
    requires CreateSays(rule, name, email, password, hashed, now, fault, before, nextId, after, nextId', r) && r.Err?
    requires Fit(rule, name, email, password, n, e)
    ensures if hashed.Err? then CodeOf(r.error) == CodeOf(hashed.error)
            else if fault.NoFault? then CodeOf(r.error) == ApiErr.Code.EmailTaken && exists x <- before :: before[x].email == e
            else CodeOf(r.error) == ApiErr.Internal
  {
    if hashed.Err? {
      WrappedCode("hash password", hashed.error);
    } else {
      InsertCode(before, nextId, Row(n, e, hashed.value, now, now), fault, after, nextId', r);
    }
  }

  lemma WriteCode(before: Rows, x: Oid, row: Row, fault: Fault, after: Rows, r: Result<Row, Error>)
    requires WriteSays(before, x, row, fault, after, r) && r.Err?
    ensures CodeOf(r.error) == if fault.NoFault? then ApiErr.Code.EmailTaken else ApiErr.Internal
  {
    SentinelCode(Kind.EmailTaken);
    if Broke(r) {
      BrokeCode(r);
    }
  }

  lemma OwnUpdateCode(rule: AddressRule, x: Oid, name: Option<string>, email: Option<string>, now: Time,
                      read: Fault, write: Fault, before: Rows, after: Rows, r: Result<Row, Error>)
    requires OwnUpdateSays(rule, x, name, email, now, read, write, before, after, r) && r.Err?
    ensures CodeOf(r.error) ==
      if !read.NoFault? then ApiErr.Internal
      else if x !in before then ApiErr.UserNotFound
      else if forall row :: !Becomes(rule, name, email, now, before[x], row) then ApiErr.Validation
      else if write.NoFault? then ApiErr.Code.EmailTaken
      else ApiErr.Internal
  {
    if !read.NoFault? {
      BrokeCode(r);
    } else if x !in before {
      SentinelCode(Kind.NotFound);
    } else if row :| Becomes(rule, name, email, now, before[x], row) {
      WriteCode(before, x, row, write, after, r);
    } else {
      InvalidCode(Invalid("", ""), r.error.all);
    }
  }

  /** An Update that fails: first what is wrong with the call, then with the row, then with the fields, then the email. */
  lemma UpdateCodes(rule: AddressRule, actor: string, id: string, name: Option<string>, email: Option<string>, now: Time,
                    read: Fault, write: Fault, before: Rows, after: Rows, r: Result<Row, Error>)
    requires UpdateSays(rule, actor, id, name, email, now, read, write, before, after, r) && r.Err?
    ensures CodeOf(r.error) ==
      if id == "" then ApiErr.Validation
      else if actor == "" || actor != id then ApiErr.Code.Forbidden
      else if (name.None? && email.None?) || ObjectId.Parse(id).None? then ApiErr.Validation
      else if !read.NoFault? then ApiErr.Internal
      else if ObjectId.Parse(id).value !in before then ApiErr.UserNotFound
      else if forall row :: !Becomes(rule, name, email, now, before[ObjectId.Parse(id).value], row) then ApiErr.Validation
      else if write.NoFault? then ApiErr.Code.EmailTaken
      else ApiErr.Internal
  {
    SentinelCode(Kind.Forbidden);
    if r.error.One? {
      InvalidCode(r.error.invalid, []);
    }
    if id != "" && actor == id && (name.Some? || email.Some?) && ObjectId.Parse(id).Some? {
      OwnUpdateCode(rule, ObjectId.Parse(id).value, name, email, now, read, write, before, after, r);
    }
  }

  lemma DeleteCodes(actor: string, id: string, now: Time, remove: Fault, revoke: Fault, before: Rows, after: Rows,
                    tokens: T.Db, tokens': T.Db, r: Result<(), Error>)
    requires DeleteSays(actor, id, now, remove, revoke, before, after, tokens, tokens', r) && r.Err?
    ensures CodeOf(r.error) ==
      if id == "" then ApiErr.Validation
      else if actor == "" || actor != id then ApiErr.Code.Forbidden
      else if !ObjectId.HexId(id) then ApiErr.Validation
      else if remove.NoFault? && ObjectId.Parse(id) !in set x | x in before :: Some(x) then ApiErr.UserNotFound
      else ApiErr.Internal
  {
    ObjectId.ParsesExactly(id);
    SentinelCode(Kind.Forbidden);
    SentinelCode(Kind.NotFound);
    if r.error.One? {
      InvalidCode(r.error.invalid, []);
    }
    if Infrastructure(r.error) {
      FaultCode(r.error);
    }
  }

  /** A List that fails: a limit or a cursor that is not fit, or a fault. */
  lemma ListCodes(limit: Option<int>, cursor: string, query: string, fault: Fault, rows: Rows, matcher: Matcher,
                  r: Result<UserPage, Error>)
    requires ListSays(limit, cursor, query, fault, rows, matcher, r) && r.Err?
    ensures var badLimit := limit.Some? && !(1 <= limit.value <= 100);
      if badLimit || (cursor != "" && !ObjectId.HexId(cursor)) then
        CodeOf(r.error) == ApiErr.Validation && |FieldsOf(r.error)| == 1
        && FieldsOf(r.error)[0].field == if badLimit then "limit" else "cursor"
      else CodeOf(r.error) == ApiErr.Internal
  {
    if r.error.One? {
      InvalidCode(r.error.invalid, []);
    }
    if Infrastructure(r.error) {
      FaultCode(r.error);
    }
  }

  /** A login that fails under this email: one answer for an unknown email and a wrong password, another for any fault. */
  lemma LoginCodes(rows: Rows, compare: (string, string) -> R.Verdict, email: string, password: string, envs: seq<R.Env>,
                   ttl: T.Time, before: T.Db, after: T.Db, r: Result<Session, Error>)
    requires |envs| == 3 && LoginSays(rows, compare, email, password, envs, ttl, before, after, r) && r.Err?
    ensures CodeOf(r.error) ==
      if envs[0].fault.NoFault? &&
         forall x <- rows :: rows[x].email == email ==> compare(rows[x].passwordHash, password).Mismatch?
      then ApiErr.Code.InvalidCredentials else ApiErr.Internal
  {
    SentinelCode(Kind.InvalidCredentials);
    FailuresDiffer(r);
    if Broke(r) {
      BrokeCode(r);
    }
  }

  /** A refresh that fails: Unauthorized exactly for an unusable token, and otherwise a fault. */
  lemma RefreshCodes(owners: set<string>, before: T.Db, raw: Option<T.Hash>, now: T.Time, envs: seq<R.Env>, ttl: T.Time,
                     after: T.Db, r: Result<Session, Error>)
    requires |envs| == 5 && T.Valid(before) && RefreshSays(owners, before, raw, now, envs, ttl, after, r) && r.Err?
    ensures CodeOf(r.error) ==
      if Unusable(owners, before, raw, now, envs) then ApiErr.Code.Unauthorized else ApiErr.Internal
  {
    SentinelCode(Kind.Unauthorized);
    RefusedIffUnusable(owners, before, raw, now, envs, ttl, after, r);
    if Broke(r) {
      BrokeCode(r);
    }
  }
}
