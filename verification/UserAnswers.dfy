/**
 What Create, Update, Delete and List answer and leave behind, case by case, in terms of the fields sent, the rows and
 the fault each command meets, and of nothing else. The methods of UserService keep these promises.
 */
module UserAnswers {
  import opened Wrappers
  import opened Errors
  import opened Text
  import opened UserDomain
  import opened UserStore
  import opened Listing
  import opened SessionAnswers
  import ObjectId
  import T = TokenStore

  /** An insert, decided by the emails that are stored. */
  predicate InsertSays(before: Rows, nextId: Oid, row: Row, fault: Fault, after: Rows, nextId': Oid, r: Result<Found, Error>) {
    if fault.RequestLost? || exists x <- before :: before[x].email == row.email then
      && after == before && nextId' == nextId
      && if fault.NoFault? then r == Err(Sentinel(Kind.EmailTaken)) else Broke(r)
    else
      && after == before[nextId := row] && nextId' == nextId + 1
      && if fault.NoFault? then r == Ok(Found(ObjectId.Print(nextId), row)) else Broke(r)
  }

  /** Create: the unfit fields, or the hasher's failure, or the insert of the row in its normal form. */
  ghost predicate CreateSays(rule: AddressRule, name: string, email: string, password: string, hashed: Result<string, Error>,
                             now: Time, fault: Fault, before: Rows, nextId: Oid, after: Rows, nextId': Oid,
                             r: Result<Found, Error>)
  {
    && ((forall n, e :: !Fit(rule, name, email, password, n, e)) ==>
          && after == before && nextId' == nextId
          && r.Err? && r.error.Many? && r.error.all != []
          && ReportsUnfit(rule, Some(name), Some(email), Some(password), r.error.all))
    && (forall n, e | Fit(rule, name, email, password, n, e) ::
          if hashed.Err? then after == before && nextId' == nextId && r == Err(Wrap("hash password", hashed.error))
          else InsertSays(before, nextId, Row(n, e, hashed.value, now, now), fault, after, nextId', r))
  }

  lemma InsertRowSays(before: Rows, nextId: Oid, row: Row, fault: Fault, r: Result<Found, Error>)
    requires match InsertRow(before, nextId, row, fault).reply
             case Ok(x) => r == Ok(Found(ObjectId.Print(x), row))
             case Err(e) => r == Err(e)
    ensures var e := InsertRow(before, nextId, row, fault);
      InsertSays(before, nextId, row, fault, e.rows, if e.applied then nextId + 1 else nextId, r)
  {
  }

  lemma UnfitCreateSays(rule: AddressRule, name: string, email: string, password: string, hashed: Result<string, Error>,
                        now: Time, fault: Fault, rows: Rows, nextId: Oid, r: Result<Found, Error>)
    requires Failing(rule, name, email, password) != [] && r == Err(Many(Failing(rule, name, email, password)))
    ensures CreateSays(rule, name, email, password, hashed, now, fault, rows, nextId, rows, nextId, r)
  {
    FailingFields(rule, name, email, password);
    forall n, e ensures !Fit(rule, name, email, password, n, e) {
      FitExactly(rule, name, email, password, n, e);
    }
  }

  lemma FitCreateSays(rule: AddressRule, name: string, email: string, password: string, hashed: Result<string, Error>,
                      now: Time, fault: Fault, before: Rows, nextId: Oid, after: Rows, nextId': Oid, n: string, e: string,
                      r: Result<Found, Error>)
    requires Fit(rule, name, email, password, n, e)
    requires if hashed.Err? then after == before && nextId' == nextId && r == Err(Wrap("hash password", hashed.error))
             else InsertSays(before, nextId, Row(n, e, hashed.value, now, now), fault, after, nextId', r)
    ensures CreateSays(rule, name, email, password, hashed, now, fault, before, nextId, after, nextId', r)
  {
    FitExactly(rule, name, email, password, n, e);
    forall m, f | Fit(rule, name, email, password, m, f) ensures m == n && f == e {
      FitExactly(rule, name, email, password, m, f);
    }
  }

  /** The row an Update makes of a row: the sent fields in normal form, the others as they are, stamped now. */
  ghost predicate Becomes(rule: AddressRule, name: Option<string>, email: Option<string>, now: Time, row: Row, after: Row) {
    && (match name case None => after.name == row.name case Some(n) => NameForm(n, after.name))
    && (match email case None => after.email == row.email case Some(e) => EmailForm(rule, e, after.email))
    && after.passwordHash == row.passwordHash && after.createdAt == row.createdAt && after.updatedAt == now
  }

  /** The write of a row, decided by the emails of the others. */
  predicate WriteSays(before: Rows, x: Oid, row: Row, fault: Fault, after: Rows, r: Result<Row, Error>) {
    if fault.RequestLost? || exists y <- before :: y != x && before[y].email == row.email then
      after == before && if fault.NoFault? then r == Err(Sentinel(Kind.EmailTaken)) else Broke(r)
    else
      after == before[x := row] && if fault.NoFault? then r == Ok(row.(passwordHash := "")) else Broke(r)
  }

  lemma WriteRowSays(before: Rows, x: Oid, p: Patch, fault: Fault, r: Result<Row, Error>)
    requires UniqueEmails(before) && x in before && r == HiddenReply(UpdateRow(before, x, p, fault).reply)
    ensures WriteSays(before, x, Apply(before[x], p), fault, UpdateRow(before, x, p, fault).rows, r)
  {
    OnlyNewEmailsCollide(before, x, p);
  }

  /** Update: refuse, read, check and write. */
  ghost predicate UpdateSays(rule: AddressRule, actor: string, id: string, name: Option<string>, email: Option<string>,
                             now: Time, read: Fault, write: Fault, before: Rows, after: Rows, r: Result<Row, Error>)
  {
    if id == "" then after == before && r == Err(One(Invalid("id", "must not be empty")))
    else if actor == "" || actor != id then after == before && r == Err(Sentinel(Kind.Forbidden))
    else if name.None? && email.None? then
      after == before && r == Err(One(Invalid("body", "at least one field is required (name or email)")))
    else
      match ObjectId.Parse(id)
      case None => after == before && r == Err(One(Invalid("id", "invalid format")))
      case Some(x) => OwnUpdateSays(rule, x, name, email, now, read, write, before, after, r)
  }

  ghost predicate OwnUpdateSays(rule: AddressRule, x: Oid, name: Option<string>, email: Option<string>, now: Time,
                                read: Fault, write: Fault, before: Rows, after: Rows, r: Result<Row, Error>)
  {
    if !read.NoFault? then after == before && Broke(r)
    else if x !in before then after == before && r == Err(Sentinel(Kind.NotFound))
    else
      && ((forall row :: !Becomes(rule, name, email, now, before[x], row)) ==>
            && after == before
            && r.Err? && r.error.Many? && r.error.all != [] && ReportsUnfit(rule, name, email, None, r.error.all))
      && (forall row | Becomes(rule, name, email, now, before[x], row) :: WriteSays(before, x, row, write, after, r))
  }

  lemma UnfitUpdateSays(rule: AddressRule, x: Oid, name: Option<string>, email: Option<string>, now: Time, write: Fault,
                        rows: Rows, all: seq<Invalid>)
    requires x in rows && all != [] && ReportsUnfit(rule, name, email, None, all)
    requires forall row :: !Becomes(rule, name, email, now, rows[x], row)
    ensures OwnUpdateSays(rule, x, name, email, now, NoFault, write, rows, rows, Err(Many(all)))
  {
  }

  lemma FitUpdateSays(rule: AddressRule, x: Oid, name: Option<string>, email: Option<string>, now: Time, write: Fault,
                      before: Rows, row: Row, after: Rows, r: Result<Row, Error>)
    requires x in before && WriteSays(before, x, row, write, after, r)
    requires forall row' :: Becomes(rule, name, email, now, before[x], row') <==> row' == row
    ensures OwnUpdateSays(rule, x, name, email, now, NoFault, write, before, after, r)
  {
    assert Becomes(rule, name, email, now, before[x], row);
  }

  /** Delete: refuse, remove the row, and only once that is confirmed revoke the tokens under the id as it was sent. */
  predicate DeleteSays(actor: string, id: string, now: Time, remove: Fault, revoke: Fault, before: Rows, after: Rows,
                       tokens: T.Db, tokens': T.Db, r: Result<(), Error>)
  {
    if id == "" then after == before && tokens' == tokens && r == Err(One(Invalid("id", "must not be empty")))
    else if actor == "" || actor != id then after == before && tokens' == tokens && r == Err(Sentinel(Kind.Forbidden))
    else
      match ObjectId.Parse(id)
      case None => after == before && tokens' == tokens && r == Err(One(Invalid("id", "invalid format")))
      case Some(x) =>
        if remove.RequestLost? then after == before && tokens' == tokens && Broke(r)
        else if x !in before then
          after == before && tokens' == tokens && if remove.NoFault? then r == Err(Sentinel(Kind.NotFound)) else Broke(r)
        else if remove.ReplyLost? then after == before - {x} && tokens' == tokens && Broke(r)
        else
          && after == before - {x}
          && (if revoke.RequestLost? then tokens' == tokens else Wiped(tokens, tokens', id, now))
          && if revoke.NoFault? then r == Ok(()) else Broke(r)
  }

  /** List: a limit that was sent is in 1..100, one that was not is 20, and the page is of that many rows at most. */
  ghost predicate ListSays(limit: Option<int>, cursor: string, query: string, fault: Fault, rows: Rows, matcher: Matcher,
                           r: Result<UserPage, Error>)
  {
    if limit.Some? && limit.value < 1 then r == Err(One(Invalid("limit", "must be a positive integer")))
    else if limit.Some? && limit.value > 100 then r == Err(One(Invalid("limit", "must not exceed 100")))
    else if cursor != "" && !ObjectId.HexId(cursor) then r == Err(One(Invalid("cursor", "invalid format")))
    else if !fault.NoFault? then Broke(r)
    else
      var n := if limit.None? then 20 else limit.value;
      r.Ok? && r.value.limit == n && PageShows(ByName(rows), true, matcher, query, ToLower(cursor), n, r.value)
  }

  lemma ListedSays(limit: Option<int>, cursor: string, query: string, fault: Fault, rows: Rows, matcher: Matcher, n: int,
                   r: Result<UserPage, Error>)
    requires n == (if limit.None? then 20 else limit.value) && 1 <= n <= 100
    requires if cursor != "" && !ObjectId.HexId(cursor) then r == Err(One(Invalid("cursor", "invalid format")))
             else if !fault.NoFault? then Broke(r)
             else r.Ok? && PageShows(ByName(rows), true, matcher, query, ToLower(cursor), n, r.value)
    ensures ListSays(limit, cursor, query, fault, rows, matcher, if r.Ok? then Ok(r.value.(limit := n)) else r)
  {
    if r.Ok? {
      SamePage(ByName(rows), matcher, query, ToLower(cursor), n, r.value, r.value.(limit := n));
    }
  }

  lemma SamePage(rows: map<string, Row>, matcher: Matcher, query: string, cursor: string, limit: int, page: UserPage,
                 page': UserPage)
    requires PageShows(rows, true, matcher, query, cursor, limit, page)
    requires page'.users == page.users && page'.nextCursor == page.nextCursor
    ensures PageShows(rows, true, matcher, query, cursor, limit, page')
  {
  }
}
