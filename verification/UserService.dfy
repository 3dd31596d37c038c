/**
 The user-management use case over the repositories. Create, Update and Delete are tied to the transition system of
 UserRuns as AuthService ties Login and Refresh to its own: run alone from any state that agrees with the store, the
 code and the system end in the same rows with the same answer. List applies the paging rule.
 */
module UserService {
  import opened Wrappers
  import opened Errors
  import opened UserDomain
  import opened UserStore
  import opened RefreshRepo
  import opened UserRuns
  import opened UserAnswers
  import opened Text
  import opened Listing
  import ObjectId
  import T = TokenStore

  const DEFAULT_LIST_LIMIT := 20
  const MAX_LIST_LIMIT := 100

  datatype ListFilter = ListFilter(limit: Option<int>, cursor: string, query: string) {
    /** The one paging rule. A limit that was sent counts, zero included; one that was not gets the default. */
    function Resolve(): (r: Result<ListQuery, Error>)
      ensures r.Ok? <==> limit.None? || 1 <= limit.value <= MAX_LIST_LIMIT
      ensures r.Ok? ==> 1 <= r.value.limit <= MAX_LIST_LIMIT && r.value.cursor == cursor && r.value.query == query
      ensures r.Ok? ==> r.value.limit == if limit.None? then 20 else limit.value
      ensures r.Err? ==> r.error == One(Invalid("limit",
                if limit.value < 1 then "must be a positive integer" else "must not exceed 100"))
    {
      match limit
      case None => Ok(ListQuery(DEFAULT_LIST_LIMIT, cursor, query))
      case Some(n) =>
        if n < 1 then Err(One(Invalid("limit", "must be a positive integer")))
        else if n > MAX_LIST_LIMIT then Err(One(Invalid("limit", "must not exceed 100")))
        else Ok(ListQuery(n, cursor, query))
    }
  }

  /** What one call, run alone, leaves behind and answers. */
  datatype Outcome = Outcome(rows: Rows, nextId: Oid, reply: Reply)

  function CreateOutcome(rows: Rows, nextId: Oid, entry: Call, fault: Fault): Outcome
    requires entry.Inserting? || entry.Done?
  {
    if entry.Done? then Outcome(rows, nextId, entry.reply)
    else
      var e := InsertRow(rows, nextId, entry.row, fault);
      Outcome(e.rows, if e.applied then nextId + 1 else nextId,
              match e.reply case Ok(oid) => Created(ObjectId.Print(oid)) case Err(x) => Failed(x))
  }

  function WriteOutcome(rows: Rows, next: Call, fault: Fault): Outcome
    requires next.Done? || (next.Writing? && OidOf(next.id).Ok?)
  {
    if next.Done? then Outcome(rows, 0, next.reply)
    else
      var e := UpdateRow(rows, OidOf(next.id).value, next.patch, fault);
      Outcome(e.rows, 0, match e.reply case Ok(row) => Updated(row) case Err(x) => Failed(x))
  }

  function UpdateOutcome(rows: Rows, rules: Rules, entry: Call, now: Time, read: Fault, write: Fault): Outcome
    requires entry.Reading? || entry.Done?
  {
    if entry.Done? then Outcome(rows, 0, entry.reply)
    else WriteOutcome(rows, AfterRead(rows, rules, entry.id, entry.input, read, now), write)
  }

  function DeleteOutcome(rows: Rows, entry: Call, fault: Fault): Outcome
    requires entry.Removing? || entry.Done?
  {
    if entry.Done? then Outcome(rows, 0, entry.reply)
    else
      match OidOf(entry.id)
      case Err(x) => Outcome(rows, 0, Failed(x))
      case Ok(oid) =>
        var e := RemoveRow(rows, oid, fault);
        Outcome(e.rows, 0, match e.reply case Ok(_) => Deleted case Err(x) => Failed(x))
  }

  /** What an Update that got past its entry answers, read by read. */
  lemma UpdateOutcomeIs(rows: Rows, rules: Rules, id: string, input: UpdateInput, now: Time, read: Fault, write: Fault)
    ensures var o := UpdateOutcome(rows, rules, Reading(id, input), now, read, write);
      match FindAnswer(rows, id, read)
      case Err(x) => o.rows == rows && o.reply == Failed(x)
      case Ok(_) =>
        if Rejected(rules, input) != [] then o.rows == rows && o.reply == Failed(Many(Rejected(rules, input)))
        else
          var patch := PatchOf(rules, input, now);
          && o.rows == UpdateRow(rows, OidOf(id).value, patch, write).rows
          && (match UpdateAnswer(rows, id, patch, write)
              case Ok(row) => o.reply.Updated? && Hidden(o.reply.row) == row
              case Err(x) => o.reply == Failed(x))
  {
  }

  /** The three, as runs of the system: one call started and its commands sent with nothing in between. */
  lemma CreateAlone(s: State, rules: Rules, c: CallId, input: CreateInput, hashed: Result<string, Error>, now: Time, fault: Fault)
    requires c !in s.calls
    ensures var entry := CreateEntry(rules, input, hashed, now);
      var e := Step(Step(s, StartCreate(c, input, hashed, now), rules), Advance(c, fault, now), rules);
      var o := CreateOutcome(s.rows, s.nextId, entry, fault);
      e.rows == o.rows && e.nextId == o.nextId && e.calls == s.calls[c := Done(o.reply)]
  {
  }

  // ---- the same, case by case ----

  lemma CreateOutcomeSays(rule: AddressRule, input: CreateInput, hashed: Result<string, Error>, now: Time, fault: Fault,
                          rows: Rows, nextId: Oid, r: Result<Found, Error>)
    requires var entry := CreateEntry(Domain(rule), input, hashed, now);
      match r
      case Ok(u) => CreateOutcome(rows, nextId, entry, fault).reply == Created(u.id) && entry == Inserting(u.row)
      case Err(x) => CreateOutcome(rows, nextId, entry, fault).reply == Failed(x)
    ensures var o := CreateOutcome(rows, nextId, CreateEntry(Domain(rule), input, hashed, now), fault);
      CreateSays(rule, input.name, input.email, input.password, hashed, now, fault, rows, nextId, o.rows, o.nextId, r)
  {
    var entry := CreateEntry(Domain(rule), input, hashed, now);
    var o := CreateOutcome(rows, nextId, entry, fault);
    CreateEntryIs(rule, input, hashed, now);
    if Failing(rule, input.name, input.email, input.password) != [] {
      UnfitCreateSays(rule, input.name, input.email, input.password, hashed, now, fault, rows, nextId, r);
    } else {
      var n, e := NormalizeName(input.name).value, NewEmail(rule, input.email).value;
      FitExactly(rule, input.name, input.email, input.password, n, e);
      if hashed.Ok? {
        InsertRowSays(rows, nextId, Row(n, e, hashed.value, now, now), fault, r);
      }
      FitCreateSays(rule, input.name, input.email, input.password, hashed, now, fault, rows, nextId, o.rows, o.nextId, n, e, r);
    }
  }

  lemma HashedIffFit(rule: AddressRule, input: CreateInput)
    ensures Failing(rule, input.name, input.email, input.password) == [] <==>
            exists n, e :: Fit(rule, input.name, input.email, input.password, n, e)
  {
    if Failing(rule, input.name, input.email, input.password) == [] {
      var n, e := NormalizeName(input.name).value, NewEmail(rule, input.email).value;
      FitExactly(rule, input.name, input.email, input.password, n, e);
    }
    if n, e :| Fit(rule, input.name, input.email, input.password, n, e) {
      FitExactly(rule, input.name, input.email, input.password, n, e);
    }
  }

  lemma NameBecomes(rule: AddressRule, sent: Option<string>, current: string, after: string)
    ensures (match sent case None => after == current case Some(n) => NameForm(n, after)) <==>
            match sent
            case None => after == current
            case Some(n) => Domain(rule).name(n) == Ok(after)
  {
    if sent.Some? {
      DomainIs(rule, sent.value);
      NormalizeNameExactly(sent.value, after);
    }
  }

  lemma EmailBecomes(rule: AddressRule, sent: Option<string>, current: string, after: string)
    ensures (match sent case None => after == current case Some(e) => EmailForm(rule, e, after)) <==>
            match sent
            case None => after == current
            case Some(e) => Domain(rule).email(e) == Ok(after)
  {
    if sent.Some? {
      DomainIs(rule, sent.value);
      NewEmailExactly(rule, sent.value, after);
    }
  }

  /** There is a row to become exactly when nothing is rejected, and then it is the row patched. */
  lemma BecomesPatched(rule: AddressRule, input: UpdateInput, now: Time, row: Row, after: Row)
    ensures Becomes(rule, input.name, input.email, now, row, after) <==>
            Rejected(Domain(rule), input) == [] && after == Apply(row, PatchOf(Domain(rule), input, now))
  {
    NameBecomes(rule, input.name, row.name, after.name);
    EmailBecomes(rule, input.email, row.email, after.email);
    PatchedIs(Domain(rule), input, now, row, after);
  }

  lemma PatchedIs(rules: Rules, input: UpdateInput, now: Time, row: Row, after: Row)
    ensures Rejected(rules, input) == [] && after == Apply(row, PatchOf(rules, input, now)) <==>
      && (match input.name case None => after.name == row.name case Some(n) => rules.name(n) == Ok(after.name))
      && (match input.email case None => after.email == row.email case Some(e) => rules.email(e) == Ok(after.email))
      && after.passwordHash == row.passwordHash && after.createdAt == row.createdAt && after.updatedAt == now
  {
  }

  lemma WrittenSays(rule: AddressRule, id: string, x: Oid, input: UpdateInput, now: Time, write: Fault, rows: Rows,
                    r: Result<Row, Error>)
    requires UniqueEmails(rows) && x in rows && OidOf(id) == Ok(x) && Rejected(Domain(rule), input) == []
    requires r == HiddenReply(UpdateRow(rows, x, PatchOf(Domain(rule), input, now), write).reply)
    ensures OwnUpdateSays(rule, x, input.name, input.email, now, NoFault, write, rows,
                          UpdateRow(rows, x, PatchOf(Domain(rule), input, now), write).rows, r)
  {
    var patch := PatchOf(Domain(rule), input, now);
    forall row ensures Becomes(rule, input.name, input.email, now, rows[x], row) <==> row == Apply(rows[x], patch) {
      BecomesPatched(rule, input, now, rows[x], row);
    }
    WriteRowSays(rows, x, patch, write, r);
    FitUpdateSays(rule, x, input.name, input.email, now, write, rows, Apply(rows[x], patch),
                  UpdateRow(rows, x, patch, write).rows, r);
  }

  lemma OwnUpdateOutcomeSays(rule: AddressRule, id: string, x: Oid, input: UpdateInput, now: Time, read: Fault, write: Fault,
                             rows: Rows, r: Result<Row, Error>)
    requires UniqueEmails(rows) && OidOf(id) == Ok(x)
    requires match UpdateOutcome(rows, Domain(rule), Reading(id, input), now, read, write).reply
             case Updated(row) => r == Ok(Hidden(row))
             case Failed(e) => r == Err(e)
             case _ => false
    ensures var o := UpdateOutcome(rows, Domain(rule), Reading(id, input), now, read, write);
      OwnUpdateSays(rule, x, input.name, input.email, now, read, write, rows, o.rows, r)
  {
    var all := Rejected(Domain(rule), input);
    if read.NoFault? && x in rows {
      forall row
        ensures Becomes(rule, input.name, input.email, now, rows[x], row) <==>
                all == [] && row == Apply(rows[x], PatchOf(Domain(rule), input, now))
      {
        BecomesPatched(rule, input, now, rows[x], row);
      }
      if all != [] {
        RejectedFields(rule, input);
        UnfitUpdateSays(rule, x, input.name, input.email, now, write, rows, all);
      } else {
        WrittenSays(rule, id, x, input, now, write, rows, r);
      }
    }
  }

  lemma UpdateOutcomeSays(rule: AddressRule, actor: string, id: string, input: UpdateInput, now: Time, read: Fault, write: Fault,
                          rows: Rows, r: Result<Row, Error>)
    requires UniqueEmails(rows)
    requires match UpdateOutcome(rows, Domain(rule), UpdateEntry(actor, id, input), now, read, write).reply
             case Updated(row) => r == Ok(Hidden(row))
             case Failed(e) => r == Err(e)
             case _ => false
    ensures var o := UpdateOutcome(rows, Domain(rule), UpdateEntry(actor, id, input), now, read, write);
      UpdateSays(rule, actor, id, input.name, input.email, now, read, write, rows, o.rows, r)
  {
    if id != "" && actor == id && !input.Empty() {
      match OidOf(id)
      case Ok(x) => OwnUpdateOutcomeSays(rule, id, x, input, now, read, write, rows, r);
      case Err(_) =>
    }
  }

  lemma DeleteOutcomeSays(actor: string, id: string, now: Time, remove: Fault, revoke: Fault, rows: Rows, tokens: T.Db,
                          tokens': T.Db, r: Result<(), Error>)
    requires var o, w := DeleteOutcome(rows, DeleteEntry(actor, id), remove), T.Wipe(tokens, id, now, revoke);
      match o.reply
      case Deleted => tokens' == w.db && (if w.ok then r == Ok(()) else Broke(r))
      case Failed(x) => tokens' == tokens && r == Err(x)
      case _ => false
    ensures var o := DeleteOutcome(rows, DeleteEntry(actor, id), remove);
      DeleteSays(actor, id, now, remove, revoke, rows, o.rows, tokens, tokens', r)
  {
    if OidOf(id).Ok? && OidOf(id).value !in rows {
      assert rows - {OidOf(id).value} == rows;
    }
  }

  lemma Write(s: State, rules: Rules, c: CallId, now: Time, fault: Fault)
    requires c in s.calls && s.calls[c].Writing? && OidOf(s.calls[c].id).Ok?
    ensures Command(s, rules, c, fault, now) ==
            Written(s, c, UpdateRow(s.rows, OidOf(s.calls[c].id).value, s.calls[c].patch, fault))
  {
  }

  /** The second command of an Update. */
  lemma WriteNext(s: State, rules: Rules, c: CallId, now: Time, fault: Fault)
    requires c in s.calls && (s.calls[c].Done? || (s.calls[c].Writing? && OidOf(s.calls[c].id).Ok?))
    ensures var o, next := WriteOutcome(s.rows, s.calls[c], fault), Command(s, rules, c, fault, now);
      next.rows == o.rows && next.calls == s.calls[c := Done(o.reply)]
  {
    if s.calls[c].Writing? {
      Write(s, rules, c, now, fault);
    }
  }

  /** Both commands; a call that has answered sends nothing more. */
  lemma ReadThenWrite(s: State, rules: Rules, c: CallId, now: Time, read: Fault, write: Fault)
    requires c in s.calls && (s.calls[c].Reading? || s.calls[c].Done?)
    ensures var s' := Command(s, rules, c, read, now);
      var o := UpdateOutcome(s.rows, rules, s.calls[c], now, read, write);
      c in s'.calls && Command(s', rules, c, write, now).rows == o.rows &&
      Command(s', rules, c, write, now).calls == s.calls[c := Done(o.reply)]
  {
    var s' := Command(s, rules, c, read, now);
    if s.calls[c].Reading? {
      assert s' == Goto(s, c, AfterRead(s.rows, rules, s.calls[c].id, s.calls[c].input, read, now));
      WriteNext(s', rules, c, now, write);
    }
  }

  lemma Remove(s: State, rules: Rules, c: CallId, now: Time, fault: Fault)
    requires c in s.calls && (s.calls[c].Removing? || s.calls[c].Done?)
    ensures var o := DeleteOutcome(s.rows, s.calls[c], fault);
      Command(s, rules, c, fault, now).rows == o.rows &&
      Command(s, rules, c, fault, now).calls == s.calls[c := Done(o.reply)]
  {
    match s.calls[c]
    case Done(_) =>
    case Removing(id) =>
      match OidOf(id)
      case Ok(oid) => assert Command(s, rules, c, fault, now) == Removed(s, c, oid, RemoveRow(s.rows, oid, fault));
      case Err(x) => assert Command(s, rules, c, fault, now) == Goto(s, c, Done(Failed(x)));
  }

  lemma UpdateAlone(s: State, rules: Rules, c: CallId, actor: string, id: string, input: UpdateInput,
                    now: Time, read: Fault, write: Fault)
    requires c !in s.calls
    ensures var entry := UpdateEntry(actor, id, input);
      var s' := Step(Step(s, StartUpdate(c, actor, id, input), rules), Advance(c, read, now), rules);
      var e := Step(s', Advance(c, write, now), rules);
      var o := UpdateOutcome(s.rows, rules, entry, now, read, write);
      e.rows == o.rows && e.calls == s.calls[c := Done(o.reply)]
  {
    var begun := Enter(s, c, UpdateEntry(actor, id, input), actor);
    assert Step(s, StartUpdate(c, actor, id, input), rules) == begun;
    ReadThenWrite(begun, rules, c, now, read, write);
  }

  lemma DeleteAlone(s: State, rules: Rules, c: CallId, actor: string, id: string, now: Time, fault: Fault)
    requires c !in s.calls
    ensures var entry := DeleteEntry(actor, id);
      var e := Step(Step(s, StartDelete(c, actor, id), rules), Advance(c, fault, now), rules);
      var o := DeleteOutcome(s.rows, entry, fault);
      e.rows == o.rows && e.calls == s.calls[c := Done(o.reply)]
  {
    var begun := Enter(s, c, DeleteEntry(actor, id), actor);
    assert Step(s, StartDelete(c, actor, id), rules) == begun;
    Remove(begun, rules, c, now, fault);
  }

  lemma CreateEntryIs(rule: AddressRule, input: CreateInput, hashed: Result<string, Error>, now: Time)
    ensures var bad := Failing(rule, input.name, input.email, input.password);
      CreateEntry(Domain(rule), input, hashed, now) ==
        if bad != [] then Done(Failed(Many(bad)))
        else if hashed.Err? then Done(Failed(Wrap("hash password", hashed.error)))
        else Inserting(Row(NormalizeName(input.name).value, NewEmail(rule, input.email).value, hashed.value, now, now))
  {
    BadIsFailing(rule, input);
  }

  class UserService {
    const users: UserRepo
    const refresh: RefreshTokenRepo
    const hasher: Hasher
    const rule: AddressRule

    constructor (users: UserRepo, refresh: RefreshTokenRepo, hasher: Hasher, rule: AddressRule)
      ensures this.users == users && this.refresh == refresh && this.hasher == hasher && this.rule == rule
    {
      this.users, this.refresh, this.hasher, this.rule := users, refresh, hasher, rule;
    }

    /** The domain constructor, as the entry point of a Create. */
    method Construct(input: CreateInput, now: Time) returns (r: Result<User, Error>, ghost entry: Call)
      modifies hasher
      ensures entry == CreateEntry(Domain(rule), input, hasher.outcome(input.password), now)
      ensures match r
              case Ok(u) => fresh(u) && entry == Inserting(u.AsRow())
              case Err(x) => entry == Done(Failed(x))
      ensures hasher.calls == old(hasher.calls) +
        if Failing(rule, input.name, input.email, input.password) == [] then [input.password] else []
    {
      entry := CreateEntry(Domain(rule), input, hasher.outcome(input.password), now);
      CreateEntryIs(rule, input, hasher.outcome(input.password), now);
      r := New(rule, input.name, input.email, input.password, hasher, now);
    }

    /** Nothing is hashed or stored unless every field is valid, and the new user carries its id and its row. */
    method Create(input: CreateInput, now: Time, fault: Fault) returns (r: Result<User, Error>)
      requires users.Valid() && users.nextId < ObjectId.Limit()
      modifies users, hasher
      ensures users.Valid()
      ensures var entry := CreateEntry(Domain(rule), input, hasher.outcome(input.password), now);
        var o := CreateOutcome(old(users.rows), old(users.nextId), entry, fault);
        && users.rows == o.rows && users.nextId == o.nextId
        && (match r
            case Ok(u) => fresh(u) && o.reply == Created(u.id) && entry == Inserting(u.AsRow())
            case Err(x) => o.reply == Failed(x))
      ensures hasher.calls == old(hasher.calls) +
        if Failing(rule, input.name, input.email, input.password) == [] then [input.password] else []
      ensures CreateSays(rule, input.name, input.email, input.password, hasher.outcome(input.password), now, fault,
                         old(users.rows), old(users.nextId), users.rows, users.nextId, Shown(r))
      ensures hasher.calls != old(hasher.calls) <==> exists n, e :: Fit(rule, input.name, input.email, input.password, n, e)
    {
      var u;
      ghost var entry;
      u, entry := Construct(input, now);
      if u.Err? {
        r := Err(u.error);
      } else {
        var err := Save(u.value, fault);
        r := if err.Some? then Err(err.value) else Ok(u.value);
      }
      CreateOutcomeSays(rule, input, hasher.outcome(input.password), now, fault, old(users.rows), old(users.nextId), Shown(r));
      HashedIffFit(rule, input);
    }

    /** The user that is handed back, as a value. */
    ghost function Shown(r: Result<User, Error>): Result<Found, Error>
      reads if r.Ok? then {r.value} else {}
    {
      match r
      case Ok(u) => Ok(Found(u.id, u.AsRow()))
      case Err(x) => Err(x)
    }

    method Save(u: User, fault: Fault) returns (err: Option<Error>)
      requires users.Valid() && users.nextId < ObjectId.Limit()
      modifies users, u`id
      ensures users.Valid() && u.AsRow() == old(u.AsRow())
      ensures var o := CreateOutcome(old(users.rows), old(users.nextId), Inserting(u.AsRow()), fault);
        && users.rows == o.rows && users.nextId == o.nextId
        && (if err.None? then o.reply == Created(u.id) else o.reply == Failed(err.value))
    {
      err := users.Create(u, fault);
    }

    /** The page is the repository's, with the limit that was applied. */
    method List(f: ListFilter, fault: Fault) returns (r: Result<UserPage, Error>)
      requires users.Valid()
      ensures match f.Resolve()
              case Err(x) => r == Err(x)
              case Ok(q) =>
                match CursorOf(q.cursor)
                case Err(x) => r == Err(x)
                case Ok(cursor) =>
                  if !fault.NoFault? then r == Err(Lost("list users"))
                  else r == Ok(Redact(PageFor(users.rows, users.matcher, q, cursor)).(limit := q.limit))
      ensures ListSays(f.limit, f.cursor, f.query, fault, users.rows, users.matcher, r)
    {
      var q := f.Resolve();
      if q.Err? {
        return Err(q.error);
      }
      var page := users.List(q.value, fault);
      ListedSays(f.limit, f.cursor, f.query, fault, users.rows, users.matcher, q.value.limit, page);
      if page.Err? {
        return Err(page.error);
      }
      r := Ok(page.value.(limit := q.value.limit));
    }

    /** Run the sent fields through the user read; collect what is refused and patch what is not. */
    method Check(current: User, input: UpdateInput, now: Time) returns (invalid: seq<Invalid>, patch: Patch)
      modifies current
      ensures invalid == Rejected(Domain(rule), input) && patch == PatchOf(Domain(rule), input, now)
    {
      patch := Patch(None, None, now);
      invalid := [];
      if input.name.Some? {
        var renamed := current.Rename(input.name.value, now);
        if renamed.Err? {
          invalid := invalid + [renamed.error];
        } else {
          patch := patch.(name := Some(current.name));
        }
      }
      if input.email.Some? {
        var changed := current.ChangeEmail(rule, input.email.value, now);
        if changed.Err? {
          invalid := invalid + [changed.error];
        } else {
          patch := patch.(email := Some(current.email));
        }
      }
    }

    /** Refuse, read, check, write. The row handed back is the row after the write, without its hash. */
    method Update(actor: string, id: string, input: UpdateInput, now: Time, read: Fault, write: Fault)
      returns (r: Result<Row, Error>)
      requires users.Valid()
      modifies users`rows
      ensures users.Valid()
      ensures var o := UpdateOutcome(old(users.rows), Domain(rule), UpdateEntry(actor, id, input), now, read, write);
        users.rows == o.rows &&
        match o.reply
        case Updated(row) => r == Ok(Hidden(row))
        case Failed(x) => r == Err(x)
        case _ => false
      ensures UpdateSays(rule, actor, id, input.name, input.email, now, read, write, old(users.rows), users.rows, r)
    {
      if id == "" {
        r := Err(NO_ID);
      } else if actor == "" || actor != id {
        r := Err(FORBIDDEN);
      } else if input.Empty() {
        r := Err(NO_FIELD);
      } else {
        r := Change(id, input, now, read, write);
      }
      UpdateOutcomeSays(rule, actor, id, input, now, read, write, old(users.rows), r);
    }

    /** Read first, so that the changes go through the user's own methods; then write what they made of the sent fields. */
    method Change(id: string, input: UpdateInput, now: Time, read: Fault, write: Fault) returns (r: Result<Row, Error>)
      requires users.Valid()
      modifies users`rows
      ensures users.Valid()
      ensures var o := UpdateOutcome(old(users.rows), Domain(rule), Reading(id, input), now, read, write);
        users.rows == o.rows &&
        match o.reply
        case Updated(row) => r == Ok(Hidden(row))
        case Failed(x) => r == Err(x)
        case _ => false
    {
      UpdateOutcomeIs(users.rows, Domain(rule), id, input, now, read, write);
      var current := users.FindByID(id, read);
      if current.Err? {
        return Err(current.error);
      }
      var invalid, patch := Check(current.value, input, now);
      if |invalid| > 0 {
        return Err(Many(invalid));
      }
      r := users.Update(id, patch, write);
    }

    /** The row goes first; only if it went are the user's tokens revoked. */
    method Delete(actor: string, id: string, now: Time, remove: Fault, revoke: Fault) returns (err: Option<Error>)
      requires users.Valid() && T.Valid(refresh.db)
      modifies users`rows, refresh
      ensures users.Valid() && T.Valid(refresh.db)
      ensures var o := DeleteOutcome(old(users.rows), DeleteEntry(actor, id), remove);
        var w := T.Wipe(old(refresh.db), id, now, revoke);
        users.rows == o.rows &&
        match o.reply
        case Deleted => refresh.db == w.db && (err == None <==> w.ok)
        case Failed(x) => refresh.db == old(refresh.db) && err == Some(x)
        case _ => false
      ensures DeleteSays(actor, id, now, remove, revoke, old(users.rows), users.rows, old(refresh.db), refresh.db,
                         if err.None? then Ok(()) else Err(err.value))
    {
      if id == "" {
        err := Some(NO_ID);
      } else if actor == "" || actor != id {
        err := Some(FORBIDDEN);
      } else {
        err := users.Delete(id, remove);
        if err.None? {
          err := refresh.RevokeAllForUser(id, now, revoke);
        }
      }
      DeleteOutcomeSays(actor, id, now, remove, revoke, old(users.rows), old(refresh.db), refresh.db,
                        if err.None? then Ok(()) else Err(err.value));
    }
  }
}
