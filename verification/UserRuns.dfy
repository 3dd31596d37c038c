/**
 Create, Update and Delete as calls in flight over one users collection. Each step is one command of one call, so
 between an Update's read and its write any other call may run, and a command may meet a fault.
 */
module UserRuns {
  import opened Wrappers
  import opened Errors
  import opened UserDomain
  import opened Listing
  import opened UserStore
  import opened Finite
  import ObjectId

  type CallId = nat

  /** The domain's checks as a run sees them: each field has a normal form or a failure. */
  datatype Checks = Checks(
    name: string -> Result<string, Invalid>,
    email: string -> Result<string, Invalid>,
    password: string -> Option<Invalid>)

  ghost predicate Projections(k: Checks) {
    && (forall s :: k.name(s).Ok? ==> k.name(k.name(s).value) == k.name(s))
    && (forall s :: k.email(s).Ok? ==> k.email(k.email(s).value) == k.email(s))
  }

  /** All that a run relies on is that a normal form is its own normal form. */
  type Rules = k: Checks | Projections(k) witness Checks(s => Ok(s), s => Ok(s), _ => None)

  function DomainChecks(rule: AddressRule): Checks {
    Checks(NormalizeName, (s: string) => NewEmail(rule, s), ValidatePassword)
  }

  lemma DomainIs(rule: AddressRule, s: string)
    ensures DomainChecks(rule).name(s) == NormalizeName(s)
    ensures DomainChecks(rule).email(s) == NewEmail(rule, s)
    ensures DomainChecks(rule).password(s) == ValidatePassword(s)
  {
  }

  lemma DomainProjects(rule: AddressRule)
    ensures Projections(DomainChecks(rule))
  {
    var k := DomainChecks(rule);
    forall s ensures k.name(s).Ok? ==> k.name(k.name(s).value) == k.name(s) {
      DomainIs(rule, s);
      NormalizeNameStable(s);
    }
    forall s ensures k.email(s).Ok? ==> k.email(k.email(s).value) == k.email(s) {
      DomainIs(rule, s);
      NewEmailStable(rule, s);
    }
  }

  /** The checks of the domain are such rules. */
  function Domain(rule: AddressRule): Rules {
    DomainProjects(rule);
    DomainChecks(rule)
  }

  /** Every field a Create would reject, in checking order. */
  function Bad(k: Rules, input: CreateInput): (all: seq<Invalid>)
    ensures all == [] <==> k.name(input.name).Ok? && k.email(input.email).Ok? && k.password(input.password).None?
  {
    Collect(Collect(Collect([], Failure(k.name(input.name))), Failure(k.email(input.email))), k.password(input.password))
  }

  lemma BadIsFailing(rule: AddressRule, input: CreateInput)
    ensures Bad(Domain(rule), input) == Failing(rule, input.name, input.email, input.password)
  {
  }

  datatype CreateInput = CreateInput(name: string, email: string, password: string)

  datatype UpdateInput = UpdateInput(name: Option<string>, email: Option<string>) {
    predicate Empty() {
      name.None? && email.None?
    }
  }

  datatype Reply = Created(id: string) | Updated(row: Row) | Deleted | Failed(error: Error)

  /** The command a call sends next; a Done call has answered. */
  datatype Call =
    | Inserting(row: Row)
    | Reading(id: string, input: UpdateInput)
    | Writing(id: string, input: UpdateInput, patch: Patch)
    | Removing(id: string)
    | Done(reply: Reply)

  datatype Action =
    | StartCreate(call: CallId, input: CreateInput, hashed: Result<string, Error>, now: Time)
    | StartUpdate(call: CallId, actor: string, id: string, changes: UpdateInput)
    | StartDelete(call: CallId, actor: string, id: string)
    | Advance(call: CallId, fault: Fault, now: Time)

  /** The last three fields are history: who made each call, and the row each call added or removed. */
  datatype State = State(
    rows: Rows,
    nextId: Oid,
    calls: map<CallId, Call>,
    actors: map<CallId, string>,
    inserted: map<CallId, Oid>,
    deleted: map<CallId, Oid>)

  const INIT := State(map[], 0, map[], map[], map[], map[])

  const FORBIDDEN := Sentinel(Kind.Forbidden)
  const NO_ID := One(Invalid("id", "must not be empty"))
  const NO_FIELD := One(Invalid("body", "at least one field is required (name or email)"))

  function CreateEntry(rules: Rules, input: CreateInput, hashed: Result<string, Error>, now: Time): Call {
    var bad := Bad(rules, input);
    if bad != [] then Done(Failed(Many(bad)))
    else
      match hashed
      case Err(e) => Done(Failed(Wrap("hash password", e)))
      case Ok(h) => Inserting(Row(rules.name(input.name).value, rules.email(input.email).value, h, now, now))
  }

  /** requireID, then requireSelf. */
  function Refusal(actor: string, id: string): Option<Error> {
    if id == "" then Some(NO_ID) else if actor == "" || actor != id then Some(FORBIDDEN) else None
  }

  function UpdateEntry(actor: string, id: string, input: UpdateInput): Call {
    match Refusal(actor, id)
    case Some(e) => Done(Failed(e))
    case None => if input.Empty() then Done(Failed(NO_FIELD)) else Reading(id, input)
  }

  function DeleteEntry(actor: string, id: string): Call {
    match Refusal(actor, id)
    case Some(e) => Done(Failed(e))
    case None => Removing(id)
  }

  /** The sent fields that are not valid, in checking order. */
  function Rejected(rules: Rules, input: UpdateInput): seq<Invalid> {
    Collect(Collect([], if input.name.None? then None else Failure(rules.name(input.name.value))),
            if input.email.None? then None else Failure(rules.email(input.email.value)))
  }

  /** With the domain's checks: a sent field is reported if and only if it is invalid, once, the name before the email. */
  lemma RejectedFields(rule: AddressRule, input: UpdateInput)
    ensures var all := Rejected(Domain(rule), input);
      && (forall v <- all :: v.field in {"name", "email"})
      && (Reports(all, "name") <==> input.name.Some? && NormalizeName(input.name.value).Err?)
      && (Reports(all, "email") <==> input.email.Some? && NewEmail(rule, input.email.value).Err?)
      && (forall i, j | 0 <= i < j < |all| :: Rank(all[i].field) < Rank(all[j].field))
    ensures ReportsUnfit(rule, input.name, input.email, None, Rejected(Domain(rule), input))
  {
    if input.name.Some? { NameUnfit(input.name.value); }
    if input.email.Some? { EmailUnfit(rule, input.email.value); }
    var n := if input.name.None? then None else Failure(NormalizeName(input.name.value));
    var e := if input.email.None? then None else Failure(NewEmail(rule, input.email.value));
    if input.name.Some? { NormalizeNameStable(input.name.value); }
    if input.email.Some? { NewEmailStable(rule, input.email.value); }
    CollectThree(n, e, None);
    OfThree(Collect(Collect([], n), e), n, e);
  }

  lemma OfThree(all: seq<Invalid>, n: Option<Invalid>, e: Option<Invalid>)
    requires all == Collect(Collect([], n), e)
    requires (n.Some? ==> n.value.field == "name") && (e.Some? ==> e.value.field == "email")
    ensures forall v <- all :: v.field in {"name", "email"}
  {
  }

  /** The patch of the sent fields in normal form. */
  function PatchOf(rules: Rules, input: UpdateInput, now: Time): Patch {
    Patch(
      if input.name.Some? && rules.name(input.name.value).Ok? then Some(rules.name(input.name.value).value) else None,
      if input.email.Some? && rules.email(input.email.value).Ok? then Some(rules.email(input.email.value).value) else None,
      now)
  }

  function AfterRead(rows: Rows, rules: Rules, id: string, input: UpdateInput, fault: Fault, now: Time): Call {
    match OidOf(id)
    case Err(e) => Done(Failed(e))
    case Ok(oid) =>
      if !fault.NoFault? then Done(Failed(Lost("find user by id")))
      else if oid !in rows then Done(Failed(NOT_FOUND))
      else if Rejected(rules, input) != [] then Done(Failed(Many(Rejected(rules, input))))
      else Writing(id, input, PatchOf(rules, input, now))
  }

  function Goto(s: State, c: CallId, next: Call): State {
    s.(calls := s.calls[c := next])
  }

  function Enter(s: State, c: CallId, next: Call, actor: string): State {
    Goto(s, c, next).(actors := s.actors[c := actor])
  }

  function Inserted(s: State, c: CallId, e: Effect<Oid>): State {
    Goto(if e.applied then s.(rows := e.rows, nextId := s.nextId + 1, inserted := s.inserted[c := s.nextId]) else s, c,
         Done(match e.reply case Ok(oid) => Created(ObjectId.Print(oid)) case Err(x) => Failed(x)))
  }

  function Written(s: State, c: CallId, e: Effect<Row>): State {
    Goto(s.(rows := e.rows), c, Done(match e.reply case Ok(row) => Updated(row) case Err(x) => Failed(x)))
  }

  function Removed(s: State, c: CallId, oid: Oid, e: Effect<()>): State {
    Goto(if e.applied then s.(rows := e.rows, deleted := s.deleted[c := oid]) else s, c,
         Done(match e.reply case Ok(_) => Deleted case Err(x) => Failed(x)))
  }

  function Command(s: State, rules: Rules, c: CallId, fault: Fault, now: Time): State
    requires c in s.calls
  {
    match s.calls[c]
    case Inserting(row) => Inserted(s, c, InsertRow(s.rows, s.nextId, row, fault))
    case Reading(id, input) => Goto(s, c, AfterRead(s.rows, rules, id, input, fault, now))
    case Writing(id, _, patch) =>
      (match OidOf(id)
       case Err(e) => Goto(s, c, Done(Failed(e)))
       case Ok(oid) => Written(s, c, UpdateRow(s.rows, oid, patch, fault)))
    case Removing(id) =>
      (match OidOf(id)
       case Err(e) => Goto(s, c, Done(Failed(e)))
       case Ok(oid) => Removed(s, c, oid, RemoveRow(s.rows, oid, fault)))
    case Done(_) => s
  }

  function Step(s: State, a: Action, rules: Rules): State {
    match a
    case StartCreate(c, input, hashed, now) => if c in s.calls then s else Goto(s, c, CreateEntry(rules, input, hashed, now))
    case StartUpdate(c, actor, id, input) =>
      if c in s.calls then s else Enter(s, c, UpdateEntry(actor, id, input), actor)
    case StartDelete(c, actor, id) =>
      if c in s.calls then s else Enter(s, c, DeleteEntry(actor, id), actor)
    case Advance(c, fault, now) => if c in s.calls then Command(s, rules, c, fault, now) else s
  }

  function Exec(s: State, acts: seq<Action>, rules: Rules): State
    decreases |acts|
  {
    if acts == [] then s else Exec(Step(s, acts[0], rules), acts[1..], rules)
  }

  // ---- the invariant ----

  predicate NormalRow(rules: Rules, row: Row) {
    rules.email(row.email) == Ok(row.email) && rules.name(row.name) == Ok(row.name)
  }

  predicate RowsOk(s: State, rules: Rules) {
    && UniqueEmails(s.rows)
    && forall x <- s.rows :: x < s.nextId && NormalRow(rules, s.rows[x])
  }

  /** Each row was inserted by one call, and is there until one call deletes it. */
  ghost predicate LedgerOk(s: State) {
    && Injective(s.inserted) && Injective(s.deleted)
    && (forall c <- s.inserted :: s.inserted[c] < s.nextId)
    && s.deleted.Values <= s.inserted.Values
    && s.rows.Keys == s.inserted.Values - s.deleted.Values
  }

  predicate DoneOk(s: State, c: CallId, reply: Reply) {
    && (c in s.inserted ==> reply == Created(ObjectId.Print(s.inserted[c])) || reply == Failed(Lost("insert user")))
    && (c in s.deleted ==> reply == Deleted || reply == Failed(Lost("delete user")))
    && (reply.Created? ==> c in s.inserted)
    && (reply.Deleted? ==> c in s.deleted)
  }

  predicate CallOk(s: State, rules: Rules, c: CallId)
    requires c in s.calls
  {
    match s.calls[c]
    case Inserting(row) => c !in s.inserted && c !in s.deleted && NormalRow(rules, row)
    case Reading(id, _) => c !in s.inserted && c !in s.deleted && c in s.actors && s.actors[c] == id
    case Writing(id, input, patch) =>
      && c !in s.inserted && c !in s.deleted && c in s.actors && s.actors[c] == id
      && Rejected(rules, input) == [] && patch == PatchOf(rules, input, patch.updatedAt)
    case Removing(id) => c !in s.inserted && c !in s.deleted && c in s.actors && s.actors[c] == id
    case Done(reply) => DoneOk(s, c, reply)
  }

  ghost predicate Inv(s: State, rules: Rules) {
    && RowsOk(s, rules)
    && LedgerOk(s)
    && (forall c {:trigger CallOk(s, rules, c)} | c in s.calls :: CallOk(s, rules, c))
    && s.inserted.Keys + s.deleted.Keys + s.actors.Keys <= s.calls.Keys
  }

  lemma PatchIsNormal(rules: Rules, input: UpdateInput, now: Time, row: Row)
    requires NormalRow(rules, row)
    ensures NormalRow(rules, Apply(row, PatchOf(rules, input, now)))
  {
  }

  lemma OthersStand(s: State, s': State, rules: Rules, c: CallId)
    requires forall k {:trigger CallOk(s, rules, k)} | k in s.calls :: CallOk(s, rules, k)
    requires forall k <- s'.calls :: k != c ==> k in s.calls && s'.calls[k] == s.calls[k]
    requires forall k <- s'.calls :: k != c ==> (k in s.inserted <==> k in s'.inserted) && (k in s.deleted <==> k in s'.deleted)
    requires forall k <- s.inserted :: k != c ==> k in s'.inserted && s'.inserted[k] == s.inserted[k]
    requires forall k <- s.actors :: k != c ==> k in s'.actors && s'.actors[k] == s.actors[k]
    requires c in s'.calls ==> CallOk(s', rules, c)
    ensures forall k {:trigger CallOk(s', rules, k)} | k in s'.calls :: CallOk(s', rules, k)
  {
    forall k | k in s'.calls ensures CallOk(s', rules, k) {
      assert k != c ==> CallOk(s, rules, k);
    }
  }

  /** The ledger after an insert: the new row is new to both sides. */
  lemma LedgerInsert(s: State, c: CallId, row: Row)
    requires LedgerOk(s) && c !in s.inserted
    ensures LedgerOk(s.(rows := s.rows[s.nextId := row], nextId := s.nextId + 1, inserted := s.inserted[c := s.nextId]))
  {
    var inserted' := s.inserted[c := s.nextId];
    assert s.nextId !in s.inserted.Values;
    assert inserted'.Values == s.inserted.Values + {s.nextId} by {
      assert inserted'[c] == s.nextId;
      forall x | x in s.inserted.Values ensures x in inserted'.Values {
        var k :| k in s.inserted && s.inserted[k] == x;
        assert inserted'[k] == x;
      }
    }
  }

  lemma LedgerDelete(s: State, c: CallId, oid: Oid)
    requires LedgerOk(s) && c !in s.deleted && oid in s.rows
    ensures LedgerOk(s.(rows := s.rows - {oid}, deleted := s.deleted[c := oid]))
  {
    var deleted' := s.deleted[c := oid];
    assert oid !in s.deleted.Values;
    assert deleted'.Values == s.deleted.Values + {oid} by {
      assert deleted'[c] == oid;
      forall x | x in s.deleted.Values ensures x in deleted'.Values {
        var k :| k in s.deleted && s.deleted[k] == x;
        assert deleted'[k] == x;
      }
    }
  }

  lemma CreateEntryOk(rules: Rules, input: CreateInput, hashed: Result<string, Error>, now: Time)
    ensures var k := CreateEntry(rules, input, hashed, now);
      if k.Inserting? then NormalRow(rules, k.row) else k.Done? && k.reply.Failed?
  {
  }

  lemma RowsInsert(s: State, rules: Rules, row: Row, fault: Fault)
    requires RowsOk(s, rules) && NormalRow(rules, row)
    ensures var e := InsertRow(s.rows, s.nextId, row, fault);
      RowsOk(s.(rows := e.rows, nextId := if e.applied then s.nextId + 1 else s.nextId), rules)
  {
    IndexHolds(s.rows, s.nextId, row, Patch(None, None, 0), fault);
  }

  lemma RowsWrite(s: State, rules: Rules, oid: Oid, input: UpdateInput, patch: Patch, fault: Fault)
    requires RowsOk(s, rules) && patch == PatchOf(rules, input, patch.updatedAt)
    ensures RowsOk(s.(rows := UpdateRow(s.rows, oid, patch, fault).rows), rules)
  {
    IndexHolds(s.rows, oid, Row("", "", "", 0, 0), patch, fault);
    if oid in s.rows {
      PatchIsNormal(rules, input, patch.updatedAt, s.rows[oid]);
    }
  }

  lemma InvInsert(s: State, rules: Rules, c: CallId, fault: Fault)
    requires Inv(s, rules) && c in s.calls && s.calls[c].Inserting?
    ensures Inv(Inserted(s, c, InsertRow(s.rows, s.nextId, s.calls[c].row, fault)), rules)
  {
    assert CallOk(s, rules, c);
    var row := s.calls[c].row;
    var e := InsertRow(s.rows, s.nextId, row, fault);
    RowsInsert(s, rules, row, fault);
    if e.applied {
      LedgerInsert(s, c, row);
      OthersStand(s, Inserted(s, c, e), rules, c);
    } else {
      InvGoto(s, rules, c, Inserted(s, c, e).calls[c]);
    }
  }

  lemma InvWrite(s: State, rules: Rules, c: CallId, oid: Oid, fault: Fault)
    requires Inv(s, rules) && c in s.calls && s.calls[c].Writing?
    ensures Inv(Written(s, c, UpdateRow(s.rows, oid, s.calls[c].patch, fault)), rules)
  {
    assert CallOk(s, rules, c);
    var Writing(_, input, patch) := s.calls[c];
    var s' := Written(s, c, UpdateRow(s.rows, oid, patch, fault));
    RowsWrite(s, rules, oid, input, patch, fault);
    assert s'.rows.Keys == s.rows.Keys;
    OthersStand(s, s', rules, c);
  }

  lemma InvRemove(s: State, rules: Rules, c: CallId, oid: Oid, fault: Fault)
    requires Inv(s, rules) && c in s.calls && s.calls[c].Removing?
    ensures Inv(Removed(s, c, oid, RemoveRow(s.rows, oid, fault)), rules)
  {
    assert CallOk(s, rules, c);
    var e := RemoveRow(s.rows, oid, fault);
    if e.applied {
      LedgerDelete(s, c, oid);
      OthersStand(s, Removed(s, c, oid, e), rules, c);
    } else {
      InvGoto(s, rules, c, Removed(s, c, oid, e).calls[c]);
    }
  }

  lemma InvGoto(s: State, rules: Rules, c: CallId, next: Call)
    requires Inv(s, rules) && CallOk(Goto(s, c, next), rules, c)
    ensures Inv(Goto(s, c, next), rules)
  {
    OthersStand(s, Goto(s, c, next), rules, c);
  }

  lemma InvRead(s: State, rules: Rules, c: CallId, fault: Fault, now: Time)
    requires Inv(s, rules) && c in s.calls && s.calls[c].Reading?
    ensures Inv(Goto(s, c, AfterRead(s.rows, rules, s.calls[c].id, s.calls[c].input, fault, now)), rules)
  {
    assert CallOk(s, rules, c);
    InvGoto(s, rules, c, AfterRead(s.rows, rules, s.calls[c].id, s.calls[c].input, fault, now));
  }

  lemma InvCommand(s: State, rules: Rules, c: CallId, fault: Fault, now: Time)
    requires Inv(s, rules) && c in s.calls
    ensures Inv(Command(s, rules, c, fault, now), rules)
  {
    assert CallOk(s, rules, c);
    match s.calls[c]
    case Inserting(_) => InvInsert(s, rules, c, fault);
    case Reading(id, input) => InvRead(s, rules, c, fault, now);
    case Writing(id, _, _) =>
      if OidOf(id).Ok? { InvWrite(s, rules, c, OidOf(id).value, fault); }
      else { InvGoto(s, rules, c, Done(Failed(OidOf(id).error))); }
    case Removing(id) =>
      if OidOf(id).Ok? { InvRemove(s, rules, c, OidOf(id).value, fault); }
      else { InvGoto(s, rules, c, Done(Failed(OidOf(id).error))); }
    case Done(_) =>
  }

  lemma InvCreate(s: State, rules: Rules, c: CallId, input: CreateInput, hashed: Result<string, Error>, now: Time)
    requires Inv(s, rules) && c !in s.calls
    ensures Inv(Goto(s, c, CreateEntry(rules, input, hashed, now)), rules)
  {
    var next := CreateEntry(rules, input, hashed, now);
    CreateEntryOk(rules, input, hashed, now);
    InvGoto(s, rules, c, next);
  }

  /** A new Update or Delete is refused, or about to act on the caller's own id. */
  predicate Own(k: Call, actor: string) {
    match k
    case Reading(id, _) => id == actor
    case Removing(id) => id == actor
    case Done(reply) => reply.Failed?
    case _ => false
  }

  lemma EntriesAreOwn(actor: string, id: string, input: UpdateInput)
    ensures Own(UpdateEntry(actor, id, input), actor) && Own(DeleteEntry(actor, id), actor)
  {
  }

  lemma InvEnter(s: State, rules: Rules, c: CallId, next: Call, actor: string)
    requires Inv(s, rules) && c !in s.calls && Own(next, actor)
    ensures Inv(Enter(s, c, next, actor), rules)
  {
    var s' := Enter(s, c, next, actor);
    match next
    case Reading(_, _) => OthersStand(s, s', rules, c);
    case Removing(_) => OthersStand(s, s', rules, c);
    case Done(_) => OthersStand(s, s', rules, c);
    case _ =>
  }

  lemma InvStep(s: State, a: Action, rules: Rules)
    requires Inv(s, rules)
    ensures Inv(Step(s, a, rules), rules)
  {
    match a
    case StartCreate(c, input, hashed, now) =>
      if c !in s.calls { InvCreate(s, rules, c, input, hashed, now); }
    case Advance(c, fault, now) =>
      if c in s.calls { InvCommand(s, rules, c, fault, now); }
    case StartUpdate(c, actor, id, input) =>
      EntriesAreOwn(actor, id, input);
      if c !in s.calls { InvEnter(s, rules, c, UpdateEntry(actor, id, input), actor); }
    case StartDelete(c, actor, id) =>
      EntriesAreOwn(actor, id, UpdateInput(None, None));
      if c !in s.calls { InvEnter(s, rules, c, DeleteEntry(actor, id), actor); }
  }

  lemma {:induction false} InvExec(s: State, acts: seq<Action>, rules: Rules)
    requires Inv(s, rules)
    ensures Inv(Exec(s, acts, rules), rules)
    decreases |acts|
  {
    if acts != [] {
      InvStep(s, acts[0], rules);
      InvExec(Step(s, acts[0], rules), acts[1..], rules);
    }
  }

  /**
   In every reachable state: no two rows share an email; every stored email and name is its own normal form; the
   rows are the inserts less the deletes, counted by the calls that made them; and only such a call, or one whose
   reply was lost, has a row to its name.
   */
  lemma RowsAreAccounted(acts: seq<Action>, rules: Rules)
    ensures var s := Exec(INIT, acts, rules);
      && UniqueEmails(s.rows)
      && (forall x <- s.rows :: rules.email(s.rows[x].email) == Ok(s.rows[x].email))
      && (forall x <- s.rows :: rules.name(s.rows[x].name) == Ok(s.rows[x].name))
      && |s.rows| == |s.inserted| - |s.deleted|
      && (forall c <- s.calls | s.calls[c].Done? && s.calls[c].reply.Created? :: c in s.inserted)
      && (forall c <- s.calls | s.calls[c].Done? && s.calls[c].reply.Deleted? :: c in s.deleted)
      && (forall c <- s.inserted :: c in s.calls && s.calls[c] in
            {Done(Created(ObjectId.Print(s.inserted[c]))), Done(Failed(Lost("insert user")))})
      && (forall c <- s.deleted :: c in s.calls && s.calls[c] in {Done(Deleted), Done(Failed(Lost("delete user")))})
  {
    InvExec(INIT, acts, rules);
    Balance(Exec(INIT, acts, rules), rules);
    Outcomes(Exec(INIT, acts, rules), rules);
  }

  /** With the domain's own checks: every stored email is unique and is what NewEmail makes of it. */
  lemma StoredEmailsAreNormal(acts: seq<Action>, rule: AddressRule)
    ensures var s := Exec(INIT, acts, Domain(rule));
      && UniqueEmails(s.rows)
      && (forall x <- s.rows :: NewEmail(rule, s.rows[x].email) == Ok(s.rows[x].email))
      && (forall x <- s.rows :: NormalizeName(s.rows[x].name) == Ok(s.rows[x].name))
  {
    RowsAreAccounted(acts, Domain(rule));
  }

  lemma Balance(s: State, rules: Rules)
    requires Inv(s, rules)
    ensures |s.rows| == |s.inserted| - |s.deleted|
  {
    InjectiveValues(s.inserted);
    InjectiveValues(s.deleted);
    assert |s.rows.Keys| == |s.inserted.Values - s.deleted.Values|;
  }

  lemma Outcomes(s: State, rules: Rules)
    requires Inv(s, rules)
    ensures forall c <- s.calls | s.calls[c].Done? && s.calls[c].reply.Created? :: c in s.inserted
    ensures forall c <- s.calls | s.calls[c].Done? && s.calls[c].reply.Deleted? :: c in s.deleted
    ensures forall c <- s.inserted :: c in s.calls && s.calls[c] in
              {Done(Created(ObjectId.Print(s.inserted[c]))), Done(Failed(Lost("insert user")))}
    ensures forall c <- s.deleted :: c in s.calls && s.calls[c] in {Done(Deleted), Done(Failed(Lost("delete user")))}
  {
    forall c <- s.calls ensures c in s.inserted || c in s.deleted ==> s.calls[c].Done? {
      assert CallOk(s, rules, c);
    }
    forall c <- s.calls | s.calls[c].Done? ensures DoneOk(s, c, s.calls[c].reply) {
      assert CallOk(s, rules, c);
    }
  }
}
