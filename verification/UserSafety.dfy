/**
 What the users collection guarantees to concurrent callers: one winner per email, updates that land on the newest
 row, and rows that only their owner can change.
 */
module UserSafety {
  import opened Wrappers
  import opened Errors
  import opened UserDomain
  import opened Listing
  import opened UserStore
  import opened UserRuns
  import ObjectId

  // ---- one winner per email ----

  /** A step of the race for an email: one more valid Create that normalizes to it, or a fault-free command. */
  predicate RaceStep(a: Action, rules: Rules, email: string) {
    match a
    case StartCreate(_, input, hashed, _) =>
      Bad(rules, input) == [] && rules.email(input.email) == Ok(email) && hashed.Ok?
    case Advance(_, fault, _) => fault.NoFault?
    case _ => false
  }

  predicate AllDone(s: State) {
    forall c <- s.calls :: s.calls[c].Done?
  }

  datatype Phase = Free | Won(w: CallId)

  predicate Racing(k: Call, email: string) {
    k.Inserting? && k.row.email == email
  }

  predicate Contenders(s0: State, s: State, email: string, phase: Phase) {
    forall c <- s.calls ::
      if c in s0.calls then s.calls[c] == s0.calls[c]
      else match phase
           case Free => Racing(s.calls[c], email)
           case Won(w) =>
             if c == w then s.calls[c] == Done(Created(ObjectId.Print(s0.nextId)))
             else Racing(s.calls[c], email) || s.calls[c] == Done(Failed(EMAIL_TAKEN))
  }

  predicate RaceInv(s0: State, s: State, email: string, phase: Phase) {
    && AllDone(s0) && !Taken(s0.rows, email, None) && s0.nextId !in s0.rows
    && s0.calls.Keys <= s.calls.Keys
    && Contenders(s0, s, email, phase)
    && match phase
       case Free => s.rows == s0.rows && s.nextId == s0.nextId
       case Won(w) =>
         && w in s.calls && w !in s0.calls
         && s0.nextId in s.rows && s.rows[s0.nextId].email == email && s.rows - {s0.nextId} == s0.rows
  }

  lemma RaceInsert(s0: State, s: State, email: string, phase: Phase, rules: Rules, c: CallId, now: Time)
    returns (next: Phase)
    requires RaceInv(s0, s, email, phase) && c in s.calls && s.calls[c].Inserting?
    ensures RaceInv(s0, Command(s, rules, c, NoFault, now), email, next)
  {
    assert c !in s0.calls && s.calls[c].row.email == email;
    if phase.Free? {
      next := Won(c);
      assert Command(s, rules, c, NoFault, now).rows == s0.rows[s0.nextId := s.calls[c].row];
      assert s0.rows[s0.nextId := s.calls[c].row] - {s0.nextId} == s0.rows;
    } else {
      next := phase;
      assert Taken(s.rows, email, None) by {
        assert s.rows[s0.nextId].email == email;
      }
    }
  }

  lemma RaceAdvance(s0: State, s: State, email: string, phase: Phase, rules: Rules, a: Action) returns (next: Phase)
    requires RaceInv(s0, s, email, phase) && RaceStep(a, rules, email)
    ensures RaceInv(s0, Step(s, a, rules), email, next)
  {
    next := phase;
    if a.Advance? && a.call in s.calls {
      if s.calls[a.call].Inserting? {
        next := RaceInsert(s0, s, email, phase, rules, a.call, a.now);
      } else {
        assert s.calls[a.call].Done?;
      }
    } else if a.StartCreate? && a.call !in s.calls {
      assert Racing(CreateEntry(rules, a.input, a.hashed, a.now), email);
    }
  }

  lemma {:induction false} RaceExec(s0: State, s: State, email: string, phase: Phase, rules: Rules, acts: seq<Action>)
    returns (last: Phase)
    requires RaceInv(s0, s, email, phase) && forall i | 0 <= i < |acts| :: RaceStep(acts[i], rules, email)
    ensures RaceInv(s0, Exec(s, acts, rules), email, last)
    decreases |acts|
  {
    if acts == [] {
      last := phase;
    } else {
      var next := RaceAdvance(s0, s, email, phase, rules, acts[0]);
      last := RaceExec(s0, Step(s, acts[0], rules), email, next, rules, acts[1..]);
    }
  }

  /**
   Of any number of concurrent valid Creates for one free email, in any interleaving, exactly one succeeds: it is
   told the id of the one row added, which has that email, and every other is told the email is taken.
   */
  lemma OneCreateWins(before: seq<Action>, race: seq<Action>, rules: Rules, email: string, s0: State, e: State)
    returns (w: CallId)
    requires s0 == Exec(INIT, before, rules) && AllDone(s0) && !Taken(s0.rows, email, None)
    requires forall i | 0 <= i < |race| :: RaceStep(race[i], rules, email)
    requires e == Exec(s0, race, rules) && AllDone(e) && e.calls.Keys != s0.calls.Keys
    ensures w in e.calls && w !in s0.calls && e.calls[w] == Done(Created(ObjectId.Print(s0.nextId)))
    ensures forall c <- e.calls :: c !in s0.calls && c != w ==> e.calls[c] == Done(Failed(EMAIL_TAKEN))
    ensures s0.nextId in e.rows && e.rows[s0.nextId].email == email && e.rows - {s0.nextId} == s0.rows
  {
    InvExec(INIT, before, rules);
    assert s0.nextId !in s0.rows;
    var last := RaceExec(s0, s0, email, Free, rules, race);
    var c :| c in e.calls && c !in s0.calls;
    assert last.Won?;
    w := last.w;
  }

  // ---- updates ----

  /** The row an Update makes of the row it finds: sent fields in normal form, unsent fields as they are now. */
  predicate Updates(rules: Rules, input: UpdateInput, now: Row, after: Row) {
    && (match input.name
        case Some(n) => rules.name(n) == Ok(after.name)
        case None => after.name == now.name)
    && (match input.email
        case Some(m) => rules.email(m) == Ok(after.email)
        case None => after.email == now.email)
    && after.passwordHash == now.passwordHash && after.createdAt == now.createdAt
  }

  lemma PatchUpdates(rules: Rules, input: UpdateInput, at: Time, row: Row)
    requires Rejected(rules, input) == []
    ensures Updates(rules, input, row, Apply(row, PatchOf(rules, input, at)))
  {
  }

  /** The row has gone, or another row has the email this Update sets. */
  predicate Refused(s: State, rules: Rules, input: UpdateInput, oid: Oid) {
    || oid !in s.rows
    || (input.email.Some? && rules.email(input.email.value).Ok? &&
        Taken(s.rows, rules.email(input.email.value).value, Some(oid)))
  }

  lemma WriteLands(s: State, rules: Rules, input: UpdateInput, at: Time, oid: Oid, fault: Fault)
    requires Rejected(rules, input) == []
    ensures var e, refused := UpdateRow(s.rows, oid, PatchOf(rules, input, at), fault), Refused(s, rules, input, oid);
      if refused || fault.RequestLost? then e.rows == s.rows
      else oid in e.rows && Updates(rules, input, s.rows[oid], e.rows[oid]) && e.rows == s.rows[oid := e.rows[oid]]
    ensures var e, refused := UpdateRow(s.rows, oid, PatchOf(rules, input, at), fault), Refused(s, rules, input, oid);
      fault.NoFault? ==> if refused then e.reply == Err(if oid in s.rows then EMAIL_TAKEN else NOT_FOUND) else e.reply.Ok?
  {
    if oid in s.rows {
      PatchUpdates(rules, input, at, s.rows[oid]);
    }
  }

  /**
   In any run, an Update takes effect whole at its write, on the row as it is then, however long ago it was read:
   unsent fields keep their newest value. It is refused exactly when the row has gone or another row has the
   email, and then, as with a lost request, nothing changes.
   */
  lemma UpdateLandsOnNewest(before: seq<Action>, rules: Rules, c: CallId, fault: Fault, now: Time, s: State, s': State, oid: Oid)
    requires s == Exec(INIT, before, rules) && s' == Step(s, Advance(c, fault, now), rules)
    requires c in s.calls && s.calls[c].Writing? && OidOf(s.calls[c].id) == Ok(oid)
    ensures var input, refused := s.calls[c].input, Refused(s, rules, s.calls[c].input, oid);
      && (if refused || fault.RequestLost? then s'.rows == s.rows
          else oid in s'.rows && Updates(rules, input, s.rows[oid], s'.rows[oid]) && s'.rows == s.rows[oid := s'.rows[oid]])
      && (fault.NoFault? ==>
            if refused then s'.calls[c] == Done(Failed(if oid in s.rows then EMAIL_TAKEN else NOT_FOUND))
            else s'.calls[c].Done? && s'.calls[c].reply.Updated?)
  {
    InvExec(INIT, before, rules);
    assert CallOk(s, rules, c);
    WriteLands(s, rules, s.calls[c].input, s.calls[c].patch.updatedAt, oid, fault);
    assert s' == Written(s, c, UpdateRow(s.rows, oid, s.calls[c].patch, fault));
  }

  predicate Disjoint(p: Patch, q: Patch) {
    (p.name.None? || q.name.None?) && (p.email.None? || q.email.None?)
  }

  /** An Update of this row that is past its read and whose email, if it sets one, no other row has. */
  predicate ReadyToWrite(s: State, c: CallId, oid: Oid) {
    && c in s.calls && s.calls[c].Writing? && OidOf(s.calls[c].id) == Ok(oid) && oid in s.rows
    && (s.calls[c].patch.email.Some? ==> !Taken(s.rows, s.calls[c].patch.email.value, Some(oid)))
  }

  lemma WriteStep(s: State, rules: Rules, c: CallId, now: Time, oid: Oid)
    requires ReadyToWrite(s, c, oid)
    ensures var s', after := Step(s, Advance(c, NoFault, now), rules), Apply(s.rows[oid], s.calls[c].patch);
      s'.rows == s.rows[oid := after] && s'.calls == s.calls[c := Done(Updated(after))]
  {
    assert Step(s, Advance(c, NoFault, now), rules) == Written(s, c, UpdateRow(s.rows, oid, s.calls[c].patch, NoFault));
  }

  lemma TakenByOthers(rows: Rows, oid: Oid, row: Row, email: string)
    requires oid in rows
    ensures Taken(rows[oid := row], email, Some(oid)) <==> Taken(rows, email, Some(oid))
  {
    if x :| x in rows && rows[x].email == email && x != oid {
      assert rows[oid := row][x].email == email;
    }
  }

  /** After one such Update the other is still ready, and finds the first one's row. */
  lemma BothWrite(s: State, rules: Rules, c: CallId, d: CallId, now: Time, now': Time, oid: Oid)
    requires c != d && ReadyToWrite(s, c, oid) && ReadyToWrite(s, d, oid)
    ensures var after := Apply(s.rows[oid], s.calls[c].patch);
      var both := Apply(after, s.calls[d].patch);
      var s' := Step(Step(s, Advance(c, NoFault, now), rules), Advance(d, NoFault, now'), rules);
      s'.rows == s.rows[oid := both] && s'.calls == s.calls[c := Done(Updated(after))][d := Done(Updated(both))]
  {
    var s' := Step(s, Advance(c, NoFault, now), rules);
    WriteStep(s, rules, c, now, oid);
    if s.calls[d].patch.email.Some? {
      TakenByOthers(s.rows, oid, s'.rows[oid], s.calls[d].patch.email.value);
    }
    WriteStep(s', rules, d, now', oid);
  }

  predicate Succeeded(s: State, c: CallId) {
    c in s.calls && s.calls[c].Done? && s.calls[c].reply.Updated?
  }

  /** Two Updates of different fields, both past their read, run in either order: both succeed, with the same result. */
  lemma WritesCommute(s: State, rules: Rules, c: CallId, d: CallId, now: Time, now': Time, oid: Oid, ab: State, ba: State)
    requires c != d && ReadyToWrite(s, c, oid) && ReadyToWrite(s, d, oid)
    requires Disjoint(s.calls[c].patch, s.calls[d].patch)
    requires ab == Step(Step(s, Advance(c, NoFault, now), rules), Advance(d, NoFault, now'), rules)
    requires ba == Step(Step(s, Advance(d, NoFault, now'), rules), Advance(c, NoFault, now), rules)
    ensures Succeeded(ab, c) && Succeeded(ab, d) && Succeeded(ba, c) && Succeeded(ba, d)
    ensures ab.rows - {oid} == ba.rows - {oid} == s.rows - {oid}
    ensures oid in ab.rows && oid in ba.rows && ab.rows[oid].(updatedAt := 0) == ba.rows[oid].(updatedAt := 0)
  {
    var p, q, row := s.calls[c].patch, s.calls[d].patch, s.rows[oid];
    BothWrite(s, rules, c, d, now, now', oid);
    BothWrite(s, rules, d, c, now', now, oid);
    DisjointPatchesCommute(row, p, q);
    SameElsewhere(s.rows, oid, Apply(Apply(row, p), q));
    SameElsewhere(s.rows, oid, Apply(Apply(row, q), p));
  }

  lemma SameElsewhere(rows: Rows, oid: Oid, row: Row)
    ensures rows[oid := row] - {oid} == rows - {oid}
  {
  }

  // ---- self only ----

  /** Call c was made in the name of the user whose row this is. */
  predicate ActsFor(s: State, c: CallId, oid: Oid) {
    c in s.actors && ObjectId.Parse(s.actors[c]) == Some(oid)
  }

  /** A row is changed or removed only by a step of a call made in its owner's name. */
  lemma OnlyOwnRow(s: State, a: Action, rules: Rules, oid: Oid)
    requires Inv(s, rules) && oid in s.rows
    requires a.Advance? && a.call in s.calls ==> s.calls[a.call].Done? || !ActsFor(s, a.call, oid)
    ensures oid in Step(s, a, rules).rows && Step(s, a, rules).rows[oid] == s.rows[oid]
  {
    if a.Advance? && a.call in s.calls {
      assert CallOk(s, rules, a.call);
      match s.calls[a.call]
      case Inserting(_) => assert s.nextId != oid;
      case Reading(_, _) =>
      case Writing(_, _, _) =>
      case Removing(_) =>
      case Done(_) =>
    }
  }

  /** Who made a call is never rewritten, and an answered call keeps its answer. */
  lemma ActorsStand(s: State, a: Action, rules: Rules, c: CallId)
    requires c in s.calls
    ensures var s' := Step(s, a, rules);
      && (c in s.actors ==> c in s'.actors && s'.actors[c] == s.actors[c])
      && c in s'.calls && (s.calls[c].Done? ==> s'.calls[c] == s.calls[c])
  {
    if a.Advance? && a.call in s.calls {
      match s.calls[a.call]
      case Inserting(_) =>
      case Reading(_, _) =>
      case Writing(id, _, _) =>
      case Removing(id) =>
      case Done(_) =>
    }
  }

  lemma {:induction false} AnswersStand(s: State, acts: seq<Action>, rules: Rules, c: CallId)
    requires c in s.calls && s.calls[c].Done?
    ensures c in Exec(s, acts, rules).calls && Exec(s, acts, rules).calls[c] == s.calls[c]
    decreases |acts|
  {
    if acts != [] {
      ActorsStand(s, acts[0], rules, c);
      AnswersStand(Step(s, acts[0], rules), acts[1..], rules, c);
    }
  }

  lemma {:induction false} ActorsStandExec(s: State, acts: seq<Action>, rules: Rules, c: CallId)
    requires c in s.calls
    ensures c in s.actors ==> c in Exec(s, acts, rules).actors && Exec(s, acts, rules).actors[c] == s.actors[c]
    decreases |acts|
  {
    if acts != [] {
      ActorsStand(s, acts[0], rules, c);
      ActorsStandExec(Step(s, acts[0], rules), acts[1..], rules, c);
    }
  }

  lemma {:induction false} StrangersChangeNothing(s: State, acts: seq<Action>, rules: Rules, oid: Oid, settled: set<CallId>)
    requires Inv(s, rules) && oid in s.rows
    requires forall c <- settled :: c in s.calls && s.calls[c].Done?
    requires forall c | ActsFor(Exec(s, acts, rules), c, oid) :: c in settled
    ensures oid in Exec(s, acts, rules).rows && Exec(s, acts, rules).rows[oid] == s.rows[oid]
    decreases |acts|
  {
    if acts != [] {
      var a, s' := acts[0], Step(s, acts[0], rules);
      InvStep(s, a, rules);
      if a.Advance? && a.call in s.calls && ActsFor(s, a.call, oid) {
        ActorsStandExec(s, acts, rules, a.call);
        assert ActsFor(Exec(s, acts, rules), a.call, oid);
      }
      OnlyOwnRow(s, a, rules, oid);
      forall c <- settled ensures c in s'.calls && s'.calls[c].Done? {
        ActorsStand(s, a, rules, c);
      }
      StrangersChangeNothing(s', acts[1..], rules, oid, settled);
    }
  }

  /**
   Self only, over whole runs: from any reachable state, a row that is there stays there unchanged through every
   continuation in which its owner has no call that was not already answered.
   */
  lemma SelfOnly(before: seq<Action>, after: seq<Action>, rules: Rules, oid: Oid, s: State, e: State)
    requires s == Exec(INIT, before, rules) && e == Exec(s, after, rules) && oid in s.rows
    requires forall c | ActsFor(e, c, oid) :: c in s.calls && s.calls[c].Done?
    ensures oid in e.rows && e.rows[oid] == s.rows[oid]
  {
    InvExec(INIT, before, rules);
    StrangersChangeNothing(s, after, rules, oid, set c | c in s.calls && s.calls[c].Done?);
  }

  /**
   An id that is not the caller's own is refused at once with the one answer, whatever the store holds, and that
   answer stands through any continuation: it says nothing about whether the row exists.
   */
  lemma ForeignIdIsBlind(s: State, rules: Rules, c: CallId, a: Action, after: seq<Action>)
    requires (a.StartUpdate? || a.StartDelete?) && a.call == c && c !in s.calls
    requires a.id != "" && a.actor != a.id
    ensures var s' := Step(s, a, rules);
      && s'.rows == s.rows
      && c in Exec(s', after, rules).calls && Exec(s', after, rules).calls[c] == Done(Failed(FORBIDDEN))
  {
    AnswersStand(Step(s, a, rules), after, rules, c);
  }
}
