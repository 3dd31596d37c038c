/**
 Deleting a user touches both collections. Run alone it is the Delete of the rotation system, so what that system
 proves about deletes holds of the service's; and the revocation reaches the user's tokens for printed ids only.
 */
module Deletion {
  import opened Wrappers
  import opened Errors
  import opened UserStore
  import opened UserRuns
  import opened UserService
  import opened AuthService
  import opened RotationSolo
  import opened Listing
  import ObjectId
  import UserDomain
  import T = TokenStore
  import R = Rotation

  /** How the rotation system names the outcome of the row's removal. */
  function Named(reply: Reply, revoke: Fault): R.Answer {
    match reply
    case Failed(x) =>
      if x == NO_ID then R.BadInput
      else if Is(x, Kind.Forbidden) then R.Forbidden
      else if Is(x, Kind.NotFound) then R.NoSuchUser
      else R.Internal
    case _ => if revoke.NoFault? then R.Removed else R.Internal
  }

  lemma EmailsArePrinted(rows: Rows, k: string)
    requires Printable(rows) && k in Emails(rows)
    ensures ObjectId.Canonical(k)
  {
    var x :| x in rows && ObjectId.Print(x) == k;
    ObjectId.ParsePrint(x);
  }

  lemma RemovedAt(rows: Rows, id: string, k: string)
    requires Printable(rows) && ObjectId.Canonical(id) && OidOf(id).Ok?
    ensures k in Emails(rows - {OidOf(id).value}) <==> k in Emails(rows) && k != id
  {
    var rest := rows - {OidOf(id).value};
    if k in Emails(rows) {
      EmailsArePrinted(rows, k);
    } else if k in Emails(rest) {
      EmailsArePrinted(rest, k);
    }
    if ObjectId.Canonical(k) {
      EmailsById(rows, k);
      EmailsById(rest, k);
      EmailsById(rows, id);
    }
  }

  lemma RemovedEmails(rows: Rows, id: string)
    requires Printable(rows) && ObjectId.Canonical(id) && OidOf(id).Ok?
    ensures Emails(rows - {OidOf(id).value}) == Emails(rows) - {id}
  {
    forall k ensures k in Emails(rows - {OidOf(id).value}) <==> k in Emails(rows) && k != id {
      RemovedAt(rows, id, k);
    }
  }

  /** The row's removal, and how it is reported. */
  lemma RemovalOutcome(rows: Rows, id: string, fault: Fault)
    requires Printable(rows) && ObjectId.Canonical(id)
    ensures var o, found := DeleteOutcome(rows, Removing(id), fault), id in Emails(rows);
      && Emails(o.rows) == (if fault.RequestLost? then Emails(rows) else Emails(rows) - {id})
      && o.reply == (if !fault.NoFault? then Failed(Lost("delete user")) else if found then Deleted else Failed(NOT_FOUND))
  {
    EmailsById(rows, id);
    var oid := OidOf(id).value;
    if oid in rows {
      RemovedEmails(rows, id);
    }
  }

  lemma NamedReplies(revoke: Fault)
    ensures Named(Failed(Lost("delete user")), revoke) == R.Internal && Named(Failed(NOT_FOUND), revoke) == R.NoSuchUser
    ensures Named(Failed(NO_ID), revoke) == R.BadInput && Named(Failed(FORBIDDEN), revoke) == R.Forbidden
  {
    WrappedOpaque("delete user", "connection lost");
    assert !Is(Opaque("connection lost"), Kind.Forbidden);
  }

  /** The removal's outcome in the rotation system's terms. */
  lemma RemovalNamed(rows: Rows, id: string, fault: Fault, revoke: Fault)
    requires Printable(rows) && ObjectId.Canonical(id)
    ensures var o, found := DeleteOutcome(rows, Removing(id), fault), id in Emails(rows);
      && Emails(o.rows) == (if fault.RequestLost? then Emails(rows) else Emails(rows) - {id})
      && (o.reply.Deleted? <==> fault.NoFault? && found)
      && Named(o.reply, revoke) ==
           (if !fault.NoFault? then R.Internal else if !found then R.NoSuchUser
            else if revoke.NoFault? then R.Removed else R.Internal)
  {
    NamedReplies(revoke);
    RemovalOutcome(rows, id, fault);
  }

  /** The same two commands in the rotation system. */
  lemma RemovalSteps(s: R.State, c: R.CallId, id: string, remove: R.Env, revoke: R.Env, ttl: T.Time)
    requires c in s.calls && s.calls[c] == R.RemovingRow(id)
    ensures var e, found := Alone(s, c, [remove, revoke], ttl), id in s.rows;
      && e.rows == (if remove.fault.RequestLost? then s.rows else s.rows - {id})
      && e.db == (if remove.fault.NoFault? && found then T.Wipe(s.db, id, revoke.now, revoke.fault).db else s.db)
      && e.calls == s.calls[c := R.Done(
           if !remove.fault.NoFault? then R.Internal else if !found then R.NoSuchUser
           else if revoke.fault.NoFault? then R.Removed else R.Internal)]
  {
    AloneStep(s, c, [remove, revoke], ttl);
    var s1 := R.Command(s, c, remove, ttl);
    if s1.calls[c].Done? {
      AnsweredIsQuiet(s1, c, [revoke], ttl);
    } else {
      AloneStep(s1, c, [revoke], ttl);
      AloneStep(R.Command(s1, c, revoke, ttl), c, [], ttl);
    }
  }

  /** The service's Delete and the rotation system's, run alone, leave the same rows and documents, with one answer. */
  ghost predicate SameDelete(rows: Rows, s: R.State, c: R.CallId, actor: string, id: string,
                             remove: R.Env, revoke: R.Env, ttl: T.Time)
  {
    var o := DeleteOutcome(rows, DeleteEntry(actor, id), remove.fault);
    var e := SoloDelete(s, c, actor, id, [remove, revoke], ttl);
    && e.rows == Emails(o.rows)
    && e.db == (if o.reply.Deleted? then T.Wipe(s.db, id, revoke.now, revoke.fault).db else s.db)
    && c in e.calls && e.calls[c] == R.Done(Named(o.reply, revoke.fault))
  }

  /** The system is about to run call c over these rows. */
  ghost predicate Over(rows: Rows, s: R.State, c: R.CallId) {
    Printable(rows) && s.rows == Emails(rows) && c !in s.calls
  }

  lemma RefusedAgrees(rows: Rows, s: R.State, c: R.CallId, actor: string, id: string, remove: R.Env, revoke: R.Env, ttl: T.Time)
    requires Over(rows, s, c) && (id == "" || actor == "" || actor != id)
    ensures SameDelete(rows, s, c, actor, id, remove, revoke, ttl)
  {
    var begun := R.Step(s, R.StartDelete(c, actor, id), ttl);
    AnsweredIsQuiet(begun, c, [remove, revoke], ttl);
    NamedReplies(revoke.fault);
    assert DeleteEntry(actor, id) == Done(Failed(if id == "" then NO_ID else FORBIDDEN));
  }

  lemma OwnAgrees(rows: Rows, s: R.State, c: R.CallId, id: string, remove: R.Env, revoke: R.Env, ttl: T.Time)
    requires Over(rows, s, c) && id != "" && ObjectId.Canonical(id)
    ensures SameDelete(rows, s, c, id, id, remove, revoke, ttl)
  {
    var begun := R.Goto(s, c, R.RemovingRow(id));
    assert R.Step(s, R.StartDelete(c, id, id), ttl) == begun;
    assert DeleteEntry(id, id) == Removing(id);
    RemovalNamed(rows, id, remove.fault, revoke.fault);
    RemovalSteps(begun, c, id, remove, revoke, ttl);
  }

  lemma DeletionAgrees(rows: Rows, s: R.State, c: R.CallId, actor: string, id: string, remove: R.Env, revoke: R.Env, ttl: T.Time)
    requires Over(rows, s, c)
    requires id == "" || actor != id || ObjectId.Canonical(id)
    ensures SameDelete(rows, s, c, actor, id, remove, revoke, ttl)
  {
    if id == "" || actor != id {
      RefusedAgrees(rows, s, c, actor, id, remove, revoke, ttl);
    } else {
      OwnAgrees(rows, s, c, id, remove, revoke, ttl);
    }
  }

  const QUIET := R.Env(NoFault, 0, None, R.Match)

  /** What the rotation system does about an id of the caller's own that names no row of its. */
  lemma StrangeDelete(s: R.State, id: string)
    requires id != "" && id !in s.rows && 0 !in s.calls
    ensures var e := SoloDelete(s, 0, id, id, [QUIET, QUIET], 0);
      e.rows == s.rows && 0 in e.calls && e.calls[0] == R.Done(R.NoSuchUser)
  {
    var begun := R.Goto(s, 0, R.RemovingRow(id));
    assert R.Step(s, R.StartDelete(0, id, id), 0) == begun;
    RemovalSteps(begun, 0, id, QUIET, QUIET, 0);
  }

  /** An id that does not parse is bad input to the service. */
  lemma MalformedDiffers(id: string, s: R.State)
    requires id != "" && OidOf(id).Err? && s == R.INIT.(rows := Emails(map[]))
    ensures Over(map[], s, 0) && !SameDelete(map[], s, 0, id, id, QUIET, QUIET, 0)
  {
    StrangeDelete(s, id);
    assert DeleteOutcome(map[], DeleteEntry(id, id), NoFault).reply == Failed(BAD_ID);
    assert !Is(BAD_ID, Kind.NotFound);
  }

  /** An id that parses, but is not printed so, removes its row in the service. */
  lemma UnprintedDiffers(id: string, oid: Oid, rows: Rows, s: R.State)
    requires id != "" && !ObjectId.Canonical(id) && OidOf(id) == Ok(oid)
    requires rows == map[oid := UserDomain.Row("", "", "", 0, 0)] && s == R.INIT.(rows := Emails(rows))
    ensures Over(rows, s, 0) && !SameDelete(rows, s, 0, id, id, QUIET, QUIET, 0)
  {
    ObjectId.ParsesAsLower(id);
    EmailsAt(rows, oid);
    if id in Emails(rows) {
      EmailsArePrinted(rows, id);
    }
    StrangeDelete(s, id);
    assert DeleteOutcome(rows, DeleteEntry(id, id), NoFault).rows == map[];
    assert ObjectId.Print(oid) !in Emails(map[]);
  }

  /** A state in which the two differ about an id of the caller's own that is not in printed form. */
  lemma DeletionDiffers(id: string) returns (rows: Rows, s: R.State)
    requires id != "" && !ObjectId.Canonical(id)
    ensures Over(rows, s, 0) && !SameDelete(rows, s, 0, id, id, QUIET, QUIET, 0)
  {
    match OidOf(id)
    case Err(_) =>
      rows, s := map[], R.INIT.(rows := Emails(map[]));
      MalformedDiffers(id, s);
    case Ok(oid) =>
      rows := map[oid := UserDomain.Row("", "", "", 0, 0)];
      s := R.INIT.(rows := Emails(rows));
      UnprintedDiffers(id, oid, rows, s);
  }

  /**
   UserService.Delete, run alone, is the rotation system's Delete over all rows and documents and under all faults, if
   and only if the id is refused at entry or is the caller's own as printed.
   */
  lemma DeletionAgreesIff(actor: string, id: string)
    ensures (forall rows, s, c, remove, revoke, ttl | Over(rows, s, c) ::
               SameDelete(rows, s, c, actor, id, remove, revoke, ttl)) <==>
            id == "" || actor != id || ObjectId.Canonical(id)
  {
    if id == "" || actor != id || ObjectId.Canonical(id) {
      forall rows, s, c, remove, revoke, ttl | Over(rows, s, c)
        ensures SameDelete(rows, s, c, actor, id, remove, revoke, ttl)
      {
        DeletionAgrees(rows, s, c, actor, id, remove, revoke, ttl);
      }
    } else {
      var rows, s := DeletionDiffers(id);
    }
  }

  function OneToken(user: string): T.Db {
    T.Db(map[0 := T.Token(user, "", 0, 0, None)], 1)
  }

  /**
   Revoking by an id string reaches the tokens of the row that string names exactly when the string is the id as
   printed: the store parses either case, tokens are matched as strings. Ids in access tokens are printed ones.
   */
  lemma RevocationReachesIffPrinted(id: string, oid: Oid, now: T.Time)
    requires OidOf(id) == Ok(oid)
    ensures (forall db: T.Db :: T.LiveOf(T.Wipe(db, id, now, NoFault).db.tokens, ObjectId.Print(oid)) == {}) <==>
            ObjectId.Canonical(id)
  {
    ObjectId.ParsesAsLower(id);
    ObjectId.ParsePrint(oid);
    if ObjectId.Canonical(id) {
      ObjectId.PrintParse(id);
    } else {
      var db := OneToken(ObjectId.Print(oid));
      assert 0 in T.LiveOf(T.Wipe(db, id, now, NoFault).db.tokens, ObjectId.Print(oid));
    }
  }
}
