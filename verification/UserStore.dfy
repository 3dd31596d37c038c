/**
 The users collection: rows by id under a unique index on the email. First the atomic effect of each command on
 the collection, then the repository that sends them, which speaks in id strings, users and domain errors.
 */
module UserStore {
  import opened Wrappers
  import opened Errors
  import opened Text
  import opened Positional
  import opened UserDomain
  import opened Listing
  import ObjectId

  type Rows = map<Oid, Row>

  /** What one command did: the rows afterwards, whether it took effect, and what the caller was told. */
  datatype Effect<T> = Effect(rows: Rows, applied: bool, reply: Result<T, Error>)

  const NOT_FOUND := Sentinel(NotFound)
  const EMAIL_TAKEN := Sentinel(EmailTaken)
  const BAD_ID := One(Invalid("id", "invalid format"))
  const BAD_CURSOR := One(Invalid("cursor", "invalid format"))

  function Lost(text: string): Error {
    Breakdown(text, "connection lost")
  }

  predicate UniqueEmails(rows: Rows) {
    forall x, y | x in rows && y in rows && rows[x].email == rows[y].email :: x == y
  }

  /** Another row than `self` has the email. */
  predicate Taken(rows: Rows, email: string, self: Option<Oid>) {
    exists x <- rows :: rows[x].email == email && Some(x) != self
  }

  /** A command hit by a fault reports the fault, whether or not it took effect. */
  function Told<T>(truth: Result<T, Error>, text: string, fault: Fault): Result<T, Error> {
    if fault.NoFault? then truth else Err(Lost(text))
  }

  /** InsertOne under the id the driver generated. */
  function InsertRow(rows: Rows, id: Oid, row: Row, fault: Fault): Effect<Oid> {
    var taken := Taken(rows, row.email, None);
    var applied := !taken && !fault.RequestLost?;
    Effect(if applied then rows[id := row] else rows, applied,
           Told(if taken then Err(EMAIL_TAKEN) else Ok(id), "insert user", fault))
  }

  datatype Patch = Patch(name: Option<string>, email: Option<string>, updatedAt: Time)

  function Apply(row: Row, p: Patch): Row {
    row.(
      name := if p.name.Some? then p.name.value else row.name,
      email := if p.email.Some? then p.email.value else row.email,
      updatedAt := p.updatedAt)
  }

  /** FindOneAndUpdate with $set, returning the document after the update. */
  function UpdateRow(rows: Rows, id: Oid, p: Patch, fault: Fault): Effect<Row> {
    if id !in rows then Effect(rows, false, Told(Err(NOT_FOUND), "update user", fault))
    else
      var taken := p.email.Some? && Taken(rows, p.email.value, Some(id));
      var applied := !taken && !fault.RequestLost?;
      var after := Apply(rows[id], p);
      Effect(if applied then rows[id := after] else rows, applied,
             Told(if taken then Err(EMAIL_TAKEN) else Ok(after), "update user", fault))
  }

  /** DeleteOne. */
  function RemoveRow(rows: Rows, id: Oid, fault: Fault): Effect<()> {
    var applied := id in rows && !fault.RequestLost?;
    Effect(if applied then rows - {id} else rows, applied,
           Told(if id in rows then Ok(()) else Err(NOT_FOUND), "delete user", fault))
  }

  /** No command can put two rows under one email, and a refused or lost command changes nothing. */
  lemma IndexHolds(rows: Rows, id: Oid, row: Row, p: Patch, fault: Fault)
    requires UniqueEmails(rows)
    ensures id !in rows ==> UniqueEmails(InsertRow(rows, id, row, fault).rows)
    ensures UniqueEmails(UpdateRow(rows, id, p, fault).rows)
    ensures UniqueEmails(RemoveRow(rows, id, fault).rows)
  {
  }

  /** An untouched email cannot collide: the index already holds. */
  lemma OnlyNewEmailsCollide(rows: Rows, id: Oid, p: Patch)
    requires UniqueEmails(rows) && id in rows
    ensures (exists x <- rows :: rows[x].email == Apply(rows[id], p).email && x != id) <==>
            p.email.Some? && Taken(rows, p.email.value, Some(id))
  {
  }

  /** Two patches that set different fields leave the same name and email in either order. */
  lemma DisjointPatchesCommute(row: Row, p: Patch, q: Patch)
    requires (p.name.None? || q.name.None?) && (p.email.None? || q.email.None?)
    ensures var pq, qp := Apply(Apply(row, p), q), Apply(Apply(row, q), p);
      pq.name == qp.name && pq.email == qp.email && pq.passwordHash == qp.passwordHash && pq.createdAt == qp.createdAt
  {
  }

  // ---- the repository ----

  /** One field's new value in a $set document. */
  datatype Value = Str(text: string) | Stamp(time: Time)

  function SetFields(row: Row, set_: map<string, Value>): Row {
    row.(
      name := if "name" in set_ && set_["name"].Str? then set_["name"].text else row.name,
      email := if "email" in set_ && set_["email"].Str? then set_["email"].text else row.email,
      updatedAt := if "updated_at" in set_ && set_["updated_at"].Stamp? then set_["updated_at"].time else row.updatedAt)
  }

  /** objectID: the id strings the repository accepts. */
  function OidOf(id: string): Result<Oid, Error> {
    match ObjectId.Parse(id)
    case Some(oid) => Ok(oid)
    case None => Err(BAD_ID)
  }

  datatype ListQuery = ListQuery(limit: int, cursor: string, query: string)

  datatype Found = Found(id: string, row: Row)

  datatype UserPage = UserPage(users: seq<Found>, limit: int, nextCursor: string)

  /** How the server matches a row against a search string; an empty one matches everything. */
  type Matcher = (string, Row) -> bool

  function Matches(matcher: Matcher, query: string, row: Row): bool {
    query == "" || matcher(query, row)
  }

  function MatchingIds(rows: Rows, matcher: Matcher, query: string): set<Oid> {
    set x | x in rows && Matches(matcher, query, rows[x])
  }

  function Render(rows: Rows, ids: seq<Oid>): (found: seq<Found>)
    requires forall i | 0 <= i < |ids| :: ids[i] in rows
    ensures |found| == |ids| && forall i | 0 <= i < |ids| :: found[i] == Found(ObjectId.Print(ids[i]), rows[ids[i]])
  {
    seq(|ids|, i requires 0 <= i < |ids| => Found(ObjectId.Print(ids[i]), rows[ids[i]]))
  }

  /** The noPassword projection: a row as the repository shows it, except to a login. */
  function Hidden(row: Row): Row {
    row.(passwordHash := "")
  }

  function HiddenReply(r: Result<Row, Error>): Result<Row, Error> {
    match r
    case Ok(row) => Ok(Hidden(row))
    case Err(e) => Err(e)
  }

  /** A page as the repository shows it. */
  function Redact(page: UserPage): UserPage {
    page.(users := seq(|page.users|, i requires 0 <= i < |page.users| =>
            page.users[i].(row := Hidden(page.users[i].row))))
  }

  /** What the repository answers, given the rows. */
  function FindAnswer(rows: Rows, id: string, fault: Fault): Result<Row, Error> {
    match OidOf(id)
    case Err(e) => Err(e)
    case Ok(oid) =>
      if !fault.NoFault? then Err(Lost("find user by id"))
      else if oid !in rows then Err(NOT_FOUND)
      else Ok(Hidden(rows[oid]))
  }

  function UpdateAnswer(rows: Rows, id: string, p: Patch, fault: Fault): Result<Row, Error> {
    match OidOf(id)
    case Err(e) => Err(e)
    case Ok(oid) => HiddenReply(UpdateRow(rows, oid, p, fault).reply)
  }

  function DeleteAnswer(rows: Rows, id: string, fault: Fault): Result<(), Error> {
    match OidOf(id)
    case Err(e) => Err(e)
    case Ok(oid) => RemoveRow(rows, oid, fault).reply
  }

  function CursorOf(cursor: string): Result<Option<Oid>, Error> {
    if cursor == "" then Ok(None)
    else
      match ObjectId.Parse(cursor)
      case Some(oid) => Ok(Some(oid))
      case None => Err(BAD_CURSOR)
  }

  /** The page of the keyset walk, with its rows and its cursor as strings. */
  ghost function PageFor(rows: Rows, matcher: Matcher, q: ListQuery, cursor: Option<Oid>): UserPage
    requires q.limit >= 1
  {
    var matching := MatchingIds(rows, matcher, q.query);
    PageRows(rows, matcher, q.query, cursor, q.limit);
    var page := PageOf(matching, cursor, q.limit);
    UserPage(Render(rows, page.ids), 0, if page.next.None? then "" else ObjectId.Print(page.next.value))
  }

  // ---- what a page shows ----

  /** The rows by id string. */
  ghost function ByName(rows: Rows): map<string, Row> {
    map k | k in (set x | x in rows :: ObjectId.Print(x)) && OidOf(k).Ok? && OidOf(k).value in rows :: rows[OidOf(k).value]
  }

  predicate Printable(rows: Rows) {
    forall x <- rows :: x < ObjectId.Limit()
  }

  lemma ByNameAt(rows: Rows, x: Oid)
    requires Printable(rows) && x in rows
    ensures ObjectId.Print(x) in ByName(rows) && ByName(rows)[ObjectId.Print(x)] == rows[x]
  {
    ObjectId.ParsePrint(x);
  }

  lemma Named(rows: Rows, k: string) returns (x: Oid)
    requires Printable(rows) && k in ByName(rows)
    ensures x in rows && ObjectId.Print(x) == k && ByName(rows)[k] == rows[x]
  {
    x :| x in rows && ObjectId.Print(x) == k;
    ByNameAt(rows, x);
  }

  predicate ShowsId(users: seq<Found>, id: string) {
    exists i | 0 <= i < |users| :: users[i].id == id
  }

  /**
   A page in terms of id strings: at most `limit` rows, newest first, each as it is stored but for its hash where that
   is hidden. Of the rows before the cursor it shows those that match, all of them for the empty query, down to the
   next cursor; and there is a next cursor, the last id shown, exactly when more such rows follow.
   */
  ghost predicate PageShows(rows: map<string, Row>, hidden: bool, matcher: Matcher, query: string, cursor: string, limit: int,
                            page: UserPage)
  {
    && |page.users| <= limit
    && (forall i, j | 0 <= i < j < |page.users| :: Before(page.users[j].id, page.users[i].id))
    && (forall i | 0 <= i < |page.users| ::
          && page.users[i].id in rows
          && page.users[i].row == if hidden then rows[page.users[i].id].(passwordHash := "") else rows[page.users[i].id])
    && (forall k <- rows ::
          ShowsId(page.users, k) <==>
            && (cursor == "" || Before(k, cursor))
            && (query == "" || matcher(query, rows[k]))
            && (page.nextCursor == "" || !Before(k, page.nextCursor)))
    && (page.nextCursor != "" ==>
          && |page.users| == limit > 0 && page.nextCursor == page.users[limit - 1].id
          && exists k <- rows :: Before(k, page.nextCursor) && (query == "" || matcher(query, rows[k])))
  }

  /** The id a page starts below, as it is printed. */
  function CursorName(cursor: Option<Oid>): string {
    if cursor.None? then "" else ObjectId.Print(cursor.value)
  }

  lemma CursorNamed(cursor: string)
    requires CursorOf(cursor).Ok?
    ensures CursorName(CursorOf(cursor).value) == ToLower(cursor)
    ensures CursorOf(cursor).value.Some? ==> CursorOf(cursor).value.value < ObjectId.Limit()
  {
    if cursor != "" {
      ObjectId.ParsesAsLower(cursor);
      ObjectId.PrintParse(ToLower(cursor));
    }
  }

  lemma BelowIsBefore(x: Oid, cursor: Option<Oid>)
    requires x < ObjectId.Limit() && (cursor.Some? ==> cursor.value < ObjectId.Limit())
    ensures Below(x, cursor) <==> CursorName(cursor) == "" || Before(ObjectId.Print(x), CursorName(cursor))
  {
    if cursor.Some? {
      ObjectId.PrintOrder(x, cursor.value);
      assert |ObjectId.Print(cursor.value)| == 24;
    }
  }

  /** A row is on the page exactly when it is selected and not left for the next page. */
  lemma OnPage(rows: Rows, matcher: Matcher, q: ListQuery, cursor: Option<Oid>, x: Oid)
    requires q.limit >= 1 && Printable(rows) && x in rows && (cursor.Some? ==> cursor.value < ObjectId.Limit())
    ensures var page, k := PageFor(rows, matcher, q, cursor), ObjectId.Print(x);
      ShowsId(page.users, k) <==>
        && (CursorName(cursor) == "" || Before(k, CursorName(cursor)))
        && (q.query == "" || matcher(q.query, rows[x]))
        && (page.nextCursor == "" || !Before(k, page.nextCursor))
  {
    var matching := MatchingIds(rows, matcher, q.query);
    var ids, page := PageOf(matching, cursor, q.limit), PageFor(rows, matcher, q, cursor);
    PageFacts(matching, cursor, q.limit);
    PageRows(rows, matcher, q.query, cursor, q.limit);
    BelowIsBefore(x, cursor);
    BelowIsBefore(x, ids.next);
    if x in ids.ids {
      var i :| 0 <= i < |ids.ids| && ids.ids[i] == x;
      assert page.users[i].id == ObjectId.Print(x);
    }
    if ShowsId(page.users, ObjectId.Print(x)) {
      var i :| 0 <= i < |page.users| && page.users[i].id == ObjectId.Print(x);
      ObjectId.PrintOrder(ids.ids[i], x);
    }
  }

  /** The next cursor names the last row shown, and a row that matches follows. */
  lemma MoreFollow(rows: Rows, matcher: Matcher, q: ListQuery, cursor: Option<Oid>)
    requires q.limit >= 1 && Printable(rows)
    ensures var page := PageFor(rows, matcher, q, cursor);
      page.nextCursor != "" ==>
        && |page.users| == q.limit && page.nextCursor == page.users[q.limit - 1].id
        && exists k <- ByName(rows) :: Before(k, page.nextCursor) && (q.query == "" || matcher(q.query, ByName(rows)[k]))
  {
    var matching := MatchingIds(rows, matcher, q.query);
    var all, page := Descending(Selected(matching, cursor)), PageFor(rows, matcher, q, cursor);
    SelectedFacts(matching, cursor);
    PageRows(rows, matcher, q.query, cursor, q.limit);
    if page.nextCursor != "" {
      var x := all[q.limit];
      ByNameAt(rows, x);
      ObjectId.PrintOrder(x, all[q.limit - 1]);
    }
  }

  /** What the repository answers is such a page. */
  lemma PageForShows(rows: Rows, matcher: Matcher, q: ListQuery, cursor: Option<Oid>)
    requires q.limit >= 1 && Printable(rows) && (cursor.Some? ==> cursor.value < ObjectId.Limit())
    ensures PageShows(ByName(rows), true, matcher, q.query, CursorName(cursor), q.limit,
                      Redact(PageFor(rows, matcher, q, cursor)))
  {
    var page := PageFor(rows, matcher, q, cursor);
    var shown := Redact(page);
    var ids := PageOf(MatchingIds(rows, matcher, q.query), cursor, q.limit).ids;
    PageFacts(MatchingIds(rows, matcher, q.query), cursor, q.limit);
    PageRows(rows, matcher, q.query, cursor, q.limit);
    MoreFollow(rows, matcher, q, cursor);
    forall i, j | 0 <= i < j < |shown.users| ensures Before(shown.users[j].id, shown.users[i].id) {
      ObjectId.PrintOrder(ids[j], ids[i]);
    }
    forall i | 0 <= i < |shown.users|
      ensures shown.users[i].id in ByName(rows)
      ensures shown.users[i].row == ByName(rows)[shown.users[i].id].(passwordHash := "")
    {
      ByNameAt(rows, ids[i]);
    }
    forall k <- ByName(rows)
      ensures ShowsId(shown.users, k) <==>
        && (CursorName(cursor) == "" || Before(k, CursorName(cursor)))
        && (q.query == "" || matcher(q.query, ByName(rows)[k]))
        && (shown.nextCursor == "" || !Before(k, shown.nextCursor))
    {
      var x := Named(rows, k);
      OnPage(rows, matcher, q, cursor, x);
      RedactShows(page, k);
    }
  }

  lemma RedactShows(page: UserPage, id: string)
    ensures ShowsId(Redact(page).users, id) <==> ShowsId(page.users, id)
  {
    if i :| 0 <= i < |page.users| && page.users[i].id == id {
      assert Redact(page).users[i].id == id;
    }
    if i :| 0 <= i < |page.users| && Redact(page).users[i].id == id {
      assert page.users[i].id == id;
    }
  }

  /** The $set document of a patch: the timestamp, and the fields that were sent. */
  method SetDocument(p: Patch) returns (set_: map<string, Value>)
    ensures forall row: Row :: SetFields(row, set_) == Apply(row, p)
  {
    set_ := map["updated_at" := Stamp(p.updatedAt)];
    if p.name.Some? {
      set_ := set_["name" := Str(p.name.value)];
    }
    if p.email.Some? {
      set_ := set_["email" := Str(p.email.value)];
    }
  }

  /** A sort on _id descending with a limit: the greatest ids one by one. */
  method Newest(ids: set<Oid>, n: nat) returns (docs: seq<Oid>)
    ensures var all := Descending(ids); docs == if |all| > n then all[..n] else all
  {
    var left := ids;
    docs := [];
    while left != {} && |docs| < n
      invariant |docs| <= n
      invariant Descending(ids) == docs + Descending(left)
      decreases left
    {
      HasMaximum(left);
      var m :| m in left && forall x <- left :: x <= m;
      DescendingHead(left, m);
      assert Descending(ids) == (docs + [m]) + Descending(left - {m});
      docs := docs + [m];
      left := left - {m};
    }
  }

  class UserRepo {
    var rows: Rows
    var nextId: Oid
    const matcher: Matcher

    constructor (matcher: Matcher)
      ensures Valid() && rows == map[] && this.matcher == matcher
    {
      rows := map[];
      nextId := 0;
      this.matcher := matcher;
    }

    predicate Valid()
      reads this
    {
      && UniqueEmails(rows)
      && (forall x <- rows :: x < nextId && x < ObjectId.Limit())
    }

    /** The id written back into the user is the new row's; a refused or lost insert leaves the user as it was. */
    method Create(u: User, fault: Fault) returns (err: Option<Error>)
      requires Valid() && nextId < ObjectId.Limit()
      modifies this, u`id
      ensures Valid()
      ensures var e := InsertRow(old(rows), old(nextId), u.AsRow(), fault);
        && rows == e.rows
        && nextId == old(nextId) + (if e.applied then 1 else 0)
        && (match e.reply
            case Ok(oid) => err == None && u.id == ObjectId.Print(oid)
            case Err(x) => err == Some(x) && u.id == old(u.id))
    {
      IndexHolds(rows, nextId, u.AsRow(), Patch(None, None, 0), fault);
      if fault.RequestLost? {
        return Some(Lost("insert user"));
      }
      var duplicate := exists x <- rows :: rows[x].email == u.email;
      var oid := nextId;
      if !duplicate {
        rows := rows[oid := u.AsRow()];
        nextId := nextId + 1;
      }
      if fault.ReplyLost? {
        return Some(Lost("insert user"));
      }
      if duplicate {
        return Some(EMAIL_TAKEN);
      }
      u.id := ObjectId.Print(oid);
      err := None;
    }

    /** A fresh copy of the row, its password hash projected away. */
    method FindByID(id: string, fault: Fault) returns (r: Result<User, Error>)
      requires Valid()
      ensures match FindAnswer(rows, id, fault)
              case Err(e) => r == Err(e)
              case Ok(row) =>
                r.Ok? && fresh(r.value) && r.value.id == ObjectId.Print(OidOf(id).value) && r.value.AsRow() == row
      ensures match ObjectId.Parse(id)
              case None => r == Err(One(Invalid("id", "invalid format")))
              case Some(x) =>
                if !fault.NoFault? then Broke(r)
                else if x !in rows then r == Err(Sentinel(Kind.NotFound))
                else r.Ok? && r.value.id == ObjectId.Print(x) && r.value.AsRow() == rows[x].(passwordHash := "")
    {
      var oid := OidOf(id);
      if oid.Err? {
        return Err(oid.error);
      }
      if !fault.NoFault? {
        return Err(Lost("find user by id"));
      }
      if oid.value !in rows {
        return Err(NOT_FOUND);
      }
      var u := new User.Hydrate(ObjectId.Print(oid.value), Hidden(rows[oid.value]));
      r := Ok(u);
    }

    /** The one read that keeps the password hash. */
    method FindByEmail(email: string, fault: Fault) returns (r: Result<User, Error>)
      requires Valid()
      ensures if !fault.NoFault? then r == Err(Lost("find user by email"))
              else if !Taken(rows, email, None) then r == Err(NOT_FOUND)
              else r.Ok? && fresh(r.value) && r.value.email == email &&
                   exists oid <- rows :: r.value.id == ObjectId.Print(oid) && r.value.AsRow() == rows[oid]
    {
      if !fault.NoFault? {
        return Err(Lost("find user by email"));
      }
      if oid :| oid in rows && rows[oid].email == email {
        var u := new User.Hydrate(ObjectId.Print(oid), rows[oid]);
        return Ok(u);
      }
      r := Err(NOT_FOUND);
    }

    method Update(id: string, p: Patch, fault: Fault) returns (r: Result<Row, Error>)
      requires Valid()
      modifies this`rows
      ensures Valid()
      ensures r == UpdateAnswer(old(rows), id, p, fault)
      ensures rows == if OidOf(id).Ok? then UpdateRow(old(rows), OidOf(id).value, p, fault).rows else old(rows)
    {
      var oid := OidOf(id);
      if oid.Err? {
        return Err(oid.error);
      }
      var set_ := SetDocument(p);
      IndexHolds(rows, oid.value, Row("", "", "", 0, 0), p, fault);
      if fault.RequestLost? {
        return Err(Lost("update user"));
      }
      if oid.value !in rows {
        return Err(if fault.NoFault? then NOT_FOUND else Lost("update user"));
      }
      var after := SetFields(rows[oid.value], set_);
      var duplicate := exists x <- rows :: rows[x].email == after.email && x != oid.value;
      OnlyNewEmailsCollide(rows, oid.value, p);
      if !duplicate {
        rows := rows[oid.value := after];
      }
      if fault.ReplyLost? {
        return Err(Lost("update user"));
      }
      r := if duplicate then Err(EMAIL_TAKEN) else Ok(Hidden(after));
    }

    method Delete(id: string, fault: Fault) returns (err: Option<Error>)
      requires Valid()
      modifies this`rows
      ensures Valid()
      ensures match DeleteAnswer(old(rows), id, fault)
              case Ok(_) => err == None
              case Err(e) => err == Some(e)
      ensures rows == if OidOf(id).Ok? then RemoveRow(old(rows), OidOf(id).value, fault).rows else old(rows)
    {
      var oid := OidOf(id);
      if oid.Err? {
        return Some(oid.error);
      }
      if fault.RequestLost? {
        return Some(Lost("delete user"));
      }
      var deletedCount := if oid.value in rows then 1 else 0;
      rows := rows - {oid.value};
      if fault.ReplyLost? {
        return Some(Lost("delete user"));
      }
      err := if deletedCount == 0 then Some(NOT_FOUND) else None;
    }

    /** Find, sorted on _id descending and cut at n: the server's part of List. */
    method Find(query: string, below: Option<Oid>, n: nat) returns (docs: seq<Oid>)
      requires Valid()
      ensures var all := Descending(Selected(MatchingIds(rows, matcher, query), below));
              docs == if |all| > n then all[..n] else all
    {
      var left := set x | x in rows && Matches(matcher, query, rows[x]) && Below(x, below);
      assert left == Selected(MatchingIds(rows, matcher, query), below);
      docs := Newest(left, n);
    }

    method List(q: ListQuery, fault: Fault) returns (r: Result<UserPage, Error>)
      requires Valid() && q.limit >= 1
      ensures match CursorOf(q.cursor)
              case Err(e) => r == Err(e)
              case Ok(cursor) =>
                if !fault.NoFault? then r == Err(Lost("list users"))
                else r == Ok(Redact(PageFor(rows, matcher, q, cursor)))
      ensures if q.cursor != "" && !ObjectId.HexId(q.cursor) then r == Err(One(Invalid("cursor", "invalid format")))
              else if !fault.NoFault? then Broke(r)
              else r.Ok? && PageShows(ByName(rows), true, matcher, q.query, ToLower(q.cursor), q.limit, r.value)
    {
      ObjectId.ParsesExactly(q.cursor);
      var below: Option<Oid> := None;
      if q.cursor != "" {
        var oid := ObjectId.Parse(q.cursor);
        if oid.None? {
          return Err(BAD_CURSOR);
        }
        below := Some(oid.value);
      }
      if !fault.NoFault? {
        return Err(Lost("list users"));
      }
      CursorNamed(q.cursor);
      PageForShows(rows, matcher, q, below);
      r := ListBelow(q, below);
    }

    method ListBelow(q: ListQuery, below: Option<Oid>) returns (r: Result<UserPage, Error>)
      requires Valid() && q.limit >= 1
      ensures r == Ok(Redact(PageFor(rows, matcher, q, below)))
    {
      ghost var matching := MatchingIds(rows, matcher, q.query);
      ghost var page := PageOf(matching, below, q.limit);
      var docs := Find(q.query, below, q.limit + 1);
      LookaheadCut(matching, below, q.limit, docs);
      var next := "";
      if |docs| > q.limit {
        docs := docs[..q.limit];
        next := ObjectId.Print(docs[|docs| - 1]);
      }
      assert docs == page.ids;
      PageRows(rows, matcher, q.query, below, q.limit);
      var users := Hydrated(docs);
      r := Ok(UserPage(users, 0, next));
    }

    /** toDomain, document by document. */
    method Hydrated(docs: seq<Oid>) returns (users: seq<Found>)
      requires forall i | 0 <= i < |docs| :: docs[i] in rows
      ensures users == Redact(UserPage(Render(rows, docs), 0, "")).users
    {
      users := [];
      for i := 0 to |docs|
        invariant users == Redact(UserPage(Render(rows, docs), 0, "")).users[..i]
      {
        users := users + [Found(ObjectId.Print(docs[i]), Hidden(rows[docs[i]]))];
      }
    }

    method Count() returns (n: nat)
      ensures n == |rows|
    {
      n := |rows|;
    }
  }

  lemma LookaheadCut(matching: set<Oid>, below: Option<Oid>, limit: Limit, docs: seq<Oid>)
    requires var all := Descending(Selected(matching, below));
             docs == if |all| > limit + 1 then all[..limit + 1] else all
    ensures Cut(docs, limit) == PageOf(matching, below, limit)
  {
    var all := Descending(Selected(matching, below));
    if |all| > limit + 1 {
      OneExtraSuffices(all, limit, limit + 1);
    }
  }

  lemma PageRows(rows: Rows, matcher: Matcher, query: string, below: Option<Oid>, limit: Limit)
    ensures var ids := PageOf(MatchingIds(rows, matcher, query), below, limit).ids;
            forall i | 0 <= i < |ids| :: ids[i] in rows
  {
    PageFacts(MatchingIds(rows, matcher, query), below, limit);
  }

  /** The cursor a page hands out, given back, selects the rows below that page: string cursors walk like ids. */
  lemma CursorRoundTrip(rows: Rows, matcher: Matcher, q: ListQuery, cursor: Option<Oid>)
    requires q.limit >= 1 && forall x <- rows :: x < ObjectId.Limit()
    ensures CursorOf(PageFor(rows, matcher, q, cursor).nextCursor) ==
            Ok(PageOf(MatchingIds(rows, matcher, q.query), cursor, q.limit).next)
  {
    var page := PageOf(MatchingIds(rows, matcher, q.query), cursor, q.limit);
    PageFacts(MatchingIds(rows, matcher, q.query), cursor, q.limit);
    if page.next.Some? {
      ObjectId.ParsePrint(page.next.value);
    }
  }

  lemma DescendingHead(ids: set<Oid>, m: Oid)
    requires m in ids && forall x <- ids :: x <= m
    ensures Descending(ids) == [m] + Descending(ids - {m})
  {
  }
}
