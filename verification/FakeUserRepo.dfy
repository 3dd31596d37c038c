/**
 The in-memory double of the user repository: users on the heap under two maps, one by id and one by email,
 updated in place. The two maps stay each other's inverse, and every operation does to the rows what the
 collection's command does.
 */
module FakeUserRepo {
  import opened Wrappers
  import opened Errors
  import opened Text
  import opened Positional
  import opened UserDomain
  import opened Listing
  import opened Finite
  import opened UserStore
  import ObjectId

  function HasPrefix(s: string, t: string): bool {
    |t| <= |s| && s[..|t|] == t
  }

  /** strings.Contains. */
  function Contains(s: string, t: string): bool {
    HasPrefix(s, t) || (s != [] && Contains(s[1..], t))
  }

  /** Search in memory: case is ignored in the name, and the stored email is lowercase already. */
  function FakeMatch(query: string, row: Row): bool {
    Contains(ToLower(row.name), ToLower(query)) || Contains(row.email, ToLower(query))
  }

  /** t stands somewhere in s, whole. */
  ghost predicate Within(s: string, t: string) {
    exists before, after :: s == before + t + after
  }

  lemma {:induction false} ContainsWithin(before: string, t: string, after: string)
    ensures Contains(before + t + after, t)
    decreases |before|
  {
    var s := before + t + after;
    if before == [] {
      assert s[..|t|] == t;
    } else {
      assert s[1..] == before[1..] + t + after;
      ContainsWithin(before[1..], t, after);
    }
  }

  lemma {:induction false} ContainsExactly(s: string, t: string)
    ensures Contains(s, t) <==> Within(s, t)
    decreases |s|
  {
    if HasPrefix(s, t) {
      assert s == [] + t + s[|t|..];
    } else if Contains(s, t) {
      ContainsExactly(s[1..], t);
      WithinLonger(s, t);
    } else if before, after :| s == before + t + after {
      ContainsWithin(before, t, after);
    }
  }

  lemma WithinLonger(s: string, t: string)
    requires s != [] && Within(s[1..], t)
    ensures Within(s, t)
  {
    var before, after :| s[1..] == before + t + after;
    assert s == ([s[0]] + before) + t + after;
  }

  /** A row matches when the query stands in its name, or in its email, in whatever case. */
  lemma FakeMatchExactly(query: string, row: Row, q: string, name: string)
    requires LowerOf(query, q) && LowerOf(row.name, name)
    ensures FakeMatch(query, row) <==> Within(name, q) || Within(row.email, q)
  {
    ToLowerIs(query, q);
    ToLowerIs(row.name, name);
    ContainsExactly(name, q);
    ContainsExactly(row.email, q);
  }

  type View = map<string, Row>

  function IdOf(k: string): Oid {
    match ObjectId.Parse(k)
    case Some(x) => x
    case None => 0
  }

  ghost predicate Printed(view: View) {
    forall k <- view :: ObjectId.Canonical(k)
  }

  /** The same rows by number: the collection a view keyed by printed ids stands for. */
  ghost function ByOid(view: View): Rows {
    map x | x in (set k | k in view :: IdOf(k)) && ObjectId.Print(x) in view :: view[ObjectId.Print(x)]
  }

  /** Printed ids are a faithful naming of the rows. */
  lemma ByOidAt(view: View, k: string)
    requires Printed(view) && ObjectId.Canonical(k)
    ensures k in view <==> IdOf(k) in ByOid(view)
    ensures k in view ==> ByOid(view)[IdOf(k)] == view[k]
    ensures ObjectId.Print(IdOf(k)) == k
  {
    ObjectId.PrintParse(k);
    if IdOf(k) in ByOid(view) {
      assert ObjectId.Print(IdOf(k)) in view;
    }
  }

  lemma ByOidPrinted(view: View, x: Oid)
    requires Printed(view) && x in ByOid(view)
    ensures ObjectId.Canonical(ObjectId.Print(x)) && IdOf(ObjectId.Print(x)) == x && ObjectId.Print(x) in view
  {
    var k :| k in view && IdOf(k) == x;
    ObjectId.PrintParse(k);
  }

  lemma ByOidUpdate(view: View, k: string, row: Row)
    requires Printed(view) && ObjectId.Canonical(k)
    ensures ByOid(view[k := row]) == ByOid(view)[IdOf(k) := row]
  {
    var after := view[k := row];
    ObjectId.PrintParse(k);
    forall x ensures x in ByOid(after) <==> x in ByOid(view)[IdOf(k) := row] {
      if x in ByOid(after) {
        ByOidPrinted(after, x);
        var j := ObjectId.Print(x);
        if j != k { ByOidAt(view, j); }
      }
      if x in ByOid(view) {
        ByOidPrinted(view, x);
        ByOidAt(after, ObjectId.Print(x));
      }
      ByOidAt(after, k);
    }
    forall x <- ByOid(after) ensures ByOid(after)[x] == ByOid(view)[IdOf(k) := row][x] {
      ByOidPrinted(after, x);
      if x != IdOf(k) { ByOidAt(view, ObjectId.Print(x)); }
    }
  }

  lemma RemovedKey(view: View, k: string, x: Oid)
    requires Printed(view) && ObjectId.Canonical(k)
    ensures x in ByOid(view - {k}) <==> x in ByOid(view) && x != IdOf(k)
    ensures x in ByOid(view - {k}) ==> ByOid(view - {k})[x] == ByOid(view)[x]
  {
    var after := view - {k};
    ObjectId.PrintParse(k);
    if x in ByOid(after) {
      ByOidPrinted(after, x);
      ByOidAt(view, ObjectId.Print(x));
    }
    if x in ByOid(view) && x != IdOf(k) {
      ByOidPrinted(view, x);
      ByOidAt(after, ObjectId.Print(x));
    }
  }

  lemma ByOidRemove(view: View, k: string)
    requires Printed(view) && ObjectId.Canonical(k)
    ensures ByOid(view - {k}) == ByOid(view) - {IdOf(k)}
  {
    forall x ensures x in ByOid(view - {k}) <==> x in ByOid(view) - {IdOf(k)} {
      RemovedKey(view, k, x);
    }
    forall x <- ByOid(view - {k}) ensures ByOid(view - {k})[x] == ByOid(view)[x] {
      RemovedKey(view, k, x);
    }
  }

  /** A row has the email by number exactly when one has it by string. */
  lemma ByOidTaken(view: View, email: string, self: Option<string>)
    requires Printed(view) && (self.Some? ==> ObjectId.Canonical(self.value))
    ensures Taken(ByOid(view), email, if self.None? then None else Some(IdOf(self.value))) <==>
            exists k <- view :: view[k].email == email && Some(k) != self
  {
    var selfId := if self.None? then None else Some(IdOf(self.value));
    if Taken(ByOid(view), email, selfId) {
      var x :| x in ByOid(view) && ByOid(view)[x].email == email && Some(x) != selfId;
      ByOidPrinted(view, x);
      ByOidAt(view, ObjectId.Print(x));
    }
    if k :| k in view && view[k].email == email && Some(k) != self {
      ByOidAt(view, k);
      if self.Some? {
        ObjectId.PrintParse(self.value);
      }
    }
  }

  // ---- what the double does, on rows keyed by id string ----

  predicate EmailIn(view: View, email: string, self: Option<string>) {
    exists k <- view :: view[k].email == email && Some(k) != self
  }

  datatype Outcome<T> = Outcome(view: View, reply: Result<T, Error>)

  function CreateIn(view: View, id: string, row: Row): Outcome<string> {
    if EmailIn(view, row.email, None) then Outcome(view, Err(EMAIL_TAKEN)) else Outcome(view[id := row], Ok(id))
  }

  function UpdateIn(view: View, id: string, p: Patch): Outcome<Row> {
    if id !in view then Outcome(view, Err(NOT_FOUND))
    else if p.email.Some? && EmailIn(view, p.email.value, Some(id)) then Outcome(view, Err(EMAIL_TAKEN))
    else Outcome(view[id := Apply(view[id], p)], Ok(Apply(view[id], p)))
  }

  function DeleteIn(view: View, id: string): Outcome<()> {
    if id !in view then Outcome(view, Err(NOT_FOUND)) else Outcome(view - {id}, Ok(()))
  }

  /** On printed ids, the double does what the collection does under a command that meets no fault. */
  lemma CreateAgrees(view: View, n: Oid, row: Row)
    requires Printed(view) && n < ObjectId.Limit()
    ensures var e := InsertRow(ByOid(view), n, row, NoFault);
      var o := CreateIn(view, ObjectId.Print(n), row);
      ByOid(o.view) == e.rows && o.reply == (if e.reply.Ok? then Ok(ObjectId.Print(e.reply.value)) else Err(e.reply.error))
  {
    ObjectId.ParsePrint(n);
    ByOidTaken(view, row.email, None);
    ByOidUpdate(view, ObjectId.Print(n), row);
  }

  /** The updated row is the collection's; the repository hides its hash before answering, the double does not. */
  lemma UpdateAgrees(view: View, id: string, p: Patch)
    requires Printed(view) && ObjectId.Canonical(id)
    ensures var e := UpdateRow(ByOid(view), IdOf(id), p, NoFault);
      var o := UpdateIn(view, id, p);
      ByOid(o.view) == e.rows && o.reply == e.reply
    ensures var answer, reply := UpdateAnswer(ByOid(view), id, p, NoFault), UpdateIn(view, id, p).reply;
      answer == HiddenReply(reply) && (answer == reply <==> reply.Err? || reply.value.passwordHash == "")
  {
    ObjectId.PrintParse(id);
    ByOidAt(view, id);
    if id in view {
      ByOidUpdate(view, id, Apply(view[id], p));
    }
    if p.email.Some? {
      ByOidTaken(view, p.email.value, Some(id));
    }
  }

  lemma DeleteAgrees(view: View, id: string)
    requires Printed(view) && ObjectId.Canonical(id)
    ensures var e := RemoveRow(ByOid(view), IdOf(id), NoFault);
      var o := DeleteIn(view, id);
      ByOid(o.view) == e.rows && o.reply == e.reply
  {
    ByOidAt(view, id);
    ByOidRemove(view, id);
  }

  function FindIn(view: View, id: string): Result<Row, Error> {
    if id in view then Ok(view[id]) else Err(NOT_FOUND)
  }

  /** Reading by a printed id gives the same row but for the hash, so the same answer exactly where there is none. */
  lemma FindsAgree(view: View, id: string)
    requires Printed(view) && ObjectId.Canonical(id)
    ensures var answer, found := FindAnswer(ByOid(view), id, NoFault), FindIn(view, id);
      answer == HiddenReply(found) && (answer == found <==> found.Err? || found.value.passwordHash == "")
  {
    ObjectId.PrintParse(id);
    ByOidAt(view, id);
  }

  /** The double answers a Delete as the repository does, whatever the rows, exactly for ids as they are printed. */
  lemma AgreeIffCanonical(id: string)
    ensures (forall view | Printed(view) :: DeleteIn(view, id).reply == DeleteAnswer(ByOid(view), id, NoFault)) <==>
            ObjectId.Canonical(id)
  {
    if ObjectId.Canonical(id) {
      ObjectId.PrintParse(id);
      forall view | Printed(view) ensures DeleteIn(view, id).reply == DeleteAnswer(ByOid(view), id, NoFault) {
        DeleteAgrees(view, id);
      }
    } else {
      var view: View := if ObjectId.Parse(id).None? then map[] else map[ToLower(id) := Row("", "", "", 0, 0)];
      if ObjectId.Parse(id).Some? {
        ObjectId.ParsesAsLower(id);
        ByOidAt(view, ToLower(id));
      }
      assert Printed(view) && DeleteIn(view, id).reply != DeleteAnswer(ByOid(view), id, NoFault);
    }
  }

  lemma PrintsDiffer(a: Oid, b: Oid)
    requires a < b < ObjectId.Limit()
    ensures ObjectId.Print(a) != ObjectId.Print(b)
  {
    ObjectId.PrintOrder(a, b);
  }

  /** The rows a List considers, in string terms: the cursor is compared as a string. */
  function Listed(view: View, q: ListQuery): set<string> {
    set k | k in view && IsListed(q, k, view[k])
  }

  predicate IsListed(q: ListQuery, k: string, row: Row) {
    (q.cursor == "" || Before(k, q.cursor)) && Matches(FakeMatch, q.query, row)
  }

  ghost function Numbers(keys: set<string>): set<Oid> {
    set k | k in keys :: IdOf(k)
  }

  /** Canonical strings compare as their ids do. */
  lemma SameOrder(j: string, k: string)
    requires ObjectId.Canonical(j)
    ensures ObjectId.Canonical(k) ==> (Before(j, k) <==> IdOf(j) < IdOf(k)) && (j == k <==> IdOf(j) == IdOf(k))
  {
    if ObjectId.Canonical(k) {
      ObjectId.PrintParse(j);
      ObjectId.PrintParse(k);
      ObjectId.PrintOrder(IdOf(j), IdOf(k));
    }
  }

  lemma ListedAt(view: View, q: ListQuery, k: string)
    requires Printed(view) && k in view && (q.cursor == "" || ObjectId.Canonical(q.cursor))
    ensures CursorOf(q.cursor).Ok?
    ensures k in Listed(view, q) <==>
            IdOf(k) in Selected(MatchingIds(ByOid(view), FakeMatch, q.query), CursorOf(q.cursor).value)
  {
    if q.cursor != "" {
      ObjectId.PrintParse(q.cursor);
    }
    ByOidAt(view, k);
    SameOrder(k, q.cursor);
  }

  /** For a printed cursor, comparing strings selects the rows that comparing ids would. */
  lemma ListedIsSelected(view: View, q: ListQuery)
    requires Printed(view) && (q.cursor == "" || ObjectId.Canonical(q.cursor))
    ensures CursorOf(q.cursor).Ok?
    ensures Numbers(Listed(view, q)) == Selected(MatchingIds(ByOid(view), FakeMatch, q.query), CursorOf(q.cursor).value)
  {
    if q.cursor != "" {
      ObjectId.PrintParse(q.cursor);
    }
    ghost var selected := Selected(MatchingIds(ByOid(view), FakeMatch, q.query), CursorOf(q.cursor).value);
    forall k <- Listed(view, q) ensures IdOf(k) in selected {
      ListedAt(view, q, k);
    }
    forall x <- selected ensures x in Numbers(Listed(view, q)) {
      assert x in ByOid(view);
      ByOidPrinted(view, x);
      ListedAt(view, q, ObjectId.Print(x));
    }
  }

  predicate Latest(keys: set<string>, k: string) {
    k in keys && forall j <- keys :: j == k || Before(j, k)
  }

  /** Sorting picks the newest first: its id heads the descending order, and the rest follow. */
  lemma LatestHeads(keys: set<string>, k: string)
    requires (forall j <- keys :: ObjectId.Canonical(j)) && Latest(keys, k)
    ensures Descending(Numbers(keys)) == [IdOf(k)] + Descending(Numbers(keys - {k}))
  {
    forall x | x in Numbers(keys) ensures x <= IdOf(k) {
      var j :| j in keys && IdOf(j) == x;
      SameOrder(j, k);
    }
    forall j | j in keys && j != k ensures IdOf(j) != IdOf(k) {
      SameOrder(j, k);
    }
    assert Numbers(keys - {k}) == Numbers(keys) - {IdOf(k)};
    DescendingHead(Numbers(keys), IdOf(k));
  }

  lemma HasLatest(keys: set<string>)
    requires (forall j <- keys :: ObjectId.Canonical(j)) && keys != {}
    ensures exists k :: Latest(keys, k)
  {
    var some :| some in keys;
    assert IdOf(some) in Numbers(keys);
    HasMaximum(Numbers(keys));
    var m :| m in Numbers(keys) && forall x <- Numbers(keys) :: x <= m;
    var k :| k in keys && IdOf(k) == m;
    forall j | j in keys ensures j == k || Before(j, k) {
      assert IdOf(j) in Numbers(keys);
      SameOrder(j, k);
    }
    assert Latest(keys, k);
  }

  lemma ListedInRows(view: View, keys: set<string>)
    requires Printed(view) && keys <= view.Keys
    ensures var all := Descending(Numbers(keys));
      |all| == |keys| && forall i | 0 <= i < |all| :: all[i] in ByOid(view) && ObjectId.Print(all[i]) in keys
  {
    var all := Descending(Numbers(keys));
    DescendingFacts(Numbers(keys));
    forall i | 0 <= i < |all| ensures all[i] in ByOid(view) && ObjectId.Print(all[i]) in keys {
      assert all[i] in Numbers(keys);
      var k :| k in keys && IdOf(k) == all[i];
      ByOidAt(view, k);
    }
    NumbersCount(keys);
  }

  lemma NumbersCount(keys: set<string>)
    requires forall j <- keys :: ObjectId.Canonical(j)
    ensures |Numbers(keys)| == |keys|
  {
    var m := map k | k in keys :: IdOf(k);
    forall j, k | j in m && k in m && m[j] == m[k] ensures j == k {
      SameOrder(j, k);
    }
    InjectiveValues(m);
    assert m.Keys == keys && m.Values == Numbers(keys);
  }

  /** The rows under these keys, newest first. */
  ghost function NewestFirst(view: View, keys: set<string>): seq<Found>
    requires Printed(view) && keys <= view.Keys
  {
    ListedInRows(view, keys);
    Render(ByOid(view), Descending(Numbers(keys)))
  }

  lemma NewestFirstStep(view: View, keys: set<string>, k: string)
    requires Printed(view) && keys <= view.Keys && Latest(keys, k)
    ensures NewestFirst(view, keys) == [Found(k, view[k])] + NewestFirst(view, keys - {k})
  {
    ListedInRows(view, keys);
    ListedInRows(view, keys - {k});
    LatestHeads(keys, k);
    ByOidAt(view, k);
  }

  /** The double's answer to a List: the selected rows, newest first, cut at the limit. */
  ghost function StringPage(view: View, q: ListQuery): UserPage
    requires Printed(view) && q.limit >= 1
  {
    CutUsers(NewestFirst(view, Listed(view, q)), q.limit)
  }

  function CutUsers(users: seq<Found>, limit: Limit): UserPage {
    if |users| > limit then UserPage(users[..limit], 0, users[limit - 1].id) else UserPage(users, 0, "")
  }

  /** Sort by id: pick the latest until none is left. */
  method SortNewestFirst(ghost view: View, matches: map<string, Row>) returns (users: seq<Found>)
    requires Printed(view) && forall k <- matches :: k in view && matches[k] == view[k]
    ensures users == NewestFirst(view, matches.Keys)
  {
    users := [];
    var left := matches.Keys;
    while left != {}
      invariant left <= matches.Keys
      invariant NewestFirst(view, matches.Keys) == users + NewestFirst(view, left)
      decreases left
    {
      HasLatest(left);
      var k :| Latest(left, k);
      NewestFirstStep(view, left, k);
      users := users + [Found(k, matches[k])];
      left := left - {k};
    }
  }

  /** Cutting the rows of a page, or rendering the cut ids, is the same. */
  lemma CutRendered(rows: Rows, all: seq<Oid>, limit: Limit)
    requires forall i | 0 <= i < |all| :: all[i] in rows
    ensures var users, page := Render(rows, all), Cut(all, limit);
      && (forall i | 0 <= i < |page.ids| :: page.ids[i] in rows)
      && Render(rows, page.ids) == (if |users| > limit then users[..limit] else users)
      && (page.next.Some? <==> |users| > limit)
      && (page.next.Some? ==> ObjectId.Print(page.next.value) == users[limit - 1].id)
  {
  }

  /**
   For no cursor, and for every cursor a page hands out, both show the same users in the same order and hand out
   the same cursor: string comparison agrees with the order of the ids. The repository hides the password hashes and
   the double does not, so the pages are equal if and only if no user on them has one.
   */
  lemma ListsAgree(view: View, q: ListQuery)
    requires Printed(view) && q.limit >= 1 && (q.cursor == "" || ObjectId.Canonical(q.cursor))
    ensures CursorOf(q.cursor).Ok?
    ensures var ours, theirs := StringPage(view, q), Redact(PageFor(ByOid(view), FakeMatch, q, CursorOf(q.cursor).value));
      && Redact(ours) == theirs
      && (ours == theirs <==> forall i | 0 <= i < |ours.users| :: ours.users[i].row.passwordHash == "")
  {
    StringPageIsPage(view, q);
    RedactedIff(StringPage(view, q));
  }

  /** Hiding the hashes changes a page exactly where there are any. */
  lemma RedactedIff(page: UserPage)
    ensures page == Redact(page) <==> forall i | 0 <= i < |page.users| :: page.users[i].row.passwordHash == ""
  {
    if forall i | 0 <= i < |page.users| :: page.users[i].row.passwordHash == "" {
      assert Redact(page).users == page.users;
    } else {
      var i :| 0 <= i < |page.users| && page.users[i].row.passwordHash != "";
      assert Redact(page).users[i] != page.users[i];
    }
  }

  lemma StringPageIsPage(view: View, q: ListQuery)
    requires Printed(view) && q.limit >= 1 && (q.cursor == "" || ObjectId.Canonical(q.cursor))
    ensures CursorOf(q.cursor).Ok?
    ensures StringPage(view, q) == PageFor(ByOid(view), FakeMatch, q, CursorOf(q.cursor).value)
  {
    ListedIsSelected(view, q);
    ListedInRows(view, Listed(view, q));
    CutRendered(ByOid(view), Descending(Numbers(Listed(view, q))), q.limit);
    PageRows(ByOid(view), FakeMatch, q.query, CursorOf(q.cursor).value, q.limit);
  }

  /** A list of everything wanted, newest first, cut at the limit, is the page. */
  lemma CutShows(view: View, q: ListQuery, users: seq<Found>)
    requires q.limit >= 1
    requires forall i, j | 0 <= i < j < |users| :: Before(users[j].id, users[i].id)
    requires forall i | 0 <= i < |users| :: users[i].id in view && users[i].row == view[users[i].id]
    requires forall k <- view :: ShowsId(users, k) <==> k in Listed(view, q)
    ensures PageShows(view, false, FakeMatch, q.query, q.cursor, q.limit, CutUsers(users, q.limit))
  {
    var page := CutUsers(users, q.limit);
    forall k <- view
      ensures ShowsId(page.users, k) <==> k in Listed(view, q) && (page.nextCursor == "" || !Before(k, page.nextCursor))
    {
      CutAtId(users, q.limit, k);
    }
    if |users| > q.limit {
      var k := users[q.limit].id;
      assert ShowsId(users, k);
      assert Before(k, users[q.limit - 1].id);
    }
  }

  /** Who is on the page, of those on the list. */
  lemma CutAtId(users: seq<Found>, limit: Limit, k: string)
    requires forall i, j | 0 <= i < j < |users| :: Before(users[j].id, users[i].id)
    ensures var page := CutUsers(users, limit);
      ShowsId(page.users, k) <==> ShowsId(users, k) && (page.nextCursor == "" || !Before(k, page.nextCursor))
  {
    var page := CutUsers(users, limit);
    if |users| > limit {
      assert Before(users[limit].id, page.nextCursor);
      if i :| 0 <= i < |users| && users[i].id == k {
        BeforeAsymmetric(k, page.nextCursor);
        assert i < limit ==> page.users[i].id == k;
        assert i > limit - 1 ==> Before(users[i].id, page.nextCursor);
      }
      if i :| 0 <= i < limit && page.users[i].id == k {
        BeforeAsymmetric(k, page.nextCursor);
        assert users[i].id == k;
      }
      UniqueOnPage(users, limit, k);
    }
  }

  /** An id stands on one side of the cut only. */
  lemma UniqueOnPage(users: seq<Found>, limit: Limit, k: string)
    requires |users| > limit && forall i, j | 0 <= i < j < |users| :: Before(users[j].id, users[i].id)
    ensures forall i | 0 <= i < |users| && users[i].id == k :: i < limit <==> !Before(k, users[limit - 1].id)
  {
    BeforeAsymmetric(k, users[limit - 1].id);
  }

  /** For every cursor whatever, the double's page shows what a page should, in string terms. */
  lemma StringPageShows(view: View, q: ListQuery)
    requires Printed(view) && q.limit >= 1
    ensures PageShows(view, false, FakeMatch, q.query, q.cursor, q.limit, StringPage(view, q))
  {
    var users, keys := NewestFirst(view, Listed(view, q)), Listed(view, q);
    NewestFirstFacts(view, keys);
    CutShows(view, q, users);
  }

  lemma NewestFirstFacts(view: View, keys: set<string>)
    requires Printed(view) && keys <= view.Keys
    ensures var users := NewestFirst(view, keys);
      && (forall i, j | 0 <= i < j < |users| :: Before(users[j].id, users[i].id))
      && (forall i | 0 <= i < |users| :: users[i].id in view && users[i].row == view[users[i].id])
      && (forall k <- view :: ShowsId(users, k) <==> k in keys)
  {
    var all, users := Descending(Numbers(keys)), NewestFirst(view, keys);
    ListedInRows(view, keys);
    DescendingFacts(Numbers(keys));
    forall i | 0 <= i < |users| ensures users[i].id in keys && users[i].row == view[users[i].id] && all[i] == IdOf(users[i].id) {
      ByOidPrinted(view, all[i]);
      ByOidAt(view, users[i].id);
    }
    forall i, j | 0 <= i < j < |users| ensures Before(users[j].id, users[i].id) {
      SameOrder(users[j].id, users[i].id);
    }
    forall k | k in keys ensures ShowsId(users, k) {
      assert IdOf(k) in all;
      var i :| 0 <= i < |all| && all[i] == IdOf(k);
      SameOrder(users[i].id, k);
    }
  }

  // ---- the two maps ----

  /**
   The maps hold the same users: each row's email leads to the user stored under the row's id, each email belongs
   to a row, and no user is stored twice.
   */
  ghost predicate Inverse(view: View, byId: map<string, User>, byEmail: map<string, User>) {
    && view.Keys == byId.Keys
    && (forall k {:trigger view[k]} | k in view :: view[k].email in byEmail && byEmail[view[k].email] == byId[k])
    && (forall e {:trigger byEmail[e]} | e in byEmail :: exists k <- view :: view[k].email == e && byId[k] == byEmail[e])
    && (forall j, k {:trigger byId[j], byId[k]} | j in byId && k in byId && byId[j] == byId[k] :: j == k)
  }

  lemma InverseLink(view: View, byId: map<string, User>, byEmail: map<string, User>, id: string, u: User, row: Row)
    requires Inverse(view, byId, byEmail) && id !in byId && u !in byId.Values && row.email !in byEmail
    ensures Inverse(view[id := row], byId[id := u], byEmail[row.email := u])
  {
    var view', byId', byEmail' := view[id := row], byId[id := u], byEmail[row.email := u];
    forall e | e in byEmail' ensures exists k <- view' :: view'[k].email == e && byId'[k] == byEmail'[e] {
      if e == row.email {
        assert view'[id].email == e;
      } else {
        var k :| k in view && view[k].email == e && byId[k] == byEmail[e];
        assert view'[k].email == e;
      }
    }
  }

  /** A new row for a stored user, its email free or the user's own: the index entry moves with it. */
  lemma InverseMove(view: View, byId: map<string, User>, byEmail: map<string, User>, id: string, row: Row)
    requires Inverse(view, byId, byEmail) && id in view
    requires row.email in byEmail ==> byEmail[row.email] == byId[id]
    ensures Inverse(view[id := row], byId, (byEmail - {view[id].email})[row.email := byId[id]])
  {
    var view', byEmail' := view[id := row], (byEmail - {view[id].email})[row.email := byId[id]];
    forall e | e in byEmail' ensures exists k <- view' :: view'[k].email == e && byId[k] == byEmail'[e] {
      if e == row.email {
        assert view'[id].email == e;
      } else {
        var k :| k in view && view[k].email == e && byId[k] == byEmail[e];
        assert view'[k].email == e;
      }
    }
  }

  lemma PutBack<T>(m: map<string, T>, k: string)
    requires k in m
    ensures (m - {k})[k := m[k]] == m
  {
  }

  lemma InverseDrop(view: View, byId: map<string, User>, byEmail: map<string, User>, id: string)
    requires Inverse(view, byId, byEmail) && id in view
    ensures Inverse(view - {id}, byId - {id}, byEmail - {view[id].email})
  {
    var view', byId', byEmail' := view - {id}, byId - {id}, byEmail - {view[id].email};
    forall e | e in byEmail' ensures exists k <- view' :: view'[k].email == e && byId'[k] == byEmail'[e] {
      var k :| k in view && view[k].email == e && byId[k] == byEmail[e];
      assert view'[k].email == e;
    }
  }

  method Paged(users: seq<Found>, limit: int) returns (page: UserPage)
    requires limit >= 1
    ensures page == CutUsers(users, limit)
  {
    page := UserPage(users, 0, "");
    if |users| > limit {
      page := page.(users := users[..limit]);
      page := page.(nextCursor := page.users[|page.users| - 1].id);
    }
  }

  class FakeRepo {
    var sequence: nat
    var byId: map<string, User>
    var byEmail: map<string, User>
    var createErr: Option<Error>
    /** The rows of the stored users, by id, and every id the sequence has handed out. */
    ghost var view: View
    ghost var issued: seq<string>

    constructor ()
      ensures Valid() && view == map[] && createErr == None && sequence == 0
    {
      sequence := 0;
      byId := map[];
      byEmail := map[];
      createErr := None;
      view := map[];
      issued := [];
    }

    /** The user stored under k carries the id k and the row k of the view. */
    ghost predicate Stored(k: string)
      requires k in byId
      reads this, byId[k]
    {
      byId[k].id == k && k in view && byId[k].AsRow() == view[k] && k in issued
    }

    ghost predicate Linked()
      reads this, byId.Values
    {
      (forall k {:trigger Stored(k)} | k in byId :: Stored(k)) && Inverse(view, byId, byEmail)
    }

    ghost predicate Numbered()
      reads this
    {
      && |issued| == sequence < ObjectId.Limit()
      && (forall n {:trigger ObjectId.Print(n)} | 1 <= n <= sequence :: issued[n - 1] == ObjectId.Print(n))
    }

    ghost predicate Valid()
      reads this, byId.Values
    {
      Linked() && Numbered()
    }

    lemma IdsArePrinted()
      requires Valid()
      ensures Printed(view)
    {
      forall k <- view ensures ObjectId.Canonical(k) {
        assert Stored(k);
        var i :| 0 <= i < |issued| && issued[i] == k;
        ObjectId.ParsePrint(i + 1);
      }
    }

    lemma NextIsNew()
      requires Numbered() && sequence + 1 < ObjectId.Limit()
      ensures ObjectId.Print(sequence + 1) !in issued
    {
      forall i | 0 <= i < |issued| ensures issued[i] != ObjectId.Print(sequence + 1) {
        PrintsDiffer(i + 1, sequence + 1);
      }
    }

    /** The index leads from an email to a stored user with that email. */
    lemma Indexed(email: string)
      requires Linked() && email in byEmail
      ensures var k := byEmail[email].id; k in byId && byId[k] == byEmail[email] && view[k].email == email && Stored(k)
    {
      var k :| k in view && view[k].email == email && byId[k] == byEmail[email];
      assert Stored(k);
    }

    /** The index decides about emails just as a scan of the rows would. */
    lemma IndexIsScan(email: string, self: Option<string>)
      requires Linked()
      ensures EmailIn(view, email, self) <==> email in byEmail && Some(byEmail[email].id) != self
    {
      if EmailIn(view, email, self) {
        var k :| k in view && view[k].email == email && Some(k) != self;
        assert Stored(k);
      }
      if email in byEmail {
        Indexed(email);
      }
    }

    /** A stored user's email is in the index. */
    lemma NotStored(u: User)
      requires Linked() && u.email !in byEmail
      ensures u !in byId.Values
    {
      forall k <- byId ensures byId[k] != u {
        assert Stored(k);
      }
    }

    /** The user itself is kept, under a new id: the caller hands it over and must not keep changing it. */
    method Create(u: User) returns (err: Option<Error>)
      requires Valid() && sequence + 1 < ObjectId.Limit()
      modifies this, u`id
      ensures Valid() && createErr == old(createErr)
      ensures old(createErr).Some? ==>
        err == createErr && view == old(view) && byId == old(byId) && u.id == old(u.id) && sequence == old(sequence)
      ensures old(createErr).None? ==>
        var o := CreateIn(old(view), ObjectId.Print(old(sequence) + 1), u.AsRow());
        && view == o.view
        && (match o.reply
            case Ok(id) => err == None && u.id == id && byId == old(byId)[id := u] && sequence == old(sequence) + 1
            case Err(e) => err == Some(e) && u.id == old(u.id) && byId == old(byId) && sequence == old(sequence))
    {
      if createErr.Some? {
        return createErr;
      }
      IndexIsScan(u.email, None);
      if u.email in byEmail {
        return Some(EMAIL_TAKEN);
      }
      NotStored(u);
      Add(u);
      err := None;
    }

    /** Store a user whose email is free under the next id. */
    method Add(u: User)
      requires Valid() && u !in byId.Values && u.email !in byEmail && sequence + 1 < ObjectId.Limit()
      modifies this, u`id
      ensures Valid() && createErr == old(createErr) && sequence == old(sequence) + 1
      ensures u.id == ObjectId.Print(sequence) && byId == old(byId)[u.id := u] && view == old(view)[u.id := u.AsRow()]
    {
      NextIsNew();
      sequence := sequence + 1;
      forall k | k in byId ensures Stored(k) {
        assert old(Stored(k));
      }
      Link(u, ObjectId.Print(sequence));
    }

    /** Give the user its id and enter it in both maps. */
    method Link(u: User, id: string)
      requires Linked() && u !in byId.Values && u.email !in byEmail && id !in issued
      modifies this`byId, this`byEmail, this`view, this`issued, u`id
      ensures Linked() && issued == old(issued) + [id] && view == old(view)[id := u.AsRow()]
      ensures u.id == id && byId == old(byId)[id := u]
    {
      assert id in byId ==> Stored(id);
      ghost var row := u.AsRow();
      ghost var view' := view[id := row];
      var byId', byEmail' := byId[id := u], byEmail[u.email := u];
      InverseLink(view, byId, byEmail, id, u, row);
      u.id := id;
      assert u.AsRow() == row;
      issued := issued + [id];
      byId, byEmail, view := byId', byEmail', view';
      forall k | k in byId ensures Stored(k) {
        if k == id {
          assert byId[k] == u;
        } else {
          assert old(Stored(k));
        }
      }
    }

    method FindByID(id: string) returns (r: Result<User, Error>)
      requires Valid()
      ensures match FindIn(view, id)
              case Ok(row) => r.Ok? && fresh(r.value) && r.value.id == id && r.value.AsRow() == row
              case Err(e) => r == Err(e)
      ensures if id in view then r.Ok? && r.value.AsRow() == view[id] else r == Err(Sentinel(Kind.NotFound))
    {
      if id !in byId {
        return Err(NOT_FOUND);
      }
      assert Stored(id);
      var clone := new User.Hydrate(byId[id].id, byId[id].AsRow());
      r := Ok(clone);
    }

    method FindByEmail(email: string) returns (r: Result<User, Error>)
      requires Valid()
      ensures match r
              case Ok(u) => fresh(u) && u.id in view && view[u.id] == u.AsRow() && u.email == email
              case Err(e) => e == NOT_FOUND && !EmailIn(view, email, None)
    {
      IndexIsScan(email, None);
      if email !in byEmail {
        return Err(NOT_FOUND);
      }
      Indexed(email);
      var clone := new User.Hydrate(byEmail[email].id, byEmail[email].AsRow());
      r := Ok(clone);
    }

    /** The stored user is changed in place, and the email index follows. */
    method Update(id: string, p: Patch) returns (r: Result<Row, Error>)
      requires Valid()
      modifies this`byEmail, this`view, if id in byId then {byId[id]} else {}
      ensures Valid()
      ensures var o := UpdateIn(old(view), id, p); view == o.view && r == o.reply
      ensures id !in old(view) ==> r == Err(Sentinel(Kind.NotFound)) && view == old(view)
    {
      if id !in byId {
        return Err(NOT_FOUND);
      }
      var u := byId[id];
      assert Stored(id);
      if p.email.Some? {
        IndexIsScan(p.email.value, Some(id));
        if p.email.value in byEmail && byEmail[p.email.value].id != id {
          return Err(EMAIL_TAKEN);
        }
        if p.email.value in byEmail {
          Indexed(p.email.value);
        }
      }
      Change(u, p);
      r := Ok(u.AsRow());
    }

    /** Apply a patch whose email is free, or the user's own, to a stored user. */
    method Change(u: User, p: Patch)
      requires Linked() && u.id in byId && byId[u.id] == u
      requires p.email.Some? && p.email.value in byEmail ==> byEmail[p.email.value] == u
      modifies this`byEmail, this`view, u
      ensures Linked()
      ensures u.id == old(u.id)
      ensures view == old(view)[u.id := u.AsRow()] && u.AsRow() == Apply(old(u.AsRow()), p)
    {
      assert Stored(u.id);
      ghost var row := Apply(u.AsRow(), p);
      ghost var id, view' := u.id, view[u.id := row];
      InverseMove(view, byId, byEmail, id, row);
      Replace(u, p);
      view := view';
      forall k | k in byId ensures Stored(k) {
        assert old(Stored(k));
      }
    }

    /** Set the fields the patch names, and move the index entry with the email. */
    method Replace(u: User, p: Patch)
      requires u.email in byEmail && byEmail[u.email] == u
      modifies this`byEmail, u
      ensures u.id == old(u.id) && u.AsRow() == Apply(old(u.AsRow()), p)
      ensures byEmail == (old(byEmail) - {old(u.email)})[u.email := u]
    {
      if p.email.Some? {
        byEmail := byEmail - {u.email};
        u.email := p.email.value;
        byEmail := byEmail[u.email := u];
      } else {
        PutBack(byEmail, u.email);
      }
      if p.name.Some? {
        u.name := p.name.value;
      }
      u.updatedAt := p.updatedAt;
    }

    method Delete(id: string) returns (err: Option<Error>)
      requires Valid()
      modifies this`byId, this`byEmail, this`view
      ensures Valid()
      ensures var o := DeleteIn(old(view), id);
              view == o.view && err == (if o.reply.Ok? then None else Some(o.reply.error))
    {
      if id !in byId {
        return Some(NOT_FOUND);
      }
      var u := byId[id];
      assert Stored(id);
      InverseDrop(view, byId, byEmail, id);
      byId := byId - {id};
      byEmail := byEmail - {u.email};
      view := view - {id};
      err := None;
      forall k | k in byId ensures Stored(k) {
        assert old(Stored(k));
      }
    }

    method List(q: ListQuery) returns (page: UserPage)
      requires Valid() && q.limit >= 1
      ensures Printed(view) && page == StringPage(view, q)
      ensures PageShows(view, false, FakeMatch, q.query, q.cursor, q.limit, page)
    {
      IdsArePrinted();
      StringPageShows(view, q);
      var matches := Matching(q);
      var users := SortNewestFirst(view, matches);
      assert users == NewestFirst(view, Listed(view, q));
      page := Paged(users, q.limit);
    }

    /** One pass over the map, in no particular order, skipping what the cursor or the query rules out. */
    method Matching(q: ListQuery) returns (matches: map<string, Row>)
      requires Valid()
      ensures matches.Keys == Listed(view, q) && forall k <- matches :: k in view && matches[k] == view[k]
    {
      var query := ToLower(q.query);
      var rest := byId.Keys;
      matches := map[];
      while rest != {}
        invariant rest <= byId.Keys && matches.Keys == Listed(view, q) - rest
        invariant forall k <- matches :: k in view && matches[k] == view[k]
        decreases rest
      {
        var k :| k in rest;
        rest := rest - {k};
        assert Stored(k);
        var u := byId[k];
        assert k in Listed(view, q) <==> IsListed(q, u.id, u.AsRow());
        if q.cursor != "" && !Before(u.id, q.cursor) {
          continue;
        }
        if query != "" && !Contains(ToLower(u.name), query) && !Contains(u.email, query) {
          continue;
        }
        matches := matches[u.id := u.AsRow()];
      }
    }

    method Count() returns (n: nat)
      requires Valid()
      ensures n == |view|
    {
      n := |byId|;
    }
  }
}
