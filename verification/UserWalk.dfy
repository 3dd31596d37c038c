/**
 A client paging through the users with the cursor strings it is given, while other clients write. The client follows
 cursors against any server; the repository over changing rows is one whose answers are the pages of the keyset walk,
 so what Listing proves of ids holds of the users shown.
 */
module UserWalk {
  import opened Wrappers
  import opened Positional
  import opened UserStore
  import opened Listing
  import ObjectId

  /** What the k-th List of a walk answers, for each cursor. */
  type Server = (nat, Option<Oid>) -> UserPage

  /** Where the client goes on from: the cursor string, parsed back. */
  function Onward(page: UserPage): Option<Oid> {
    match CursorOf(page.nextCursor)
    case Ok(cursor) => cursor
    case Err(_) => None
  }

  ghost predicate Descends(list: Server) {
    forall k, c {:trigger list(k, c)} :: Onward(list(k, c)).Some? ==> Below(Onward(list(k, c)).value, c)
  }

  /** Follow NextCursor from page to page. */
  ghost function Pages(list: Server, k: nat, cursor: Option<Oid>): (pages: seq<UserPage>)
    requires Descends(list)
    ensures |pages| >= 1
    decreases if cursor.None? then 1 else 0, if cursor.None? then 0 else cursor.value
  {
    var page := list(k, cursor);
    if Onward(page).None? then [page] else [page] + Pages(list, k + 1, Onward(page))
  }

  function Users(pages: seq<UserPage>): seq<Found> {
    if pages == [] then [] else pages[0].users + Users(pages[1..])
  }

  lemma UsersCons(page: UserPage, rest: seq<UserPage>)
    ensures Users([page] + rest) == page.users + Users(rest)
  {
    assert ([page] + rest)[1..] == rest;
  }

  predicate Shows(users: seq<Found>, ids: seq<Oid>) {
    |users| == |ids| && forall i | 0 <= i < |ids| :: ids[i] < ObjectId.Limit() && users[i].id == ObjectId.Print(ids[i])
  }

  lemma ShowsConcat(users: seq<Found>, ids: seq<Oid>, users': seq<Found>, ids': seq<Oid>)
    requires Shows(users, ids) && Shows(users', ids')
    ensures Shows(users + users', ids + ids')
  {
  }

  /** The page shows these ids and leads on to the same next one. */
  predicate Answers(page: UserPage, ids: Page) {
    Shows(page.users, ids.ids) && Onward(page) == ids.next
  }

  /** Every answer is the page of the keyset walk over the ids that match at that moment. */
  ghost predicate Serves(list: Server, matching: nat -> set<Oid>, limits: nat -> Limit) {
    forall k, c {:trigger list(k, c)} :: Answers(list(k, c), PageOf(matching(k), c, limits(k)))
  }

  lemma ServersDescend(list: Server, matching: nat -> set<Oid>, limits: nat -> Limit)
    requires Serves(list, matching, limits)
    ensures Descends(list)
  {
    forall k, c ensures Onward(list(k, c)).Some? ==> Below(Onward(list(k, c)).value, c) {
      assert Answers(list(k, c), PageOf(matching(k), c, limits(k)));
      NextBelow(matching(k), c, limits(k));
    }
  }

  // ---- following cursor strings is following ids ----

  predicate Alike(pages: seq<UserPage>, walk: seq<seq<Oid>>) {
    |pages| == |walk| && Shows(Users(pages), Flatten(walk))
  }

  lemma AlikeCons(page: UserPage, pages: seq<UserPage>, ids: seq<Oid>, walk: seq<seq<Oid>>)
    requires Shows(page.users, ids) && Alike(pages, walk)
    ensures Alike([page] + pages, [ids] + walk)
  {
    UsersCons(page, pages);
    FlattenCons(ids, walk);
    ShowsConcat(page.users, ids, Users(pages), Flatten(walk));
  }

  lemma LastPage(list: Server, matching: nat -> set<Oid>, limits: nat -> Limit, k: nat, cursor: Option<Oid>)
    requires Descends(list) && Answers(list(k, cursor), PageOf(matching(k), cursor, limits(k)))
    requires PageOf(matching(k), cursor, limits(k)).next.None?
    ensures Alike(Pages(list, k, cursor), Walk(matching, limits, k, cursor))
  {
    AlikeCons(list(k, cursor), [], PageOf(matching(k), cursor, limits(k)).ids, []);
  }

  lemma MorePages(list: Server, matching: nat -> set<Oid>, limits: nat -> Limit, k: nat, cursor: Option<Oid>, next: Oid)
    requires Descends(list) && Answers(list(k, cursor), PageOf(matching(k), cursor, limits(k)))
    requires PageOf(matching(k), cursor, limits(k)).next == Some(next)
    requires Alike(Pages(list, k + 1, Some(next)), Walk(matching, limits, k + 1, Some(next)))
    ensures Alike(Pages(list, k, cursor), Walk(matching, limits, k, cursor))
  {
    AlikeCons(list(k, cursor), Pages(list, k + 1, Some(next)),
              PageOf(matching(k), cursor, limits(k)).ids, Walk(matching, limits, k + 1, Some(next)));
  }

  lemma {:induction false} PagesAreWalk(list: Server, matching: nat -> set<Oid>, limits: nat -> Limit,
                                        k: nat, cursor: Option<Oid>)
    requires Descends(list) && Serves(list, matching, limits)
    ensures Alike(Pages(list, k, cursor), Walk(matching, limits, k, cursor))
    decreases if cursor.None? then 1 else 0, if cursor.None? then 0 else cursor.value
  {
    assert Answers(list(k, cursor), PageOf(matching(k), cursor, limits(k)));
    match PageOf(matching(k), cursor, limits(k)).next
    case None =>
      LastPage(list, matching, limits, k, cursor);
    case Some(next) =>
      PagesAreWalk(list, matching, limits, k + 1, Some(next));
      MorePages(list, matching, limits, k, cursor, next);
  }

  // ---- the repository as the server ----

  /** The rows when each page is read: any rows at all, in the range of printable ids. */
  ghost predicate AlwaysPrintable(at: nat -> Rows) {
    forall k {:trigger at(k)} :: Printable(at(k))
  }

  ghost function Repository(at: nat -> Rows, matcher: Matcher, query: string, limits: nat -> Limit): Server {
    (k: nat, c: Option<Oid>) => Redact(PageFor(at(k), matcher, ListQuery(limits(k), "", query), c))
  }

  /** The ids that match when each page is read. */
  ghost function Matching(at: nat -> Rows, matcher: Matcher, query: string): nat -> set<Oid> {
    (k: nat) => MatchingIds(at(k), matcher, query)
  }

  lemma PageAnswers(rows: Rows, matcher: Matcher, q: ListQuery, cursor: Option<Oid>)
    requires q.limit >= 1 && Printable(rows)
    ensures Answers(Redact(PageFor(rows, matcher, q, cursor)), PageOf(MatchingIds(rows, matcher, q.query), cursor, q.limit))
  {
    PageRows(rows, matcher, q.query, cursor, q.limit);
    CursorRoundTrip(rows, matcher, q, cursor);
  }

  lemma RepositoryServes(at: nat -> Rows, matcher: Matcher, query: string, limits: nat -> Limit)
    requires AlwaysPrintable(at)
    ensures Serves(Repository(at, matcher, query, limits), Matching(at, matcher, query), limits)
    ensures Descends(Repository(at, matcher, query, limits))
  {
    var list := Repository(at, matcher, query, limits);
    forall k, c ensures Answers(list(k, c), PageOf(MatchingIds(at(k), matcher, query), c, limits(k))) {
      PageAnswers(at(k), matcher, ListQuery(limits(k), "", query), c);
    }
    ServersDescend(list, Matching(at, matcher, query), limits);
  }

  /** The row is there whenever one of the first n pages is read, and matches unless the query is empty. */
  predicate Lasting(at: nat -> Rows, matcher: Matcher, query: string, n: nat, x: Oid) {
    forall k | 0 <= k < n :: x in at(k) && (query == "" || matcher(query, at(k)[x]))
  }

  /**
   Over a whole walk, with any writes between the pages: the id strings strictly descend, so no user is shown
   twice, and every user that is there and matches whenever a page is read is shown.
   */
  lemma UsersWalk(at: nat -> Rows, matcher: Matcher, query: string, limits: nat -> Limit)
    requires AlwaysPrintable(at)
    ensures var list := Repository(at, matcher, query, limits);
      && Descends(list)
      && var pages := Pages(list, 0, None);
         var shown := Users(pages);
         && (forall i, j | 0 <= i < j < |shown| :: Before(shown[j].id, shown[i].id))
         && (forall x | Lasting(at, matcher, query, |pages|, x) :: ShowsId(shown, ObjectId.Print(x)))
  {
    var list, ids := Repository(at, matcher, query, limits), Matching(at, matcher, query);
    RepositoryServes(at, matcher, query, limits);
    var pages, walk := Pages(list, 0, None), Walk(ids, limits, 0, None);
    PagesAreWalk(list, ids, limits, 0, None);
    WalkBelow(ids, limits, 0, None);
    ShownDescending(Users(pages), Flatten(walk));
    forall x | Lasting(at, matcher, query, |pages|, x) ensures ShowsId(Users(pages), ObjectId.Print(x)) {
      LastingIsFound(at, matcher, query, limits, x);
      ShownFound(Users(pages), Flatten(walk), x);
    }
  }

  lemma LastingIsFound(at: nat -> Rows, matcher: Matcher, query: string, limits: nat -> Limit, x: Oid)
    requires Lasting(at, matcher, query, |Walk(Matching(at, matcher, query), limits, 0, None)|, x)
    ensures x in Flatten(Walk(Matching(at, matcher, query), limits, 0, None))
  {
    WalkFinds(Matching(at, matcher, query), limits, 0, None, x);
  }

  lemma ShownDescending(users: seq<Found>, ids: seq<Oid>)
    requires Shows(users, ids) && StrictlyDescending(ids)
    ensures forall i, j | 0 <= i < j < |users| :: Before(users[j].id, users[i].id)
  {
    forall i, j | 0 <= i < j < |users| ensures Before(users[j].id, users[i].id) {
      ObjectId.PrintOrder(ids[j], ids[i]);
    }
  }

  lemma ShownFound(users: seq<Found>, ids: seq<Oid>, x: Oid)
    requires Shows(users, ids) && x in ids
    ensures ShowsId(users, ObjectId.Print(x))
  {
    var i :| 0 <= i < |ids| && ids[i] == x;
    assert users[i].id == ObjectId.Print(x);
  }

  // ---- over rows that do not change ----

  /** A list that shows the ids of a set, greatest first, shows exactly those. */
  lemma ShowsExactly(users: seq<Found>, ids: set<Oid>, x: Oid)
    requires Shows(users, Descending(ids)) && x < ObjectId.Limit()
    ensures ShowsId(users, ObjectId.Print(x)) <==> x in ids
    ensures |users| == |ids|
  {
    var list := Descending(ids);
    DescendingFacts(ids);
    if x in ids {
      ShownFound(users, list, x);
    }
    if ShowsId(users, ObjectId.Print(x)) {
      var i :| 0 <= i < |users| && users[i].id == ObjectId.Print(x);
      ObjectId.PrintOrder(list[i], x);
      assert list[i] in list;
    }
  }

  /** The walk, by the ids it shows. */
  lemma StaticShows(rows: Rows, matcher: Matcher, query: string, limit: Limit, list: Server)
    requires Printable(rows) && list == Repository(Always(rows), matcher, query, Always(limit))
    ensures Descends(list)
    ensures var wanted := MatchingIds(rows, matcher, query);
      && Shows(Users(Pages(list, 0, None)), Descending(wanted))
      && |Pages(list, 0, None)| == PageCount(|wanted|, limit)
  {
    var at, limits := Always(rows), Always(limit);
    RepositoryServes(at, matcher, query, limits);
    PagesAreWalk(list, Matching(at, matcher, query), limits, 0, None);
    StaticMatching(rows, matcher, query, limit);
    StaticWalk(MatchingIds(rows, matcher, query), limit);
  }

  /**
   Over rows that do not change, a walk shows each row that matches, once, and every row if the query is empty; and
   that takes as many pages as the rows shown fill, one if there are none.
   */
  lemma StaticUsers(rows: Rows, matcher: Matcher, query: string, limit: Limit)
    requires Printable(rows)
    ensures var list := Repository(Always(rows), matcher, query, Always(limit));
      && Descends(list)
      && var pages := Pages(list, 0, None);
         var shown := Users(pages);
         && (forall x <- rows :: ShowsId(shown, ObjectId.Print(x)) <==> query == "" || matcher(query, rows[x]))
         && (forall i, j | 0 <= i < j < |shown| :: Before(shown[j].id, shown[i].id))
         && |pages| == PageCount(|shown|, limit)
  {
    var list, wanted := Repository(Always(rows), matcher, query, Always(limit)), MatchingIds(rows, matcher, query);
    StaticShows(rows, matcher, query, limit, list);
    var shown := Users(Pages(list, 0, None));
    DescendingFacts(wanted);
    ShownDescending(shown, Descending(wanted));
    forall x <- rows ensures ShowsId(shown, ObjectId.Print(x)) <==> query == "" || matcher(query, rows[x]) {
      ShowsExactly(shown, wanted, x);
    }
  }

  /** The walk over these rows is the walk over the ids that match. */
  lemma StaticMatching(rows: Rows, matcher: Matcher, query: string, limit: Limit)
    ensures Walk(Matching(Always(rows), matcher, query), Always(limit), 0, None) ==
            Walk(Always(MatchingIds(rows, matcher, query)), Always(limit), 0, None)
  {
    SameWalk(Matching(Always(rows), matcher, query), Always(MatchingIds(rows, matcher, query)), Always(limit), 0, None);
  }

  lemma {:induction false} SameWalk(at: nat -> set<Oid>, at': nat -> set<Oid>, limits: nat -> Limit, k: nat, cursor: Option<Oid>)
    requires forall j :: at(j) == at'(j)
    ensures Walk(at, limits, k, cursor) == Walk(at', limits, k, cursor)
    decreases if cursor.None? then 1 else 0, if cursor.None? then 0 else cursor.value
  {
    var next := PageOf(at(k), cursor, limits(k)).next;
    if next.Some? {
      NextBelow(at(k), cursor, limits(k));
      SameWalk(at, at', limits, k + 1, next);
    }
  }
}
