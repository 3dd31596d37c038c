/**
 Keyset pagination. A page is the first rows, newest id first, below the cursor; one row more than the limit is
 fetched to learn whether another page exists, and the cursor of the next page is the id of the last row kept.
 */
module Listing {
  import opened Wrappers
  import Division

  type Oid = nat

  type Limit = n: int | n >= 1 witness 1

  /** The rows as the server returns them to a Find sorted on _id descending. */
  ghost function Descending(ids: set<Oid>): seq<Oid> {
    if ids == {} then []
    else
      HasMaximum(ids);
      var m :| m in ids && forall x <- ids :: x <= m;
      [m] + Descending(ids - {m})
  }

  lemma {:induction false} DescendingFacts(ids: set<Oid>)
    ensures forall x :: x in Descending(ids) <==> x in ids
    ensures StrictlyDescending(Descending(ids))
    ensures |Descending(ids)| == |ids|
  {
    if ids != {} {
      var m := Descending(ids)[0];
      var rest := Descending(ids - {m});
      DescendingFacts(ids - {m});
      assert Descending(ids) == [m] + rest;
      forall i | 0 <= i < |rest| ensures rest[i] < m {
        assert rest[i] in rest;
      }
      DescendingConcat([m], rest, m);
    }
  }

  /** Two descending stretches on either side of m make one. */
  lemma DescendingConcat(a: seq<Oid>, b: seq<Oid>, m: Oid)
    requires StrictlyDescending(a) && StrictlyDescending(b)
    requires (forall i | 0 <= i < |a| :: m <= a[i]) && (forall i | 0 <= i < |b| :: b[i] < m)
    ensures StrictlyDescending(a + b)
  {
  }

  lemma {:induction false} HasMaximum(ids: set<Oid>)
    requires ids != {}
    ensures exists m :: m in ids && forall x <- ids :: x <= m
    decreases |ids|
  {
    var a :| a in ids;
    if ids != {a} {
      HasMaximum(ids - {a});
      var b :| b in ids - {a} && forall x <- ids - {a} :: x <= b;
      var m := if a < b then b else a;
      assert forall x <- ids :: x == a || x in ids - {a};
      assert m in ids && forall x <- ids :: x <= m;
    }
  }

  predicate StrictlyDescending(s: seq<Oid>) {
    forall i, j | 0 <= i < j < |s| :: s[i] > s[j]
  }

  /** A strictly descending sequence is determined by its elements. */
  lemma {:induction false} DescendingUnique(s: seq<Oid>, t: seq<Oid>)
    requires StrictlyDescending(s) && StrictlyDescending(t)
    requires forall x :: x in s <==> x in t
    ensures s == t
    decreases |s|
  {
    assert t != [] ==> t[0] in s;
    if s != [] {
      assert s[0] in t;
      assert s[0] == t[0];
      forall x ensures x in s[1..] <==> x in t[1..] {
        if x in s[1..] { assert x in t && x != t[0]; }
        if x in t[1..] { assert x in s && x != s[0]; }
      }
      DescendingUnique(s[1..], t[1..]);
    }
  }

  predicate Below(x: Oid, cursor: Option<Oid>) {
    cursor.Some? ==> x < cursor.value
  }

  /** The ids a filter selects: those that match the query and lie below the cursor. */
  function Selected(matching: set<Oid>, cursor: Option<Oid>): set<Oid> {
    set x | x in matching && Below(x, cursor)
  }

  datatype Page = Page(ids: seq<Oid>, next: Option<Oid>)

  /** Keep `limit` of the rows, and point at the last one kept if more were there. */
  function Cut(all: seq<Oid>, limit: Limit): Page {
    if |all| > limit then Page(all[..limit], Some(all[limit - 1])) else Page(all, None)
  }

  /** One row beyond the limit tells all there is to know: fetching more would give the same page. */
  lemma OneExtraSuffices(all: seq<Oid>, limit: Limit, n: nat)
    requires limit < n <= |all|
    ensures Cut(all[..n], limit) == Cut(all, limit)
  {
  }

  /** What one List answers when `matching` are the ids of the rows that match at that moment. */
  ghost function PageOf(matching: set<Oid>, cursor: Option<Oid>, limit: Limit): Page {
    Cut(Descending(Selected(matching, cursor)), limit)
  }

  predicate PageOk(matching: set<Oid>, cursor: Option<Oid>, limit: Limit, page: Page) {
    && StrictlyDescending(page.ids) && |page.ids| <= limit
    && (forall i | 0 <= i < |page.ids| :: page.ids[i] in matching && Below(page.ids[i], cursor))
    && (match page.next
        case None => true
        case Some(n) => |page.ids| == limit && n in matching && Below(n, cursor) && forall i | 0 <= i < limit :: n <= page.ids[i])
    && (forall x <- matching | Below(x, cursor) :: x in page.ids || (page.next.Some? && x < page.next.value))
  }

  lemma SelectedFacts(matching: set<Oid>, cursor: Option<Oid>)
    ensures var all := Descending(Selected(matching, cursor));
      && StrictlyDescending(all)
      && (forall i | 0 <= i < |all| :: all[i] in matching && Below(all[i], cursor))
      && (forall x <- matching | Below(x, cursor) :: exists i :: 0 <= i < |all| && all[i] == x)
  {
    var all := Descending(Selected(matching, cursor));
    DescendingFacts(Selected(matching, cursor));
    forall i | 0 <= i < |all| ensures all[i] in matching && Below(all[i], cursor) {
      assert all[i] in all;
    }
    forall x <- matching | Below(x, cursor) ensures exists i :: 0 <= i < |all| && all[i] == x {
      assert x in Selected(matching, cursor);
      assert x in all;
    }
  }

  /** Cutting a descending list of all that is selected gives a page as it should be. */
  lemma CutOk(all: seq<Oid>, matching: set<Oid>, cursor: Option<Oid>, limit: Limit)
    requires StrictlyDescending(all)
    requires forall i | 0 <= i < |all| :: all[i] in matching && Below(all[i], cursor)
    requires forall x <- matching | Below(x, cursor) :: exists i :: 0 <= i < |all| && all[i] == x
    ensures PageOk(matching, cursor, limit, Cut(all, limit))
  {
    var page := Cut(all, limit);
    forall x <- matching | Below(x, cursor)
      ensures x in page.ids || (page.next.Some? && x < page.next.value)
    {
      var i :| 0 <= i < |all| && all[i] == x;
      CutAt(all, limit, i);
    }
  }

  /** What a caller can rely on about one page. */
  lemma PageFacts(matching: set<Oid>, cursor: Option<Oid>, limit: Limit)
    ensures PageOk(matching, cursor, limit, PageOf(matching, cursor, limit))
  {
    SelectedFacts(matching, cursor);
    CutOk(Descending(Selected(matching, cursor)), matching, cursor, limit);
  }

  lemma CutAt(all: seq<Oid>, limit: Limit, i: nat)
    requires StrictlyDescending(all) && i < |all|
    ensures |all| > limit ==> all[i] in all[..limit] || all[i] < all[limit - 1]
  {
    if limit < |all| && i < limit {
      assert all[..limit][i] == all[i];
    }
  }

  lemma NextBelow(matching: set<Oid>, cursor: Option<Oid>, limit: Limit)
    ensures var next := PageOf(matching, cursor, limit).next; next.Some? ==> Below(next.value, cursor)
  {
    PageFacts(matching, cursor, limit);
  }

  // ---- a walk over many pages, with writers in between ----

  /**
   Follow NextCursor from page to page. `at(k)` are the matching ids when the k-th List runs and `limits(k)` the
   limit it is given: between two Lists any rows may appear, change or disappear. The cursor is the termination
   measure, so a walk always ends.
   */
  ghost function Walk(at: nat -> set<Oid>, limits: nat -> Limit, k: nat, cursor: Option<Oid>): (pages: seq<seq<Oid>>)
    ensures |pages| >= 1
    decreases if cursor.None? then 1 else 0, if cursor.None? then 0 else cursor.value
  {
    var page := PageOf(at(k), cursor, limits(k));
    PageFacts(at(k), cursor, limits(k));
    if page.next.None? then [page.ids] else [page.ids] + Walk(at, limits, k + 1, page.next)
  }

  function Flatten(pages: seq<seq<Oid>>): seq<Oid> {
    if pages == [] then [] else pages[0] + Flatten(pages[1..])
  }

  lemma FlattenCons(page: seq<Oid>, rest: seq<seq<Oid>>)
    ensures Flatten([page] + rest) == page + Flatten(rest)
  {
    assert ([page] + rest)[1..] == rest;
  }

  lemma {:induction false} WalkBelow(at: nat -> set<Oid>, limits: nat -> Limit, k: nat, cursor: Option<Oid>)
    ensures var ids := Flatten(Walk(at, limits, k, cursor));
      StrictlyDescending(ids) && forall i | 0 <= i < |ids| :: Below(ids[i], cursor)
    decreases if cursor.None? then 1 else 0, if cursor.None? then 0 else cursor.value
  {
    var page := PageOf(at(k), cursor, limits(k));
    PageFacts(at(k), cursor, limits(k));
    if page.next.None? {
      FlattenCons(page.ids, []);
    } else {
      var rest := Walk(at, limits, k + 1, page.next);
      WalkBelow(at, limits, k + 1, page.next);
      FlattenCons(page.ids, rest);
      DescendingConcat(page.ids, Flatten(rest), page.next.value);
    }
  }

  /** Nothing is skipped: an id that matches at every page of the walk is on one of the pages. */
  lemma {:induction false} WalkFinds(at: nat -> set<Oid>, limits: nat -> Limit, k: nat, cursor: Option<Oid>, x: Oid)
    requires Below(x, cursor)
    requires forall j :: k <= j < k + |Walk(at, limits, k, cursor)| ==> x in at(j)
    ensures x in Flatten(Walk(at, limits, k, cursor))
    decreases if cursor.None? then 1 else 0, if cursor.None? then 0 else cursor.value
  {
    var page := PageOf(at(k), cursor, limits(k));
    PageFacts(at(k), cursor, limits(k));
    assert x in at(k);
    if page.next.None? {
      FlattenCons(page.ids, []);
    } else {
      var rest := Walk(at, limits, k + 1, page.next);
      FlattenCons(page.ids, rest);
      if x !in page.ids {
        WalkFinds(at, limits, k + 1, page.next, x);
      }
    }
  }

  lemma FirstShown(at: nat -> set<Oid>, limits: nat -> Limit, k: nat, cursor: Option<Oid>)
    ensures Shown(at(k), limits(k), Walk(at, limits, k, cursor), 0)
  {
    PageFacts(at(k), cursor, limits(k));
  }

  /** Nothing is invented: what page j shows matched when page j was read, and only the last page is short. */
  lemma {:induction false} WalkShows(at: nat -> set<Oid>, limits: nat -> Limit, k: nat, cursor: Option<Oid>, j: nat)
    requires j < |Walk(at, limits, k, cursor)|
    ensures Shown(at(k + j), limits(k + j), Walk(at, limits, k, cursor), j)
    decreases j
  {
    if j == 0 {
      FirstShown(at, limits, k, cursor);
    } else {
      var next := PageOf(at(k), cursor, limits(k)).next;
      WalkShows(at, limits, k + 1, next, j - 1);
      assert Walk(at, limits, k, cursor)[1..] == Walk(at, limits, k + 1, next);
    }
  }

  predicate Shown(matching: set<Oid>, limit: Limit, pages: seq<seq<Oid>>, j: nat)
    requires j < |pages|
  {
    && (forall i | 0 <= i < |pages[j]| :: pages[j][i] in matching)
    && |pages[j]| <= limit
    && (j < |pages| - 1 ==> |pages[j]| == limit)
  }

  /**
   The keyset walk under concurrent writes: ids strictly decrease over the whole walk, so none repeats; a row that
   is there and matches at every page appears; and every id shown matched when its page was read.
   */
  lemma KeysetWalk(at: nat -> set<Oid>, limits: nat -> Limit)
    ensures var pages := Walk(at, limits, 0, None);
      && StrictlyDescending(Flatten(pages))
      && (forall x | forall j | 0 <= j < |pages| :: x in at(j) :: x in Flatten(pages))
      && (forall j | 0 <= j < |pages| :: Shown(at(j), limits(j), pages, j))
  {
    var pages := Walk(at, limits, 0, None);
    WalkBelow(at, limits, 0, None);
    forall x | forall j | 0 <= j < |pages| :: x in at(j) ensures x in Flatten(pages) {
      WalkFinds(at, limits, 0, None, x);
    }
    forall j | 0 <= j < |pages| ensures Shown(at(j), limits(j), pages, j) {
      WalkShows(at, limits, 0, None, j);
    }
  }

  // ---- a walk over rows that do not change ----

  /** The elements of a descending list below one of its members are its tail. */
  lemma TailIs(all: seq<Oid>, rest: seq<Oid>, limit: Limit)
    requires StrictlyDescending(all) && StrictlyDescending(rest) && limit < |all|
    requires forall x :: x in rest <==> x in all && x < all[limit - 1]
    ensures rest == all[limit..]
  {
    forall x ensures x in rest <==> x in all[limit..] {
      if x in rest {
        var i :| 0 <= i < |all| && all[i] == x;
        assert all[limit..][i - limit] == x;
      }
      if x in all[limit..] {
        var i :| 0 <= i < |all| - limit && all[limit..][i] == x;
        assert all[limit + i] == x;
      }
    }
    DescendingUnique(rest, all[limit..]);
  }

  /** Below the next cursor lie precisely the rows that did not fit on the page. */
  lemma RestSelected(rows: set<Oid>, cursor: Option<Oid>, limit: Limit)
    requires |Descending(Selected(rows, cursor))| > limit
    ensures var all := Descending(Selected(rows, cursor));
      Descending(Selected(rows, Some(all[limit - 1]))) == all[limit..]
  {
    var all := Descending(Selected(rows, cursor));
    var last := all[limit - 1];
    DescendingFacts(Selected(rows, cursor));
    DescendingFacts(Selected(rows, Some(last)));
    assert last in all;
    TailIs(all, Descending(Selected(rows, Some(last))), limit);
  }

  function PageCount(n: nat, limit: Limit): nat {
    if n == 0 then 1 else (n + limit - 1) / limit
  }

  lemma PageCountStep(n: nat, limit: Limit)
    ensures n <= limit ==> PageCount(n, limit) == 1
    ensures n > limit ==> PageCount(n, limit) == 1 + PageCount(n - limit, limit)
  {
    if 0 < n <= limit {
      Division.DivUnique(n + limit - 1, limit, 1, n - 1);
    } else if n > limit {
      Division.DivStep(n - 1, limit);
    }
  }

  function Always<T>(x: T): nat -> T {
    _ => x
  }

  /** One page of such a walk. */
  lemma StaticPage(rows: set<Oid>, limit: Limit, k: nat, cursor: Option<Oid>)
    ensures var page := PageOf(rows, cursor, limit);
      var all := Descending(Selected(rows, cursor));
      && (page.next.Some? ==> Below(page.next.value, cursor))
      && Walk(Always(rows), Always(limit), k, cursor) ==
           (if page.next.None? then [page.ids] else [page.ids] + Walk(Always(rows), Always(limit), k + 1, page.next))
      && (if page.next.None? then page.ids == all && PageCount(|all|, limit) == 1
          else
            var rest := Descending(Selected(rows, page.next));
            page.ids + rest == all && PageCount(|all|, limit) == 1 + PageCount(|rest|, limit))
  {
    var all := Descending(Selected(rows, cursor));
    NextBelow(rows, cursor, limit);
    PageCountStep(|all|, limit);
    if |all| > limit {
      RestSelected(rows, cursor, limit);
    }
  }

  lemma {:induction false} StaticPages(rows: set<Oid>, limit: Limit, k: nat, cursor: Option<Oid>)
    ensures var pages := Walk(Always(rows), Always(limit), k, cursor);
      var all := Descending(Selected(rows, cursor));
      Flatten(pages) == all && |pages| == PageCount(|all|, limit)
    decreases if cursor.None? then 1 else 0, if cursor.None? then 0 else cursor.value
  {
    var page := PageOf(rows, cursor, limit);
    StaticPage(rows, limit, k, cursor);
    if page.next.None? {
      FlattenCons(page.ids, []);
    } else {
      StaticPages(rows, limit, k + 1, page.next);
      FlattenCons(page.ids, Walk(Always(rows), Always(limit), k + 1, page.next));
    }
  }

  /**
   Over rows that do not change, the pages are the matching rows in descending order cut every `limit` rows:
   concatenated they give that query's answer exactly, in max(1, ceil(n / limit)) pages.
   */
  lemma StaticWalk(rows: set<Oid>, limit: Limit)
    ensures var pages := Walk(Always(rows), Always(limit), 0, None);
      && Flatten(pages) == Descending(rows)
      && |pages| == PageCount(|rows|, limit)
      && forall j | 0 <= j < |pages| - 1 :: |pages[j]| == limit
  {
    StaticPages(rows, limit, 0, None);
    assert Selected(rows, None) == rows;
    DescendingFacts(rows);
    var pages := Walk(Always(rows), Always(limit), 0, None);
    forall j | 0 <= j < |pages| - 1 ensures |pages[j]| == limit {
      WalkShows(Always(rows), Always(limit), 0, None, j);
    }
  }
}
