/**
 The two systems over one users collection: what a Create's insert, an Update's write and a Delete's removal do to the
 rows is, to the rotation system, a row added, an email changed and a row removed.
 */
module RowSteps {
  import opened Wrappers
  import opened UserDomain
  import opened UserStore
  import opened AuthService
  import opened Listing
  import ObjectId
  import R = Rotation
  import T = TokenStore

  /** The emails by printed id: Emails is the one such map. */
  predicate Names(rows: Rows, emails: map<string, string>) {
    && (forall x <- rows :: ObjectId.Print(x) in emails && emails[ObjectId.Print(x)] == rows[x].email)
    && (forall k <- emails :: exists x <- rows :: ObjectId.Print(x) == k)
  }

  lemma EmailsNames(rows: Rows)
    requires Printable(rows)
    ensures Names(rows, Emails(rows))
  {
    forall x <- rows ensures ObjectId.Print(x) in Emails(rows) && Emails(rows)[ObjectId.Print(x)] == rows[x].email {
      EmailsAt(rows, x);
    }
  }

  lemma NamesOnce(rows: Rows, m: map<string, string>, n: map<string, string>)
    requires Names(rows, m) && Names(rows, n)
    ensures m == n
  {
  }

  lemma NamesUpdate(rows: Rows, emails: map<string, string>, x: Oid, row: Row)
    requires Printable(rows) && x < ObjectId.Limit() && Names(rows, emails)
    ensures Names(rows[x := row], emails[ObjectId.Print(x) := row.email])
  {
    var rows', emails' := rows[x := row], emails[ObjectId.Print(x) := row.email];
    forall y <- rows' ensures ObjectId.Print(y) in emails' && emails'[ObjectId.Print(y)] == rows'[y].email {
      ObjectId.PrintOrder(y, x);
    }
    forall k <- emails' ensures exists y <- rows' :: ObjectId.Print(y) == k {
      if k == ObjectId.Print(x) {
        assert x in rows';
      } else {
        var y :| y in rows && ObjectId.Print(y) == k;
        assert y in rows';
      }
    }
  }

  /** An insert that takes effect is the step that adds a row, under an id never seen before. */
  lemma InsertIsAddRow(rows: Rows, x: Oid, row: Row, fault: Fault, s: R.State, ttl: T.Time)
    requires Printable(rows) && x < ObjectId.Limit() && Names(rows, s.rows) && ObjectId.Print(x) !in s.known
    ensures var e := InsertRow(rows, x, row, fault);
      Names(e.rows, if e.applied then R.Step(s, R.AddRow(ObjectId.Print(x), row.email), ttl).rows else s.rows)
  {
    NamesUpdate(rows, s.rows, x, row);
  }

  lemma NamesKey(rows: Rows, emails: map<string, string>, x: Oid)
    requires x in rows && Names(rows, emails)
    ensures ObjectId.Print(x) in emails
  {
  }

  lemma ChangeEmailNames(rows: Rows, x: Oid, row: Row, s: R.State, ttl: T.Time, key: string)
    requires Printable(rows) && x < ObjectId.Limit() && Names(rows, s.rows) && x in rows && key == ObjectId.Print(x)
    ensures Names(rows[x := row], R.Step(s, R.ChangeEmail(key, row.email), ttl).rows)
  {
    NamesKey(rows, s.rows, x);
    NamesUpdate(rows, s.rows, x, row);
    assert R.Step(s, R.ChangeEmail(key, row.email), ttl).rows == s.rows[key := row.email];
  }

  /** A write that takes effect is a change of email, to the same one if none was sent. */
  lemma WriteIsChangeEmail(rows: Rows, x: Oid, p: Patch, fault: Fault, s: R.State, ttl: T.Time, key: string, after: Row)
    requires Printable(rows) && x < ObjectId.Limit() && Names(rows, s.rows)
    requires key == ObjectId.Print(x) && (x in rows ==> after == Apply(rows[x], p))
    ensures var e := UpdateRow(rows, x, p, fault);
      Names(e.rows, if e.applied then R.Step(s, R.ChangeEmail(key, after.email), ttl).rows else s.rows)
  {
    var e := UpdateRow(rows, x, p, fault);
    if e.applied {
      assert e.rows == rows[x := after];
      ChangeEmailNames(rows, x, after, s, ttl, key);
    }
  }
}
