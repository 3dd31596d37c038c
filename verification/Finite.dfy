/** Counting with injective maps. */
module Finite {
  ghost predicate Injective<X, Y>(m: map<X, Y>) {
    forall x, x' | x in m && x' in m && m[x] == m[x'] :: x == x'
  }

  /** An injective map has as many values as keys. */
  lemma {:induction false} InjectiveValues<X, Y>(m: map<X, Y>)
    requires Injective(m)
    ensures |m.Values| == |m.Keys|
    decreases |m|
  {
    if m.Keys == {} {
      assert m.Values == {};
    } else {
      var x :| x in m;
      var rest := m - {x};
      assert rest.Keys == m.Keys - {x};
      InjectiveValues(rest);
      assert m.Values == rest.Values + {m[x]} by {
        forall y | y in m.Values ensures y in rest.Values + {m[x]} {
          var k :| k in m && m[k] == y;
          assert k != x ==> k in rest && rest[k] == y;
        }
        forall y | y in rest.Values ensures y in m.Values {
          var k :| k in rest && rest[k] == y;
          assert k in m && m[k] == y;
        }
      }
      assert m[x] !in rest.Values;
    }
  }

  lemma {:induction false} SubsetCardinality<X>(a: set<X>, b: set<X>)
    requires a <= b
    ensures |a| <= |b|
  {
    assert b == a + (b - a);
  }
}
