/**
 * `ORDER BY created_at DESC` over a set of row ids: the rows come out
 * newest first. SQL leaves the order of equal timestamps open; this model
 * puts the larger id first among them.
 */
module Timeline {

  /** Row `a` comes no later than row `b` in newest-first order. */
  predicate NotOlder(at: map<int, nat>, a: int, b: int)
    requires a in at && b in at
  {
    at[a] > at[b] || (at[a] == at[b] && a >= b)
  }

  /** `k` is the first of `ks` in newest-first order. */
  predicate IsNewest(at: map<int, nat>, k: int, ks: set<int>)
    requires ks <= at.Keys
  {
    k in ks && forall j :: j in ks ==> NotOlder(at, k, j)
  }

  lemma {:induction false} NewestExists(at: map<int, nat>, ks: set<int>)
    requires ks <= at.Keys && ks != {}
    ensures exists k :: IsNewest(at, k, ks)
    decreases ks
  {
    if forall y :: y !in ks {
      assert false;
    }
    var x :| x in ks;
    if ks != {x} {
      var rest := ks - {x};
      NewestExists(at, rest);
      var k :| IsNewest(at, k, rest);
      if NotOlder(at, k, x) {
        assert IsNewest(at, k, ks);
      } else {
        forall j | j in ks
          ensures NotOlder(at, x, j)
        {
          if j != x {
            assert NotOlder(at, k, j);
          }
        }
        assert IsNewest(at, x, ks);
      }
    } else {
      assert IsNewest(at, x, ks);
    }
  }

  /**
   * The ids of `ks`, each once, ordered by timestamp `at` from newest to
   * oldest.
   */
  function NewestFirst(at: map<int, nat>, ks: set<int>): (r: seq<int>)
    requires ks <= at.Keys
    ensures |r| == |ks|
    ensures forall i :: 0 <= i < |r| ==> r[i] in ks
    ensures forall k :: k in ks ==> k in r
    ensures forall i, j :: 0 <= i < j < |r| ==> r[i] != r[j]
    ensures forall i, j :: 0 <= i < j < |r| ==> at[r[i]] >= at[r[j]]
    decreases ks
  {
    if ks == {} then []
    else
      NewestExists(at, ks);
      var k :| IsNewest(at, k, ks);
      [k] + NewestFirst(at, ks - {k})
  }
}
