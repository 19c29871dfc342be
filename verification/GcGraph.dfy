/** Reachability in a finite graph, and what a marking that follows edges establishes. */
module GcGraph {

  /** Everything at most `k` edges away from the roots. */
  ghost function Within<T>(g: map<T, set<T>>, roots: set<T>, k: nat): set<T> {
    if k == 0 then roots
    else
      var w := Within(g, roots, k - 1);
      w + set z, x | z in w && z in g && x in g[z] :: x
  }

  ghost predicate Reached<T>(g: map<T, set<T>>, roots: set<T>, x: T) {
    exists k: nat :: x in Within(g, roots, k)
  }

  /** No edge leaves the graph. */
  ghost predicate Closed<T>(g: map<T, set<T>>) {
    forall x :: x in g ==> g[x] <= g.Keys
  }

  /** What marking from `roots` does to the set of marked nodes, `m0` before and `m1` after:
      the roots and nothing but what they reach is added, and no marked node is left with an
      unmarked successor if it was added. */
  ghost predicate Spread<T>(g: map<T, set<T>>, m0: set<T>, m1: set<T>, roots: set<T>) {
    && m0 <= m1 && roots <= m1
    && (forall x :: x in m1 - m0 ==> Reached(g, roots, x))
    && (forall x :: x in m1 - m0 && x in g ==> g[x] <= m1)
  }

  lemma {:induction false} WithinMore<T>(g: map<T, set<T>>, roots: set<T>, roots': set<T>, k: nat)
    requires roots <= roots'
    ensures Within(g, roots, k) <= Within(g, roots', k)
  {
    if k > 0 { WithinMore(g, roots, roots', k - 1); }
  }

  /** One edge first, then the rest of the way. */
  lemma {:induction false} WithinStep<T>(g: map<T, set<T>>, x: T, k: nat)
    requires x in g
    ensures Within(g, g[x], k) <= Within(g, {x}, k + 1)
  {
    if k == 0 {
      assert Within(g, {x}, 0) == {x};
    } else {
      WithinStep(g, x, k - 1);
    }
  }

  /** Marking from one set of roots and then from another. */
  lemma SpreadBoth<T>(g: map<T, set<T>>, m0: set<T>, m1: set<T>, m2: set<T>, a: set<T>, b: set<T>)
    requires Spread(g, m0, m1, a) && Spread(g, m1, m2, b)
    ensures Spread(g, m0, m2, a + b)
  {
    forall x | x in m2 - m0
      ensures Reached(g, a + b, x)
    {
      if x in m1 {
        assert x in m1 - m0;
        var k: nat :| x in Within(g, a, k);
        WithinMore(g, a, a + b, k);
      } else {
        assert x in m2 - m1;
        var k: nat :| x in Within(g, b, k);
        WithinMore(g, b, a + b, k);
      }
    }
  }

  lemma SpreadNone<T>(g: map<T, set<T>>, m: set<T>)
    ensures Spread(g, m, m, {})
  {
  }

  lemma SpreadMarked<T>(g: map<T, set<T>>, m: set<T>, x: T)
    requires x in m
    ensures Spread(g, m, m, {x})
  {
  }

  /** A node is marked first, and then everything its edges lead to. */
  lemma SpreadNode<T>(g: map<T, set<T>>, m0: set<T>, m1: set<T>, x: T)
    requires x in g && Spread(g, m0 + {x}, m1, g[x])
    ensures Spread(g, m0, m1, {x})
  {
    forall y | y in m1 - m0
      ensures Reached(g, {x}, y)
    {
      if y == x {
        assert x in Within(g, {x}, 0);
      } else {
        assert y in m1 - (m0 + {x});
        var k: nat :| y in Within(g, g[x], k);
        WithinStep(g, x, k);
      }
    }
  }

  lemma {:induction false} WithinMarked<T>(g: map<T, set<T>>, m: set<T>, roots: set<T>, k: nat)
    requires Spread(g, {}, m, roots)
    ensures Within(g, roots, k) <= m
  {
    if k > 0 { WithinMarked(g, m, roots, k - 1); }
  }

  /** Started with nothing marked, the marked nodes are exactly the reachable ones. */
  lemma SpreadExact<T>(g: map<T, set<T>>, m: set<T>, roots: set<T>, x: T)
    requires Spread(g, {}, m, roots)
    ensures x in m <==> Reached(g, roots, x)
  {
    if Reached(g, roots, x) {
      var k: nat :| x in Within(g, roots, k);
      WithinMarked(g, m, roots, k);
    }
  }

  /** What a reachable node refers to is reachable. */
  lemma ReachedNext<T>(g: map<T, set<T>>, roots: set<T>, x: T)
    requires Reached(g, roots, x) && x in g
    ensures forall y :: y in g[x] ==> Reached(g, roots, y)
  {
    var k: nat :| x in Within(g, roots, k);
    forall y | y in g[x]
      ensures Reached(g, roots, y)
    {
      assert y in Within(g, roots, k + 1);
    }
  }
}
