/** Dependency walks and cycles in a finite graph. */
module Graph {
  /** Every node with its dependency list; only dependencies that are nodes themselves are edges. */
  type Graph = map<string, seq<string>>

  ghost predicate Edge(g: Graph, x: string, y: string) {
    x in g && y in g && y in g[x]
  }

  ghost predicate Walk(g: Graph, p: seq<string>) {
    p != [] && (forall k :: 0 <= k < |p| ==> p[k] in g) && forall k :: 0 <= k < |p| - 1 ==> Edge(g, p[k], p[k + 1])
  }

  /** A walk that comes back to where it has been: its tail is a cycle. */
  ghost predicate Lasso(g: Graph, p: seq<string>) {
    Walk(g, p) && exists k :: 0 <= k < |p| - 1 && p[k] == p[|p| - 1]
  }

  /** x depends, directly or not, on a cycle. */
  ghost predicate ReachesCycle(g: Graph, x: string) {
    exists p :: Lasso(g, p) && p[0] == x
  }

  ghost predicate NoRepeats(s: seq<string>) {
    forall a, b :: 0 <= a < b < |s| ==> s[a] != s[b]
  }

  /** Every element comes after all of its dependencies. */
  ghost predicate Ordered(g: Graph, order: seq<string>) {
    forall k, y :: 0 <= k < |order| && Edge(g, order[k], y) ==> y in order[..k]
  }

  // ---------- what can be ordered has no cycle below it ----------

  /** Positions strictly decrease along a walk. */
  lemma {:induction false} WalkGoesBack(g: Graph, order: seq<string>, p: seq<string>, k: nat, at: nat) returns (i: nat)
    requires Ordered(g, order) && Walk(g, p) && k < |p| && at < |order| && order[at] == p[0]
    ensures i <= at && order[i] == p[k] && (k > 0 ==> i < at)
    decreases k
  {
    i := at;
    if k > 0 {
      assert Edge(g, p[0], p[1]);
      assert p[1] in order[..at];
      var next :| 0 <= next < at && order[next] == p[1];
      TailWalks(g, p);
      i := WalkGoesBack(g, order, p[1..], k - 1, next);
    }
  }

  lemma TailWalks(g: Graph, p: seq<string>)
    requires Walk(g, p) && |p| > 1
    ensures Walk(g, p[1..])
  {
    var q := p[1..];
    assert forall k :: 0 <= k < |q| ==> q[k] == p[k + 1];
    forall k | 0 <= k < |q| - 1 ensures Edge(g, q[k], q[k + 1]) {
      assert Edge(g, p[k + 1], p[k + 2]);
    }
  }

  lemma {:induction false} DropWalks(g: Graph, p: seq<string>, k: nat)
    requires Walk(g, p) && k < |p|
    ensures Walk(g, p[k..])
    decreases k
  {
    if k == 0 {
      assert p[0..] == p;
    } else {
      TailWalks(g, p);
      DropWalks(g, p[1..], k - 1);
      assert p[1..][k - 1..] == p[k..];
    }
  }

  lemma OrderedHasNoLasso(g: Graph, order: seq<string>, p: seq<string>)
    requires NoRepeats(order) && Ordered(g, order) && Walk(g, p) && p[0] in order
    ensures !Lasso(g, p)
  {
    if Lasso(g, p) {
      var k :| 0 <= k < |p| - 1 && p[k] == p[|p| - 1];
      var at :| 0 <= at < |order| && order[at] == p[0];
      var i := WalkGoesBack(g, order, p, k, at);
      DropWalks(g, p, k);
      var j := WalkGoesBack(g, order, p[k..], |p| - 1 - k, i);
    }
  }

  lemma OrderedHasNoCycle(g: Graph, order: seq<string>, x: string)
    requires NoRepeats(order) && Ordered(g, order) && x in order
    ensures !ReachesCycle(g, x)
  {
    forall p | Walk(g, p) && p[0] == x ensures !Lasso(g, p) {
      OrderedHasNoLasso(g, order, p);
    }
  }

  // ---------- where everybody waits for somebody there is a cycle ----------

  ghost predicate Inside(p: seq<string>, r: set<string>) {
    forall k :: 0 <= k < |p| ==> p[k] in r
  }

  lemma {:induction false} DistinctFits(p: seq<string>, r: set<string>)
    requires NoRepeats(p) && Inside(p, r)
    ensures |p| <= |r|
    decreases |p|
  {
    if p != [] {
      var last := p[|p| - 1];
      var q := p[..|p| - 1];
      assert forall k :: 0 <= k < |q| ==> q[k] == p[k] && q[k] in r - {last};
      DistinctFits(q, r - {last});
    }
  }

  /** x has a dependency inside r. */
  ghost predicate Waits(g: Graph, r: set<string>, x: string) {
    exists y :: y in r && Edge(g, x, y)
  }

  ghost predicate AllWait(g: Graph, r: set<string>) {
    forall x {:trigger Waits(g, r, x)} :: x in r ==> Waits(g, r, x)
  }

  lemma Extended(g: Graph, p: seq<string>, y: string)
    requires Walk(g, p) && Edge(g, p[|p| - 1], y)
    ensures Walk(g, p + [y]) && (p + [y])[0] == p[0]
    ensures y in p ==> Lasso(g, p + [y])
  {
    var q := p + [y];
    forall k | 0 <= k < |q| - 1 ensures Edge(g, q[k], q[k + 1]) {
      assert k < |p| - 1 ==> Edge(g, p[k], p[k + 1]);
    }
    if y in p {
      var k :| 0 <= k < |p| && p[k] == y;
      assert q[k] == q[|q| - 1];
    }
  }

  /** Walking on and on inside a finite set that offers a next step everywhere runs into a cycle. */
  lemma {:induction false} WalkOn(g: Graph, r: set<string>, p: seq<string>)
    requires AllWait(g, r)
    requires Walk(g, p) && NoRepeats(p) && Inside(p, r)
    ensures ReachesCycle(g, p[0])
    decreases |r| + 1 - |p|
  {
    DistinctFits(p, r);
    assert Waits(g, r, p[|p| - 1]);
    var y :| y in r && Edge(g, p[|p| - 1], y);
    Extended(g, p, y);
    if y !in p {
      WalkOn(g, r, p + [y]);
    }
  }

  lemma WaitingReachesCycle(g: Graph, r: set<string>, x: string)
    requires AllWait(g, r)
    requires x in r
    ensures ReachesCycle(g, x)
  {
    assert Waits(g, r, x);
    WalkOn(g, r, [x]);
  }

  /** Whoever depends on something that reaches a cycle reaches it too. */
  lemma EdgeToCycle(g: Graph, x: string, y: string)
    requires Edge(g, x, y) && ReachesCycle(g, y)
    ensures ReachesCycle(g, x)
  {
    var p :| Lasso(g, p) && p[0] == y;
    var q := [x] + p;
    assert forall k :: 1 <= k < |q| ==> q[k] == p[k - 1];
    var k :| 0 <= k < |p| - 1 && p[k] == p[|p| - 1];
    assert q[k + 1] == q[|q| - 1];
    assert Lasso(g, q);
  }
}
