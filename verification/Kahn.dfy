/** The bookkeeping of Kahn's algorithm: in-degrees counted with multiplicity, reversed edges, the queue of
    nodes nothing holds back. */
module Kahn {
  import opened Graph

  /** How many entries of the dependency list lie in s, repetitions counted. */
  function Degree(deps: seq<string>, s: set<string>): nat {
    if deps == [] then 0 else Degree(deps[..|deps| - 1], s) + if deps[|deps| - 1] in s then 1 else 0
  }

  lemma {:induction false} DegreeDrop(deps: seq<string>, s: set<string>, x: string)
    requires x in s
    ensures Degree(deps, s) == Degree(deps, s - {x}) + multiset(deps)[x]
    decreases |deps|
  {
    if deps != [] {
      DegreeDrop(deps[..|deps| - 1], s, x);
      assert deps == deps[..|deps| - 1] + [deps[|deps| - 1]];
    }
  }

  lemma {:induction false} DegreeZero(deps: seq<string>, s: set<string>)
    ensures Degree(deps, s) == 0 <==> forall d :: d in deps ==> d !in s
    decreases |deps|
  {
    if deps != [] {
      DegreeZero(deps[..|deps| - 1], s);
      assert deps == deps[..|deps| - 1] + [deps[|deps| - 1]];
    }
  }

  type Lists = map<string, seq<string>>

  function At(m: Lists, d: string): seq<string> { if d in m then m[d] else [] }

  /** Every dependent is listed under its dependency as often as it names it. */
  ghost predicate Reversed(g: Graph, dependents: Lists) {
    forall d, x :: d in g ==> multiset(At(dependents, d))[x] == (if x in g then multiset(g[x])[d] else 0)
  }

  /** In-degrees count the dependencies not processed yet; what is processed has none left. */
  ghost predicate Counted(g: Graph, processed: set<string>, inDegree: map<string, int>) {
    && inDegree.Keys == g.Keys && processed <= g.Keys
    && (forall x :: x in g ==> inDegree[x] == Degree(g[x], g.Keys - processed))
    && (forall x :: x in processed ==> inDegree[x] == 0)
  }

  /** The queue holds, once each, the unprocessed nodes of in-degree zero. */
  ghost predicate Queued(processed: set<string>, inDegree: map<string, int>, queue: seq<string>) {
    NoRepeats(queue) && forall x :: x in queue <==> x in inDegree && x !in processed && inDegree[x] == 0
  }

  /** What releasing the dependents of one node does to the counters and the queue. */
  ghost predicate Released(list: seq<string>, before: map<string, int>, queue: seq<string>, after: map<string, int>,
          queue': seq<string>) {
    && after.Keys == before.Keys
    && (forall x :: x in before ==> after[x] == before[x] - multiset(list)[x])
    && |queue| <= |queue'| && queue'[..|queue|] == queue
    && NoRepeats(queue'[|queue|..])
    && (forall x :: x in queue'[|queue|..] <==> x in before && x in list && after[x] == 0)
  }

  /** `if (--inDegree[dependent] == 0) queue.push_back(dependent)` over a list that may repeat names. */
  method Release(list: seq<string>, inDegree: map<string, int>, queue: seq<string>)
    returns (after: map<string, int>, queue': seq<string>)
    requires forall x :: x in list ==> x in inDegree && inDegree[x] >= multiset(list)[x]
    ensures Released(list, inDegree, queue, after, queue')
  {
    after, queue' := inDegree, queue;
    ghost var news: seq<string> := [];
    for i := 0 to |list|
      invariant after.Keys == inDegree.Keys
      invariant forall x :: x in inDegree ==> after[x] == inDegree[x] - multiset(list[..i])[x]
      invariant queue' == queue + news && NoRepeats(news)
      invariant forall x :: x in news <==> x in inDegree && x in list[..i] && after[x] == 0
    {
      var x := list[i];
      assert list[..i + 1] == list[..i] + [x];
      assert list == list[..i + 1] + list[i + 1..];
      after := after[x := after[x] - 1];
      if after[x] == 0 {
        queue' := queue' + [x];
        news := news + [x];
      }
    }
    assert list[..|list|] == list;
    assert queue'[|queue|..] == news;
  }

  /** Processing the head of the queue keeps counters and queue right. */
  lemma StepCounts(g: Graph, dependents: Lists, processed: set<string>, inDegree: map<string, int>, id: string,
          x: string)
    requires Reversed(g, dependents) && Counted(g, processed, inDegree)
    requires id in g && id !in processed && x in g
    ensures inDegree[x] - multiset(At(dependents, id))[x] == Degree(g[x], g.Keys - (processed + {id}))
  {
    DegreeDrop(g[x], g.Keys - processed, id);
    assert g.Keys - processed - {id} == g.Keys - (processed + {id});
  }

  lemma DependentsKnown(g: Graph, dependents: Lists, processed: set<string>, inDegree: map<string, int>, id: string)
    requires Reversed(g, dependents) && Counted(g, processed, inDegree)
    requires id in g && id !in processed
    ensures forall x :: x in At(dependents, id) ==> x in inDegree && inDegree[x] >= multiset(At(dependents, id))[x]
  {
    forall x | x in At(dependents, id) ensures x in inDegree && inDegree[x] >= multiset(At(dependents, id))[x] {
      assert multiset(At(dependents, id))[x] > 0;
      StepCounts(g, dependents, processed, inDegree, id, x);
    }
  }

  /** What has in-degree zero is not released by anything. */
  lemma ZeroNotListed(g: Graph, dependents: Lists, processed: set<string>, inDegree: map<string, int>, id: string,
          x: string)
    requires Reversed(g, dependents) && Counted(g, processed, inDegree)
    requires id in g && id !in processed && x in inDegree && inDegree[x] == 0
    ensures x !in At(dependents, id) && multiset(At(dependents, id))[x] == 0
  {
    StepCounts(g, dependents, processed, inDegree, id, x);
    assert multiset(At(dependents, id))[x] == 0;
  }

  lemma StepKeepsCounts(g: Graph, dependents: Lists, processed: set<string>, inDegree: map<string, int>,
          queue: seq<string>,
                        after: map<string, int>, queue': seq<string>)
    requires Reversed(g, dependents) && Counted(g, processed, inDegree) && Queued(processed, inDegree, queue)
    requires queue != [] && Released(At(dependents, queue[0]), inDegree, queue[1..], after, queue')
    ensures Counted(g, processed + {queue[0]}, after)
  {
    var id := queue[0];
    assert id in queue;
    forall x | x in g ensures after[x] == Degree(g[x], g.Keys - (processed + {id})) {
      StepCounts(g, dependents, processed, inDegree, id, x);
    }
    forall x | x in processed + {id} ensures after[x] == 0 {
      ZeroNotListed(g, dependents, processed, inDegree, id, x);
    }
  }

  /** Taking the head off a queue without repetitions. */
  lemma RestOf(queue: seq<string>, x: string)
    requires queue != [] && NoRepeats(queue)
    ensures x in queue[1..] <==> x in queue && x != queue[0]
    ensures NoRepeats(queue[1..])
  {
    var rest := queue[1..];
    assert forall k :: 0 <= k < |rest| ==> rest[k] == queue[k + 1];
    assert queue == [queue[0]] + rest;
  }

  lemma JoinedDistinct(a: seq<string>, b: seq<string>)
    requires NoRepeats(a) && NoRepeats(b) && forall x :: x in a ==> x !in b
    ensures NoRepeats(a + b)
  {
    var s := a + b;
    forall i, j | 0 <= i < j < |s| ensures s[i] != s[j] {
      if i < |a| <= j { assert a[i] in a && b[j - |a|] in b; }
    }
  }

  lemma StepKeepsQueue(g: Graph, dependents: Lists, processed: set<string>, inDegree: map<string, int>,
          queue: seq<string>,
                       after: map<string, int>, queue': seq<string>)
    requires Reversed(g, dependents) && Counted(g, processed, inDegree) && Queued(processed, inDegree, queue)
    requires queue != [] && Released(At(dependents, queue[0]), inDegree, queue[1..], after, queue')
    ensures Queued(processed + {queue[0]}, after, queue')
  {
    var id, rest := queue[0], queue[1..];
    assert id in queue;
    var news := queue'[|rest|..];
    assert queue' == rest + news;
    forall x ensures x in rest ==> x !in news {
      RestOf(queue, x);
      if x in rest { ZeroNotListed(g, dependents, processed, inDegree, id, x); }
    }
    RestOf(queue, id);
    JoinedDistinct(rest, news);
    forall x ensures x in queue' <==> x in after && x !in processed + {id} && after[x] == 0 {
      RestOf(queue, x);
      assert x in queue' <==> x in rest || x in news;
      if x in inDegree && inDegree[x] == 0 {
        ZeroNotListed(g, dependents, processed, inDegree, id, x);
      } else if x in after && after[x] == 0 {
        assert multiset(At(dependents, id))[x] > 0;
      }
    }
  }

  // ---------- what the run has processed ----------

  /** list holds the elements of s, each once. */
  ghost predicate Enumerates(list: seq<string>, s: set<string>) { NoRepeats(list) && forall x :: x in list <==> x in s }

  /** A node of in-degree zero may come next in the order. */
  lemma OrderGrows(g: Graph, processed: set<string>, inDegree: map<string, int>, order: seq<string>, id: string)
    requires Counted(g, processed, inDegree) && Enumerates(order, processed) && Ordered(g, order)
    requires id in g && id !in processed && inDegree[id] == 0
    ensures Enumerates(order + [id], processed + {id}) && Ordered(g, order + [id])
  {
    var longer := order + [id];
    DegreeZero(g[id], g.Keys - processed);
    forall k, y | 0 <= k < |longer| && Edge(g, longer[k], y) ensures y in longer[..k] {
      if k < |order| {
        assert longer[k] == order[k] && longer[..k] == order[..k];
      } else {
        assert y !in g.Keys - processed;
        assert longer[..k] == order;
      }
    }
  }

  lemma Holding(g: Graph, processed: set<string>, inDegree: map<string, int>, x: string)
    requires Counted(g, processed, inDegree) && Queued(processed, inDegree, [])
    requires x in g && x !in processed
    ensures Waits(g, g.Keys - processed, x)
  {
    DegreeZero(g[x], g.Keys - processed);
    assert x !in [];
    var d :| d in g[x] && d in g.Keys - processed;
    assert Edge(g, x, d);
  }

  /** Exactness: when the queue is empty, the processed nodes are those with no path into a cycle. */
  lemma KahnExact(g: Graph, processed: set<string>, inDegree: map<string, int>, order: seq<string>, x: string)
    requires Counted(g, processed, inDegree) && Queued(processed, inDegree, [])
    requires Enumerates(order, processed) && Ordered(g, order) && x in g
    ensures x in processed <==> !ReachesCycle(g, x)
  {
    if x in processed {
      OrderedHasNoCycle(g, order, x);
    } else {
      forall y ensures y in g.Keys - processed ==> Waits(g, g.Keys - processed, y) {
        if y in g.Keys - processed { Holding(g, processed, inDegree, y); }
      }
      WaitingReachesCycle(g, g.Keys - processed, x);
    }
  }
}
