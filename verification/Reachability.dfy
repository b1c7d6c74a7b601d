/** Reachability in a graph that may have cycles and dangling edges. */
module Reachability {

  type Graph = map<string, seq<string>>

  /** `p` starts in `from` and follows edges. */
  predicate IsPath(g: Graph, from: set<string>, p: seq<string>) {
    && p != [] && p[0] in from
    && forall i :: 0 <= i < |p| - 1 ==> p[i] in g && p[i + 1] in g[p[i]]
  }

  ghost predicate Reachable(g: Graph, from: set<string>, node: string) {
    exists p :: IsPath(g, from, p) && p[|p| - 1] == node
  }

  lemma StartReachable(g: Graph, from: set<string>, node: string)
    requires node in from
    ensures Reachable(g, from, node)
  {
    assert IsPath(g, from, [node]);
  }

  lemma EdgeReachable(g: Graph, from: set<string>, node: string, next: string)
    requires Reachable(g, from, node) && node in g && next in g[node]
    ensures Reachable(g, from, next)
  {
    var p :| IsPath(g, from, p) && p[|p| - 1] == node;
    assert IsPath(g, from, p + [next]);
  }

  /** Every node of `s` has its successors in `s`. */
  predicate Closed(g: Graph, s: set<string>) {
    forall n, next :: n in s && n in g && next in g[n] ==> next in s
  }

  /** A closed set that contains the start contains everything reachable. */
  lemma ClosedContains(g: Graph, from: set<string>, s: set<string>, node: string)
    requires from <= s && Closed(g, s) && Reachable(g, from, node)
    ensures node in s
  {
    var p :| IsPath(g, from, p) && p[|p| - 1] == node;
    PathStays(g, from, s, p, |p| - 1);
  }

  lemma {:induction false} PathStays(g: Graph, from: set<string>, s: set<string>, p: seq<string>, i: nat)
    requires from <= s && Closed(g, s) && IsPath(g, from, p) && i < |p|
    ensures p[i] in s
  {
    if i > 0 {
      PathStays(g, from, s, p, i - 1);
      assert p[i - 1 + 1] in g[p[i - 1]];
    }
  }

  lemma MoreStarts(g: Graph, from: set<string>, more: set<string>, node: string)
    requires from <= more && Reachable(g, from, node)
    ensures Reachable(g, more, node)
  {
    var p :| IsPath(g, from, p) && p[|p| - 1] == node;
    assert IsPath(g, more, p);
  }
}
