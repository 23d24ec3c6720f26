/**
 The action dependency graph: what a deterministic order of it is, and why Kahn's algorithm decides cycles.
 Nodes are action ids; an edge (u, v) says that v consumes a state u produces.
 */
module RecipeGraph {
  import opened Text

  /** `rank` holds each action's authored order, which with its id is the sort key. */
  datatype Digraph = Digraph(nodes: set<string>, edges: set<(string, string)>, rank: map<string, int>)

  ghost predicate WellFormed(g: Digraph) {
    && (forall e :: e in g.edges ==> e.0 in g.nodes && e.1 in g.nodes)
    && g.nodes <= g.rank.Keys
  }

  // ----- keys ------------------------------------------------------------------

  /** Python's order on the tuples (order, id). */
  predicate KeyLess(g: Digraph, a: string, b: string)
    requires a in g.rank && b in g.rank
  {
    g.rank[a] < g.rank[b] || (g.rank[a] == g.rank[b] && LexLess(a, b))
  }

  ghost predicate IsLeast(g: Digraph, s: set<string>, v: string)
    requires s <= g.rank.Keys
  {
    v in s && forall w :: w in s && w != v ==> KeyLess(g, v, w)
  }

  lemma KeyTotal(g: Digraph, a: string, b: string)
    requires a in g.rank && b in g.rank
    ensures KeyLess(g, a, b) || a == b || KeyLess(g, b, a)
    ensures !(KeyLess(g, a, b) && KeyLess(g, b, a))
    ensures a == b ==> !KeyLess(g, a, b)
  {
    LexLessTotal(a, b);
  }

  lemma KeyTransitive(g: Digraph, a: string, b: string, c: string)
    requires a in g.rank && b in g.rank && c in g.rank
    requires KeyLess(g, a, b) && KeyLess(g, b, c)
    ensures KeyLess(g, a, c)
  {
    if g.rank[a] == g.rank[b] == g.rank[c] {
      LexLessTransitive(a, b, c);
    }
  }

  lemma {:induction false} LeastExists(g: Digraph, s: set<string>) returns (v: string)
    requires s != {} && s <= g.rank.Keys
    ensures IsLeast(g, s, v)
  {
    v :| v in s;
    if s != {v} {
      var w := LeastExists(g, s - {v});
      KeyTotal(g, v, w);
      if KeyLess(g, w, v) {
        v := w;
      } else {
        forall x | x in s && x != v ensures KeyLess(g, v, x) {
          if x != w {
            KeyTransitive(g, v, w, x);
          }
        }
      }
    }
  }

  lemma LeastUnique(g: Digraph, s: set<string>, v: string, w: string)
    requires s <= g.rank.Keys && IsLeast(g, s, v) && IsLeast(g, s, w)
    ensures v == w
  {
    KeyTotal(g, v, w);
  }

  // ----- the greedy order ---------------------------------------------------------

  ghost function Elements<T>(s: seq<T>): set<T> {
    set i | 0 <= i < |s| :: s[i]
  }

  ghost predicate Released(g: Digraph, done: set<string>, v: string) {
    forall e :: e in g.edges && e.1 == v ==> e.0 in done
  }

  /** The nodes not emitted yet whose every predecessor is. */
  ghost function Ready(g: Digraph, done: set<string>): set<string> {
    set v | v in g.nodes && v !in done && Released(g, done, v)
  }

  /** Each emitted node is the least of those ready, and nothing is ready at the end. */
  ghost predicate IsGreedy(g: Digraph, out: seq<string>)
    requires WellFormed(g)
  {
    && (forall k :: 0 <= k < |out| ==> IsLeast(g, Ready(g, Elements(out[..k])), out[k]))
    && Ready(g, Elements(out)) == {}
  }

  lemma ElementsSnoc<T>(s: seq<T>, x: T)
    ensures Elements(s + [x]) == Elements(s) + {x}
  {
    assert (s + [x])[|s|] == x;
    assert forall i :: 0 <= i < |s| ==> (s + [x])[i] == s[i];
  }

  lemma ElementsTake<T>(s: seq<T>, k: nat)
    requires k < |s|
    ensures Elements(s[..k + 1]) == Elements(s[..k]) + {s[k]}
  {
    assert s[..k + 1] == s[..k] + [s[k]];
    ElementsSnoc(s[..k], s[k]);
  }

  lemma {:induction false} GreedyFrom(g: Digraph, done: seq<string>) returns (out: seq<string>)
    requires WellFormed(g)
    requires Elements(done) <= g.nodes
    requires forall k :: 0 <= k < |done| ==> IsLeast(g, Ready(g, Elements(done[..k])), done[k])
    ensures done <= out && IsGreedy(g, out)
    decreases |g.nodes - Elements(done)|
  {
    var ready := Ready(g, Elements(done));
    if ready == {} {
      return done;
    }
    var v := LeastExists(g, ready);
    var more := done + [v];
    ElementsSnoc(done, v);
    assert g.nodes - Elements(more) < g.nodes - Elements(done) by {
      assert v in g.nodes - Elements(done) && v !in g.nodes - Elements(more);
    }
    SmallerSet(g.nodes - Elements(more), g.nodes - Elements(done));
    forall k | 0 <= k < |more| ensures IsLeast(g, Ready(g, Elements(more[..k])), more[k]) {
      if k < |done| {
        assert more[..k] == done[..k];
      } else {
        assert more[..k] == done;
      }
    }
    out := GreedyFrom(g, more);
  }

  lemma SmallerSet<T>(a: set<T>, b: set<T>)
    requires a < b
    ensures |a| < |b|
  {
    var x :| x in b && x !in a;
    assert a <= b - {x};
    SubsetSize(a, b - {x});
  }

  lemma {:induction false} SubsetSize<T>(a: set<T>, b: set<T>)
    requires a <= b
    ensures |a| <= |b|
  {
    if a != {} {
      var x :| x in a;
      SubsetSize(a - {x}, b - {x});
    }
  }

  /** There is one greedy order, so it depends on the graph alone. */
  lemma {:induction false} GreedyUnique(g: Digraph, s: seq<string>, t: seq<string>)
    requires WellFormed(g) && IsGreedy(g, s) && IsGreedy(g, t)
    ensures s == t
  {
    var n := if |s| <= |t| then |s| else |t|;
    GreedyAgree(g, s, t, n);
    GreedyGoesOn(g, s, n);
    GreedyGoesOn(g, t, n);
    assert s[..|s|] == s && t[..|t|] == t;
  }

  lemma GreedyGoesOn(g: Digraph, s: seq<string>, n: nat)
    requires WellFormed(g) && IsGreedy(g, s) && n <= |s|
    ensures n == |s| <==> Ready(g, Elements(s[..n])) == {}
  {
    assert s[..|s|] == s;
    assert n < |s| ==> IsLeast(g, Ready(g, Elements(s[..n])), s[n]);
  }

  lemma {:induction false} GreedyAgree(g: Digraph, s: seq<string>, t: seq<string>, n: nat)
    requires WellFormed(g) && IsGreedy(g, s) && IsGreedy(g, t)
    requires n <= |s| && n <= |t|
    ensures s[..n] == t[..n]
  {
    if n > 0 {
      GreedyAgree(g, s, t, n - 1);
      LeastUnique(g, Ready(g, Elements(s[..n - 1])), s[n - 1], t[n - 1]);
      assert s[..n] == s[..n - 1] + [s[n - 1]];
      assert t[..n] == t[..n - 1] + [t[n - 1]];
    }
  }

  /** The deterministic order of the nodes that can be ordered. */
  ghost function GreedyOrder(g: Digraph): (out: seq<string>)
    requires WellFormed(g)
    ensures IsGreedy(g, out)
  {
    GreedyExists(g);
    var out :| IsGreedy(g, out);
    out
  }

  lemma GreedyExists(g: Digraph)
    requires WellFormed(g)
    ensures exists out :: IsGreedy(g, out)
  {
    var out := GreedyFrom(g, []);
  }

  // ----- topological orders -----------------------------------------------------------

  ghost predicate NoRepeats<T>(s: seq<T>) {
    forall i, j :: 0 <= i < j < |s| ==> s[i] != s[j]
  }

  /** All nodes, each once, each after everything it depends on. */
  ghost predicate IsTopological(g: Digraph, s: seq<string>) {
    && NoRepeats(s)
    && Elements(s) == g.nodes
    && (forall k :: 0 <= k < |s| ==> Released(g, Elements(s[..k]), s[k]))
  }

  lemma GreedyNoRepeats(g: Digraph, out: seq<string>)
    requires WellFormed(g) && IsGreedy(g, out)
    ensures NoRepeats(out) && Elements(out) <= g.nodes
  {
    forall i, j | 0 <= i < j < |out| ensures out[i] != out[j] {
      assert out[j] in Ready(g, Elements(out[..j]));
      assert out[..j][i] == out[i];
    }
    forall v | v in Elements(out) ensures v in g.nodes {
      var k :| 0 <= k < |out| && out[k] == v;
      assert IsLeast(g, Ready(g, Elements(out[..k])), out[k]);
    }
  }

  /** When the greedy order covers every node it is topological. */
  lemma GreedyTopological(g: Digraph, out: seq<string>)
    requires WellFormed(g) && IsGreedy(g, out) && Elements(out) == g.nodes
    ensures IsTopological(g, out)
  {
    GreedyNoRepeats(g, out);
    forall k | 0 <= k < |out| ensures Released(g, Elements(out[..k]), out[k]) {
      assert IsLeast(g, Ready(g, Elements(out[..k])), out[k]);
    }
  }

  /** Lexicographic order of two sequences by key. */
  ghost predicate SeqLess(g: Digraph, s: seq<string>, t: seq<string>)
    requires Elements(s) <= g.rank.Keys && Elements(t) <= g.rank.Keys
  {
    exists k :: DiffersAt(g, s, t, k)
  }

  /** `s` and `t` agree before k, where `s` has the smaller key. */
  ghost predicate DiffersAt(g: Digraph, s: seq<string>, t: seq<string>, k: nat)
    requires Elements(s) <= g.rank.Keys && Elements(t) <= g.rank.Keys
  {
    && k < |s| && k < |t| && s[..k] == t[..k]
    && s[k] in Elements(s) && t[k] in Elements(t) && KeyLess(g, s[k], t[k])
  }

  /** The greedy order is the least of all topological orders. */
  lemma {:induction false} GreedyLeast(g: Digraph, out: seq<string>, t: seq<string>)
    requires WellFormed(g) && IsGreedy(g, out) && Elements(out) == g.nodes
    requires IsTopological(g, t)
    ensures out == t || SeqLess(g, out, t)
  {
    GreedyNoRepeats(g, out);
    SameSize(out, t);
    if out != t {
      var k := FirstDifference(out, t);
      assert out[..k] == t[..k];
      var ready := Ready(g, Elements(out[..k]));
      assert t[k] in ready by {
        assert t[k] in Elements(t);
        assert Released(g, Elements(t[..k]), t[k]);
        NotBefore(t, k);
      }
      assert IsLeast(g, ready, out[k]);
      assert DiffersAt(g, out, t, k);
    }
  }

  lemma NotBefore<T>(s: seq<T>, k: nat)
    requires NoRepeats(s) && k < |s|
    ensures s[k] !in Elements(s[..k])
  {
    assert forall i :: 0 <= i < k ==> s[..k][i] == s[i] && s[i] != s[k];
  }

  lemma {:induction false} FirstDifference<T>(s: seq<T>, t: seq<T>) returns (k: nat)
    requires |s| == |t| && s != t
    ensures k < |s| && s[..k] == t[..k] && s[k] != t[k]
  {
    if s[0] != t[0] {
      k := 0;
    } else {
      assert s == [s[0]] + s[1..] && t == [t[0]] + t[1..];
      var j := FirstDifference(s[1..], t[1..]);
      k := j + 1;
      assert s[..k] == [s[0]] + s[1..][..j];
      assert t[..k] == [t[0]] + t[1..][..j];
    }
  }

  lemma {:induction false} NoRepeatsSize<T>(s: seq<T>)
    requires NoRepeats(s)
    ensures |Elements(s)| == |s|
  {
    if s != [] {
      var t := s[..|s| - 1];
      NoRepeatsSize(t);
      ElementsTake(s, |s| - 1);
      assert s[..|s|] == s;
      assert s[|s| - 1] !in Elements(t);
    }
  }

  lemma SameSize<T>(s: seq<T>, t: seq<T>)
    requires NoRepeats(s) && NoRepeats(t) && Elements(s) == Elements(t)
    ensures |s| == |t|
  {
    NoRepeatsSize(s);
    NoRepeatsSize(t);
  }

  // ----- cycles ---------------------------------------------------------------------

  ghost predicate IsPath(g: Digraph, p: seq<string>) {
    forall i :: 0 <= i < |p| - 1 ==> (p[i], p[i + 1]) in g.edges
  }

  /** A path with at least one edge that ends where it starts. */
  ghost predicate IsCycle(g: Digraph, p: seq<string>) {
    |p| >= 2 && p[0] == p[|p| - 1] && IsPath(g, p)
  }

  ghost predicate HasCycle(g: Digraph) {
    exists p :: IsCycle(g, p)
  }

  /** Along a topological order every path moves to the right. */
  lemma {:induction false} PathMovesRight(g: Digraph, t: seq<string>, p: seq<string>, i: nat, j: nat)
    requires WellFormed(g) && IsTopological(g, t) && IsPath(g, p) && |p| >= 2
    requires i < |t| && j < |t| && t[i] == p[0] && t[j] == p[|p| - 1]
    ensures i < j
  {
    var e := (p[|p| - 2], p[|p| - 1]);
    assert e in g.edges;
    assert Released(g, Elements(t[..j]), t[j]);
    var k :| 0 <= k < j && t[..j][k] == e.0;
    if |p| > 2 {
      PathMovesRight(g, t, p[..|p| - 1], i, k);
    }
  }

  lemma {:induction false} TopologicalAcyclic(g: Digraph, t: seq<string>)
    requires WellFormed(g) && IsTopological(g, t)
    ensures !HasCycle(g)
  {
    if HasCycle(g) {
      var p :| IsCycle(g, p);
      assert (p[0], p[1]) in g.edges;
      assert p[0] in Elements(t);
      var i :| 0 <= i < |t| && t[i] == p[0];
      PathMovesRight(g, t, p, i, i);
    }
  }

  ghost predicate HasPredecessor(g: Digraph, s: set<string>, v: string) {
    exists u :: u in s && (u, v) in g.edges
  }

  lemma PathCons(g: Digraph, u: string, p: seq<string>)
    requires p != [] && IsPath(g, p) && (u, p[0]) in g.edges
    ensures IsPath(g, [u] + p)
    ensures Elements([u] + p) == {u} + Elements(p)
  {
    var q := [u] + p;
    forall i | 0 <= i < |q| - 1 ensures (q[i], q[i + 1]) in g.edges {
      if i > 0 {
        assert (p[i - 1], p[i]) in g.edges;
      }
    }
    assert q[0] == u && forall i :: 0 <= i < |p| ==> q[i + 1] == p[i];
  }

  lemma ElementsOfTake<T>(s: seq<T>, k: nat)
    requires k <= |s|
    ensures Elements(s[..k]) <= Elements(s)
  {
    assert forall i :: 0 <= i < k ==> s[..k][i] == s[i];
  }

  lemma CloseCycle(g: Digraph, q: seq<string>) returns (c: seq<string>)
    requires |q| > 1 && IsPath(g, q) && q[0] in Elements(q[1..])
    ensures IsCycle(g, c) && Elements(c) <= Elements(q)
  {
    var k :| 0 <= k < |q| - 1 && q[1..][k] == q[0];
    c := q[..k + 2];
    ElementsOfTake(q, k + 2);
  }

  /** Walking back from a path whose every node has a predecessor in `stuck` must close a cycle. */
  lemma {:induction false} WalkBack(g: Digraph, stuck: set<string>, p: seq<string>) returns (c: seq<string>)
    requires forall v :: v in stuck ==> HasPredecessor(g, stuck, v)
    requires p != [] && NoRepeats(p) && Elements(p) <= stuck && IsPath(g, p)
    ensures IsCycle(g, c) && Elements(c) <= stuck
    decreases |stuck| - |p|
  {
    assert p[0] in Elements(p);
    assert HasPredecessor(g, stuck, p[0]);
    var u :| u in stuck && (u, p[0]) in g.edges;
    PathCons(g, u, p);
    var q := [u] + p;
    if u in Elements(p) {
      c := CloseCycle(g, q);
    } else {
      NoRepeatsSize(q);
      SubsetSize(Elements(q), stuck);
      c := WalkBack(g, stuck, q);
    }
  }

  /** If emission stops early, the nodes left over contain a cycle. */
  lemma {:induction false} StuckCycle(g: Digraph, done: set<string>) returns (c: seq<string>)
    requires WellFormed(g) && Ready(g, done) == {} && !(g.nodes <= done)
    ensures IsCycle(g, c) && Elements(c) <= g.nodes - done
  {
    var stuck := g.nodes - done;
    forall v | v in stuck ensures HasPredecessor(g, stuck, v) {
      assert v !in Ready(g, done);
      var e :| e in g.edges && e.1 == v && e.0 !in done;
      assert (e.0, v) in g.edges;
    }
    var v :| v in g.nodes && v !in done;
    c := WalkBack(g, stuck, [v]);
  }

  /** Kahn's emission covers the graph exactly when the graph has no cycle, whatever order ready nodes are taken in. */
  lemma {:induction false} KahnExact(g: Digraph, out: seq<string>)
    requires WellFormed(g) && NoRepeats(out) && Elements(out) <= g.nodes
    requires forall k :: 0 <= k < |out| ==> Released(g, Elements(out[..k]), out[k])
    requires Ready(g, Elements(out)) == {}
    ensures Elements(out) == g.nodes <==> !HasCycle(g)
    ensures |out| == |g.nodes| <==> !HasCycle(g)
  {
    NoRepeatsSize(out);
    if Elements(out) == g.nodes {
      TopologicalAcyclic(g, out);
    } else {
      SmallerSet(Elements(out), g.nodes);
      var c := StuckCycle(g, Elements(out));
    }
  }

  /** An acyclic graph with a node has a node nothing depends on. */
  lemma SinkExists(g: Digraph) returns (v: string)
    requires WellFormed(g) && g.nodes != {} && !HasCycle(g)
    ensures v in g.nodes && forall e :: e in g.edges ==> e.0 != v
  {
    var out := GreedyOrder(g);
    GreedyNoRepeats(g, out);
    forall k | 0 <= k < |out| ensures Released(g, Elements(out[..k]), out[k]) {
      assert IsLeast(g, Ready(g, Elements(out[..k])), out[k]);
    }
    KahnExact(g, out);
    assert out != [];
    v := out[|out| - 1];
    assert v in Elements(out);
    forall e | e in g.edges ensures e.0 != v {
      assert e.1 in Elements(out);
      var k :| 0 <= k < |out| && out[k] == e.1;
      assert Released(g, Elements(out[..k]), out[k]);
      var i :| 0 <= i < k && out[..k][i] == e.0;
    }
  }
}
