/** The statistics tree of the AlphaZero-style Monte Carlo tree search
    (alphazero/node.py).

    Every node lives in an arena: a sequence of node records addressed by
    index. A node names its parent by index (`None` for a root) and its
    children through the entries of its action-to-child dictionary. The source's mutable
    `Node` objects become the records of the arena held by class `Tree`;
    each of its methods is proved against a pure function of the arena
    (`Expanded`, `Updated`, `BackedUp`), and the properties of search are
    lemmas about those functions. */
module Mcts {

  datatype Option<T> = None | Some(value: T)

  /** The exploration constant the source's constructor uses by default. */
  const DefaultCPuct: real := 5.0

  /** The fields of one node. `children` is the source's dictionary from
      action to child: its entries (action, arena index of the child) in the
      dictionary's iteration order, which is the order in which the keys were
      first inserted. */
  datatype Node = Node(
    cPuct: real,
    parent: Option<nat>,
    P: real,
    Q: real,
    U: real,
    N: nat,
    score: real,
    children: Entries)

  type Entries = seq<(int, nat)>

  type Arena = seq<Node>

  /** A node as the constructor builds it: no visits, no statistics, no children. */
  function Fresh(prior: real, cPuct: real, parent: Option<nat>): Node
  {
    Node(cPuct, parent, prior, 0.0, 0.0, 0, 0.0, [])
  }

  // ---------------------------------------------------------------------
  // The children dictionary
  // ---------------------------------------------------------------------

  /** A dictionary holds each key at most once. */
  predicate DistinctKeys(e: Entries)
  {
    forall p, q | 0 <= p < q < |e| :: e[p].0 != e[q].0
  }

  predicate HasKey(e: Entries, a: int)
  {
    exists k | 0 <= k < |e| :: e[k].0 == a
  }

  /** The position of key `a`, or `|e|` when it is absent. */
  function IndexOf(e: Entries, a: int): (k: nat)
    ensures k <= |e|
    ensures k < |e| ==> e[k].0 == a
    ensures forall j | 0 <= j < k :: e[j].0 != a
    decreases |e|
  {
    if e == [] then 0
    else if e[0].0 == a then 0
    else 1 + IndexOf(e[1..], a)
  }

  /** `d[a] = v`: an existing entry is replaced where it stands, a new key
      goes to the end. */
  function Assign(e: Entries, a: int, v: nat): Entries
  {
    var k := IndexOf(e, a);
    if k < |e| then e[k := (a, v)] else e + [(a, v)]
  }

  /** Assignment keeps the keys distinct and every other entry in place, and
      afterwards `a` is a key. */
  lemma AssignFacts(e: Entries, a: int, v: nat)
    requires DistinctKeys(e)
    ensures var r := Assign(e, a, v);
      && DistinctKeys(r)
      && |r| == (if HasKey(e, a) then |e| else |e| + 1)
      && (forall k | 0 <= k < |e| :: r[k] == if e[k].0 == a then (a, v) else e[k])
      && (!HasKey(e, a) ==> r[|e|] == (a, v))
      && HasKey(r, a)
  {
    var k := IndexOf(e, a);
    if HasKey(e, a) {
      var w :| 0 <= w < |e| && e[w].0 == a;
      assert k < |e|;
      assert Assign(e, a, v)[k].0 == a;
    } else {
      assert Assign(e, a, v)[|e|].0 == a;
    }
  }

  // ---------------------------------------------------------------------
  // The arena
  // ---------------------------------------------------------------------

  /** Entry `k` of node `j` leads to a node created after `j` whose parent is `j`. */
  ghost predicate ChildLink(nodes: Arena, j: nat, k: nat)
    requires j < |nodes| && k < |nodes[j].children|
  {
    var c := nodes[j].children[k].1;
    j < c < |nodes| && nodes[c].parent == Some(j)
  }

  /** Every parent was created before its children, so parent links lead
      towards a root. */
  ghost predicate ParentsBefore(nodes: Arena)
  {
    forall j | 0 <= j < |nodes| :: nodes[j].parent.Some? ==> nodes[j].parent.value < j
  }

  /** The arena is a forest: a parent was created before its children, every
      child entry points into the arena at a node that names it as parent, and
      each dictionary holds a key once. */
  ghost predicate WellFormed(nodes: Arena)
  {
    ParentsBefore(nodes) &&
    (forall j, k | 0 <= j < |nodes| && 0 <= k < |nodes[j].children| :: ChildLink(nodes, j, k)) &&
    (forall j | 0 <= j < |nodes| :: DistinctKeys(nodes[j].children))
  }

  /** The statistics of node `j` in a reachable arena, when `sqrt(0) == 0`:
      its score is `U + Q`; a root keeps its initial statistics (backup never
      updates a parentless node); so a child of a root always has `U == 0`. */
  ghost predicate StatsOk(nodes: Arena, j: nat)
    requires j < |nodes|
  {
    nodes[j].score == nodes[j].U + nodes[j].Q &&
    match nodes[j].parent
    case None => nodes[j].N == 0 && nodes[j].Q == 0.0 && nodes[j].U == 0.0
    case Some(p) => p < |nodes| && nodes[p].parent.None? ==> nodes[j].U == 0.0
  }

  ghost predicate StatsInvariant(nodes: Arena)
  {
    forall j | 0 <= j < |nodes| :: StatsOk(nodes, j)
  }

  /** Backup changes statistics only: links, priors and constants stay. */
  predicate SameShape(a: Node, b: Node)
  {
    a.cPuct == b.cPuct && a.parent == b.parent && a.P == b.P && a.children == b.children
  }

  lemma ShapeKeepsWellFormed(a: Arena, b: Arena)
    requires WellFormed(b) && |a| == |b|
    requires forall j | 0 <= j < |a| :: SameShape(a[j], b[j])
    ensures WellFormed(a)
  {
    forall j, k | 0 <= j < |a| && 0 <= k < |a[j].children| ensures ChildLink(a, j, k) {
      assert ChildLink(b, j, k);
    }
    forall j | 0 <= j < |a| ensures DistinctKeys(a[j].children) {
      assert DistinctKeys(b[j].children);
    }
  }

  /** Every child entry of node `i` leads into the arena. */
  lemma ChildrenInArena(nodes: Arena, i: nat)
    requires WellFormed(nodes) && i < |nodes|
    ensures forall k | 0 <= k < |nodes[i].children| :: nodes[i].children[k].1 < |nodes|
  {
    forall k | 0 <= k < |nodes[i].children| ensures nodes[i].children[k].1 < |nodes| {
      assert ChildLink(nodes, i, k);
    }
  }

  /** A new parentless node keeps the arena well formed and the statistics
      invariant. */
  lemma AddRootKeeps(nodes: Arena, prior: real, cPuct: real)
    requires WellFormed(nodes) && StatsInvariant(nodes)
    ensures WellFormed(nodes + [Fresh(prior, cPuct, None)])
    ensures StatsInvariant(nodes + [Fresh(prior, cPuct, None)])
  {
    var r := nodes + [Fresh(prior, cPuct, None)];
    forall j | 0 <= j < |r| ensures DistinctKeys(r[j].children) && StatsOk(r, j) {
      if j < |nodes| {
        assert r[j] == nodes[j];
        assert DistinctKeys(nodes[j].children) && StatsOk(nodes, j);
        if nodes[j].parent.Some? && nodes[j].parent.value < |nodes| {
          assert r[nodes[j].parent.value] == nodes[nodes[j].parent.value];
        }
      }
    }
    forall j, k | 0 <= j < |r| && 0 <= k < |r[j].children| ensures ChildLink(r, j, k) {
      assert j < |nodes| && r[j] == nodes[j];
      assert ChildLink(nodes, j, k);
    }
  }

  // ---------------------------------------------------------------------
  // is_leaf_node and select
  // ---------------------------------------------------------------------

  /** `is_leaf_node`: the dictionary of children is empty. */
  function IsLeaf(nodes: Arena, i: nat): bool
    requires i < |nodes|
  {
    |nodes[i].children| == 0
  }

  /** A leaf is a node under which no action leads to a child. */
  lemma LeafHasNoChild(nodes: Arena, i: nat)
    requires i < |nodes|
    ensures IsLeaf(nodes, i) <==> forall a :: !HasKey(nodes[i].children, a)
  {
    if !IsLeaf(nodes, i) {
      assert HasKey(nodes[i].children, nodes[i].children[0].0);
    }
  }

  /** The index of the first maximum of `s`, as a left-to-right scan that
      replaces its candidate only on a strictly greater value finds it. */
  function FirstMaxIndex(s: seq<real>): (k: nat)
    requires |s| > 0
    ensures k < |s|
    ensures forall j | 0 <= j < |s| :: s[j] <= s[k]
    ensures forall j | 0 <= j < k :: s[j] < s[k]
    decreases |s|
  {
    if |s| == 1 then 0
    else
      var best := FirstMaxIndex(s[..|s| - 1]);
      if s[|s| - 1] > s[best] then |s| - 1 else best
  }

  /** The children's scores in the dictionary's iteration order. */
  function ChildScores(nodes: Arena, i: nat): (s: seq<real>)
    requires WellFormed(nodes) && i < |nodes|
    ensures |s| == |nodes[i].children|
    ensures forall k | 0 <= k < |s| :: nodes[i].children[k].1 < |nodes| && s[k] == nodes[nodes[i].children[k].1].score
  {
    ChildrenInArena(nodes, i);
    var cs := nodes[i].children;
    seq(|cs|, k requires 0 <= k < |cs| => nodes[cs[k].1].score)
  }

  /** `select`: the (action, child) entry of greatest score; among equal
      scores the one first in iteration order, as `max` returns it. On a
      leaf `max` raises for want of entries, which is `None` here. */
  function Select(nodes: Arena, i: nat): (r: Option<(int, nat)>)
    requires WellFormed(nodes) && i < |nodes|
    ensures r.None? <==> IsLeaf(nodes, i)
    ensures r.Some? ==> r.value.1 < |nodes|
    ensures r.Some? ==>
              exists k | 0 <= k < |nodes[i].children| :: nodes[i].children[k] == r.value &&
                forall j | 0 <= j < k :: ChildScores(nodes, i)[j] < nodes[r.value.1].score
    ensures r.Some? ==> forall j | 0 <= j < |nodes[i].children| :: ChildScores(nodes, i)[j] <= nodes[r.value.1].score
  {
    if IsLeaf(nodes, i) then None
    else
      ChildrenInArena(nodes, i);
      var k := FirstMaxIndex(ChildScores(nodes, i));
      Some(nodes[i].children[k])
  }

  // ---------------------------------------------------------------------
  // expand
  // ---------------------------------------------------------------------

  /** Some pair of the list carries action `a`. */
  predicate Mentions(pairs: seq<(int, real)>, a: int)
  {
    exists k | 0 <= k < |pairs| :: pairs[k].0 == a
  }

  /** Pair `t` is the last pair that carries action `a`. */
  predicate LastFor(pairs: seq<(int, real)>, a: int, t: int)
  {
    0 <= t < |pairs| && pairs[t].0 == a && forall k | t < k < |pairs| :: pairs[k].0 != a
  }

  /** One step of `expand`: a fresh child for `action`, appended to the arena
      and entered in the node's dictionary. */
  function Inserted(nodes: Arena, i: nat, action: int, prior: real): Arena
    requires i < |nodes|
  {
    var n := nodes[i];
    nodes[i := n.(children := Assign(n.children, action, |nodes|))] + [Fresh(prior, n.cPuct, Some(i))]
  }

  /** `expand`: the pairs inserted one after another, first to last. */
  function Expanded(nodes: Arena, i: nat, pairs: seq<(int, real)>): (r: Arena)
    requires i < |nodes|
    ensures |r| == |nodes| + |pairs|
    decreases |pairs|
  {
    if pairs == [] then nodes
    else
      var last := pairs[|pairs| - 1];
      Inserted(Expanded(nodes, i, pairs[..|pairs| - 1]), i, last.0, last.1)
  }

  /** What `expand` does to the arena outside the expanding node's
      dictionary: each pair gets its own fresh node with the given prior, the
      parent's `c_puct` and the expanding node as parent; no other node and
      none of the expanding node's statistics change. */
  lemma {:induction false} ExpandedNodes(nodes: Arena, i: nat, pairs: seq<(int, real)>)
    requires i < |nodes|
    ensures var r, m := Expanded(nodes, i, pairs), |nodes|;
      && (forall j | 0 <= j < m && j != i :: r[j] == nodes[j])
      && r[i] == nodes[i].(children := r[i].children)
      && (forall k | 0 <= k < |pairs| :: r[m + k] == Fresh(pairs[k].1, nodes[i].cPuct, Some(i)))
    decreases |pairs|
  {
    if pairs != [] {
      var init := pairs[..|pairs| - 1];
      var last := pairs[|pairs| - 1];
      ExpandedNodes(nodes, i, init);
      var r := Expanded(nodes, i, pairs);
      forall k | 0 <= k < |pairs| ensures r[|nodes| + k] == Fresh(pairs[k].1, nodes[i].cPuct, Some(i)) {
        if k < |init| { assert init[k] == pairs[k]; }
      }
    }
  }

  /** The actions of a list are those of all but its last pair, and the last. */
  lemma MentionsStep(pairs: seq<(int, real)>)
    requires pairs != []
    ensures forall a :: Mentions(pairs, a) <==> Mentions(pairs[..|pairs| - 1], a) || a == pairs[|pairs| - 1].0
  {
    var init := pairs[..|pairs| - 1];
    forall a ensures Mentions(pairs, a) <==> Mentions(init, a) || a == pairs[|pairs| - 1].0 {
      if Mentions(init, a) {
        var k :| 0 <= k < |init| && init[k].0 == a;
        assert pairs[k] == init[k];
      }
      if Mentions(pairs, a) && a != pairs[|pairs| - 1].0 {
        var k :| 0 <= k < |pairs| && pairs[k].0 == a;
        assert init[k] == pairs[k];
      }
      if a == pairs[|pairs| - 1].0 {
        assert pairs[|pairs| - 1].0 == a;
      }
    }
  }

  /** One step of `expand` on the dictionary: an assignment of the new index. */
  lemma ExpandedStep(nodes: Arena, i: nat, pairs: seq<(int, real)>)
    requires i < |nodes| && pairs != []
    ensures Expanded(nodes, i, pairs)[i].children ==
      Assign(Expanded(nodes, i, pairs[..|pairs| - 1])[i].children, pairs[|pairs| - 1].0, |nodes| + |pairs| - 1)
  {
  }

  /** The keys of the expanding node's dictionary after `expand`: the old keys
      and the actions of the pairs, each once, the old keys where they stood. */
  lemma {:induction false} ExpandedKeys(nodes: Arena, i: nat, pairs: seq<(int, real)>)
    requires i < |nodes| && DistinctKeys(nodes[i].children)
    ensures var c, c0 := Expanded(nodes, i, pairs)[i].children, nodes[i].children;
      && DistinctKeys(c)
      && |c0| <= |c|
      && (forall k | 0 <= k < |c0| :: c[k].0 == c0[k].0)
      && (forall a :: HasKey(c, a) <==> HasKey(c0, a) || Mentions(pairs, a))
    decreases |pairs|
  {
    if pairs != [] {
      var init := pairs[..|pairs| - 1];
      var last := pairs[|pairs| - 1];
      ExpandedKeys(nodes, i, init);
      var before := Expanded(nodes, i, init)[i].children;
      var c := Expanded(nodes, i, pairs)[i].children;
      ExpandedStep(nodes, i, pairs);
      AssignFacts(before, last.0, |nodes| + |init|);
      MentionsStep(pairs);
      forall a ensures HasKey(c, a) <==> HasKey(nodes[i].children, a) || Mentions(pairs, a) {
        if HasKey(c, a) && a != last.0 {
          var k :| 0 <= k < |c| && c[k].0 == a;
          assert k < |before| && before[k].0 == a;
        }
        if HasKey(before, a) {
          var k :| 0 <= k < |before| && before[k].0 == a;
          assert c[k].0 == a;
        }
      }
    }
  }

  /** The entry of an action that no pair carries is kept by `expand`. */
  lemma {:induction false} ExpandedKeeps(nodes: Arena, i: nat, pairs: seq<(int, real)>)
    requires i < |nodes| && DistinctKeys(nodes[i].children)
    ensures var c, c0 := Expanded(nodes, i, pairs)[i].children, nodes[i].children;
      forall k | 0 <= k < |c0| && !Mentions(pairs, c0[k].0) :: k < |c| && c[k] == c0[k]
    decreases |pairs|
  {
    if pairs != [] {
      var init := pairs[..|pairs| - 1];
      var last := pairs[|pairs| - 1];
      ExpandedKeeps(nodes, i, init);
      ExpandedKeys(nodes, i, init);
      var before := Expanded(nodes, i, init)[i].children;
      ExpandedStep(nodes, i, pairs);
      AssignFacts(before, last.0, |nodes| + |init|);
      MentionsStep(pairs);
    }
  }

  /** `expand` keeps the keys of the dictionary distinct. */
  lemma {:induction false} ExpandedDistinct(nodes: Arena, i: nat, pairs: seq<(int, real)>)
    requires i < |nodes| && DistinctKeys(nodes[i].children)
    ensures DistinctKeys(Expanded(nodes, i, pairs)[i].children)
    decreases |pairs|
  {
    if pairs != [] {
      var init := pairs[..|pairs| - 1];
      ExpandedDistinct(nodes, i, init);
      ExpandedStep(nodes, i, pairs);
      AssignFacts(Expanded(nodes, i, init)[i].children, pairs[|pairs| - 1].0, |nodes| + |init|);
    }
  }

  /** A last occurrence in all but the last pair stays the last occurrence
      when the last pair carries another action. */
  lemma LastForExtend(pairs: seq<(int, real)>, a: int, t: int)
    requires pairs != [] && pairs[|pairs| - 1].0 != a && LastFor(pairs[..|pairs| - 1], a, t)
    ensures LastFor(pairs, a, t)
  {
    var init := pairs[..|pairs| - 1];
    forall j | t < j < |pairs| ensures pairs[j].0 != a {
      if j < |init| { assert pairs[j] == init[j]; }
    }
    assert pairs[t] == init[t];
  }

  /** After `expand`, an action of the pairs maps to the node created for its
      LAST pair: a repeated action overwrites its earlier entry. */
  lemma {:induction false} ExpandedLatest(nodes: Arena, i: nat, pairs: seq<(int, real)>)
    requires i < |nodes| && DistinctKeys(nodes[i].children)
    ensures var c, m := Expanded(nodes, i, pairs)[i].children, |nodes|;
      forall k | 0 <= k < |c| && Mentions(pairs, c[k].0) :: c[k].1 >= m && LastFor(pairs, c[k].0, c[k].1 - m)
    decreases |pairs|
  {
    if pairs != [] {
      var init := pairs[..|pairs| - 1];
      var last := pairs[|pairs| - 1];
      var m := |nodes|;
      ExpandedLatest(nodes, i, init);
      ExpandedDistinct(nodes, i, init);
      var before := Expanded(nodes, i, init)[i].children;
      var c := Expanded(nodes, i, pairs)[i].children;
      ExpandedStep(nodes, i, pairs);
      AssignFacts(before, last.0, m + |init|);
      MentionsStep(pairs);
      forall k | 0 <= k < |c| && Mentions(pairs, c[k].0)
        ensures c[k].1 >= m && LastFor(pairs, c[k].0, c[k].1 - m)
      {
        if c[k].0 != last.0 {
          assert k < |before| && c[k] == before[k];
          LastForExtend(pairs, c[k].0, c[k].1 - m);
        }
      }
    }
  }

  /** Expanding a node keeps the arena well formed and the statistics
      invariant: the new children are fresh, so a child of a root has `U == 0`. */
  lemma {:induction false} ExpandKeepsInvariants(nodes: Arena, i: nat, pairs: seq<(int, real)>)
    requires WellFormed(nodes) && StatsInvariant(nodes) && i < |nodes|
    ensures WellFormed(Expanded(nodes, i, pairs)) && StatsInvariant(Expanded(nodes, i, pairs))
    decreases |pairs|
  {
    if pairs != [] {
      var init := pairs[..|pairs| - 1];
      var last := pairs[|pairs| - 1];
      ExpandKeepsInvariants(nodes, i, init);
      var before := Expanded(nodes, i, init);
      var r := Expanded(nodes, i, pairs);
      var m := |before|;
      assert r == Inserted(before, i, last.0, last.1);
      assert DistinctKeys(before[i].children);
      AssignFacts(before[i].children, last.0, m);
      forall j | 0 <= j < |r| ensures DistinctKeys(r[j].children) && StatsOk(r, j) {
        if j < m {
          assert DistinctKeys(before[j].children) && StatsOk(before, j);
        }
      }
      forall j, k | 0 <= j < |r| && 0 <= k < |r[j].children| ensures ChildLink(r, j, k) {
        if j == i {
          if k < |before[i].children| && before[i].children[k].0 != last.0 {
            assert ChildLink(before, i, k);
          }
        } else if j < m {
          assert ChildLink(before, j, k);
        }
      }
    }
  }

  /** `is_leaf_node` after expanding a leaf: its keys are the actions of the
      pairs, each once (one child per distinct action), and it is no longer a
      leaf unless the list was empty. */
  lemma ExpandLeaf(nodes: Arena, i: nat, pairs: seq<(int, real)>)
    requires WellFormed(nodes) && i < |nodes| && IsLeaf(nodes, i)
    ensures var c := Expanded(nodes, i, pairs)[i].children;
      && DistinctKeys(c)
      && (forall a :: HasKey(c, a) <==> Mentions(pairs, a))
      && (IsLeaf(Expanded(nodes, i, pairs), i) <==> pairs == [])
  {
    ExpandedKeys(nodes, i, pairs);
    var c := Expanded(nodes, i, pairs)[i].children;
    if pairs != [] {
      assert Mentions(pairs, pairs[0].0);
      assert HasKey(c, pairs[0].0);
    }
  }

  // ---------------------------------------------------------------------
  // __update and backup
  // ---------------------------------------------------------------------

  /** `__update`: the running mean of the values seen so far, one more visit,
      the exploration term from the parent's current visit count, and the
      score. */
  function Updated(n: Node, v: real, parentN: nat, sqrt: real -> real): Node
  {
    var q := (n.N as real * n.Q + v) / (n.N as real + 1.0);
    var count := n.N + 1;
    var u := n.cPuct * n.P * sqrt(parentN as real) / (1.0 + count as real);
    n.(Q := q, N := count, U := u, score := u + q)
  }

  /** The node after `__update` with each of `vs` in turn; `parentNs` gives
      the parent's visit count seen at each update. */
  function Replayed(n: Node, vs: seq<real>, parentNs: seq<nat>, sqrt: real -> real): Node
    requires |parentNs| == |vs|
    decreases |vs|
  {
    if vs == [] then n
    else
      var k := |vs| - 1;
      Updated(Replayed(n, vs[..k], parentNs[..k], sqrt), vs[k], parentNs[k], sqrt)
  }

  function Sum(vs: seq<real>): real
    decreases |vs|
  {
    if vs == [] then 0.0 else Sum(vs[..|vs| - 1]) + vs[|vs| - 1]
  }

  /** After t updates of a node that was never visited, `N == t` and `Q` is
      the arithmetic mean of the t values, whatever `Q` held before. */
  lemma {:induction false} ReplayedIsMean(n: Node, vs: seq<real>, parentNs: seq<nat>, sqrt: real -> real)
    requires n.N == 0 && |parentNs| == |vs|
    ensures Replayed(n, vs, parentNs, sqrt).N == |vs|
    ensures |vs| > 0 ==> Replayed(n, vs, parentNs, sqrt).Q == Sum(vs) / (|vs| as real)
    decreases |vs|
  {
    if vs != [] {
      var k := |vs| - 1;
      var prev := Replayed(n, vs[..k], parentNs[..k], sqrt);
      ReplayedIsMean(n, vs[..k], parentNs[..k], sqrt);
      assert vs[..k][..k] == vs[..k];
      var t := k as real;
      if k == 0 {
        assert prev.N == 0;
        assert Sum(vs) == Sum(vs[..0]) + vs[0];
      } else {
        var s := Sum(vs[..k]);
        assert prev.Q == s / t;
        assert t * prev.Q == s;
        assert Sum(vs) == s + vs[k];
      }
    }
  }

  /** The path from node `i` up to its root: `i` first, the root last. */
  function Path(nodes: Arena, i: nat): (r: seq<nat>)
    requires ParentsBefore(nodes) && i < |nodes|
    ensures |r| >= 1 && r[0] == i
    ensures forall k | 0 < k < |r| :: r[k] < i
    ensures nodes[r[|r| - 1]].parent.None?
    decreases i
  {
    match nodes[i].parent
    case None => [i]
    case Some(p) => [i] + Path(nodes, p)
  }

  /** Past its first node, the path from a child is the path from its parent. */
  lemma PathShift(nodes: Arena, i: nat, p: nat, k: nat)
    requires ParentsBefore(nodes) && i < |nodes| && nodes[i].parent == Some(p)
    requires 0 < k < |Path(nodes, i)|
    ensures p < i && |Path(nodes, i)| == |Path(nodes, p)| + 1
    ensures Path(nodes, i)[k] == Path(nodes, p)[k - 1]
  {
  }

  /** Consecutive nodes of the path are child and parent. */
  lemma {:induction false} PathLink(nodes: Arena, i: nat, k: nat)
    requires ParentsBefore(nodes) && i < |nodes| && k < |Path(nodes, i)| - 1
    ensures nodes[Path(nodes, i)[k]].parent == Some(Path(nodes, i)[k + 1])
    decreases i
  {
    var p := nodes[i].parent.value;
    assert Path(nodes, i) == [i] + Path(nodes, p);
    if k > 0 {
      PathLink(nodes, p, k - 1);
    }
  }

  /** The only node of the path without a parent is its last. */
  lemma PathEndsAtRoot(nodes: Arena, i: nat, n: nat)
    requires ParentsBefore(nodes) && i < |nodes|
    requires n < |Path(nodes, i)| && nodes[Path(nodes, i)[n]].parent.None?
    ensures n == |Path(nodes, i)| - 1
  {
    if n < |Path(nodes, i)| - 1 {
      PathLink(nodes, i, n);
    }
  }

  /** The value a node `k` levels above the starting node receives: the sign
      flips once per level. */
  function SignedValue(v: real, k: nat): real
  {
    if k == 0 then v else -SignedValue(v, k - 1)
  }

  /** Negating the value at the start is negating it at every level. */
  lemma {:induction false} SignedFlip(v: real, k: nat)
    requires k > 0
    ensures SignedValue(-v, k - 1) == SignedValue(v, k)
    ensures -SignedValue(v, k - 1) == SignedValue(v, k)
  {
    if k > 1 {
      SignedFlip(v, k - 1);
    }
  }

  /** `backup` as the source writes it: a node with a parent first backs up
      the negated value from its parent, then updates itself; a root does
      nothing. */
  function BackedUp(nodes: Arena, i: nat, v: real, sqrt: real -> real): (r: Arena)
    requires ParentsBefore(nodes) && i < |nodes|
    ensures |r| == |nodes|
    ensures forall j | 0 <= j < |r| :: SameShape(r[j], nodes[j])
    decreases i
  {
    match nodes[i].parent
    case None => nodes
    case Some(p) =>
      var up := BackedUp(nodes, p, -v, sqrt);
      up[i := Updated(up[i], v, up[p].N, sqrt)]
  }

  /** Backup from a root changes nothing. */
  lemma BackupFromRoot(nodes: Arena, i: nat, v: real, sqrt: real -> real)
    requires ParentsBefore(nodes) && i < |nodes| && nodes[i].parent.None?
    ensures BackedUp(nodes, i, v, sqrt) == nodes
  {
  }

  /** A node that is not one of the non-root nodes on the path is unchanged. */
  lemma {:induction false} BackupOffPath(nodes: Arena, i: nat, v: real, sqrt: real -> real, j: nat)
    requires ParentsBefore(nodes) && i < |nodes| && j < |nodes|
    requires forall k | 0 <= k < |Path(nodes, i)| - 1 :: Path(nodes, i)[k] != j
    ensures BackedUp(nodes, i, v, sqrt)[j] == nodes[j]
    decreases i
  {
    match nodes[i].parent
    case None =>
    case Some(p) =>
      assert Path(nodes, i) == [i] + Path(nodes, p);
      forall k | 0 <= k < |Path(nodes, p)| - 1 ensures Path(nodes, p)[k] != j {
        assert Path(nodes, p)[k] == Path(nodes, i)[k + 1];
      }
      BackupOffPath(nodes, p, -v, sqrt, j);
  }

  /** No root is ever updated by a backup, wherever it starts. */
  lemma BackupLeavesRootsAlone(nodes: Arena, i: nat, v: real, sqrt: real -> real, j: nat)
    requires ParentsBefore(nodes) && i < |nodes| && j < |nodes| && nodes[j].parent.None?
    ensures BackedUp(nodes, i, v, sqrt)[j] == nodes[j]
  {
    var path := Path(nodes, i);
    forall k | 0 <= k < |path| - 1 ensures path[k] != j {
      PathLink(nodes, i, k);
    }
    BackupOffPath(nodes, i, v, sqrt, j);
  }

  /** The node `k` levels above the start (the start itself at k = 0), below
      the root, is updated exactly once, with the value signed by k, and its
      exploration term reads its parent's visit count as it stands AFTER the
      backup (so after the parent's own update). */
  lemma {:induction false} BackupOnPath(nodes: Arena, i: nat, v: real, sqrt: real -> real, k: nat)
    requires ParentsBefore(nodes) && i < |nodes|
    requires k < |Path(nodes, i)| - 1
    ensures var r, path := BackedUp(nodes, i, v, sqrt), Path(nodes, i);
      r[path[k]] == Updated(nodes[path[k]], SignedValue(v, k), r[path[k + 1]].N, sqrt)
    decreases i, 1
  {
    if k == 0 {
      PathLink(nodes, i, 0);
      BackupUpdatesStart(nodes, i, nodes[i].parent.value, v, sqrt);
    } else {
      BackupAbove(nodes, i, v, sqrt, k);
    }
  }

  /** The case k > 0 of `BackupOnPath`: the node is on the parent's path one
      level lower, and the update of the start does not touch it. */
  lemma {:induction false} BackupAbove(nodes: Arena, i: nat, v: real, sqrt: real -> real, k: nat)
    requires ParentsBefore(nodes) && i < |nodes|
    requires 0 < k < |Path(nodes, i)| - 1
    ensures var r, path := BackedUp(nodes, i, v, sqrt), Path(nodes, i);
      r[path[k]] == Updated(nodes[path[k]], SignedValue(v, k), r[path[k + 1]].N, sqrt)
    decreases i, 0
  {
    var p := nodes[i].parent.value;
    var w := -v;
    var pathP := Path(nodes, p);
    PathShift(nodes, i, p, k);
    PathShift(nodes, i, p, k + 1);
    BackupOnPath(nodes, p, w, sqrt, k - 1);
    BackupStep(nodes, i, p, v, w, sqrt);
    SignedFlip(v, k);
    var a, b := pathP[k - 1], pathP[k];
    assert a < i && b < i;
  }

  /** The starting node, when it has a parent, is updated with the value
      itself and its parent's visit count after the parent's backup. */
  lemma BackupUpdatesStart(nodes: Arena, i: nat, p: nat, v: real, sqrt: real -> real)
    requires ParentsBefore(nodes) && i < |nodes| && nodes[i].parent == Some(p)
    ensures var r := BackedUp(nodes, i, v, sqrt);
      r[i] == Updated(nodes[i], v, r[p].N, sqrt)
  {
    var w := -v;
    BackupStep(nodes, i, p, v, w, sqrt);
    var pathP := Path(nodes, p);
    forall t | 0 <= t < |pathP| - 1 ensures pathP[t] != i {
      assert pathP[t] <= p;
    }
    BackupOffPath(nodes, p, w, sqrt, i);
  }

  /** The visit count of each non-root node on the path grows by one; the
      root's does not change. */
  lemma BackupCounts(nodes: Arena, i: nat, v: real, sqrt: real -> real, k: nat)
    requires ParentsBefore(nodes) && i < |nodes|
    requires k < |Path(nodes, i)|
    ensures var r, path := BackedUp(nodes, i, v, sqrt), Path(nodes, i);
      r[path[k]].N == if k < |path| - 1 then nodes[path[k]].N + 1 else nodes[path[k]].N
  {
    var path := Path(nodes, i);
    if k < |path| - 1 {
      BackupOnPath(nodes, i, v, sqrt, k);
    } else {
      BackupLeavesRootsAlone(nodes, i, v, sqrt, path[k]);
    }
  }

  /** Backup from a node with parent `b` is backup from `b` with the negated
      value followed by one update: the recursion unrolled by a step. */
  lemma BackupStep(nodes: Arena, a: nat, b: nat, v: real, negated: real, sqrt: real -> real)
    requires ParentsBefore(nodes) && a < |nodes| && nodes[a].parent == Some(b) && negated == -v
    ensures b < a
    ensures var up := BackedUp(nodes, b, negated, sqrt);
      BackedUp(nodes, a, v, sqrt) == up[a := Updated(up[a], v, up[b].N, sqrt)]
  {
  }

  /** One `__update` of a node that has a parent keeps the arena well formed
      and its statistics consistent: a child of a root reads the root's
      visit count, which is 0, so its `U` stays 0. */
  lemma UpdateKeepsValid(nodes: Arena, i: nat, v: real, sqrt: real -> real)
    requires WellFormed(nodes) && StatsInvariant(nodes) && i < |nodes| && sqrt(0.0) == 0.0
    requires nodes[i].parent.Some? && nodes[i].parent.value < |nodes|
    ensures var r := nodes[i := Updated(nodes[i], v, nodes[nodes[i].parent.value].N, sqrt)];
      WellFormed(r) && StatsInvariant(r)
  {
    var p := nodes[i].parent.value;
    var r := nodes[i := Updated(nodes[i], v, nodes[p].N, sqrt)];
    ShapeKeepsWellFormed(r, nodes);
    forall j | 0 <= j < |r| ensures StatsOk(r, j) {
      assert StatsOk(nodes, j);
      if j == i {
        assert StatsOk(nodes, p);
      } else {
        assert r[j] == nodes[j];
        if r[j].parent.Some? && r[j].parent.value < |r| {
          assert r[r[j].parent.value].parent == nodes[nodes[j].parent.value].parent;
        }
      }
    }
  }

  /** Backup keeps the statistics invariant; in particular, since the root's
      visit count stays 0, a child of a root always has `U == 0` and so
      `score == Q`. */
  lemma {:induction false} BackupKeepsStats(nodes: Arena, i: nat, v: real, sqrt: real -> real)
    requires WellFormed(nodes) && StatsInvariant(nodes) && i < |nodes| && sqrt(0.0) == 0.0
    ensures WellFormed(BackedUp(nodes, i, v, sqrt)) && StatsInvariant(BackedUp(nodes, i, v, sqrt))
    decreases i
  {
    match nodes[i].parent
    case None =>
    case Some(p) =>
      BackupKeepsStats(nodes, p, -v, sqrt);
      var up := BackedUp(nodes, p, -v, sqrt);
      assert SameShape(up[i], nodes[i]);
      UpdateKeepsValid(up, i, v, sqrt);
  }

  /** The walk up the `parent` links that `backup`'s recursion makes: the
      nodes from `i` to its root. */
  method PathToRoot(nodes: Arena, i: nat) returns (path: seq<nat>)
    requires ParentsBefore(nodes) && i < |nodes|
    ensures path == Path(nodes, i)
  {
    ghost var full := Path(nodes, i);
    path := [i];
    var j := i;
    while nodes[j].parent.Some?
      invariant 1 <= |path| <= |full| && j == path[|path| - 1]
      invariant forall t | 0 <= t < |path| :: path[t] == full[t]
      decreases |full| - |path|
    {
      PathLink(nodes, i, |path| - 1);
      j := nodes[j].parent.value;
      path := path + [j];
    }
    PathEndsAtRoot(nodes, i, |path| - 1);
  }

  /** The values `backup`'s recursion passes up `n` levels: the sign
      flips at every level. */
  method SignedValues(value: real, n: nat) returns (values: seq<real>)
    ensures |values| == n
    ensures forall k | 0 <= k < n :: values[k] == SignedValue(value, k)
  {
    values := [];
    var v := value;
    while |values| < n
      invariant |values| <= n && v == SignedValue(value, |values|)
      invariant forall k | 0 <= k < |values| :: values[k] == SignedValue(value, k)
    {
      SignedFlip(value, |values| + 1);
      values := values + [v];
      v := -v;
    }
  }

  // ---------------------------------------------------------------------
  // The mutable tree
  // ---------------------------------------------------------------------

  /** The arena of nodes that the source's `Node` objects form together. */
  class Tree {
    var nodes: Arena

    ghost predicate Valid()
      reads this
    {
      WellFormed(nodes) && StatsInvariant(nodes)
    }

    constructor ()
      ensures Valid() && nodes == []
    {
      nodes := [];
    }

    /** `Node(prior_prob, c_puct)` with no parent: a new root. */
    method NewRoot(prior: real, cPuct: real) returns (i: nat)
      requires Valid()
      modifies this
      ensures Valid()
      ensures i == |old(nodes)| && nodes == old(nodes) + [Fresh(prior, cPuct, None)]
      ensures nodes[i].N == 0 && nodes[i].Q == 0.0 && nodes[i].U == 0.0 && nodes[i].score == 0.0
      ensures nodes[i].P == prior && nodes[i].cPuct == cPuct && IsLeaf(nodes, i)
    {
      i := |nodes|;
      AddRootKeeps(nodes, prior, cPuct);
      nodes := nodes + [Fresh(prior, cPuct, None)];
    }

    /** `Node(prior_prob)`: a new root with the default `c_puct` of 5. */
    method NewDefaultRoot(prior: real) returns (i: nat)
      requires Valid()
      modifies this
      ensures Valid()
      ensures i == |old(nodes)| && nodes == old(nodes) + [Fresh(prior, DefaultCPuct, None)]
      ensures nodes[i].cPuct == 5.0 && nodes[i].P == prior && IsLeaf(nodes, i)
    {
      i := NewRoot(prior, DefaultCPuct);
    }

    /** `expand`: one fresh child per (action, prior) pair, in order. */
    method Expand(i: nat, actionProbs: seq<(int, real)>)
      requires Valid() && i < |nodes|
      modifies this
      ensures Valid() && nodes == Expanded(old(nodes), i, actionProbs)
    {
      ghost var start := nodes;
      for k := 0 to |actionProbs|
        invariant nodes == Expanded(start, i, actionProbs[..k])
      {
        var (action, prior) := actionProbs[k];
        var n := nodes[i];
        var child := Fresh(prior, n.cPuct, Some(i));
        nodes := nodes[i := n.(children := Assign(n.children, action, |nodes|))] + [child];
        assert actionProbs[..k + 1][..k] == actionProbs[..k];
      }
      assert actionProbs[..|actionProbs|] == actionProbs;
      ExpandKeepsInvariants(start, i, actionProbs);
    }

    /** `__update` of a node that has a parent. */
    method Update(i: nat, value: real, sqrt: real -> real)
      requires Valid() && sqrt(0.0) == 0.0
      requires i < |nodes| && nodes[i].parent.Some? && nodes[i].parent.value < |nodes|
      modifies this
      ensures Valid()
      ensures nodes == old(nodes)[i := Updated(old(nodes)[i], value, old(nodes)[old(nodes)[i].parent.value].N, sqrt)]
    {
      UpdateKeepsValid(nodes, i, value, sqrt);
      var parentN := nodes[nodes[i].parent.value].N;
      nodes := nodes[i := Updated(nodes[i], value, parentN, sqrt)];
    }

    /** `backup`: the path to the root is collected first, then the updates
        run from the root's child down to node `i`, so that every parent is
        updated before its child, as in the source's recursion. */
    method Backup(i: nat, value: real, sqrt: real -> real)
      requires Valid() && i < |nodes| && sqrt(0.0) == 0.0
      modifies this
      ensures Valid() && nodes == BackedUp(old(nodes), i, value, sqrt)
    {
      ghost var start := nodes;
      var path := PathToRoot(nodes, i);
      var values := SignedValues(value, |path|);
      var k := |path| - 1;
      BackupFromRoot(start, path[k], SignedValue(value, k), sqrt);
      while k > 0
        invariant WellFormed(start) && path == Path(start, i)
        invariant |values| == |path| && forall t | 0 <= t < |values| :: values[t] == SignedValue(value, t)
        invariant 0 <= k < |path|
        invariant Valid() && nodes == BackedUp(start, path[k], SignedValue(value, k), sqrt)
      {
        var a, b := path[k - 1], path[k];
        ghost var w, nw := SignedValue(value, k - 1), SignedValue(value, k);
        PathLink(start, i, k - 1);
        SignedFlip(value, k);
        BackupStep(start, a, b, w, nw, sqrt);
        ghost var up := nodes;
        assert SameShape(up[a], start[a]);
        assert up[a].parent == Some(b) && b < |up|;
        k := k - 1;
        assert values[k] == w;
        Update(a, values[k], sqrt);
        assert nodes == up[a := Updated(up[a], w, up[b].N, sqrt)];
      }
    }
  }
}
