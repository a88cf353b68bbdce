/**
 * Monte-Carlo tree search over the Go positions of `GoRules`.
 *
 * The source links `MCTSNode` objects both ways (parent reference, list of
 * children). Here the nodes live in one arena, a sequence owned by a
 * `SearchTree`; a node names its parent and its children by arena index,
 * and a parent is always created before its children. Evaluators and random
 * sampling are oracles handed in by the caller.
 */
module Mcts {
  import opened Wrappers
  import opened GoRules
  import Ranking

  /** A policy evaluator's output: one score per action index, pass last. */
  type Scores = s: seq<real> | |s| == 362 witness seq(362, _ => 0.0)

  /** Policy evaluator: position and color to move to a score per action. */
  type Policy = (GoState, int) -> Scores

  /** Value evaluator: position and color whose prospects are judged to a number. */
  type Valuation = (GoState, int) -> real

  /**
   * One draw of `np.random.choice` over the playout evaluator's output:
   * position, color to move, ply and attempt number to the sampled index.
   */
  type Sampler = (GoState, int, nat, nat) -> ActionIndex

  /** The random draws of a whole search: iteration number, then what a `Sampler` takes. */
  type Draws = (nat, GoState, int, nat, nat) -> ActionIndex

  /** The floating-point branch of UCB, `Q/N + sqrt(2 ln(parent N) / N)`, given Q, N and the parent's N. */
  type Explore = (real, nat, nat) -> real

  /** At most this many children are created by one expansion. */
  const MaxChildren: nat := 5

  /** Plies of one rollout, and sampling attempts per ply. */
  const RolloutPlies: nat := 5
  const RolloutAttempts: nat := 20

  /** An `MCTSNode`: a private copy of a position, the color to move there, links, N, Q and the expanded flag. */
  datatype Node = Node(go: GoState, color: int, parent: Option<nat>, children: seq<nat>, n: nat, q: real, expanded: bool)

  // ---------------------------------------------------------------- arena shape

  ghost predicate ParentsPrecede(nodes: seq<Node>)
  {
    forall i :: 0 <= i < |nodes| && nodes[i].parent.Some? ==> nodes[i].parent.value < i
  }

  /** Parent indices and children lists describe the same edges. */
  ghost predicate ChildrenMatch(nodes: seq<Node>)
  {
    && (forall i, k :: 0 <= i < |nodes| && 0 <= k < |nodes[i].children| ==>
          nodes[i].children[k] < |nodes| && nodes[nodes[i].children[k]].parent == Some(i))
    && (forall j :: 0 <= j < |nodes| && nodes[j].parent.Some? ==>
          nodes[j].parent.value < |nodes| && j in nodes[nodes[j].parent.value].children)
  }

  ghost predicate WellFormed(nodes: seq<Node>)
  {
    ParentsPrecede(nodes) && ChildrenMatch(nodes)
  }

  /** Two arenas with the same links. */
  ghost predicate SameLinks(a: seq<Node>, b: seq<Node>)
  {
    |a| == |b| && forall i :: 0 <= i < |a| ==> a[i].parent == b[i].parent && a[i].children == b[i].children
  }

  lemma SameLinksWellFormed(a: seq<Node>, b: seq<Node>)
    requires WellFormed(a) && SameLinks(a, b)
    ensures WellFormed(b)
  {
    forall i, k | 0 <= i < |b| && 0 <= k < |b[i].children|
      ensures b[i].children[k] < |b| && b[b[i].children[k]].parent == Some(i)
    {
      assert a[i].children[k] == b[i].children[k];
    }
    forall j | 0 <= j < |b| && b[j].parent.Some?
      ensures b[j].parent.value < |b| && j in b[b[j].parent.value].children
    {
      assert a[j].parent == b[j].parent;
    }
  }

  /** Every node that has not been visited yet is a leaf. */
  ghost predicate Settled(nodes: seq<Node>)
  {
    forall i :: 0 <= i < |nodes| && nodes[i].n == 0 ==> nodes[i].children == []
  }

  /** No node has more children than one expansion creates. */
  ghost predicate Branching(nodes: seq<Node>)
  {
    forall i :: 0 <= i < |nodes| ==> |nodes[i].children| <= MaxChildren
  }

  /** The node k and all its ancestors up to its root. */
  ghost function Ancestors(nodes: seq<Node>, k: nat): set<nat>
    requires ParentsPrecede(nodes) && k < |nodes|
    decreases k
  {
    match nodes[k].parent
    case None => {k}
    case Some(p) => {k} + Ancestors(nodes, p)
  }

  lemma {:induction false} AncestorsBelow(nodes: seq<Node>, k: nat)
    requires ParentsPrecede(nodes) && k < |nodes|
    ensures forall a :: a in Ancestors(nodes, k) ==> a <= k
    decreases k
  {
    if nodes[k].parent.Some? {
      AncestorsBelow(nodes, nodes[k].parent.value);
    }
  }

  /** An ancestor's ancestors are ancestors. */
  lemma {:induction false} AncestorsTransitive(nodes: seq<Node>, b: nat, x: nat)
    requires ParentsPrecede(nodes) && x < |nodes| && b < |nodes|
    requires b in Ancestors(nodes, x)
    ensures Ancestors(nodes, b) <= Ancestors(nodes, x)
    decreases x
  {
    if b != x {
      AncestorsTransitive(nodes, b, nodes[x].parent.value);
    }
  }

  /** Ancestry is a matter of parent indices only; nodes appended later do not change it. */
  lemma {:induction false} AncestorsFrame(a: seq<Node>, b: seq<Node>, k: nat)
    requires ParentsPrecede(a) && ParentsPrecede(b) && k < |a| <= |b|
    requires forall i :: 0 <= i < |a| ==> a[i].parent == b[i].parent
    ensures Ancestors(a, k) == Ancestors(b, k)
    decreases k
  {
    if a[k].parent.Some? {
      AncestorsFrame(a, b, a[k].parent.value);
    }
  }

  // ---------------------------------------------------------------- UCB

  /** A UCB value: the float infinities of the source and the finite values between them. */
  datatype Score = NegInf | Finite(v: real) | PosInf

  /** The strict order `>` on scores. */
  predicate Above(a: Score, b: Score)
  {
    match (a, b)
    case (Finite(x), Finite(y)) => x > y
    case (PosInf, _) => !b.PosInf?
    case (Finite(_), NegInf) => true
    case (_, _) => false
  }

  /** `MCTSNode.UCB`, exact in its guard cases; the remaining case is the `explore` oracle. */
  function Ucb(nodes: seq<Node>, i: nat, explore: Explore): (s: Score)
    requires ParentsPrecede(nodes) && i < |nodes|
    ensures s.PosInf? <==> nodes[i].n == 0
    ensures !s.NegInf?
    ensures nodes[i].n > 0 && (nodes[i].parent.None? || nodes[nodes[i].parent.value].n == 0) ==> s == Finite(0.0)
  {
    var node := nodes[i];
    if node.n == 0 then PosInf
    else match node.parent
      case None => Finite(0.0)
      case Some(p) => if nodes[p].n == 0 then Finite(0.0) else Finite(explore(node.q, node.n, nodes[p].n))
  }

  /** Index into cs of the first entry whose UCB is strictly greater than every earlier one's and not below any later one's. */
  function ArgBest(nodes: seq<Node>, cs: seq<nat>, explore: Explore): (k: nat)
    requires ParentsPrecede(nodes) && |cs| > 0
    requires forall j :: 0 <= j < |cs| ==> cs[j] < |nodes|
    ensures k < |cs|
  {
    if |cs| == 1 then 0
    else
      var k := ArgBest(nodes, cs[..|cs| - 1], explore);
      if Above(Ucb(nodes, cs[|cs| - 1], explore), Ucb(nodes, cs[k], explore)) then |cs| - 1 else k
  }

  /** No entry after ArgBest's pick has a strictly greater UCB. */
  lemma {:induction false} ArgBestAfter(nodes: seq<Node>, cs: seq<nat>, explore: Explore)
    requires ParentsPrecede(nodes) && |cs| > 0
    requires forall j :: 0 <= j < |cs| ==> cs[j] < |nodes|
    ensures var k := ArgBest(nodes, cs, explore);
      forall j :: k < j < |cs| ==> !Above(Ucb(nodes, cs[j], explore), Ucb(nodes, cs[k], explore))
  {
    if |cs| > 1 {
      var init := cs[..|cs| - 1];
      ArgBestAfter(nodes, init, explore);
      var k0 := ArgBest(nodes, init, explore);
      var last := |cs| - 1;
      if !Above(Ucb(nodes, cs[last], explore), Ucb(nodes, cs[k0], explore)) {
        forall j | k0 < j < |cs|
          ensures !Above(Ucb(nodes, cs[j], explore), Ucb(nodes, cs[k0], explore))
        {
          if j < last {
            assert init[j] == cs[j] && init[k0] == cs[k0];
          }
        }
      }
    }
  }

  /** ArgBest's pick has a strictly greater UCB than every entry before it. */
  lemma {:induction false} ArgBestBefore(nodes: seq<Node>, cs: seq<nat>, explore: Explore)
    requires ParentsPrecede(nodes) && |cs| > 0
    requires forall j :: 0 <= j < |cs| ==> cs[j] < |nodes|
    ensures var k := ArgBest(nodes, cs, explore);
      forall j :: 0 <= j < k ==> Above(Ucb(nodes, cs[k], explore), Ucb(nodes, cs[j], explore))
  {
    if |cs| > 1 {
      var init := cs[..|cs| - 1];
      ArgBestBefore(nodes, init, explore);
      ArgBestAfter(nodes, init, explore);
      var k0 := ArgBest(nodes, init, explore);
      var last := |cs| - 1;
      if Above(Ucb(nodes, cs[last], explore), Ucb(nodes, cs[k0], explore)) {
        forall j | 0 <= j < last
          ensures Above(Ucb(nodes, cs[last], explore), Ucb(nodes, cs[j], explore))
        {
          assert init[j] == cs[j] && init[k0] == cs[k0];
        }
      } else {
        forall j | 0 <= j < k0
          ensures Above(Ucb(nodes, cs[k0], explore), Ucb(nodes, cs[j], explore))
        {
          assert init[j] == cs[j] && init[k0] == cs[k0];
        }
      }
    }
  }

  /** ArgBest picks the first child of strictly greatest UCB. */
  lemma ArgBestIsFirstBest(nodes: seq<Node>, cs: seq<nat>, explore: Explore)
    requires ParentsPrecede(nodes) && |cs| > 0
    requires forall j :: 0 <= j < |cs| ==> cs[j] < |nodes|
    ensures var k := ArgBest(nodes, cs, explore);
      && (forall j :: 0 <= j < k ==> Above(Ucb(nodes, cs[k], explore), Ucb(nodes, cs[j], explore)))
      && (forall j :: k < j < |cs| ==> !Above(Ucb(nodes, cs[j], explore), Ucb(nodes, cs[k], explore)))
  {
    ArgBestBefore(nodes, cs, explore);
    ArgBestAfter(nodes, cs, explore);
  }

  /** ArgBest of a prefix one longer, from ArgBest of the prefix. */
  lemma ArgBestSnoc(nodes: seq<Node>, cs: seq<nat>, k: nat, explore: Explore)
    requires ParentsPrecede(nodes) && k < |cs|
    requires forall j :: 0 <= j < |cs| ==> cs[j] < |nodes|
    ensures k == 0 ==> ArgBest(nodes, cs[..1], explore) == 0
    ensures k > 0 ==> var b := ArgBest(nodes, cs[..k], explore);
      ArgBest(nodes, cs[..k + 1], explore) == if Above(Ucb(nodes, cs[k], explore), Ucb(nodes, cs[b], explore)) then k else b
  {
    assert cs[..k + 1][..k] == cs[..k];
  }

  /** `getBestChild`: the first child of strictly greatest UCB, None when there are no children. */
  method GetBestChild(nodes: seq<Node>, i: nat, explore: Explore) returns (best: Option<nat>)
    requires ParentsPrecede(nodes) && i < |nodes|
    requires forall j :: 0 <= j < |nodes[i].children| ==> nodes[i].children[j] < |nodes|
    ensures best.None? <==> nodes[i].children == []
    ensures best.Some? ==> best.value == nodes[i].children[ArgBest(nodes, nodes[i].children, explore)]
  {
    var cs := nodes[i].children;
    best := None;
    var bestUcb := NegInf;
    var k := 0;
    while k < |cs|
      invariant 0 <= k <= |cs|
      invariant k == 0 ==> best.None? && bestUcb == NegInf
      invariant k > 0 ==> best == Some(cs[ArgBest(nodes, cs[..k], explore)]) && bestUcb == Ucb(nodes, best.value, explore)
    {
      var ucb := Ucb(nodes, cs[k], explore);
      ArgBestSnoc(nodes, cs, k, explore);
      if Above(ucb, bestUcb) {
        best := Some(cs[k]);
        bestUcb := ucb;
      }
      k := k + 1;
    }
    assert cs[..|cs|] == cs;
  }

  /** `getMostVisitedChild`'s result: the first child whose N beats every earlier one, starting from 0. */
  ghost predicate IsMostVisited(nodes: seq<Node>, i: nat, best: Option<nat>)
    requires WellFormed(nodes) && i < |nodes|
  {
    var cs := nodes[i].children;
    match best
    case None => forall k :: 0 <= k < |cs| ==> nodes[cs[k]].n == 0
    case Some(c) =>
      exists k :: 0 <= k < |cs| && cs[k] == c && nodes[c].n > 0
        && (forall j :: 0 <= j < k ==> nodes[cs[j]].n < nodes[c].n)
        && (forall j :: k < j < |cs| ==> nodes[cs[j]].n <= nodes[c].n)
  }

  /** `getMostVisitedChild`. */
  method GetMostVisitedChild(nodes: seq<Node>, i: nat) returns (best: Option<nat>)
    requires WellFormed(nodes) && i < |nodes|
    ensures IsMostVisited(nodes, i, best)
    ensures best.Some? ==> best.value in nodes[i].children
  {
    var cs := nodes[i].children;
    best := None;
    var bestN := 0;
    ghost var bestK := 0;
    var k := 0;
    while k < |cs|
      invariant 0 <= k <= |cs|
      invariant best.None? ==> bestN == 0 && forall j :: 0 <= j < k ==> nodes[cs[j]].n == 0
      invariant best.Some? ==> bestK < k && cs[bestK] == best.value && bestN == nodes[best.value].n > 0
      invariant best.Some? ==> forall j :: 0 <= j < bestK ==> nodes[cs[j]].n < bestN
      invariant best.Some? ==> forall j :: bestK < j < k ==> nodes[cs[j]].n <= bestN
    {
      var child := cs[k];
      if nodes[child].n > bestN {
        best := Some(child);
        bestN := nodes[child].n;
        bestK := k;
      }
      k := k + 1;
    }
  }

  // ---------------------------------------------------------------- selection

  /** Position in cs of the first unvisited child: `[c for c in cs if c.N == 0][0]` when that list is not empty. */
  function FirstUnvisited(nodes: seq<Node>, cs: seq<nat>): (r: Option<nat>)
    requires forall j :: 0 <= j < |cs| ==> cs[j] < |nodes|
    ensures r.Some? ==> r.value < |cs| && nodes[cs[r.value]].n == 0
    ensures r.Some? ==> forall j :: 0 <= j < r.value ==> nodes[cs[j]].n > 0
    ensures r.None? ==> forall j :: 0 <= j < |cs| ==> nodes[cs[j]].n > 0
  {
    if cs == [] then None
    else if nodes[cs[0]].n == 0 then Some(0)
    else match FirstUnvisited(nodes, cs[1..])
      case None => None
      case Some(k) => Some(k + 1)
  }

  /** The node `treePolicy` selects when started at i. */
  function Descend(nodes: seq<Node>, i: nat, explore: Explore): (r: nat)
    requires WellFormed(nodes) && i < |nodes|
    ensures i <= r < |nodes|
    decreases |nodes| - i
  {
    var cs := nodes[i].children;
    if cs == [] then i
    else match FirstUnvisited(nodes, cs)
      case Some(k) => cs[k]
      case None =>
        var b := cs[ArgBest(nodes, cs, explore)];
        assert nodes[b].parent == Some(i);
        Descend(nodes, b, explore)
  }

  /** The selected node lies in the subtree of the start node. */
  lemma {:induction false} DescendInSubtree(nodes: seq<Node>, i: nat, explore: Explore)
    requires WellFormed(nodes) && i < |nodes|
    ensures i in Ancestors(nodes, Descend(nodes, i, explore))
    decreases |nodes| - i
  {
    var cs := nodes[i].children;
    if cs != [] {
      match FirstUnvisited(nodes, cs)
      case Some(k) =>
        assert nodes[cs[k]].parent == Some(i);
      case None =>
        var b := cs[ArgBest(nodes, cs, explore)];
        assert nodes[b].parent == Some(i);
        DescendInSubtree(nodes, b, explore);
        AncestorsTransitive(nodes, b, Descend(nodes, b, explore));
    }
  }

  /**
   * The three outcomes of selection: the start node only when it is a leaf;
   * otherwise a leaf below it, or an unvisited child of a node on the way down.
   */
  lemma {:induction false} DescendOutcome(nodes: seq<Node>, i: nat, explore: Explore)
    requires WellFormed(nodes) && i < |nodes|
    ensures var r := Descend(nodes, i, explore);
      && (r == i ==> nodes[i].children == [])
      && (nodes[r].children != [] ==> nodes[r].n == 0)
    decreases |nodes| - i
  {
    var cs := nodes[i].children;
    if cs != [] {
      match FirstUnvisited(nodes, cs)
      case Some(k) =>
        assert nodes[cs[k]].parent == Some(i);
      case None =>
        var b := cs[ArgBest(nodes, cs, explore)];
        assert nodes[b].parent == Some(i);
        DescendOutcome(nodes, b, explore);
    }
  }

  /** `treePolicy`: descend to the first leaf or unvisited child. */
  method TreePolicy(nodes: seq<Node>, root: nat, explore: Explore) returns (r: nat)
    requires WellFormed(nodes) && root < |nodes|
    ensures r == Descend(nodes, root, explore)
  {
    var node := root;
    while true
      invariant node < |nodes| && Descend(nodes, node, explore) == Descend(nodes, root, explore)
      decreases |nodes| - node
    {
      var cs := nodes[node].children;
      if |cs| == 0 {
        return node;
      }
      var unvisited := FirstUnvisited(nodes, cs);
      if unvisited.Some? {
        return cs[unvisited.value];
      }
      var best := GetBestChild(nodes, node, explore);
      match best {
        case None =>
          // `getBestChild` finds no child: impossible once the node has children
          assert false;
          r := root;
          return;
        case Some(c) =>
          assert nodes[c].parent == Some(node);
          node := c;
      }
    }
  }

  // ---------------------------------------------------------------- expansion

  /** Every non-pass candidate of `order` that the rules accept, with its resulting position, in order. */
  function Legal(s: GoState, color: int, order: seq<nat>, rules: Rules): seq<(Action, GoState)>
    requires forall k :: 0 <= k < |order| ==> order[k] < 362
  {
    if order == [] then []
    else
      var a := ToPosition(order[0]);
      var rest := Legal(s, color, order[1..], rules);
      if a.Pass? then rest
      else match rules(s, color, a)
        case None => rest
        case Some(t) => [(a, t)] + rest
  }

  /** The children `searchChildren` creates: candidates tried in order until `room` have been accepted. */
  function Expand(s: GoState, color: int, order: seq<nat>, rules: Rules, room: nat): seq<(Action, GoState)>
    requires forall k :: 0 <= k < |order| ==> order[k] < 362
  {
    if room == 0 || order == [] then []
    else
      var a := ToPosition(order[0]);
      if a.Pass? then Expand(s, color, order[1..], rules, room)
      else match rules(s, color, a)
        case None => Expand(s, color, order[1..], rules, room)
        case Some(t) => [(a, t)] + Expand(s, color, order[1..], rules, room - 1)
  }

  /** Expand written as the loop of `searchChildren` runs it: from candidate k on, with the children accepted so far in acc. */
  function ExpandFrom(s: GoState, color: int, order: seq<nat>, k: nat, rules: Rules, room: nat,
                      acc: seq<(Action, GoState)>): seq<(Action, GoState)>
    requires k <= |order| && forall j :: 0 <= j < |order| ==> order[j] < 362
    decreases |order| - k
  {
    if room == 0 || k == |order| then acc
    else
      var a := ToPosition(order[k]);
      if a.Pass? then ExpandFrom(s, color, order, k + 1, rules, room, acc)
      else match rules(s, color, a)
        case None => ExpandFrom(s, color, order, k + 1, rules, room, acc)
        case Some(t) => ExpandFrom(s, color, order, k + 1, rules, room - 1, acc + [(a, t)])
  }

  /** A candidate that is a pass or is rejected adds no child. */
  lemma ExpandFromSkip(s: GoState, color: int, order: seq<nat>, k: nat, rules: Rules, room: nat,
                       acc: seq<(Action, GoState)>)
    requires k < |order| && room > 0 && forall j :: 0 <= j < |order| ==> order[j] < 362
    requires ToPosition(order[k]).Pass? || rules(s, color, ToPosition(order[k])).None?
    ensures ExpandFrom(s, color, order, k, rules, room, acc) == ExpandFrom(s, color, order, k + 1, rules, room, acc)
  {
  }

  /** An accepted candidate becomes the next child. */
  lemma ExpandFromTake(s: GoState, color: int, order: seq<nat>, k: nat, rules: Rules, room: nat,
                       acc: seq<(Action, GoState)>, t: GoState, room': nat, acc': seq<(Action, GoState)>)
    requires k < |order| && room > 0 && forall j :: 0 <= j < |order| ==> order[j] < 362
    requires ToPosition(order[k]).Place? && rules(s, color, ToPosition(order[k])) == Some(t)
    requires room' == room - 1 && acc' == acc + [(ToPosition(order[k]), t)]
    ensures ExpandFrom(s, color, order, k, rules, room, acc) == ExpandFrom(s, color, order, k + 1, rules, room', acc')
  {
  }

  /** With no room left or no candidate left, the children are those accepted so far. */
  lemma ExpandFromDone(s: GoState, color: int, order: seq<nat>, k: nat, rules: Rules, room: nat,
                       acc: seq<(Action, GoState)>)
    requires k <= |order| && (room == 0 || k == |order|) && forall j :: 0 <= j < |order| ==> order[j] < 362
    ensures ExpandFrom(s, color, order, k, rules, room, acc) == acc
  {
  }

  /** The loop form and the recursive form of the expansion agree. */
  lemma {:induction false} ExpandFromIsExpand(s: GoState, color: int, order: seq<nat>, k: nat, rules: Rules, room: nat,
                                              acc: seq<(Action, GoState)>)
    requires k <= |order| && forall j :: 0 <= j < |order| ==> order[j] < 362
    ensures ExpandFrom(s, color, order, k, rules, room, acc) == acc + Expand(s, color, order[k..], rules, room)
    decreases |order| - k
  {
    if room > 0 && k < |order| {
      assert order[k..][1..] == order[k + 1..];
      var a := ToPosition(order[k]);
      if a.Place? && rules(s, color, a).Some? {
        var t := rules(s, color, a).value;
        ExpandFromIsExpand(s, color, order, k + 1, rules, room - 1, acc + [(a, t)]);
        assert (acc + [(a, t)]) + Expand(s, color, order[k + 1..], rules, room - 1)
            == acc + ([(a, t)] + Expand(s, color, order[k + 1..], rules, room - 1));
      } else {
        ExpandFromIsExpand(s, color, order, k + 1, rules, room, acc);
      }
    } else {
      assert acc + [] == acc;
    }
  }

  /** Expansion keeps the first `room` legal moves and no others. */
  lemma {:induction false} ExpandIsFirstLegal(s: GoState, color: int, order: seq<nat>, rules: Rules, room: nat)
    requires forall k :: 0 <= k < |order| ==> order[k] < 362
    ensures var l := Legal(s, color, order, rules);
      Expand(s, color, order, rules, room) == if |l| <= room then l else l[..room]
  {
    if room > 0 && order != [] {
      ExpandIsFirstLegal(s, color, order[1..], rules, room);
      ExpandIsFirstLegal(s, color, order[1..], rules, room - 1);
    }
  }

  /** A legal candidate is a board point whose move the rules accept, and every such candidate is listed. */
  lemma {:induction false} LegalMembers(s: GoState, color: int, order: seq<nat>, rules: Rules, a: Action, t: GoState)
    requires forall k :: 0 <= k < |order| ==> order[k] < 362
    ensures (a, t) in Legal(s, color, order, rules) <==>
      a.Place? && rules(s, color, a) == Some(t) && exists k :: 0 <= k < |order| && ToPosition(order[k]) == a
  {
    if order != [] {
      LegalMembers(s, color, order[1..], rules, a, t);
      if a.Place? && rules(s, color, a) == Some(t) && (exists k :: 0 <= k < |order| && ToPosition(order[k]) == a) {
        var k :| 0 <= k < |order| && ToPosition(order[k]) == a;
        if k > 0 {
          assert order[1..][k - 1] == order[k];
        }
      }
      if (exists k :: 0 <= k < |order[1..]| && ToPosition(order[1..][k]) == a) {
        var k :| 0 <= k < |order[1..]| && ToPosition(order[1..][k]) == a;
        assert order[k + 1] == order[1..][k];
      }
    }
  }

  /** One expansion creates at most `room` children, each an accepted move on the board. */
  lemma {:induction false} ExpandBound(s: GoState, color: int, order: seq<nat>, rules: Rules, room: nat)
    requires forall k :: 0 <= k < |order| ==> order[k] < 362
    ensures var e := Expand(s, color, order, rules, room);
      && |e| <= room
      && forall j :: 0 <= j < |e| ==>
           (e[j].0.Place? && 0 <= e[j].0.x < Size && 0 <= e[j].0.y < Size && rules(s, color, e[j].0) == Some(e[j].1))
  {
    if room > 0 && order != [] {
      ExpandBound(s, color, order[1..], rules, room);
      ExpandBound(s, color, order[1..], rules, room - 1);
    }
  }

  /** The children `searchChildren` creates under a node. */
  function Expansion(node: Node, policy: Policy, rules: Rules): seq<(Action, GoState)>
  {
    Expand(node.go, node.color, Ranking.Rank(policy(node.go, node.color)), rules, MaxChildren)
  }

  /** The loop form of the expansion, started at the first candidate with nothing accepted, is `Expansion`. */
  lemma ExpansionFrom(node: Node, policy: Policy, rules: Rules)
    ensures var order := Ranking.Rank(policy(node.go, node.color));
      ExpandFrom(node.go, node.color, order, 0, rules, MaxChildren, []) == Expansion(node, policy, rules)
  {
    var order := Ranking.Rank(policy(node.go, node.color));
    ExpandFromIsExpand(node.go, node.color, order, 0, rules, MaxChildren, []);
    assert order[0..] == order;
    assert [] + Expansion(node, policy, rules) == Expansion(node, policy, rules);
  }

  lemma ExpansionBound(node: Node, policy: Policy, rules: Rules)
    ensures |Expansion(node, policy, rules)| <= MaxChildren
  {
    ExpandBound(node.go, node.color, Ranking.Rank(policy(node.go, node.color)), rules, MaxChildren);
  }

  /** base, base + 1, ..., base + m - 1. */
  function Fresh(base: nat, m: nat): (r: seq<nat>)
    ensures |r| == m && forall j :: 0 <= j < m ==> r[j] == base + j
  {
    if m == 0 then [] else Fresh(base, m - 1) + [base + m - 1]
  }

  // ---------------------------------------------------------------- simulation

  /** One rollout ply: sample until pass, an accepted move, or the attempts run out. */
  function PlyResult(s: GoState, color: int, ply: nat, attempt: nat, sample: Sampler, rules: Rules): GoState
    decreases RolloutAttempts - attempt
  {
    if attempt >= RolloutAttempts then s
    else
      var a := ToPosition(sample(s, color, ply, attempt));
      if a.Pass? then s
      else match rules(s, color, a)
        case Some(t) => t
        case None => PlyResult(s, color, ply, attempt + 1, sample, rules)
  }

  /** The rest of a rollout from ply `ply` on, the color to move flipping after every ply. */
  function Rollout(s: GoState, color: int, ply: nat, sample: Sampler, rules: Rules): GoState
    decreases RolloutPlies - ply
  {
    if ply >= RolloutPlies then s
    else Rollout(PlyResult(s, color, ply, 0, sample, rules), -color, ply + 1, sample, rules)
  }

  /** A rollout before its last ply is one ply followed by the rest. */
  lemma RolloutStep(s: GoState, color: int, ply: nat, sample: Sampler, rules: Rules)
    requires ply < RolloutPlies
    ensures Rollout(s, color, ply, sample, rules) == Rollout(PlyResult(s, color, ply, 0, sample, rules), -color, ply + 1, sample, rules)
  {
  }

  /** A rollout with no ply left is the position it starts from. */
  lemma RolloutDone(s: GoState, color: int, ply: nat, sample: Sampler, rules: Rules)
    requires ply >= RolloutPlies
    ensures Rollout(s, color, ply, sample, rules) == s
  {
  }

  /** t's history is s's history followed by at most k board moves. */
  ghost predicate Extends(s: GoState, t: GoState, k: nat)
  {
    && |s.history| <= |t.history| <= |s.history| + k
    && t.history[..|s.history|] == s.history
    && forall j :: |s.history| <= j < |t.history| ==> t.history[j].Place?
  }

  lemma ExtendsTransitive(a: GoState, b: GoState, c: GoState, k1: nat, k2: nat)
    requires Extends(a, b, k1) && Extends(b, c, k2)
    ensures Extends(a, c, k1 + k2)
  {
    var ha, hb, hc := a.history, b.history, c.history;
    assert hc[..|ha|] == hc[..|hb|][..|ha|];
    forall j | |ha| <= j < |hc|
      ensures hc[j].Place?
    {
      if j < |hb| {
        assert hc[j] == hc[..|hb|][j];
      }
    }
  }

  /** A ply adds at most one move to the history, and never a pass. */
  lemma {:induction false} PlyExtends(s: GoState, color: int, ply: nat, attempt: nat, sample: Sampler, rules: Rules)
    requires Lawful(rules)
    ensures Extends(s, PlyResult(s, color, ply, attempt, sample, rules), 1)
    decreases RolloutAttempts - attempt
  {
    if attempt < RolloutAttempts {
      var a := ToPosition(sample(s, color, ply, attempt));
      if a.Place? {
        match rules(s, color, a)
        case None =>
          PlyExtends(s, color, ply, attempt + 1, sample, rules);
        case Some(t) =>
          LawfulMove(rules, s, color, a);
      }
    }
  }

  /** A rollout appends at most one board move per remaining ply to the history it started from. */
  lemma {:induction false} RolloutExtends(s: GoState, color: int, ply: nat, sample: Sampler, rules: Rules)
    requires Lawful(rules) && ply <= RolloutPlies
    ensures Extends(s, Rollout(s, color, ply, sample, rules), RolloutPlies - ply)
    decreases RolloutPlies - ply
  {
    if ply < RolloutPlies {
      var m := PlyResult(s, color, ply, 0, sample, rules);
      var t := Rollout(m, -color, ply + 1, sample, rules);
      assert Rollout(s, color, ply, sample, rules) == t;
      PlyExtends(s, color, ply, 0, sample, rules);
      RolloutExtends(m, -color, ply + 1, sample, rules);
      ExtendsTransitive(s, m, t, 1, RolloutPlies - (ply + 1));
      assert 1 + (RolloutPlies - (ply + 1)) == RolloutPlies - ply;
    } else {
      assert s.history[..|s.history|] == s.history;
    }
  }

  /** One ply of the `defaultPolicy` loop: up to twenty samples until a pass or an accepted move. */
  method Ply(s: GoState, color: int, ply: nat, sample: Sampler, rules: Rules) returns (t: GoState)
    ensures t == PlyResult(s, color, ply, 0, sample, rules)
  {
    t := s;
    var attempts := 0;
    var done := false;
    while !done && attempts < RolloutAttempts
      invariant 0 <= attempts <= RolloutAttempts
      invariant done ==> t == PlyResult(s, color, ply, 0, sample, rules)
      invariant !done ==> t == s && PlyResult(s, color, ply, attempts, sample, rules) == PlyResult(s, color, ply, 0, sample, rules)
      decreases RolloutAttempts - attempts, !done
    {
      var a := ToPosition(sample(s, color, ply, attempts));
      var next := if a.Place? then rules(s, color, a) else None;
      if a.Pass? {
        done := true;
      } else if next.Some? {
        t := next.value;
        done := true;
      } else {
        attempts := attempts + 1;
      }
    }
  }

  /** `defaultPolicy`: play out five plies on a copy of the node's position, then ask the value evaluator for rootColor. */
  method DefaultPolicy(expandNode: Node, rootColor: int, sample: Sampler, value: Valuation, rules: Rules) returns (v: real)
    ensures v == value(Rollout(expandNode.go, expandNode.color, 0, sample, rules), rootColor)
  {
    var newGo := expandNode.go;
    var willPlayColor := expandNode.color;
    var i := 0;
    while i < RolloutPlies
      invariant 0 <= i <= RolloutPlies
      invariant Rollout(newGo, willPlayColor, i, sample, rules) == Rollout(expandNode.go, expandNode.color, 0, sample, rules)
    {
      RolloutStep(newGo, willPlayColor, i, sample, rules);
      newGo := Ply(newGo, willPlayColor, i, sample, rules);
      willPlayColor := -willPlayColor;
      i := i + 1;
    }
    RolloutDone(newGo, willPlayColor, i, sample, rules);
    v := value(newGo, rootColor);
  }

  // ---------------------------------------------------------------- the tree

  /** N incremented, Q increased by the value, and the expanded flag set: what `backward` does to one node. */
  function Bump(node: Node, value: real): Node
  {
    node.(n := node.n + 1, q := node.q + value, expanded := true)
  }

  /** Nodes at j and above, following parent links from `cur` (none when cur is None). */
  ghost function Chain(nodes: seq<Node>, cur: Option<nat>): set<nat>
    requires ParentsPrecede(nodes) && (cur.Some? ==> cur.value < |nodes|)
  {
    match cur
    case None => {}
    case Some(c) => Ancestors(nodes, c)
  }

  /** `nodes` is `before` after `made` was attached under e as fresh leaves of the given color. */
  ghost predicate Grown(before: seq<Node>, nodes: seq<Node>, e: nat, made: seq<(Action, GoState)>, color: int)
    requires e < |before|
  {
    && |nodes| == |before| + |made|
    && (forall i :: 0 <= i < |before| && i != e ==> nodes[i] == before[i])
    && nodes[e] == before[e].(children := before[e].children + Fresh(|before|, |made|))
    && forall j :: 0 <= j < |made| ==> nodes[|before| + j] == Node(made[j].1, color, Some(e), [], 0, 0.0, false)
  }

  lemma GrownStep(before: seq<Node>, nodes: seq<Node>, e: nat, made: seq<(Action, GoState)>, color: int, t: (Action, GoState))
    requires e < |before| && Grown(before, nodes, e, made, color)
    ensures Grown(before, nodes[e := nodes[e].(children := nodes[e].children + [|nodes|])]
                          + [Node(t.1, color, Some(e), [], 0, 0.0, false)], e, made + [t], color)
  {
    assert Fresh(|before|, |made| + 1) == Fresh(|before|, |made|) + [|nodes|];
  }

  /** `Grown` restated for equal arguments, so that the loop's names can be exchanged for the contract's names. */
  lemma GrownSame(before: seq<Node>, nodes: seq<Node>, e: nat, made: seq<(Action, GoState)>, color: int,
                  made': seq<(Action, GoState)>, color': int)
    requires e < |before| && Grown(before, nodes, e, made, color) && made' == made && color' == color
    ensures Grown(before, nodes, e, made', color')
  {
  }

  /** Attaching fresh leaves under an existing node keeps the arena well formed. */
  lemma GrownWellFormed(before: seq<Node>, nodes: seq<Node>, e: nat, made: seq<(Action, GoState)>, color: int)
    requires WellFormed(before) && e < |before| && Grown(before, nodes, e, made, color)
    ensures WellFormed(nodes)
  {
    var m := |before|;
    var old_cs := before[e].children;
    forall i | m <= i < |nodes|
      ensures nodes[i].parent == Some(e) && nodes[i].children == []
    {
      assert nodes[m + (i - m)] == Node(made[i - m].1, color, Some(e), [], 0, 0.0, false);
    }
    forall i, k | 0 <= i < |nodes| && 0 <= k < |nodes[i].children|
      ensures nodes[i].children[k] < |nodes| && nodes[nodes[i].children[k]].parent == Some(i)
    {
      if i >= m {
      } else if i == e && k >= |old_cs| {
        var c := nodes[i].children[k];
        assert c == Fresh(m, |made|)[k - |old_cs|] == m + (k - |old_cs|);
        assert nodes[m + (k - |old_cs|)] == Node(made[k - |old_cs|].1, color, Some(e), [], 0, 0.0, false);
      } else {
        var c := before[i].children[k];
        assert nodes[i].children[k] == c && c < m;
        assert nodes[c].parent == before[c].parent;
      }
    }
    forall j | 0 <= j < |nodes| && nodes[j].parent.Some?
      ensures nodes[j].parent.value < |nodes| && j in nodes[nodes[j].parent.value].children
    {
      if j >= m {
        var jj := j - m;
        assert nodes[m + jj] == Node(made[jj].1, color, Some(e), [], 0, 0.0, false);
        assert nodes[e].children[|old_cs| + jj] == Fresh(m, |made|)[jj] == j;
      } else {
        var p := before[j].parent.value;
        assert nodes[j].parent == before[j].parent;
        var k :| 0 <= k < |before[p].children| && before[p].children[k] == j;
        assert nodes[p].children[k] == j;
      }
    }
  }

  /**
   * c holds the position p's color reaches by one accepted move on a board
   * point, recorded as the one entry c's history adds, and c's color to move
   * is the other one.
   */
  ghost predicate ChildOf(p: Node, c: Node, rules: Rules)
  {
    && c.color == -p.color
    && |c.go.history| == |p.go.history| + 1
    && var m := c.go.history[|p.go.history|];
       m.Place? && 0 <= m.x < Size && 0 <= m.y < Size && rules(p.go, p.color, m) == Some(c.go)
  }

  /** Every node that has a parent holds a legal successor of its parent's position. */
  ghost predicate Legit(nodes: seq<Node>, rules: Rules)
  {
    forall j :: 0 <= j < |nodes| ==> LegitAt(nodes, j, rules)
  }

  /** Node j, if its parent is in the arena, is a legal successor of that parent. */
  ghost predicate LegitAt(nodes: seq<Node>, j: nat, rules: Rules)
    requires j < |nodes|
  {
    nodes[j].parent.Some? && nodes[j].parent.value < |nodes| ==> ChildOf(nodes[nodes[j].parent.value], nodes[j], rules)
  }

  /** Children attached by an expansion are legal successors of the node expanded, so the tree stays legitimate. */
  lemma GrownLegit(before: seq<Node>, nodes: seq<Node>, e: nat, made: seq<(Action, GoState)>, rules: Rules)
    requires Lawful(rules) && ParentsPrecede(before) && e < |before| && Legit(before, rules)
    requires Grown(before, nodes, e, made, -before[e].color)
    requires forall j :: 0 <= j < |made| ==>
      made[j].0.Place? && 0 <= made[j].0.x < Size && 0 <= made[j].0.y < Size
      && rules(before[e].go, before[e].color, made[j].0) == Some(made[j].1)
    ensures Legit(nodes, rules)
  {
    var m := |before|;
    forall j | 0 <= j < |nodes|
      ensures LegitAt(nodes, j, rules)
    {
      if nodes[j].parent.None? || nodes[j].parent.value >= |nodes| {
      } else if j >= m {
        var jj := j - m;
        assert nodes[m + jj] == Node(made[jj].1, -before[e].color, Some(e), [], 0, 0.0, false);
        LawfulMove(rules, before[e].go, before[e].color, made[jj].0);
        assert nodes[e].go == before[e].go && nodes[e].color == before[e].color;
      } else {
        var p := before[j].parent.value;
        assert LegitAt(before, j, rules);
        assert nodes[j].go == before[j].go && nodes[j].color == before[j].color && nodes[j].parent == before[j].parent;
        assert nodes[p].go == before[p].go && nodes[p].color == before[p].color;
      }
    }
  }

  /** In a legitimate tree, each child listed under a node is a legal successor of it. */
  lemma LegitChild(nodes: seq<Node>, i: nat, c: nat, rules: Rules)
    requires WellFormed(nodes) && Legit(nodes, rules) && i < |nodes| && c in nodes[i].children
    ensures c < |nodes| && ChildOf(nodes[i], nodes[c], rules)
  {
    var k :| 0 <= k < |nodes[i].children| && nodes[i].children[k] == c;
    assert nodes[c].parent == Some(i);
    assert LegitAt(nodes, c, rules);
  }

  /** Backpropagation touches only N, Q and the expanded flag, so the tree stays legitimate. */
  lemma BumpLegit(n1: seq<Node>, n2: seq<Node>, e: nat, v: real, rules: Rules)
    requires ParentsPrecede(n1) && e < |n1| && BumpedAlong(n1, n2, e, v) && Legit(n1, rules)
    ensures Legit(n2, rules)
  {
    forall j | 0 <= j < |n2|
      ensures LegitAt(n2, j, rules)
    {
      assert LegitAt(n1, j, rules);
      assert n2[j].go == n1[j].go && n2[j].color == n1[j].color && n2[j].parent == n1[j].parent;
      if n2[j].parent.Some? && n2[j].parent.value < |n2| {
        var p := n2[j].parent.value;
        assert n2[p].go == n1[p].go && n2[p].color == n1[p].color;
      }
    }
  }

  /** A round keeps the tree legitimate: the children it attaches are accepted moves, and the bump changes no position. */
  lemma RoundLegit(n0: seq<Node>, n1: seq<Node>, n2: seq<Node>, e: nat, policy: Policy, rules: Rules, v: real)
    requires Lawful(rules) && WellFormed(n0) && WellFormed(n1) && e < |n0| && Legit(n0, rules)
    requires Grown(n0, n1, e, Expansion(n0[e], policy, rules), -n0[e].color) && BumpedAlong(n1, n2, e, v)
    ensures Legit(n2, rules)
  {
    ExpandBound(n0[e].go, n0[e].color, Ranking.Rank(policy(n0[e].go, n0[e].color)), rules, MaxChildren);
    GrownLegit(n0, n1, e, Expansion(n0[e], policy, rules), rules);
    BumpLegit(n1, n2, e, v, rules);
  }

  /** Appending a parentless leaf keeps the arena well formed. */
  lemma AppendRootWellFormed(before: seq<Node>, nodes: seq<Node>)
    requires WellFormed(before) && |nodes| == |before| + 1
    requires forall i :: 0 <= i < |before| ==> nodes[i] == before[i]
    requires nodes[|before|].parent.None? && nodes[|before|].children == []
    ensures WellFormed(nodes)
  {
    forall j | 0 <= j < |nodes| && nodes[j].parent.Some?
      ensures nodes[j].parent.value < |nodes| && j in nodes[nodes[j].parent.value].children
    {
      assert nodes[j] == before[j];
    }
  }

  class SearchTree {
    var nodes: seq<Node>

    ghost predicate Valid()
      reads this
    {
      WellFormed(nodes)
    }

    constructor ()
      ensures Valid() && nodes == []
    {
      nodes := [];
    }

    /** `MCTSNode(go, color, parent)`: a fresh unvisited leaf, appended to its parent's children. */
    method AddNode(go: GoState, color: int, parent: Option<nat>) returns (id: nat)
      requires parent.Some? ==> parent.value < |nodes|
      modifies this
      ensures id == |old(nodes)|
      ensures nodes == (match parent
                        case None => old(nodes)
                        case Some(p) => old(nodes)[p := old(nodes)[p].(children := old(nodes)[p].children + [id])])
                       + [Node(go, color, parent, [], 0, 0.0, false)]
      ensures old(Valid()) ==> Valid()
    {
      ghost var before := nodes;
      id := |nodes|;
      var linked := nodes;
      if parent.Some? {
        var p := parent.value;
        linked := nodes[p := nodes[p].(children := nodes[p].children + [id])];
      }
      nodes := linked + [Node(go, color, parent, [], 0, 0.0, false)];
      if WellFormed(before) {
        match parent
        case None =>
          AppendRootWellFormed(before, nodes);
        case Some(p) =>
          assert Grown(before, before, p, [], color);
          GrownStep(before, before, p, [], color, (Pass, go));
          GrownWellFormed(before, nodes, p, [(Pass, go)], color);
      }
    }

    /** `backward`: every node from k up to its root is bumped, and no other node changes. */
    method Backward(k: nat, value: real)
      requires Valid() && k < |nodes|
      modifies this
      ensures Valid() && BumpedAlong(old(nodes), nodes, k, value)
      ensures nodes == BumpPath(old(nodes), k, value)
    {
      ghost var before := nodes;
      var cur: Option<nat> := Some(k);
      ghost var done: set<nat> := {};
      while cur.Some?
        invariant |nodes| == |before| && SameLinks(before, nodes)
        invariant cur.Some? ==> cur.value < |nodes|
        invariant done + Chain(before, cur) == Ancestors(before, k)
        invariant cur.Some? ==> forall a :: a in done ==> a > cur.value
        invariant forall i :: 0 <= i < |nodes| ==> nodes[i] == if i in done then Bump(before[i], value) else before[i]
        decreases if cur.Some? then cur.value + 1 else 0
      {
        var c := cur.value;
        AncestorsBelow(before, c);
        nodes := nodes[c := Bump(nodes[c], value)];
        done := done + {c};
        cur := nodes[c].parent;
      }
      SameLinksWellFormed(before, nodes);
      BumpUnique(before, nodes, k, value);
    }

    /** `MCTSNode(newGo, nextColor, node)` inside `searchChildren`: one more fresh child under e. */
    method Attach(e: nat, go: GoState, color: int, ghost before: seq<Node>, ghost made: seq<(Action, GoState)>, ghost a: Action)
      requires e < |before| && Grown(before, nodes, e, made, color)
      modifies this
      ensures Grown(before, nodes, e, made + [(a, go)], color)
    {
      GrownStep(before, nodes, e, made, color, (a, go));
      var newNode := AddNode(go, color, Some(e));
    }

    /** `searchChildren`: the node gains the children of `Expansion`, each a fresh unvisited leaf for the other color. */
    method SearchChildren(e: nat, policy: Policy, rules: Rules)
      requires Valid() && e < |nodes|
      modifies this
      ensures Valid()
      ensures Grown(old(nodes), nodes, e, Expansion(old(nodes)[e], policy, rules), -old(nodes)[e].color)
      ensures nodes == Grow(old(nodes), e, policy, rules)
    {
      ghost var before := nodes;
      var go := nodes[e].go;
      var nodeWillPlayColor := nodes[e].color;
      var predict := policy(go, nodeWillPlayColor);
      var order := Ranking.Rank(predict);
      ghost var want := Expansion(before[e], policy, rules);
      ExpansionFrom(before[e], policy, rules);
      AttachChildren(e, go, nodeWillPlayColor, order, rules, before, want);
      GrownWellFormed(before, nodes, e, want, -nodeWillPlayColor);
      GrowIs(before, nodes, e, policy, rules);
    }

    /**
     * The loop of `searchChildren` over the candidate order: each accepted
     * point becomes a child of e, until five children exist.
     */
    method AttachChildren(e: nat, go: GoState, color: int, order: seq<nat>, rules: Rules, ghost before: seq<Node>,
                          ghost want: seq<(Action, GoState)>)
      requires e < |before| && nodes == before && forall j :: 0 <= j < |order| ==> order[j] < 362
      requires want == ExpandFrom(go, color, order, 0, rules, MaxChildren, [])
      modifies this
      ensures Grown(before, nodes, e, want, -color)
    {
      var count := 0;
      var nextColor := -color;
      ghost var made: seq<(Action, GoState)> := [];
      assert Grown(before, nodes, e, made, nextColor);
      var k := 0;
      while k < |order| && count < MaxChildren
        invariant 0 <= k <= |order| && count == |made| <= MaxChildren
        invariant want == ExpandFrom(go, color, order, k, rules, MaxChildren - count, made)
        invariant Grown(before, nodes, e, made, nextColor)
      {
        var x := ToPosition(order[k]);
        var next := if x.Place? then rules(go, color, x) else None;
        if next.Some? {
          ghost var room, acc := MaxChildren - count, made;
          Attach(e, next.value, nextColor, before, made, x);
          count := count + 1;
          made := made + [(x, next.value)];
          ExpandFromTake(go, color, order, k, rules, room, acc, next.value, MaxChildren - count, made);
        } else {
          ExpandFromSkip(go, color, order, k, rules, MaxChildren - count, made);
        }
        k := k + 1;
      }
      ExpandFromDone(go, color, order, k, rules, MaxChildren - count, made);
      GrownSame(before, nodes, e, made, nextColor, want, -color);
    }

    /**
     * `MCTS`: `iterations` rounds of select, expand, simulate, backpropagate,
     * then the most visited child of the root. `sampler` is the random draw
     * of every round.
     */
    method Search(root: nat, policy: Policy, sampler: Draws, value: Valuation, explore: Explore, rules: Rules,
                  iterations: nat) returns (best: Option<nat>)
      requires Valid() && root < |nodes|
      modifies this
      ensures Valid() && nodes == Rounds(old(nodes), root, old(nodes)[root].color, iterations, policy, sampler, value, explore, rules)
      ensures |old(nodes)| <= |nodes| && Kept(old(nodes), nodes, root, iterations)
      ensures IsMostVisited(nodes, root, best)
      ensures best.Some? ==> best.value in nodes[root].children
      ensures Lawful(rules) && Legit(old(nodes), rules) ==> Legit(nodes, rules)
      ensures Lawful(rules) && Legit(old(nodes), rules) && best.Some? ==> ChildOf(nodes[root], nodes[best.value], rules)
    {
      var rootColor := nodes[root].color;
      var i := 0;
      while i < iterations
        invariant 0 <= i <= iterations
        invariant Valid() && nodes == Rounds(old(nodes), root, rootColor, i, policy, sampler, value, explore, rules)
      {
        Round(root, rootColor, policy, RoundSampler(sampler, i), value, explore, rules);
        RoundsStep(old(nodes), root, rootColor, i, policy, sampler, value, explore, rules);
        i := i + 1;
      }
      RoundsKeep(old(nodes), root, rootColor, iterations, policy, sampler, value, explore, rules);
      if Lawful(rules) && Legit(old(nodes), rules) {
        RoundsLegit(old(nodes), root, rootColor, iterations, policy, sampler, value, explore, rules);
      }
      best := GetMostVisitedChild(nodes, root);
      if best.Some? && Lawful(rules) && Legit(old(nodes), rules) {
        LegitChild(nodes, root, best.value, rules);
      }
    }

    /** One iteration of the `MCTS` loop. */
    method Round(root: nat, rootColor: int, policy: Policy, sample: Sampler, value: Valuation, explore: Explore, rules: Rules)
      requires Valid() && root < |nodes|
      modifies this
      ensures Valid() && nodes == RoundNodes(old(nodes), root, rootColor, policy, sample, value, explore, rules)
    {
      var expandNode := TreePolicy(nodes, root, explore);
      SearchChildren(expandNode, policy, rules);
      var v := DefaultPolicy(nodes[expandNode], rootColor, sample, value, rules);
      Backward(expandNode, v);
    }
  }

  /**
   * What k rounds guarantee: the root is visited k times more, its children
   * are fixed once it has any, and the node data stays.
   */
  ghost predicate Kept(n0: seq<Node>, n2: seq<Node>, root: nat, k: nat)
    requires root < |n0| <= |n2|
  {
    && n2[root].n == n0[root].n + k
    && (n0[root].children != [] ==> n2[root].children == n0[root].children)
    && (n0[root].children == [] ==> |n2[root].children| <= MaxChildren)
    && (Settled(n0) ==> Settled(n2))
    && (Settled(n0) && Branching(n0) ==> Branching(n2))
    && forall j :: 0 <= j < |n0| ==>
         n2[j].go == n0[j].go && n2[j].color == n0[j].color && n2[j].parent == n0[j].parent
  }

  /** Exactly the nodes from e up to its root bumped by v. */
  ghost predicate BumpedAlong(n1: seq<Node>, n2: seq<Node>, e: nat, v: real)
    requires ParentsPrecede(n1) && e < |n1|
  {
    |n2| == |n1| && forall i :: 0 <= i < |n2| ==> n2[i] == if i in Ancestors(n1, e) then Bump(n1[i], v) else n1[i]
  }

  lemma RoundEffect(n0: seq<Node>, n1: seq<Node>, n2: seq<Node>, root: nat, explore: Explore, policy: Policy, rules: Rules, v: real)
    requires WellFormed(n0) && WellFormed(n1) && root < |n0|
    requires var e := Descend(n0, root, explore);
      Grown(n0, n1, e, Expansion(n0[e], policy, rules), -n0[e].color) && BumpedAlong(n1, n2, e, v)
    ensures |n0| <= |n2| && Kept(n0, n2, root, 1)
    ensures Lawful(rules) && Legit(n0, rules) ==> Legit(n2, rules)
  {
    var e := Descend(n0, root, explore);
    var made := Expansion(n0[e], policy, rules);
    if Lawful(rules) && Legit(n0, rules) {
      RoundLegit(n0, n1, n2, e, policy, rules, v);
    }
    DescendInSubtree(n0, root, explore);
    DescendOutcome(n0, root, explore);
    ExpansionBound(n0[e], policy, rules);
    RoundAt(n0, n1, n2, root, e, made, -n0[e].color, v);
  }

  /** A round that grows the tree at e and bumps the path from e keeps what `Kept` lists for one round. */
  lemma RoundAt(n0: seq<Node>, n1: seq<Node>, n2: seq<Node>, root: nat, e: nat, made: seq<(Action, GoState)>, color: int, v: real)
    requires WellFormed(n0) && WellFormed(n1) && root < |n0| && e < |n0|
    requires root in Ancestors(n0, e) && (e == root ==> n0[root].children == [])
    requires n0[e].children != [] ==> n0[e].n == 0
    requires |made| <= MaxChildren
    requires Grown(n0, n1, e, made, color) && BumpedAlong(n1, n2, e, v)
    ensures |n0| <= |n2| && Kept(n0, n2, root, 1)
  {
    RoundRoot(n0, n1, n2, root, e, made, color, v);
    RoundSettled(n0, n1, n2, e, made, color, v);
    RoundBranching(n0, n1, n2, e, made, color, v);
  }

  /** The root is on the path that is bumped; its children change only when it was the leaf expanded. */
  lemma RoundRoot(n0: seq<Node>, n1: seq<Node>, n2: seq<Node>, root: nat, e: nat, made: seq<(Action, GoState)>, color: int, v: real)
    requires WellFormed(n0) && WellFormed(n1) && root < |n0| && e < |n0|
    requires root in Ancestors(n0, e) && (e == root ==> n0[root].children == [])
    requires |made| <= MaxChildren
    requires Grown(n0, n1, e, made, color) && BumpedAlong(n1, n2, e, v)
    ensures |n0| <= |n2|
    ensures n2[root].n == n0[root].n + 1
    ensures n0[root].children != [] ==> n2[root].children == n0[root].children
    ensures n0[root].children == [] ==> |n2[root].children| <= MaxChildren
    ensures forall j :: 0 <= j < |n0| ==>
         n2[j].go == n0[j].go && n2[j].color == n0[j].color && n2[j].parent == n0[j].parent
  {
    AncestorsFrame(n0, n1, e);
    assert n2[root] == Bump(n1[root], v);
    forall j | 0 <= j < |n0|
      ensures n2[j].go == n0[j].go && n2[j].color == n0[j].color && n2[j].parent == n0[j].parent
    {
      assert n2[j].go == n1[j].go && n2[j].color == n1[j].color && n2[j].parent == n1[j].parent;
    }
  }

  /** After a round every unvisited node is still a leaf: the expanded node was visited. */
  lemma RoundSettled(n0: seq<Node>, n1: seq<Node>, n2: seq<Node>, e: nat, made: seq<(Action, GoState)>, color: int, v: real)
    requires WellFormed(n0) && WellFormed(n1) && e < |n0|
    requires Grown(n0, n1, e, made, color) && BumpedAlong(n1, n2, e, v)
    ensures Settled(n0) ==> Settled(n2)
  {
    assert e in Ancestors(n1, e);
    if Settled(n0) {
      forall j | 0 <= j < |n2| && n2[j].n == 0
        ensures n2[j].children == []
      {
        if j !in Ancestors(n1, e) {
          if j >= |n0| {
            var jj := j - |n0|;
            assert n1[|n0| + jj] == Node(made[jj].1, color, Some(e), [], 0, 0.0, false);
          }
        }
      }
    }
  }

  /** After a round no node has more than five children. */
  lemma RoundBranching(n0: seq<Node>, n1: seq<Node>, n2: seq<Node>, e: nat, made: seq<(Action, GoState)>, color: int, v: real)
    requires WellFormed(n0) && WellFormed(n1) && e < |n0|
    requires n0[e].children != [] ==> n0[e].n == 0
    requires |made| <= MaxChildren
    requires Grown(n0, n1, e, made, color) && BumpedAlong(n1, n2, e, v)
    ensures Settled(n0) && Branching(n0) ==> Branching(n2)
  {
    if Settled(n0) && Branching(n0) {
      forall j | 0 <= j < |n2|
        ensures |n2[j].children| <= MaxChildren
      {
        assert n2[j].children == n1[j].children;
        if j >= |n0| {
          var jj := j - |n0|;
          assert n1[|n0| + jj] == Node(made[jj].1, color, Some(e), [], 0, 0.0, false);
        }
      }
    }
  }

  // ---------------------------------------------------------------- the search as a function

  /** `before` with the children `made` attached under e as fresh leaves of the given color. */
  function Graft(before: seq<Node>, e: nat, made: seq<(Action, GoState)>, color: int): (r: seq<Node>)
    requires e < |before|
    ensures |r| == |before| + |made|
  {
    before[e := before[e].(children := before[e].children + Fresh(|before|, |made|))]
      + seq(|made|, j requires 0 <= j < |made| => Node(made[j].1, color, Some(e), [], 0, 0.0, false))
  }

  /** `Graft` is an expansion in the sense of `Grown`. */
  lemma GraftGrown(before: seq<Node>, e: nat, made: seq<(Action, GoState)>, color: int)
    requires e < |before|
    ensures Grown(before, Graft(before, e, made, color), e, made, color)
  {
  }

  /** `Grown` describes exactly one arena. */
  lemma GrownUnique(before: seq<Node>, nodes: seq<Node>, e: nat, made: seq<(Action, GoState)>, color: int)
    requires e < |before| && Grown(before, nodes, e, made, color)
    ensures nodes == Graft(before, e, made, color)
  {
    var g := Graft(before, e, made, color);
    GraftGrown(before, e, made, color);
    forall i | 0 <= i < |nodes|
      ensures nodes[i] == g[i]
    {
      if i >= |before| {
        assert nodes[|before| + (i - |before|)] == g[|before| + (i - |before|)];
      }
    }
  }

  /** `searchChildren` on the arena: the expansion of node e attached under it, for the other color. */
  function Grow(n0: seq<Node>, e: nat, policy: Policy, rules: Rules): (r: seq<Node>)
    requires WellFormed(n0) && e < |n0|
    ensures WellFormed(r) && |r| == |n0| + |Expansion(n0[e], policy, rules)|
  {
    var g := Graft(n0, e, Expansion(n0[e], policy, rules), -n0[e].color);
    GraftGrown(n0, e, Expansion(n0[e], policy, rules), -n0[e].color);
    GrownWellFormed(n0, g, e, Expansion(n0[e], policy, rules), -n0[e].color);
    g
  }

  /** An expansion of node e by `Expansion` is exactly `Grow`. */
  lemma GrowIs(n0: seq<Node>, n1: seq<Node>, e: nat, policy: Policy, rules: Rules)
    requires WellFormed(n0) && e < |n0| && Grown(n0, n1, e, Expansion(n0[e], policy, rules), -n0[e].color)
    ensures n1 == Grow(n0, e, policy, rules)
  {
    GrownUnique(n0, n1, e, Expansion(n0[e], policy, rules), -n0[e].color);
  }

  /** `defaultPolicy` as a value: the evaluator's judgement, for rootColor, of the rollout from the node. */
  function Simulate(node: Node, rootColor: int, sample: Sampler, value: Valuation, rules: Rules): real
  {
    value(Rollout(node.go, node.color, 0, sample, rules), rootColor)
  }

  /** `backward` on the arena: every node from e up to its root bumped by v. */
  ghost function BumpPath(n1: seq<Node>, e: nat, v: real): (r: seq<Node>)
    requires WellFormed(n1) && e < |n1|
    ensures WellFormed(r) && |r| == |n1|
  {
    var b := seq(|n1|, i requires 0 <= i < |n1| => if i in Ancestors(n1, e) then Bump(n1[i], v) else n1[i]);
    SameLinksWellFormed(n1, b);
    b
  }

  /** `BumpPath` is a backpropagation in the sense of `BumpedAlong`. */
  lemma BumpPathAlong(n1: seq<Node>, e: nat, v: real)
    requires WellFormed(n1) && e < |n1|
    ensures BumpedAlong(n1, BumpPath(n1, e, v), e, v)
  {
  }

  /** `BumpedAlong` describes exactly one arena. */
  lemma BumpUnique(n1: seq<Node>, n2: seq<Node>, e: nat, v: real)
    requires WellFormed(n1) && e < |n1| && BumpedAlong(n1, n2, e, v)
    ensures n2 == BumpPath(n1, e, v)
  {
    BumpPathAlong(n1, e, v);
  }

  /**
   * One iteration of `MCTS` on the arena n0: select from the root, attach
   * the expansion of the selected node, roll out from it, and back the
   * rollout's value up along its path.
   */
  ghost function RoundNodes(n0: seq<Node>, root: nat, rootColor: int, policy: Policy, sample: Sampler, value: Valuation,
                            explore: Explore, rules: Rules): (r: seq<Node>)
    requires WellFormed(n0) && root < |n0|
    ensures WellFormed(r) && |n0| <= |r|
  {
    BumpPath(Grow(n0, Descend(n0, root, explore), policy, rules), Descend(n0, root, explore),
             Simulate(Grow(n0, Descend(n0, root, explore), policy, rules)[Descend(n0, root, explore)], rootColor, sample, value, rules))
  }

  /** The draws of iteration i. */
  function RoundSampler(sampler: Draws, i: nat): Sampler
  {
    (s, c, p, a) => sampler(i, s, c, p, a)
  }

  /** k iterations of `MCTS`, the i-th drawing with `RoundSampler(sampler, i)`. */
  ghost function Rounds(n0: seq<Node>, root: nat, rootColor: int, k: nat, policy: Policy, sampler: Draws, value: Valuation,
                        explore: Explore, rules: Rules): (r: seq<Node>)
    requires WellFormed(n0) && root < |n0|
    ensures WellFormed(r) && |n0| <= |r|
  {
    if k == 0 then n0
    else RoundNodes(Rounds(n0, root, rootColor, k - 1, policy, sampler, value, explore, rules), root, rootColor,
                    policy, RoundSampler(sampler, k - 1), value, explore, rules)
  }

  /** i + 1 iterations are i iterations followed by one more, drawing with `RoundSampler(sampler, i)`. */
  lemma RoundsStep(n0: seq<Node>, root: nat, rootColor: int, i: nat, policy: Policy, sampler: Draws, value: Valuation,
                   explore: Explore, rules: Rules)
    requires WellFormed(n0) && root < |n0|
    ensures Rounds(n0, root, rootColor, i + 1, policy, sampler, value, explore, rules)
      == RoundNodes(Rounds(n0, root, rootColor, i, policy, sampler, value, explore, rules), root, rootColor,
                    policy, RoundSampler(sampler, i), value, explore, rules)
  {
  }

  /** One iteration keeps what `Kept` lists for one round, and keeps a legitimate tree legitimate. */
  lemma RoundNodesEffect(n0: seq<Node>, root: nat, rootColor: int, policy: Policy, sample: Sampler, value: Valuation,
                         explore: Explore, rules: Rules)
    requires WellFormed(n0) && root < |n0|
    ensures var r := RoundNodes(n0, root, rootColor, policy, sample, value, explore, rules);
      Kept(n0, r, root, 1) && (Lawful(rules) && Legit(n0, rules) ==> Legit(r, rules))
  {
    var e := Descend(n0, root, explore);
    var n1 := Grow(n0, e, policy, rules);
    var v := Simulate(n1[e], rootColor, sample, value, rules);
    GraftGrown(n0, e, Expansion(n0[e], policy, rules), -n0[e].color);
    BumpPathAlong(n1, e, v);
    RoundEffect(n0, n1, RoundNodes(n0, root, rootColor, policy, sample, value, explore, rules), root, explore, policy, rules, v);
  }

  /** What k rounds keep composes with what one more round keeps. */
  lemma KeptStep(n0: seq<Node>, m: seq<Node>, r: seq<Node>, root: nat, k: nat)
    requires root < |n0| <= |m| <= |r| && Kept(n0, m, root, k) && Kept(m, r, root, 1)
    ensures Kept(n0, r, root, k + 1)
  {
  }

  /** One more round extends what `Kept` says of i rounds to i + 1 rounds. */
  lemma RoundsKeepStep(n0: seq<Node>, m: seq<Node>, r: seq<Node>, root: nat, rootColor: int, i: nat, policy: Policy,
                       sampler: Draws, value: Valuation, explore: Explore, rules: Rules)
    requires WellFormed(n0) && root < |n0|
    requires m == Rounds(n0, root, rootColor, i, policy, sampler, value, explore, rules)
    requires r == Rounds(n0, root, rootColor, i + 1, policy, sampler, value, explore, rules)
    requires |n0| <= |m| && Kept(n0, m, root, i)
    ensures |n0| <= |r| && Kept(n0, r, root, i + 1)
  {
    RoundsStep(n0, root, rootColor, i, policy, sampler, value, explore, rules);
    RoundNodesEffect(m, root, rootColor, policy, RoundSampler(sampler, i), value, explore, rules);
    KeptStep(n0, m, r, root, i);
  }

  /** k rounds add k visits to the root, only ever add nodes, and keep every existing node's position, color and parent. */
  lemma RoundsKeep(n0: seq<Node>, root: nat, rootColor: int, k: nat, policy: Policy, sampler: Draws,
                   value: Valuation, explore: Explore, rules: Rules)
    requires WellFormed(n0) && root < |n0|
    ensures Kept(n0, Rounds(n0, root, rootColor, k, policy, sampler, value, explore, rules), root, k)
  {
    var i := 0;
    var m := n0;
    while i < k
      invariant i <= k && m == Rounds(n0, root, rootColor, i, policy, sampler, value, explore, rules)
      invariant |n0| <= |m| && Kept(n0, m, root, i)
    {
      var r := Rounds(n0, root, rootColor, i + 1, policy, sampler, value, explore, rules);
      RoundsKeepStep(n0, m, r, root, rootColor, i, policy, sampler, value, explore, rules);
      i, m := i + 1, r;
    }
  }

  /** Under a lawful rules engine, one more round keeps the tree after i rounds legitimate. */
  lemma RoundsLegitStep(n0: seq<Node>, m: seq<Node>, r: seq<Node>, root: nat, rootColor: int, i: nat, policy: Policy,
                        sampler: Draws, value: Valuation, explore: Explore, rules: Rules)
    requires WellFormed(n0) && root < |n0|
    requires m == Rounds(n0, root, rootColor, i, policy, sampler, value, explore, rules)
    requires r == Rounds(n0, root, rootColor, i + 1, policy, sampler, value, explore, rules)
    ensures Lawful(rules) && Legit(m, rules) ==> Legit(r, rules)
  {
    RoundsStep(n0, root, rootColor, i, policy, sampler, value, explore, rules);
    RoundNodesEffect(m, root, rootColor, policy, RoundSampler(sampler, i), value, explore, rules);
  }

  /** Under a lawful rules engine, every child the search adds is a legal successor of its parent. */
  lemma RoundsLegit(n0: seq<Node>, root: nat, rootColor: int, k: nat, policy: Policy, sampler: Draws,
                    value: Valuation, explore: Explore, rules: Rules)
    requires WellFormed(n0) && root < |n0|
    ensures Lawful(rules) && Legit(n0, rules) ==> Legit(Rounds(n0, root, rootColor, k, policy, sampler, value, explore, rules), rules)
  {
    var i := 0;
    var m := n0;
    while i < k
      invariant i <= k && m == Rounds(n0, root, rootColor, i, policy, sampler, value, explore, rules)
      invariant Lawful(rules) && Legit(n0, rules) ==> Legit(m, rules)
    {
      var r := Rounds(n0, root, rootColor, i + 1, policy, sampler, value, explore, rules);
      RoundsLegitStep(n0, m, r, root, rootColor, i, policy, sampler, value, explore, rules);
      i, m := i + 1, r;
    }
  }
}
