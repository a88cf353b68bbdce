/**
 * The self-play environment: a fixed-capacity replay buffer that overwrites
 * its oldest entries once full, and the environment that plays a game move
 * by move, lists the legal points, picks the policy's favourite among them
 * and decides when a game is over.
 */
module SelfPlay {
  import opened Wrappers
  import opened GoRules
  import Mcts

  // ---------------------------------------------------------------- arithmetic

  /** c·d moves away from 0 by at least c once d does by at least 1. */
  lemma {:induction false} MulMono(c: int, d: int)
    requires c > 0
    ensures d >= 1 ==> c * d >= c
    ensures d <= -1 ==> c * d <= -c
    decreases if d < 0 then -d else d
  {
    if d > 1 {
      MulMono(c, d - 1);
      assert c * d == c * (d - 1) + c;
    } else if d < -1 {
      MulMono(c, d + 1);
      assert c * d == c * (d + 1) - c;
    }
  }

  /** The remainder is the r of any decomposition a = c·q + r with 0 <= r < c. */
  lemma ModUnique(a: int, c: int, q: int, r: int)
    requires c > 0 && 0 <= r < c && a == c * q + r
    ensures a % c == r
  {
    var d := q - a / c;
    assert a == c * (a / c) + a % c;
    assert c * d == c * q - c * (a / c);
    MulMono(c, d);
  }

  /** Advancing a position modulo c is advancing the count modulo c. */
  lemma ModSucc(n: int, c: int)
    requires c > 0
    ensures (n % c + 1) % c == (n + 1) % c
  {
    var q, r := n / c, n % c;
    assert n == c * q + r;
    if r + 1 < c {
      ModUnique(n + 1, c, q, r + 1);
      ModUnique(r + 1, c, 0, r + 1);
    } else {
      assert n + 1 == c * (q + 1) + 0;
      ModUnique(n + 1, c, q + 1, 0);
      ModUnique(r + 1, c, 1, 0);
    }
  }

  /** Two counts less than c apart land in different slots. */
  lemma ModDistinct(k: int, n: int, c: int)
    requires c > 0 && n - c < k < n
    ensures k % c != n % c
  {
    assert k == c * (k / c) + k % c;
    assert n == c * (n / c) + n % c;
    var d := n / c - k / c;
    assert c * d == c * (n / c) - c * (k / c);
    MulMono(c, d);
  }

  // ---------------------------------------------------------------- replay buffer

  /**
   * The contents of a buffer of the given capacity after the given pushes:
   * appended while there is room, then written over slot by slot, the
   * slot being the number of earlier pushes modulo the capacity.
   */
  function Slots<T>(pushed: seq<T>, capacity: int): (r: seq<T>)
    requires capacity > 0
    ensures |r| == if |pushed| < capacity then |pushed| else capacity
    decreases |pushed|
  {
    if pushed == [] then []
    else
      var n := |pushed| - 1;
      var before := Slots(pushed[..n], capacity);
      if n < capacity then before + [pushed[n]] else before[n % capacity := pushed[n]]
  }

  /**
   * What `push` makes of an empty list by replaying the given pushes: the
   * list, and the slot the next push overwrites once the list is full.
   */
  function Replay<T>(pushed: seq<T>, capacity: int): (r: (seq<T>, int))
    requires capacity > 0
    ensures |r.0| == (if |pushed| < capacity then |pushed| else capacity) && 0 <= r.1 < capacity
    decreases |pushed|
  {
    if pushed == [] then ([], 0)
    else
      var n := |pushed| - 1;
      var before := Replay(pushed[..n], capacity);
      var list := if |before.0| < capacity then before.0 + [pushed[n]] else before.0[before.1 := pushed[n]];
      (list, (before.1 + 1) % capacity)
  }

  /** Replaying the pushes gives their slots, and the number of pushes modulo the capacity as the next slot. */
  lemma {:induction false} ReplayIsSlots<T>(pushed: seq<T>, capacity: int)
    requires capacity > 0
    ensures Replay(pushed, capacity) == (Slots(pushed, capacity), |pushed| % capacity)
    decreases |pushed|
  {
    if pushed != [] {
      var n := |pushed| - 1;
      ReplayIsSlots(pushed[..n], capacity);
      ModSucc(n, capacity);
    }
  }

  /**
   * One list of a buffer after the given pushes, with `position` the next
   * slot to overwrite: empty when the capacity leaves no room, otherwise the
   * replay of the pushes.
   */
  ghost predicate Tracks<T>(list: seq<T>, pushed: seq<T>, capacity: int, position: int)
  {
    if capacity <= 0 then pushed == [] && list == [] && position == 0
    else (list, position) == Replay(pushed, capacity)
  }

  /** Once a tracking list is full, `position` indexes it. */
  lemma TracksFull<T>(list: seq<T>, pushed: seq<T>, capacity: int, position: int)
    requires Tracks(list, pushed, capacity, position)
    ensures capacity > 0 && |list| >= capacity ==> 0 <= position < |list|
  {
  }

  /** A push onto a tracking list with room appends, and `position` moves on by one modulo the capacity. */
  lemma TracksAppend<T>(list: seq<T>, pushed: seq<T>, capacity: int, position: int, x: T)
    requires Tracks(list, pushed, capacity, position) && |list| < capacity
    ensures Tracks(list + [x], pushed + [x], capacity, (position + 1) % capacity)
  {
    assert (pushed + [x])[..|pushed|] == pushed;
  }

  /** A push onto a full tracking list writes slot `position`, and `position` moves on by one modulo the capacity. */
  lemma TracksOverwrite<T>(list: seq<T>, pushed: seq<T>, capacity: int, position: int, x: T)
    requires Tracks(list, pushed, capacity, position) && |list| >= capacity && 0 <= position < |list|
    ensures Tracks(list[position := x], pushed + [x], capacity, (position + 1) % capacity)
  {
    assert (pushed + [x])[..|pushed|] == pushed;
  }

  /**
   * The buffer holds the most recent pushes: each of the last `capacity`
   * pushes (all of them, while fewer) sits in the slot its count names.
   */
  lemma {:induction false} SlotsRecent<T>(pushed: seq<T>, capacity: int)
    requires capacity > 0
    ensures forall k :: 0 <= k < |pushed| && |pushed| - capacity <= k ==>
      k % capacity < |Slots(pushed, capacity)| && Slots(pushed, capacity)[k % capacity] == pushed[k]
    decreases |pushed|
  {
    if pushed != [] {
      var n := |pushed| - 1;
      var init := pushed[..n];
      var before := Slots(init, capacity);
      SlotsRecent(init, capacity);
      forall k | 0 <= k < |pushed| && |pushed| - capacity <= k
        ensures k % capacity < |Slots(pushed, capacity)| && Slots(pushed, capacity)[k % capacity] == pushed[k]
      {
        if n < capacity {
          ModUnique(k, capacity, 0, k);
          if k < n {
            assert init[k] == pushed[k];
          }
        } else if k < n {
          ModDistinct(k, n, capacity);
          assert init[k] == pushed[k];
        }
      }
    }
  }

  /**
   * `ReplayBuffer`: three parallel lists of states, policy targets and value
   * targets, and the slot the next push overwrites once the lists are full.
   * The ghost lists record every push ever made.
   */
  class ReplayBuffer<S, P, V> {
    const capacity: int
    var states: seq<S>
    var policies: seq<P>
    var values: seq<V>
    var position: int
    ghost var pushedStates: seq<S>
    ghost var pushedPolicies: seq<P>
    ghost var pushedValues: seq<V>

    /** The lists are the slots of everything pushed, and `position` counts pushes modulo the capacity. */
    ghost predicate Valid()
      reads this
    {
      && |pushedPolicies| == |pushedStates| && |pushedValues| == |pushedStates|
      && Tracks(states, pushedStates, capacity, position)
      && Tracks(policies, pushedPolicies, capacity, position)
      && Tracks(values, pushedValues, capacity, position)
    }

    constructor (capacity: int)
      ensures Valid() && this.capacity == capacity && position == 0
      ensures states == [] && policies == [] && values == [] && pushedStates == []
    {
      this.capacity := capacity;
      states, policies, values := [], [], [];
      position := 0;
      pushedStates, pushedPolicies, pushedValues := [], [], [];
    }

    /**
     * `push`: append while below capacity, otherwise overwrite slot
     * `position` of each list; then advance `position` modulo the capacity.
     * With a capacity of 0 or less the write indexes an empty list and
     * raises IndexError: `ok` is false and nothing changes.
     */
    method Push(state: S, policy: P, value: V) returns (ok: bool)
      requires Valid()
      modifies this
      ensures Valid() && ok == (capacity > 0)
      ensures !ok ==> unchanged(this)
      ensures ok ==> pushedStates == old(pushedStates) + [state] && pushedPolicies == old(pushedPolicies) + [policy]
                     && pushedValues == old(pushedValues) + [value]
      ensures ok && old(|states|) < capacity ==>
        states == old(states) + [state] && policies == old(policies) + [policy] && values == old(values) + [value]
      ensures ok && old(|states|) >= capacity ==>
        && 0 <= old(position) < |states|
        && states == old(states)[old(position) := state]
        && policies == old(policies)[old(position) := policy]
        && values == old(values)[old(position) := value]
      ensures ok ==> position == (old(position) + 1) % capacity
    {
      TracksFull(states, pushedStates, capacity, position);
      if |states| < capacity {
        TracksAppend(states, pushedStates, capacity, position, state);
        TracksAppend(policies, pushedPolicies, capacity, position, policy);
        TracksAppend(values, pushedValues, capacity, position, value);
        states, policies, values := states + [state], policies + [policy], values + [value];
      } else if position < 0 || position >= |states| {
        ok := false;
        return;
      } else {
        TracksOverwrite(states, pushedStates, capacity, position, state);
        TracksOverwrite(policies, pushedPolicies, capacity, position, policy);
        TracksOverwrite(values, pushedValues, capacity, position, value);
        states, policies, values := states[position := state], policies[position := policy], values[position := value];
      }
      position := (position + 1) % capacity;
      pushedStates, pushedPolicies, pushedValues := pushedStates + [state], pushedPolicies + [policy], pushedValues + [value];
      ok := true;
    }

    /** `__len__`: the number of pushes, capped at the capacity; the three lists always agree on it. */
    function Len(): (n: nat)
      requires Valid()
      reads this
      ensures n == |policies| && n == |values|
      ensures capacity <= 0 ==> n == 0
      ensures capacity > 0 ==> n == if |pushedStates| < capacity then |pushedStates| else capacity
    {
      |states|
    }
  }

  // ---------------------------------------------------------------- legal points

  /** A board point `(x, y)`: row x, column y. */
  type Point = p: (int, int) | 0 <= p.0 < Size && 0 <= p.1 < Size witness (0, 0)

  /** The action index of a board point. */
  function Digit(p: Point): (i: ActionIndex)
    ensures i < PassIndex
  {
    ToDigit(p.0, p.1)
  }

  /** The point at action index k, listed when `color` may play it on s. */
  function LegalAt(s: GoState, color: int, rules: Rules, k: nat): seq<Point>
    requires k < PassIndex
  {
    var a := ToPosition(k);
    if rules(s, color, a).Some? then [(a.x, a.y)] else []
  }

  /** The points at action index k or later that `color` may play on s, in row-major order. */
  function ValidFrom(s: GoState, color: int, rules: Rules, k: nat): seq<Point>
    requires k <= PassIndex
    decreases PassIndex - k
  {
    if k == PassIndex then [] else LegalAt(s, color, rules, k) + ValidFrom(s, color, rules, k + 1)
  }

  /** The scan of `_get_valid_moves` from index k on, with the points found before k in `found`. */
  function ScanFrom(s: GoState, color: int, rules: Rules, k: nat, found: seq<Point>): seq<Point>
    requires k <= PassIndex
    decreases PassIndex - k
  {
    if k == PassIndex then found else ScanFrom(s, color, rules, k + 1, found + LegalAt(s, color, rules, k))
  }

  /** Associativity of concatenation, stated for the regrouping `ScanFromIsValidFrom` needs. */
  lemma JoinThree(a: seq<Point>, b: seq<Point>, c: seq<Point>)
    ensures (a + b) + c == a + (b + c)
  {
  }

  /** The scan finishes the list it was given with the legal points from k on. */
  lemma {:induction false} ScanFromIsValidFrom(s: GoState, color: int, rules: Rules, k: nat, found: seq<Point>)
    requires k <= PassIndex
    ensures ScanFrom(s, color, rules, k, found) == found + ValidFrom(s, color, rules, k)
    decreases PassIndex - k
  {
    if k == PassIndex {
      assert found + [] == found;
    } else {
      var head := LegalAt(s, color, rules, k);
      ScanFromIsValidFrom(s, color, rules, k + 1, found + head);
      JoinThree(found, head, ValidFrom(s, color, rules, k + 1));
    }
  }

  /** One point of the scan: it is kept exactly when the move there succeeds. */
  lemma ScanStep(s: GoState, color: int, rules: Rules, x: int, y: int, found: seq<Point>, ok: bool)
    requires 0 <= x < Size && 0 <= y < Size
    requires ok == rules(s, color, Place(x, y)).Some?
    ensures ScanFrom(s, color, rules, ToDigit(x, y), found)
         == ScanFrom(s, color, rules, ToDigit(x, y + 1), if ok then found + [(x, y)] else found)
  {
    DigitRoundTrip(x, y);
    assert ToDigit(x, y + 1) == ToDigit(x, y) + 1;
    assert found + [] == found;
  }

  /** The whole scan, started with nothing found, is the list of legal points. */
  lemma ScanAll(s: GoState, color: int, rules: Rules)
    ensures ScanFrom(s, color, rules, ToDigit(0, 0), []) == ValidMoves(s, color, rules)
  {
    ScanFromIsValidFrom(s, color, rules, 0, []);
    assert [] + ValidMoves(s, color, rules) == ValidMoves(s, color, rules);
  }

  /** Past the last row the scan has nothing left to add. */
  lemma ScanDone(s: GoState, color: int, rules: Rules, found: seq<Point>)
    ensures ScanFrom(s, color, rules, ToDigit(Size, 0), found) == found
  {
  }

  /** `_get_valid_moves`, as a value: every point where the move succeeds, row by row. */
  function ValidMoves(s: GoState, color: int, rules: Rules): seq<Point>
  {
    ValidFrom(s, color, rules, 0)
  }

  /** The points listed from index k on are exactly the legal points at index k or later, in increasing index order. */
  lemma {:induction false} ValidFromExact(s: GoState, color: int, rules: Rules, k: nat)
    requires k <= PassIndex
    ensures forall p: Point :: p in ValidFrom(s, color, rules, k) <==> k <= Digit(p) && rules(s, color, Place(p.0, p.1)).Some?
    ensures forall i :: 0 <= i < |ValidFrom(s, color, rules, k)| ==> k <= Digit(ValidFrom(s, color, rules, k)[i])
    ensures forall i, j :: 0 <= i < j < |ValidFrom(s, color, rules, k)| ==>
      Digit(ValidFrom(s, color, rules, k)[i]) < Digit(ValidFrom(s, color, rules, k)[j])
    decreases PassIndex - k
  {
    if k < PassIndex {
      ValidFromExact(s, color, rules, k + 1);
      var tail := ValidFrom(s, color, rules, k + 1);
      var head := LegalAt(s, color, rules, k);
      assert ValidFrom(s, color, rules, k) == head + tail;
      forall p: Point
        ensures p in head + tail <==> k <= Digit(p) && rules(s, color, Place(p.0, p.1)).Some?
      {
        if Digit(p) == k {
          DigitRoundTrip(p.0, p.1);
        }
      }
    }
  }

  /** `_get_valid_moves` lists each legal point once, and only legal points, in row-major order. */
  lemma ValidMovesExact(s: GoState, color: int, rules: Rules)
    ensures forall p: Point :: p in ValidMoves(s, color, rules) <==> rules(s, color, Place(p.0, p.1)).Some?
    ensures forall i, j :: 0 <= i < j < |ValidMoves(s, color, rules)| ==>
      Digit(ValidMoves(s, color, rules)[i]) < Digit(ValidMoves(s, color, rules)[j])
  {
    ValidFromExact(s, color, rules, 0);
  }

  /**
   * In a list in increasing index order, the entry at bi scoring at least
   * every entry and strictly more than every earlier one beats every point
   * of the list, and strictly every point of smaller index.
   */
  lemma FirstBest(moves: seq<Point>, scores: Mcts.Scores, bi: nat)
    requires bi < |moves|
    requires forall i, j :: 0 <= i < j < |moves| ==> Digit(moves[i]) < Digit(moves[j])
    requires forall j :: 0 <= j < |moves| ==> Score(scores, moves[j]) <= Score(scores, moves[bi])
    requires forall j :: 0 <= j < bi ==> Score(scores, moves[j]) < Score(scores, moves[bi])
    ensures forall p :: p in moves ==>
      && Score(scores, p) <= Score(scores, moves[bi])
      && (Digit(p) < Digit(moves[bi]) ==> Score(scores, p) < Score(scores, moves[bi]))
  {
    forall p | p in moves
      ensures Score(scores, p) <= Score(scores, moves[bi])
      ensures Digit(p) < Digit(moves[bi]) ==> Score(scores, p) < Score(scores, moves[bi])
    {
      var j :| 0 <= j < |moves| && moves[j] == p;
      if bi <= j {
        assert Digit(moves[bi]) <= Digit(p);
      }
    }
  }

  /** The policy's score of a board point. */
  function Score(scores: Mcts.Scores, p: Point): real
  {
    scores[Digit(p)]
  }

  /**
   * The loop of `get_policy_action` over the legal points: keep a point
   * when it scores strictly more than the best so far (the first point
   * always does, the running best starting at minus infinity).
   */
  method FirstHighest(scores: Mcts.Scores, moves: seq<Point>) returns (best: Option<Point>, ghost bi: nat)
    ensures best.None? <==> moves == []
    ensures best.Some? ==> bi < |moves| && best.value == moves[bi]
    ensures best.Some? ==> forall j :: 0 <= j < |moves| ==> Score(scores, moves[j]) <= Score(scores, moves[bi])
    ensures best.Some? ==> forall j :: 0 <= j < bi ==> Score(scores, moves[j]) < Score(scores, moves[bi])
  {
    best := None;
    var bestProb: real := 0.0;
    bi := 0;
    var i := 0;
    while i < |moves|
      invariant 0 <= i <= |moves|
      invariant best.None? <==> i == 0
      invariant best.Some? ==> bi < i && best.value == moves[bi] && bestProb == Score(scores, moves[bi])
      invariant best.Some? ==> forall j :: 0 <= j < i ==> Score(scores, moves[j]) <= bestProb
      invariant best.Some? ==> forall j :: 0 <= j < bi ==> Score(scores, moves[j]) < bestProb
    {
      var prob := Score(scores, moves[i]);
      if best.None? || prob > bestProb {
        best, bestProb, bi := Some(moves[i]), prob, i;
      }
      i := i + 1;
    }
  }

  /** The policy target when no point is legal: all weight on the pass index. */
  function PassOnly(): (r: Mcts.Scores)
    ensures r[PassIndex] == 1.0 && forall i :: 0 <= i < PassIndex ==> r[i] == 0.0
  {
    seq(362, i => if i == PassIndex then 1.0 else 0.0)
  }

  // ---------------------------------------------------------------- game over

  /** The last two entries of a history, or all of it when shorter. */
  function LastTwo(h: seq<Action>): (r: seq<Action>)
    ensures |r| == if |h| < 2 then |h| else 2
    ensures forall i :: 0 <= i < |r| ==> r[i] == h[|h| - |r| + i]
  {
    if |h| <= 2 then h else h[|h| - 2..]
  }

  predicate AllPass(h: seq<Action>)
  {
    forall i :: 0 <= i < |h| ==> h[i].Pass?
  }

  /**
   * What `step` decides after `color` has moved to t: the game is over when
   * the last (at most two) history entries are all passes, or when `color`,
   * the player who just moved, has no legal point on t.
   */
  predicate GameOver(t: GoState, color: int, rules: Rules)
  {
    AllPass(LastTwo(t.history)) || ValidMoves(t, color, rules) == []
  }

  /** A pass right after a pass, or as the very first move, ends the game. */
  lemma PassAfterPassEnds(s: GoState, color: int, rules: Rules)
    requires Lawful(rules) && rules(s, color, Pass).Some?
    requires s.history == [] || s.history[|s.history| - 1].Pass?
    ensures GameOver(rules(s, color, Pass).value, color, rules)
  {
    var h := rules(s, color, Pass).value.history;
    LawfulMove(rules, s, color, Pass);
    var r := LastTwo(h);
    forall i | 0 <= i < |r|
      ensures r[i].Pass?
    {
      assert r[i] == h[|h| - |r| + i];
    }
  }

  /** After a stone is placed the pass rule cannot fire: the game ends only if the mover is left without a legal point. */
  lemma PlaceEndsOnlyWhenStuck(s: GoState, color: int, x: int, y: int, rules: Rules)
    requires Lawful(rules) && rules(s, color, Place(x, y)).Some?
    ensures var t := rules(s, color, Place(x, y)).value;
      GameOver(t, color, rules) <==> ValidMoves(t, color, rules) == []
  {
    var h := rules(s, color, Place(x, y)).value.history;
    LawfulMove(rules, s, color, Place(x, y));
    var r := LastTwo(h);
    assert r[|r| - 1] == h[|h| - 1] == Place(x, y);
  }

  // ---------------------------------------------------------------- environment

  /** An entry of the environment's own history: the move and the color that made it. */
  datatype Turn = Turn(move: Action, color: int)

  /** The replay buffer's default capacity. */
  const DefaultCapacity: int := 10000

  /**
   * `SelfPlayEnv`: the board, the color to move (black, 1, first) and the
   * moves played so far. The policy network is a parameter; the value and
   * playout networks are used only by the parts of the class this model
   * leaves out.
   */
  class SelfPlayEnv {
    var go: Go
    var currentColor: int
    var history: seq<Turn>
    const rules: Rules
    const policy: Mcts.Policy
    const replayBuffer: ReplayBuffer<GoState, Mcts.Scores, real>

    ghost predicate Valid()
      reads this, go
    {
      go.rules == rules
    }

    constructor (rules: Rules, policy: Mcts.Policy)
      ensures Valid() && this.rules == rules && this.policy == policy
      ensures go.State() == EmptyState() && currentColor == 1 && history == []
      ensures replayBuffer.capacity == DefaultCapacity && replayBuffer.Valid() && replayBuffer.Len() == 0
    {
      this.rules := rules;
      this.policy := policy;
      go := new Go(rules);
      currentColor := 1;
      history := [];
      replayBuffer := new ReplayBuffer(DefaultCapacity);
    }

    /** `reset`: a fresh board, black to move, no moves played. */
    method Reset()
      modifies this
      ensures Valid() && fresh(go)
      ensures go.State() == EmptyState() && currentColor == 1 && history == []
    {
      go := new Go(rules);
      currentColor := 1;
      history := [];
    }

    /** `_get_valid_moves`: try every point, row by row, on a clone of the board; the board itself is left alone. */
    method GetValidMoves() returns (moves: seq<Point>)
      ensures moves == ValidMoves(go.State(), currentColor, go.rules)
    {
      ghost var s, color, rules := go.State(), currentColor, go.rules;
      ScanAll(s, color, rules);
      moves := [];
      var x := 0;
      while x < Size
        invariant 0 <= x <= Size
        invariant ScanFrom(s, color, rules, ToDigit(x, 0), moves) == ValidMoves(s, color, rules)
      {
        moves := ScanRow(x, moves, s, color, rules);
        x := x + 1;
      }
      ScanDone(s, color, rules, moves);
    }

    /** One point of `_get_valid_moves`: the move for the color to move, tried on a clone of the board. */
    method TryPoint(x: int, y: int) returns (ok: bool)
      ensures ok == go.rules(go.State(), currentColor, Place(x, y)).Some?
    {
      var temp := go.Clone();
      ok := temp.Move(currentColor, Place(x, y));
    }

    /** Row x of the scan of `_get_valid_moves`: each point of the row tried on its own clone. */
    method ScanRow(x: int, found: seq<Point>, ghost s: GoState, ghost color: int, ghost rules: Rules) returns (moves: seq<Point>)
      requires 0 <= x < Size && s == go.State() && color == currentColor && rules == go.rules
      ensures ScanFrom(s, color, rules, ToDigit(x + 1, 0), moves) == ScanFrom(s, color, rules, ToDigit(x, 0), found)
    {
      moves := found;
      var y := 0;
      while y < Size
        invariant 0 <= y <= Size
        invariant ScanFrom(s, color, rules, ToDigit(x, y), moves) == ScanFrom(s, color, rules, ToDigit(x, 0), found)
      {
        var ok := TryPoint(x, y);
        ScanStep(s, color, rules, x, y, moves, ok);
        moves := if ok then moves + [(x, y)] else moves;
        y := y + 1;
      }
    }

    /**
     * `get_policy_action`: the legal point the policy network scores
     * highest, the first one in row-major order on a tie, with the network's
     * scores; with no legal point, a pass and all weight on the pass index.
     */
    method GetPolicyAction() returns (scores: Mcts.Scores, best: Option<Point>)
      ensures var moves := ValidMoves(go.State(), currentColor, go.rules);
        && (best.None? <==> moves == [])
        && (best.None? ==> scores == PassOnly())
        && (best.Some? ==> scores == policy(go.State(), currentColor) && best.value in moves)
      ensures best.Some? ==> forall p :: p in ValidMoves(go.State(), currentColor, go.rules) ==>
        && Score(scores, p) <= Score(scores, best.value)
        && (Digit(p) < Digit(best.value) ==> Score(scores, p) < Score(scores, best.value))
    {
      scores := policy(go.State(), currentColor);
      var moves := GetValidMoves();
      ghost var bi;
      best, bi := FirstHighest(scores, moves);
      if best.None? {
        scores := PassOnly();
      } else {
        ValidMovesExact(go.State(), currentColor, go.rules);
        FirstBest(moves, scores, bi);
      }
    }

    /**
     * `step`: play `move` for the color to move. A rejected move raises
     * ValueError (`ok` false) and changes nothing. Otherwise the move is
     * recorded with its color, the game-over test runs for the color that
     * moved, and the turn passes to the other color.
     */
    method Step(move: Action) returns (ok: bool, gameOver: bool)
      requires Valid()
      modifies this, go
      ensures Valid() && go == old(go)
      ensures ok == rules(old(go.State()), old(currentColor), move).Some?
      ensures !ok ==> go.State() == old(go.State()) && history == old(history) && currentColor == old(currentColor)
      ensures ok ==>
        && go.State() == rules(old(go.State()), old(currentColor), move).value
        && history == old(history) + [Turn(move, old(currentColor))]
        && currentColor == -old(currentColor)
        && gameOver == GameOver(go.State(), old(currentColor), rules)
    {
      gameOver := false;
      ok := go.Move(currentColor, move);
      if !ok {
        return;
      }
      history := history + [Turn(move, currentColor)];
      var lastTwo := LastTwo(go.history);
      gameOver := forall i :: 0 <= i < |lastTwo| ==> lastTwo[i].Pass?;
      if !gameOver {
        var validMoves := GetValidMoves();
        gameOver := |validMoves| == 0;
      }
      currentColor := -currentColor;
    }
  }
}
