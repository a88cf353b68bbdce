/**
 * The engine front end: the tables between GTP column letters and board
 * columns, vertex formatting, the stone-count value, and the two move
 * generators, by the policy evaluator alone and by tree search falling back
 * to the policy. What a generator prints on standard output and on standard
 * error is returned as two strings.
 */
module Engine {
  import opened Wrappers
  import opened GoRules
  import Text
  import Ranking
  import Mcts

  // ---------------------------------------------------------------- colors

  /** `colorCharToIndex`: B or b is black (1), W or w is white (-1); any other key is missing. */
  function ColorCharToIndex(s: string): (r: Option<int>)
    ensures r.Some? <==> s == "B" || s == "b" || s == "W" || s == "w"
    ensures r.Some? ==> r.value == 1 || r.value == -1
  {
    if s == "B" || s == "b" then Some(1)
    else if s == "W" || s == "w" then Some(-1)
    else None
  }

  /** `indexToColorChar`: 1 is B, -1 is W. */
  function IndexToColorChar(c: int): (r: Option<char>)
    ensures r.Some? <==> c == 1 || c == -1
  {
    if c == 1 then Some('B') else if c == -1 then Some('W') else None
  }

  /** The two color tables are inverse to each other on the colors, whichever case the letter was given in. */
  lemma ColorRoundTrip(c: int, s: string)
    ensures (c == 1 || c == -1) ==> ColorCharToIndex([IndexToColorChar(c).value]) == Some(c)
    ensures ColorCharToIndex(s).Some? ==> IndexToColorChar(ColorCharToIndex(s).value) == Some(if s == "B" || s == "b" then 'B' else 'W')
  {
  }

  // ---------------------------------------------------------------- columns

  /** The letter of board column i: A to T with I left out. */
  function ColumnLetter(i: int): (c: char)
    requires 0 <= i < Size
    ensures 'A' <= c <= 'T' && c != 'I'
    ensures forall j :: 0 <= j < i ==> ColumnLetter(j) < c
  {
    if i < 8 then ('A' as int + i) as char else ('A' as int + i + 1) as char
  }

  /** `charToIndex[c]`: the column a letter names, None for a letter that is not in the table. */
  function ColumnIndex(c: char): (r: Option<int>)
    ensures r.Some? ==> 0 <= r.value < Size && ColumnLetter(r.value) == c
    ensures r.None? ==> forall i :: 0 <= i < Size ==> ColumnLetter(i) != c
  {
    if 'A' <= c <= 'H' then Some(c as int - 'A' as int)
    else if 'J' <= c <= 'T' then Some(c as int - 'A' as int - 1)
    else None
  }

  /** Every column survives the trip through its letter. */
  lemma ColumnRoundTrip(i: int)
    requires 0 <= i < Size
    ensures ColumnIndex(ColumnLetter(i)) == Some(i)
  {
  }

  /**
   * The module-level loop that fills `indexToChar` and `charToIndex`:
   * letters from A upwards, jumping over I.
   */
  method BuildColumnTables() returns (indexToChar: seq<char>, charToIndex: map<char, int>)
    ensures |indexToChar| == Size && forall i :: 0 <= i < Size ==> indexToChar[i] == ColumnLetter(i)
    ensures forall c :: c in charToIndex <==> ColumnIndex(c).Some?
    ensures forall c :: c in charToIndex ==> charToIndex[c] == ColumnIndex(c).value
  {
    indexToChar := [];
    charToIndex := map[];
    var ch := 'A' as int;
    var i := 0;
    while i < 19
      invariant 0 <= i <= Size
      invariant ch == if i < 8 then 'A' as int + i else 'A' as int + i + 1
      invariant |indexToChar| == i && forall k :: 0 <= k < i ==> indexToChar[k] == ColumnLetter(k)
      invariant forall c :: c in charToIndex <==> ColumnIndex(c).Some? && ColumnIndex(c).value < i
      invariant forall c :: c in charToIndex ==> charToIndex[c] == ColumnIndex(c).value
    {
      ColumnRoundTrip(i);
      indexToChar := indexToChar + [ch as char];
      charToIndex := charToIndex[ch as char := i];
      ch := ch + 1;
      if ch == 'I' as int {
        ch := ch + 1;
      }
      i := i + 1;
    }
  }

  // ---------------------------------------------------------------- vertices

  /** The GTP vertex of a board point: its column letter, then the row counted from the bottom. */
  function Vertex(x: int, y: int): string
    requires 0 <= y < Size
  {
    [ColumnLetter(y)] + Text.IntToString(Size - x)
  }

  /**
   * `toStrPosition`: the empty string for a pass, otherwise the vertex.
   * The column comes from indexing a Python list, so y from -19 to -1 counts
   * from the end, and any other y outside the board raises (None).
   */
  function ToStrPosition(a: Action): (r: Option<string>)
    ensures a.Pass? ==> r == Some("")
    ensures a.Place? ==> (r.Some? <==> -Size <= a.y < Size)
    ensures a.Place? && 0 <= a.y < Size ==> r == Some(Vertex(a.x, a.y))
  {
    match a
    case Pass => Some("")
    case Place(x, y) =>
      if 0 <= y < Size then Some(Vertex(x, y))
      else if -Size <= y < 0 then Some(Vertex(x, y + Size))
      else None
  }

  // ---------------------------------------------------------------- value

  /** Cells of a row holding v. */
  function CountRow(row: seq<int>, v: int): nat
  {
    if row == [] then 0 else CountRow(row[..|row| - 1], v) + (if row[|row| - 1] == v then 1 else 0)
  }

  /** Cells of a board holding v: `np.sum(board == v)`. */
  function Count(rows: seq<seq<int>>, v: int): nat
  {
    if rows == [] then 0 else Count(rows[..|rows| - 1], v) + CountRow(rows[|rows| - 1], v)
  }

  /** `getValueResult`: stones of the given color minus stones of the other. */
  function ValueResult(board: Board, color: int): int
  {
    Count(board, color) - Count(board, -color)
  }

  lemma {:induction false} CountRowBound(row: seq<int>, v: int)
    ensures CountRow(row, v) <= |row|
  {
    if row != [] {
      CountRowBound(row[..|row| - 1], v);
    }
  }

  /** A board of 19 rows of 19 cells holds at most 19 cells per row of any value. */
  lemma {:induction false} CountBound(rows: seq<seq<int>>, v: int)
    requires forall i :: 0 <= i < |rows| ==> |rows[i]| == Size
    ensures Count(rows, v) <= Size * |rows|
  {
    if rows != [] {
      CountBound(rows[..|rows| - 1], v);
      CountRowBound(rows[|rows| - 1], v);
    }
  }

  /** The value of a position lies between -361 and 361: a color cannot own more points than the board has. */
  lemma ValueBound(board: Board, color: int)
    ensures -PassIndex <= ValueResult(board, color) <= PassIndex
  {
    CountBound(board, color);
    CountBound(board, -color);
  }

  /** Changing one cell of a row moves the count by what left and what arrived. */
  lemma {:induction false} CountRowUpdate(row: seq<int>, j: nat, w: int, v: int)
    requires j < |row|
    ensures CountRow(row[j := w], v) == CountRow(row, v) - (if row[j] == v then 1 else 0) + (if w == v then 1 else 0)
  {
    var n := |row| - 1;
    if j < n {
      CountRowUpdate(row[..n], j, w, v);
      assert row[j := w][..n] == row[..n][j := w];
    } else {
      assert row[j := w][..n] == row[..n];
    }
  }

  /** Changing one row of a board moves the count by the difference of the two rows' counts. */
  lemma {:induction false} CountUpdate(rows: seq<seq<int>>, i: nat, row: seq<int>, v: int)
    requires i < |rows|
    ensures Count(rows[i := row], v) == Count(rows, v) - CountRow(rows[i], v) + CountRow(row, v)
  {
    var n := |rows| - 1;
    if i < n {
      CountUpdate(rows[..n], i, row, v);
      assert rows[i := row][..n] == rows[..n][i := row];
    } else {
      assert rows[i := row][..n] == rows[..n];
    }
  }

  /** The value seen by one color is the negation of the value seen by the other. */
  lemma ValueAntisymmetric(board: Board, color: int)
    ensures ValueResult(board, -color) == -ValueResult(board, color)
  {
  }

  /** An empty board is worth nothing to either color. */
  lemma {:induction false} ValueOfEmpty(color: int)
    ensures ValueResult(EmptyBoard(), color) == 0
  {
    var b := EmptyBoard();
    if color != 0 {
      forall n | 0 <= n <= 19
        ensures Count(b[..n], color) == 0 && Count(b[..n], -color) == 0
      {
        EmptyCount(b, n, color);
        EmptyCount(b, n, -color);
      }
      assert b[..19] == b;
    }
  }

  lemma {:induction false} EmptyCount(b: seq<seq<int>>, n: nat, v: int)
    requires v != 0 && n <= |b|
    requires forall i, j :: 0 <= i < |b| && 0 <= j < |b[i]| ==> b[i][j] == 0
    ensures Count(b[..n], v) == 0
  {
    if n > 0 {
      EmptyCount(b, n - 1, v);
      assert b[..n][..n - 1] == b[..n - 1];
      EmptyRowCount(b[n - 1], |b[n - 1]|, v);
      assert b[n - 1][..|b[n - 1]|] == b[n - 1];
    }
  }

  lemma {:induction false} EmptyRowCount(row: seq<int>, n: nat, v: int)
    requires v != 0 && n <= |row|
    requires forall j :: 0 <= j < |row| ==> row[j] == 0
    ensures CountRow(row[..n], v) == 0
  {
    if n > 0 {
      EmptyRowCount(row, n - 1, v);
      assert row[..n][..n - 1] == row[..n - 1];
    }
  }

  /** A stone placed on an empty point raises its color's value by exactly one. */
  lemma PlaceStoneValue(board: Board, x: nat, y: nat, color: int)
    requires x < Size && y < Size && board[x][y] == 0 && color != 0
    ensures var after := board[x := board[x][y := color]];
      ValueResult(after, color) == ValueResult(board, color) + 1
  {
    var row := board[x][y := color];
    CountUpdate(board, x, row, color);
    CountUpdate(board, x, row, -color);
    CountRowUpdate(board[x], y, color, color);
    CountRowUpdate(board[x], y, color, -color);
  }

  // ---------------------------------------------------------------- policy move

  /** Candidates are action indices. */
  predicate Candidates(order: seq<nat>)
  {
    forall j :: 0 <= j < |order| ==> order[j] < 362
  }

  /** Where `genMovePolicy` stops in the candidate order: the pass, or the first point the rules accept. */
  function PolicyStop(s: GoState, color: int, order: seq<nat>, rules: Rules): (k: nat)
    requires Candidates(order)
    ensures k <= |order|
    ensures k < |order| ==> ToPosition(order[k]).Pass? || rules(s, color, ToPosition(order[k])).Some?
    ensures forall j :: 0 <= j < k ==> ToPosition(order[j]).Place? && rules(s, color, ToPosition(order[j])).None?
  {
    if order == [] then 0
    else
      var a := ToPosition(order[0]);
      if a.Pass? || rules(s, color, a).Some? then 0
      else 1 + PolicyStop(s, color, order[1..], rules)
  }

  /** The pass index is always a candidate, so the scan stops inside the order. */
  lemma StopsBeforeEnd(s: GoState, color: int, scores: Mcts.Scores, rules: Rules)
    ensures PolicyStop(s, color, Ranking.Rank(scores), rules) < 362
  {
    var order := Ranking.Rank(scores);
    Ranking.RankContains(scores, PassIndex);
    var p :| 0 <= p < |order| && order[p] == PassIndex;
    assert ToPosition(order[p]).Pass?;
  }

  /** The action index `genMovePolicy` settles on. */
  function PolicyChoice(s: GoState, color: int, scores: Mcts.Scores, rules: Rules): (i: ActionIndex)
  {
    StopsBeforeEnd(s, color, scores, rules);
    var order := Ranking.Rank(scores);
    order[PolicyStop(s, color, order, rules)]
  }

  /** The standard error line for each rejected candidate, in the order they were tried. */
  function Rejections(order: seq<nat>): string
    requires forall j :: 0 <= j < |order| ==> order[j] < PassIndex
  {
    if order == [] then ""
    else
      var a := ToPosition(order[|order| - 1]);
      Rejections(order[..|order| - 1]) + "Illegal move: " + Vertex(a.x, a.y) + "\n"
  }

  /** Associativity of string concatenation, stated for the one regrouping `RejectionsSnoc` needs. */
  lemma JoinLine(h: string, r: string, a: string, b: string, c: string)
    ensures h + (r + a + b + c) == h + r + a + b + c
  {
  }

  /** One more rejected candidate adds its line at the end of what was written so far. */
  lemma RejectionsSnoc(head: string, order: seq<nat>, k: nat)
    requires k < |order| && forall j :: 0 <= j <= k ==> order[j] < PassIndex
    ensures var a := ToPosition(order[k]);
      head + Rejections(order[..k + 1]) == head + Rejections(order[..k]) + "Illegal move: " + Vertex(a.x, a.y) + "\n"
  {
    var a := ToPosition(order[k]);
    assert order[..k + 1][..k] == order[..k];
    JoinLine(head, Rejections(order[..k]), "Illegal move: ", Vertex(a.x, a.y), "\n");
  }

  /** A candidate the scan passes over lies before the stop. */
  lemma PassedOver(s: GoState, color: int, order: seq<nat>, rules: Rules, k: nat)
    requires Candidates(order) && k < |order| && k <= PolicyStop(s, color, order, rules)
    requires ToPosition(order[k]).Place? && rules(s, color, ToPosition(order[k])).None?
    ensures k < PolicyStop(s, color, order, rules) && order[k] < PassIndex
  {
  }

  /** What a move generator leaves behind: standard output, standard error and the position. */
  datatype Generated = Generated(out: string, err: string, next: GoState)

  /** The value line `genMovePolicy` writes first to standard error. */
  function ValueLine(s: GoState, color: int): string
  {
    Text.IntToString(color) + " " + Text.IntToString(ValueResult(s.board, color)) + "\n"
  }

  /** Everything `genMovePolicy` does, as a function of the position and the policy's scores. */
  function PolicyReply(s: GoState, color: int, scores: Mcts.Scores, rules: Rules): Generated
  {
    StopsBeforeEnd(s, color, scores, rules);
    var order := Ranking.Rank(scores);
    var k := PolicyStop(s, color, order, rules);
    var a := ToPosition(order[k]);
    var err := ValueLine(s, color) + Rejections(order[..k]);
    if a.Pass? then Generated("pass\n", err, s)
    else Generated(Vertex(a.x, a.y) + "\n", err, rules(s, color, a).value)
  }

  /** Where the scan stops, what genMovePolicy reports. */
  lemma PolicyReplyAt(s: GoState, color: int, scores: Mcts.Scores, rules: Rules, k: nat)
    requires var order := Ranking.Rank(scores);
      && k < |order| && k <= PolicyStop(s, color, order, rules)
      && (ToPosition(order[k]).Pass? || rules(s, color, ToPosition(order[k])).Some?)
    ensures var order := Ranking.Rank(scores);
      var a := ToPosition(order[k]);
      && (forall j :: 0 <= j < k ==> order[j] < PassIndex)
      && PolicyReply(s, color, scores, rules) ==
           if a.Pass? then Generated("pass\n", ValueLine(s, color) + Rejections(order[..k]), s)
           else Generated(Vertex(a.x, a.y) + "\n", ValueLine(s, color) + Rejections(order[..k]), rules(s, color, a).value)
  {
    var order := Ranking.Rank(scores);
    var stop := PolicyStop(s, color, order, rules);
    assert stop == k;
    forall j | 0 <= j < k
      ensures order[j] < PassIndex
    {
      assert ToPosition(order[j]).Place?;
    }
  }

  /** Every index scored strictly higher than the chosen one is a board point the rules reject. */
  lemma {:induction false} PolicyChoiceIsBest(s: GoState, color: int, scores: Mcts.Scores, rules: Rules)
    ensures var i := PolicyChoice(s, color, scores, rules);
      forall j :: 0 <= j < 362 && scores[j] > scores[i] ==>
        ToPosition(j).Place? && rules(s, color, ToPosition(j)).None?
  {
    var order := Ranking.Rank(scores);
    StopsBeforeEnd(s, color, scores, rules);
    var k := PolicyStop(s, color, order, rules);
    forall j | 0 <= j < 362 && scores[j] > scores[order[k]]
      ensures ToPosition(j).Place? && rules(s, color, ToPosition(j)).None?
    {
      Ranking.RankedBefore(scores, k, j);
      var p :| 0 <= p < k && order[p] == j;
    }
  }

  /** What `genMovePolicy` prints and leaves for the chosen index. */
  lemma PolicyReplyOfChoice(s: GoState, color: int, scores: Mcts.Scores, rules: Rules)
    ensures var a := ToPosition(PolicyChoice(s, color, scores, rules));
      var g := PolicyReply(s, color, scores, rules);
      && (a.Pass? ==> g.out == "pass\n" && g.next == s)
      && (a.Place? ==> rules(s, color, a) == Some(g.next) && g.out == Vertex(a.x, a.y) + "\n")
  {
    StopsBeforeEnd(s, color, scores, rules);
  }

  /**
   * The policy move is the best-scored candidate the rules accept: every
   * index scored strictly higher is a board point the rules reject. A pass
   * is printed exactly when the pass is chosen, and then the position stays.
   */
  lemma PolicyReplyIsBest(s: GoState, color: int, scores: Mcts.Scores, rules: Rules)
    ensures var i := PolicyChoice(s, color, scores, rules);
      forall j :: 0 <= j < 362 && scores[j] > scores[i] ==>
        ToPosition(j).Place? && rules(s, color, ToPosition(j)).None?
    ensures var a := ToPosition(PolicyChoice(s, color, scores, rules));
      var g := PolicyReply(s, color, scores, rules);
      && (a.Pass? ==> g.out == "pass\n" && g.next == s)
      && (a.Place? ==> rules(s, color, a) == Some(g.next) && g.out == Vertex(a.x, a.y) + "\n")
  {
    PolicyChoiceIsBest(s, color, scores, rules);
    PolicyReplyOfChoice(s, color, scores, rules);
  }

  /**
   * `genMovePolicy`: the value line, then the candidates from the best
   * score down; a rejected point is reported on standard error, the first
   * accepted point is played and printed, and reaching the pass prints pass.
   */
  method GenMovePolicy(go: Go, color: int, policy: Mcts.Policy) returns (out: string, err: string)
    modifies go
    ensures Generated(out, err, go.State()) == PolicyReply(old(go.State()), color, policy(old(go.State()), color), go.rules)
  {
    ghost var s := go.State();
    var predict := policy(go.State(), color);
    var order := Ranking.Rank(predict);
    StopsBeforeEnd(s, color, predict, go.rules);
    var value := ValueResult(go.board, color);
    err := Text.IntToString(color) + " " + Text.IntToString(value) + "\n";
    ghost var stop := PolicyStop(s, color, order, go.rules);
    var k := 0;
    while true
      invariant k <= stop && go.State() == s
      invariant forall j :: 0 <= j < k ==> order[j] < PassIndex
      invariant err == ValueLine(s, color) + Rejections(order[..k])
      decreases stop - k
    {
      var a := ToPosition(order[k]);
      if a.Pass? {
        out := "pass\n";
        PolicyReplyAt(s, color, predict, go.rules, k);
        return;
      }
      var moveResult := go.Move(color, a);
      var strPosition := ToStrPosition(a).value;
      if !moveResult {
        PassedOver(s, color, order, go.rules, k);
        RejectionsSnoc(ValueLine(s, color), order, k);
        err := err + "Illegal move: " + strPosition + "\n";
      } else {
        out := strPosition + "\n";
        PolicyReplyAt(s, color, predict, go.rules, k);
        return;
      }
      k := k + 1;
    }
  }

  // ---------------------------------------------------------------- search move

  /** `MCTS` is called with its default number of iterations. */
  const SearchIterations: nat := 200

  /** Standard error notices of the two fallbacks, and the header before the candidate list. */
  const NoChildNotice: string := "MCTS搜索失败：未找到子节点，回退到策略网络\n"
  const NoNewMoveNotice: string := "MCTS搜索失败：没有新移动，回退到策略网络\n"
  const CandidatesHeader: string := "MCTS搜索完成，候选移动:\n"

  /** How `genMoveMCTS` ended: a move returned, the policy move used instead, or an exception. */
  datatype Outcome = Played(move: Action) | FellBack | Raised

  /** The arena of a fresh search: the root over s alone, color to move, unvisited. */
  function RootArena(s: GoState, color: int): (r: seq<Mcts.Node>)
    ensures Mcts.WellFormed(r) && |r| == 1 && r[0].go == s && r[0].color == color && r[0].parent.None?
  {
    [Mcts.Node(s, color, None, [], 0, 0.0, false)]
  }

  /**
   * best is what `MCTS` returns for a fresh root over s with color to move:
   * the arena is the tree that `SearchIterations` rounds of the search
   * build from `RootArena(s, color)` (the i-th round drawing with
   * `RoundSampler(sampler, i)`), pick is the most visited child of its
   * root, and best is that child's position (None when no child was
   * visited).
   */
  ghost predicate Searched(s: GoState, color: int, policy: Mcts.Policy, sampler: Mcts.Draws, value: Mcts.Valuation,
                           explore: Mcts.Explore, rules: Rules, arena: seq<Mcts.Node>, pick: Option<nat>, best: Option<GoState>)
  {
    && arena == Mcts.Rounds(RootArena(s, color), 0, color, SearchIterations, policy, sampler, value, explore, rules)
    && Mcts.IsMostVisited(arena, 0, pick)
    && (pick.Some? ==> pick.value < |arena| && best == Some(arena[pick.value].go))
    && (pick.None? ==> best.None?)
  }

  /**
   * The searched arena keeps the root at index 0 over s, visited once per
   * iteration; pick is one of the root's children; and when the rules
   * engine appends accepted moves to the history, every child in the arena
   * is a legal successor of its parent.
   */
  lemma SearchedRoot(s: GoState, color: int, policy: Mcts.Policy, sampler: Mcts.Draws, value: Mcts.Valuation,
                     explore: Mcts.Explore, rules: Rules, arena: seq<Mcts.Node>, pick: Option<nat>, best: Option<GoState>)
    requires Searched(s, color, policy, sampler, value, explore, rules, arena, pick, best)
    ensures 0 < |arena| && arena[0].go == s && arena[0].color == color && arena[0].parent.None?
    ensures arena[0].n == SearchIterations
    ensures pick.Some? ==> pick.value in arena[0].children
    ensures Lawful(rules) ==> Mcts.Legit(arena, rules)
  {
    var a0 := RootArena(s, color);
    Mcts.RoundsKeep(a0, 0, color, SearchIterations, policy, sampler, value, explore, rules);
    if Lawful(rules) {
      assert Mcts.LegitAt(a0, 0, rules);
      Mcts.RoundsLegit(a0, 0, color, SearchIterations, policy, sampler, value, explore, rules);
    }
    if pick.Some? {
      var k :| 0 <= k < |arena[0].children| && arena[0].children[k] == pick.value;
    }
  }

  /** The searched position is one accepted board move of color past s, and that move is its last history entry. */
  lemma SearchedMove(s: GoState, color: int, policy: Mcts.Policy, sampler: Mcts.Draws, value: Mcts.Valuation,
                     explore: Mcts.Explore, rules: Rules, arena: seq<Mcts.Node>, pick: Option<nat>, best: Option<GoState>)
    requires Lawful(rules) && Searched(s, color, policy, sampler, value, explore, rules, arena, pick, best) && best.Some?
    ensures |best.value.history| == |s.history| + 1
    ensures var m := best.value.history[|s.history|];
      m.Place? && 0 <= m.x < Size && 0 <= m.y < Size && rules(s, color, m) == best
  {
    SearchedRoot(s, color, policy, sampler, value, explore, rules, arena, pick, best);
    Mcts.LegitChild(arena, 0, pick.value, rules);
  }

  /**
   * `MCTSNode(go, willPlayColor, None)` and `MCTS(root, ...)` with a
   * fresh root over s, together with the root's own board, which the
   * search leaves as it was.
   */
  method SearchBest(s: GoState, color: int, policy: Mcts.Policy, sampler: Mcts.Draws,
                    value: Mcts.Valuation, explore: Mcts.Explore, rules: Rules)
    returns (best: Option<GoState>, rootBoard: Board, ghost arena: seq<Mcts.Node>, ghost pick: Option<nat>)
    ensures rootBoard == s.board
    ensures Searched(s, color, policy, sampler, value, explore, rules, arena, pick, best)
  {
    var tree := new Mcts.SearchTree();
    var root := tree.AddNode(s, color, None);
    assert tree.nodes == RootArena(s, color);
    var bestNextNode := tree.Search(root, policy, sampler, value, explore, rules, SearchIterations);
    arena, pick := tree.nodes, bestNextNode;
    rootBoard := tree.nodes[root].go.board;
    best := if bestNextNode.Some? then Some(tree.nodes[bestNextNode.value].go) else None;
  }

  /**
   * `genMoveMCTS`: search from a root over a copy of the position, then
   * play the last move of the most visited child (`PlaySearched`).
   */
  method GenMoveMCTS(go: Go, color: int, policy: Mcts.Policy, sampler: Mcts.Draws,
                     value: Mcts.Valuation, explore: Mcts.Explore)
    returns (out: string, err: string, outcome: Outcome, ghost arena: seq<Mcts.Node>, ghost pick: Option<nat>,
             ghost found: Option<GoState>)
    modifies go
    ensures Searched(old(go.State()), color, policy, sampler, value, explore, go.rules, arena, pick, found)
    ensures found.None? ==> outcome.FellBack?
    ensures found.Some? && |found.value.history| <= |old(go.history)| ==> outcome.FellBack?
    ensures found.Some? && |found.value.history| > |old(go.history)| ==>
      var m := found.value.history[|found.value.history| - 1];
      && (outcome.Raised? <==> ToStrPosition(m).None?)
      && (outcome.Played? <==> ToStrPosition(m).Some? && go.rules(old(go.State()), color, m).Some?)
      && (outcome.Played? ==> outcome.move == m)
    ensures Lawful(go.rules) ==> (outcome.Played? <==> found.Some?)
    ensures outcome.Played? ==>
      && go.rules(old(go.State()), color, outcome.move) == Some(go.State())
      && ToStrPosition(outcome.move).Some?
      && out == ToStrPosition(outcome.move).value + "\n"
    ensures outcome.FellBack? ==>
      var g := PolicyReply(old(go.State()), color, policy(old(go.State()), color), go.rules);
      && out == g.out && go.State() == g.next
      && Text.EndsWith(err, g.err)
  {
    var searched, rootBoard;
    searched, rootBoard, arena, pick := SearchBest(go.State(), color, policy, sampler, value, explore, go.rules);
    found := searched;
    if Lawful(go.rules) && searched.Some? {
      SearchedMove(go.State(), color, policy, sampler, value, explore, go.rules, arena, pick, searched);
    }
    out, err, outcome := PlaySearched(go, color, policy, searched, rootBoard);
  }

  /**
   * The rest of `genMoveMCTS`, given the searched position and the root's
   * board: play the last move of the searched position. With no searched
   * position, one that added no move, or a move the rules reject, the
   * policy move is generated instead.
   */
  method PlaySearched(go: Go, color: int, policy: Mcts.Policy, searched: Option<GoState>, rootBoard: Board)
    returns (out: string, err: string, outcome: Outcome)
    requires rootBoard == go.board
    requires Lawful(go.rules) && searched.Some? ==>
      && |searched.value.history| == |go.history| + 1
      && var m := searched.value.history[|go.history|];
         m.Place? && 0 <= m.x < Size && 0 <= m.y < Size && go.rules(go.State(), color, m) == searched
    modifies go
    ensures searched.None? ==> outcome.FellBack?
    ensures searched.Some? && |searched.value.history| <= |old(go.history)| ==> outcome.FellBack?
    ensures searched.Some? && |searched.value.history| > |old(go.history)| ==>
      var m := searched.value.history[|searched.value.history| - 1];
      && (outcome.Raised? <==> ToStrPosition(m).None?)
      && (outcome.Played? <==> ToStrPosition(m).Some? && go.rules(old(go.State()), color, m).Some?)
      && (outcome.Played? ==> outcome.move == m)
    ensures Lawful(go.rules) ==> (outcome.Played? <==> searched.Some?)
    ensures outcome.Played? ==>
      && go.rules(old(go.State()), color, outcome.move) == Some(go.State())
      && ToStrPosition(outcome.move).Some?
      && out == ToStrPosition(outcome.move).value + "\n"
    ensures outcome.FellBack? ==>
      var g := PolicyReply(old(go.State()), color, policy(old(go.State()), color), go.rules);
      && out == g.out && go.State() == g.next
      && Text.EndsWith(err, g.err)
  {
    if searched.None? {
      var policyErr;
      out, policyErr := GenMovePolicy(go, color, policy);
      err := NoChildNotice + policyErr;
      Text.EndsWithAppended(NoChildNotice, policyErr);
      outcome := FellBack;
      return;
    }
    var bestGo := searched.value;
    if |bestGo.history| <= |go.history| {
      var policyErr;
      out, policyErr := GenMovePolicy(go, color, policy);
      err := NoNewMoveNotice + policyErr;
      Text.EndsWithAppended(NoNewMoveNotice, policyErr);
      outcome := FellBack;
      return;
    }
    var bestMove := bestGo.history[|bestGo.history| - 1];
    err := CandidatesHeader;
    var moveResult := go.Move(color, bestMove);
    var strPosition := ToStrPosition(bestMove);
    if strPosition.None? {
      outcome := Raised;
      out := "";
      return;
    }
    if !moveResult {
      err := err + "Illegal move: " + strPosition.value + "\n";
      go.board := rootBoard;
      var policyOut, policyErr := GenMovePolicy(go, color, policy);
      out := policyOut;
      Text.EndsWithAppended(err, policyErr);
      err := err + policyErr;
      outcome := FellBack;
      return;
    }
    out := strPosition.value + "\n";
    outcome := Played(bestMove);
  }
}
