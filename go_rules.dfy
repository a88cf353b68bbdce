/**
 * The Go rules engine as the rest of the program sees it.
 *
 * The engine itself (legality, captures, liberties) lives in a file that is
 * not part of this model, so it appears here only through its interface: a
 * position (board and move history), the `Rules` oracle that answers a move
 * attempt with the next position or a rejection, and the mutable `Go` object
 * that callers clone and move on. The coordinate codec between board points
 * and the 362 action indices (361 = pass) is defined here as well.
 */
module GoRules {
  import opened Wrappers

  /** Side of the board, in rows and in columns. */
  const Size: int := 19

  /** Action index of the pass move: one past the last board point. */
  const PassIndex: int := 361

  /** A board: 19 rows of 19 cells, 1 for black, -1 for white, 0 for empty. */
  type Board = b: seq<seq<int>> | |b| == 19 && forall i :: 0 <= i < 19 ==> |b[i]| == 19
    witness EmptyBoard()

  function EmptyBoard(): seq<seq<int>>
  {
    seq(19, _ => seq(19, _ => 0))
  }

  /** A history entry: a pass, written `(None, None)` in the source, or a point `(x, y)`. */
  datatype Action = Pass | Place(x: int, y: int)

  /** What the program reads of a `Go` object: its board and its move history. */
  datatype GoState = GoState(board: Board, history: seq<Action>)

  /** The position of a freshly constructed `Go()`. */
  function EmptyState(): GoState
  {
    GoState(EmptyBoard(), [])
  }

  /** The rules engine: `rules(s, color, a)` is the position after `color` plays `a` on `s`, or None when the move is rejected. */
  type Rules = (GoState, int, Action) -> Option<GoState>

  /** `rules(s, c, a)`, named so that `Lawful` is applied only where a proof asks for it (`LawfulMove`). */
  ghost function After(rules: Rules, s: GoState, c: int, a: Action): Option<GoState>
  {
    rules(s, c, a)
  }

  /** The one fact about the hidden engine that some lemmas assume: an accepted move appends exactly that move to the history. */
  ghost predicate Lawful(rules: Rules)
  {
    forall s: GoState, c: int, a: Action {:trigger After(rules, s, c, a)} ::
      After(rules, s, c, a).Some? ==> After(rules, s, c, a).value.history == s.history + [a]
  }

  /** What `Lawful` says about one accepted move. */
  lemma LawfulMove(rules: Rules, s: GoState, c: int, a: Action)
    requires Lawful(rules) && rules(s, c, a).Some?
    ensures rules(s, c, a).value.history == s.history + [a]
  {
    assert After(rules, s, c, a) == rules(s, c, a);
  }

  /** An index into the 362 scores of a policy: 361 board points then pass. */
  type ActionIndex = i: int | 0 <= i < 362

  /** Linear index of a board point, row-major. */
  function ToDigit(x: int, y: int): int
  {
    x * 19 + y
  }

  /** The action an index stands for: row-major points, and pass at 361. */
  function ToPosition(i: ActionIndex): (a: Action)
    ensures a.Pass? <==> i == PassIndex
    ensures a.Place? ==> 0 <= a.x < Size && 0 <= a.y < Size && ToDigit(a.x, a.y) == i
  {
    if i == PassIndex then Pass else Place(i / 19, i % 19)
  }

  /** The codec is a bijection: every board point survives the round trip through its index. */
  lemma DigitRoundTrip(x: int, y: int)
    requires 0 <= x < Size && 0 <= y < Size
    ensures 0 <= ToDigit(x, y) < PassIndex
    ensures ToPosition(ToDigit(x, y)) == Place(x, y)
  {
    var i := ToDigit(x, y);
    assert i == x * 19 + y;
    assert i / 19 == x && i % 19 == y;
  }

  /**
   * The mutable board object of the source. `Move` asks the rules oracle;
   * a rejected move leaves the object as it was (an assumption about the
   * hidden rules engine; see README, Left out).
   */
  class Go {
    var board: Board
    var history: seq<Action>
    const rules: Rules

    constructor (rules: Rules)
      ensures State() == EmptyState() && this.rules == rules
    {
      board := EmptyBoard();
      history := [];
      this.rules := rules;
    }

    function State(): GoState
      reads this
    {
      GoState(board, history)
    }

    method Move(color: int, a: Action) returns (ok: bool)
      modifies this
      ensures ok == rules(old(State()), color, a).Some?
      ensures State() == if ok then rules(old(State()), color, a).value else old(State())
    {
      match rules(State(), color, a) {
        case Some(next) =>
          board, history := next.board, next.history;
          ok := true;
        case None =>
          ok := false;
      }
    }

    method Clone() returns (g: Go)
      ensures fresh(g) && g.State() == State() && g.rules == rules
    {
      g := new Go(rules);
      g.board, g.history := board, history;
    }
  }
}
