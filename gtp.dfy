/**
 * The Go Text Protocol front end: one command per input line, each answer
 * printed after "= " and followed by a blank line. The board is a `Go`
 * object that `clear_board` replaces and `play` and `genmove` move on.
 */
module Gtp {
  import opened Wrappers
  import opened GoRules
  import Text
  import Engine
  import Mcts

  // ---------------------------------------------------------------- commands

  /** What a stripped input line asks for. */
  datatype Reply =
    | Quit                         // `quit`: leave the loop, nothing printed
    | Answer(body: string)         // a fixed answer, printed after "= "
    | Play(color: int, a: Action)  // `play` of a board point: ok or Illegal move
    | Clear                        // `clear_board`: a fresh board
    | Show                         // `showboard`: the board drawn row by row
    | GenMove(color: int)          // `genmove`: handed to a move generator
    | Crash                        // the line raises: "= " is out, the program stops

  /** The names `list_commands` prints, one per line. */
  const CommandList: string :=
    "name\nversion\nprotocol_version\nlist_commands\nclear_board\nboardsize\nshowboard\nplay\ngenmove\nquit\n"

  /** `name`. */
  function EngineName(useMcts: bool): string
  {
    if useMcts then "wuwei (MCTS)\n" else "wuwei (策略网络)\n"
  }

  /**
   * `play <color> <vertex>`: exactly two words after the command, or the
   * unpacking raises. A pass needs no color. Otherwise the vertex is a column
   * letter and a row number counted from the bottom, and the row, the column
   * and the color must all parse.
   */
  function ParsePlay(line: string): (r: Reply)
    ensures r.Play? || r == Answer("play PASS\n") || r == Crash
  {
    var words := Text.Split(line);
    if |words| != 3 then Crash
    else
      var position := words[2];
      if position == "pass" then Answer("play PASS\n")
      else
        match (Text.ParseInt(position[1..]), Engine.ColumnIndex(position[0]), Engine.ColorCharToIndex(words[1]))
        case (Some(row), Some(y), Some(color)) => Play(color, Place(Size - row, y))
        case _ => Crash
  }

  /** `genmove <color>`: the second word names the color; a missing word or an unknown color raises. */
  function ParseGenMove(line: string): (r: Reply)
    ensures r.GenMove? || r == Crash
  {
    var words := Text.Split(line);
    if |words| < 2 then Crash
    else match Engine.ColorCharToIndex(words[1])
      case Some(color) => GenMove(color)
      case None => Crash
  }

  /** The command dispatch of the main loop, tried in the order of the source. */
  function Respond(line: string, useMcts: bool): (r: Reply)
    ensures r == Quit <==> line == "quit"
  {
    if line == "quit" then Quit
    else if line == "boardsize 19" then Answer("boardsize 19\n")
    else if Text.StartsWith(line, "boardsize") then Answer("boardsize\n")
    else if Text.StartsWith(line, "komi") then Answer("komi\n")
    else if line == "clear_board" then Clear
    else if Text.StartsWith(line, "play") then ParsePlay(line)
    else if Text.StartsWith(line, "genmove") then ParseGenMove(line)
    else if Text.StartsWith(line, "showboard") then Show
    else if Text.StartsWith(line, "name") then Answer(EngineName(useMcts))
    else if Text.StartsWith(line, "version") then Answer("0.1\n")
    else if Text.StartsWith(line, "protocol_version") then Answer("2\n")
    else if Text.StartsWith(line, "list_commands") then Answer(CommandList)
    else Answer("Unknown command\n")
  }

  /** A line whose first character differs from a word's neither is nor starts with that word. */
  lemma Unlike(line: string, word: string)
    requires line != [] && word != [] && line[0] != word[0]
    ensures line != word && !Text.StartsWith(line, word)
  {
    if |word| <= |line| {
      assert line[..|word|][0] == line[0];
    }
  }

  /** Lines starting with `play` reach the play parser. */
  lemma RespondPlay(line: string, useMcts: bool)
    requires Text.StartsWith(line, "play")
    ensures Respond(line, useMcts) == ParsePlay(line)
  {
    assert line[0] == line[..4][0] == 'p';
    Unlike(line, "quit");
    Unlike(line, "boardsize 19");
    Unlike(line, "boardsize");
    Unlike(line, "komi");
    Unlike(line, "clear_board");
  }

  /** Lines starting with `genmove` reach the genmove parser. */
  lemma RespondGenMove(line: string, useMcts: bool)
    requires Text.StartsWith(line, "genmove")
    ensures Respond(line, useMcts) == ParseGenMove(line)
  {
    assert line[0] == line[..7][0] == 'g';
    Unlike(line, "quit");
    Unlike(line, "boardsize 19");
    Unlike(line, "boardsize");
    Unlike(line, "komi");
    Unlike(line, "clear_board");
    Unlike(line, "play");
  }

  /** The vertex of a board point parses back to that point. */
  lemma VertexParses(x: int, y: int)
    requires 0 <= x < Size && 0 <= y < Size
    ensures var v := Engine.Vertex(x, y);
      && v != [] && Text.NoSpace(v) && v != "pass"
      && Text.ParseInt(v[1..]) == Some(Size - x)
      && Engine.ColumnIndex(v[0]) == Some(y)
  {
    var v := Engine.Vertex(x, y);
    Text.IntToStringToken(Size - x);
    Text.ParseIntRoundTrip(Size - x);
    Engine.ColumnRoundTrip(y);
    assert v[0] == Engine.ColumnLetter(y) && v[1..] == Text.IntToString(Size - x);
    assert v[0] != 'p';
  }

  /**
   * A vertex the engine prints, sent back in a `play` command, is the same
   * point again, for either color letter in either case.
   */
  lemma PlayRoundTrip(colorWord: string, x: int, y: int, useMcts: bool)
    requires 0 <= x < Size && 0 <= y < Size
    requires Engine.ColorCharToIndex(colorWord).Some?
    ensures Respond("play " + colorWord + " " + Engine.Vertex(x, y), useMcts)
         == Play(Engine.ColorCharToIndex(colorWord).value, Place(x, y))
  {
    var v := Engine.Vertex(x, y);
    VertexParses(x, y);
    var line := "play " + colorWord + " " + v;
    PlayWords(colorWord, v);
    RespondPlay(line, useMcts);
    PlayPoint(line, colorWord, v);
  }

  /** The words of a `play` line written with single spaces. */
  lemma PlayWords(colorWord: string, v: string)
    requires colorWord != [] && Text.NoSpace(colorWord) && v != [] && Text.NoSpace(v)
    ensures var line := "play " + colorWord + " " + v;
      Text.StartsWith(line, "play") && Text.Split(line) == ["play", colorWord, v]
  {
    var line := "play " + colorWord + " " + v;
    assert line == "play" + " " + colorWord + " " + v;
    Text.SplitThree("play", colorWord, v);
    assert line[..4] == "play";
  }

  /** A `play` line naming a board point by its column letter and row number. */
  lemma PlayPoint(line: string, colorWord: string, v: string)
    requires Text.Split(line) == ["play", colorWord, v] && v != "pass" && v != []
    requires Text.ParseInt(v[1..]).Some? && Engine.ColumnIndex(v[0]).Some?
    requires Engine.ColorCharToIndex(colorWord).Some?
    ensures ParsePlay(line) == Play(Engine.ColorCharToIndex(colorWord).value,
                                    Place(Size - Text.ParseInt(v[1..]).value, Engine.ColumnIndex(v[0]).value))
  {
  }

  /** `play <color> pass` answers PASS whatever the color word, and touches nothing. */
  lemma PlayPass(colorWord: string, useMcts: bool)
    requires colorWord != [] && Text.NoSpace(colorWord)
    ensures Respond("play " + colorWord + " pass", useMcts) == Answer("play PASS\n")
  {
    var line := "play " + colorWord + " pass";
    assert Text.NoSpace("pass") by {
      assert forall k :: 0 <= k < 4 ==> "pass"[k] in "pas";
    }
    PlayWords(colorWord, "pass");
    assert "play " + colorWord + " " + "pass" == line;
    RespondPlay(line, useMcts);
  }

  /** A `play` command with a word missing or a word too many raises. */
  lemma PlayWrongArity(line: string, useMcts: bool)
    requires Text.StartsWith(line, "play") && |Text.Split(line)| != 3
    ensures Respond(line, useMcts) == Crash
  {
    RespondPlay(line, useMcts);
  }

  /** `genmove <color>` goes to the move generator with that color. */
  lemma GenMoveCommand(colorWord: string, useMcts: bool)
    requires Engine.ColorCharToIndex(colorWord).Some?
    ensures Respond("genmove " + colorWord, useMcts) == GenMove(Engine.ColorCharToIndex(colorWord).value)
  {
    var line := "genmove " + colorWord;
    assert line == "genmove" + " " + colorWord;
    Text.SplitPair("genmove", colorWord);
    Text.SplitLast(colorWord);
    assert line[..7] == "genmove";
    RespondGenMove(line, useMcts);
  }

  // ---------------------------------------------------------------- showboard

  /** The mark of one cell: X for black, O for white, a dot otherwise. */
  function Glyph(v: int): char
  {
    if v == 1 then 'X' else if v == -1 then 'O' else '.'
  }

  /** One row of `showboard`, without its line end. */
  function RenderRow(row: seq<int>): (r: string)
    ensures |r| == |row| && forall j :: 0 <= j < |row| ==> r[j] == Glyph(row[j])
  {
    if row == [] then "" else RenderRow(row[..|row| - 1]) + [Glyph(row[|row| - 1])]
  }

  /** Line i of a rendered board, line end included. */
  function RowText(r: string, i: nat): string
    requires (Size + 1) * (i + 1) <= |r|
  {
    r[(Size + 1) * i .. (Size + 1) * (i + 1)]
  }

  /** The text `showboard` prints: each row on its own line, top row first. */
  function Render(rows: seq<seq<int>>): string
  {
    if rows == [] then ""
    else Render(rows[..|rows| - 1]) + RenderRow(rows[|rows| - 1]) + "\n"
  }

  lemma SliceLeft(a: string, b: string, p: nat, q: nat)
    requires p <= q <= |a|
    ensures (a + b)[p..q] == a[p..q]
  {
  }

  lemma SliceRight(a: string, b: string)
    ensures (a + b)[|a|..|a| + |b|] == b
  {
  }

  /** A drawing of full rows has one line of Size glyphs and a line end per row. */
  lemma {:induction false} RenderLength(rows: seq<seq<int>>)
    requires forall i :: 0 <= i < |rows| ==> |rows[i]| == Size
    ensures |Render(rows)| == (Size + 1) * |rows|
  {
    if rows != [] {
      RenderLength(rows[..|rows| - 1]);
    }
  }

  /** Line i of the drawing shows row i of the board, cell by cell. */
  lemma {:induction false} RenderLine(rows: seq<seq<int>>, i: nat)
    requires forall i :: 0 <= i < |rows| ==> |rows[i]| == Size
    requires i < |rows|
    ensures |Render(rows)| == (Size + 1) * |rows|
    ensures RowText(Render(rows), i) == RenderRow(rows[i]) + "\n"
  {
    var n := |rows| - 1;
    var init := rows[..n];
    RenderLength(init);
    var a := Render(init);
    var b := RenderRow(rows[n]) + "\n";
    assert Render(rows) == a + b;
    if i < n {
      RenderLine(init, i);
      SliceLeft(a, b, (Size + 1) * i, (Size + 1) * (i + 1));
    } else {
      SliceRight(a, b);
    }
  }

  /** The drawing of a board: Size lines, line i showing row i. */
  lemma RenderLines(rows: seq<seq<int>>)
    requires forall i :: 0 <= i < |rows| ==> |rows[i]| == Size
    ensures |Render(rows)| == (Size + 1) * |rows|
    ensures forall i :: 0 <= i < |rows| ==> RowText(Render(rows), i) == RenderRow(rows[i]) + "\n"
  {
    RenderLength(rows);
    forall i | 0 <= i < |rows|
      ensures RowText(Render(rows), i) == RenderRow(rows[i]) + "\n"
    {
      RenderLine(rows, i);
    }
  }

  /** `showboard`'s nested loop. */
  method ShowBoard(board: Board) returns (text: string)
    ensures text == Render(board)
  {
    text := "";
    var i := 0;
    while i < 19
      invariant 0 <= i <= Size && text == Render(board[..i])
    {
      ghost var above := text;
      var j := 0;
      while j < 19
        invariant 0 <= j <= Size && text == above + RenderRow(board[i][..j])
      {
        assert board[i][..j + 1][..j] == board[i][..j];
        text := text + [Glyph(board[i][j])];
        j := j + 1;
      }
      assert board[i][..Size] == board[i];
      assert board[..i + 1][..i] == board[..i];
      text := text + "\n";
      i := i + 1;
    }
    assert board[..Size] == board;
  }

  // ---------------------------------------------------------------- the loop

  /** What a session writes to standard output and standard error, and whether it ended by an exception. */
  datatype Session = Session(out: string, err: string, crashed: bool)

  function Prepend(out: string, err: string, rest: Session): Session
  {
    Session(out + rest.out, err + rest.err, rest.crashed)
  }

  lemma PrependTwice(o1: string, e1: string, o2: string, e2: string, rest: Session)
    ensures Prepend(o1, e1, Prepend(o2, e2, rest)) == Prepend(o1 + o2, e1 + e2, rest)
  {
    assert o1 + (o2 + rest.out) == (o1 + o2) + rest.out;
    assert e1 + (e2 + rest.err) == (e1 + e2) + rest.err;
  }

  /**
   * What one command other than `quit` and a raising one prints after "= ",
   * on standard output and standard error, and the position it leaves, with
   * the policy move generator.
   */
  function Effect(reply: Reply, s: GoState, rules: Rules, policy: Mcts.Policy): Engine.Generated
    requires !reply.Quit? && !reply.Crash?
  {
    match reply
    case Answer(body) => Engine.Generated(body + "\n", "", s)
    case Play(color, a) =>
      var next := rules(s, color, a);
      if next.Some? then Engine.Generated("ok\n\n", "", next.value)
      else Engine.Generated("Illegal move\n\n", "", s)
    case Clear => Engine.Generated("clear_board\n\n", "", EmptyState())
    case Show => Engine.Generated(Render(s.board) + "\n", "", s)
    case GenMove(color) =>
      var g := Engine.PolicyReply(s, color, policy(s, color), rules);
      Engine.Generated(g.out + "\n", g.err, g.next)
  }

  /**
   * One input line with the policy move generator: what it prints (the "= "
   * included), the position it leaves, and whether the session stops there
   * and by an exception.
   */
  datatype Step = Step(out: string, err: string, next: GoState, stop: bool, crashed: bool)

  function Outcome(reply: Reply, s: GoState, rules: Rules, policy: Mcts.Policy): Step
  {
    if reply.Quit? then Step("", "", s, true, false)
    else if reply.Crash? then Step("= ", "", s, true, true)
    else
      var g := Effect(reply, s, rules, policy);
      Step("= " + g.out, g.err, g.next, false, false)
  }

  function Line(raw: string, s: GoState, rules: Rules, policy: Mcts.Policy): Step
  {
    Outcome(Respond(Text.Strip(raw), false), s, rules, policy)
  }

  /**
   * The session with the policy move generator, from position s on:
   * standard output and standard error of the remaining lines. Running out
   * of input raises in `input()`.
   */
  function Transcript(lines: seq<string>, s: GoState, rules: Rules, policy: Mcts.Policy): Session
    decreases |lines|
  {
    if lines == [] then Session("", "", true)
    else
      var h := Line(lines[0], s, rules, policy);
      if h.stop then Session(h.out, h.err, h.crashed)
      else Prepend(h.out, h.err, Transcript(lines[1..], h.next, rules, policy))
  }

  /** A session whose first line is `quit` prints nothing and ends normally. */
  lemma QuitFirst(lines: seq<string>, s: GoState, rules: Rules, policy: Mcts.Policy)
    requires lines != [] && Text.Strip(lines[0]) == "quit"
    ensures Transcript(lines, s, rules, policy) == Session("", "", false)
  {
  }

  /** A session that never says `quit` ends by an exception, at the latest when the input runs out. */
  lemma {:induction false} NoQuitCrashes(lines: seq<string>, s: GoState, rules: Rules, policy: Mcts.Policy)
    requires forall k :: 0 <= k < |lines| ==> Text.Strip(lines[k]) != "quit"
    ensures Transcript(lines, s, rules, policy).crashed
    decreases |lines|
  {
    if lines != [] {
      var rest := lines[1..];
      forall k | 0 <= k < |rest|
        ensures Text.Strip(rest[k]) != "quit"
      {
        assert rest[k] == lines[k + 1];
      }
      var h := Line(lines[0], s, rules, policy);
      if !h.stop {
        NoQuitCrashes(rest, h.next, rules, policy);
      }
    }
  }

  /** The transcript from line i on, one line unfolded. */
  lemma TranscriptAt(lines: seq<string>, i: nat, s: GoState, rules: Rules, policy: Mcts.Policy)
    requires i < |lines|
    ensures var h := Line(lines[i], s, rules, policy);
      Transcript(lines[i..], s, rules, policy)
      == if h.stop then Session(h.out, h.err, h.crashed)
         else Prepend(h.out, h.err, Transcript(lines[i + 1..], h.next, rules, policy))
  {
    assert lines[i..][0] == lines[i] && lines[i..][1..] == lines[i + 1..];
  }

  /** What remains of a session: nothing more once it has stopped, the transcript of the rest otherwise. */
  function Rest(stopped: bool, crashed: bool, lines: seq<string>, i: nat, s: GoState, rules: Rules, policy: Mcts.Policy): Session
    requires i <= |lines|
  {
    if stopped then Session("", "", crashed) else Transcript(lines[i..], s, rules, policy)
  }

  /** One handled line moves from the remaining transcript to what was printed. */
  lemma Advance(whole: Session, pre: string, preErr: string, lines: seq<string>, i: nat, s: GoState,
                h: Step, rules: Rules, policy: Mcts.Policy)
    requires i < |lines|
    requires whole == Prepend(pre, preErr, Transcript(lines[i..], s, rules, policy))
    requires Line(lines[i], s, rules, policy) == h
    ensures whole == Prepend(pre + h.out, preErr + h.err, Rest(h.stop, h.crashed, lines, i + 1, h.next, rules, policy))
  {
    TranscriptAt(lines, i, s, rules, policy);
    PrependTwice(pre, preErr, h.out, h.err, Rest(h.stop, h.crashed, lines, i + 1, h.next, rules, policy));
  }

  /** Nothing remains of a session that has stopped. */
  lemma Finished(whole: Session, out: string, err: string, crashed: bool)
    requires whole == Prepend(out, err, Session("", "", crashed))
    ensures whole == Session(out, err, crashed)
  {
    assert out + "" == out && err + "" == err;
  }

  /**
   * One command that works on the board in place: `play`, `showboard` or
   * `genmove`, or one with a fixed answer. With the policy move generator it
   * prints and leaves what `Effect` says; the MCTS move generator may raise.
   */
  method Execute(go: Go, reply: Reply, useMcts: bool, policy: Mcts.Policy,
                 sampler: Mcts.Draws, value: Mcts.Valuation, explore: Mcts.Explore)
    returns (said: string, saidErr: string, raised: bool)
    requires !reply.Quit? && !reply.Crash? && !reply.Clear?
    modifies go
    ensures !useMcts ==> !raised && Engine.Generated(said, saidErr, go.State()) == Effect(reply, old(go.State()), go.rules, policy)
  {
    raised := false;
    saidErr := "";
    match reply {
      case Answer(body) =>
        said := body + "\n";
      case Play(color, a) =>
        var ok := go.Move(color, a);
        said := if ok then "ok\n\n" else "Illegal move\n\n";
      case Show =>
        var text := ShowBoard(go.board);
        said := text + "\n";
      case GenMove(color) =>
        if useMcts {
          var moveOut, moveErr, outcome;
          ghost var arena, pick, found;
          moveOut, moveErr, outcome, arena, pick, found := Engine.GenMoveMCTS(go, color, policy, sampler, value, explore);
          if outcome.Raised? {
            said, saidErr, raised := moveOut, moveErr, true;
          } else {
            said, saidErr := moveOut + "\n", moveErr;
          }
        } else {
          var moveOut, moveErr := Engine.GenMovePolicy(go, color, policy);
          said, saidErr := moveOut + "\n", moveErr;
        }
    }
  }

  /**
   * One parsed line of `main`'s loop: answer it on the board in place, or on
   * a new board for `clear_board`. With the policy move generator it prints,
   * leaves and stops as `Outcome` says; the MCTS move generator may raise.
   */
  method Handle(go: Go, reply: Reply, useMcts: bool, policy: Mcts.Policy,
                sampler: Mcts.Draws, value: Mcts.Valuation, explore: Mcts.Explore)
    returns (next: Go, said: string, saidErr: string, stop: bool, crashed: bool)
    modifies go
    ensures (next == go || fresh(next)) && next.rules == go.rules
    ensures !useMcts ==> Outcome(reply, old(go.State()), go.rules, policy) == Step(said, saidErr, next.State(), stop, crashed)
  {
    next, said, saidErr, stop, crashed := go, "", "", false, false;
    if reply.Quit? {
      stop := true;
    } else if reply.Crash? {
      said, stop, crashed := "= ", true, true;
    } else if reply.Clear? {
      next := new Go(go.rules);
      said := "= clear_board\n\n";
    } else {
      var body, raised;
      body, saidErr, raised := Execute(go, reply, useMcts, policy, sampler, value, explore);
      said := "= " + body;
      stop, crashed := raised, raised;
    }
  }

  /**
   * `main`: "GTP ready" on standard error, then one command per line until
   * `quit`, an exception, or the end of the input. With the policy move
   * generator the whole output is the transcript above.
   */
  method Serve(lines: seq<string>, useMcts: bool, rules: Rules, policy: Mcts.Policy,
               sampler: Mcts.Draws, value: Mcts.Valuation, explore: Mcts.Explore)
    returns (out: string, err: string, crashed: bool)
    ensures !useMcts ==> Session(out, err, crashed) == Prepend("", "GTP ready\n", Transcript(lines, EmptyState(), rules, policy))
  {
    var go := new Go(rules);
    out := "";
    err := "GTP ready\n";
    crashed := false;
    ghost var whole := Prepend("", "GTP ready\n", Transcript(lines, EmptyState(), rules, policy));
    var i := 0;
    var stop := false;
    while !stop && i < |lines|
      invariant 0 <= i <= |lines| && fresh(go) && go.rules == rules
      invariant !useMcts ==> whole == Prepend(out, err, Rest(stop, crashed, lines, i, go.State(), rules, policy))
      decreases |lines| - i
    {
      ghost var s := go.State();
      ghost var pre, preErr := out, err;
      var said, saidErr;
      var reply := Respond(Text.Strip(lines[i]), useMcts);
      go, said, saidErr, stop, crashed := Handle(go, reply, useMcts, policy, sampler, value, explore);
      if !useMcts {
        Advance(whole, pre, preErr, lines, i, s, Step(said, saidErr, go.State(), stop, crashed), rules, policy);
      }
      out := out + said;
      err := err + saidErr;
      i := i + 1;
    }
    // Running out of input raises in `input()`.
    crashed := stop ==> crashed;
    if !useMcts {
      Finished(whole, out, err, crashed);
    }
  }
}
