# wuwei: search, move generation, GTP front end and self-play environment

This project models the playing core of wuwei, a 19×19 Go program, and proves
properties of that model:

- **Tree search** (`mcts.dfy`, module `Mcts`). The tree lives in an arena of
  `Node`s owned by `SearchTree`. Each step of one `MCTS` iteration is a method
  proved equal to a function on the arena:
  - selection (`TreePolicy`, equal to `Descend`);
  - expansion of at most five children (`SearchChildren`, equal to `Grow`, which
    attaches the children `Expansion` lists);
  - a five-ply rollout (`DefaultPolicy`, equal to `Simulate`, the value of
    `Rollout`);
  - backpropagation along the parent chain (`Backward`, equal to `BumpPath`).

  One iteration (`Round`) turns the arena into `RoundNodes` of it. The whole
  loop (`Search`) turns the arena into `Rounds`, the k-fold composition of
  `RoundNodes`, and returns the most visited child of the root
  (`GetMostVisitedChild`). The lemmas about `Rounds` give what the search
  keeps.
- **Move generation** (`engine.dfy`, module `Engine`):
  - the color and column tables and vertex formatting;
  - the stone-count value;
  - `genMovePolicy`, specified by `PolicyReply`;
  - `genMoveMCTS` with its three fallbacks to the policy move.
- **GTP front end** (`gtp.dfy`, module `Gtp`):
  - command dispatch (`Respond`) and `showboard` rendering;
  - the whole session loop (`Serve`). With the policy move generator, its output
    is proved equal to the pure transcript `Transcript`.
- **Self-play environment** (`self_play_env.dfy`, module `SelfPlay`):
  - the ring-buffer `ReplayBuffer`, whose lists are proved to be the slots of
    every push ever made;
  - the legal-point scan `_get_valid_moves`, specified by `ValidMoves`;
  - `get_policy_action`, `step` and its game-over test.
- **Supporting modules:**
  - `go_rules.dfy`: the interface of the hidden rules engine and the
    point/index codec;
  - `ranking.dfy`: `reversed(torch.argsort(...))`;
  - `text.dfy`: the Python string operations GTP parsing uses.

The rules engine itself (`src/core/game.py`) is not part of this model. It
appears as an oracle `Rules = (GoState, color, Action) -> Option<GoState>`.
`Go.Move` applies the oracle and leaves the position unchanged when the oracle
rejects the move. Where a lemma needs it, `Lawful(rules)` states that an
accepted move appends exactly that move to the history.

The neural networks appear as function parameters:
- the policy evaluator `Policy`, which returns 362 real scores;
- the value evaluator `Valuation`;
- the sampling of the playout network, `Sampler`.

The floating-point branch of UCB is the `Explore` parameter.

Behaviour of the code worth noting:

- A single pass as the very first move ends the game in `step`. `go.history[-2:]`
  then holds one pass, and `all()` of it is true. See `SelfPlay.PassAfterPassEnds`.
- In the rollout, a sampled pass ends only the current ply, not the rollout. The
  color to move flips after every ply, whether or not a stone was placed
  (`Mcts.Rollout`).
- A searched move that the rules reject is not an error: `genMoveMCTS` restores
  the board and falls back to the policy move.

## Model

| member | source | states |
|---|---|---|
| GoRules.ToPosition | tests/test_game.py:59-72 | index 361 and only 361 is the pass; every other index is an on-board point whose row-major index is the input |
| GoRules.DigitRoundTrip | tests/test_game.py:59-72 | every board point's index is below 361 and decodes back to that point |
| GoRules.Go.Move | src/interface/gtp.py:49-52 | the move succeeds exactly when the rules accept it; then the position is the rules' result, otherwise it is unchanged |
| GoRules.Go.Clone | self_play/self_play_env.py:61 | a fresh object with the same position and rules as the original |
| Text.StripTrims | src/interface/gtp.py:17 | `strip()` leaves no white space at either end |
| Text.StripIdempotent | src/interface/gtp.py:17 | stripping twice is stripping once |
| Text.Split | src/interface/gtp.py:32 | every token of `split()` is non-empty and contains no white space |
| Text.SplitThree | src/interface/gtp.py:32 | three single-spaced words split back into exactly those words |
| Text.NatToString | src/ai/engine.py:49 | decimal formatting is a non-empty run of digits with no leading zero |
| Text.IntToStringToken | src/ai/engine.py:47-49 | a formatted integer is one non-empty, space-free token |
| Text.ParseIntRoundTrip | src/interface/gtp.py:44 | `int()` of a formatted integer gives the integer back |
| Ranking.Rank | src/ai/engine.py:86 | the candidate order has one valid index per score |
| Ranking.RankIsRanking | src/ai/engine.py:86 | the candidate order is a permutation of all indices with scores never increasing along it |
| Ranking.RankContains | src/ai/mcts.py:66 | every action index is tried at some point |
| Ranking.RankedBefore | src/ai/mcts.py:66 | an index scored strictly higher than the k-th candidate is tried before it |
| Engine.ColorCharToIndex | src/ai/engine.py:29 | defined exactly on B, b, W, w; the value is 1 or -1 |
| Engine.IndexToColorChar | src/ai/engine.py:30 | defined exactly on 1 and -1 |
| Engine.ColorRoundTrip | src/ai/engine.py:29-30 | the two color tables are inverse to each other, letters of either case mapping to the upper-case letter |
| Engine.ColumnLetter | src/ai/engine.py:31-40 | column letters lie in A..T, skip I and increase strictly with the column |
| Engine.ColumnIndex | src/ai/engine.py:31-40 | a letter maps to the column whose letter it is, and to none when no column has it |
| Engine.ColumnRoundTrip | src/ai/engine.py:31-40 | every column survives the trip through its letter |
| Engine.BuildColumnTables | src/ai/engine.py:31-40 | the loop builds 19 letters equal to `ColumnLetter` and a map defined exactly on the column letters, inverse to them |
| Engine.ToStrPosition | src/ai/engine.py:43-49 | a pass is the empty string; an on-board point is its vertex; list indexing from the end accepts columns -19..-1, and any other column raises |
| Engine.ValueAntisymmetric | src/ai/engine.py:76-80 | the value for one color is the negation of the value for the other |
| Engine.ValueOfEmpty | src/ai/engine.py:76-80 | an empty board is worth 0 to every color |
| Engine.ValueBound | src/ai/engine.py:76-80 | a position's value lies between -361 and 361 |
| Engine.PlaceStoneValue | src/ai/engine.py:76-80 | a stone put on an empty point raises its color's value by exactly one |
| Engine.PolicyStop | src/ai/engine.py:92-104 | the scan stops at the first pass or accepted point, and every candidate before it is a point the rules reject |
| Engine.StopsBeforeEnd | src/ai/engine.py:92-96 | the scan always stops inside the candidate order, because the pass index is a candidate |
| Engine.PolicyReplyIsBest | src/ai/engine.py:83-104 | the chosen index is the best-scored acceptable one: every strictly better index is a point the rules reject; a pass prints `pass` and keeps the position, a point is played and its vertex printed |
| Engine.PolicyChoiceIsBest | src/ai/engine.py:83-104 | every index scored strictly higher than the chosen one is a board point the rules reject |
| Engine.PolicyReplyOfChoice | src/ai/engine.py:83-104 | a chosen pass prints `pass` and keeps the position; a chosen point is the rules' result and its vertex is printed |
| Engine.GenMovePolicy | src/ai/engine.py:83-104 | output, error stream and new position are exactly `PolicyReply`: the value line, one `Illegal move` line per rejected point, then the move |
| Engine.RootArena | src/ai/engine.py:109 | the fresh root is a well-formed one-node arena: the given position and color, no parent |
| Engine.SearchedRoot | src/ai/engine.py:109-111 | in the arena that 200 rounds build from a fresh root, the root stays at index 0 over the position, is visited exactly 200 times, the pick is one of its children, and under a lawful rules engine every child is a legal successor of its parent |
| Engine.SearchedMove | src/ai/engine.py:125-139 | with a lawful rules engine the searched position is exactly one board move past the current one, and that move, its last history entry, is accepted by the rules with the searched position as result |
| Engine.SearchBest | src/ai/engine.py:109-111 | the arena after the call is `Rounds` of the fresh root's arena over 200 iterations, the i-th drawing with `RoundSampler(sampler, i)`; the pick is the most visited child of that arena's root and the result its position, or None when no child was visited; the root's board is left as it was |
| Engine.GenMoveMCTS | src/ai/engine.py:107-151 | the searched position is the one `SearchBest` defines: the most visited child of the root after 200 rounds from the current position; with no such child, or one whose history is not longer, the policy move is generated; otherwise the last entry of its history is tried: it is played exactly when the rules accept it and it can be printed, an unprintable column raises, and a rejected move falls back; a played move's vertex is printed and the position is the rules' result, and on every fallback output and position are the policy move's with its error stream at the end; with a lawful rules engine the move is played exactly when the search found a child, so the rejected-move fallback cannot happen |
| Engine.PlaySearched | src/ai/engine.py:113-151 | given the searched position: with none, or one whose history is not longer, the policy move is generated; otherwise its last history entry is played exactly when the rules accept it and it can be printed, an unprintable column raises, a rejected move restores the board and falls back; with a lawful rules engine and a searched position one accepted move ahead, the move is played |
| Mcts.Ucb | src/ai/mcts.py:19-24 | UCB is +infinity exactly for unvisited nodes, never -infinity, and 0 for a visited node without a parent or with an unvisited parent |
| Mcts.ArgBestIsFirstBest | src/ai/mcts.py:37-46 | the pick has strictly greater UCB than every earlier child and no later child's UCB is strictly greater |
| Mcts.GetBestChild | src/ai/mcts.py:37-46 | None exactly when there are no children, otherwise the child `ArgBest` picks |
| Mcts.GetMostVisitedChild | src/ai/mcts.py:49-57 | the first child whose N is positive and beats all earlier ones and is not beaten later; None when every child is unvisited |
| Mcts.FirstUnvisited | src/ai/mcts.py:96-98 | the position of the first child with N = 0, or None when all children were visited |
| Mcts.Descend | src/ai/mcts.py:85-102 | the selected node is an arena index no smaller than the start |
| Mcts.DescendInSubtree | src/ai/mcts.py:85-102 | the selected node lies in the start node's subtree |
| Mcts.DescendOutcome | src/ai/mcts.py:85-102 | the start node is selected only if it is a leaf, and a selected node with children is unvisited |
| Mcts.TreePolicy | src/ai/mcts.py:85-102 | the loop selects the node `Descend` defines |
| Mcts.ExpandFromIsExpand | src/ai/mcts.py:72-82 | the loop form of the expansion equals the recursive one |
| Mcts.ExpansionFrom | src/ai/mcts.py:68-82 | run over the node's whole policy ranking from an empty start, the candidate loop yields `Expansion` |
| Mcts.ExpandIsFirstLegal | src/ai/mcts.py:72-82 | the expansion is the first `room` legal candidates in candidate order |
| Mcts.LegalMembers | src/ai/mcts.py:72-82 | a listed child is exactly a non-pass candidate the rules accept, with the rules' resulting position |
| Mcts.ExpandBound | src/ai/mcts.py:72-82 | at most `room` children, each an on-board point with the position the rules give |
| Mcts.ExpansionBound | src/ai/mcts.py:81-82 | one expansion creates at most five children |
| Mcts.PlyExtends | src/ai/mcts.py:119-131 | a ply adds at most one move, never a pass, to the history |
| Mcts.RolloutExtends | src/ai/mcts.py:119-133 | a rollout extends the history by at most one board move per remaining ply |
| Mcts.Ply | src/ai/mcts.py:120-131 | the sampling loop of one ply ends in the position `PlyResult` defines |
| Mcts.DefaultPolicy | src/ai/mcts.py:114-140 | the value is the value evaluator's judgement, for the root's color, of the position `Rollout` reaches |
| Mcts.GrownWellFormed | src/ai/mcts.py:16-17 | attaching fresh leaves under an existing node keeps parent and child links consistent |
| Mcts.GrownLegit | src/ai/mcts.py:72-82 | children made from moves the rules accepted from the node's position, with the other color, keep every child a legal successor of its parent |
| Mcts.BumpLegit | src/ai/mcts.py:105-111 | backpropagation changes no position, color or parent, so legal successors stay legal successors |
| Mcts.RoundLegit | src/ai/mcts.py:146-152 | expanding the selected node and backpropagating keeps every child a legal successor of its parent |
| Mcts.LegitChild | src/ai/mcts.py:16-17 | in such a tree, each child listed under a node is a legal successor of that node |
| Mcts.SearchTree.AddNode | src/ai/mcts.py:8-17 | a new unvisited leaf is appended and, with a parent, added to the end of the parent's children; the links stay consistent |
| Mcts.SearchTree.Backward | src/ai/mcts.py:105-111 | exactly the node and its ancestors get N + 1, Q + value and the expanded flag; all other nodes are unchanged; the new arena is `BumpPath` of the old |
| Mcts.SearchTree.SearchChildren | src/ai/mcts.py:60-82 | the node gains exactly the children of `Expansion` as fresh unvisited leaves of the other color; nothing else changes; the new arena is `Grow` of the old |
| Mcts.SearchTree.AttachChildren | src/ai/mcts.py:68-82 | the candidate loop makes each accepted candidate a fresh child of the node until five exist; the children added are exactly `ExpandFrom` of the whole ranking |
| Mcts.SearchTree.Round | src/ai/mcts.py:146-152 | one iteration leaves the arena equal to `RoundNodes` of the old one: the node `Descend` selects is expanded by `Grow`, and the path from it is bumped by `BumpPath` with the value `Simulate` gives |
| Mcts.RoundEffect | src/ai/mcts.py:146-152 | the composition of selection, expansion and backpropagation keeps what `Kept` lists for one round, and keeps every child a legal successor of its parent under a lawful rules engine |
| Mcts.RoundAt | src/ai/mcts.py:146-152 | growing the tree at the selected node and bumping its path keeps what `Kept` lists for one round |
| Mcts.RoundRoot | src/ai/mcts.py:146-152 | the root's N rises by one; its children change only when it was the expanded leaf, and then to at most five |
| Mcts.RoundSettled | src/ai/mcts.py:146-152 | every unvisited node stays a leaf |
| Mcts.RoundBranching | src/ai/mcts.py:81-82 | no node ever gets more than five children |
| Mcts.SearchTree.Search | src/ai/mcts.py:143-156 | the arena after the loop is `Rounds` of the old one over `iterations` rounds, the i-th drawing with `RoundSampler(sampler, i)`; hence the root's N grows by exactly the iteration count, a childless root gains at most five children and nodes keep position, color and parent; the result is the most visited child of the root; with a lawful rules engine every node the search adds holds the rules' result of an accepted board move from its parent's position, with the other color to move, and so does the returned child |
| Mcts.GraftGrown | src/ai/mcts.py:8-17 | attaching the made children as fresh leaves under e is an expansion: the node gets their indices appended, they are unvisited leaves of the given color with parent e, nothing else changes |
| Mcts.GrownUnique | src/ai/mcts.py:8-17 | an expansion of a given node by given children determines the arena completely |
| Mcts.Grow | src/ai/mcts.py:60-82 | expanding a well-formed arena keeps it well formed and adds exactly one node per child `Expansion` lists |
| Mcts.GrowIs | src/ai/mcts.py:60-82 | any arena that expands node e by `Expansion` is `Grow` |
| Mcts.BumpPath | src/ai/mcts.py:105-111 | backpropagation keeps the arena well formed and its size unchanged |
| Mcts.BumpPathAlong | src/ai/mcts.py:105-111 | `BumpPath` bumps exactly the node and its ancestors and leaves every other node as it was |
| Mcts.BumpUnique | src/ai/mcts.py:105-111 | any arena that bumps exactly the path from e is `BumpPath` |
| Mcts.RoundNodes | src/ai/mcts.py:146-152 | one iteration keeps the arena well formed and only adds nodes |
| Mcts.Rounds | src/ai/mcts.py:143-152 | any number of iterations keep the arena well formed and only add nodes |
| Mcts.RoundsStep | src/ai/mcts.py:146-152 | i + 1 iterations are i iterations followed by one more that draws with `RoundSampler(sampler, i)` |
| Mcts.RoundNodesEffect | src/ai/mcts.py:146-152 | one iteration keeps what `Kept` lists for one round, and keeps every child a legal successor of its parent under a lawful rules engine |
| Mcts.KeptStep | src/ai/mcts.py:146 | what k rounds keep and what one more round keeps compose to what k + 1 rounds keep |
| Mcts.RoundsKeepStep | src/ai/mcts.py:146-152 | what `Kept` says of i iterations extends to i + 1 |
| Mcts.RoundsKeep | src/ai/mcts.py:143-152 | k iterations visit the root exactly k times more, fix its children once it has any, give a childless root at most five, keep every unvisited node a leaf when that held before, and then also every node at five children or fewer, and keep each existing node's position, color and parent |
| Mcts.RoundsLegitStep | src/ai/mcts.py:146-152 | under a lawful rules engine, one more iteration keeps every child a legal successor of its parent |
| Mcts.RoundsLegit | src/ai/mcts.py:143-152 | under a lawful rules engine, any number of iterations keep every child a legal successor of its parent |
| Gtp.ParsePlay | src/interface/gtp.py:30-52 | a `play` line is a placement, the PASS answer or a raise |
| Gtp.ParseGenMove | src/interface/gtp.py:53-55 | a `genmove` line is a request for a color or a raise |
| Gtp.Respond | src/interface/gtp.py:17-96 | the session stops exactly on the line `quit` |
| Gtp.RespondPlay | src/interface/gtp.py:30 | every line starting with `play` reaches the play parser |
| Gtp.RespondGenMove | src/interface/gtp.py:53 | every line starting with `genmove` reaches the genmove parser |
| Gtp.VertexParses | src/interface/gtp.py:36-45 | a printed vertex is one token whose letter and number parse back to the column and the row |
| Gtp.PlayRoundTrip | src/interface/gtp.py:30-52 | a vertex printed by the engine, sent back in `play`, names the same point, for either color letter in either case |
| Gtp.PlayPass | src/interface/gtp.py:33-34 | `play <word> pass` answers `play PASS` whatever the word |
| Gtp.PlayWrongArity | src/interface/gtp.py:32 | a `play` line without exactly two arguments raises |
| Gtp.GenMoveCommand | src/interface/gtp.py:53-59 | `genmove <color>` asks the move generator for that color |
| Gtp.RenderRow | src/interface/gtp.py:63-69 | each cell is drawn as X for black, O for white and a dot otherwise |
| Gtp.RenderLines | src/interface/gtp.py:61-70 | the drawing has one line per row, line i showing row i cell by cell |
| Gtp.ShowBoard | src/interface/gtp.py:61-70 | the nested loop prints the drawing `Render` defines |
| Gtp.QuitFirst | src/interface/gtp.py:17-19 | a session that starts with `quit` prints nothing and ends normally |
| Gtp.NoQuitCrashes | src/interface/gtp.py:15-19 | a session without `quit` ends by an exception, at the latest when input runs out |
| Gtp.Advance | src/interface/gtp.py:15-98 | handling one line moves what it prints from the remaining transcript to the printed output |
| Gtp.Execute | src/interface/gtp.py:30-70 | with the policy generator, `play`, `showboard`, `genmove` and fixed answers print and move as `Effect` says |
| Gtp.Handle | src/interface/gtp.py:17-98 | with the policy generator, one parsed line prints, stops and leaves the board as `Outcome` says; `clear_board` gives a fresh board |
| Gtp.Serve | src/interface/gtp.py:8-98 | with the policy generator, everything printed is "GTP ready" on the error stream followed by `Transcript` of the input lines |
| SelfPlay.Slots | self_play/self_play_env.py:15-24 | the buffer holds all pushes while there are fewer than `capacity`, then exactly `capacity` |
| SelfPlay.ReplayIsSlots | self_play/self_play_env.py:15-24 | replaying `push` gives the slot contents, with the next position equal to the number of pushes modulo the capacity |
| SelfPlay.SlotsRecent | self_play/self_play_env.py:15-24 | each of the last `capacity` pushes sits in the slot its count modulo the capacity names |
| SelfPlay.TracksAppend | self_play/self_play_env.py:16-19 | appending below capacity keeps the lists equal to the replay of all pushes |
| SelfPlay.TracksOverwrite | self_play/self_play_env.py:20-24 | overwriting slot `position` when full keeps the lists equal to the replay of all pushes |
| SelfPlay.ReplayBuffer.constructor | self_play/self_play_env.py:8-13 | an empty buffer with the given capacity and position 0 |
| SelfPlay.ReplayBuffer.Push | self_play/self_play_env.py:15-24 | append below capacity, otherwise overwrite slot `position` of all three lists; the position advances modulo the capacity; a capacity of 0 or less raises and changes nothing |
| SelfPlay.ReplayBuffer.Len | self_play/self_play_env.py:33-34 | the three lists have the same length, the number of pushes capped at the capacity |
| SelfPlay.ScanFromIsValidFrom | self_play/self_play_env.py:56-64 | the scan appends exactly the legal points from index k on |
| SelfPlay.ScanStep | self_play/self_play_env.py:59-63 | a point is kept exactly when the move there succeeds |
| SelfPlay.ValidFromExact | self_play/self_play_env.py:56-64 | the listed points are exactly the legal points from index k on, in increasing index order |
| SelfPlay.ValidMovesExact | self_play/self_play_env.py:56-64 | `_get_valid_moves` lists each legal point once and only legal points, in row-major order |
| SelfPlay.FirstHighest | self_play/self_play_env.py:96-104 | the kept point scores at least every point and strictly more than every earlier point; None only for no points |
| SelfPlay.FirstBest | self_play/self_play_env.py:96-104 | the kept point scores at least every legal point and strictly more than every legal point of smaller index |
| SelfPlay.PassOnly | self_play/self_play_env.py:107-110 | all weight on the pass index, none elsewhere |
| SelfPlay.LastTwo | self_play/self_play_env.py:166 | the last two history entries, or the whole history when shorter |
| SelfPlay.PassAfterPassEnds | self_play/self_play_env.py:165-167 | a pass after a pass, or as the first move, ends the game |
| SelfPlay.PlaceEndsOnlyWhenStuck | self_play/self_play_env.py:165-172 | after a placed stone the game ends exactly when the mover has no legal point left |
| SelfPlay.SelfPlayEnv.constructor | self_play/self_play_env.py:37-45 | an empty board, black to move, no history and an empty buffer of capacity 10000 |
| SelfPlay.SelfPlayEnv.Reset | self_play/self_play_env.py:47-50 | a fresh empty board, black to move, no history |
| SelfPlay.SelfPlayEnv.TryPoint | self_play/self_play_env.py:61-63 | the point is legal exactly when the move on a clone succeeds |
| SelfPlay.SelfPlayEnv.ScanRow | self_play/self_play_env.py:58-63 | one row of the scan advances `ScanFrom` by that row's legal points |
| SelfPlay.SelfPlayEnv.GetValidMoves | self_play/self_play_env.py:56-64 | the nested loop returns exactly `ValidMoves` of the current position for the color to move |
| SelfPlay.SelfPlayEnv.GetPolicyAction | self_play/self_play_env.py:88-112 | a legal point the policy scores highest, the first such in row-major order, with the network's scores; with no legal point, a pass with all weight on the pass index |
| SelfPlay.SelfPlayEnv.Step | self_play/self_play_env.py:152-182 | a rejected move changes nothing; otherwise the position is the rules' result, the move is recorded with its color, game over is `GameOver` for the mover, and the color flips |

Functions that only compute a value are covered by the rows of the lemmas that state their properties:
- `Engine.ValueResult` (`getValueResult`, src/ai/engine.py:76-80) by `Engine.ValueAntisymmetric`, `Engine.ValueOfEmpty`, `Engine.ValueBound` and `Engine.PlaceStoneValue`;
- `Text.Strip` (`str.strip`) by `Text.StripTrims` and `Text.StripIdempotent`;
- `Text.IntToString` (`str()`) and `Text.ParseInt` (`int()`) by `Text.IntToStringToken` and `Text.ParseIntRoundTrip`;
- `Mcts.Simulate` (`defaultPolicy` as a value) by `Mcts.DefaultPolicy`, whose result it is;
- `SelfPlay.GameOver` (the `game_over` test, self_play/self_play_env.py:165-172) by `SelfPlay.PassAfterPassEnds` and `SelfPlay.PlaceEndsOnlyWhenStuck`.

## Left out

- The rules engine (`src/core/game.py`: legality, captures, liberties) is not part of this model. It is the `Rules` oracle. `Go.Move` assumes that a rejected move leaves the position unchanged. Lemmas that need it assume `Lawful`: an accepted move appends exactly that move to the history.
- `GoRules.ToPosition` and `GoRules.ToDigit`: the row-major codec is assumed. `toPosition` and `toDigit` live in `src/core/game.py`, which is not part of this model; the tests show only that 0 is the point (0, 0), 0 encodes as 0 and 361 is the pass. The policy mapping and the order of the valid-move scan depend on this layout.
- `src/core/game.py` defines the column and color tables that `gtp.py` imports. They are not part of this model, and are taken to be the ones `engine.py` builds.
- The neural networks, feature extraction (`getAllFeatures`, `_get_state`), tensors, devices and model loading are function parameters or left out. `np.random.choice` is the `Sampler`, and random seeding is left out.
- Floating point: `Explore` stands in for the UCB formula `Q/N + sqrt(2 ln(parent N)/N)`. Scores and values are reals, with no NaN or rounding.
- The tie order of `torch.argsort` is unspecified. `Ranking.Rank` puts the lower index first among equal scores.
- The standard-error listing of the root's children in `genMoveMCTS` (their `__str__`) is not modelled. Only the header line is written. The `debug` printing in `genMoveMCTS`, `defaultPolicy` and `MCTS` is left out, as is the `__main__` test code of `engine.py` and `gtp.py`.
- `gtp.py` imports a class `Engine` that `engine.py` does not define, so it would not start as written. The model calls the two move generators directly, the way `ai.gen_move_policy` and `ai.gen_move_mcts` are meant.
- `Text.ParseInt`: `int()` is modelled for an optional sign and the ASCII decimal digits; the other Unicode decimal digits `int()` accepts (Arabic-Indic digits, for instance) are left out. Surrounding white space and underscores are left out, since the token comes from `split()` and the GTP vertices the engine prints do not use them.
- `Gtp.Serve`: with the MCTS move generator, only the loop's structure is stated, not the transcript, because the search result is not a closed-form function here.
- `Gtp.Handle` and `Gtp.Execute`: the same restriction to the policy move generator.
- `Engine.GenMoveMCTS`: the error stream of a fallback is stated by its ending only, since the child listing before it is not modelled.
- `Mcts.SearchTree.Search`, `Mcts.RoundsLegit` and `Engine.SearchedRoot`: that children are legal successors is stated only for a lawful rules engine, because that a child's last history entry is the move that produced it is a property of the hidden engine.
- `MCTS`'s `if expandNode is None: break` and `treePolicy`'s `getBestChild(...) is None` branch cannot be taken; the model proves the latter dead (`assert false`).
- `get_action_probs`, `_calculate_reward`, `save_game_history` (file I/O) and `ReplayBuffer.sample` (random batches of tensors) are left out. They feed training, which is not part of this model.
- `ReplayBuffer` entries are stored as generic values. The environment's buffer is instantiated with positions, score vectors and reals rather than tensors.
- The method splits (`Mcts.Ply`, `Mcts.SearchTree.AttachChildren`, `Engine.SearchBest`, `Gtp.Execute`, `Gtp.Handle`, `SelfPlay.SelfPlayEnv.TryPoint`, `SelfPlay.SelfPlayEnv.ScanRow`, `SelfPlay.FirstHighest`) are parts of one source function, given their own contracts. They do not add behaviour.
