# AlphaZero search-tree node and five-in-a-row verdict, in Dafny

This project models two pieces of an AlphaZero-style gomoku (five in a row
on a 15×15 board) engine.

**The Monte Carlo tree node** (`mcts.dfy`, module `Mcts`). Each node holds:

- a prior probability `P`;
- the exploration constant `c_puct`;
- a running-mean action value `Q`;
- an exploration term `U`;
- a visit count `N`;
- a `score = U + Q`;
- a dictionary from action to child.

Its operations are `select`, `expand`, `__update`, `backup` and `is_leaf_node`.

Nodes live in an arena (`Arena = seq<Node>`). A parent link is an index into
that arena. A node's children are an insertion-ordered list of (action, index)
entries with distinct actions. This mirrors a Python `dict`: assigning an
existing key replaces its entry in place, and a new key is appended. The class
`Tree` owns the arena and updates it in place. Its methods `NewRoot`, `Expand`,
`Update` and `Backup` are proved against the pure functions `Expanded`,
`Updated` and `BackedUp`. Lemmas about those functions state what the source
promises:

- select picks the first child of greatest score;
- expand creates one fresh child per pair, and a repeated action keeps its last prior;
- `Q` is the mean of the values received;
- backup leaves roots alone and touches only the path to the root;
- backup alternates the sign along that path and adds one visit to each non-root node on it;
- the statistics invariants (`score == U + Q`, untouched roots) are preserved.

**The full-board game-over verdict** (`game_over.dfy`, module `GameOver`), as
`tests/test_game_over.py` pins it. The verdict is true exactly when some
on-board cell starts a run of at least five same-coloured, non-empty cells in
one of four directions: horizontal, vertical, main diagonal or anti-diagonal.
`Board` builds the test boards from coordinate lists. `Simulate` is the test's
helper: it fills fresh 15×15 arrays with black stones and judges each one. The
four fixture lemmas prove that the verdicts equal the tests' labels.

## Model

| member | source | states |
|---|---|---|
| Mcts.Tree.NewRoot | alphazero/node.py:9-29 | a new parentless node has N = Q = U = score = 0, the given prior and c_puct, no children, and the arena invariants still hold |
| Mcts.Fresh | alphazero/node.py:22-29 | definition of a new node: the given prior, c_puct and parent, zero statistics and no children; its uses are stated by `Mcts.Tree.NewRoot`, `Mcts.AddRootKeeps` and `Mcts.ExpandedNodes` |
| Mcts.Tree.NewDefaultRoot | alphazero/node.py:9 | a root built without a `c_puct` argument gets the default 5, with the same facts as `Mcts.Tree.NewRoot` |
| Mcts.AddRootKeeps | alphazero/node.py:22-29 | appending a fresh root keeps the arena well formed and every node's statistics invariant |
| Mcts.IndexOf | alphazero/node.py:54 | the dictionary lookup returns the first position whose entry carries the action, or the length of the entry list when no entry does |
| Mcts.Assign | alphazero/node.py:54 | definition of `children[action] = child` on insertion-ordered entries; what it does is proved by `Mcts.AssignFacts` |
| Mcts.AssignFacts | alphazero/node.py:54 | `children[action] = child` keeps keys distinct, replaces an existing key's entry in its place, appends a new key at the end, and leaves every other entry as it was |
| Mcts.IsLeaf | alphazero/node.py:76-78 | definition: the child dictionary is empty; `Mcts.LeafHasNoChild` proves that this means no action maps to a child |
| Mcts.LeafHasNoChild | alphazero/node.py:76-78 | a node is a leaf exactly when no action maps to a child |
| Mcts.FirstMaxIndex | alphazero/node.py:42 | the returned index holds a maximum, and every earlier element is strictly smaller (the first maximum, as `max` keeps it) |
| Mcts.Select | alphazero/node.py:42 | on a leaf there is no result (where `max` raises); otherwise the result is a child entry whose score is at least every child's score and strictly above every earlier entry's score |
| Mcts.Expanded | alphazero/node.py:53-54 | expansion adds exactly one arena slot per (action, prior) pair |
| Mcts.ExpandedNodes | alphazero/node.py:53-54 | the k-th pair creates `Node(prior_k, c_puct, parent = i)` with zero statistics; every other node and the expanded node's statistics are unchanged |
| Mcts.ExpandedKeys | alphazero/node.py:53-54 | after expansion the keys stay distinct, earlier keys keep their positions, and an action is a key exactly when it was one before or some pair names it |
| Mcts.ExpandedKeeps | alphazero/node.py:53-54 | a child entry whose action no pair names is kept unchanged |
| Mcts.ExpandedDistinct | alphazero/node.py:53-54 | expansion keeps the dictionary's keys distinct |
| Mcts.ExpandedLatest | alphazero/node.py:53-54 | an action named by pairs maps to the child created for its last pair |
| Mcts.ExpandKeepsInvariants | alphazero/node.py:53-54 | expansion keeps the arena well formed and the statistics invariants |
| Mcts.ExpandLeaf | alphazero/node.py:53-54 | expanding a leaf makes the keys exactly the actions named, and the node stays a leaf exactly when the pair list was empty |
| Mcts.Tree.Expand | alphazero/node.py:44-54 | the loop over the pairs leaves the arena equal to `Expanded` of the old arena, with the invariants kept |
| Mcts.Updated | alphazero/node.py:64-67 | definition of one `__update` of a node's statistics; `Mcts.ReplayedIsMean` proves Q is the running mean and N the update count, `Mcts.UpdateKeepsValid` that it keeps the statistics invariants |
| Mcts.ReplayedIsMean | alphazero/node.py:64-65 | after updates with values v1..vt from a fresh node, N = t and Q is the arithmetic mean of the vs |
| Mcts.UpdateKeepsValid | alphazero/node.py:64-67 | one update of a node with a parent keeps the arena well formed and score = U + Q everywhere; a child of a root keeps U = 0 because the root's N is 0 |
| Mcts.Tree.Update | alphazero/node.py:56-67 | `__update` replaces only node i, by `Updated` with the value and the parent's current N, and keeps the tree's invariants |
| Mcts.Path | alphazero/node.py:71-73 | the chain of nodes `backup` visits starts at i, every later node was created before i, and it ends at a root |
| Mcts.PathLink | alphazero/node.py:71-73 | consecutive nodes of that chain are child and parent |
| Mcts.PathEndsAtRoot | alphazero/node.py:71 | the recursion stops at the first node without a parent, which is the chain's last |
| Mcts.SignedFlip | alphazero/node.py:72-73 | starting a backup from the negated value gives, k - 1 levels up, the value the original start gives k levels up, and each level negates the value of the level below |
| Mcts.BackedUp | alphazero/node.py:69-74 | backup keeps the arena's length and every node's shape (parent, children, prior, c_puct) |
| Mcts.BackupFromRoot | alphazero/node.py:71 | backup from a parentless node changes nothing |
| Mcts.BackupOffPath | alphazero/node.py:69-74 | nodes off the path to the root are unchanged |
| Mcts.BackupLeavesRootsAlone | alphazero/node.py:71-74 | no root is ever updated by backup |
| Mcts.BackupOnPath | alphazero/node.py:72-74 | the k-th node on the path, when it has a parent, receives `Updated` with the value negated k times and its parent's already-backed-up N |
| Mcts.BackupUpdatesStart | alphazero/node.py:73-74 | the starting node, when it has a parent, is updated with the value itself and the parent's visit count after the parent's own backup |
| Mcts.BackupCounts | alphazero/node.py:65 | backup adds exactly one visit to each non-root node on the path and none to the root |
| Mcts.BackupStep | alphazero/node.py:73-74 | proof helper: unfolds one step of `BackedUp` (the parent is backed up with the negated value, then the child is updated) for the loop in `Mcts.Tree.Backup` |
| Mcts.BackupKeepsStats | alphazero/node.py:66-67 | after backup, score = U + Q still holds everywhere, roots keep zero statistics, and children of roots keep U = 0 |
| Mcts.PathToRoot | alphazero/node.py:71-73 | the loop up the parent links returns exactly `Path` |
| Mcts.SignedValues | alphazero/node.py:72-73 | the loop that negates the value once per level returns, at level k, the value negated k times |
| Mcts.Tree.Backup | alphazero/node.py:69-74 | updating from the root's child down to i leaves the arena equal to `BackedUp`, with the invariants kept |
| GameOver.Run | tests/test_game_over.py:61 | definition: the number of consecutive cells of one non-empty colour from a cell along a direction; `GameOver.RunCells` states what it counts |
| GameOver.WinsAt | tests/test_game_over.py:61 | definition: a cell starts a run of at least five in one of the four directions |
| GameOver.FullBoardWin | tests/test_game_over.py:61 | definition of `is_game_over` on a whole board: some cell starts a run of five; `GameOver.FullBoardWinIsLineOfFive` proves it means five equal stones in a line |
| GameOver.RunCells | tests/test_game_over.py:61 | a run of at least n from a cell means that cell and the next n-1 cells in the direction all hold the same non-empty colour |
| GameOver.FullBoardWinIsLineOfFive | tests/test_game_over.py:61 | the verdict holds exactly when five equal non-empty cells lie in a line on the board |
| GameOver.PlacedIsSomePair | tests/test_game_over.py:59-60 | a cell is black exactly when some index carries its coordinates |
| GameOver.PlacedSnoc | tests/test_game_over.py:59-60 | placing one more stone marks exactly one more cell |
| GameOver.Board | tests/test_game_over.py:57-60 | definition of the board `__simulation` builds; its contract only spells out the comprehension (15×15, black on listed cells, empty elsewhere), and `GameOver.PlacedIsSomePair` and `GameOver.PlacedSnoc` state what a listed cell is |
| GameOver.WinWhenFivePlaced | tests/test_game_over.py:61 | five stones placed in a line on the board make the verdict true |
| GameOver.WinHasFivePlaced | tests/test_game_over.py:61 | a true verdict means some placed stone starts five placed stones in a line |
| GameOver.NoWinUnlessFivePlaced | tests/test_game_over.py:61 | if no placed stone starts five placed stones in a line, the verdict is false |
| GameOver.Verdicts | tests/test_game_over.py:61 | definition of the verdict list; its contract only spells out the comprehension, and `GameOver.Simulate` is proved equal to it |
| GameOver.Simulate | tests/test_game_over.py:55-62 | filling fresh 15×15 arrays with the black stones and judging each gives `Verdicts` |
| GameOver.HorizonBoard0 | tests/test_game_over.py:13-17 | stones at row 0, columns 10-14 win |
| GameOver.HorizonBoard1 | tests/test_game_over.py:13-17 | stones at row 14, columns 0-4 win |
| GameOver.HorizonBoard2 | tests/test_game_over.py:13-17 | stones at row 14, columns 0 and 2-5 do not win |
| GameOver.TestHorizon | tests/test_game_over.py:11-19 | the horizontal fixtures' verdicts are [true, true, false] |
| GameOver.VerticalBoard0 | tests/test_game_over.py:23-28 | stones at column 0, rows 0-4 win |
| GameOver.VerticalBoard1 | tests/test_game_over.py:23-28 | stones at column 0, rows 10-14 win |
| GameOver.VerticalBoard2 | tests/test_game_over.py:23-28 | stones at column 0, rows 9 and 11-14 do not win |
| GameOver.TestVertical | tests/test_game_over.py:21-29 | the vertical fixtures' verdicts are [true, true, false] |
| GameOver.MainDiagonalBoard0 | tests/test_game_over.py:33-40 | stones on the main diagonal from (0,0) win |
| GameOver.MainDiagonalBoard1 | tests/test_game_over.py:33-40 | stones on the diagonal from (6,0) win |
| GameOver.MainDiagonalBoard2 | tests/test_game_over.py:33-40 | four diagonal stones and one off the line do not win |
| GameOver.MainDiagonalBoard3 | tests/test_game_over.py:33-40 | four diagonal stones from (7,7) and one off the line do not win |
| GameOver.TestMainDiagonal | tests/test_game_over.py:31-41 | the main-diagonal fixtures' verdicts are [true, true, false, false] |
| GameOver.SubDiagonalBoard0 | tests/test_game_over.py:45-52 | stones on the anti-diagonal from (0,4) win |
| GameOver.SubDiagonalBoard1 | tests/test_game_over.py:45-52 | stones on the anti-diagonal from (6,14) win |
| GameOver.SubDiagonalBoard2 | tests/test_game_over.py:45-52 | four main-diagonal stones and one off the line do not win |
| GameOver.SubDiagonalBoard3 | tests/test_game_over.py:45-52 | four main-diagonal stones from (11,1) and one beside them do not win |
| GameOver.TestSubDiagonal | tests/test_game_over.py:43-53 | the sub-diagonal fixtures' verdicts are [true, true, false, false] |

The code does not refuse re-expansion, and `max` does not pick an arbitrary
tie; the model follows the code:

- Re-expansion is not refused. `expand` on an expanded node overwrites the
  entries of repeated actions and appends new ones; no error is signalled.
- `select` breaks ties toward the first maximal entry in insertion order,
  because CPython's `max` keeps the first maximum. It does not pick an
  arbitrary maximal element.

## Left out

- Floating point: `P`, `Q`, `U` and `score` are exact reals, so rounding is not modelled. The source's integer `0` initial values are the real `0.0`.
- `sqrt` is a parameter of type `real -> real`. Only `sqrt(0.0) == 0.0` is assumed, where a root's zero visit count must give `U == 0`.
- Mcts.Tree.Backup: it is written as a loop that first collects the path and then updates from the top down. The source recurses. The update order, parent before child, is the same and is stated by `BackedUp` and `BackupOnPath`.
- Object identity and aliasing: nodes are arena slots and parents are indices. A child created by `expand` is therefore reachable only through its parent's dictionary and its arena index.
- Mcts.Tree.Update: it requires the node to have a parent, the tree's invariants and `sqrt(0.0) == 0.0`; the last two are what keeps the invariants, and `backup`, its only caller, meets them. The source's `__update` is private and is only reached from `backup` under `if self.parent`; on a root it would fail reading `None.N`. Python's truthiness of a `Node` (always true) is modelled as `parent.Some?`.
- Mcts.Tree.Expand: it takes the `(action, prior)` pairs as a finite sequence. A one-shot iterator that the source could also consume is not distinguished.
- The `State` class of `monte_carlo_tree_search/state.py`, its check anchored at the last move, the winner and the draw detection are not part of this model. Only the full-board verdict that the test file pins is modelled. Whether a run longer than five counts is not fixed by those tests; the model counts at least five.
- GameOver.Simulate: it requires in-range, non-negative coordinates and equal-length coordinate lists. numpy's negative-index wrap-around and its `IndexError` are not modelled. The source builds all boards before judging them; the model builds and judges each fixture in turn, which gives the same list of verdicts.
- The search driver (simulations, evaluator, move policy, root advancement) and the menu and rendering code are not part of this model.
