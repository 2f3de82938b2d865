/**
  The full-board five-in-a-row verdict of a 15 x 15 gomoku board, as the
  game-over tests fix it: with the sentinel last move (-1, -1) the game is
  over exactly when some cell starts a run of at least five stones of one
  colour along a row, a column, a main diagonal or an anti-diagonal.
*/
module GameOver {

  const Size := 15

  datatype Cell = Empty | Black | White

  /** A board as rows of cells; `g[x][y]` is the cell the tests write as `state_mat[x, y]`. */
  type Grid = seq<seq<Cell>>

  /** The four line directions, each walked forward from its first cell. */
  datatype Direction = Horizontal | Vertical | MainDiagonal | AntiDiagonal

  /** The cell `t` steps from `(r, c)` along `d`. */
  function Step(r: int, c: int, d: Direction, t: int): (int, int)
  {
    match d
    case Horizontal => (r, c + t)
    case Vertical => (r + t, c)
    case MainDiagonal => (r + t, c + t)
    case AntiDiagonal => (r + t, c - t)
  }

  predicate OnBoard(r: int, c: int)
  {
    0 <= r < Size && 0 <= c < Size
  }

  /** The cell at `(r, c)`; every cell off the board reads as empty. */
  function At(g: Grid, r: int, c: int): Cell
  {
    if OnBoard(r, c) && r < |g| && c < |g[r]| then g[r][c] else Empty
  }

  /** The number of consecutive stones of `colour` from `(r, c)` along `d`. */
  function Run(g: Grid, colour: Cell, r: int, c: int, d: Direction): nat
    decreases if d == Horizontal then Size - c else Size - r
  {
    if colour != Empty && At(g, r, c) == colour then
      var (r', c') := Step(r, c, d, 1);
      1 + Run(g, colour, r', c', d)
    else 0
  }

  /** Some direction holds a run of five or more from `(r, c)` in the colour of `(r, c)`. */
  predicate WinsAt(g: Grid, r: int, c: int)
  {
    var colour := At(g, r, c);
    Run(g, colour, r, c, Horizontal) >= 5 || Run(g, colour, r, c, Vertical) >= 5 ||
    Run(g, colour, r, c, MainDiagonal) >= 5 || Run(g, colour, r, c, AntiDiagonal) >= 5
  }

  /** `is_game_over` with the sentinel last move: a scan of the whole board. */
  predicate FullBoardWin(g: Grid)
  {
    exists r, c | 0 <= r < Size && 0 <= c < Size :: WinsAt(g, r, c)
  }

  /** The five cells from `(r, c)` along `d` hold the same stone. */
  ghost predicate LineFrom(g: Grid, r: int, c: int, d: Direction)
  {
    At(g, r, c) != Empty &&
    forall t | 0 <= t < 5 :: At(g, Step(r, c, d, t).0, Step(r, c, d, t).1) == At(g, r, c)
  }

  /** The independent reading: five cells in a line, anywhere, hold the same stone. */
  ghost predicate LineOfFive(g: Grid)
  {
    exists r, c, d :: LineFrom(g, r, c, d)
  }

  /** A run of at least n stones is exactly n stones of a colour that is not empty. */
  lemma {:induction false} RunCells(g: Grid, colour: Cell, r: int, c: int, d: Direction, n: nat)
    requires n > 0
    ensures Run(g, colour, r, c, d) >= n <==>
      colour != Empty && forall t | 0 <= t < n :: At(g, Step(r, c, d, t).0, Step(r, c, d, t).1) == colour
    decreases n
  {
    var (r', c') := Step(r, c, d, 1);
    assert Step(r, c, d, 0) == (r, c);
    if n > 1 {
      RunCells(g, colour, r', c', d, n - 1);
      forall t | 0 <= t < n - 1
        ensures Step(r', c', d, t) == Step(r, c, d, t + 1)
      {
      }
      if colour != Empty && forall t | 0 <= t < n :: At(g, Step(r, c, d, t).0, Step(r, c, d, t).1) == colour {
        forall t | 0 <= t < n - 1
          ensures At(g, Step(r', c', d, t).0, Step(r', c', d, t).1) == colour
        {
          assert Step(r', c', d, t) == Step(r, c, d, t + 1);
        }
      }
      if Run(g, colour, r, c, d) >= n {
        forall t | 0 <= t < n
          ensures At(g, Step(r, c, d, t).0, Step(r, c, d, t).1) == colour
        {
          if t > 0 {
            assert Step(r', c', d, t - 1) == Step(r, c, d, t);
          }
        }
      }
    }
  }

  /** The full-board scan finds a win exactly when the board holds a line of five. */
  lemma FullBoardWinIsLineOfFive(g: Grid)
    ensures FullBoardWin(g) <==> LineOfFive(g)
  {
    if FullBoardWin(g) {
      var r, c :| 0 <= r < Size && 0 <= c < Size && WinsAt(g, r, c);
      var colour := At(g, r, c);
      var d :| d in [Horizontal, Vertical, MainDiagonal, AntiDiagonal] && Run(g, colour, r, c, d) >= 5;
      RunCells(g, colour, r, c, d, 5);
      assert LineFrom(g, r, c, d);
    }
    if LineOfFive(g) {
      var r, c, d :| LineFrom(g, r, c, d);
      RunCells(g, At(g, r, c), r, c, d, 5);
      assert OnBoard(r, c);
      assert WinsAt(g, r, c);
    }
  }

  // ---------------------------------------------------------------------
  // The fixture boards
  // ---------------------------------------------------------------------

  /** A stone was put at `(r, c)` by one of the pairs `(xs[k], ys[k])`, k >= i. */
  predicate PlacedFrom(xs: seq<int>, ys: seq<int>, r: int, c: int, i: nat)
    decreases |xs| - i
  {
    i < |xs| && i < |ys| && ((xs[i] == r && ys[i] == c) || PlacedFrom(xs, ys, r, c, i + 1))
  }

  /** A stone was put at `(r, c)`: one of the pairs `(xs[k], ys[k])`. */
  predicate Placed(xs: seq<int>, ys: seq<int>, r: int, c: int)
  {
    PlacedFrom(xs, ys, r, c, 0)
  }

  lemma {:induction false} PlacedFromIsSomePair(xs: seq<int>, ys: seq<int>, r: int, c: int, i: nat)
    ensures PlacedFrom(xs, ys, r, c, i) <==> exists k | i <= k < |xs| && k < |ys| :: xs[k] == r && ys[k] == c
    decreases |xs| - i
  {
    if i < |xs| && i < |ys| {
      PlacedFromIsSomePair(xs, ys, r, c, i + 1);
      if exists k | i <= k < |xs| && k < |ys| :: xs[k] == r && ys[k] == c {
        var k :| i <= k < |xs| && k < |ys| && xs[k] == r && ys[k] == c;
        if k > i {
          assert i + 1 <= k;
        }
      }
    }
  }

  /** The pairs placed stones exactly at the cells they list. */
  lemma PlacedIsSomePair(xs: seq<int>, ys: seq<int>, r: int, c: int)
    ensures Placed(xs, ys, r, c) <==> exists k | 0 <= k < |xs| && k < |ys| :: xs[k] == r && ys[k] == c
  {
    PlacedFromIsSomePair(xs, ys, r, c, 0);
  }

  /** Listing one more pair places one more stone. */
  lemma PlacedSnoc(xs: seq<int>, ys: seq<int>, k: nat, r: int, c: int)
    requires k < |xs| && k < |ys|
    ensures Placed(xs[..k + 1], ys[..k + 1], r, c) <==>
      Placed(xs[..k], ys[..k], r, c) || (xs[k] == r && ys[k] == c)
  {
    PlacedIsSomePair(xs[..k + 1], ys[..k + 1], r, c);
    PlacedIsSomePair(xs[..k], ys[..k], r, c);
    if Placed(xs[..k + 1], ys[..k + 1], r, c) && !(xs[k] == r && ys[k] == c) {
      var j :| 0 <= j < k + 1 && xs[..k + 1][j] == r && ys[..k + 1][j] == c;
      assert xs[..k][j] == r && ys[..k][j] == c;
    }
    if Placed(xs[..k], ys[..k], r, c) {
      var j :| 0 <= j < k && xs[..k][j] == r && ys[..k][j] == c;
      assert xs[..k + 1][j] == r && ys[..k + 1][j] == c;
    }
    if xs[k] == r && ys[k] == c {
      assert xs[..k + 1][k] == r && ys[..k + 1][k] == c;
    }
  }

  /** An empty board with a black stone at each listed pair, as `__simulation` builds it. */
  function Board(xs: seq<int>, ys: seq<int>): (g: Grid)
    ensures |g| == Size && forall r | 0 <= r < Size :: |g[r]| == Size
    ensures forall r, c | OnBoard(r, c) :: At(g, r, c) == if Placed(xs, ys, r, c) then Black else Empty
  {
    seq(Size, r => seq(Size, c => if Placed(xs, ys, r, c) then Black else Empty))
  }

  /** The five cells from `(r, c)` along `d` all hold a placed stone. */
  predicate FivePlaced(xs: seq<int>, ys: seq<int>, r: int, c: int, d: Direction)
  {
    Placed(xs, ys, Step(r, c, d, 0).0, Step(r, c, d, 0).1) &&
    Placed(xs, ys, Step(r, c, d, 1).0, Step(r, c, d, 1).1) &&
    Placed(xs, ys, Step(r, c, d, 2).0, Step(r, c, d, 2).1) &&
    Placed(xs, ys, Step(r, c, d, 3).0, Step(r, c, d, 3).1) &&
    Placed(xs, ys, Step(r, c, d, 4).0, Step(r, c, d, 4).1)
  }

  /** No line of five placed stones starts at `(r, c)`. */
  predicate NoFiveFrom(xs: seq<int>, ys: seq<int>, r: int, c: int)
  {
    !FivePlaced(xs, ys, r, c, Horizontal) && !FivePlaced(xs, ys, r, c, Vertical) &&
    !FivePlaced(xs, ys, r, c, MainDiagonal) && !FivePlaced(xs, ys, r, c, AntiDiagonal)
  }

  /** Five placed stones in a line on the board win. */
  lemma WinWhenFivePlaced(xs: seq<int>, ys: seq<int>, r: int, c: int, d: Direction)
    requires FivePlaced(xs, ys, r, c, d)
    requires forall t | 0 <= t < 5 :: OnBoard(Step(r, c, d, t).0, Step(r, c, d, t).1)
    ensures FullBoardWin(Board(xs, ys))
  {
    var g := Board(xs, ys);
    forall t | 0 <= t < 5
      ensures At(g, Step(r, c, d, t).0, Step(r, c, d, t).1) == Black
    {
      assert t == 0 || t == 1 || t == 2 || t == 3 || t == 4;
    }
    assert Step(r, c, d, 0) == (r, c);
    RunCells(g, Black, r, c, d, 5);
    assert WinsAt(g, r, c);
  }

  /** No stone from the i-th pair on starts a line of five placed stones. */
  predicate NoFiveFromAny(xs: seq<int>, ys: seq<int>, i: nat)
    decreases |xs| - i
  {
    i >= |xs| || i >= |ys| || (NoFiveFrom(xs, ys, xs[i], ys[i]) && NoFiveFromAny(xs, ys, i + 1))
  }

  lemma {:induction false} NoFiveFromEach(xs: seq<int>, ys: seq<int>, i: nat)
    requires NoFiveFromAny(xs, ys, i)
    ensures forall k | i <= k < |xs| && k < |ys| :: NoFiveFrom(xs, ys, xs[k], ys[k])
    decreases |xs| - i
  {
    if i < |xs| && i < |ys| {
      NoFiveFromEach(xs, ys, i + 1);
    }
  }

  /** A winning board holds five placed stones in a line that starts at a
      placed stone. */
  lemma WinHasFivePlaced(xs: seq<int>, ys: seq<int>)
    ensures FullBoardWin(Board(xs, ys)) ==>
      exists k, d | 0 <= k < |xs| && k < |ys| :: FivePlaced(xs, ys, xs[k], ys[k], d)
  {
    var g := Board(xs, ys);
    if FullBoardWin(g) {
      var r, c :| 0 <= r < Size && 0 <= c < Size && WinsAt(g, r, c);
      var d :| d in [Horizontal, Vertical, MainDiagonal, AntiDiagonal] && Run(g, At(g, r, c), r, c, d) >= 5;
      RunCells(g, At(g, r, c), r, c, d, 5);
      assert Step(r, c, d, 0) == (r, c);
      forall t | 0 <= t < 5 ensures Placed(xs, ys, Step(r, c, d, t).0, Step(r, c, d, t).1) {
        assert At(g, Step(r, c, d, t).0, Step(r, c, d, t).1) != Empty;
      }
      PlacedIsSomePair(xs, ys, r, c);
      var k :| 0 <= k < |xs| && k < |ys| && xs[k] == r && ys[k] == c;
      assert FivePlaced(xs, ys, xs[k], ys[k], d);
    }
  }

  /** So a board on which no placed stone starts a line of five does not win. */
  lemma NoWinUnlessFivePlaced(xs: seq<int>, ys: seq<int>)
    requires NoFiveFromAny(xs, ys, 0)
    ensures !FullBoardWin(Board(xs, ys))
  {
    NoFiveFromEach(xs, ys, 0);
    WinHasFivePlaced(xs, ys);
  }

  /** Boards are well formed for the builder: one row list and one column
      list per board, of equal length. */
  predicate Fixtures(px: seq<seq<int>>, py: seq<seq<int>>)
  {
    |px| == |py| && forall f | 0 <= f < |px| :: |px[f]| == |py[f]|
  }

  /** The verdict on each board built from the fixture lists. */
  function Verdicts(px: seq<seq<int>>, py: seq<seq<int>>): (overs: seq<bool>)
    requires Fixtures(px, py)
    ensures |overs| == |px|
    ensures forall f | 0 <= f < |px| :: overs[f] == FullBoardWin(Board(px[f], py[f]))
  {
    seq(|px|, f requires 0 <= f < |px| => FullBoardWin(Board(px[f], py[f])))
  }

  /** Up to four verdicts equal the list that agrees with them index by index. */
  lemma VerdictsListed(v: seq<bool>, labels: seq<bool>)
    requires |v| == |labels| <= 4
    requires 0 < |v| ==> v[0] == labels[0]
    requires 1 < |v| ==> v[1] == labels[1]
    requires 2 < |v| ==> v[2] == labels[2]
    requires 3 < |v| ==> v[3] == labels[3]
    ensures v == labels
  {
  }

  /** `__simulation`: one board per fixture, each built by putting a black
      stone at every listed pair of an empty board, then the full-board verdict
      of each. */
  method Simulate(px: seq<seq<int>>, py: seq<seq<int>>) returns (overs: seq<bool>)
    requires Fixtures(px, py)
    requires forall f, k | 0 <= f < |px| && 0 <= k < |px[f]| :: OnBoard(px[f][k], py[f][k])
    ensures overs == Verdicts(px, py)
  {
    overs := [];
    for f := 0 to |px|
      invariant |overs| == f
      invariant forall e | 0 <= e < f :: overs[e] == FullBoardWin(Board(px[e], py[e]))
    {
      var xs, ys := px[f], py[f];
      var mat := new Cell[Size, Size]((r, c) => Empty);
      for k := 0 to |xs|
        invariant forall r, c | OnBoard(r, c) :: mat[r, c] == if Placed(xs[..k], ys[..k], r, c) then Black else Empty
      {
        forall r, c | OnBoard(r, c)
          ensures Placed(xs[..k + 1], ys[..k + 1], r, c) <==> Placed(xs[..k], ys[..k], r, c) || (xs[k] == r && ys[k] == c)
        {
          PlacedSnoc(xs, ys, k, r, c);
        }
        mat[xs[k], ys[k]] := Black;
      }
      assert xs[..|xs|] == xs && ys[..|ys|] == ys;
      var g := seq(Size, r requires 0 <= r < Size reads mat =>
        seq(Size, c requires 0 <= c < Size reads mat => mat[r, c]));
      assert g == Board(xs, ys) by {
        var b := Board(xs, ys);
        forall r | 0 <= r < Size ensures g[r] == b[r] {
          forall c | 0 <= c < Size ensures g[r][c] == b[r][c] {
            assert At(b, r, c) == b[r][c];
          }
        }
      }
      overs := overs + [FullBoardWin(g)];
    }
  }

  const HorizonPx: seq<seq<int>> := [[0, 0, 0, 0, 0], [14, 14, 14, 14, 14], [14, 14, 14, 14, 14]]
  const HorizonPy: seq<seq<int>> := [[14, 13, 12, 11, 10], [0, 1, 2, 3, 4], [0, 2, 3, 4, 5]]

  /** Board 0 of `test_horizon` wins. */
  lemma HorizonBoard0()
    ensures Fixtures(HorizonPx, HorizonPy) && Verdicts(HorizonPx, HorizonPy)[0]
  {
    WinWhenFivePlaced([0, 0, 0, 0, 0], [14, 13, 12, 11, 10], 0, 10, Horizontal);
    assert HorizonPx[0] == [0, 0, 0, 0, 0] && HorizonPy[0] == [14, 13, 12, 11, 10];
  }

  /** Board 1 of `test_horizon` wins. */
  lemma HorizonBoard1()
    ensures Fixtures(HorizonPx, HorizonPy) && Verdicts(HorizonPx, HorizonPy)[1]
  {
    WinWhenFivePlaced([14, 14, 14, 14, 14], [0, 1, 2, 3, 4], 14, 0, Horizontal);
    assert HorizonPx[1] == [14, 14, 14, 14, 14] && HorizonPy[1] == [0, 1, 2, 3, 4];
  }

  /** Board 2 of `test_horizon` does not win. */
  lemma HorizonBoard2()
    ensures Fixtures(HorizonPx, HorizonPy) && !Verdicts(HorizonPx, HorizonPy)[2]
  {
    NoWinUnlessFivePlaced([14, 14, 14, 14, 14], [0, 2, 3, 4, 5]);
    assert HorizonPx[2] == [14, 14, 14, 14, 14] && HorizonPy[2] == [0, 2, 3, 4, 5];
  }

  /** `test_horizon`: five in a row at the edges of rows 0 and 14 win; row 14 with a gap
      after its first stone (a run of four) does not. */
  lemma TestHorizon()
    ensures Fixtures(HorizonPx, HorizonPy) && Verdicts(HorizonPx, HorizonPy) == [true, true, false]
  {
    HorizonBoard0(); HorizonBoard1(); HorizonBoard2();
    VerdictsListed(Verdicts(HorizonPx, HorizonPy), [true, true, false]);
  }

  const VerticalPx: seq<seq<int>> := [[0, 1, 2, 3, 4], [14, 13, 12, 11, 10], [14, 13, 12, 11, 9]]
  const VerticalPy: seq<seq<int>> := [[0, 0, 0, 0, 0], [0, 0, 0, 0, 0], [0, 0, 0, 0, 0]]

  /** Board 0 of `test_vertical` wins. */
  lemma VerticalBoard0()
    ensures Fixtures(VerticalPx, VerticalPy) && Verdicts(VerticalPx, VerticalPy)[0]
  {
    WinWhenFivePlaced([0, 1, 2, 3, 4], [0, 0, 0, 0, 0], 0, 0, Vertical);
    assert VerticalPx[0] == [0, 1, 2, 3, 4] && VerticalPy[0] == [0, 0, 0, 0, 0];
  }

  /** Board 1 of `test_vertical` wins. */
  lemma VerticalBoard1()
    ensures Fixtures(VerticalPx, VerticalPy) && Verdicts(VerticalPx, VerticalPy)[1]
  {
    WinWhenFivePlaced([14, 13, 12, 11, 10], [0, 0, 0, 0, 0], 10, 0, Vertical);
    assert VerticalPx[1] == [14, 13, 12, 11, 10] && VerticalPy[1] == [0, 0, 0, 0, 0];
  }

  /** Board 2 of `test_vertical` does not win. */
  lemma VerticalBoard2()
    ensures Fixtures(VerticalPx, VerticalPy) && !Verdicts(VerticalPx, VerticalPy)[2]
  {
    NoWinUnlessFivePlaced([14, 13, 12, 11, 9], [0, 0, 0, 0, 0]);
    assert VerticalPx[2] == [14, 13, 12, 11, 9] && VerticalPy[2] == [0, 0, 0, 0, 0];
  }

  /** `test_vertical`: five in column 0 from row 0 and up to row 14 win; rows 9 and 11-14
      (a run of four) do not. */
  lemma TestVertical()
    ensures Fixtures(VerticalPx, VerticalPy) && Verdicts(VerticalPx, VerticalPy) == [true, true, false]
  {
    VerticalBoard0(); VerticalBoard1(); VerticalBoard2();
    VerdictsListed(Verdicts(VerticalPx, VerticalPy), [true, true, false]);
  }

  const MainDiagonalPx: seq<seq<int>> := [[0, 1, 2, 3, 4], [6, 7, 8, 9, 10], [6, 7, 8, 9, 10], [7, 8, 9, 10, 11]]
  const MainDiagonalPy: seq<seq<int>> := [[0, 1, 2, 3, 4], [0, 1, 2, 3, 4], [0, 1, 2, 3, 3], [7, 8, 9, 10, 10]]

  /** Board 0 of `test_main_diagonal` wins. */
  lemma MainDiagonalBoard0()
    ensures Fixtures(MainDiagonalPx, MainDiagonalPy) && Verdicts(MainDiagonalPx, MainDiagonalPy)[0]
  {
    WinWhenFivePlaced([0, 1, 2, 3, 4], [0, 1, 2, 3, 4], 0, 0, MainDiagonal);
    assert MainDiagonalPx[0] == [0, 1, 2, 3, 4] && MainDiagonalPy[0] == [0, 1, 2, 3, 4];
  }

  /** Board 1 of `test_main_diagonal` wins. */
  lemma MainDiagonalBoard1()
    ensures Fixtures(MainDiagonalPx, MainDiagonalPy) && Verdicts(MainDiagonalPx, MainDiagonalPy)[1]
  {
    WinWhenFivePlaced([6, 7, 8, 9, 10], [0, 1, 2, 3, 4], 6, 0, MainDiagonal);
    assert MainDiagonalPx[1] == [6, 7, 8, 9, 10] && MainDiagonalPy[1] == [0, 1, 2, 3, 4];
  }

  /** Board 2 of `test_main_diagonal` does not win. */
  lemma MainDiagonalBoard2()
    ensures Fixtures(MainDiagonalPx, MainDiagonalPy) && !Verdicts(MainDiagonalPx, MainDiagonalPy)[2]
  {
    NoWinUnlessFivePlaced([6, 7, 8, 9, 10], [0, 1, 2, 3, 3]);
    assert MainDiagonalPx[2] == [6, 7, 8, 9, 10] && MainDiagonalPy[2] == [0, 1, 2, 3, 3];
  }

  /** Board 3 of `test_main_diagonal` does not win. */
  lemma MainDiagonalBoard3()
    ensures Fixtures(MainDiagonalPx, MainDiagonalPy) && !Verdicts(MainDiagonalPx, MainDiagonalPy)[3]
  {
    NoWinUnlessFivePlaced([7, 8, 9, 10, 11], [7, 8, 9, 10, 10]);
    assert MainDiagonalPx[3] == [7, 8, 9, 10, 11] && MainDiagonalPy[3] == [7, 8, 9, 10, 10];
  }

  /** `test_main_diagonal`: five on a main diagonal win, from (0, 0) and from (6, 0); four on
      a main diagonal with the fifth stone beside the line do not. */
  lemma TestMainDiagonal()
    ensures Fixtures(MainDiagonalPx, MainDiagonalPy) && Verdicts(MainDiagonalPx, MainDiagonalPy) == [true, true, false, false]
  {
    MainDiagonalBoard0(); MainDiagonalBoard1(); MainDiagonalBoard2(); MainDiagonalBoard3();
    VerdictsListed(Verdicts(MainDiagonalPx, MainDiagonalPy), [true, true, false, false]);
  }

  const SubDiagonalPx: seq<seq<int>> := [[0, 1, 2, 3, 4], [6, 7, 8, 9, 10], [6, 7, 8, 9, 10], [11, 11, 12, 13, 14]]
  const SubDiagonalPy: seq<seq<int>> := [[4, 3, 2, 1, 0], [14, 13, 12, 11, 10], [0, 1, 2, 3, 3], [0, 1, 2, 3, 4]]

  /** Board 0 of `test_sub_diagonal` wins. */
  lemma SubDiagonalBoard0()
    ensures Fixtures(SubDiagonalPx, SubDiagonalPy) && Verdicts(SubDiagonalPx, SubDiagonalPy)[0]
  {
    WinWhenFivePlaced([0, 1, 2, 3, 4], [4, 3, 2, 1, 0], 0, 4, AntiDiagonal);
    assert SubDiagonalPx[0] == [0, 1, 2, 3, 4] && SubDiagonalPy[0] == [4, 3, 2, 1, 0];
  }

  /** Board 1 of `test_sub_diagonal` wins. */
  lemma SubDiagonalBoard1()
    ensures Fixtures(SubDiagonalPx, SubDiagonalPy) && Verdicts(SubDiagonalPx, SubDiagonalPy)[1]
  {
    WinWhenFivePlaced([6, 7, 8, 9, 10], [14, 13, 12, 11, 10], 6, 14, AntiDiagonal);
    assert SubDiagonalPx[1] == [6, 7, 8, 9, 10] && SubDiagonalPy[1] == [14, 13, 12, 11, 10];
  }

  /** Board 2 of `test_sub_diagonal` does not win. */
  lemma SubDiagonalBoard2()
    ensures Fixtures(SubDiagonalPx, SubDiagonalPy) && !Verdicts(SubDiagonalPx, SubDiagonalPy)[2]
  {
    NoWinUnlessFivePlaced([6, 7, 8, 9, 10], [0, 1, 2, 3, 3]);
    assert SubDiagonalPx[2] == [6, 7, 8, 9, 10] && SubDiagonalPy[2] == [0, 1, 2, 3, 3];
  }

  /** Board 3 of `test_sub_diagonal` does not win. */
  lemma SubDiagonalBoard3()
    ensures Fixtures(SubDiagonalPx, SubDiagonalPy) && !Verdicts(SubDiagonalPx, SubDiagonalPy)[3]
  {
    NoWinUnlessFivePlaced([11, 11, 12, 13, 14], [0, 1, 2, 3, 4]);
    assert SubDiagonalPx[3] == [11, 11, 12, 13, 14] && SubDiagonalPy[3] == [0, 1, 2, 3, 4];
  }

  /** `test_sub_diagonal`: five on an anti-diagonal win, from (0, 4) and from (6, 14); boards
      whose longest line is four do not. */
  lemma TestSubDiagonal()
    ensures Fixtures(SubDiagonalPx, SubDiagonalPy) && Verdicts(SubDiagonalPx, SubDiagonalPy) == [true, true, false, false]
  {
    SubDiagonalBoard0(); SubDiagonalBoard1(); SubDiagonalBoard2(); SubDiagonalBoard3();
    VerdictsListed(Verdicts(SubDiagonalPx, SubDiagonalPy), [true, true, false, false]);
  }
}
