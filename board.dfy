/** The 4x4 board of the 2048 game as a flat, row-major sequence of cells
    (column x of row y at index y * Width + x, 0 meaning empty), its rows
    and columns seen as lines read from the edge a move slides toward, and
    the reference result of a whole-board move, of a spawn and of the loss
    check. */
module Board {
  import opened Line

  datatype Direction = Up | Dn | Lt | Rt

  datatype GameStatus = InGame | WinGame | LostGame

  /** A cell coordinate: column x, row y (row 0 at the top). */
  datatype Pos = Pos(x: int, y: int)

  const Width := 4
  const Height := 4
  const TotalSize := 16

  predicate IsTilePosValid(p: Pos)
  {
    0 <= p.x < Width && 0 <= p.y < Height
  }

  /** Flat (row-major) index of column x of row y. */
  function Flat(x: int, y: int): (i: nat)
    requires 0 <= x < Width && 0 <= y < Height
    ensures i < TotalSize
  {
    Width * y + x
  }

  /** Flat index of a cell. */
  function Index(p: Pos): (i: nat)
    requires IsTilePosValid(p)
    ensures i < TotalSize
  {
    Flat(p.x, p.y)
  }

  /** The cell at flat index i. */
  function PosAt(i: int): Pos
  {
    Pos(i % Width, i / Width)
  }

  /** The valid positions are exactly the 16 cells of the board, and each
      is the cell at its own flat index. */
  lemma ValidPosIsCell(p: Pos)
    ensures IsTilePosValid(p) <==> exists i :: 0 <= i < TotalSize && PosAt(i) == p
    ensures IsTilePosValid(p) ==> PosAt(Index(p)) == p
  {
    if IsTilePosValid(p) {
      assert PosAt(Index(p)) == p;
    }
  }

  /** Different cells have different flat indices. */
  lemma IndexInjective(p: Pos, q: Pos)
    requires IsTilePosValid(p) && IsTilePosValid(q) && p != q
    ensures Index(p) != Index(q)
  {
  }

  // ---------------------------------------------------------------------
  // Lines

  predicate IsHorizontal(d: Direction)
  {
    d == Lt || d == Rt
  }

  /** Number of lines a move processes: rows for a horizontal move,
      columns for a vertical one. */
  function LineCount(d: Direction): nat
  {
    if IsHorizontal(d) then Height else Width
  }

  /** Number of cells in one line (Width and Height are both 4). */
  function LineLength(d: Direction): nat
  {
    if IsHorizontal(d) then Width else Height
  }

  /** One step away from the leading edge along a line: the cursor's
      advance after a merge or a stack. It is a unit step along the line's
      own axis, toward higher coordinates when the leading edge is the top
      row or the left column and toward lower ones otherwise. */
  function ReverseDelta(d: Direction): (r: Pos)
    ensures (r.x == 0) != (r.y == 0) && -1 <= r.x <= 1 && -1 <= r.y <= 1
    ensures IsHorizontal(d) <==> r.y == 0
    ensures r.x + r.y == if d == Up || d == Lt then 1 else -1
  {
    match d
    case Up => Pos(0, 1)
    case Dn => Pos(0, -1)
    case Lt => Pos(1, 0)
    case Rt => Pos(-1, 0)
  }

  /** The cell one step away from the leading edge after p. */
  function Advance(p: Pos, d: Direction): Pos
  {
    Pos(p.x + ReverseDelta(d).x, p.y + ReverseDelta(d).y)
  }

  /** The same step on flat indices. */
  function Stride(d: Direction): int
  {
    match d
    case Up => Width
    case Dn => -Width
    case Lt => 1
    case Rt => -1
  }

  /** Advancing a cell that stays on the board moves its flat index by the
      stride. */
  lemma AdvanceIndex(p: Pos, d: Direction)
    requires IsTilePosValid(p) && IsTilePosValid(Advance(p, d))
    ensures Index(Advance(p, d)) == Index(p) + Stride(d)
  {
  }

  /** Cell at offset k from the leading edge of line o: the edge is row 0
      for Up, the last row for Dn, column 0 for Lt, the last column for Rt.
      Distinct (line, offset) pairs are distinct cells. */
  function LinePos(d: Direction, o: int, k: int): (p: Pos)
    ensures LineNo(d, p) == o && Offset(d, p) == k
    ensures IsTilePosValid(p) <==> 0 <= o < LineCount(d) && 0 <= k < LineLength(d)
  {
    match d
    case Up => Pos(o, k)
    case Dn => Pos(o, Height - 1 - k)
    case Lt => Pos(k, o)
    case Rt => Pos(Width - 1 - k, o)
  }

  /** The line a cell belongs to. */
  function LineNo(d: Direction, p: Pos): int
  {
    if IsHorizontal(d) then p.y else p.x
  }

  /** Distance of a cell from the leading edge of its line. */
  function Offset(d: Direction, p: Pos): int
  {
    match d
    case Up => p.y
    case Dn => Height - 1 - p.y
    case Lt => p.x
    case Rt => Width - 1 - p.x
  }

  /** Advancing the cursor moves it one cell further from the leading edge,
      on the same line. */
  lemma LinePosStep(d: Direction, o: int, k: int)
    ensures Advance(LinePos(d, o, k), d) == LinePos(d, o, k + 1)
  {
  }

  /** Flat index of the cell at offset k of line o, written out per
      direction. */
  function Cell(d: Direction, o: int, k: int): (i: nat)
    requires 0 <= o < LineCount(d) && 0 <= k < LineLength(d)
    ensures i < TotalSize
  {
    match d
    case Up => Flat(o, k)
    case Dn => Flat(o, Height - 1 - k)
    case Lt => Flat(k, o)
    case Rt => Flat(Width - 1 - k, o)
  }

  /** It is the flat index of the cell LinePos names. */
  lemma CellIndex(d: Direction, o: int, k: int)
    requires 0 <= o < LineCount(d) && 0 <= k < LineLength(d)
    ensures IsTilePosValid(LinePos(d, o, k)) && Cell(d, o, k) == Index(LinePos(d, o, k))
  {
  }

  /** Distinct (line, offset) pairs are distinct cells. */
  lemma CellInjective(d: Direction, o: int, k: int, o': int, k': int)
    requires 0 <= o < LineCount(d) && 0 <= k < LineLength(d)
    requires 0 <= o' < LineCount(d) && 0 <= k' < LineLength(d)
    requires o != o' || k != k'
    ensures Cell(d, o, k) != Cell(d, o', k')
  {
  }

  /** Every cell lies on some line at some offset. */
  lemma CellOnto(d: Direction, i: nat) returns (o: int, k: int)
    requires i < TotalSize
    ensures 0 <= o < LineCount(d) && 0 <= k < LineLength(d) && Cell(d, o, k) == i
  {
    var x, y := i % Width, i / Width;
    match d
    case Up => o, k := x, y;
    case Dn => o, k := x, Height - 1 - y;
    case Lt => o, k := y, x;
    case Rt => o, k := y, Width - 1 - x;
  }

  /** The next offset of a line is one stride further. */
  lemma CellStep(d: Direction, o: int, k: int)
    requires 0 <= o < LineCount(d) && 0 <= k < LineLength(d) - 1
    ensures Cell(d, o, k + 1) == Cell(d, o, k) + Stride(d)
  {
  }

  /** The cells of line o, read from the leading edge. */
  function LineOf(b: seq<nat>, d: Direction, o: int): (l: seq<nat>)
    requires |b| == TotalSize && 0 <= o < LineCount(d)
    ensures |l| == LineLength(d)
    ensures forall k :: 0 <= k < LineLength(d) ==> l[k] == b[Cell(d, o, k)]
  {
    [b[Cell(d, o, 0)], b[Cell(d, o, 1)], b[Cell(d, o, 2)], b[Cell(d, o, 3)]]
  }

  /** The board with line o replaced by s. */
  function SetLine(b: seq<nat>, d: Direction, o: int, s: seq<nat>): (r: seq<nat>)
    requires |b| == TotalSize && 0 <= o < LineCount(d) && |s| == LineLength(d)
    ensures |r| == TotalSize
  {
    b[Cell(d, o, 0) := s[0]][Cell(d, o, 1) := s[1]][Cell(d, o, 2) := s[2]][Cell(d, o, 3) := s[3]]
  }

  /** Replacing a line puts s on it and keeps every other line. */
  lemma SetLineLines(b: seq<nat>, d: Direction, o: int, s: seq<nat>)
    requires |b| == TotalSize && 0 <= o < LineCount(d) && |s| == LineLength(d)
    ensures LineOf(SetLine(b, d, o, s), d, o) == s
    ensures forall o' :: 0 <= o' < LineCount(d) && o' != o ==> LineOf(SetLine(b, d, o, s), d, o') == LineOf(b, d, o')
  {
    var r := SetLine(b, d, o, s);
    forall o' | 0 <= o' < LineCount(d) && o' != o
      ensures LineOf(r, d, o') == LineOf(b, d, o')
    {
      forall k | 0 <= k < LineLength(d)
        ensures r[Cell(d, o', k)] == b[Cell(d, o', k)]
      {
        forall k' | 0 <= k' < LineLength(d)
          ensures Cell(d, o', k) != Cell(d, o, k')
        {
          CellInjective(d, o', k, o, k');
        }
      }
    }
  }

  /** Two boards with the same lines (in any one direction) are equal. */
  lemma SameLines(b: seq<nat>, c: seq<nat>, d: Direction)
    requires |b| == TotalSize && |c| == TotalSize
    requires forall o :: 0 <= o < LineCount(d) ==> LineOf(b, d, o) == LineOf(c, d, o)
    ensures b == c
  {
    forall i | 0 <= i < TotalSize
      ensures b[i] == c[i]
    {
      var o, k := CellOnto(d, i);
      assert LineOf(b, d, o)[k] == LineOf(c, d, o)[k];
    }
  }

  /** Writing a line's own cells back leaves the board as it was. */
  lemma SetLineSelf(b: seq<nat>, d: Direction, o: int)
    requires |b| == TotalSize && 0 <= o < LineCount(d)
    ensures SetLine(b, d, o, LineOf(b, d, o)) == b
  {
    var c := [Cell(d, o, 0), Cell(d, o, 1), Cell(d, o, 2), Cell(d, o, 3)];
    forall k1, k2 | 0 <= k1 < k2 < LineLength(d)
      ensures c[k1] != c[k2]
    {
      CellInjective(d, o, k1, o, k2);
    }
    WriteBackFour(b, c);
  }

  /** Writing four distinct cells with what they already hold changes
      nothing. */
  lemma WriteBackFour(b: seq<nat>, c: seq<nat>)
    requires |c| == 4
    requires forall k1 :: 0 <= k1 < 4 ==> c[k1] < |b|
    requires forall k1, k2 :: 0 <= k1 < k2 < 4 ==> c[k1] != c[k2]
    ensures b[c[0] := b[c[0]]][c[1] := b[c[1]]][c[2] := b[c[2]]][c[3] := b[c[3]]] == b
  {
  }

  /** Writing one cell of a line is writing one element of the line. */
  lemma SetLineUpdate(b: seq<nat>, d: Direction, o: int, s: seq<nat>, k: int, v: nat)
    requires |b| == TotalSize && 0 <= o < LineCount(d) && |s| == LineLength(d) && 0 <= k < LineLength(d)
    ensures SetLine(b, d, o, s)[Cell(d, o, k) := v] == SetLine(b, d, o, s[k := v])
  {
    var c := [Cell(d, o, 0), Cell(d, o, 1), Cell(d, o, 2), Cell(d, o, 3)];
    forall k1, k2 | 0 <= k1 < k2 < LineLength(d)
      ensures c[k1] != c[k2]
    {
      CellInjective(d, o, k1, o, k2);
    }
    OverwriteFour(b, c, s, k, v);
  }

  /** Four writes to distinct places followed by a fifth to one of them. */
  lemma OverwriteFour(b: seq<nat>, c: seq<nat>, s: seq<nat>, k: int, v: nat)
    requires |c| == 4 && |s| == 4 && 0 <= k < 4
    requires forall k1 :: 0 <= k1 < 4 ==> c[k1] < |b|
    requires forall k1, k2 :: 0 <= k1 < k2 < 4 ==> c[k1] != c[k2]
    ensures b[c[0] := s[0]][c[1] := s[1]][c[2] := s[2]][c[3] := s[3]][c[k] := v]
         == b[c[0] := s[k := v][0]][c[1] := s[k := v][1]][c[2] := s[k := v][2]][c[3] := s[k := v][3]]
  {
  }

  // ---------------------------------------------------------------------
  // The reference move

  /** Lines that can replace the lines of a board in direction d. */
  ghost predicate LinesFit(ls: seq<seq<nat>>, d: Direction)
  {
    |ls| == LineCount(d) && forall o :: 0 <= o < LineCount(d) ==> |ls[o]| == LineLength(d)
  }

  /** Every line of the board slid toward its leading edge. */
  function SlidLines(b: seq<nat>, d: Direction): (ls: seq<seq<nat>>)
    requires |b| == TotalSize
    ensures LinesFit(ls, d)
    ensures forall o :: 0 <= o < LineCount(d) ==> ls[o] == SlideLine(LineOf(b, d, o))
  {
    seq(LineCount(d), o requires 0 <= o < LineCount(d) => SlideLine(LineOf(b, d, o)))
  }

  /** The board with its first n lines replaced by those of ls, one after
      the other. */
  function Rewrite(b: seq<nat>, d: Direction, n: nat, ls: seq<seq<nat>>): (r: seq<nat>)
    requires |b| == TotalSize && n <= LineCount(d) && LinesFit(ls, d)
    ensures |r| == TotalSize
  {
    if n == 0 then b else SetLine(Rewrite(b, d, n - 1, ls), d, n - 1, ls[n - 1])
  }

  /** After n lines are rewritten, line o holds ls[o] if o < n and its old
      content otherwise. */
  lemma {:induction false} RewriteLine(b: seq<nat>, d: Direction, n: nat, ls: seq<seq<nat>>, o: int)
    requires |b| == TotalSize && n <= LineCount(d) && LinesFit(ls, d) && 0 <= o < LineCount(d)
    ensures LineOf(Rewrite(b, d, n, ls), d, o) == if o < n then ls[o] else LineOf(b, d, o)
  {
    if n > 0 {
      SetLineLines(Rewrite(b, d, n - 1, ls), d, n - 1, ls[n - 1]);
      if o != n - 1 {
        RewriteLine(b, d, n - 1, ls, o);
      }
    }
  }

  /** Rewriting one more line changes the board exactly when the board was
      already changed or the new line differs from the old one. */
  lemma RewriteChanged(b: seq<nat>, d: Direction, n: nat, ls: seq<seq<nat>>)
    requires |b| == TotalSize && n < LineCount(d) && LinesFit(ls, d)
    ensures Rewrite(b, d, n + 1, ls) != b <==> Rewrite(b, d, n, ls) != b || ls[n] != LineOf(b, d, n)
  {
    var p, q := Rewrite(b, d, n, ls), Rewrite(b, d, n + 1, ls);
    RewriteLine(b, d, n, ls, n);
    RewriteLine(b, d, n + 1, ls, n);
    if ls[n] == LineOf(b, d, n) {
      SetLineSelf(p, d, n);
      assert q == p;
    } else {
      assert LineOf(q, d, n) != LineOf(b, d, n);
    }
  }

  /** The board after the first n lines have been slid, in the order the
      game processes them. */
  function MovePrefix(b: seq<nat>, d: Direction, n: nat): (r: seq<nat>)
    requires |b| == TotalSize && n <= LineCount(d)
    ensures |r| == TotalSize
  {
    Rewrite(b, d, n, SlidLines(b, d))
  }

  /** The board after a move in direction d: every line slid. */
  function MoveBoard(b: seq<nat>, d: Direction): (r: seq<nat>)
    requires |b| == TotalSize
    ensures |r| == TotalSize
  {
    MovePrefix(b, d, LineCount(d))
  }

  /** After n lines are processed, those lines are slid and the others are
      as they were. */
  lemma MovePrefixLines(b: seq<nat>, d: Direction, n: nat)
    requires |b| == TotalSize && n <= LineCount(d)
    ensures forall o :: 0 <= o < LineCount(d) ==>
      LineOf(MovePrefix(b, d, n), d, o) == if o < n then SlideLine(LineOf(b, d, o)) else LineOf(b, d, o)
  {
    var ls := SlidLines(b, d);
    forall o | 0 <= o < LineCount(d)
      ensures LineOf(Rewrite(b, d, n, ls), d, o) == if o < n then ls[o] else LineOf(b, d, o)
    {
      RewriteLine(b, d, n, ls, o);
    }
  }

  /** A move slides every line toward the leading edge. */
  lemma MoveBoardLines(b: seq<nat>, d: Direction)
    requires |b| == TotalSize
    ensures forall o :: 0 <= o < LineCount(d) ==> LineOf(MoveBoard(b, d), d, o) == SlideLine(LineOf(b, d, o))
  {
    MovePrefixLines(b, d, LineCount(d));
  }

  /** A move changes the board exactly when it changes some line. */
  lemma MoveBoardChanged(b: seq<nat>, d: Direction)
    requires |b| == TotalSize
    ensures MoveBoard(b, d) != b <==> exists o :: 0 <= o < LineCount(d) && SlideLine(LineOf(b, d, o)) != LineOf(b, d, o)
  {
    MoveBoardLines(b, d);
    if forall o :: 0 <= o < LineCount(d) ==> SlideLine(LineOf(b, d, o)) == LineOf(b, d, o) {
      SameLines(MoveBoard(b, d), b, d);
    }
  }

  /** The processed prefix differs from the board exactly when one of its
      lines was changed by the slide. */
  lemma MovePrefixChanged(b: seq<nat>, d: Direction, n: nat)
    requires |b| == TotalSize && n < LineCount(d)
    ensures MovePrefix(b, d, n + 1) != b <==> MovePrefix(b, d, n) != b || SlideLine(LineOf(b, d, n)) != LineOf(b, d, n)
  {
    RewriteChanged(b, d, n, SlidLines(b, d));
  }

  /** Replacing a line changes the tile total by the difference between
      the new line's total and the old one's. */
  lemma SetLineSum(b: seq<nat>, d: Direction, o: int, s: seq<nat>)
    requires |b| == TotalSize && 0 <= o < LineCount(d) && |s| == LineLength(d)
    ensures Sum(SetLine(b, d, o, s)) + Sum(LineOf(b, d, o)) == Sum(b) + Sum(s)
  {
    var c := [Cell(d, o, 0), Cell(d, o, 1), Cell(d, o, 2), Cell(d, o, 3)];
    forall k1, k2 | 0 <= k1 < k2 < LineLength(d)
      ensures c[k1] != c[k2]
    {
      CellInjective(d, o, k1, o, k2);
    }
    WriteFourSum(b, c, s);
    SumFour(s);
    SumFour(LineOf(b, d, o));
  }

  /** Four writes to distinct places change the total by what is written
      minus what is overwritten. */
  lemma WriteFourSum(b: seq<nat>, c: seq<nat>, s: seq<nat>)
    requires |c| == 4 && |s| == 4
    requires forall k1 :: 0 <= k1 < 4 ==> c[k1] < |b|
    requires forall k1, k2 :: 0 <= k1 < k2 < 4 ==> c[k1] != c[k2]
    ensures Sum(b[c[0] := s[0]][c[1] := s[1]][c[2] := s[2]][c[3] := s[3]]) + b[c[0]] + b[c[1]] + b[c[2]] + b[c[3]]
         == Sum(b) + s[0] + s[1] + s[2] + s[3]
  {
    var b1 := b[c[0] := s[0]];
    var b2 := b1[c[1] := s[1]];
    var b3 := b2[c[2] := s[2]];
    SumUpdate(b, c[0], s[0]);
    SumUpdate(b1, c[1], s[1]);
    SumUpdate(b2, c[2], s[2]);
    SumUpdate(b3, c[3], s[3]);
  }

  lemma SumFour(s: seq<nat>)
    requires |s| == 4
    ensures Sum(s) == s[0] + s[1] + s[2] + s[3]
  {
    assert Sum(s[3..]) == s[3] by { assert s[3..][1..] == []; }
    assert Sum(s[2..]) == s[2] + s[3] by { assert s[2..][1..] == s[3..]; }
    assert Sum(s[1..]) == s[1] + s[2] + s[3] by { assert s[1..][1..] == s[2..]; }
  }

  /** Rewriting lines with lines of the same totals keeps the board's
      total. */
  lemma {:induction false} RewriteSum(b: seq<nat>, d: Direction, n: nat, ls: seq<seq<nat>>)
    requires |b| == TotalSize && n <= LineCount(d) && LinesFit(ls, d)
    requires forall o :: 0 <= o < n ==> Sum(ls[o]) == Sum(LineOf(b, d, o))
    ensures Sum(Rewrite(b, d, n, ls)) == Sum(b)
  {
    if n > 0 {
      var i := n - 1;
      assert i + 1 == n;
      RewriteSum(b, d, i, ls);
      RewriteStepSum(b, d, i, ls);
    }
  }

  /** Rewriting line n changes the board's total by the difference between
      the new line's total and the old one's. */
  lemma RewriteStepSum(b: seq<nat>, d: Direction, n: nat, ls: seq<seq<nat>>)
    requires |b| == TotalSize && n < LineCount(d) && LinesFit(ls, d)
    ensures Sum(Rewrite(b, d, n + 1, ls)) + Sum(LineOf(b, d, n)) == Sum(Rewrite(b, d, n, ls)) + Sum(ls[n])
  {
    RewriteLine(b, d, n, ls, n);
    SetLineSum(Rewrite(b, d, n, ls), d, n, ls[n]);
  }

  /** A move keeps the total of all tile values. */
  lemma MoveBoardSum(b: seq<nat>, d: Direction)
    requires |b| == TotalSize
    ensures Sum(MoveBoard(b, d)) == Sum(b)
  {
    var ls := SlidLines(b, d);
    forall o | 0 <= o < LineCount(d)
      ensures Sum(ls[o]) == Sum(LineOf(b, d, o))
    {
      SlideLineConservesSum(LineOf(b, d, o));
    }
    RewriteSum(b, d, LineCount(d), ls);
  }

  /** A move that changes the board leaves an empty cell for the tile that
      is spawned next. */
  lemma MoveLeavesRoom(b: seq<nat>, d: Direction)
    requires |b| == TotalSize && MoveBoard(b, d) != b
    ensures CountZeros(MoveBoard(b, d)) > 0
  {
    MoveBoardChanged(b, d);
    var o :| 0 <= o < LineCount(d) && SlideLine(LineOf(b, d, o)) != LineOf(b, d, o);
    LineLeavesRoom(b, d, o);
  }

  /** A line the move changes ends up with an empty cell. */
  lemma LineLeavesRoom(b: seq<nat>, d: Direction, o: int)
    requires |b| == TotalSize && 0 <= o < LineCount(d) && SlideLine(LineOf(b, d, o)) != LineOf(b, d, o)
    ensures CountZeros(MoveBoard(b, d)) > 0
  {
    var l := LineOf(b, d, o);
    SlideMovedLeavesRoom(l);
    var i :| 0 <= i < |l| && SlideLine(l)[i] == 0;
    RewriteLine(b, d, LineCount(d), SlidLines(b, d), o);
    var m := MoveBoard(b, d);
    assert LineOf(m, d, o)[i] == 0;
    CountZerosPositive(m, Cell(d, o, i));
  }

  /** Points gained on the first n lines. */
  function ScorePrefix(b: seq<nat>, d: Direction, n: nat): nat
    requires |b| == TotalSize && n <= LineCount(d)
  {
    if n == 0 then 0 else ScorePrefix(b, d, n - 1) + LineScore(LineOf(b, d, n - 1))
  }

  function MoveScore(b: seq<nat>, d: Direction): nat
    requires |b| == TotalSize
  {
    ScorePrefix(b, d, LineCount(d))
  }

  /** Some merge on the first n lines produces exactly 2048. */
  predicate WinsPrefix(b: seq<nat>, d: Direction, n: nat)
    requires |b| == TotalSize && n <= LineCount(d)
  {
    n > 0 && (WinsPrefix(b, d, n - 1) || LineWins(LineOf(b, d, n - 1)))
  }

  predicate MoveWins(b: seq<nat>, d: Direction)
    requires |b| == TotalSize
  {
    WinsPrefix(b, d, LineCount(d))
  }

  /** Processing line n of the partly moved board slides that line in
      place, adds its points and its win flag, and changes the board
      exactly when it was already changed or the line moves; next is n + 1. */
  lemma MovePrefixStep(b: seq<nat>, d: Direction, n: nat, next: nat)
    requires |b| == TotalSize && n < LineCount(d) && next == n + 1
    ensures LineOf(MovePrefix(b, d, n), d, n) == LineOf(b, d, n)
    ensures MovePrefix(b, d, next)
      == SetLine(MovePrefix(b, d, n), d, n, SlideLine(LineOf(MovePrefix(b, d, n), d, n)))
    ensures ScorePrefix(b, d, next) == ScorePrefix(b, d, n) + LineScore(LineOf(MovePrefix(b, d, n), d, n))
    ensures WinsPrefix(b, d, next) == (WinsPrefix(b, d, n) || LineWins(LineOf(MovePrefix(b, d, n), d, n)))
    ensures MovePrefix(b, d, next) != b
      <==> MovePrefix(b, d, n) != b || SlideLine(LineOf(MovePrefix(b, d, n), d, n)) != LineOf(MovePrefix(b, d, n), d, n)
  {
    MovePrefixLines(b, d, n);
    MovePrefixChanged(b, d, n);
  }

  /** A move that changes nothing gains nothing and produces no 2048
      tile. */
  lemma UnchangedMoveGainsNothing(b: seq<nat>, d: Direction)
    requires |b| == TotalSize && MoveBoard(b, d) == b
    ensures MoveScore(b, d) == 0 && !MoveWins(b, d)
  {
    MoveBoardChanged(b, d);
    PrefixGainsNothing(b, d, LineCount(d));
  }

  lemma {:induction false} PrefixGainsNothing(b: seq<nat>, d: Direction, n: nat)
    requires |b| == TotalSize && n <= LineCount(d)
    requires forall o :: 0 <= o < n ==> SlideLine(LineOf(b, d, o)) == LineOf(b, d, o)
    ensures ScorePrefix(b, d, n) == 0 && !WinsPrefix(b, d, n)
  {
    if n > 0 {
      PrefixGainsNothing(b, d, n - 1);
      SlideUnchangedGainsNothing(LineOf(b, d, n - 1));
    }
  }

  // ---------------------------------------------------------------------
  // Counting cells

  /** Writing one cell changes the empty count by what is removed and
      what is written. */
  lemma {:induction false} CountZerosUpdate(s: seq<nat>, i: nat, v: nat)
    requires i < |s|
    ensures CountZeros(s[i := v]) + (if s[i] == 0 then 1 else 0) == CountZeros(s) + (if v == 0 then 1 else 0)
  {
    if i > 0 {
      assert s[i := v][1..] == s[1..][i - 1 := v];
      CountZerosUpdate(s[1..], i - 1, v);
    }
  }

  /** Writing one cell changes the tile total by the difference of values. */
  lemma {:induction false} SumUpdate(s: seq<nat>, i: nat, v: nat)
    requires i < |s|
    ensures Sum(s[i := v]) + s[i] == Sum(s) + v
  {
    if i > 0 {
      assert s[i := v][1..] == s[1..][i - 1 := v];
      SumUpdate(s[1..], i - 1, v);
    }
  }

  /** The empty count of a prefix, one cell longer. */
  lemma CountZerosPrefix(b: seq<nat>, i: nat)
    requires i < |b|
    ensures CountZeros(b[..i + 1]) == CountZeros(b[..i]) + (if b[i] == 0 then 1 else 0)
  {
    assert b[..i + 1] == b[..i] + [b[i]];
    CountZerosAppend(b[..i], [b[i]]);
  }

  lemma {:induction false} CountZerosAppend(a: seq<nat>, b: seq<nat>)
    ensures CountZeros(a + b) == CountZeros(a) + CountZeros(b)
  {
    if a == [] {
      assert a + b == b;
    } else {
      assert (a + b)[1..] == a[1..] + b;
      CountZerosAppend(a[1..], b);
    }
  }

  lemma {:induction false} CountZerosOfZeros(n: nat)
    ensures CountZeros(Zeros(n)) == n
  {
    if n > 0 {
      assert Zeros(n)[1..] == Zeros(n - 1);
      CountZerosOfZeros(n - 1);
    }
  }

  /** The board has no empty cell exactly when its empty count is zero. */
  lemma {:induction false} NoZerosFull(s: seq<nat>)
    ensures CountZeros(s) == 0 <==> forall i :: 0 <= i < |s| ==> s[i] != 0
  {
    if s != [] {
      NoZerosFull(s[1..]);
      if CountZeros(s) == 0 {
        forall i | 0 <= i < |s|
          ensures s[i] != 0
        {
          if i > 0 { assert s[i] == s[1..][i - 1]; }
        }
      }
    }
  }

  // ---------------------------------------------------------------------
  // Spawning

  /** Index of the k-th empty cell (counting from 0) in row-major order:
      an empty cell with exactly k empty cells before it. */
  function KthEmpty(b: seq<nat>, k: nat): (i: nat)
    requires k < CountZeros(b)
    ensures i < |b| && b[i] == 0 && CountZeros(b[..i]) == k
  {
    if b[0] == 0 && k == 0 then 0
    else
      var i := 1 + KthEmpty(b[1..], if b[0] == 0 then k - 1 else k);
      assert b[..i][1..] == b[1..][..i - 1];
      i
  }

  /** Those two facts single out the cell: no other empty cell has exactly
      k empty cells before it. */
  lemma KthEmptyUnique(b: seq<nat>, k: nat, i: nat)
    requires i < |b| && b[i] == 0 && CountZeros(b[..i]) == k
    ensures k < CountZeros(b) && KthEmpty(b, k) == i
  {
    CountZerosAppend(b[..i], b[i..]);
    assert b == b[..i] + b[i..];
    assert b[i..] == [b[i]] + b[i + 1..];
    CountZerosAppend([b[i]], b[i + 1..]);
    var j := KthEmpty(b, k);
    if j < i {
      CountZerosBefore(b, j, i);
    } else if i < j {
      CountZerosBefore(b, i, j);
    }
  }

  /** An empty cell at j before i makes the count before i larger. */
  lemma CountZerosBefore(b: seq<nat>, j: nat, i: nat)
    requires j < i <= |b| && b[j] == 0
    ensures CountZeros(b[..i]) > CountZeros(b[..j])
  {
    assert b[..i] == b[..j] + b[j..i];
    CountZerosAppend(b[..j], b[j..i]);
    assert b[j..i] == [b[j]] + b[j + 1..i];
    CountZerosAppend([b[j]], b[j + 1..i]);
  }

  /** On the empty board with one tile written at k1, the k2-th empty cell
      is k2 when it comes before k1 and the next cell otherwise. */
  lemma KthEmptyAfterOne(k1: nat, v1: nat, k2: nat)
    requires k1 < TotalSize && v1 != 0 && k2 < TotalSize - 1
    ensures var b := Zeros(TotalSize)[k1 := v1];
      k2 < CountZeros(b) && KthEmpty(b, k2) == if k2 < k1 then k2 else k2 + 1
  {
    var b := Zeros(TotalSize)[k1 := v1];
    var i := if k2 < k1 then k2 else k2 + 1;
    if k2 < k1 {
      assert b[..i] == Zeros(i);
      CountZerosOfZeros(i);
    } else {
      assert b[..i] == Zeros(i)[k1 := v1];
      CountZerosOfZeros(i);
      CountZerosUpdate(Zeros(i), k1, v1);
    }
    KthEmptyUnique(b, k2, i);
  }

  // ---------------------------------------------------------------------
  // The loss check

  /** The cell (x, y) equals its right or its lower neighbour. */
  predicate HasEqualNeighbour(b: seq<nat>, x: int, y: int)
    requires |b| == TotalSize && 0 <= x < Width && 0 <= y < Height
  {
    var cur := b[Flat(x, y)];
    (x + 1 < Width && b[Flat(x + 1, y)] == cur) || (y + 1 < Height && b[Flat(x, y + 1)] == cur)
  }

  /** Some cell equals its right or its lower neighbour. */
  predicate CanMerge(b: seq<nat>)
    requires |b| == TotalSize
  {
    exists x, y :: 0 <= x < Width && 0 <= y < Height && HasEqualNeighbour(b, x, y)
  }

  /** Two horizontally adjacent cells hold the same value. */
  ghost predicate RowPair(b: seq<nat>)
    requires |b| == TotalSize
  {
    exists x, y :: 0 <= x < Width - 1 && 0 <= y < Height && b[Flat(x, y)] == b[Flat(x + 1, y)]
  }

  /** Two vertically adjacent cells hold the same value. */
  ghost predicate ColumnPair(b: seq<nat>)
    requires |b| == TotalSize
  {
    exists x, y :: 0 <= x < Width && 0 <= y < Height - 1 && b[Flat(x, y)] == b[Flat(x, y + 1)]
  }

  lemma CanMergePairs(b: seq<nat>)
    requires |b| == TotalSize
    ensures CanMerge(b) <==> RowPair(b) || ColumnPair(b)
  {
    if CanMerge(b) {
      var x, y :| 0 <= x < Width && 0 <= y < Height && HasEqualNeighbour(b, x, y);
      if x + 1 < Width && b[Flat(x + 1, y)] == b[Flat(x, y)] {
        assert RowPair(b);
      } else {
        assert ColumnPair(b);
      }
    }
    if RowPair(b) {
      var x, y :| 0 <= x < Width - 1 && 0 <= y < Height && b[Flat(x, y)] == b[Flat(x + 1, y)];
      assert HasEqualNeighbour(b, x, y);
    }
    if ColumnPair(b) {
      var x, y :| 0 <= x < Width && 0 <= y < Height - 1 && b[Flat(x, y)] == b[Flat(x, y + 1)];
      assert HasEqualNeighbour(b, x, y);
    }
  }

  /** Some line in direction d has two equal neighbours. */
  ghost predicate LinePair(b: seq<nat>, d: Direction)
    requires |b| == TotalSize
  {
    exists o :: 0 <= o < LineCount(d) && !NoEqualNeighbours(LineOf(b, d, o))
  }

  /** Equal neighbours along the lines of a horizontal move are equal
      neighbours in a row, and along a vertical move in a column. */
  lemma LinePairs(b: seq<nat>, d: Direction)
    requires |b| == TotalSize
    ensures LinePair(b, d) <==> if IsHorizontal(d) then RowPair(b) else ColumnPair(b)
  {
    if LinePair(b, d) {
      LinePairIsPair(b, d);
    }
    if IsHorizontal(d) && RowPair(b) {
      RowPairIsLinePair(b, d);
    }
    if !IsHorizontal(d) && ColumnPair(b) {
      ColumnPairIsLinePair(b, d);
    }
  }

  lemma LinePairIsPair(b: seq<nat>, d: Direction)
    requires |b| == TotalSize && LinePair(b, d)
    ensures if IsHorizontal(d) then RowPair(b) else ColumnPair(b)
  {
    var o :| 0 <= o < LineCount(d) && !NoEqualNeighbours(LineOf(b, d, o));
    var k, m :| 0 <= k < m < LineLength(d) && m == k + 1 && LineOf(b, d, o)[k] == LineOf(b, d, o)[m];
    if IsHorizontal(d) {
      RowNeighbours(b, d, o, k);
    } else {
      ColumnNeighbours(b, d, o, k);
    }
  }

  lemma RowNeighbours(b: seq<nat>, d: Direction, o: int, k: int)
    requires |b| == TotalSize && IsHorizontal(d) && 0 <= o < LineCount(d) && 0 <= k < LineLength(d) - 1
    requires LineOf(b, d, o)[k] == LineOf(b, d, o)[k + 1]
    ensures RowPair(b)
  {
    var x := if d == Lt then k else Width - 2 - k;
    assert b[Flat(x, o)] == b[Flat(x + 1, o)];
  }

  lemma ColumnNeighbours(b: seq<nat>, d: Direction, o: int, k: int)
    requires |b| == TotalSize && !IsHorizontal(d) && 0 <= o < LineCount(d) && 0 <= k < LineLength(d) - 1
    requires LineOf(b, d, o)[k] == LineOf(b, d, o)[k + 1]
    ensures ColumnPair(b)
  {
    var y := if d == Up then k else Height - 2 - k;
    assert b[Flat(o, y)] == b[Flat(o, y + 1)];
  }

  lemma RowPairIsLinePair(b: seq<nat>, d: Direction)
    requires |b| == TotalSize && IsHorizontal(d) && RowPair(b)
    ensures LinePair(b, d)
  {
    var x, y :| 0 <= x < Width - 1 && 0 <= y < Height && b[Flat(x, y)] == b[Flat(x + 1, y)];
    var k := if d == Lt then x else Width - 2 - x;
    var l := LineOf(b, d, y);
    assert l[k] == l[k + 1];
    assert !NoEqualNeighbours(l);
  }

  lemma ColumnPairIsLinePair(b: seq<nat>, d: Direction)
    requires |b| == TotalSize && !IsHorizontal(d) && ColumnPair(b)
    ensures LinePair(b, d)
  {
    var x, y :| 0 <= x < Width && 0 <= y < Height - 1 && b[Flat(x, y)] == b[Flat(x, y + 1)];
    var k := if d == Up then y else Height - 2 - y;
    var l := LineOf(b, d, x);
    assert l[k] == l[k + 1];
    assert !NoEqualNeighbours(l);
  }

  /** On a full board a move changes something exactly when two equal
      neighbours lie along its lines. */
  lemma FullMoveChanges(b: seq<nat>, d: Direction)
    requires |b| == TotalSize && CountZeros(b) == 0
    ensures MoveBoard(b, d) != b <==> LinePair(b, d)
  {
    MoveBoardChanged(b, d);
    forall o | 0 <= o < LineCount(d)
      ensures SlideLine(LineOf(b, d, o)) == LineOf(b, d, o) <==> NoEqualNeighbours(LineOf(b, d, o))
    {
      FullLineSlide(b, d, o);
    }
  }

  /** A line of a full board slides onto itself exactly when no two
      neighbours on it are equal. */
  lemma FullLineSlide(b: seq<nat>, d: Direction, o: int)
    requires |b| == TotalSize && CountZeros(b) == 0 && 0 <= o < LineCount(d)
    ensures SlideLine(LineOf(b, d, o)) == LineOf(b, d, o) <==> NoEqualNeighbours(LineOf(b, d, o))
  {
    NoZerosFull(b);
    var l := LineOf(b, d, o);
    assert forall k :: 0 <= k < |l| ==> l[k] != 0;
    SlideFullLine(l);
  }

  /** The loss check is exact: on a full board, some cell equals its right
      or lower neighbour exactly when some move changes the board. So a
      board declared lost admits no move, and every other board admits
      one. */
  lemma LossCheckExact(b: seq<nat>)
    requires |b| == TotalSize && CountZeros(b) == 0
    ensures CanMerge(b) <==> exists d :: MoveBoard(b, d) != b
  {
    CanMergePairs(b);
    forall d
      ensures MoveBoard(b, d) != b <==> if IsHorizontal(d) then RowPair(b) else ColumnPair(b)
    {
      FullMoveChanges(b, d);
      LinePairs(b, d);
    }
    if CanMerge(b) {
      if RowPair(b) {
        assert MoveBoard(b, Lt) != b;
      } else {
        assert MoveBoard(b, Up) != b;
      }
    }
  }

  // ---------------------------------------------------------------------
  // One tile moved or merged toward the cursor

  /** Outcome of moving or merging one tile: the new board, whether the
      cursor advanced one step away from the leading edge, whether the board
      changed, the points gained and whether the merge produced exactly
      2048. */
  datatype TileMove = TileMove(board: seq<nat>, advanced: bool, moved: bool, gained: nat, won: bool)

  /** When the tile at target is stacked behind a different tile at the
      cursor last, the cell one stride after the cursor is on the board and
      is the target itself or empty. */
  predicate StackRoom(b: seq<nat>, target: nat, last: nat, d: Direction)
    requires |b| == TotalSize && target < TotalSize && last < TotalSize
  {
    var t, c, next := b[target], b[last], last + Stride(d);
    t != 0 && c != 0 && c != t ==> 0 <= next < TotalSize && (next == target || b[next] == 0)
  }

  /** The tile at target moves into an empty cursor cell, merges with an
      equal cursor tile (the cursor then advances), or is stacked right
      after a different one (the cursor advances; nothing changes when the
      tile is already there). An empty target changes nothing. */
  function MoveOrMerge(b: seq<nat>, target: nat, last: nat, d: Direction): (r: TileMove)
    requires |b| == TotalSize && target < TotalSize && last < TotalSize && target != last
    requires StackRoom(b, target, last, d)
    ensures |r.board| == TotalSize
    ensures r.board == b || r.board[target] == 0
    ensures r.gained > 0 ==> r.advanced && r.moved
    ensures r.won <==> r.gained == 2048
  {
    var t, c, next := b[target], b[last], last + Stride(d);
    if t == 0 then TileMove(b, false, false, 0, false)
    else if c == 0 then TileMove(b[last := t][target := 0], false, true, 0, false)
    else if c == t then
      var v := c + t;
      TileMove(b[last := v][target := 0], true, true, v, v == 2048)
    else if next == target then TileMove(b, true, false, 0, false)
    else TileMove(b[next := t][target := 0], true, true, 0, false)
  }

  /** A move or merge keeps the tile total; a merge frees one cell and
      gains points, anything else keeps the number of empty cells. */
  lemma MoveOrMergeCounts(b: seq<nat>, target: nat, last: nat, d: Direction)
    requires |b| == TotalSize && target < TotalSize && last < TotalSize && target != last
    requires StackRoom(b, target, last, d)
    ensures var r := MoveOrMerge(b, target, last, d);
      && Sum(r.board) == Sum(b)
      && CountZeros(r.board) == CountZeros(b) + (if r.gained > 0 then 1 else 0)
  {
    var t, c := b[target], b[last];
    if t == 0 || (c != 0 && c != t && last + Stride(d) == target) {
      assert MoveOrMerge(b, target, last, d).board == b;
    } else if c == 0 {
      MoveCounts(b, target, last, d);
    } else if c == t {
      MergeCounts(b, target, last, d);
    } else {
      StackCounts(b, target, last, d);
    }
  }

  /** Moving into the empty cursor cell keeps the total and the number of
      empty cells. */
  lemma MoveCounts(b: seq<nat>, target: nat, last: nat, d: Direction)
    requires |b| == TotalSize && target < TotalSize && last < TotalSize && target != last
    requires StackRoom(b, target, last, d)
    requires b[target] != 0 && b[last] == 0
    ensures var r := MoveOrMerge(b, target, last, d);
      && Sum(r.board) == Sum(b)
      && CountZeros(r.board) == CountZeros(b)
      && r.gained == 0
  {
    var t := b[target];
    assert MoveOrMerge(b, target, last, d) == TileMove(b[last := t][target := 0], false, true, 0, false);
    MoveCell(b, last, target, t);
  }

  /** A merge keeps the total and frees one cell. */
  lemma MergeCounts(b: seq<nat>, target: nat, last: nat, d: Direction)
    requires |b| == TotalSize && target < TotalSize && last < TotalSize && target != last
    requires StackRoom(b, target, last, d)
    requires b[target] != 0 && b[last] == b[target]
    ensures var r := MoveOrMerge(b, target, last, d);
      && Sum(r.board) == Sum(b)
      && CountZeros(r.board) == CountZeros(b) + 1
      && r.gained > 0
  {
    var v := b[last] + b[target];
    MergeResult(b, target, last, d, v, b[last := v][target := 0]);
    MoveCell(b, last, target, v);
  }

  /** Stacking into the empty cell after the cursor keeps the total and
      the number of empty cells. */
  lemma StackCounts(b: seq<nat>, target: nat, last: nat, d: Direction)
    requires |b| == TotalSize && target < TotalSize && last < TotalSize && target != last
    requires StackRoom(b, target, last, d)
    requires b[target] != 0 && b[last] != 0 && b[last] != b[target] && last + Stride(d) != target
    ensures var r := MoveOrMerge(b, target, last, d);
      && Sum(r.board) == Sum(b)
      && CountZeros(r.board) == CountZeros(b)
      && r.gained == 0
  {
    var t, next := b[target], last + Stride(d);
    StackResult(b, target, last, d, next, b[next := t][target := 0]);
    MoveCell(b, next, target, t);
  }

  /** The result reports a move exactly when the board changed. */
  lemma MoveOrMergeMoved(b: seq<nat>, target: nat, last: nat, d: Direction)
    requires |b| == TotalSize && target < TotalSize && last < TotalSize && target != last
    requires StackRoom(b, target, last, d)
    ensures var r := MoveOrMerge(b, target, last, d); r.moved <==> r.board != b
  {
    var r := MoveOrMerge(b, target, last, d);
    if r.moved {
      assert r.board[target] != b[target];
    }
  }

  /** Writing v at a and clearing the nonzero cell j: the total changes by
      what is overwritten at a, and so does the empty count. */
  lemma MoveCell(b: seq<nat>, a: nat, j: nat, v: nat)
    requires a < |b| && j < |b| && a != j && b[j] != 0 && v != 0
    ensures Sum(b[a := v][j := 0]) + b[a] + b[j] == Sum(b) + v
    ensures CountZeros(b[a := v][j := 0]) == CountZeros(b) + (if b[a] == 0 then 0 else 1)
  {
    SumUpdate(b, a, v);
    SumUpdate(b[a := v], j, 0);
    CountZerosUpdate(b, a, v);
    CountZerosUpdate(b[a := v], j, 0);
  }

  // ---------------------------------------------------------------------
  // One tile on the board is one step of the pass on its line

  /** The cursor and scan cells of the pass on line o, with the cells
      between them empty. */
  ghost predicate PassPlaces(b0: seq<nat>, d: Direction, o: int, st: Cursor, j: nat)
  {
    && |b0| == TotalSize && 0 <= o < LineCount(d)
    && |st.line| == LineLength(d) && st.last < j < LineLength(d)
    && (forall k :: st.last < k < j ==> st.line[k] == 0)
  }

  /** The in-place move-or-merge of the tile at offset j toward the cursor
      does on the board what one step of the line pass does on the line. */
  ghost predicate TileIsStep(b0: seq<nat>, d: Direction, o: int, st: Cursor, j: nat)
    requires PassPlaces(b0, d, o, st, j)
  {
    var b, target, last := SetLine(b0, d, o, st.line), Cell(d, o, j), Cell(d, o, st.last);
    && target != last
    && StackRoom(b, target, last, d)
    && var r, st' := MoveOrMerge(b, target, last, d), Step(st, j);
       && r.board == SetLine(b0, d, o, st'.line)
       && r.advanced == (st'.last == st.last + 1)
       && st'.gained == st.gained + r.gained
       && st'.won == (st.won || r.won)
       && st'.moved == (st.moved || r.moved)
  }

  /** On line o, moving or merging the tile at offset j toward the cursor
      is one step of the line pass. */
  lemma MoveOrMergeIsStep(b0: seq<nat>, d: Direction, o: int, st: Cursor, j: nat)
    requires PassPlaces(b0, d, o, st, j)
    ensures TileIsStep(b0, d, o, st, j)
  {
    var s, c := st.line, st.last;
    if s[j] == 0 || (s[c] != 0 && s[c] != s[j] && c + 1 == j) {
      StepKeeps(b0, d, o, st, j);
    } else if s[c] == 0 {
      StepMoves(b0, d, o, st, j);
    } else if s[c] == s[j] {
      StepMerges(b0, d, o, st, j);
    } else {
      StepStacks(b0, d, o, st, j);
    }
  }

  /** The board holds the line's cells at the cursor, the cell after it and
      the scan offset; the cell after the cursor is one stride further. */
  lemma PassCells(b0: seq<nat>, d: Direction, o: int, st: Cursor, j: nat)
    requires PassPlaces(b0, d, o, st, j)
    ensures var b, s, c := SetLine(b0, d, o, st.line), st.line, st.last;
      && Cell(d, o, j) != Cell(d, o, c)
      && Cell(d, o, c) + Stride(d) == Cell(d, o, c + 1)
      && b[Cell(d, o, j)] == s[j] && b[Cell(d, o, c)] == s[c] && b[Cell(d, o, c + 1)] == s[c + 1]
  {
    var s, c := st.line, st.last;
    SetLineLines(b0, d, o, s);
    var l := LineOf(SetLine(b0, d, o, s), d, o);
    assert l[j] == s[j] && l[c] == s[c] && l[c + 1] == s[c + 1];
    CellInjective(d, o, j, o, c);
    CellStep(d, o, c);
  }

  /** Writing v at offset a and clearing offset j of line o, on the board
      or on the line, agree. */
  lemma StepWrite(b0: seq<nat>, d: Direction, o: int, s: seq<nat>, a: int, v: nat, j: int)
    requires |b0| == TotalSize && 0 <= o < LineCount(d) && |s| == LineLength(d)
    requires 0 <= a < LineLength(d) && 0 <= j < LineLength(d)
    ensures SetLine(b0, d, o, s)[Cell(d, o, a) := v][Cell(d, o, j) := 0]
         == SetLine(b0, d, o, s[a := v][j := 0])
  {
    SetLineUpdate(b0, d, o, s, a, v);
    SetLineUpdate(b0, d, o, s[a := v], j, 0);
  }

  /** An empty tile, or a tile already right behind a different cursor
      tile, changes nothing. */
  lemma StepKeeps(b0: seq<nat>, d: Direction, o: int, st: Cursor, j: nat)
    requires PassPlaces(b0, d, o, st, j)
    requires var s, c := st.line, st.last; s[j] == 0 || (s[c] != 0 && s[c] != s[j] && c + 1 == j)
    ensures TileIsStep(b0, d, o, st, j)
  {
    PassCells(b0, d, o, st, j);
    var s, c := st.line, st.last;
    var b, target, last := SetLine(b0, d, o, s), Cell(d, o, j), Cell(d, o, c);
    var r, st' := MoveOrMerge(b, target, last, d), Step(st, j);
    if s[j] == 0 {
      assert r.board == b && !r.advanced && !r.moved && r.gained == 0 && !r.won;
      assert st' == st;
    } else {
      assert r.board == b && r.advanced && !r.moved && r.gained == 0 && !r.won;
      assert st' == st.(last := c + 1);
    }
  }

  /** A tile moves into the empty cursor cell. */
  lemma StepMoves(b0: seq<nat>, d: Direction, o: int, st: Cursor, j: nat)
    requires PassPlaces(b0, d, o, st, j)
    requires var s, c := st.line, st.last; s[j] != 0 && s[c] == 0
    ensures TileIsStep(b0, d, o, st, j)
  {
    PassCells(b0, d, o, st, j);
    var s, c := st.line, st.last;
    var b, target, last := SetLine(b0, d, o, s), Cell(d, o, j), Cell(d, o, c);
    StepWrite(b0, d, o, s, c, s[j], j);
    var r, st' := MoveOrMerge(b, target, last, d), Step(st, j);
    assert r.board == SetLine(b0, d, o, s[c := s[j]][j := 0]);
    assert !r.advanced && r.moved && r.gained == 0 && !r.won;
    assert st'.line == s[c := s[j]][j := 0] && st'.last == c;
    assert st'.gained == st.gained && st'.won == st.won && st'.moved;
  }

  /** A tile merges into an equal cursor tile. */
  lemma StepMerges(b0: seq<nat>, d: Direction, o: int, st: Cursor, j: nat)
    requires PassPlaces(b0, d, o, st, j)
    requires var s, c := st.line, st.last; s[j] != 0 && s[c] == s[j]
    ensures TileIsStep(b0, d, o, st, j)
  {
    PassCells(b0, d, o, st, j);
    var s, c := st.line, st.last;
    var b, target, last := SetLine(b0, d, o, s), Cell(d, o, j), Cell(d, o, c);
    var v := s[c] + s[j];
    StepWrite(b0, d, o, s, c, v, j);
    MergeResult(b, target, last, d, v, SetLine(b0, d, o, s[c := v][j := 0]));
    StepMergeResult(st, j, v);
    var r, st' := MoveOrMerge(b, target, last, d), Step(st, j);
    assert r.board == SetLine(b0, d, o, st'.line);
    assert r.advanced == (st'.last == st.last + 1);
    assert st'.gained == st.gained + r.gained;
    assert st'.won == (st.won || r.won);
    assert st'.moved == (st.moved || r.moved);
  }

  /** An empty target changes nothing. */
  lemma EmptyTargetResult(b: seq<nat>, target: nat, last: nat, d: Direction)
    requires |b| == TotalSize && target < TotalSize && last < TotalSize && target != last
    requires StackRoom(b, target, last, d)
    requires b[target] == 0
    ensures MoveOrMerge(b, target, last, d) == TileMove(b, false, false, 0, false)
  {
  }

  /** A tile moves into the empty cursor cell; the cursor stays. */
  lemma MoveIntoResult(b: seq<nat>, target: nat, last: nat, d: Direction)
    requires |b| == TotalSize && target < TotalSize && last < TotalSize && target != last
    requires StackRoom(b, target, last, d)
    requires b[target] != 0 && b[last] == 0
    ensures MoveOrMerge(b, target, last, d) == TileMove(b[last := b[target]][target := 0], false, true, 0, false)
  {
  }

  /** A tile already right after a different cursor tile stays; the
      cursor advances onto it. */
  lemma AdjacentResult(b: seq<nat>, target: nat, last: nat, d: Direction)
    requires |b| == TotalSize && target < TotalSize && last < TotalSize && target != last
    requires StackRoom(b, target, last, d)
    requires b[target] != 0 && b[last] != 0 && b[last] != b[target] && last + Stride(d) == target
    ensures MoveOrMerge(b, target, last, d) == TileMove(b, true, false, 0, false)
  {
  }

  /** What a merge does: the cursor cell takes the sum v, the target is
      cleared, the cursor advances and v is gained. The new board is named
      nb. */
  lemma MergeResult(b: seq<nat>, target: nat, last: nat, d: Direction, v: nat, nb: seq<nat>)
    requires |b| == TotalSize && target < TotalSize && last < TotalSize && target != last
    requires StackRoom(b, target, last, d)
    requires b[target] != 0 && b[last] == b[target] && v == b[last] + b[target]
    requires nb == b[last := v][target := 0]
    ensures var r := MoveOrMerge(b, target, last, d);
      && r.board == nb && r.advanced
      && r.moved && r.gained == v && r.won == (v == 2048)
  {
  }

  /** What a merge does to the pass: the cursor cell takes the sum, the
      scanned cell is cleared, the cursor advances and the sum is gained. */
  lemma StepMergeResult(st: Cursor, j: nat, v: nat)
    requires st.last < j < |st.line| && st.line[j] != 0 && st.line[st.last] == st.line[j]
    requires v == st.line[st.last] + st.line[j]
    ensures var r, c := Step(st, j), st.last;
      && r.line == st.line[c := v][j := 0] && r.last == c + 1
      && r.gained == st.gained + v && r.won == (st.won || v == 2048) && r.moved
  {
  }

  /** A tile is stacked right behind a different cursor tile. */
  lemma StepStacks(b0: seq<nat>, d: Direction, o: int, st: Cursor, j: nat)
    requires PassPlaces(b0, d, o, st, j)
    requires var s, c := st.line, st.last; s[j] != 0 && s[c] != 0 && s[c] != s[j] && c + 1 != j
    ensures TileIsStep(b0, d, o, st, j)
  {
    PassCells(b0, d, o, st, j);
    var s, c := st.line, st.last;
    var b, target, last := SetLine(b0, d, o, s), Cell(d, o, j), Cell(d, o, c);
    StackCell(b0, d, o, st, j);
    StepWrite(b0, d, o, s, c + 1, s[j], j);
    StackResult(b, target, last, d, Cell(d, o, c + 1), SetLine(b0, d, o, s[c + 1 := s[j]][j := 0]));
    StepStackResult(st, j);
    var r, st' := MoveOrMerge(b, target, last, d), Step(st, j);
    assert r.board == SetLine(b0, d, o, st'.line);
    assert r.advanced == (st'.last == st.last + 1);
    assert st'.gained == st.gained + r.gained;
    assert st'.won == (st.won || r.won);
    assert st'.moved == (st.moved || r.moved);
  }

  /** When a tile is stacked, the cell after the cursor lies before the
      scanned cell and is empty. */
  lemma StackCell(b0: seq<nat>, d: Direction, o: int, st: Cursor, j: nat)
    requires PassPlaces(b0, d, o, st, j)
    requires var s, c := st.line, st.last; s[j] != 0 && s[c] != 0 && s[c] != s[j] && c + 1 != j
    ensures st.last + 1 < j && st.line[st.last + 1] == 0 && Cell(d, o, st.last + 1) != Cell(d, o, j)
  {
    CellInjective(d, o, st.last + 1, o, j);
  }

  /** What stacking does: the tile moves to the cell next after the
      cursor, which it was not in, and the cursor advances to it. The new
      board is named nb. */
  lemma StackResult(b: seq<nat>, target: nat, last: nat, d: Direction, next: int, nb: seq<nat>)
    requires |b| == TotalSize && target < TotalSize && last < TotalSize && target != last
    requires StackRoom(b, target, last, d)
    requires b[target] != 0 && b[last] != 0 && b[last] != b[target]
    requires next == last + Stride(d) && next != target
    requires 0 <= next < TotalSize && nb == b[next := b[target]][target := 0]
    ensures var r := MoveOrMerge(b, target, last, d);
      && r.board == nb && r.advanced
      && r.moved && r.gained == 0 && !r.won
  {
  }

  /** What stacking does to the pass: the scanned tile moves to the cell
      after the cursor and the cursor advances to it. */
  lemma StepStackResult(st: Cursor, j: nat)
    requires st.last < j < |st.line| && st.line[j] != 0
    requires st.line[st.last] != 0 && st.line[st.last] != st.line[j] && st.last + 1 != j
    ensures var r, c := Step(st, j), st.last;
      && r.line == st.line[c + 1 := st.line[j]][j := 0] && r.last == c + 1
      && r.gained == st.gained && r.won == st.won && r.moved
  {
  }

  // ---------------------------------------------------------------------
  // The same in cell coordinates, as the game addresses its cells

  /** StackRoom stated on cell coordinates: when the tile at target is
      stacked behind a different tile at last, the cell after last is on
      the board and is the target itself or empty. */
  predicate CanStack(b: seq<nat>, target: Pos, last: Pos, d: Direction)
    requires |b| == TotalSize && IsTilePosValid(target) && IsTilePosValid(last)
  {
    var t, c, next := b[Index(target)], b[Index(last)], Advance(last, d);
    t != 0 && c != 0 && c != t ==> IsTilePosValid(next) && (next == target || b[Index(next)] == 0)
  }

  lemma CanStackRoom(b: seq<nat>, target: Pos, last: Pos, d: Direction)
    requires |b| == TotalSize && IsTilePosValid(target) && IsTilePosValid(last)
    requires CanStack(b, target, last, d)
    ensures StackRoom(b, Index(target), Index(last), d)
  {
    if b[Index(target)] != 0 && b[Index(last)] != 0 && b[Index(last)] != b[Index(target)] {
      StackRoomAt(b, target, last, d);
    }
  }

  /** The cell after the cursor, on flat indices. */
  lemma StackRoomAt(b: seq<nat>, target: Pos, last: Pos, d: Direction)
    requires |b| == TotalSize && IsTilePosValid(target) && IsTilePosValid(last)
    requires IsTilePosValid(Advance(last, d)) && (Advance(last, d) == target || b[Index(Advance(last, d))] == 0)
    ensures 0 <= Index(last) + Stride(d) < TotalSize
    ensures Index(last) + Stride(d) == Index(target) || b[Index(last) + Stride(d)] == 0
  {
    var next := Advance(last, d);
    AdvanceIndex(last, d);
    assert Index(next) == Index(last) + Stride(d);
  }

  /** On line o, the game's scan cell LinePos(d, o, j) and cursor cell
      LinePos(d, o, st.last) are distinct cells of the board with room to
      stack; their flat indices are the line's cells. */
  lemma PassTileCells(b0: seq<nat>, d: Direction, o: int, st: Cursor, j: nat)
    requires PassPlaces(b0, d, o, st, j)
    ensures var b, target, last := SetLine(b0, d, o, st.line), LinePos(d, o, j), LinePos(d, o, st.last);
      && IsTilePosValid(target) && IsTilePosValid(last) && target != last
      && Index(target) == Cell(d, o, j) && Index(last) == Cell(d, o, st.last)
      && Advance(last, d) == LinePos(d, o, st.last + 1)
      && Index(Advance(last, d)) == Cell(d, o, st.last + 1) && Cell(d, o, st.last + 1) != Cell(d, o, st.last)
      && CanStack(b, target, last, d)
  {
    var b, c := SetLine(b0, d, o, st.line), st.last;
    var target, last := LinePos(d, o, j), LinePos(d, o, c);
    PassCells(b0, d, o, st, j);
    CellIndex(d, o, j);
    CellIndex(d, o, c);
    CellIndex(d, o, c + 1);
    LinePosStep(d, o, c);
    CellInjective(d, o, c, o, c + 1);
    if c + 1 < j {
      assert st.line[c + 1] == 0;
    }
  }

  /** Moving or merging the tile at the game's scan cell toward its cursor
      cell is one step of the pass, and the cursor the game keeps
      afterwards is the pass's new cursor. */
  lemma PassTile(b0: seq<nat>, d: Direction, o: int, st: Cursor, j: nat)
    requires PassPlaces(b0, d, o, st, j)
    ensures var b, target, last := SetLine(b0, d, o, st.line), LinePos(d, o, j), LinePos(d, o, st.last);
      && IsTilePosValid(target) && IsTilePosValid(last) && target != last
      && Index(target) != Index(last) && CanStack(b, target, last, d)
      && StackRoom(b, Index(target), Index(last), d)
      && var r, st' := MoveOrMerge(b, Index(target), Index(last), d), Step(st, j);
         && r.board == SetLine(b0, d, o, st'.line)
         && (if r.advanced then Advance(last, d) else last) == LinePos(d, o, st'.last)
         && st'.gained == st.gained + r.gained
         && st'.won == (st.won || r.won)
         && st'.moved == (st.moved || r.moved)
  {
    var b, c := SetLine(b0, d, o, st.line), st.last;
    var target, last := LinePos(d, o, j), LinePos(d, o, c);
    PassTileCells(b0, d, o, st, j);
    MoveOrMergeIsStep(b0, d, o, st, j);
  }

  /** One iteration of the game's scan over line o, stated on the pass
      over the line: the tile at offset j and the cursor the pass keeps
      are distinct cells with room to stack, and moving or merging the
      tile takes the board and the cursor to the pass's next state. */
  lemma PassAdvance(b0: seq<nat>, d: Direction, o: int, j: nat)
    requires |b0| == TotalSize && 0 <= o < LineCount(d) && 1 <= j < LineLength(d)
    ensures var l := LineOf(b0, d, o);
      var st, st' := Pass(l, j), Pass(l, j + 1);
      var b, target, last := SetLine(b0, d, o, st.line), LinePos(d, o, j), LinePos(d, o, st.last);
      && IsTilePosValid(target) && IsTilePosValid(last) && target != last
      && CanStack(b, target, last, d)
      && StackRoom(b, Index(target), Index(last), d)
      && var r := MoveOrMerge(b, Index(target), Index(last), d);
         && r.board == SetLine(b0, d, o, st'.line)
         && (if r.advanced then Advance(last, d) else last) == LinePos(d, o, st'.last)
         && st'.gained == st.gained + r.gained
         && st'.won == (st.won || r.won)
         && st'.moved == (st.moved || r.moved)
  {
    var l := LineOf(b0, d, o);
    PassKeepsInv(l, j);
    PassTile(b0, d, o, Pass(l, j), j);
  }
}
