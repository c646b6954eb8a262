/** The game object: a 4x4 board held in place as a flat row-major array,
    the number of empty cells, the score and the game status, with the
    operations that change them step by step. The random choices of the
    original (where a tile is spawned and whether it is a 2 or a 4) are
    parameters: k is the index of the chosen cell among the empty cells in
    row-major order and v is the value. */
module Game {
  import opened Line
  import opened Board

  class Game2048 {
    const tiles: array<nat>
    var emptyCount: nat
    var score: nat
    var status: GameStatus

    /** The board has 16 cells and the empty count is the number of empty
        cells. */
    ghost predicate Valid()
      reads this, tiles
    {
      tiles.Length == TotalSize && emptyCount == CountZeros(tiles[..])
    }

    /** A fresh game: every cell empty, 16 empty cells, no score, in game. */
    constructor ()
      ensures Valid() && fresh(tiles)
      ensures tiles[..] == Zeros(TotalSize) && emptyCount == TotalSize && score == 0 && status == InGame
    {
      tiles := new nat[TotalSize](_ => 0);
      emptyCount, score, status := TotalSize, 0, InGame;
      new;
      assert tiles[..] == Zeros(TotalSize);
      CountZerosOfZeros(TotalSize);
    }

    /** The value at a cell. */
    function GetTile(p: Pos): nat
      reads this, tiles
      requires tiles.Length == TotalSize && IsTilePosValid(p)
    {
      tiles[Index(p)]
    }

    /** The value at a cell is column x of row y: offset x of row y and
        offset y of column x. */
    lemma GetTileOnLines(p: Pos)
      requires tiles.Length == TotalSize && IsTilePosValid(p)
      ensures GetTile(p) == LineOf(tiles[..], Lt, p.y)[p.x]
      ensures GetTile(p) == LineOf(tiles[..], Up, p.x)[p.y]
    {
    }

    /** Looks at every cell in row-major order for a right or lower
        neighbour holding the same value. */
    method HasPossibleMerges() returns (r: bool)
      requires Valid()
      ensures r == CanMerge(tiles[..])
    {
      var y := 0;
      while y < Height
        invariant 0 <= y <= Height
        invariant forall y', x' :: 0 <= y' < y && 0 <= x' < Width ==> !HasEqualNeighbour(tiles[..], x', y')
      {
        var x := 0;
        while x < Width
          invariant 0 <= x <= Width
          invariant forall y', x' :: 0 <= y' < y && 0 <= x' < Width ==> !HasEqualNeighbour(tiles[..], x', y')
          invariant forall x' :: 0 <= x' < x ==> !HasEqualNeighbour(tiles[..], x', y)
        {
          var cur := tiles[Flat(x, y)];
          if (x + 1 < Width && tiles[Flat(x + 1, y)] == cur) || (y + 1 < Height && tiles[Flat(x, y + 1)] == cur) {
            assert HasEqualNeighbour(tiles[..], x, y);
            return true;
          }
          x := x + 1;
        }
        y := y + 1;
      }
      return false;
    }

    /** With no empty cell nothing happens and false is returned. Otherwise
        v is written into the k-th empty cell in row-major order, the empty
        count goes down by one, and if the board is now full and no cell
        equals its right or lower neighbour the game is lost. */
    method SpawnRandomTile(k: nat, v: nat) returns (spawned: bool)
      requires Valid() && (v == 2 || v == 4)
      requires emptyCount > 0 ==> k < emptyCount
      modifies this, tiles
      ensures Valid()
      ensures spawned == (old(emptyCount) > 0)
      ensures !spawned ==> tiles[..] == old(tiles[..]) && emptyCount == old(emptyCount)
      ensures spawned ==> tiles[..] == old(tiles[..])[KthEmpty(old(tiles[..]), k) := v] && emptyCount == old(emptyCount) - 1
      ensures score == old(score)
      ensures status == if spawned && emptyCount == 0 && !CanMerge(tiles[..]) then LostGame else old(status)
    {
      if emptyCount == 0 {
        return false;
      }
      ghost var b := tiles[..];
      ghost var at := KthEmpty(b, k);
      emptyCount := emptyCount - 1;
      var targetPos := k;
      var i := 0;
      while i < TotalSize
        invariant 0 <= i <= at
        invariant tiles[..] == b
        invariant targetPos + CountZeros(b[..i]) == k
        modifies tiles
      {
        CountZerosPrefix(b, i);
        if tiles[i] != 0 {
          i := i + 1;
          continue;
        }
        if targetPos != 0 {
          targetPos := targetPos - 1;
          i := i + 1;
          continue;
        }
        KthEmptyUnique(b, k, i);
        tiles[i] := v;
        break;
      }
      assert tiles[..] == b[at := v];
      CountZerosUpdate(b, at, v);
      if emptyCount == 0 {
        var canMerge := HasPossibleMerges();
        if !canMerge {
          status := LostGame;
        }
      }
      return true;
    }

    /** Moves or merges the tile at target toward the cursor last: into an
        empty cursor cell it moves; onto an equal tile it merges, the empty
        count goes up, the merged value is added to the score, a 2048 wins
        the game and the cursor advances; onto a different tile it is
        stacked in the next cell, where the cursor advances to. Returns
        whether the board changed, and the new cursor. */
    method MoveOrMergeTile(target: Pos, last: Pos, d: Direction) returns (moved: bool, newLast: Pos)
      requires Valid()
      requires IsTilePosValid(target) && IsTilePosValid(last) && target != last
      requires CanStack(tiles[..], target, last, d)
      modifies this, tiles
      ensures Valid()
      ensures StackRoom(old(tiles[..]), Index(target), Index(last), d)
      ensures tiles[..] == MoveOrMerge(old(tiles[..]), Index(target), Index(last), d).board
      ensures moved == MoveOrMerge(old(tiles[..]), Index(target), Index(last), d).moved
      ensures newLast == if MoveOrMerge(old(tiles[..]), Index(target), Index(last), d).advanced then Advance(last, d) else last
      ensures score == old(score) + MoveOrMerge(old(tiles[..]), Index(target), Index(last), d).gained
      ensures status == if MoveOrMerge(old(tiles[..]), Index(target), Index(last), d).won then WinGame else old(status)
    {
      ghost var b := tiles[..];
      var ti, li := Index(target), Index(last);
      IndexInjective(target, last);
      CanStackRoom(b, target, last, d);
      MoveOrMergeCounts(b, ti, li, d);
      newLast := last;
      if GetTile(target) == 0 {
        EmptyTargetResult(b, ti, li, d);
        return false, newLast;
      }
      var valTarget := GetTile(target);
      var valLast := GetTile(last);
      if valLast == 0 {
        MoveIntoResult(b, ti, li, d);
        tiles[li] := valTarget;
        tiles[ti] := 0;
        assert tiles[..] == b[li := valTarget][ti := 0];
      } else if valLast == valTarget {
        valLast := valLast + valTarget;
        MergeResult(b, ti, li, d, valLast, b[li := valLast][ti := 0]);
        tiles[li] := valLast;
        tiles[ti] := 0;
        assert tiles[..] == b[li := valLast][ti := 0];
        newLast := Advance(newLast, d);
        emptyCount := emptyCount + 1;
        score := score + valLast;
        if valLast == 2048 {
          status := WinGame;
        }
      } else {
        newLast := Advance(newLast, d);
        AdvanceIndex(last, d);
        if newLast == target {
          AdjacentResult(b, ti, li, d);
          return false, newLast;
        }
        var ni := Index(newLast);
        IndexInjective(newLast, target);
        StackResult(b, ti, li, d, ni, b[ni := valTarget][ti := 0]);
        tiles[ni] := valTarget;
        tiles[ti] := 0;
        assert tiles[..] == b[ni := valTarget][ti := 0];
      }
      moved := true;
    }

    /** Step j of the scan of line o: the tile at line position j is moved
        or merged toward the cursor last, which is how the pass function
        advances from step j to step j + 1. */
    method ScanStep(d: Direction, o: int, ghost b0: seq<nat>, ghost j: nat, ghost st: Cursor, ghost st': Cursor, target: Pos, last: Pos)
      returns (moved: bool, newLast: Pos)
      requires Valid() && |b0| == TotalSize && 0 <= o < LineCount(d) && 1 <= j < LineLength(d)
      requires st == Pass(LineOf(b0, d, o), j) && st' == Pass(LineOf(b0, d, o), j + 1)
      requires tiles[..] == SetLine(b0, d, o, st.line)
      requires target == LinePos(d, o, j) && last == LinePos(d, o, st.last)
      requires st.won ==> status == WinGame
      modifies this, tiles
      ensures Valid()
      ensures tiles[..] == SetLine(b0, d, o, st'.line)
      ensures newLast == LinePos(d, o, st'.last)
      ensures st'.moved == (st.moved || moved)
      ensures score + st.gained == old(score) + st'.gained
      ensures st.won ==> st'.won
      ensures status == if st'.won then WinGame else old(status)
    {
      PassAdvance(b0, d, o, j);
      ghost var r := MoveOrMerge(tiles[..], Index(target), Index(last), d);
      moved, newLast := MoveOrMergeTile(target, last, d);
      assert tiles[..] == r.board;
    }

    /** One pass of the outer loop of ProcessMove over line `outer`: the
        cursor starts on the leading cell and the scan walks the other cells
        from the leading edge away, each tile moved or merged toward the
        cursor. The line ends up slid as SlideLine says, with its points
        added and a 2048 winning. The scan bounds are the ones ProcessMove
        computes for direction d. */
    method ProcessLine(d: Direction, outer: int, horizontal: bool, innerFirst: int, innerBeg: int, innerEnd: int, innerStep: int)
      returns (moved: bool)
      requires Valid() && 0 <= outer < LineCount(d)
      requires horizontal == IsHorizontal(d)
      requires d == Up || d == Lt ==> innerFirst == 0 && innerBeg == 1 && innerEnd == LineLength(d) && innerStep == 1
      requires d == Dn || d == Rt ==> innerFirst == LineLength(d) - 1 && innerBeg == innerFirst - 1 && innerEnd == -1 && innerStep == -1
      modifies this, tiles
      ensures Valid()
      ensures tiles[..] == SetLine(old(tiles[..]), d, outer, SlideLine(LineOf(old(tiles[..]), d, outer)))
      ensures moved == (SlideLine(LineOf(old(tiles[..]), d, outer)) != LineOf(old(tiles[..]), d, outer))
      ensures score == old(score) + LineScore(LineOf(old(tiles[..]), d, outer))
      ensures status == if LineWins(LineOf(old(tiles[..]), d, outer)) then WinGame else old(status)
    {
      var pLast := if horizontal then Pos(innerFirst, outer) else Pos(outer, innerFirst);
      var pTarget := if horizontal then Pos(0, outer) else Pos(outer, 0);
      ghost var l := LineOf(tiles[..], d, outer);
      moved := ScanLine(d, outer, horizontal, innerFirst, innerBeg, innerEnd, innerStep, pLast, pTarget);
      PassIsSlide(l);
    }

    /** The inner loop of ProcessMove over line `outer`, from the cursor on
        the leading cell: it runs the whole pass over the line. */
    method ScanLine(d: Direction, outer: int, horizontal: bool, innerFirst: int, innerBeg: int, innerEnd: int, innerStep: int,
                    pLast: Pos, pTarget: Pos)
      returns (moved: bool)
      requires Valid() && 0 <= outer < LineCount(d)
      requires horizontal == IsHorizontal(d)
      requires d == Up || d == Lt ==> innerFirst == 0 && innerBeg == 1 && innerEnd == LineLength(d) && innerStep == 1
      requires d == Dn || d == Rt ==> innerFirst == LineLength(d) - 1 && innerBeg == innerFirst - 1 && innerEnd == -1 && innerStep == -1
      requires pLast == LinePos(d, outer, 0)
      requires if horizontal then pTarget.y == outer else pTarget.x == outer
      modifies this, tiles
      ensures Valid()
      ensures tiles[..] == SetLine(old(tiles[..]), d, outer, Pass(LineOf(old(tiles[..]), d, outer), LineLength(d)).line)
      ensures moved == Pass(LineOf(old(tiles[..]), d, outer), LineLength(d)).moved
      ensures score == old(score) + Pass(LineOf(old(tiles[..]), d, outer), LineLength(d)).gained
      ensures status == if Pass(LineOf(old(tiles[..]), d, outer), LineLength(d)).won then WinGame else old(status)
    {
      ghost var bo := tiles[..];
      ghost var l := LineOf(bo, d, outer);
      SetLineSelf(bo, d, outer);
      ghost var j := 1;
      ghost var st := Pass(l, j);
      moved := false;
      var inner, cursor, target := innerBeg, pLast, pTarget;
      while inner != innerEnd
        invariant 1 <= j <= LineLength(d)
        invariant inner == if innerStep == 1 then j else innerFirst - j
        invariant st == Pass(l, j)
        invariant tiles[..] == SetLine(bo, d, outer, st.line)
        invariant cursor == LinePos(d, outer, st.last)
        invariant if horizontal then target.y == outer else target.x == outer
        invariant Valid()
        invariant moved == st.moved
        invariant score == old(score) + st.gained
        invariant status == if st.won then WinGame else old(status)
        decreases LineLength(d) - j
      {
        if horizontal {
          target := target.(x := inner);
        } else {
          target := target.(y := inner);
        }
        ghost var next := j + 1;
        ghost var st' := Pass(l, next);
        var m;
        m, cursor := ScanStep(d, outer, bo, j, st, st', target, cursor);
        moved := moved || m;
        j, st := next, st';
        inner := inner + innerStep;
      }
      assert j == LineLength(d);
    }

    /** The outer loop of ProcessMove: every line, in the order the
        direction gives, is slid by ProcessLine. Together they make the
        board MoveBoard says, add MoveScore to the score and win exactly
        when MoveWins; whether anything moved is whether the board
        changed. */
    method SlideLines(d: Direction, horizontal: bool, outerEnd: int, innerFirst: int, innerBeg: int, innerEnd: int, innerStep: int)
      returns (moved: bool)
      requires Valid() && status == InGame
      requires horizontal == IsHorizontal(d) && outerEnd == LineCount(d)
      requires d == Up || d == Lt ==> innerFirst == 0 && innerBeg == 1 && innerEnd == LineLength(d) && innerStep == 1
      requires d == Dn || d == Rt ==> innerFirst == LineLength(d) - 1 && innerBeg == innerFirst - 1 && innerEnd == -1 && innerStep == -1
      modifies this, tiles
      ensures Valid()
      ensures tiles[..] == MoveBoard(old(tiles[..]), d)
      ensures moved == (tiles[..] != old(tiles[..]))
      ensures score == old(score) + MoveScore(old(tiles[..]), d)
      ensures status == if MoveWins(old(tiles[..]), d) then WinGame else InGame
    {
      ghost var b0, score0 := tiles[..], score;
      moved := false;
      var outer := 0;
      while outer != outerEnd
        invariant 0 <= outer <= outerEnd
        invariant Valid()
        invariant tiles[..] == MovePrefix(b0, d, outer)
        invariant moved == (tiles[..] != b0)
        invariant score == score0 + ScorePrefix(b0, d, outer)
        invariant status == if WinsPrefix(b0, d, outer) then WinGame else InGame
      {
        var next := outer + 1;
        MovePrefixStep(b0, d, outer, next);
        var lineMoved := ProcessLine(d, outer, horizontal, innerFirst, innerBeg, innerEnd, innerStep);
        moved := moved || lineMoved;
        outer := next;
      }
    }

    /** One move in direction d. Outside InGame nothing happens. Otherwise
        every line is slid toward the leading edge, the points are added, a
        2048 wins, and when something moved and the game was not won a tile
        is spawned (k and v as for SpawnRandomTile, counted on the board
        after the move). Returns whether anything moved or merged. */
    method ProcessMove(d: Direction, k: nat, v: nat) returns (moved: bool)
      requires Valid() && (v == 2 || v == 4)
      requires status == InGame && MoveBoard(tiles[..], d) != tiles[..] && !MoveWins(tiles[..], d)
        ==> k < CountZeros(MoveBoard(tiles[..], d))
      modifies this, tiles
      ensures Valid()
      ensures old(status) != InGame ==>
        && !moved && tiles[..] == old(tiles[..]) && emptyCount == old(emptyCount)
        && score == old(score) && status == old(status)
      ensures old(status) == InGame ==>
        var b, m := old(tiles[..]), MoveBoard(old(tiles[..]), d);
        && moved == (m != b)
        && score == old(score) + MoveScore(b, d)
        && if !moved then tiles[..] == b && status == InGame && score == old(score)
           else if MoveWins(b, d) then tiles[..] == m && status == WinGame
           else
             && tiles[..] == m[KthEmpty(m, k) := v]
             && status == (if CountZeros(tiles[..]) == 0 && !CanMerge(tiles[..]) then LostGame else InGame)
      ensures score >= old(score)
    {
      if status != InGame {
        return false;
      }
      ghost var b0 := tiles[..];

      var horizontal := d == Lt || d == Rt;
      var outerEnd := if horizontal then Height else Width;
      var innerFirst, innerBeg, innerEnd, innerStep;
      if d == Up || d == Lt {
        innerFirst := 0;
        innerBeg := innerFirst + 1;
        innerEnd := if horizontal then Width else Height;
        innerStep := 1;
      } else {
        innerFirst := (if horizontal then Width else Height) - 1;
        innerBeg := innerFirst - 1;
        innerEnd := -1;
        innerStep := -1;
      }

      moved := SlideLines(d, horizontal, outerEnd, innerFirst, innerBeg, innerEnd, innerStep);
      if !moved {
        UnchangedMoveGainsNothing(b0, d);
      }
      if moved && status == InGame {
        MoveLeavesRoom(b0, d);
        var _ := SpawnRandomTile(k, v);
      }
    }

    /** Clears the board, resets the empty count, the score and the status,
        and spawns two tiles: v1 into empty cell k1 of the cleared board and
        v2 into empty cell k2 of what is then left. */
    method ResetGame(k1: nat, v1: nat, k2: nat, v2: nat)
      requires tiles.Length == TotalSize
      requires (v1 == 2 || v1 == 4) && (v2 == 2 || v2 == 4)
      requires k1 < TotalSize && k2 < TotalSize - 1
      modifies this, tiles
      ensures Valid()
      ensures tiles[..] == Zeros(TotalSize)[k1 := v1][if k2 < k1 then k2 else k2 + 1 := v2]
      ensures emptyCount == TotalSize - 2 && score == 0 && status == InGame
    {
      forall i | 0 <= i < tiles.Length {
        tiles[i] := 0;
      }
      emptyCount := TotalSize;
      score := 0;
      status := InGame;
      assert tiles[..] == Zeros(TotalSize);
      CountZerosOfZeros(TotalSize);
      assert KthEmpty(Zeros(TotalSize), k1) == k1 by {
        assert Zeros(TotalSize)[..k1] == Zeros(k1);
        CountZerosOfZeros(k1);
        KthEmptyUnique(Zeros(TotalSize), k1, k1);
      }
      var _ := SpawnRandomTile(k1, v1);
      KthEmptyAfterOne(k1, v1, k2);
      var _ := SpawnRandomTile(k2, v2);
    }
  }
}
