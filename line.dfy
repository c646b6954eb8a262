/** One row or column of the 2048 board, read from its leading edge (the
    edge the tiles slide toward, index 0). Holds the reference result of a
    slide (compact, merge pairwise from the leading edge, pad with empty
    cells) and the single-pass "last settled cursor" algorithm the game runs
    on every line, with the invariant that ties the two together. */
module Line {

  /** Sum of all tile values. */
  function Sum(s: seq<nat>): nat
  {
    if s == [] then 0 else s[0] + Sum(s[1..])
  }

  /** Number of empty (zero) cells. */
  function CountZeros(s: seq<nat>): (n: nat)
    ensures n <= |s|
  {
    if s == [] then 0 else (if s[0] == 0 then 1 else 0) + CountZeros(s[1..])
  }

  /** No two neighbouring cells hold the same value. */
  ghost predicate NoEqualNeighbours(s: seq<nat>)
  {
    forall k, m :: 0 <= k < m < |s| && m == k + 1 ==> s[k] != s[m]
  }

  /** The nonzero tiles of a line, in their original order. */
  function Compact(s: seq<nat>): (r: seq<nat>)
    ensures |r| <= |s|
  {
    if s == [] then []
    else if s[0] == 0 then Compact(s[1..])
    else [s[0]] + Compact(s[1..])
  }

  /** Outcome of combining a run of tiles: the resulting tiles, the points
      gained and whether some combination produced exactly 2048. */
  datatype Merged = Merged(tiles: seq<nat>, score: nat, won: bool)

  /** Combines equal neighbours pairwise, starting from the leading edge; a
      tile produced by a combination is never combined again. Every
      combination adds the value it produces to the score. */
  function Merge(s: seq<nat>): (m: Merged)
    ensures |m.tiles| <= |s|
  {
    if |s| < 2 then Merged(s, 0, false)
    else if s[0] == s[1] then
      var v, rest := s[0] + s[1], Merge(s[2..]);
      Merged([v] + rest.tiles, v + rest.score, v == 2048 || rest.won)
    else
      var rest := Merge(s[1..]);
      Merged([s[0]] + rest.tiles, rest.score, rest.won)
  }

  function Zeros(n: nat): (r: seq<nat>)
    ensures |r| == n
    ensures forall i :: 0 <= i < n ==> r[i] == 0
  {
    seq(n, _ => 0)
  }

  /** Reference result of sliding a line toward its leading edge: its tiles
      compacted, combined pairwise, and padded with empty cells. */
  function SlideLine(l: seq<nat>): (r: seq<nat>)
    ensures |r| == |l|
  {
    var m := Merge(Compact(l)).tiles;
    m + Zeros(|l| - |m|)
  }

  /** Score gained by sliding the line. */
  function LineScore(l: seq<nat>): nat
  {
    Merge(Compact(l)).score
  }

  /** Sliding the line produces a 2048 tile by a merge. */
  predicate LineWins(l: seq<nat>)
  {
    Merge(Compact(l)).won
  }

  // ---------------------------------------------------------------------
  // The cursor pass

  /** State of the one-pass slide over a line: the line as rewritten so far,
      the offset of the "last settled" cursor, the points gained, whether a
      merge produced 2048, and whether any tile moved or merged. */
  datatype Cursor = Cursor(line: seq<nat>, last: nat, gained: nat, won: bool, moved: bool)

  /** The pass before the first tile is examined: the cursor sits on the
      leading edge. */
  function Start(l: seq<nat>): Cursor
  {
    Cursor(l, 0, 0, false, false)
  }

  /** What one move-or-merge of the tile at offset j does to the line:
      into an empty cursor cell the tile moves and the cursor stays; onto an
      equal tile it merges and the cursor advances past the merged tile; onto
      a different tile it is stacked right behind it (the cursor advances). */
  function Step(st: Cursor, j: nat): (r: Cursor)
    requires st.last < j < |st.line|
    ensures |r.line| == |st.line| && r.last <= j
    ensures r.last == st.last || r.last == st.last + 1
    ensures r.moved == (st.moved || r.line != st.line)
    ensures r.gained >= st.gained && (r.gained > st.gained ==> r.last == st.last + 1)
  {
    var c, t := st.last, st.line[j];
    if t == 0 then st
    else if st.line[c] == 0 then
      st.(line := st.line[c := t][j := 0], moved := true)
    else if st.line[c] == t then
      var v := st.line[c] + t;
      st.(line := st.line[c := v][j := 0], last := c + 1, gained := st.gained + v,
          won := st.won || v == 2048, moved := true)
    else if c + 1 == j then
      st.(last := c + 1)
    else
      st.(line := st.line[c + 1 := t][j := 0], last := c + 1, moved := true)
  }

  /** Where the pass stands once the offsets before j have been examined:
      the cursor is strictly behind j, the unexamined part is untouched and
      the cells between the cursor and j are empty. */
  ghost predicate Shape(l: seq<nat>, st: Cursor, j: nat)
  {
    && |st.line| == |l|
    && st.last < j <= |l|
    && st.line[j..] == l[j..]
    && (forall k :: st.last < k < j ==> st.line[k] == 0)
  }

  /** The tiles the pass still has to place: the tile under the cursor (if
      any) followed by the nonzero tiles of l not yet examined. */
  function Pending(l: seq<nat>, st: Cursor, j: nat): seq<nat>
    requires st.last < |st.line| && j <= |l|
  {
    (if st.line[st.last] == 0 then [] else [st.line[st.last]]) + Compact(l[j..])
  }

  /** What the pass ends with from this state: the settled cells before the
      cursor followed by the combination of the pending tiles. */
  function Settle(l: seq<nat>, st: Cursor, j: nat): Merged
    requires st.last < |st.line| && j <= |l|
  {
    var m := Merge(Pending(l, st, j));
    Merged(st.line[..st.last] + m.tiles, st.gained + m.score, st.won || m.won)
  }

  /** The move flag is exact: nothing moved and the line is as it was, or
      some cell up to the cursor has changed for good. */
  ghost predicate Tracks(l: seq<nat>, st: Cursor)
    requires |st.line| == |l| && st.last < |l|
  {
    && (!st.moved ==> st.line == l && st.gained == 0 && !st.won)
    && (st.moved ==> exists w :: 0 <= w <= st.last && st.line[w] != l[w] && (w == st.last ==> l[w] == 0))
  }

  /** Invariant of the pass over l before offset j is examined. */
  ghost predicate PassInv(l: seq<nat>, st: Cursor, j: nat)
  {
    Shape(l, st, j) && Settle(l, st, j) == Merge(Compact(l)) && Tracks(l, st)
  }

  // ---------------------------------------------------------------------
  // Lemmas about Compact and Merge

  lemma {:induction false} CompactAppend(a: seq<nat>, b: seq<nat>)
    ensures Compact(a + b) == Compact(a) + Compact(b)
  {
    if a != [] {
      assert (a + b)[1..] == a[1..] + b;
      CompactAppend(a[1..], b);
    } else {
      assert a + b == b;
    }
  }

  /** Compact of a suffix, one cell at a time. */
  lemma CompactAt(s: seq<nat>, i: nat)
    requires i < |s|
    ensures Compact(s[i..]) == (if s[i] == 0 then [] else [s[i]]) + Compact(s[i + 1..])
  {
    assert s[i..][1..] == s[i + 1..];
  }

  /** A run of empty cells contributes nothing to Compact. */
  lemma {:induction false} CompactSkipsZeros(s: seq<nat>, a: nat, b: nat)
    requires a <= b <= |s|
    requires forall k :: a <= k < b ==> s[k] == 0
    ensures Compact(s[a..]) == Compact(s[b..])
    decreases b - a
  {
    if a < b {
      CompactAt(s, a);
      CompactSkipsZeros(s, a + 1, b);
    }
  }

  lemma {:induction false} CompactNonzero(s: seq<nat>)
    requires forall i :: 0 <= i < |s| ==> s[i] != 0
    ensures Compact(s) == s
  {
    if s != [] {
      CompactNonzero(s[1..]);
    }
  }

  /** Compaction drops exactly the empty cells and keeps only nonzero tiles. */
  lemma {:induction false} CompactDropsZeros(s: seq<nat>)
    ensures |Compact(s)| == |s| - CountZeros(s)
    ensures forall i :: 0 <= i < |Compact(s)| ==> Compact(s)[i] != 0
  {
    if s != [] {
      CompactDropsZeros(s[1..]);
    }
  }

  lemma {:induction false} CompactZeros(n: nat)
    ensures Compact(Zeros(n)) == []
  {
    if n > 0 {
      assert Zeros(n)[1..] == Zeros(n - 1);
      CompactZeros(n - 1);
    }
  }

  /** Two equal tiles at the head combine into one. */
  lemma MergeEqualHead(t: nat, x: seq<nat>, s: seq<nat>)
    requires s == [t, t] + x
    ensures Merge(s) == Merged([t + t] + Merge(x).tiles, t + t + Merge(x).score, t + t == 2048 || Merge(x).won)
  {
    assert s[2..] == x;
    MergeCombines(s);
  }

  /** A head tile different from the next one stays on its own. */
  lemma MergeDifferentHead(a: nat, t: nat, x: seq<nat>, s: seq<nat>)
    requires a != t && s == [a, t] + x
    ensures Merge(s) == Merged([a] + Merge([t] + x).tiles, Merge([t] + x).score, Merge([t] + x).won)
  {
    assert s[1..] == [t] + x;
    MergeKeepsHead(s);
  }

  lemma MergeCombines(s: seq<nat>)
    requires |s| >= 2 && s[0] == s[1]
    ensures Merge(s) == Merged([s[0] + s[1]] + Merge(s[2..]).tiles, s[0] + s[1] + Merge(s[2..]).score, s[0] + s[1] == 2048 || Merge(s[2..]).won)
  {
  }

  lemma MergeKeepsHead(s: seq<nat>)
    requires |s| >= 2 && s[0] != s[1]
    ensures Merge(s) == Merged([s[0]] + Merge(s[1..]).tiles, Merge(s[1..]).score, Merge(s[1..]).won)
  {
  }

  // ---------------------------------------------------------------------
  // The cursor pass computes the reference slide

  lemma PassStart(l: seq<nat>)
    requires |l| >= 1
    ensures PassInv(l, Start(l), 1)
  {
    CompactAt(l, 0);
    assert l[0..] == l;
  }

  /** One move-or-merge keeps the pass invariant. */
  lemma PassStep(l: seq<nat>, st: Cursor, j: nat)
    requires PassInv(l, st, j) && j < |l|
    ensures PassInv(l, Step(st, j), j + 1)
  {
    StepShape(l, st, j);
    StepSettle(l, st, j);
    StepTracks(l, st, j);
  }

  lemma StepShape(l: seq<nat>, st: Cursor, j: nat)
    requires Shape(l, st, j) && j < |l|
    ensures Shape(l, Step(st, j), j + 1)
  {
    var s' := Step(st, j).line;
    assert s'[j + 1..] == l[j + 1..] by {
      assert st.line[j + 1..] == st.line[j..][1..] && l[j + 1..] == l[j..][1..];
    }
  }

  lemma StepTracks(l: seq<nat>, st: Cursor, j: nat)
    requires Shape(l, st, j) && j < |l| && Tracks(l, st)
    ensures Tracks(l, Step(st, j))
  {
    var s, c := st.line, st.last;
    var s' := Step(st, j).line;
    if st.moved {
      var w :| 0 <= w <= c && s[w] != l[w] && (w == c ==> l[w] == 0);
      assert s'[w] != l[w];
    } else if s[j] != 0 && (s[c] == 0 || s[c] == s[j]) {
      assert s'[c] != l[c];
    } else if s[j] != 0 && c + 1 != j {
      assert s'[c + 1] != l[c + 1];
    }
  }

  /** Every move-or-merge leaves what the pass ends with unchanged. */
  lemma StepSettle(l: seq<nat>, st: Cursor, j: nat)
    requires Shape(l, st, j) && j < |l|
    ensures Settle(l, Step(st, j), j + 1) == Settle(l, st, j)
  {
    var s, c, t := st.line, st.last, st.line[j];
    assert t == l[j];
    CompactAt(l, j);
    if t == 0 {
      assert Pending(l, Step(st, j), j + 1) == Pending(l, st, j);
    } else if s[c] == 0 {
      SettleMove(l, st, j);
    } else if s[c] == t {
      SettleMerge(l, st, j);
    } else {
      SettleStack(l, st, j);
    }
  }

  /** The part of Shape a single step relies on. */
  ghost predicate Behind(l: seq<nat>, st: Cursor, j: nat)
  {
    && |st.line| == |l| && st.last < j < |l| && st.line[j] == l[j] != 0
    && (forall k :: st.last < k < j ==> st.line[k] == 0)
    && Compact(l[j..]) == [l[j]] + Compact(l[j + 1..])
  }

  lemma UpdatedPrefix(s: seq<nat>, c: nat, v: nat, j: nat)
    requires c < j < |s|
    ensures s[c := v][j := 0][..c + 1] == s[..c] + [v]
  {
  }

  /** The tile moves into the empty cursor cell. */
  lemma SettleMove(l: seq<nat>, st: Cursor, j: nat)
    requires Behind(l, st, j) && st.line[st.last] == 0
    ensures Settle(l, Step(st, j), j + 1) == Settle(l, st, j)
  {
    var s, c, t := st.line, st.last, st.line[j];
    var st' := Step(st, j);
    var x := Compact(l[j + 1..]);
    assert Pending(l, st, j) == [t] + x;
    assert Pending(l, st', j + 1) == [t] + x;
    assert st'.line[..c] == s[..c];
  }

  /** The tile merges into the equal cursor tile, which becomes settled. */
  lemma SettleMerge(l: seq<nat>, st: Cursor, j: nat)
    requires Behind(l, st, j) && st.line[st.last] == st.line[j]
    ensures Settle(l, Step(st, j), j + 1) == Settle(l, st, j)
  {
    var s, c, t := st.line, st.last, st.line[j];
    var m := Merge(Compact(l[j + 1..]));
    SettleBeforeMerge(l, st, j);
    SettleAfterMerge(l, st, j);
    assert s[..c] + ([t + t] + m.tiles) == (s[..c] + [t + t]) + m.tiles;
  }

  lemma SettleBeforeMerge(l: seq<nat>, st: Cursor, j: nat)
    requires Behind(l, st, j) && st.line[st.last] == st.line[j]
    ensures var t, m := l[j], Merge(Compact(l[j + 1..]));
      Settle(l, st, j) == Merged(st.line[..st.last] + ([t + t] + m.tiles), st.gained + (t + t + m.score), st.won || (t + t == 2048 || m.won))
  {
    PendingMerge(l, st, j);
    MergeEqualHead(l[j], Compact(l[j + 1..]), Pending(l, st, j));
  }

  lemma SettleAfterMerge(l: seq<nat>, st: Cursor, j: nat)
    requires Behind(l, st, j) && st.line[st.last] == st.line[j]
    ensures var t, m, st' := l[j], Merge(Compact(l[j + 1..])), Step(st, j);
      Settle(l, st', j + 1) == Merged((st.line[..st.last] + [t + t]) + m.tiles, st.gained + (t + t) + m.score, (st.won || t + t == 2048) || m.won)
  {
    PendingMerge(l, st, j);
    UpdatedPrefix(st.line, st.last, l[j] + l[j], j);
  }

  lemma PendingMerge(l: seq<nat>, st: Cursor, j: nat)
    requires Behind(l, st, j) && st.line[st.last] == st.line[j]
    ensures Pending(l, st, j) == [l[j], l[j]] + Compact(l[j + 1..])
    ensures Pending(l, Step(st, j), j + 1) == Compact(l[j + 1..])
  {
    assert Step(st, j).line[st.last + 1] == 0;
  }

  /** The tile is stacked behind a different cursor tile (or stays put when
      it already is right behind it), and the cursor moves onto it. */
  lemma SettleStack(l: seq<nat>, st: Cursor, j: nat)
    requires Behind(l, st, j) && st.line[st.last] != 0 && st.line[st.last] != st.line[j]
    ensures Settle(l, Step(st, j), j + 1) == Settle(l, st, j)
  {
    var s, c, t := st.line, st.last, st.line[j];
    var st' := Step(st, j);
    assert st'.line[..c + 1] == s[..c + 1] && st'.line[c + 1] == t && st'.last == c + 1;
    var x := Compact(l[j + 1..]);
    var m := Merge([t] + x);
    assert Merge(Pending(l, st, j)) == Merged([s[c]] + m.tiles, m.score, m.won) by {
      assert Pending(l, st, j) == [s[c], t] + x;
      MergeDifferentHead(s[c], t, x, Pending(l, st, j));
    }
    assert Merge(Pending(l, st', j + 1)) == m by {
      assert Pending(l, st', j + 1) == [t] + x;
    }
    assert s[..c] + ([s[c]] + m.tiles) == st'.line[..c + 1] + m.tiles by {
      assert s[..c + 1] == s[..c] + [s[c]];
    }
  }

  /** At the end of the line the pass has produced the reference slide. */
  lemma PassDoneLine(l: seq<nat>, st: Cursor)
    requires |st.line| == |l| && st.last < |l|
    requires forall i :: st.last < i < |l| ==> st.line[i] == 0
    requires Settle(l, st, |l|).tiles == Merge(Compact(l)).tiles
    ensures st.line == SlideLine(l)
  {
    var s, c := st.line, st.last;
    assert l[|l|..] == [];
    assert Merge(Pending(l, st, |l|)).tiles == Pending(l, st, |l|) == if s[c] == 0 then [] else [s[c]];
    PadZeros(s, c, Merge(Compact(l)).tiles);
  }

  /** At the end of the line the pass has gained the reference score and
      won exactly when the reference slide wins. */
  lemma PassDoneScore(l: seq<nat>, st: Cursor)
    requires |l| >= 1 && PassInv(l, st, |l|)
    ensures st.gained == LineScore(l) && st.won == LineWins(l)
  {
    assert l[|l|..] == [];
    assert |Pending(l, st, |l|)| < 2;
  }

  /** A line that is empty after offset c is what the pass has settled
      before c, followed by the tile at c if any, padded with empty cells. */
  lemma PadZeros(s: seq<nat>, c: nat, m: seq<nat>)
    requires c < |s| && forall i :: c < i < |s| ==> s[i] == 0
    requires m == s[..c] + (if s[c] == 0 then [] else [s[c]])
    ensures m + Zeros(|s| - |m|) == s
  {
  }

  /** ... and it reports a move exactly when the line changed. */
  lemma PassDone(l: seq<nat>, st: Cursor)
    requires |l| >= 1 && PassInv(l, st, |l|)
    ensures st.line == SlideLine(l)
    ensures st.gained == LineScore(l)
    ensures st.won == LineWins(l)
    ensures st.moved == (SlideLine(l) != l)
  {
    PassDoneLine(l, st);
    PassDoneScore(l, st);
    if st.moved {
      var w :| 0 <= w <= st.last && st.line[w] != l[w] && (w == st.last ==> l[w] == 0);
    }
  }

  /** The pass over l once the offsets 1 .. j-1 have been examined in
      turn, starting from the cursor on the leading cell. */
  function Pass(l: seq<nat>, j: nat): (st: Cursor)
    requires 1 <= j <= |l|
    ensures |st.line| == |l| && st.last < j
    decreases j
  {
    if j == 1 then Start(l) else Step(Pass(l, j - 1), j - 1)
  }

  /** Every state the pass goes through satisfies the pass invariant. */
  lemma {:induction false} PassKeepsInv(l: seq<nat>, j: nat)
    requires 1 <= j <= |l|
    ensures PassInv(l, Pass(l, j), j)
  {
    if j == 1 {
      PassStart(l);
    } else {
      var i := j - 1;
      assert i + 1 == j;
      PassKeepsInv(l, i);
      PassAt(l, i);
    }
  }

  /** PassStep applied to the state the pass reaches before offset j. */
  lemma PassAt(l: seq<nat>, j: nat)
    requires 1 <= j < |l| && PassInv(l, Pass(l, j), j)
    ensures PassInv(l, Pass(l, j + 1), j + 1)
  {
    var st := Pass(l, j);
    assert Pass(l, j + 1) == Step(st, j);
    PassStep(l, st, j);
  }

  /** The whole pass computes the reference slide: the same line, the same
      points and win flag, and a move flag that is set exactly when the line
      changed. */
  lemma PassIsSlide(l: seq<nat>)
    requires |l| >= 1
    ensures var st := Pass(l, |l|);
      && st.line == SlideLine(l) && st.gained == LineScore(l) && st.won == LineWins(l)
      && st.moved == (SlideLine(l) != l)
  {
    PassKeepsInv(l, |l|);
    PassDone(l, Pass(l, |l|));
  }

  // ---------------------------------------------------------------------
  // Properties of the reference slide

  lemma {:induction false} SumAppend(a: seq<nat>, b: seq<nat>)
    ensures Sum(a + b) == Sum(a) + Sum(b)
  {
    if a == [] {
      assert a + b == b;
    } else {
      assert (a + b)[1..] == a[1..] + b;
      SumAppend(a[1..], b);
    }
  }

  lemma {:induction false} SumCompact(s: seq<nat>)
    ensures Sum(Compact(s)) == Sum(s)
  {
    if s != [] {
      SumCompact(s[1..]);
      SumAppend([s[0]], Compact(s[1..]));
    }
  }

  lemma {:induction false} SumMerge(s: seq<nat>)
    ensures Sum(Merge(s).tiles) == Sum(s)
  {
    if |s| >= 2 {
      if s[0] == s[1] {
        SumMerge(s[2..]);
        SumAppend([s[0] + s[1]], Merge(s[2..]).tiles);
        assert s[1..][1..] == s[2..];
      } else {
        SumMerge(s[1..]);
        SumAppend([s[0]], Merge(s[1..]).tiles);
      }
    }
  }

  lemma {:induction false} SumZeros(n: nat)
    ensures Sum(Zeros(n)) == 0
  {
    if n > 0 {
      assert Zeros(n)[1..] == Zeros(n - 1);
      SumZeros(n - 1);
    }
  }

  /** Sliding a line conserves the total of its tile values. */
  lemma SlideLineConservesSum(l: seq<nat>)
    ensures Sum(SlideLine(l)) == Sum(l)
  {
    var m := Merge(Compact(l)).tiles;
    SumAppend(m, Zeros(|l| - |m|));
    SumZeros(|l| - |m|);
    SumMerge(Compact(l));
    SumCompact(l);
  }

  lemma {:induction false} MergeNonzero(s: seq<nat>)
    requires forall i :: 0 <= i < |s| ==> s[i] != 0
    ensures forall i :: 0 <= i < |Merge(s).tiles| ==> Merge(s).tiles[i] != 0
  {
    if |s| >= 2 {
      if s[0] == s[1] {
        MergeNonzero(s[2..]);
      } else {
        MergeNonzero(s[1..]);
      }
    }
  }

  /** After a slide the nonzero tiles sit contiguously against the leading
      edge, and they are the line's own tiles in their original order with
      equal neighbours combined pairwise from the leading edge. */
  lemma SlideLinePacked(l: seq<nat>)
    ensures forall i, j :: 0 <= i < j < |l| && SlideLine(l)[i] == 0 ==> SlideLine(l)[j] == 0
    ensures Compact(SlideLine(l)) == Merge(Compact(l)).tiles
  {
    var m := Merge(Compact(l)).tiles;
    CompactDropsZeros(l);
    MergeNonzero(Compact(l));
    CompactAppend(m, Zeros(|l| - |m|));
    CompactNonzero(m);
    CompactZeros(|l| - |m|);
  }

  /** Merge keeps a run of tiles exactly when no two neighbours are equal,
      and only then keeps its length. */
  lemma {:induction false} MergeKeeps(s: seq<nat>)
    ensures Merge(s).tiles == s <==> NoEqualNeighbours(s)
    ensures |Merge(s).tiles| == |s| <==> NoEqualNeighbours(s)
  {
    if |s| >= 2 {
      if s[0] == s[1] {
        assert !NoEqualNeighbours(s) by { assert s[0] == s[1]; }
      } else {
        MergeKeeps(s[1..]);
        if NoEqualNeighbours(s[1..]) {
          forall k, m | 0 <= k < m < |s| && m == k + 1 ensures s[k] != s[m] {
            if k > 0 { assert s[k] == s[1..][k - 1] && s[m] == s[1..][m - 1]; }
          }
        } else {
          var k, m :| 0 <= k < m < |s[1..]| && m == k + 1 && s[1..][k] == s[1..][m];
          assert s[k + 1] == s[m + 1];
        }
        assert s == [s[0]] + s[1..];
      }
    }
  }

  /** A line without empty cells stays as it is exactly when no two
      neighbouring tiles are equal. */
  lemma SlideFullLine(l: seq<nat>)
    requires forall i :: 0 <= i < |l| ==> l[i] != 0
    ensures SlideLine(l) == l <==> NoEqualNeighbours(l)
  {
    CompactNonzero(l);
    MergeKeeps(l);
    var m := Merge(l).tiles;
    if NoEqualNeighbours(l) {
      assert Zeros(|l| - |m|) == [];
      assert SlideLine(l) == l;
    } else {
      assert |m| < |l|;
      assert SlideLine(l)[|l| - 1] == 0;
    }
  }

  /** A merge gains points or produces 2048 only by combining two tiles
      into one, so the run gets shorter. */
  lemma {:induction false} MergeShrinks(s: seq<nat>)
    requires Merge(s).score > 0 || Merge(s).won
    ensures |Merge(s).tiles| < |s|
  {
    if s[0] != s[1] {
      MergeShrinks(s[1..]);
    }
  }

  /** A slide that leaves the line as it is gains nothing and produces no
      2048 tile. */
  lemma SlideUnchangedGainsNothing(l: seq<nat>)
    requires SlideLine(l) == l
    ensures LineScore(l) == 0 && !LineWins(l)
  {
    if LineScore(l) > 0 || LineWins(l) {
      MergeShrinks(Compact(l));
      SlideLinePacked(l);
      assert false;
    }
  }

  /** A slide that changes the line leaves an empty cell in it. */
  lemma SlideMovedLeavesRoom(l: seq<nat>)
    requires SlideLine(l) != l
    ensures exists i :: 0 <= i < |l| && SlideLine(l)[i] == 0
  {
    var m := Merge(Compact(l)).tiles;
    if |m| == |l| {
      SlideWithoutRoom(l);
    }
    assert SlideLine(l)[|l| - 1] == 0;
  }

  /** A slide that leaves no empty cell keeps the line as it is. */
  lemma SlideWithoutRoom(l: seq<nat>)
    requires |Merge(Compact(l)).tiles| == |l|
    ensures SlideLine(l) == l
  {
    CompactDropsZeros(l);
    forall i | 0 <= i < |l| ensures l[i] != 0 {
      if l[i] == 0 {
        CountZerosPositive(l, i);
      }
    }
    CompactNonzero(l);
    MergeKeeps(l);
  }

  /** A line with an empty cell has a positive empty count. */
  lemma {:induction false} CountZerosPositive(s: seq<nat>, i: nat)
    requires i < |s| && s[i] == 0
    ensures CountZeros(s) > 0
  {
    if i > 0 {
      CountZerosPositive(s[1..], i - 1);
    }
  }

  /** The rule's own examples: a line of four 2s becomes two 4s, not one 8;
      2 2 4 becomes 4 4, not 8; two merges in one move add both values. */
  lemma RuleExamples()
    ensures SlideLine([2, 2, 2, 2]) == [4, 4, 0, 0] && LineScore([2, 2, 2, 2]) == 8
    ensures SlideLine([2, 2, 4, 0]) == [4, 4, 0, 0] && LineScore([2, 2, 4, 0]) == 4
    ensures SlideLine([2, 2, 4, 4]) == [4, 8, 0, 0] && LineScore([2, 2, 4, 4]) == 12
    ensures SlideLine([4, 4, 2, 2]) == [8, 4, 0, 0] && LineScore([4, 4, 2, 2]) == 12
  {
    assert Compact([2, 2, 2, 2]) == [2, 2, 2, 2];
    assert Compact([2, 2, 4, 0]) == [2, 2, 4];
    assert Compact([2, 2, 4, 4]) == [2, 2, 4, 4];
    assert Compact([4, 4, 2, 2]) == [4, 4, 2, 2];
  }
}
