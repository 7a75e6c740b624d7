/**
 The game of game_theory_algos/alpha_beta_pruning/q2.py: Notakto on any number of boards,
 searched by alpha-beta pruning and by minimax with a table of visited positions.
 */
module Notakto {

  // The numbers of the search: floats, with the infinities and without NaN.
  datatype Value = MinusInf | Finite(r: real) | PlusInf

  predicate Less(x: Value, y: Value) {
    match (x, y)
    case (Finite(a), Finite(b)) => a < b
    case (MinusInf, _) => y != MinusInf
    case (_, PlusInf) => x != PlusInf
    case _ => false
  }

  predicate Le(x: Value, y: Value) {
    !Less(y, x)
  }

  function Max(x: Value, y: Value): Value {
    if Less(x, y) then y else x
  }

  function Min(x: Value, y: Value): Value {
    if Less(y, x) then y else x
  }

  // ---- Positions ----

  type Board = seq<char>

  ghost predicate BoardsOk(b: seq<Board>) {
    forall i :: 0 <= i < |b| ==> |b[i]| == 9 && forall j :: 0 <= j < 9 ==> b[i][j] == '0' || b[i][j] == 'x'
  }

  predicate Same(b: Board, i: nat, j: nat, k: nat)
    requires i < |b| && j < |b| && k < |b|
  {
    b[i] == b[j] == b[k] && b[k] != '0'
  }

  // Three in a row: a row, a column, or a diagonal.
  predicate Won(b: Board)
    requires |b| == 9
  {
    || Same(b, 0, 1, 2) || Same(b, 3, 4, 5) || Same(b, 6, 7, 8)
    || Same(b, 0, 3, 6) || Same(b, 1, 4, 7) || Same(b, 2, 5, 8)
    || Same(b, 0, 4, 8) || Same(b, 2, 4, 6)
  }

  // Three cells of a row, of a column, or of one of the two diagonals.
  ghost predicate Line(i: nat, j: nat, k: nat) {
    i < j < k < 9 && (i / 3 == j / 3 == k / 3 || i % 3 == j % 3 == k % 3 || Diagonal(i, j, k))
  }

  ghost predicate Diagonal(i: nat, j: nat, k: nat) {
    || (i / 3 == i % 3 && j / 3 == j % 3 && k / 3 == k % 3)
    || (i / 3 + i % 3 == 2 && j / 3 + j % 3 == 2 && k / 3 + k % 3 == 2)
  }

  lemma LinesListed(i: nat, j: nat, k: nat)
    ensures var lines := {(0, 1, 2), (3, 4, 5), (6, 7, 8), (0, 3, 6), (1, 4, 7), (2, 5, 8), (0, 4, 8), (2, 4, 6)};
      Line(i, j, k) <==> (i, j, k) in lines
  {
  }

  ghost predicate Marked(b: Board) {
    |b| == 9 && forall i :: 0 <= i < 9 ==> b[i] == '0' || b[i] == 'x'
  }

  ghost predicate HasLine(b: Board)
    requires |b| == 9
  {
    exists i: nat, j: nat, k: nat :: Line(i, j, k) && b[i] == 'x' && b[j] == 'x' && b[k] == 'x'
  }

  // A board is won exactly when some line on it is marked all along.
  lemma WonLines(b: Board)
    requires Marked(b)
    ensures Won(b) <==> HasLine(b)
  {
    if Won(b) {
      LinesListed(0, 1, 2);
      LinesListed(3, 4, 5);
      LinesListed(6, 7, 8);
      LinesListed(0, 3, 6);
      LinesListed(1, 4, 7);
      LinesListed(2, 5, 8);
      LinesListed(0, 4, 8);
      LinesListed(2, 4, 6);
    }
    forall i: nat, j: nat, k: nat | Line(i, j, k) && b[i] == 'x' && b[j] == 'x' && b[k] == 'x' ensures Won(b) {
      LinesListed(i, j, k);
    }
  }

  // The game is over when every board has three in a row.
  ghost predicate Over(b: seq<Board>)
    requires BoardsOk(b)
  {
    forall i :: 0 <= i < |b| ==> Won(b[i])
  }

  // Cell a is empty, on a board without three in a row.
  ghost predicate Free(b: seq<Board>, a: nat)
    requires BoardsOk(b)
  {
    a < 9 * |b| && !Won(b[a / 9]) && b[a / 9][a % 9] == '0'
  }

  ghost function Mark(b: seq<Board>, a: nat): (m: seq<Board>)
    requires BoardsOk(b) && a < 9 * |b|
    ensures BoardsOk(m) && |m| == |b|
  {
    b[a / 9 := b[a / 9][a % 9 := 'x']]
  }

  // How many of the first m cells are empty.
  ghost function Empty(b: seq<Board>, m: nat): nat
    requires BoardsOk(b) && m <= 9 * |b|
  {
    if m == 0 then 0 else Empty(b, m - 1) + if b[(m - 1) / 9][(m - 1) % 9] == '0' then 1 else 0
  }

  lemma {:induction false} MarkEmpty(b: seq<Board>, a: nat, m: nat)
    requires BoardsOk(b) && a < 9 * |b| && b[a / 9][a % 9] == '0' && m <= 9 * |b|
    ensures Empty(Mark(b, a), m) == Empty(b, m) - if a < m then 1 else 0
  {
    if m > 0 {
      MarkEmpty(b, a, m - 1);
      var c := m - 1;
      if c != a {
        assert c == 9 * (c / 9) + c % 9 && a == 9 * (a / 9) + a % 9;
        assert c / 9 != a / 9 || c % 9 != a % 9;
      }
    }
  }

  ghost predicate AllFree(b: seq<Board>, acts: seq<nat>)
    requires BoardsOk(b)
  {
    forall i :: 0 <= i < |acts| ==> Free(b, acts[i])
  }

  // The free cells among the first m, in order.
  ghost function FreeCells(b: seq<Board>, m: nat): (acts: seq<nat>)
    requires BoardsOk(b) && m <= 9 * |b|
    ensures AllFree(b, acts)
  {
    if m == 0 then [] else FreeCells(b, m - 1) + if Free(b, m - 1) then [m - 1] else []
  }

  // ---- Minimax ----

  // The value of a position under plain minimax. `even` tells whether player 1 is to move,
  // `max` whether the maximizing player is. Who is to move when the game is over has won.
  ghost function Minimax(b: seq<Board>, even: bool, max: bool): Value
    requires BoardsOk(b)
    decreases Empty(b, 9 * |b|), 1, 0
  {
    if Over(b) then Finite(if even then 1.0 else -1.0) else Best(b, even, max, FreeCells(b, 9 * |b|))
  }

  ghost function Worst(max: bool): Value {
    if max then MinusInf else PlusInf
  }

  ghost function Pick(max: bool, x: Value, y: Value): Value {
    if max then Max(x, y) else Min(x, y)
  }

  // The best of the given moves.
  ghost function Best(b: seq<Board>, even: bool, max: bool, acts: seq<nat>): Value
    requires BoardsOk(b) && AllFree(b, acts)
    decreases Empty(b, 9 * |b|), 0, |acts|
  {
    if acts == [] then Worst(max) else
      var a := acts[|acts| - 1];
      assert Free(b, a);
      MarkEmpty(b, a, 9 * |b|);
      Pick(max, Best(b, even, max, acts[..|acts| - 1]), Minimax(Mark(b, a), !even, !max))
  }

  // x is at least as good as y for the player to move.
  ghost predicate Better(max: bool, x: Value, y: Value) {
    if max then Le(y, x) else Le(x, y)
  }

  lemma {:induction false} BestBounds(b: seq<Board>, even: bool, max: bool, acts: seq<nat>)
    requires BoardsOk(b) && AllFree(b, acts)
    ensures forall i :: 0 <= i < |acts| ==>
      Better(max, Best(b, even, max, acts), Minimax(Mark(b, acts[i]), !even, !max))
    ensures acts != [] ==> exists i ::
      0 <= i < |acts| && Best(b, even, max, acts) == Minimax(Mark(b, acts[i]), !even, !max)
  {
    hide Minimax, Mark;
    if acts != [] {
      var n := |acts| - 1;
      var front := acts[..n];
      BestBounds(b, even, max, front);
      var v := Minimax(Mark(b, acts[n]), !even, !max);
      assert Best(b, even, max, acts) == Pick(max, Best(b, even, max, front), v);
      forall i | 0 <= i < |acts| ensures Better(max, Best(b, even, max, acts), Minimax(Mark(b, acts[i]), !even, !max)) {
        if i < n { assert front[i] == acts[i]; }
      }
      if Best(b, even, max, acts) == v {
        assert acts[n] == acts[n];
      } else {
        assert front != [];
        var i :| 0 <= i < |front| && Best(b, even, max, front) == Minimax(Mark(b, front[i]), !even, !max);
        assert acts[i] == front[i];
      }
    }
  }

  // The value does not depend on the order in which the moves are tried.
  lemma MoveOrder(b: seq<Board>, even: bool, max: bool, acts: seq<nat>, acts': seq<nat>)
    requires BoardsOk(b) && AllFree(b, acts) && AllFree(b, acts')
    requires forall a :: a in acts <==> a in acts'
    ensures Best(b, even, max, acts) == Best(b, even, max, acts')
  {
    BestBounds(b, even, max, acts);
    BestBounds(b, even, max, acts');
    assert acts != [] ==> acts[0] in acts';
    assert acts' != [] ==> acts'[0] in acts';
    if acts != [] {
      BestOver(b, even, max, acts, acts');
      BestOver(b, even, max, acts', acts);
    }
  }

  lemma BestOver(b: seq<Board>, even: bool, max: bool, acts: seq<nat>, acts': seq<nat>)
    requires BoardsOk(b) && AllFree(b, acts) && AllFree(b, acts') && acts' != []
    requires forall a :: a in acts' ==> a in acts
    ensures Better(max, Best(b, even, max, acts), Best(b, even, max, acts'))
  {
    BestBounds(b, even, max, acts);
    BestBounds(b, even, max, acts');
    var i :| 0 <= i < |acts'| && Best(b, even, max, acts') == Minimax(Mark(b, acts'[i]), !even, !max);
    assert acts'[i] in acts;
    var j :| 0 <= j < |acts| && acts[j] == acts'[i];
    assert Better(max, Best(b, even, max, acts), Minimax(Mark(b, acts[j]), !even, !max));
  }

  // More moves are no worse.
  lemma BestGrows(b: seq<Board>, even: bool, max: bool, acts: seq<nat>, n: nat)
    requires BoardsOk(b) && AllFree(b, acts) && n <= |acts|
    ensures AllFree(b, acts[..n]) && Better(max, Best(b, even, max, acts), Best(b, even, max, acts[..n]))
  {
    if n > 0 {
      BestOver(b, even, max, acts, acts[..n]);
    }
  }

  lemma {:induction false} FreeListed(b: seq<Board>, m: nat, a: nat)
    requires BoardsOk(b) && m <= 9 * |b|
    ensures a in FreeCells(b, m) <==> a < m && Free(b, a)
  {
    if m > 0 { FreeListed(b, m - 1, a); }
  }

  // A board without three in a row has an empty cell, so there is a move until the game is over.
  lemma MoveExists(b: seq<Board>)
    requires BoardsOk(b) && !Over(b)
    ensures FreeCells(b, 9 * |b|) != []
  {
    var i :| 0 <= i < |b| && !Won(b[i]);
    var j := EmptyCell(b[i]);
    var a := 9 * i + j;
    assert a / 9 == i && a % 9 == j;
    FreeListed(b, 9 * |b|, a);
  }

  lemma EmptyCell(b: Board) returns (j: nat)
    requires |b| == 9 && !Won(b) && forall k :: 0 <= k < 9 ==> b[k] == '0' || b[k] == 'x'
    ensures j < 9 && b[j] == '0'
  {
    j := if b[0] == '0' then 0 else if b[1] == '0' then 1 else 2;
  }

  // The result of the game is decided: 1 or -1.
  lemma {:induction false} Decided(b: seq<Board>, even: bool, max: bool)
    requires BoardsOk(b)
    ensures Minimax(b, even, max) == Finite(1.0) || Minimax(b, even, max) == Finite(-1.0)
    decreases Empty(b, 9 * |b|)
  {
    if !Over(b) {
      var acts := FreeCells(b, 9 * |b|);
      MoveExists(b);
      BestBounds(b, even, max, acts);
      var i :| 0 <= i < |acts| && Best(b, even, max, acts) == Minimax(Mark(b, acts[i]), !even, !max);
      assert Free(b, acts[i]);
      MarkEmpty(b, acts[i], 9 * |b|);
      Decided(Mark(b, acts[i]), !even, !max);
    }
  }

  // Whether the player to move can force a win, told without values: on finished boards he has
  // won, and otherwise he needs a move after which the other cannot.
  ghost predicate MoverWins(b: seq<Board>)
    requires BoardsOk(b)
    decreases Empty(b, 9 * |b|), 1
  {
    Over(b) || exists a: nat :: a < 9 * |b| && MoveWins(b, a)
  }

  ghost predicate MoveWins(b: seq<Board>, a: nat)
    requires BoardsOk(b)
    decreases Empty(b, 9 * |b|), 0
  {
    Free(b, a) && (MarkEmpty(b, a, 9 * |b|); !MoverWins(Mark(b, a)))
  }

  // So the value is 1 exactly when player 1 can force a win, whoever of the two is to move.
  lemma {:induction false} ValueTellsWinner(b: seq<Board>, even: bool)
    requires BoardsOk(b)
    ensures Minimax(b, even, even) == Finite(1.0) <==> MoverWins(b) == even
    decreases Empty(b, 9 * |b|)
  {
    if !Over(b) {
      var acts := FreeCells(b, 9 * |b|);
      MoveExists(b);
      BestBounds(b, even, even, acts);
      forall a: nat | a < 9 * |b| && Free(b, a)
        ensures MoveWins(b, a) <==> Minimax(Mark(b, a), !even, !even) == Finite(if even then 1.0 else -1.0)
        ensures a in acts
      {
        MarkEmpty(b, a, 9 * |b|);
        ValueTellsWinner(Mark(b, a), !even);
        Decided(Mark(b, a), !even, !even);
        FreeListed(b, 9 * |b|, a);
      }
      Decided(b, even, even);
      BestWins(b, even, acts);
    }
  }

  // Some move leads to the best value if any move does.
  lemma BestWins(b: seq<Board>, even: bool, acts: seq<nat>)
    requires BoardsOk(b) && AllFree(b, acts) && acts != []
    requires Best(b, even, even, acts) == Finite(1.0) || Best(b, even, even, acts) == Finite(-1.0)
    ensures var won := Finite(if even then 1.0 else -1.0);
      Best(b, even, even, acts) == won <==>
        exists i :: 0 <= i < |acts| && Minimax(Mark(b, acts[i]), !even, !even) == won
  {
    BestBounds(b, even, even, acts);
  }

  // ---- Histories ----

  function EmptyBoard(): Board {
    "000000000"
  }

  // The boards after the actions of a history.
  ghost function Play(n: nat, h: seq<nat>): (b: seq<Board>)
    requires InRange(n, h)
    ensures BoardsOk(b) && |b| == n
  {
    if h == [] then seq(n, _ => EmptyBoard()) else Mark(Play(n, h[..|h| - 1]), h[|h| - 1])
  }

  ghost predicate InRange(n: nat, h: seq<nat>) {
    forall i :: 0 <= i < |h| ==> h[i] < 9 * n
  }

  // No cell is played twice.
  ghost predicate Legal(n: nat, h: seq<nat>) {
    InRange(n, h) && forall i, j :: 0 <= i < j < |h| ==> h[i] != h[j]
  }

  lemma MarkAt(b: seq<Board>, c: nat, a: nat)
    requires BoardsOk(b) && a < 9 * |b| && c < 9 * |b|
    ensures Mark(b, c)[a / 9][a % 9] == if a == c then 'x' else b[a / 9][a % 9]
  {
    if c != a {
      assert c == 9 * (c / 9) + c % 9 && a == 9 * (a / 9) + a % 9;
      assert c / 9 != a / 9 || c % 9 != a % 9;
    }
  }

  lemma PlayedAll(n: nat, h: seq<nat>)
    requires InRange(n, h)
    ensures forall a: nat :: a < 9 * n ==> Play(n, h)[a / 9][a % 9] == if a in h then 'x' else '0'
  {
    forall a: nat | a < 9 * n ensures Play(n, h)[a / 9][a % 9] == if a in h then 'x' else '0' {
      PlayAt(n, h, a);
    }
  }

  lemma {:induction false} PlayAt(n: nat, h: seq<nat>, a: nat)
    requires InRange(n, h) && a < 9 * n
    ensures Play(n, h)[a / 9][a % 9] == if a in h then 'x' else '0'
  {
    if h != [] {
      var front, c := h[..|h| - 1], h[|h| - 1];
      PlayAt(n, front, a);
      assert h == front + [c];
      MarkAt(Play(n, front), c, a);
    }
  }

  // The number of moves can be read off the boards.
  lemma {:induction false} MovesCounted(n: nat, h: seq<nat>)
    requires Legal(n, h)
    ensures Empty(Play(n, h), 9 * n) + |h| == 9 * n
  {
    if h == [] {
      AllEmpty(n, 9 * n);
    } else {
      var front, c := h[..|h| - 1], h[|h| - 1];
      MovesCounted(n, front);
      PlayAt(n, front, c);
      assert c !in front;
      MarkEmpty(Play(n, front), c, 9 * n);
    }
  }

  lemma {:induction false} AllEmpty(n: nat, m: nat)
    requires m <= 9 * n
    ensures Empty(Play(n, []), m) == m
  {
    if m > 0 {
      AllEmpty(n, m - 1);
      PlayAt(n, [], m - 1);
    }
  }

  // Boards as the key of the table.
  ghost function Key(b: seq<Board>): string {
    if b == [] then "" else Key(b[..|b| - 1]) + b[|b| - 1]
  }

  lemma {:induction false} KeyLength(b: seq<Board>)
    requires BoardsOk(b)
    ensures |Key(b)| == 9 * |b|
  {
    if b != [] { KeyLength(b[..|b| - 1]); }
  }

  lemma {:induction false} KeyTells(b: seq<Board>, c: seq<Board>)
    requires BoardsOk(b) && BoardsOk(c) && Key(b) == Key(c)
    ensures b == c
  {
    KeyLength(b);
    KeyLength(c);
    if b != [] {
      var p, q := Key(b[..|b| - 1]), Key(c[..|c| - 1]);
      KeyLength(b[..|b| - 1]);
      KeyLength(c[..|c| - 1]);
      assert p == Key(b)[..|p|] && q == Key(c)[..|q|];
      assert b[|b| - 1] == Key(b)[|p|..] && c[|c| - 1] == Key(c)[|q|..];
      KeyTells(b[..|b| - 1], c[..|c| - 1]);
      assert b == b[..|b| - 1] + [b[|b| - 1]] && c == c[..|c| - 1] + [c[|c| - 1]];
    }
  }

  ghost predicate Even(h: seq<nat>) {
    |h| % 2 == 0
  }

  // Two legal histories with the same key have the same boards, the same player to move,
  // and hence the same value.
  lemma SameKey(n: nat, h: seq<nat>, m: nat, g: seq<nat>)
    requires Legal(n, h) && Legal(m, g) && Key(Play(n, h)) == Key(Play(m, g))
    ensures Play(n, h) == Play(m, g) && Even(h) == Even(g)
    ensures forall max :: Minimax(Play(n, h), Even(h), max) == Minimax(Play(m, g), Even(g), max)
  {
    KeyTells(Play(n, h), Play(m, g));
    MovesCounted(n, h);
    MovesCounted(m, g);
  }

  // ---- The moves in the order they are tried ----

  // The test `a in [9*j + c for j in range(n)]`.
  predicate AtCell(a: nat, n: nat, c: nat) {
    exists j :: 0 <= j < n && a == 9 * j + c
  }

  predicate Center(a: nat, n: nat) {
    AtCell(a, n, 4)
  }

  predicate Corner(a: nat, n: nat) {
    AtCell(a, n, 0) || AtCell(a, n, 2) || AtCell(a, n, 6) || AtCell(a, n, 8)
  }

  // Centers first, then corners, then the rest.
  function Rank(a: nat, n: nat): nat {
    if Center(a, n) then 0 else if Corner(a, n) then 1 else 2
  }

  ghost function Ranked(acts: seq<nat>, n: nat, k: nat): seq<nat> {
    if acts == [] then [] else
      var a := acts[|acts| - 1];
      Ranked(acts[..|acts| - 1], n, k) + if Rank(a, n) == k then [a] else []
  }

  ghost function Ordered(acts: seq<nat>, n: nat): seq<nat> {
    Ranked(acts, n, 0) + Ranked(acts, n, 1) + Ranked(acts, n, 2)
  }

  // The order is a permutation: no move is lost and none is tried twice.
  lemma {:induction false} OrderedPermutes(acts: seq<nat>, n: nat)
    ensures multiset(Ordered(acts, n)) == multiset(acts)
  {
    if acts != [] {
      var front := acts[..|acts| - 1];
      OrderedPermutes(front, n);
      assert acts == front + [acts[|acts| - 1]];
    }
  }

  // Where a cell is on its board: in the middle, in a corner, or on an edge.
  function Kind(a: nat): nat {
    if a % 9 / 3 == 1 && a % 3 == 1 then 0 else if a % 9 / 3 != 1 && a % 3 != 1 then 1 else 2
  }

  // The order of the search: by kind, and among those of one kind by number.
  ghost predicate Before(a: nat, c: nat) {
    Kind(a) < Kind(c) || (Kind(a) == Kind(c) && a < c)
  }

  lemma RankIsKind(a: nat, n: nat)
    requires a < 9 * n
    ensures Rank(a, n) == Kind(a)
  {
    forall c: nat | c < 9 ensures AtCell(a, n, c) <==> a % 9 == c { CellIs(a, n, c); }
    hide AtCell;
    KindOf(a, a % 9);
  }

  lemma CellIs(a: nat, n: nat, c: nat)
    requires a < 9 * n && c < 9
    ensures AtCell(a, n, c) <==> a % 9 == c
  {
    if a % 9 == c { assert a == 9 * (a / 9) + c; }
  }

  lemma KindOf(a: nat, v: nat)
    requires a % 9 == v
    ensures Kind(a) == if v == 4 then 0 else if v in {0, 2, 6, 8} then 1 else 2
  {
    assert a == 3 * (3 * (a / 9)) + v;
    assert a % 3 == v % 3;
  }

  ghost predicate RisingBelow(acts: seq<nat>, m: nat) {
    (forall i :: 0 <= i < |acts| ==> acts[i] < m) && forall i, j :: 0 <= i < j < |acts| ==> acts[i] < acts[j]
  }

  lemma {:induction false} RankedRising(acts: seq<nat>, n: nat, k: nat, m: nat)
    requires RisingBelow(acts, m) && m <= 9 * n
    ensures RisingBelow(Ranked(acts, n, k), m)
    ensures forall i :: 0 <= i < |Ranked(acts, n, k)| ==> Kind(Ranked(acts, n, k)[i]) == k
  {
    if acts != [] {
      var a := acts[|acts| - 1];
      RankedRising(acts[..|acts| - 1], n, k, a);
      RankIsKind(a, n);
    }
  }

  lemma OrderedBefore(acts: seq<nat>, n: nat)
    requires RisingBelow(acts, 9 * n)
    ensures var o := Ordered(acts, n); forall i, j :: 0 <= i < j < |o| ==> Before(o[i], o[j])
  {
    RankedRising(acts, n, 0, 9 * n);
    RankedRising(acts, n, 1, 9 * n);
    RankedRising(acts, n, 2, 9 * n);
  }

  lemma {:induction false} FreeRising(b: seq<Board>, m: nat)
    requires BoardsOk(b) && m <= 9 * |b|
    ensures RisingBelow(FreeCells(b, m), m)
  {
    if m > 0 { FreeRising(b, m - 1); }
  }

  // The valid actions: the empty cells of the boards that are not won, each once, in that order.
  lemma ActionsAre(b: seq<Board>, acts: seq<nat>)
    requires BoardsOk(b) && acts == Ordered(FreeCells(b, 9 * |b|), |b|)
    ensures forall a: nat :: a in acts <==> a < 9 * |b| && !Won(b[a / 9]) && b[a / 9][a % 9] == '0'
    ensures forall i, j :: 0 <= i < j < |acts| ==> Before(acts[i], acts[j])
  {
    hide Ordered, FreeCells, Before, RisingBelow;
    var f := FreeCells(b, 9 * |b|);
    FreeRising(b, 9 * |b|);
    OrderedBefore(f, |b|);
    OrderedSame(f, |b|);
    forall a: nat ensures a in acts <==> a < 9 * |b| && !Won(b[a / 9]) && b[a / 9][a % 9] == '0' {
      FreeListed(b, 9 * |b|, a);
    }
  }

  lemma OrderedSame(acts: seq<nat>, n: nat)
    ensures forall a :: a in Ordered(acts, n) <==> a in acts
    ensures |Ordered(acts, n)| == |acts|
  {
    OrderedPermutes(acts, n);
    var o := Ordered(acts, n);
    forall a ensures a in o <==> a in acts {
      assert a in multiset(o) <==> a in multiset(acts);
    }
    assert |multiset(o)| == |multiset(acts)|;
  }

  lemma OrderedFree(b: seq<Board>, n: nat)
    requires BoardsOk(b) && |b| == n
    ensures var f := FreeCells(b, 9 * n); var o := Ordered(f, n);
      AllFree(b, o) && (o == [] <==> f == []) && (forall a :: a in o <==> a in f)
      && forall even, max :: Best(b, even, max, o) == Best(b, even, max, f)
  {
    var f := FreeCells(b, 9 * n);
    var o := Ordered(f, n);
    OrderedSame(f, n);
    hide Ordered, FreeCells, Best;
    forall i | 0 <= i < |o| ensures Free(b, o[i]) {
      assert o[i] in f;
      FreeListed(b, 9 * n, o[i]);
    }
    forall even, max ensures Best(b, even, max, o) == Best(b, even, max, f) { MoveOrder(b, even, max, o, f); }
  }

  function Sum(s: seq<int>): int {
    if s == [] then 0 else Sum(s[..|s| - 1]) + s[|s| - 1]
  }

  // Which boards are active: 1, or 0 once they have three in a row.
  ghost predicate Stats(b: seq<Board>, s: seq<int>)
    requires BoardsOk(b)
  {
    |s| == |b| && forall i :: 0 <= i < |b| ==> s[i] == if Won(b[i]) then 0 else 1
  }

  lemma {:induction false} SumZero(s: seq<int>)
    requires forall i :: 0 <= i < |s| ==> s[i] == 0 || s[i] == 1
    ensures Sum(s) >= 0 && (Sum(s) == 0 <==> forall i :: 0 <= i < |s| ==> s[i] == 0)
  {
    if s != [] { SumZero(s[..|s| - 1]); }
  }

  lemma NoCells(b: seq<Board>)
    requires BoardsOk(b)
    ensures FreeCells(b, 0) == []
  {
  }

  lemma OrderedParts(acts: seq<nat>, n: nat)
    ensures Ordered(acts, n) == Ranked(acts, n, 0) + Ranked(acts, n, 1) + Ranked(acts, n, 2)
  {
  }

  lemma FreeStep(b: seq<Board>, i: nat, j: nat)
    requires BoardsOk(b) && i < |b| && j < 9
    ensures FreeCells(b, 9 * i + j + 1) == FreeCells(b, 9 * i + j) + if !Won(b[i]) && b[i][j] == '0' then [9 * i + j] else []
  {
    assert (9 * i + j) / 9 == i && (9 * i + j) % 9 == j;
  }

  method IsBoardWin(board: Board) returns (r: bool)
    requires |board| == 9
    ensures r == Won(board)
    ensures Marked(board) ==> (r <==> HasLine(board))
  {
    if Marked(board) { WonLines(board); }
    hide HasLine;
    var i := 0;
    while i < 3
      invariant 0 <= i <= 3
      invariant i > 0 ==> !Same(board, 0, 1, 2) && !Same(board, 0, 3, 6)
      invariant i > 1 ==> !Same(board, 3, 4, 5) && !Same(board, 1, 4, 7)
      invariant i > 2 ==> !Same(board, 6, 7, 8) && !Same(board, 2, 5, 8)
    {
      if board[3 * i] == board[3 * i + 1] == board[3 * i + 2] && board[3 * i + 2] != '0' { return true; }
      if board[i] == board[i + 3] == board[i + 6] && board[i + 6] != '0' { return true; }
      i := i + 1;
    }
    if board[0] == board[4] == board[8] && board[8] != '0' { return true; }
    if board[2] == board[4] == board[6] && board[6] != '0' { return true; }
    return false;
  }

  class History {
    var numBoards: nat
    var history: seq<nat>
    var boards: seq<Board>
    var activeBoardStats: seq<int>
    var currentPlayer: nat

    ghost predicate Valid()
      reads this
    {
      && InRange(numBoards, history) && boards == Play(numBoards, history) && Stats(boards, activeBoardStats)
      && currentPlayer == if Even(history) then 1 else 2
    }

    constructor (n: nat, h: seq<nat>)
      requires InRange(n, h)
      ensures Valid() && numBoards == n && history == h
    {
      numBoards, history := n, h;
      new;
      boards := GetBoards();
      activeBoardStats := CheckActiveBoards();
      currentPlayer := GetCurrentPlayer();
    }

    // copy.deepcopy
    constructor Copy(other: History)
      requires other.Valid()
      ensures Valid() && numBoards == other.numBoards && history == other.history
    {
      numBoards, history, boards := other.numBoards, other.history, other.boards;
      activeBoardStats, currentPlayer := other.activeBoardStats, other.currentPlayer;
    }

    method GetBoards() returns (b: seq<Board>)
      requires InRange(numBoards, history)
      ensures b == Play(numBoards, history) && BoardsOk(b) && |b| == numBoards
      ensures forall a: nat :: a < 9 * numBoards ==> b[a / 9][a % 9] == if a in history then 'x' else '0'
    {
      PlayedAll(numBoards, history);
      b := [];
      var i := 0;
      while i < numBoards
        invariant 0 <= i <= numBoards && b == seq(i, _ => EmptyBoard())
      {
        b := b + [EmptyBoard()];
        i := i + 1;
      }
      i := 0;
      assert history[..0] == [];
      while i < |history|
        invariant 0 <= i <= |history| && InRange(numBoards, history[..i]) && b == Play(numBoards, history[..i])
      {
        var boardNum, playPosition := history[i] / 9, history[i] % 9;
        b := b[boardNum := b[boardNum][playPosition := 'x']];
        assert history[..i + 1][..i] == history[..i];
        i := i + 1;
      }
      assert history[..i] == history;
    }

    method CheckActiveBoards() returns (stats: seq<int>)
      requires BoardsOk(boards) && |boards| == numBoards
      ensures Stats(boards, stats)
    {
      stats := [];
      var i := 0;
      while i < numBoards
        invariant 0 <= i <= numBoards && |stats| == i
        invariant forall k :: 0 <= k < i ==> stats[k] == if Won(boards[k]) then 0 else 1
      {
        var win := IsBoardWin(boards[i]);
        stats := stats + [if win then 0 else 1];
        i := i + 1;
      }
    }

    method GetCurrentPlayer() returns (player: nat)
      ensures player == if Even(history) then 1 else 2
    {
      return if |history| % 2 == 0 then 1 else 2;
    }

    method GetBoardsStr() returns (s: string)
      requires BoardsOk(boards) && |boards| == numBoards
      ensures s == Key(boards)
    {
      s := "";
      var i := 0;
      while i < numBoards
        invariant 0 <= i <= numBoards && s == Key(boards[..i])
      {
        s := s + boards[i];
        assert boards[..i + 1][..i] == boards[..i];
        i := i + 1;
      }
      assert boards[..i] == boards;
    }

    method IsTerminalHistory() returns (over: bool)
      requires Valid()
      ensures over == Over(boards)
    {
      var stats := CheckActiveBoards();
      SumZero(stats);
      over := Sum(stats) == 0;
    }

    // Whoever is to move on finished boards has won.
    method GetValueGivenTerminalHistory() returns (v: Value)
      requires Valid() && Over(boards)
      ensures v == Finite(if Even(history) then 1.0 else -1.0)
    {
      v := Finite(if currentPlayer == 1 then 1.0 else -1.0);
    }

    method GetValidActions() returns (acts: seq<nat>)
      requires Valid()
      ensures acts == Ordered(FreeCells(boards, 9 * numBoards), numBoards)
      ensures forall a: nat :: a in acts <==> a < 9 * numBoards && !Won(boards[a / 9]) && boards[a / 9][a % 9] == '0'
      ensures forall i, j :: 0 <= i < j < |acts| ==> Before(acts[i], acts[j])
    {
      hide FreeCells, Ordered;
      var valid := [];
      var i := 0;
      assert FreeCells(boards, 0) == [] by { NoCells(boards); }
      while i < numBoards
        invariant 0 <= i <= numBoards && valid == FreeCells(boards, 9 * i)
      {
        var j := 0;
        while j < 9
          invariant 0 <= j <= 9 && valid == FreeCells(boards, 9 * i + j)
        {
          FreeStep(boards, i, j);
          if activeBoardStats[i] != 0 && boards[i][j] == '0' {
            valid := valid + [9 * i + j];
          }
          j := j + 1;
        }
        i := i + 1;
      }
      var centers := Filter(valid, 0);
      var corners := Filter(valid, 1);
      var edges := Filter(valid, 2);
      assert Ordered(valid, numBoards) == centers + corners + edges by { OrderedParts(valid, numBoards); }
      acts := centers + corners + edges;
      ActionsAre(boards, acts);
    }

    // One of the three loops that pick the centers, the corners and the rest.
    method Filter(valid: seq<nat>, k: nat) returns (acts: seq<nat>)
      ensures acts == Ranked(valid, numBoards, k)
    {
      acts := [];
      var i := 0;
      assert valid[..0] == [];
      while i < |valid|
        invariant 0 <= i <= |valid| && acts == Ranked(valid[..i], numBoards, k)
      {
        if Rank(valid[i], numBoards) == k { acts := acts + [valid[i]]; }
        assert valid[..i + 1][..i] == valid[..i];
        i := i + 1;
      }
      assert valid[..i] == valid;
    }

    method UpdateHistory(action: nat)
      requires Valid() && action < 9 * numBoards
      modifies this
      ensures Valid() && numBoards == old(numBoards) && history == old(history) + [action]
      ensures boards == Mark(old(boards), action)
    {
      history := history + [action];
      assert history[..|history| - 1] == old(history);
      boards := GetBoards();
      currentPlayer := GetCurrentPlayer();
      activeBoardStats := CheckActiveBoards();
    }
  }

  // ---- The searches ----

  // What alpha-beta promises of its result v for a position of value m: above alpha it is a
  // lower bound, and below beta an upper bound - so inside the window it is exact.
  ghost predicate Bounds(v: Value, m: Value, alpha: Value, beta: Value) {
    (Less(alpha, v) ==> Le(v, m)) && (Less(v, beta) ==> Le(m, v))
  }

  // Inside the window the result is the value of the position; outside it is a bound.
  lemma WindowResult(v: Value, m: Value, alpha: Value, beta: Value)
    requires Less(alpha, beta) && Bounds(v, m, alpha, beta)
    ensures Less(alpha, v) && Less(v, beta) ==> v == m
    ensures Le(v, alpha) ==> Le(m, v)
    ensures Le(beta, v) ==> Le(v, m)
  {
  }

  // With the full window the result is the value.
  lemma FullWindow(b: seq<Board>, even: bool, max: bool, v: Value)
    requires BoardsOk(b) && Bounds(v, Minimax(b, even, max), MinusInf, PlusInf)
    ensures v == Minimax(b, even, max)
  {
    Decided(b, even, max);
  }

  // The result so far, after the first n moves, at a maximizing (minimizing) position.
  ghost predicate SoFar(b: seq<Board>, even: bool, max: bool, acts: seq<nat>, n: nat, v: Value, alpha: Value,
                        beta: Value)
    requires BoardsOk(b) && AllFree(b, acts) && n <= |acts|
  {
    AllFree(b, acts[..n]) && Bounds(v, Best(b, even, max, acts[..n]), alpha, beta)
  }

  // The window of the loop is the one it was given, narrowed by the result so far, and not empty.
  ghost predicate Narrowed(max: bool, n: nat, v: Value, alpha0: Value, beta0: Value, alpha: Value, beta: Value) {
    && (n == 0 ==> v == Worst(max))
    && if max then alpha == Max(alpha0, v) && beta == beta0 && (n == 0 || Less(v, beta))
       else beta == Min(beta0, v) && alpha == alpha0 && (n == 0 || Less(alpha, v))
  }

  // One more move is looked at. The loop ends early when it cannot change the outcome.
  lemma NextMove(b: seq<Board>, even: bool, max: bool, acts: seq<nat>, n: nat, v: Value, alpha0: Value, beta0: Value,
                 alpha: Value, beta: Value, child: Value)
    requires BoardsOk(b) && AllFree(b, acts) && n < |acts| && SoFar(b, even, max, acts, n, v, alpha0, beta0)
    requires Narrowed(max, n, v, alpha0, beta0, alpha, beta)
    requires Bounds(child, Minimax(Mark(b, acts[n]), !even, !max), alpha, beta)
    ensures var w := if max then (if Less(v, child) then child else v) else if Less(child, v) then child else v;
      && SoFar(b, even, max, acts, n + 1, w, alpha0, beta0)
      && if max then beta == beta0 && (!Le(beta, w) ==> Narrowed(max, n + 1, w, alpha0, beta0, Max(alpha, child), beta))
         else alpha == alpha0 && (!Le(w, alpha) ==> Narrowed(max, n + 1, w, alpha0, beta0, alpha, Min(beta, child)))
  {
    BestStep(b, even, max, acts, n);
    assert n == 0 ==> Best(b, even, max, acts[..n]) == Worst(max);
  }

  lemma WideOpen(max: bool, alpha: Value, beta: Value)
    ensures Narrowed(max, 0, Worst(max), alpha, beta, alpha, beta)
  {
  }

  lemma Started(b: seq<Board>, even: bool, max: bool, acts: seq<nat>, alpha: Value, beta: Value)
    requires BoardsOk(b) && AllFree(b, acts)
    ensures SoFar(b, even, max, acts, 0, Worst(max), alpha, beta)
  {
    assert acts[..0] == [];
  }

  // The loop has seen every move, or has been cut off.
  lemma Searched(b: seq<Board>, even: bool, max: bool, acts: seq<nat>, n: nat, v: Value, alpha: Value, beta: Value)
    requires BoardsOk(b) && AllFree(b, acts) && n <= |acts| && SoFar(b, even, max, acts, n, v, alpha, beta)
    requires n == |acts| || if max then Le(beta, v) else Le(v, alpha)
    ensures Bounds(v, Best(b, even, max, acts), alpha, beta)
  {
    if n == |acts| {
      assert acts[..n] == acts;
    } else {
      BestGrows(b, even, max, acts, n);
    }
  }

  // Which player maximizes: the flag goes with the parity of the history.
  ghost predicate Flag(sigma: bool, even: bool, max: bool) {
    max == (even == sigma)
  }

  ghost predicate EntryOk(table: map<string, Value>, sigma: bool, n: nat, h: seq<nat>) {
    Legal(n, h) && Key(Play(n, h)) in table ==>
      table[Key(Play(n, h))] == Minimax(Play(n, h), Even(h), Even(h) == sigma)
  }

  // Every entry is the value of every legal history with that key.
  ghost predicate TableOk(table: map<string, Value>, sigma: bool) {
    forall n: nat, h: seq<nat> :: EntryOk(table, sigma, n, h)
  }

  // A table and a call of maxmin that go together.
  ghost predicate Fits(table: map<string, Value>, sigma: bool, h: seq<nat>, max: bool) {
    TableOk(table, sigma) && Flag(sigma, Even(h), max)
  }

  lemma TableExtended(table: map<string, Value>, sigma: bool, n: nat, h: seq<nat>)
    requires TableOk(table, sigma) && Legal(n, h)
    ensures TableOk(table[Key(Play(n, h)) := Minimax(Play(n, h), Even(h), Even(h) == sigma)], sigma)
  {
    var t := table[Key(Play(n, h)) := Minimax(Play(n, h), Even(h), Even(h) == sigma)];
    forall m: nat, g: seq<nat> ensures EntryOk(t, sigma, m, g) {
      assert EntryOk(table, sigma, m, g);
      if Legal(m, g) && Key(Play(m, g)) == Key(Play(n, h)) {
        SameKey(n, h, m, g);
      }
    }
  }

  // The best of the first n moves, one move further.
  lemma BestStep(b: seq<Board>, even: bool, max: bool, acts: seq<nat>, n: nat)
    requires BoardsOk(b) && AllFree(b, acts) && n < |acts|
    ensures AllFree(b, acts[..n]) && AllFree(b, acts[..n + 1])
    ensures Best(b, even, max, acts[..n + 1]) ==
      Pick(max, Best(b, even, max, acts[..n]), Minimax(Mark(b, acts[n]), !even, !max))
  {
    assert acts[..n + 1][..n] == acts[..n];
  }

  lemma LegalMove(n: nat, h: seq<nat>, a: nat)
    requires InRange(n, h) && Free(Play(n, h), a)
    ensures InRange(n, h + [a]) && Play(n, h + [a]) == Mark(Play(n, h), a) && Even(h + [a]) == !Even(h)
    ensures Legal(n, h) ==> Legal(n, h + [a])
    ensures Empty(Mark(Play(n, h), a), 9 * n) < Empty(Play(n, h), 9 * n)
  {
    assert (h + [a])[..|h|] == h;
    PlayAt(n, h, a);
    MarkEmpty(Play(n, h), a, 9 * n);
  }

  lemma TerminalIs(b: seq<Board>, even: bool, max: bool)
    requires BoardsOk(b) && Over(b)
    ensures Minimax(b, even, max) == Finite(if even then 1.0 else -1.0)
  {
  }

  lemma TerminalValue(b: seq<Board>, even: bool, max: bool, alpha: Value, beta: Value)
    requires BoardsOk(b) && Over(b)
    ensures Bounds(Finite(if even then 1.0 else -1.0), Minimax(b, even, max), alpha, beta)
  {
  }

  lemma MinimaxBest(b: seq<Board>, even: bool, max: bool)
    requires BoardsOk(b) && !Over(b)
    ensures Minimax(b, even, max) == Best(b, even, max, FreeCells(b, 9 * |b|))
  {
  }

  lemma BestStart(b: seq<Board>, even: bool, max: bool, acts: seq<nat>)
    requires BoardsOk(b) && AllFree(b, acts)
    ensures AllFree(b, acts[..0]) && Best(b, even, max, acts[..0]) == Worst(max)
  {
  }

  lemma TableAt(table: map<string, Value>, sigma: bool, n: nat, h: seq<nat>)
    requires TableOk(table, sigma)
    ensures EntryOk(table, sigma, n, h)
  {
  }

  // The key does not tell who maximizes, and it matters: after 2, 3, 5, 6, 7 on one board
  // the value is 1 if the player to move maximizes and -1 if he minimizes.
  lemma FlagMatters()
    ensures var h := [2, 3, 5, 6, 7];
      Legal(1, h) && Minimax(Play(1, h), Even(h), true) == Finite(1.0)
      && Minimax(Play(1, h), Even(h), false) == Finite(-1.0)
  {
    var b := ["00xx0xxx0"];
    ExampleBoard();
    ExampleMoves(b);
    hide Minimax;
    EndsNext(["0xxx0xxx0"]);
    Takes(b, 4, false, true);
    Decided(b, false, true);
    Takes(b, 1, false, false);
    Decided(b, false, false);
  }

  // So a table filled by searches with one flag is right for searches with another if and only if
  // the same player maximizes.
  lemma SharedTableIff(sigma: bool, tau: bool)
    ensures (forall table :: TableOk(table, sigma) ==> TableOk(table, tau)) <==> sigma == tau
  {
    if sigma != tau {
      var h := [2, 3, 5, 6, 7];
      FlagMatters();
      hide Minimax, Play, Key, TableOk, Even, Legal;
      var none: map<string, Value> := map[];
      EmptyTableOk(none, sigma);
      TableExtended(none, sigma, 1, h);
      var table := none[Key(Play(1, h)) := Minimax(Play(1, h), Even(h), Even(h) == sigma)];
      if TableOk(table, tau) {
        TableAt(table, tau, 1, h);
        assert false;
      }
      assert TableOk(table, sigma) && !TableOk(table, tau);
    }
  }

  lemma EmptyTableOk(table: map<string, Value>, sigma: bool)
    requires table == map[]
    ensures TableOk(table, sigma)
  {
  }

  lemma ExampleBoard()
    ensures var h := [2, 3, 5, 6, 7]; Legal(1, h) && Play(1, h) == ["00xx0xxx0"] && !Even(h)
  {
    var h := [2, 3, 5, 6, 7];
    var b := Play(1, h);
    forall a: nat | a < 9 ensures b[0][a] == if a in h then 'x' else '0' {
      PlayAt(1, h, a);
      assert a / 9 == 0 && a % 9 == a;
    }
    assert b[0] == "00xx0xxx0";
  }

  lemma ExampleMoves(b: seq<Board>)
    requires b == ["00xx0xxx0"]
    ensures BoardsOk(b) && !Over(b) && Free(b, 4) && Free(b, 1) && Mark(b, 1) == ["0xxx0xxx0"]
    ensures Minimax(Mark(b, 4), true, false) == Finite(1.0)
  {
    assert Mark(b, 4)[0] == "00xxxxxx0";
    assert Mark(b, 1)[0] == "0xxx0xxx0";
  }

  // The value is at least as good as that of any one move.
  lemma Takes(b: seq<Board>, a: nat, even: bool, max: bool)
    requires BoardsOk(b) && !Over(b) && Free(b, a)
    ensures Better(max, Minimax(b, even, max), Minimax(Mark(b, a), !even, !max))
  {
    var acts := FreeCells(b, 9 * |b|);
    FreeListed(b, 9 * |b|, a);
    BestBounds(b, even, max, acts);
    var i :| 0 <= i < |acts| && acts[i] == a;
  }

  // Every move on this board ends the game.
  lemma EndsNext(b: seq<Board>)
    requires BoardsOk(b) && b == ["0xxx0xxx0"]
    ensures Minimax(b, true, true) == Finite(-1.0)
  {
    var acts := FreeCells(b, 9);
    MoveExists(b);
    BestBounds(b, true, true, acts);
    var i :| 0 <= i < |acts| && Best(b, true, true, acts) == Minimax(Mark(b, acts[i]), false, false);
    hide Best, FreeCells;
    EndsWith(b, acts[i]);
  }

  lemma EndsWith(b: seq<Board>, a: nat)
    requires BoardsOk(b) && b == ["0xxx0xxx0"] && Free(b, a)
    ensures Over(Mark(b, a))
  {
    assert a == 0 || a == 4 || a == 8;
    var c := Mark(b, a);
    assert c[0] == if a == 0 then "xxxx0xxx0" else if a == 4 then "0xxxxxxx0" else "0xxx0xxxx";
  }

  // maxmin twice with one table, once for either player maximizing: the second search
  // returns what the first one found, right or not.
  method SearchTwice(hist: History, max: bool) returns (first: Value, second: Value)
    requires hist.Valid() && Legal(hist.numBoards, hist.history)
    ensures first == second == Minimax(hist.boards, Even(hist.history), max)
    ensures hist.numBoards == 1 && hist.history == [2, 3, 5, 6, 7] ==>
              second != Minimax(hist.boards, Even(hist.history), !max)
  {
    hide Minimax, Play, Key, TableOk;
    var search := new Search();
    ghost var sigma := Even(hist.history) == max;
    EmptyTableOk(search.table, sigma);
    first := search.MaxMin(hist, max, sigma);
    second := search.MaxMin(hist, !max, !sigma);
    FlagMatters();
  }

  class Search {
    var visited: seq<seq<nat>>
    var table: map<string, Value>

    constructor ()
      ensures visited == [] && table == map[]
    {
      visited, table := [], map[];
    }

    // A copy of the history with one more action.
    method After(hist: History, a: nat) returns (next: History)
      requires hist.Valid() && Free(hist.boards, a)
      ensures fresh(next) && next.Valid() && next.numBoards == hist.numBoards && next.history == hist.history + [a]
      ensures next.boards == Mark(hist.boards, a) && Even(next.history) == !Even(hist.history)
      ensures Legal(hist.numBoards, hist.history) ==> Legal(next.numBoards, next.history)
      ensures Empty(next.boards, 9 * next.numBoards) < Empty(hist.boards, 9 * hist.numBoards)
    {
      next := new History.Copy(hist);
      LegalMove(hist.numBoards, hist.history, a);
      next.UpdateHistory(a);
    }

    // alpha_beta_pruning
    method AlphaBeta(hist: History, alpha0: Value, beta0: Value, max: bool) returns (value: Value)
      requires hist.Valid()
      modifies this`visited
      ensures Bounds(value, Minimax(hist.boards, Even(hist.history), max), alpha0, beta0)
      ensures |visited| > |old(visited)| && visited[..|old(visited)| + 1] == old(visited) + [hist.history]
      decreases Empty(hist.boards, 9 * hist.numBoards)
    {
      hide Minimax, Best, Bounds, SoFar, Ordered, FreeCells, Empty, Play, Narrowed, Less, InRange, BoardsOk, Free, Mark, Stats;
      visited := visited + [hist.history];
      ghost var before := visited;
      ghost var b, even := hist.boards, Even(hist.history);
      ghost var n := hist.numBoards;
      var over := hist.IsTerminalHistory();
      if over {
        value := hist.GetValueGivenTerminalHistory();
        TerminalValue(b, even, max, alpha0, beta0);
        return;
      }
      var alpha, beta := alpha0, beta0;
      value := if max then MinusInf else PlusInf;
      var acts := hist.GetValidActions();
      OrderedFree(b, n);
      Started(b, even, max, acts, alpha0, beta0);
      assert Narrowed(max, 0, value, alpha0, beta0, alpha, beta) by { WideOpen(max, alpha0, beta0); }
      var i := 0;
      while i < |acts|
        invariant 0 <= i <= |acts| && SoFar(b, even, max, acts, i, value, alpha0, beta0)
        invariant |visited| >= |before| && visited[..|before|] == before
        invariant Narrowed(max, i, value, alpha0, beta0, alpha, beta)
      {
        var next := After(hist, acts[i]);
        var child := AlphaBeta(next, alpha, beta, !max);
        NextMove(b, even, max, acts, i, value, alpha0, beta0, alpha, beta, child);
        i := i + 1;
        if max {
          if Less(value, child) { value := child; }
          alpha := Max(alpha, child);
          if Le(beta, value) { break; }
        } else {
          if Less(child, value) { value := child; }
          beta := Min(beta, child);
          if Le(value, alpha) { break; }
        }
      }
      Searched(b, even, max, acts, i, value, alpha0, beta0);
      MinimaxBest(b, even, max);
    }

    // maxmin with the table of positions
    method MaxMin(hist: History, max: bool, ghost sigma: bool) returns (value: Value)
      requires hist.Valid() && Legal(hist.numBoards, hist.history)
      modifies this`table
      ensures Fits(old(table), sigma, hist.history, max) ==>
                value == Minimax(hist.boards, Even(hist.history), max) && TableOk(table, sigma)
      ensures Key(hist.boards) in old(table) ==> value == old(table)[Key(hist.boards)] && table == old(table)
      ensures Over(hist.boards) && Key(hist.boards) !in old(table) ==>
                value == Finite(if Even(hist.history) then 1.0 else -1.0) && table == old(table)
      ensures !Over(hist.boards) ==> Key(hist.boards) in table && table[Key(hist.boards)] == value
      ensures old(table).Keys <= table.Keys
      decreases Empty(hist.boards, 9 * hist.numBoards)
    {
      hide Minimax, Best, Ordered, FreeCells, Empty, Play, TableOk, Key, Mark, Free;
      ghost var b, even := hist.boards, Even(hist.history);
      ghost var n, h := hist.numBoards, hist.history;
      ghost var fits := Fits(table, sigma, h, max);
      var key := hist.GetBoardsStr();
      if key in table {
        if fits { TableAt(table, sigma, n, h); }
        return table[key];
      }
      var over := hist.IsTerminalHistory();
      if over {
        value := hist.GetValueGivenTerminalHistory();
        TerminalIs(b, even, max);
        return;
      }
      value := if max then MinusInf else PlusInf;
      var acts := hist.GetValidActions();
      OrderedFree(b, n);
      BestStart(b, even, max, acts);
      var i := 0;
      while i < |acts|
        invariant 0 <= i <= |acts| && AllFree(b, acts[..i]) && old(table).Keys <= table.Keys
        invariant fits ==> value == Best(b, even, max, acts[..i]) && TableOk(table, sigma)
      {
        var next := After(hist, acts[i]);
        var child := MaxMin(next, !max, sigma);
        BestStep(b, even, max, acts, i);
        if max {
          if Less(value, child) { value := child; }
        } else {
          if Less(child, value) { value := child; }
        }
        i := i + 1;
      }
      assert acts[..i] == acts;
      MinimaxBest(b, even, max);
      if fits { TableExtended(table, sigma, n, h); }
      table := table[key := value];
    }
  
    // solve_alpha_beta_pruning with the full window
    method Solve(hist: History, max: bool) returns (value: Value)
      requires hist.Valid()
      modifies this`visited
      ensures value == Minimax(hist.boards, Even(hist.history), max)
    {
      value := AlphaBeta(hist, MinusInf, PlusInf, max);
      FullWindow(hist.boards, Even(hist.history), max, value);
    }
  }
}
