// The module grid of the QR encoder: functional patterns and their reservation map, the two-column
// zig-zag that data bits follow, and how many modules it leaves for data in versions 1 to 5.
module QrGrid {
  import opened Gf256
  import opened QrBits

  datatype Cell = Cell(r: nat, c: nat)

  // ---- The zig-zag ---------------------------------------------------------------------------------

  function RowAt(n: nat, up: bool, i: nat): nat
    requires i < n
  {
    if up then n - 1 - i else i
  }

  // Columns c and c - 1, from the i-th row on in the direction of travel, right cell first.
  function RowsFrom(n: nat, c: nat, up: bool, i: nat): seq<Cell>
    requires 1 <= c < n && i <= n
    decreases n - i
  {
    if i == n then []
    else [Cell(RowAt(n, up, i), c), Cell(RowAt(n, up, i), c - 1)] + RowsFrom(n, c, up, i + 1)
  }

  // Column pairs from col leftwards; the vertical timing column 6 is stepped over.
  function PathFrom(n: nat, col: int, up: bool): seq<Cell>
    requires col < n
    decreases if col < 0 then 0 else col
  {
    if col <= 0 then []
    else
      var c := if col == 6 then 5 else col;
      RowsFrom(n, c, up, 0) + PathFrom(n, c - 2, !up)
  }

  function Path(n: nat): seq<Cell> {
    PathFrom(n, n - 1, true)
  }

  // The cells of a path that are not blocked, in order.
  function Free(blocked: set<Cell>, path: seq<Cell>): seq<Cell> {
    if |path| == 0 then []
    else Free(blocked, path[..|path| - 1]) + if path[|path| - 1] in blocked then [] else [path[|path| - 1]]
  }

  ghost predicate Distinct(s: seq<Cell>) {
    forall i, j :: 0 <= i < j < |s| ==> s[i] != s[j]
  }

  ghost predicate InPair(n: nat, c: nat, up: bool, i: nat, x: Cell) {
    x.r < n && (x.c == c || x.c + 1 == c) && i <= if up then n - 1 - x.r else x.r
  }

  lemma {:induction false} RowsDistinct(n: nat, c: nat, up: bool, i: nat)
    requires 1 <= c < n && i <= n
    ensures forall x :: x in RowsFrom(n, c, up, i) ==> InPair(n, c, up, i, x)
    ensures Distinct(RowsFrom(n, c, up, i))
    decreases n - i
  {
    if i < n {
      RowsDistinct(n, c, up, i + 1);
      var head, rest := [Cell(RowAt(n, up, i), c), Cell(RowAt(n, up, i), c - 1)], RowsFrom(n, c, up, i + 1);
      forall x | x in rest
        ensures x !in head
      {
        assert InPair(n, c, up, i + 1, x);
      }
      DistinctJoin(head, rest);
    }
  }

  lemma DistinctJoin(a: seq<Cell>, b: seq<Cell>)
    requires Distinct(a) && Distinct(b)
    requires forall x :: x in b ==> x !in a
    ensures Distinct(a + b)
  {
    var s := a + b;
    forall i, j | 0 <= i < j < |s|
      ensures s[i] != s[j]
    {
      if i < |a| && j >= |a| {
        assert s[j] in b && s[i] in a;
      }
    }
  }

  // The zig-zag never visits a cell twice, and stays inside the grid.
  lemma {:induction false} PathDistinct(n: nat, col: int, up: bool)
    requires col < n
    ensures forall x :: x in PathFrom(n, col, up) ==> x.r < n && x.c <= col
    ensures Distinct(PathFrom(n, col, up))
    decreases if col < 0 then 0 else col
  {
    if col > 0 {
      var c := if col == 6 then 5 else col;
      RowsDistinct(n, c, up, 0);
      PathDistinct(n, c - 2, !up);
      var head, rest := RowsFrom(n, c, up, 0), PathFrom(n, c - 2, !up);
      forall x | x in rest
        ensures x !in head
      {
        assert x.c <= c - 2;
        assert x in head ==> InPair(n, c, up, 0, x);
      }
      DistinctJoin(head, rest);
    }
  }

  lemma {:induction false} RowsCover(n: nat, c: nat, up: bool, i: nat, x: Cell)
    requires 1 <= c < n && i <= n && InPair(n, c, up, i, x)
    ensures x in RowsFrom(n, c, up, i)
    decreases n - i
  {
    if i < n && x.r != RowAt(n, up, i) {
      RowsCover(n, c, up, i + 1, x);
    }
  }

  // On a grid of odd size it visits every cell outside column 6.
  lemma {:induction false} PathCovers(n: nat, col: int, up: bool, x: Cell)
    requires col < n && x.r < n && x.c <= col && x.c != 6
    requires col > 6 ==> col % 2 == 0
    requires col < 6 ==> col % 2 != 0
    ensures x in PathFrom(n, col, up)
    decreases if col < 0 then 0 else col
  {
    var c := if col == 6 then 5 else col;
    if x.c >= c - 1 {
      RowsCover(n, c, up, 0, x);
    } else {
      PathCovers(n, c - 2, !up, x);
    }
  }

  lemma {:induction false} FreeJoin(blocked: set<Cell>, a: seq<Cell>, b: seq<Cell>)
    ensures Free(blocked, a + b) == Free(blocked, a) + Free(blocked, b)
    decreases |b|
  {
    if |b| == 0 {
      assert a + b == a;
    } else {
      var b' := b[..|b| - 1];
      assert (a + b)[..|a + b| - 1] == a + b';
      FreeJoin(blocked, a, b');
    }
  }

  lemma FreeMore(blocked: set<Cell>, path: seq<Cell>, x: Cell)
    ensures Free(blocked, path + [x]) == if x in blocked then Free(blocked, path) else Free(blocked, path) + [x]
  {
    assert (path + [x])[..|path|] == path;
  }

  lemma {:induction false} FreeMember(blocked: set<Cell>, path: seq<Cell>, x: Cell)
    ensures x in Free(blocked, path) <==> x in path && x !in blocked
  {
    if |path| > 0 {
      FreeMember(blocked, path[..|path| - 1], x);
      assert path == path[..|path| - 1] + [path[|path| - 1]];
    }
  }

  lemma {:induction false} FreeDistinct(blocked: set<Cell>, path: seq<Cell>)
    requires Distinct(path)
    ensures Distinct(Free(blocked, path))
  {
    if |path| > 0 {
      var init, last := path[..|path| - 1], path[|path| - 1];
      FreeDistinct(blocked, init);
      FreeMember(blocked, init, last);
      if last !in blocked {
        DistinctJoin(Free(blocked, init), [last]);
      }
    }
  }

  // ---- Functional patterns -------------------------------------------------------------------------

  function Size(version: nat): nat {
    17 + 4 * version
  }

  // The centre of the alignment pattern.
  function Centre(version: nat): nat {
    4 * version + 10
  }

  predicate InAlignment(version: nat, r: int, c: int) {
    var p := Centre(version);
    version >= 2 && p - 2 <= r <= p + 2 && p - 2 <= c <= p + 2
  }

  // Modules that never carry data: the three finder corners with separators and format strips, the two
  // timing lines, and the alignment pattern.
  predicate Functional(version: nat, r: int, c: int) {
    var n := Size(version);
    || (r <= 8 && c <= 8)
    || (r <= 8 && c >= n - 8)
    || (r >= n - 8 && c <= 8)
    || r == 6 || c == 6
    || InAlignment(version, r, c)
  }

  function FunctionalCells(version: nat): set<Cell> {
    set r: nat, c: nat | r < Size(version) && c < Size(version) && Functional(version, r, c) :: Cell(r, c)
  }

  // ---- Capacity ------------------------------------------------------------------------------------

  // How many of the first k modules of column c can carry data.
  function ColumnFree(version: nat, c: nat, k: nat): nat {
    if k == 0 then 0 else ColumnFree(version, c, k - 1) + if Functional(version, k - 1, c) then 0 else 1
  }

  function Clamp(x: int, high: nat): nat {
    if x < 0 then 0 else if x > high then high else x
  }

  // The same count by regions of the grid.
  function ColumnForm(version: nat, c: nat, k: nat): int {
    var n := Size(version);
    var hidden := if version >= 2 && n - 9 <= c <= n - 5 then Clamp(k - (n - 9), 5) else 0;
    if c == 6 then 0
    else if c <= 8 then Clamp(k - 9, n - 17)
    else if c <= n - 9 then k - (if k > 6 then 1 else 0) - hidden
    else Clamp(k - 9, n - 9) - hidden
  }

  lemma {:induction false} ColumnCount(version: nat, c: nat, k: nat)
    requires 1 <= version && c < Size(version) && k <= Size(version)
    ensures ColumnFree(version, c, k) == ColumnForm(version, c, k)
  {
    if k > 0 {
      ColumnCount(version, c, k - 1);
    }
  }

  lemma {:induction false} RowsCount(version: nat, c: nat, up: bool, i: nat)
    requires 1 <= c < Size(version) && i <= Size(version)
    ensures |Free(FunctionalCells(version), RowsFrom(Size(version), c, up, i))|
         == if up
            then ColumnFree(version, c, Size(version) - i) + ColumnFree(version, c - 1, Size(version) - i)
            else (ColumnFree(version, c, Size(version)) - ColumnFree(version, c, i)
                  + ColumnFree(version, c - 1, Size(version)) - ColumnFree(version, c - 1, i))
    decreases Size(version) - i
  {
    hide Functional;
    var n := Size(version);
    if i < n {
      RowsCount(version, c, up, i + 1);
      var r := RowAt(n, up, i);
      var head := [Cell(r, c), Cell(r, c - 1)];
      FreeJoin(FunctionalCells(version), head, RowsFrom(n, c, up, i + 1));
      FreeTwo(version, Cell(r, c), Cell(r, c - 1));
    }
  }

  lemma FreeTwo(version: nat, x: Cell, y: Cell)
    requires x.r < Size(version) && x.c < Size(version) && y.r < Size(version) && y.c < Size(version)
    ensures |Free(FunctionalCells(version), [x, y])|
         == (if Functional(version, x.r, x.c) then 0 else 1) + (if Functional(version, y.r, y.c) then 0 else 1)
  {
    hide Functional;
    var b := FunctionalCells(version);
    assert [x, y][..1] == [x] && [x][..0] == [];
    assert x in b <==> Functional(version, x.r, x.c);
    assert y in b <==> Functional(version, y.r, y.c);
    assert Free(b, []) == [];
  }

  // What the pair (c, c - 1) offers.
  function PairFree(version: nat, c: nat): int
    requires c >= 1
  {
    ColumnForm(version, c, Size(version)) + ColumnForm(version, c - 1, Size(version))
  }

  lemma PathCountStep(version: nat, col: int, up: bool)
    requires 1 <= version && 1 <= col < Size(version)
    ensures var c := if col == 6 then 5 else col;
      |Free(FunctionalCells(version), PathFrom(Size(version), col, up))|
      == PairFree(version, c) + |Free(FunctionalCells(version), PathFrom(Size(version), c - 2, !up))|
  {
    hide ColumnForm, Functional, FunctionalCells, Free;
    var n, c := Size(version), if col == 6 then 5 else col;
    FreeJoin(FunctionalCells(version), RowsFrom(n, c, up, 0), PathFrom(n, c - 2, !up));
    RowsCount(version, c, up, 0);
    ColumnCount(version, c, n);
    ColumnCount(version, c - 1, n);
    assert ColumnFree(version, c, 0) == 0 && ColumnFree(version, c - 1, 0) == 0;
  }

  // Columns 8 and below: four pairs beside the timing column.
  lemma PathCountLeft(version: nat, up: bool)
    requires 1 <= version
    ensures |Free(FunctionalCells(version), PathFrom(Size(version), 8, up))| == 8 * (Size(version) - 17)
  {
    hide Free, FunctionalCells, PathFrom, Functional;
    PathCountStep(version, 8, up);
    PathCountStep(version, 6, !up);
    PathCountStep(version, 3, up);
    PathCountStep(version, 1, !up);
    NoColumns(version, up);
  }

  lemma OneMorePair(a: int, b: int)
    ensures (a - 8) * b == (a - 10) * b + 2 * b
  {
  }

  // The pairs to the right of the timing column and left of the top-right finder, n - 17 columns wide.
  lemma {:induction false} PathCountMiddle(version: nat, col: nat, up: bool)
    requires 1 <= version && 8 <= col <= Size(version) - 11 && col % 2 == 0
    ensures |Free(FunctionalCells(version), PathFrom(Size(version), col, up))|
         == 8 * (Size(version) - 17) + (col - 8) * (Size(version) - 1)
    decreases col
  {
    hide Free, FunctionalCells, PathFrom, Functional;
    if col == 8 {
      PathCountLeft(version, up);
    } else {
      PathCountStep(version, col, up);
      PathCountMiddle(version, col - 2, !up);
      OneMorePair(col, Size(version) - 1);
    }
  }

  lemma NoColumns(version: nat, up: bool)
    ensures |Free(FunctionalCells(version), PathFrom(Size(version), -1, up))| == 0
  {
  }

  // The number of data modules of each version, exactly.
  lemma Capacity(version: nat)
    requires 1 <= version <= 5
    ensures |Free(FunctionalCells(version), Path(Size(version)))| == [208, 359, 567, 807, 1079][version - 1]
  {
    hide Free, FunctionalCells, PathFrom;
    var n := Size(version);
    PathCountStep(version, n - 1, true);
    PathCountStep(version, n - 3, false);
    PathCountStep(version, n - 5, true);
    PathCountStep(version, n - 7, false);
    PathCountStep(version, n - 9, true);
    PathCountMiddle(version, n - 11, false);
    assert (n - 19) * (n - 1) == if version == 1 then 40 else if version == 2 then 144 else if version == 3 then 280
      else if version == 4 then 448 else 648;
  }
}
