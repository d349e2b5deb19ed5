// The QR encoder itself: the mutable module matrix, functional patterns, zig-zag placement, masking and
// mask choice, and the reader that recovers the encoded bytes from the finished modules.
module QrCode {
  import opened Gf256
  import opened QrBits
  import opened QrGrid
  import opened QrVisits
  import RS = ReedSolomon

  const DATA_CODEWORDS_L := [19, 34, 55, 80, 108]
  const EC_CODEWORDS_L := [7, 10, 15, 20, 26]

  // The smallest of versions 1..5 that holds byteLen bytes, or 0.
  method PickVersion(byteLen: nat) returns (version: nat)
    ensures version <= 5
    ensures version == 0 <==> byteLen > 106
    ensures version > 0 ==> byteLen + 2 <= DATA_CODEWORDS_L[version - 1]
    ensures forall i :: 0 <= i < version - 1 ==> byteLen + 2 > DATA_CODEWORDS_L[i]
  {
    var v := 1;
    while v <= 5
      invariant 1 <= v <= 6
      invariant forall i :: 0 <= i < v - 1 ==> byteLen + 2 > DATA_CODEWORDS_L[i]
    {
      var capacityBytes := DATA_CODEWORDS_L[v - 1] - 2;
      if byteLen <= capacityBytes {
        return v;
      }
      v := v + 1;
    }
    assert byteLen + 2 > DATA_CODEWORDS_L[4];
    return 0;
  }

  function MaskCondition(mask: nat, r: nat, c: nat): bool {
    match mask
    case 0 => (r + c) % 2 == 0
    case 1 => r % 2 == 0
    case 2 => c % 3 == 0
    case 3 => (r + c) % 3 == 0
    case 4 => (r / 2 + c / 3) % 2 == 0
    case 5 => (r * c) % 2 + (r * c) % 3 == 0
    case 6 => ((r * c) % 2 + (r * c) % 3) % 2 == 0
    case _ => ((r + c) % 2 + (r * c) % 3) % 2 == 0
  }

  // x ^ 1
  function FlipLow(x: int): int {
    if x % 2 == 0 then x + 1 else x - 1
  }

  ghost predicate Square<T>(rows: seq<seq<T>>, size: nat) {
    |rows| == size && forall r :: 0 <= r < size ==> |rows[r]| == size
  }

  // Which format bit a module carries, or -1.
  function FormatIndex(size: nat, r: int, c: int): int {
    if r == 8 then
      if c <= 5 then c
      else if c == 7 || c == 8 then c - 1
      else if c >= size - 8 then size - 1 - c
      else -1
    else if c == 8 then
      if r <= 5 then 14 - r
      else if r == 7 then 8
      else if r >= size - 7 then r - (size - 15)
      else -1
    else -1
  }

  // Bit i of the codewords; modules past the last bit get 0.
  function BitOrZero(bytes: seq<byte>, i: nat): bit {
    if i < 8 * |bytes| then BitAt(bytes, i) else 0
  }

  function Abs(x: int): nat {
    if x < 0 then -x else x
  }

  function Chebyshev(r: int, c: int): nat {
    if Abs(r) > Abs(c) then Abs(r) else Abs(c)
  }

  // A finder seen from its centre: dark core of radius 1, light ring 2, dark ring 3, light separator 4.
  predicate FinderDark(r: int, c: int) {
    Chebyshev(r, c) in {0, 1, 3}
  }

  predicate InFinder(top: int, left: int, r: int, c: int) {
    top - 1 <= r <= top + 7 && left - 1 <= c <= left + 7
  }

  class Matrix {
    const size: nat
    const m: array2<int>
    const reserved: array2<bool>

    ghost predicate Valid()
      reads this
    {
      && m.Length0 == m.Length1 == size
      && reserved.Length0 == reserved.Length1 == size
    }

    ghost function Blocked(): set<Cell>
      reads this, reserved
      requires Valid()
    {
      set r: nat, c: nat | r < size && c < size && reserved[r, c] :: Cell(r, c)
    }

    constructor (n: nat)
      ensures Valid() && size == n && fresh(m) && fresh(reserved)
      ensures forall r, c :: 0 <= r < n && 0 <= c < n ==> m[r, c] == -1 && !reserved[r, c]
    {
      size := n;
      m := new int[n, n]((_, _) => -1);
      reserved := new bool[n, n]((_, _) => false);
    }

    method SetModule(r: nat, c: nat, dark: bool)
      requires Valid() && r < size && c < size
      modifies m, reserved
      ensures m[r, c] == (if dark then 1 else 0) && reserved[r, c]
      ensures forall i, j :: 0 <= i < size && 0 <= j < size && (i != r || j != c) ==>
        m[i, j] == old(m[i, j]) && reserved[i, j] == old(reserved[i, j])
    {
      m[r, c] := if dark then 1 else 0;
      reserved[r, c] := true;
    }

    // One row of a finder with its separator; cells outside the grid are skipped.
    method FinderRow(top: int, left: int, r: int)
      requires Valid() && -1 <= r <= 7 && 0 <= top + r < size
      modifies m, reserved
      ensures forall i, j :: 0 <= i < size && 0 <= j < size ==>
        if i == top + r && InFinder(top, left, i, j)
        then reserved[i, j] && m[i, j] == (if FinderDark(i - top - 3, j - left - 3) then 1 else 0)
        else m[i, j] == old(m[i, j]) && reserved[i, j] == old(reserved[i, j])
    {
      var c := -1;
      while c <= 7
        invariant -1 <= c <= 8
        invariant forall i, j :: 0 <= i < size && 0 <= j < size ==>
          if i == top + r && left - 1 <= j < left + c
          then reserved[i, j] && m[i, j] == (if FinderDark(i - top - 3, j - left - 3) then 1 else 0)
          else m[i, j] == old(m[i, j]) && reserved[i, j] == old(reserved[i, j])
      {
        var rr, cc := top + r, left + c;
        if !(cc < 0 || cc >= size) {
          var inRing := 0 <= r <= 6 && 0 <= c <= 6;
          var isBorder := r == 0 || r == 6 || c == 0 || c == 6;
          var isCore := 2 <= r <= 4 && 2 <= c <= 4;
          SetModule(rr, cc, inRing && (isBorder || isCore));
        }
        c := c + 1;
      }
    }

    method PlaceFinder(top: int, left: int)
      requires Valid()
      modifies m, reserved
      ensures forall i, j :: 0 <= i < size && 0 <= j < size ==>
        if InFinder(top, left, i, j)
        then reserved[i, j] && m[i, j] == (if FinderDark(i - top - 3, j - left - 3) then 1 else 0)
        else m[i, j] == old(m[i, j]) && reserved[i, j] == old(reserved[i, j])
    {
      var r := -1;
      while r <= 7
        invariant -1 <= r <= 8
        invariant forall i, j :: 0 <= i < size && 0 <= j < size ==>
          if InFinder(top, left, i, j) && i < top + r
          then reserved[i, j] && m[i, j] == (if FinderDark(i - top - 3, j - left - 3) then 1 else 0)
          else m[i, j] == old(m[i, j]) && reserved[i, j] == old(reserved[i, j])
      {
        if 0 <= top + r < size {
          FinderRow(top, left, r);
        }
        r := r + 1;
      }
    }

    // The 5x5 alignment pattern around (cr, cc): dark border, light ring, dark centre.
    method PlaceAlignment(cr: nat, cc: nat)
      requires Valid() && 2 <= cr && cr + 2 < size && 2 <= cc && cc + 2 < size
      modifies m, reserved
      ensures forall i, j :: 0 <= i < size && 0 <= j < size ==>
        if cr - 2 <= i <= cr + 2 && cc - 2 <= j <= cc + 2
        then reserved[i, j] && m[i, j] == (if Chebyshev(i - cr, j - cc) != 1 then 1 else 0)
        else m[i, j] == old(m[i, j]) && reserved[i, j] == old(reserved[i, j])
    {
      var r := -2;
      while r <= 2
        invariant -2 <= r <= 3
        invariant forall i, j :: 0 <= i < size && 0 <= j < size ==>
          if cr - 2 <= i < cr + r && cc - 2 <= j <= cc + 2
          then reserved[i, j] && m[i, j] == (if Chebyshev(i - cr, j - cc) != 1 then 1 else 0)
          else m[i, j] == old(m[i, j]) && reserved[i, j] == old(reserved[i, j])
      {
        AlignmentRow(cr, cc, r);
        r := r + 1;
      }
    }

    method AlignmentRow(cr: nat, cc: nat, r: int)
      requires Valid() && 2 <= cr && cr + 2 < size && 2 <= cc && cc + 2 < size && -2 <= r <= 2
      modifies m, reserved
      ensures forall i, j :: 0 <= i < size && 0 <= j < size ==>
        if i == cr + r && cc - 2 <= j <= cc + 2
        then reserved[i, j] && m[i, j] == (if Chebyshev(i - cr, j - cc) != 1 then 1 else 0)
        else m[i, j] == old(m[i, j]) && reserved[i, j] == old(reserved[i, j])
    {
      var c := -2;
      while c <= 2
        invariant -2 <= c <= 3
        invariant forall i, j :: 0 <= i < size && 0 <= j < size ==>
          if i == cr + r && cc - 2 <= j < cc + c
          then reserved[i, j] && m[i, j] == (if Chebyshev(i - cr, j - cc) != 1 then 1 else 0)
          else m[i, j] == old(m[i, j]) && reserved[i, j] == old(reserved[i, j])
      {
        SetModule(cr + r, cc + c, Chebyshev(r, c) != 1);
        c := c + 1;
      }
    }

    method PlaceTiming()
      requires Valid() && size >= 17
      modifies m, reserved
      ensures forall i, j :: 0 <= i < size && 0 <= j < size ==>
        if (i == 6 && 8 <= j < size - 8) || (j == 6 && 8 <= i < size - 8)
        then reserved[i, j] && m[i, j] == (if (i + j) % 2 == 0 then 1 else 0)
        else m[i, j] == old(m[i, j]) && reserved[i, j] == old(reserved[i, j])
    {
      var k := 8;
      while k < size - 8
        invariant 8 <= k <= size - 8
        invariant forall i, j :: 0 <= i < size && 0 <= j < size ==>
          if (i == 6 && 8 <= j < k) || (j == 6 && 8 <= i < k)
          then reserved[i, j] && m[i, j] == (if (i + j) % 2 == 0 then 1 else 0)
          else m[i, j] == old(m[i, j]) && reserved[i, j] == old(reserved[i, j])
      {
        var dark := k % 2 == 0;
        SetModule(6, k, dark);
        SetModule(k, 6, dark);
        k := k + 1;
      }
    }

    // Reserve the format-information strips; only the always-dark module is written.
    method ReserveFormat()
      requires Valid() && size >= 21
      modifies m, reserved
      ensures forall i, j :: 0 <= i < size && 0 <= j < size ==>
        reserved[i, j] == (old(reserved[i, j]) || InFormat(i, j))
      ensures forall i, j :: 0 <= i < size && 0 <= j < size ==>
        m[i, j] == if i == size - 8 && j == 8 then 1 else old(m[i, j])
    {
      var i := 0;
      while i <= 8
        invariant 0 <= i <= 9
        invariant forall r, c :: 0 <= r < size && 0 <= c < size ==> m[r, c] == old(m[r, c])
        invariant forall r, c :: 0 <= r < size && 0 <= c < size ==>
          reserved[r, c] == (old(reserved[r, c]) || (r == 8 && c < i && c != 6) || (c == 8 && r < i && r != 6))
      {
        if i != 6 {
          reserved[8, i] := true;
          reserved[i, 8] := true;
        }
        i := i + 1;
      }
      i := 0;
      while i < 8
        invariant 0 <= i <= 8
        invariant forall r, c :: 0 <= r < size && 0 <= c < size ==> m[r, c] == old(m[r, c])
        invariant forall r, c :: 0 <= r < size && 0 <= c < size ==>
          reserved[r, c] == (old(reserved[r, c]) || (r == 8 && c <= 8 && c != 6) || (c == 8 && r <= 8 && r != 6)
                             || (r == 8 && c >= size - i) || (c == 8 && r >= size - i))
      {
        reserved[8, size - 1 - i] := true;
        reserved[size - 1 - i, 8] := true;
        i := i + 1;
      }
      reserved[size - 8, 8] := true;
      m[size - 8, 8] := 1;
    }

    predicate InFormat(i: int, j: int) {
      || (i == 8 && j <= 8 && j != 6) || (j == 8 && i <= 8 && i != 6)
      || (i == 8 && j >= size - 8) || (j == 8 && i >= size - 8)
    }

    // Data bits along the zig-zag: the k-th module that is not reserved gets bit k, the others keep theirs.
    // Nothing is assumed of the reservation map.
    method PlaceData(bytes: seq<byte>)
      requires Valid()
      modifies m
      ensures var free := Free(Blocked(), Path(size));
        forall k :: 0 <= k < |free| ==> free[k].r < size && free[k].c < size
                                        && m[free[k].r, free[k].c] == BitOrZero(bytes, k)
      ensures forall r: nat, c: nat :: r < size && c < size && m[r, c] != old(m[r, c]) ==>
        Cell(r, c) in Free(Blocked(), Path(size))
      ensures size % 2 == 1 && size > 7 ==> forall p: nat, i: nat, d: nat ::
        2 * p + 2 < size && i < size && d < 2 && Visit(size, p, i, d) !in Blocked() ==>
          At(Visit(size, p, i, d)) == BitOrZero(bytes, |FreeBefore(Blocked(), size, p, i, d)|)
    {
      hide Free, RowsFrom, BitOrZero, Distinct, Placed, FreeBefore;
      var bitIndex := 0;
      var col := size as int - 1;
      var upward := true;
      ghost var blocked := Blocked();
      ghost var seen: seq<Cell> := [];
      PathDistinct(size, col, true);
      StartPlaced(bytes, blocked);
      ghost var path := Path(size);
      while col > 0
        invariant col < size
        invariant seen + PathFrom(size, col, upward) == path
        invariant Placed(bytes, blocked, seen, bitIndex) && Blocked() == blocked
        invariant Untouched(blocked, seen)
        decreases col
      {
        if col == 6 {
          col := col - 1;
        }
        ghost var later := PathFrom(size, col - 2, !upward);
        ghost var more := seen + RowsFrom(size, col, upward, 0);
        assert more + later == path;
        bitIndex := PlaceColumns(bytes, col, upward, bitIndex, seen, later);
        seen := more;
        upward := !upward;
        col := col - 2;
      }
      assert seen == path;
      forall x: Cell
        ensures x in Free(blocked, seen) <==> x in seen && x !in blocked
      {
        FreeMember(blocked, seen, x);
      }
      FinishPlaced(bytes, blocked, bitIndex);
      VisitsPlaced(bytes);
    }

    // So each visit finds its bit by how many free modules were visited before.
    lemma VisitsPlaced(bytes: seq<byte>)
      requires Valid()
      requires var free := Free(Blocked(), Path(size));
        forall k :: 0 <= k < |free| ==> free[k].r < size && free[k].c < size
                                        && m[free[k].r, free[k].c] == BitOrZero(bytes, k)
      ensures size % 2 == 1 && size > 7 ==> forall p: nat, i: nat, d: nat ::
        2 * p + 2 < size && i < size && d < 2 && Visit(size, p, i, d) !in Blocked() ==>
          At(Visit(size, p, i, d)) == BitOrZero(bytes, |FreeBefore(Blocked(), size, p, i, d)|)
    {
      hide Free, Path, BitOrZero, FreeBefore;
      if size % 2 == 1 && size > 7 {
        forall p: nat, i: nat, d: nat |
          2 * p + 2 < size && i < size && d < 2 && Visit(size, p, i, d) !in Blocked()
          ensures At(Visit(size, p, i, d)) == BitOrZero(bytes, |FreeBefore(Blocked(), size, p, i, d)|)
        {
          FreeVisit(Blocked(), size, p, i, d);
        }
      }
    }

    // The module of a cell inside the grid.
    ghost function At(x: Cell): int
      reads this, m
      requires Valid()
    {
      if x.r < size && x.c < size then m[x.r, x.c] else -1
    }

    // Two columns, in the direction of travel.
    method PlaceColumns(bytes: seq<byte>, col: nat, upward: bool, start: nat, ghost seen0: seq<Cell>,
                        ghost later: seq<Cell>)
      returns (bitIndex: nat)
      requires Valid() && 1 <= col < size
      requires Distinct(seen0 + RowsFrom(size, col, upward, 0) + later)
      requires Placed(bytes, Blocked(), seen0, start)
      modifies m
      ensures Placed(bytes, Blocked(), seen0 + RowsFrom(size, col, upward, 0), bitIndex)
      ensures Untouched(Blocked(), seen0 + RowsFrom(size, col, upward, 0))
    {
      hide Free, BitOrZero, Distinct, Placed;
      bitIndex := start;
      ghost var seen := seen0;
      ghost var whole := seen0 + RowsFrom(size, col, upward, 0);
      ghost var blocked := Blocked();
      assert seen + RowsFrom(size, col, upward, 0) + later == whole + later;
      var i := 0;
      while i < size
        invariant 0 <= i <= size
        invariant seen + RowsFrom(size, col, upward, i) == whole
        invariant Placed(bytes, blocked, seen, bitIndex) && Blocked() == blocked
        invariant Untouched(blocked, seen)
      {
        var row := if upward then size - 1 - i else i;
        ghost var pair := [Cell(row, col), Cell(row, col - 1)];
        ghost var after := RowsFrom(size, col, upward, i + 1);
        assert seen + pair + (after + later) == whole + later;
        bitIndex := PlaceRow(bytes, row, col, bitIndex, seen, after + later);
        seen := seen + pair;
        assert seen + after == whole;
        i := i + 1;
      }
      assert RowsFrom(size, col, upward, size) == [];
      assert seen == whole;
    }

    // The two cells of one row, right one first.
    method PlaceRow(bytes: seq<byte>, row: nat, col: nat, start: nat, ghost seen: seq<Cell>, ghost rest: seq<Cell>)
      returns (bitIndex: nat)
      requires Valid() && row < size && 1 <= col < size
      requires Distinct(seen + [Cell(row, col), Cell(row, col - 1)] + rest)
      requires Placed(bytes, Blocked(), seen, start)
      modifies m
      ensures Placed(bytes, Blocked(), seen + [Cell(row, col), Cell(row, col - 1)], bitIndex)
      ensures Untouched(Blocked(), [Cell(row, col), Cell(row, col - 1)])
    {
      hide Free, BitOrZero, Distinct, Placed;
      ghost var right, left := Cell(row, col), Cell(row, col - 1);
      ghost var all := seen + [right, left] + rest;
      assert seen + [right] + ([left] + rest) == all;
      assert (seen + [right]) + [left] + rest == all;
      assert (seen + [right]) + [left] == seen + [right, left];
      bitIndex := PlaceOne(bytes, row, col, start, seen, [left] + rest);
      bitIndex := PlaceOne(bytes, row, col - 1, bitIndex, seen + [right], rest);
    }

    // The bits placed so far.
    ghost predicate Placed(bytes: seq<byte>, blocked: set<Cell>, seen: seq<Cell>, bitIndex: nat)
      reads this, m
    {
      Valid() &&
      var done := Free(blocked, seen);
      && |done| == bitIndex
      && forall k :: 0 <= k < |done| ==> done[k].r < size && done[k].c < size
                                         && m[done[k].r, done[k].c] == BitOrZero(bytes, k)
    }

    lemma StartPlaced(bytes: seq<byte>, blocked: set<Cell>)
      requires Valid()
      ensures Placed(bytes, blocked, [], 0)
    {
    }

    lemma FinishPlaced(bytes: seq<byte>, blocked: set<Cell>, bitIndex: nat)
      requires Valid() && Placed(bytes, blocked, Path(size), bitIndex)
      ensures var free := Free(blocked, Path(size));
        forall k :: 0 <= k < |free| ==> free[k].r < size && free[k].c < size
                                        && m[free[k].r, free[k].c] == BitOrZero(bytes, k)
    {
      hide Free, Path, BitOrZero;
    }

    // Only free cells of `seen` have changed.
    twostate predicate Untouched(blocked: set<Cell>, seen: seq<Cell>)
      reads this, m
    {
      Valid() &&
      forall r: nat, c: nat :: r < size && c < size && m[r, c] != old(m[r, c]) ==>
        Cell(r, c) in seen && Cell(r, c) !in blocked
    }

    // One step of the zig-zag.
    method PlaceOne(bytes: seq<byte>, row: nat, c: nat, bitIndex: nat, ghost seen: seq<Cell>, ghost rest: seq<Cell>)
      returns (next: nat)
      requires Valid() && row < size && c < size
      requires Distinct(seen + [Cell(row, c)] + rest)
      requires Placed(bytes, Blocked(), seen, bitIndex)
      modifies m
      ensures Placed(bytes, Blocked(), seen + [Cell(row, c)], next)
      ensures Untouched(Blocked(), [Cell(row, c)])
    {
      hide BitOrZero;
      next := bitIndex;
      ghost var x := Cell(row, c);
      ghost var blocked := Blocked();
      ghost var done := Free(blocked, seen);
      assert x in blocked <==> reserved[row, c];
      FreeMember(blocked, seen, x);
      FreeMore(blocked, seen, x);
      NotSeen(seen, x, rest);
      hide Free, Distinct, Blocked;
      if !reserved[row, c] {
        assert forall k :: 0 <= k < bitIndex ==> done[k] != x && done[k] in done;
        m[row, c] := BitOrZero(bytes, bitIndex);
        next := bitIndex + 1;
        assert Blocked() == blocked;
        assert forall k :: 0 <= k < bitIndex ==> m[done[k].r, done[k].c] == BitOrZero(bytes, k);
      }
    }

    // Invert every data module that the mask selects.
    method ApplyMask(mask: nat)
      requires Valid()
      modifies m
      ensures forall r: nat, c: nat :: r < size && c < size ==>
        m[r, c] == if !reserved[r, c] && MaskCondition(mask, r, c) then FlipLow(old(m[r, c])) else old(m[r, c])
    {
      hide MaskCondition;
      var r := 0;
      while r < size
        invariant 0 <= r <= size
        invariant forall i: nat, j: nat :: i < size && j < size ==>
          m[i, j] == if i < r && !reserved[i, j] && MaskCondition(mask, i, j) then FlipLow(old(m[i, j]))
            else old(m[i, j])
      {
        var c := 0;
        while c < size
          invariant 0 <= c <= size
          invariant forall i: nat, j: nat :: i < size && j < size ==>
            m[i, j] == if (i < r || (i == r && j < c)) && !reserved[i, j] && MaskCondition(mask, i, j)
                       then FlipLow(old(m[i, j])) else old(m[i, j])
        {
          if !reserved[r, c] && MaskCondition(mask, r, c) {
            m[r, c] := FlipLow(m[r, c]);
          }
          c := c + 1;
        }
        r := r + 1;
      }
    }

    // Both copies of the 15 format bits. Nothing outside the format strips changes.
    method WriteFormat(bits: seq<bit>)
      requires Valid() && size >= 21 && |bits| == 15
      modifies m
      ensures forall r, c :: 0 <= r < size && 0 <= c < size ==>
        m[r, c] == if FormatIndex(size, r, c) >= 0 then bits[FormatIndex(size, r, c)] else old(m[r, c])
    {
      WriteTopLeft(bits);
      var i := 0;
      while i <= 7
        invariant 0 <= i <= 8
        invariant forall r, c :: 0 <= r < size && 0 <= c < size ==>
          m[r, c] == if FormatIndex(size, r, c) >= 0 && r <= 8 && (c <= 8 || c >= size - i)
                     then bits[FormatIndex(size, r, c)] else old(m[r, c])
      {
        m[8, size - 1 - i] := bits[i];
        i := i + 1;
      }
      i := 8;
      while i <= 14
        invariant 8 <= i <= 15
        invariant forall r, c :: 0 <= r < size && 0 <= c < size ==>
          m[r, c] == if FormatIndex(size, r, c) >= 0 && r < size - 15 + i
                     then bits[FormatIndex(size, r, c)] else old(m[r, c])
      {
        m[size - 15 + i, 8] := bits[i];
        i := i + 1;
      }
    }

    method WriteTopLeft(bits: seq<bit>)
      requires Valid() && size >= 21 && |bits| == 15
      modifies m
      ensures forall r, c :: 0 <= r < size && 0 <= c < size ==>
        m[r, c] == if FormatIndex(size, r, c) >= 0 && r <= 8 && c <= 8 then bits[FormatIndex(size, r, c)]
          else old(m[r, c])
    {
      var i := 0;
      while i <= 5
        invariant 0 <= i <= 6
        invariant forall r, c :: 0 <= r < size && 0 <= c < size ==>
          m[r, c] == if r == 8 && c < i then bits[c] else old(m[r, c])
      {
        m[8, i] := bits[i];
        i := i + 1;
      }
      m[8, 7] := bits[6];
      m[8, 8] := bits[7];
      m[7, 8] := bits[8];
      i := 9;
      while i <= 14
        invariant 9 <= i <= 15
        invariant forall r, c :: 0 <= r < size && 0 <= c < size ==>
          m[r, c] == if FormatIndex(size, r, c) >= 0 && 14 - i < r <= 8 && c <= 8
                     then bits[FormatIndex(size, r, c)] else old(m[r, c])
      {
        m[14 - i, 8] := bits[i];
        i := i + 1;
      }
    }

    // The grid as a value.
    method ToRows() returns (rows: seq<seq<int>>)
      requires Valid()
      ensures Square(rows, size)
      ensures forall r, c :: 0 <= r < size && 0 <= c < size ==> rows[r][c] == m[r, c]
    {
      rows := [];
      while |rows| < size
        invariant |rows| <= size
        invariant forall r :: 0 <= r < |rows| ==> |rows[r]| == size && forall c :: 0 <= c < size ==>
          rows[r][c] == m[r, c]
      {
        var row: seq<int> := [];
        while |row| < size
          invariant |row| <= size
          invariant forall c :: 0 <= c < |row| ==> row[c] == m[|rows|, c]
        {
          row := row + [m[|rows|, |row|]];
        }
        rows := rows + [row];
      }
    }
  }

  lemma NotSeen(seen: seq<Cell>, x: Cell, rest: seq<Cell>)
    requires Distinct(seen + [x] + rest)
    ensures x !in seen
  {
    var s := seen + [x] + rest;
    assert forall k :: 0 <= k < |seen| ==> s[k] == seen[k] && s[k] != s[|seen|];
  }

  // ---- Functional patterns of one version ----------------------------------------------------------

  // What buildFunctionalPatterns draws: three finders, the timing lines, the alignment pattern.
  ghost predicate Drawn(version: nat, r: int, c: int, value: int) {
    var n, p := Size(version), Centre(version);
    if r == n - 8 && c == 8 then value == 1
    else if InFinder(0, 0, r, c) then value == if FinderDark(r - 3, c - 3) then 1 else 0
    else if InFinder(0, n - 7, r, c) then value == if FinderDark(r - 3, c - (n - 4)) then 1 else 0
    else if InFinder(n - 7, 0, r, c) then value == if FinderDark(r - (n - 4), c - 3) then 1 else 0
    else if InAlignment(version, r, c) then value == if Chebyshev(r - p, c - p) != 1 then 1 else 0
    else (r == 6 || c == 6) ==> value == if (r + c) % 2 == 0 then 1 else 0
  }

  method BuildFunctionalPatterns(version: nat) returns (mx: Matrix)
    requires 1 <= version <= 5
    ensures fresh(mx) && fresh(mx.m) && fresh(mx.reserved) && mx.Valid() && mx.size == Size(version)
    ensures forall r: nat, c: nat :: r < mx.size && c < mx.size ==>
      mx.reserved[r, c] == Functional(version, r, c) && Drawn(version, r, c, mx.m[r, c])
  {
    hide FinderDark, Chebyshev;
    var size := 17 + 4 * version;
    mx := new Matrix(size);
    mx.PlaceFinder(0, 0);
    mx.PlaceFinder(0, size - 7);
    mx.PlaceFinder(size - 7, 0);
    mx.PlaceTiming();
    if version >= 2 {
      var p := 4 * version + 10;
      mx.PlaceAlignment(p, p);
    }
    mx.ReserveFormat();
  }
}
