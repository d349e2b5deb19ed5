// From text bytes to finished modules and back: the encoder entry point, a reader written independently
// of it, and the theorem that the reader returns the text for every text that fits.
module QrSymbol {
  import opened Wrappers
  import opened Gf256
  import opened QrBits
  import opened QrCodewords
  import opened QrGrid
  import opened QrVisits
  import opened QrCode
  import opened QrLayout
  import opened QrFormat
  import RS = ReedSolomon

  type Grid = seq<seq<int>>

  // ---- The reader -----------------------------------------------------------------------------------

  predicate ModuleAt(modules: seq<seq<bool>>, x: Cell) {
    x.r < |modules| && x.c < |modules[x.r]| && modules[x.r][x.c]
  }

  // Walk the zig-zag over the non-functional modules, undoing the mask.
  function ReadBits(modules: seq<seq<bool>>, path: seq<Cell>, mask: nat): (s: seq<bit>)
    ensures |s| == |path|
  {
    seq(|path|, k requires 0 <= k < |path| =>
      if ModuleAt(modules, path[k]) != MaskCondition(mask, path[k].r, path[k].c) then 1 else 0)
  }

  function Words(s: seq<bit>, count: nat): (w: seq<byte>)
    requires 8 * count <= |s|
    ensures |w| == count
  {
    seq(count, k requires 0 <= k < count => ReadByte(s, 8 * k))
  }

  function DataPath(version: nat): seq<Cell> {
    Free(FunctionalCells(version), Path(Size(version)))
  }

  // Read the codewords of a version, refuse them unless they form a Reed-Solomon codeword, drop the
  // error-correction part and parse the rest.
  ghost function Decode(modules: seq<seq<bool>>, version: nat, mask: nat): Option<seq<byte>>
    requires 1 <= version <= 5
  {
    DecodeBits(ReadBits(modules, DataPath(version), mask), DATA_CODEWORDS_L[version - 1], EC_CODEWORDS_L[version - 1])
  }

  ghost function DecodeBits(s: seq<bit>, dc: nat, ec: nat): Option<seq<byte>> {
    if |s| < 8 * (dc + ec) then None
    else
      var words := Words(s, dc + ec);
      if !RS.Codeword(words, ec) then None else Parse(words[..dc])
  }

  lemma PathInside(version: nat)
    ensures forall k :: 0 <= k < |DataPath(version)| ==>
      DataPath(version)[k].r < Size(version) && DataPath(version)[k].c < Size(version)
  {
    hide *;
    hide Functional;
    var n := Size(version);
    var path := DataPath(version);
    forall k | 0 <= k < |path|
      ensures path[k].r < n && path[k].c < n
    {
      PathMember(version, path[k]);
    }
  }

  lemma PathMember(version: nat, x: Cell)
    requires x in DataPath(version)
    ensures x.r < Size(version) && x.c < Size(version) && !Functional(version, x.r, x.c)
  {
    hide Functional, Free, PathFrom;
    FreeMember(FunctionalCells(version), Path(Size(version)), x);
    PathDistinct(Size(version), Size(version) - 1, true);
  }

  // ---- What a finished symbol carries ------------------------------------------------------------------

  // Every data module holds its bit, inverted where the mask says so.
  ghost predicate Carries(modules: seq<seq<bool>>, version: nat, all: seq<byte>, mask: nat) {
    && Square(modules, Size(version))
    && forall k: nat :: k < |DataPath(version)| ==>
         var x := DataPath(version)[k];
         x.r < Size(version) && x.c < Size(version)
         && modules[x.r][x.c] == ((BitOrZero(all, k) == 1) != MaskCondition(mask, x.r, x.c))
  }

  lemma ByteBack(bytes: seq<byte>, s: seq<bit>, k: nat)
    requires k < |bytes| && 8 * |bytes| <= |s|
    requires forall i: nat :: i < 8 * |bytes| ==> s[i] == BitAt(bytes, i)
    ensures ReadByte(s, 8 * k) == bytes[k]
  {
    hide Number, Shr;
    forall j: nat | j < 8
      ensures s[8 * k + j] == BitsOf(bytes[k], 8)[j]
    {
      BitsOfAt(bytes[k], 8, j);
      assert (8 * k + j) / 8 == k && (8 * k + j) % 8 == j;
    }
    assert s[8 * k..8 * k + 8] == BitsOf(bytes[k], 8);
    assert Pow2(8) == 256;
    NumberBitsOf(bytes[k], 8);
  }

  // Reading back what was placed.
  lemma WordsBack(modules: seq<seq<bool>>, version: nat, all: seq<byte>, mask: nat)
    requires Carries(modules, version, all, mask)
    requires 8 * |all| <= |DataPath(version)|
    ensures Words(ReadBits(modules, DataPath(version), mask), |all|) == all
  {
    hide DataPath, BitAt, ReadByte, MaskCondition;
    var s := ReadBits(modules, DataPath(version), mask);
    assert forall i: nat :: i < 8 * |all| ==> s[i] == BitAt(all, i);
    forall k | 0 <= k < |all|
      ensures ReadByte(s, 8 * k) == all[k]
    {
      ByteBack(all, s, k);
    }
  }

  // The round trip on values: modules that carry data codewords followed by their error correction decode
  // to the text.
  lemma RoundTrip(modules: seq<seq<bool>>, version: nat, mask: nat, text: seq<byte>, words: seq<byte>, ec: seq<byte>)
    requires 1 <= version <= 5 && |text| < 256
    requires |words| == DATA_CODEWORDS_L[version - 1] && |ec| == EC_CODEWORDS_L[version - 1]
    requires Payload(text) <= Stream(words) && RS.Codeword(words + ec, |ec|)
    requires Carries(modules, version, words + ec, mask)
    ensures Decode(modules, version, mask) == Some(text)
  {
    hide Carries, RS.Codeword, Payload, Stream, Parse, Words, ReadBits, DataPath;
    PathInside(version);
    Room(version);
    WordsBack(modules, version, words + ec, mask);
    assert (words + ec)[..|words|] == words;
    ParsePayload(words, text);
  }

  lemma Room(version: nat)
    requires 1 <= version <= 5
    ensures |DataPath(version)| >= 8 * (DATA_CODEWORDS_L[version - 1] + EC_CODEWORDS_L[version - 1])
    ensures |DataPath(version)| < 8 * (DATA_CODEWORDS_L[version - 1] + EC_CODEWORDS_L[version - 1]) + 8
  {
    hide Free, FunctionalCells, Path;
    Capacity(version);
  }

  // ---- The encoder --------------------------------------------------------------------------------------

  // The grid of one mask: patterns, data, mask, format.
  ghost predicate Finished(grid: Grid, version: nat, all: seq<byte>, mask: nat, format: seq<bit>) {
    && Square(grid, Size(version)) && Carries(Dark(grid), version, all, mask)
    && (forall r: nat, c: nat :: r < Size(version) && c < Size(version) && FormatIndex(Size(version), r, c) >= 0 ==>
          FormatIndex(Size(version), r, c) < |format| && grid[r][c] == format[FormatIndex(Size(version), r, c)])
    && PatternsDrawn(grid, version)
  }

  // The patterns are as drawn, but for the format bits.
  ghost predicate PatternsDrawn(grid: Grid, version: nat) {
    && Square(grid, Size(version))
    && forall r: nat, c: nat :: r < Size(version) && c < Size(version) && FormatIndex(Size(version), r, c) < 0 ==>
         Functional(version, r, c) ==> Drawn(version, r, c, grid[r][c])
  }

  function Dark(grid: Grid): (d: seq<seq<bool>>)
    ensures |d| == |grid|
    ensures forall r :: 0 <= r < |grid| ==> |d[r]| == |grid[r]|
    ensures forall r, c :: 0 <= r < |grid| && 0 <= c < |grid[r]| ==> d[r][c] == (grid[r][c] == 1)
  {
    seq(|grid|, r requires 0 <= r < |grid| => seq(|grid[r]|, c requires 0 <= c < |grid[r]| => grid[r][c] == 1))
  }

  method BuildMasked(version: nat, all: seq<byte>, mask: nat, format: seq<bit>) returns (grid: Grid)
    requires 1 <= version <= 5 && |format| == 15
    ensures Finished(grid, version, all, mask, format)
  {
    hide Functional, MaskCondition, Drawn, Free, Path, BitOrZero;
    var mx := BuildFunctionalPatterns(version);
    assert mx.Blocked() == FunctionalCells(version);
    ghost var path := DataPath(version);
    label patterns:
    mx.PlaceData(all);
    PathInside(version);
    FunctionalUntouched(version);
    label placed:
    mx.ApplyMask(mask);
    label masked:
    mx.WriteFormat(format);
    FormatIsFunctional(mx);
    grid := mx.ToRows();
    forall k: nat | k < |path|
      ensures Dark(grid)[path[k].r][path[k].c]
        == ((BitOrZero(all, k) == 1) != MaskCondition(mask, path[k].r, path[k].c))
    {
      PathMember(version, path[k]);
    }
  }

  lemma FunctionalUntouched(version: nat)
    ensures forall x :: x in DataPath(version) ==> !Functional(version, x.r, x.c)
  {
    forall x | x in DataPath(version)
      ensures !Functional(version, x.r, x.c)
    {
      PathMember(version, x);
    }
  }

  lemma FormatIsFunctional(mx: Matrix)
    ensures forall v: nat, r: nat, c: nat :: mx.size == Size(v) && r < mx.size && c < mx.size ==>
      FormatIndex(mx.size, r, c) >= 0 ==> Functional(v, r, c) && (r == 8 || c == 8)
  {
  }

  // What is carried along the free path is laid out along the visits.
  lemma CarriesLaidOut(modules: seq<seq<bool>>, version: nat, n: nat, all: seq<byte>, mask: nat)
    requires Carries(modules, version, all, mask) && n == Size(version) && n % 2 == 1 && n > 7
    ensures LaidOut(modules, n, FunctionalCells(version), all, mask)
  {
    CarriesSquare(modules, version, all, mask);
    hide Carries, LaidAt, FunctionalCells, Size;
    forall p: nat, i: nat, d: nat | 2 * p + 2 < n && i < n && d < 2
      ensures LaidAt(modules, n, FunctionalCells(version), all, mask, p, i, d)
    {
      VisitLaid(modules, version, n, all, mask, p, i, d);
    }
  }

  lemma CarriesSquare(modules: seq<seq<bool>>, version: nat, all: seq<byte>, mask: nat)
    requires Carries(modules, version, all, mask)
    ensures Square(modules, Size(version))
  {
  }

  lemma VisitLaid(modules: seq<seq<bool>>, version: nat, n: nat, all: seq<byte>, mask: nat, p: nat, i: nat, d: nat)
    requires Carries(modules, version, all, mask) && n == Size(version)
    requires n % 2 == 1 && n > 7 && 2 * p + 2 < n && i < n && d < 2
    ensures LaidAt(modules, n, FunctionalCells(version), all, mask, p, i, d)
  {
    hide FunctionalCells, DataPath, FreeBefore, MaskCondition, BitOrZero, Visit, Carries, Shown, Size;
    if Visit(n, p, i, d) !in FunctionalCells(version) {
      DataVisit(version, n, p, i, d);
      CarriedAt(modules, version, all, mask, |FreeBefore(FunctionalCells(version), n, p, i, d)|);
    }
  }

  lemma DataVisit(version: nat, n: nat, p: nat, i: nat, d: nat)
    requires n == Size(version) && n % 2 == 1 && n > 7 && 2 * p + 2 < n && i < n && d < 2
    requires Visit(n, p, i, d) !in FunctionalCells(version)
    ensures var k := |FreeBefore(FunctionalCells(version), n, p, i, d)|;
      k < |DataPath(version)| && DataPath(version)[k] == Visit(n, p, i, d)
  {
    hide FunctionalCells, Path, Free, FreeBefore, Visit, Size;
    FreeVisit(FunctionalCells(version), n, p, i, d);
  }

  lemma CarriedAt(modules: seq<seq<bool>>, version: nat, all: seq<byte>, mask: nat, k: nat)
    requires Carries(modules, version, all, mask) && k < |DataPath(version)|
    ensures var x := DataPath(version)[k];
      Shown(modules, x) == ((BitOrZero(all, k) == 1) != MaskCondition(mask, x.r, x.c))
  {
    hide DataPath, BitOrZero, MaskCondition;
  }

  // A finished grid shows every pattern, the dark module and both copies of the format.
  lemma FinishedLooks(grid: Grid, version: nat, all: seq<byte>, mask: nat, r: nat, c: nat)
    requires 1 <= version <= 5 && mask < 8 && Finished(grid, version, all, mask, FormatOf(mask))
    requires r < 17 + 4 * version && c < 17 + 4 * version
    ensures Square(Dark(grid), 17 + 4 * version) && LooksAt(Dark(grid), version, mask, r, c)
  {
    var n := Size(version);
    var b := FormatIndex(n, r, c);
    hide Carries, Functional, Drawn, FormatIndex, FormatOf;
    if b >= 0 {
      FormatAt(Dark(grid), version, mask, r, c, b);
    } else {
      PatternAt(Dark(grid), version, mask, r, c, grid[r][c]);
    }
    hide LooksAt;
  }

  // The smallest version with room for the bytes and their header.
  predicate Fits(length: nat, version: nat) {
    && 1 <= version <= 5 && length + 2 <= DATA_CODEWORDS_L[version - 1]
    && (version > 1 ==> length + 2 > DATA_CODEWORDS_L[version - 2])
  }

  // One finished grid per mask, all carrying the same codeword.
  ghost predicate Candidates(grids: seq<Grid>, version: nat, words: seq<byte>) {
    && |grids| == 8 && 1 <= version <= 5 && RS.Codeword(words, EC_CODEWORDS_L[version - 1])
    && forall k: nat :: k < 8 ==> Finished(grids[k], version, words, k, FormatOf(k))
  }

  ghost predicate FirstLeast(grids: seq<Grid>, penalty: Grid -> nat, mask: nat) {
    && mask < |grids|
    && forall k: nat :: k < |grids| ==>
         penalty(grids[mask]) <= penalty(grids[k]) && (k < mask ==> penalty(grids[mask]) < penalty(grids[k]))
  }

  // Every mask is tried, and the first grid with the lowest score wins.
  method ChooseMask(version: nat, all: seq<byte>, penalty: Grid -> nat)
    returns (best: Grid, ghost mask: nat, ghost grids: seq<Grid>)
    requires 1 <= version <= 5
    ensures |grids| == 8 && FirstLeast(grids, penalty, mask) && best == grids[mask]
    ensures forall k: nat :: k < 8 ==> Finished(grids[k], version, all, k, FormatOf(k))
  {
    hide Finished;
    mask, grids := 0, [];
    var bestScore := -1;
    best := [];
    var k := 0;
    while k < 8
      invariant 0 <= k <= 8 && |grids| == k
      invariant forall j :: 0 <= j < k ==> Finished(grids[j], version, all, j, FormatOf(j))
      invariant k > 0 ==> 0 <= mask < k && best == grids[mask] && bestScore == penalty(best)
      invariant k == 0 ==> bestScore == -1
      invariant forall j :: 0 <= j < k ==>
        bestScore <= penalty(grids[j]) && (j < mask ==> bestScore < penalty(grids[j]))
    {
      var format := BitsOfWord(k);
      var grid := BuildMasked(version, all, k, format);
      var score := penalty(grid);
      grids := grids + [grid];
      if bestScore == -1 || score < bestScore {
        best, bestScore, mask := grid, score, k;
      }
      k := k + 1;
    }
  }

  // The finished modules for `text`, or None when it does not fit versions 1..5. `penalty` scores a finished
  // grid, and the first grid with the lowest score wins.
  method QrMatrix(tables: RS.GfTables, text: seq<byte>, penalty: Grid -> nat)
    returns (result: Option<seq<seq<bool>>>, ghost version: nat, ghost words: seq<byte>, ghost mask: nat,
      ghost grids: seq<Grid>)
    requires tables.Valid()
    ensures result.None? <==> |text| > 106
    ensures result.Some? ==> Fits(|text|, version) && Candidates(grids, version, words) && mask < 8
    ensures result.Some? ==> result.value == Dark(grids[mask]) && Decode(result.value, version, mask) == Some(text)
    ensures result.Some? ==> FirstLeast(grids, penalty, mask)
    ensures result.Some? ==> LaidOut(result.value, 17 + 4 * version, FunctionalCells(version), words, mask)
    ensures result.Some? ==> EncodesAs(words, text, version) && Looks(result.value, version, mask)
  {
    hide Decode, Carries, LaidOut, Functional, Drawn, RS.Codeword, Payload, Stream, Encodes, LooksAt;
    mask, grids, words := 0, [], [];
    var v := PickVersion(|text|);
    version := v;
    if v == 0 {
      return None, version, words, mask, grids;
    }
    var dataCodewords, ecCodewords := DATA_CODEWORDS_L[v - 1], EC_CODEWORDS_L[v - 1];
    var dataBytes := DataCodewords(text, dataCodewords);
    var ec := tables.RsEncode(dataBytes, ecCodewords);
    var all := dataBytes + ec;
    words := all;
    DataEncodes(text, dataBytes, ec);
    var best;
    best, mask, grids := ChooseMask(v, all, penalty);
    RoundTrip(Dark(best), v, mask, text, dataBytes, ec);
    CarriesLaidOut(Dark(best), v, Size(v), all, mask);
    forall r: nat, c: nat | r < 17 + 4 * v && c < 17 + 4 * v
      ensures Square(Dark(best), 17 + 4 * v) && LooksAt(Dark(best), v, mask, r, c)
    {
      FinishedLooks(best, v, all, mask, r, c);
    }
    result := Some(Dark(best));
  }
}
