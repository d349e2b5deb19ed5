// What a finished symbol looks like, said without the functions that draw it: the pictures of the patterns, the
// modules each mask flips, the places of the format bits, and the bit that each data module carries.
module QrLayout {
  import opened Gf256
  import opened QrBits
  import opened QrGrid
  import opened QrVisits
  import opened QrCode
  import opened QrFormat

  // ---- Pictures ----------------------------------------------------------------------------------------------

  // A finder with its separator, and an alignment pattern.
  const FINDER: seq<string> := [
    "         ",
    " ####### ",
    " #     # ",
    " # ### # ",
    " # ### # ",
    " # ### # ",
    " #     # ",
    " ####### ",
    "         "
  ]

  const ALIGNMENT: seq<string> := ["#####", "#   #", "# # #", "#   #", "#####"]

  lemma FinderLooks(i: nat, j: nat)
    requires i < 9 && j < 9
    ensures |FINDER| == 9 && |FINDER[i]| == 9 && (FinderDark(i - 4, j - 4) <==> FINDER[i][j] == '#')
  {
  }

  lemma AlignmentLooks(i: nat, j: nat)
    requires i < 5 && j < 5
    ensures |ALIGNMENT| == 5 && |ALIGNMENT[i]| == 5 && (Chebyshev(i - 2, j - 2) != 1 <==> ALIGNMENT[i][j] == '#')
  {
  }

  // ---- Data modules ------------------------------------------------------------------------------------------

  // Which modules of a symbol of n by n carry neither data nor anything: none. These are the ones that carry data.
  lemma DataModules(version: nat, r: nat, c: nat)
    requires 1 <= version <= 5 && r < 17 + 4 * version && c < 17 + 4 * version
    ensures var n := 17 + 4 * version;
      !Functional(version, r, c) <==> (
        && r != 6 && c != 6
        && !(r < 9 && c < 9) && !(r < 9 && n - 8 <= c) && !(n - 8 <= r && c < 9)
        && !(version > 1 && n - 9 <= r < n - 4 && n - 9 <= c < n - 4))
  {
  }

  // Bit i of a byte string, from the top bit of the first byte on.
  lemma BitIs(bytes: seq<byte>, i: nat)
    ensures BitOrZero(bytes, i)
      == if i < 8 * |bytes| then bytes[i / 8] / [128, 64, 32, 16, 8, 4, 2, 1][i % 8] % 2 else 0
  {
    if i < 8 * |bytes| {
      ShrIs(bytes[i / 8], 7 - i % 8);
    }
  }

  lemma ShrIs(x: nat, k: nat)
    requires k < 8
    ensures Shr(x, k) == x / [1, 2, 4, 8, 16, 32, 64, 128][k]
  {
    assert Shr(x, 0) == x;
    if k > 0 {
      ShrStep(x, k - 1);
      ShrIs(x, k - 1);
    }
  }

  // The modules each mask flips.
  lemma MaskFlips(mask: nat, r: nat, c: nat)
    requires mask < 8
    ensures mask == 0 ==> (MaskCondition(mask, r, c) <==> r % 2 == c % 2)
    ensures mask == 1 ==> (MaskCondition(mask, r, c) <==> r % 2 == 0)
    ensures mask == 2 ==> (MaskCondition(mask, r, c) <==> c % 3 == 0)
    ensures mask == 3 ==> (MaskCondition(mask, r, c) <==> (r % 3 + c % 3) % 3 == 0)
    ensures mask == 4 ==> (MaskCondition(mask, r, c) <==> (r % 4 < 2) == (c % 6 < 3))
    ensures mask == 5 ==> (MaskCondition(mask, r, c) <==> r * c % 6 == 0)
    ensures mask == 6 ==> (MaskCondition(mask, r, c) <==> r * c % 6 < 3)
    ensures mask == 7 ==> (MaskCondition(mask, r, c) <==>
                            if r % 2 == c % 2 then r * c % 3 != 1 else r * c % 3 == 1)
  {
    if mask < 5 {
      SumMasks(mask, r, c);
    } else {
      ProductMasks(mask, r, c, r * c);
    }
    hide MaskCondition;
  }

  lemma SumMasks(mask: nat, r: nat, c: nat)
    requires mask < 5
    ensures MaskCondition(mask, r, c) <==>
      if mask == 0 then r % 2 == c % 2 else if mask == 1 then r % 2 == 0 else if mask == 2 then c % 3 == 0
      else if mask == 3 then (r % 3 + c % 3) % 3 == 0 else (r % 4 < 2) == (c % 6 < 3)
  {
    if mask == 3 {
      ThreeSum(r, c);
    } else if mask == 4 {
      Stripes(r, c);
    }
  }

  lemma ProductMasks(mask: nat, r: nat, c: nat, x: nat)
    requires 5 <= mask < 8 && x == r * c
    ensures MaskCondition(mask, r, c) <==>
      if mask == 5 then x % 6 == 0 else if mask == 6 then x % 6 < 3
      else if r % 2 == c % 2 then x % 3 != 1 else x % 3 == 1
  {
    SixthMasks(x);
    Parities(r, c, x);
  }

  lemma SixthMasks(x: nat)
    ensures x % 2 + x % 3 == 0 <==> x % 6 == 0
    ensures (x % 2 + x % 3) % 2 == 0 <==> x % 6 < 3
  {
    Sixth(x);
  }

  lemma ThreeSum(r: nat, c: nat)
    ensures (r + c) % 3 == (r % 3 + c % 3) % 3
  {
  }

  lemma Stripes(r: nat, c: nat)
    ensures (r / 2 + c / 3) % 2 == 0 <==> (r % 4 < 2) == (c % 6 < 3)
  {
  }

  lemma Parities(r: nat, c: nat, x: nat)
    ensures ((r + c) % 2 + x % 3) % 2 == 0 <==> if r % 2 == c % 2 then x % 3 != 1 else x % 3 == 1
  {
  }

  lemma Sixth(x: nat)
    ensures x % 6 % 2 == x % 2 && x % 6 % 3 == x % 3
  {
    Remainder(x / 6, x % 6);
  }

  lemma {:induction false} Remainder(q: nat, rest: nat)
    ensures (6 * q + rest) % 2 == rest % 2 && (6 * q + rest) % 3 == rest % 3
  {
    if q > 0 {
      Remainder(q - 1, rest);
      SixMore(6 * (q - 1) + rest);
    }
  }

  lemma SixMore(x: nat)
    ensures (x + 6) % 2 == x % 2 && (x + 6) % 3 == x % 3
  {
  }

  // Each module that the zig-zag visits and that carries data shows its bit, inverted where the mask says so; the
  // number of its bit is the number of data modules visited before.
  ghost predicate LaidOut(modules: seq<seq<bool>>, n: nat, patterns: set<Cell>, words: seq<byte>, mask: nat) {
    && n % 2 == 1 && n > 7 && Square(modules, n)
    && forall p: nat, i: nat, d: nat :: 2 * p + 2 < n && i < n && d < 2 ==>
         LaidAt(modules, n, patterns, words, mask, p, i, d)
  }

  ghost predicate LaidAt(modules: seq<seq<bool>>, n: nat, patterns: set<Cell>, words: seq<byte>, mask: nat,
                         p: nat, i: nat, d: nat)
    requires n % 2 == 1 && n > 7 && 2 * p + 2 < n && i < n && d < 2
  {
    var x := Visit(n, p, i, d);
    x !in patterns ==>
      Shown(modules, x)
        == ((BitOrZero(words, |FreeBefore(patterns, n, p, i, d)|) == 1) != MaskCondition(mask, x.r, x.c))
  }

  predicate Shown(modules: seq<seq<bool>>, x: Cell) {
    x.r < |modules| && x.c < |modules[x.r]| && modules[x.r][x.c]
  }

  // ---- Patterns and format in a finished symbol ---------------------------------------------------------------

  // The format information of error-correction level L under each mask, most significant bit first.
  function FormatString(mask: nat): (f: string)
    requires mask < 8
    ensures |f| == 15
  {
    [
      "111011111000100", "111001011110011", "111110110101010", "111100010011101",
      "110011000101111", "110001100011000", "110110001000001", "110100101110110"
    ][mask]
  }

  lemma FormatLooks(mask: nat, b: nat)
    requires mask < 8 && b < 15
    ensures FormatOf(mask)[b] == 1 <==> FormatString(mask)[14 - b] == '1'
  {
    if mask < 4 {
      FormatLow(mask, b);
    } else {
      FormatHigh(mask, b);
    }
    hide FormatOf, FormatString;
  }

  lemma FormatLow(mask: nat, b: nat)
    requires mask < 4 && b < 15
    ensures FormatOf(mask)[b] == 1 <==> FormatString(mask)[14 - b] == '1'
  {
  }

  lemma FormatHigh(mask: nat, b: nat)
    requires 4 <= mask < 8 && b < 15
    ensures FormatOf(mask)[b] == 1 <==> FormatString(mask)[14 - b] == '1'
  {
  }

  // Both places of each of its bits.
  ghost predicate ShowsFormat(dark: bool, f: string, n: nat, r: nat, c: nat)
    requires |f| == 15 && n >= 21 && r < n && c < n
  {
    && (r == 8 && c < 6 ==> dark == (f[14 - c] == '1'))
    && (r == 8 && 6 < c < 9 ==> dark == (f[15 - c] == '1'))
    && (c == 8 && r < 6 ==> dark == (f[r] == '1'))
    && (c == 8 && r == 7 ==> dark == (f[6] == '1'))
    && (r == 8 && c >= n - 8 ==> dark == (f[c + 15 - n] == '1'))
    && (c == 8 && r >= n - 7 ==> dark == (f[n - 1 - r] == '1'))
  }

  // Three finders, the alignment pattern, two timing lines, the dark module, and the format in both its places.
  ghost predicate LooksAt(modules: seq<seq<bool>>, version: nat, mask: nat, r: nat, c: nat)
    requires 1 <= version <= 5 && mask < 8 && Square(modules, 17 + 4 * version)
    requires r < 17 + 4 * version && c < 17 + 4 * version
  {
    var n, dark := 17 + 4 * version, modules[r][c];
    && (r < 8 && c < 8 ==> dark == (FINDER[r + 1][c + 1] == '#'))
    && (r < 8 && c >= n - 8 ==> dark == (FINDER[r + 1][c + 8 - n] == '#'))
    && (r >= n - 8 && c < 8 ==> dark == (FINDER[r + 8 - n][c + 1] == '#'))
    && (version > 1 && n - 9 <= r < n - 4 && n - 9 <= c < n - 4 ==>
          dark == (ALIGNMENT[r + 9 - n][c + 9 - n] == '#'))
    && (r == 6 && 8 <= c < n - 8 ==> dark == (c % 2 == 0))
    && (c == 6 && 8 <= r < n - 8 ==> dark == (r % 2 == 0))
    && (r == n - 8 && c == 8 ==> dark)
    && ShowsFormat(dark, FormatString(mask), n, r, c)
  }

  ghost predicate Looks(modules: seq<seq<bool>>, version: nat, mask: nat) {
    && 1 <= version <= 5 && mask < 8 && Square(modules, 17 + 4 * version)
    && forall r: nat, c: nat :: r < 17 + 4 * version && c < 17 + 4 * version ==>
         LooksAt(modules, version, mask, r, c)
  }

  // What a pattern module is drawn as is what its picture shows.
  lemma PatternLooks(version: nat, n: nat, r: nat, c: nat, value: int)
    requires 1 <= version <= 5 && n == 17 + 4 * version && r < n && c < n && FormatIndex(n, r, c) < 0
    requires Functional(version, r, c) ==> Drawn(version, r, c, value)
    ensures r < 8 && c < 8 ==> (value == 1) == (FINDER[r + 1][c + 1] == '#')
    ensures r < 8 && c >= n - 8 ==> (value == 1) == (FINDER[r + 1][c + 8 - n] == '#')
    ensures r >= n - 8 && c < 8 ==> (value == 1) == (FINDER[r + 8 - n][c + 1] == '#')
    ensures version > 1 && n - 9 <= r < n - 4 && n - 9 <= c < n - 4 ==>
              (value == 1) == (ALIGNMENT[r + 9 - n][c + 9 - n] == '#')
    ensures r == 6 && 8 <= c < n - 8 ==> (value == 1) == (c % 2 == 0)
    ensures c == 6 && 8 <= r < n - 8 ==> (value == 1) == (r % 2 == 0)
    ensures r == n - 8 && c == 8 ==> value == 1
  {
    if r < 8 && c < 8 {
      FinderLooks(r + 1, c + 1);
    } else if r < 8 && c >= n - 8 {
      FinderLooks(r + 1, c + 8 - n);
    } else if r >= n - 8 && c < 8 {
      FinderLooks(r + 8 - n, c + 1);
    } else if version > 1 && n - 9 <= r < n - 4 && n - 9 <= c < n - 4 {
      AlignmentLooks(r + 9 - n, c + 9 - n);
    }
    hide FinderDark, Chebyshev, FormatIndex;
  }

  lemma PatternAt(modules: seq<seq<bool>>, version: nat, mask: nat, r: nat, c: nat, value: int)
    requires 1 <= version <= 5 && mask < 8 && Square(modules, 17 + 4 * version)
    requires r < 17 + 4 * version && c < 17 + 4 * version && FormatIndex(17 + 4 * version, r, c) < 0
    requires Functional(version, r, c) ==> Drawn(version, r, c, value)
    requires modules[r][c] == (value == 1)
    ensures LooksAt(modules, version, mask, r, c)
  {
    PatternLooks(version, 17 + 4 * version, r, c, value);
    hide Functional, Drawn, FormatString;
  }

  lemma FormatAt(modules: seq<seq<bool>>, version: nat, mask: nat, r: nat, c: nat, b: nat)
    requires 1 <= version <= 5 && mask < 8 && Square(modules, 17 + 4 * version)
    requires r < 17 + 4 * version && c < 17 + 4 * version && FormatIndex(17 + 4 * version, r, c) == b < 15
    requires modules[r][c] == (FormatOf(mask)[b] == 1)
    ensures LooksAt(modules, version, mask, r, c)
  {
    FormatLooks(mask, b);
    FormatShown(modules[r][c], FormatString(mask), 17 + 4 * version, r, c, b);
    hide FormatOf, FormatString, ShowsFormat;
  }

  lemma FormatShown(dark: bool, f: string, n: nat, r: nat, c: nat, b: nat)
    requires |f| == 15 && n >= 21 && r < n && c < n && FormatIndex(n, r, c) == b < 15 && dark == (f[14 - b] == '1')
    ensures ShowsFormat(dark, f, n, r, c) && (r == 8 || c == 8) && r != 6 && c != 6 && (r, c) != (n - 8, 8)
  {
  }
}
