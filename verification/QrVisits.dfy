// The visits of the zig-zag in plain arithmetic, and which of its free modules each one is.
module QrVisits {
  import opened Gf256
  import opened QrBits
  import opened QrGrid

  // ---- The zig-zag -------------------------------------------------------------------------------------------

  // Column pair p from the right, i-th row in its direction of travel, right cell (d = 0) first: pairs go
  // upwards and downwards in turn, the first one upwards, and skip column 6.
  function Visit(n: nat, p: nat, i: nat, d: nat): Cell
    requires n % 2 == 1 && n > 7 && 2 * p + 2 < n && i < n && d < 2
  {
    var c0 := n - 1 - 2 * p;
    Cell(if p % 2 == 0 then n - 1 - i else i, (if c0 > 6 then c0 else c0 - 1) - d)
  }

  lemma {:induction false} RowsAt(n: nat, c: nat, up: bool, from: nat, i: nat, d: nat)
    requires 1 <= c < n && from <= i < n && d < 2
    ensures |RowsFrom(n, c, up, from)| == 2 * (n - from)
    ensures RowsFrom(n, c, up, from)[2 * (i - from) + d] == Cell(if up then n - 1 - i else i, c - d)
    decreases n - from
  {
    RowsLength(n, c, up, from);
    if i > from {
      RowsAt(n, c, up, from + 1, i, d);
      assert RowsFrom(n, c, up, from)[2 * (i - from) + d] == RowsFrom(n, c, up, from + 1)[2 * (i - (from + 1)) + d];
    }
  }

  lemma {:induction false} RowsLength(n: nat, c: nat, up: bool, from: nat)
    requires 1 <= c < n && from <= n
    ensures |RowsFrom(n, c, up, from)| == 2 * (n - from)
    decreases n - from
  {
    if from < n {
      RowsLength(n, c, up, from + 1);
    }
  }

  // The column that pair p starts from.
  function StartColumn(n: nat, p: nat): int {
    var c0 := n - 1 - 2 * p;
    if c0 >= 6 then c0 else c0 - 1
  }

  lemma PairFirst(n: nat, p: nat)
    requires n % 2 == 1 && n > 7 && 2 * p + 2 < n
    ensures var col, c0 := StartColumn(n, p), n - 1 - 2 * p;
      var c := if c0 > 6 then c0 else c0 - 1;
      && 0 < col < n && 1 <= c < n && StartColumn(n, p + 1) == c - 2
      && PathFrom(n, col, p % 2 == 0)
         == RowsFrom(n, c, p % 2 == 0, 0) + PathFrom(n, StartColumn(n, p + 1), (p + 1) % 2 == 0)
  {
    hide RowsFrom;
  }

  lemma {:induction false} PathLength(n: nat, p: nat)
    requires n % 2 == 1 && n > 7 && 2 * p < n
    ensures |PathFrom(n, StartColumn(n, p), p % 2 == 0)| == n * (n - 1 - 2 * p)
    decreases n - 2 * p
  {
    hide RowsFrom;
    if 2 * p + 2 < n {
      hide PathFrom;
      var c0 := n - 1 - 2 * p;
      PairFirst(n, p);
      RowsLength(n, if c0 > 6 then c0 else c0 - 1, p % 2 == 0, 0);
      PathLength(n, p + 1);
      TwoMore(n, n - 1 - 2 * p);
    } else {
      assert n - 1 - 2 * p == 0;
    }
  }

  lemma {:induction false} PairsAt(n: nat, p: nat, q: nat, i: nat, d: nat)
    requires n % 2 == 1 && n > 7 && p <= q && 2 * q + 2 < n && i < n && d < 2
    ensures var path := PathFrom(n, StartColumn(n, p), p % 2 == 0);
      0 <= 2 * n * (q - p) + 2 * i + d < |path| && path[2 * n * (q - p) + 2 * i + d] == Visit(n, q, i, d)
    decreases q - p
  {
    hide RowsFrom, PathFrom;
    var c0 := n - 1 - 2 * p;
    var c := if c0 > 6 then c0 else c0 - 1;
    PairFirst(n, p);
    RowsAt(n, c, p % 2 == 0, 0, i, d);
    OneMore(2 * n, q - p);
    if p < q {
      PairsAt(n, p + 1, q, i, d);
    }
  }

  lemma TwoMore(n: nat, k: int)
    ensures n * k == 2 * n + n * (k - 2)
  {
  }

  lemma OneMore(a: nat, k: nat)
    ensures a * k == if k == 0 then 0 else a + a * (k - 1)
    ensures a * k >= 0
  {
  }

  // Where each visit is, for every grid of odd size, and how many there are.
  lemma VisitAt(n: nat, p: nat, i: nat, d: nat)
    requires n % 2 == 1 && n > 7 && 2 * p + 2 < n && i < n && d < 2
    ensures |Path(n)| == n * (n - 1) && 0 <= 2 * n * p + 2 * i + d < |Path(n)|
    ensures Path(n)[2 * n * p + 2 * i + d] == Visit(n, p, i, d)
    ensures var x := Path(n)[2 * n * p + 2 * i + d];
      && x.r == (if p % 2 == 0 then n - 1 - i else i)
      && x.c == (if n - 1 - 2 * p > 6 then n - 1 - 2 * p else n - 2 - 2 * p) - d
  {
    hide PathFrom;
    PathLength(n, 0);
    PairsAt(n, 0, p, i, d);
    assert n * (n - 1 - 2 * 0) == n * (n - 1);
  }

  // ---- One visit after the other -------------------------------------------------------------------------------

  predicate Sooner(q: nat, j: nat, e: nat, p: nat, i: nat, d: nat) {
    q < p || (q == p && (j < i || (j == i && e < d)))
  }

  // The free visits before one: their number is the number of the bit it carries.
  ghost function FreeBefore(blocked: set<Cell>, n: nat, p: nat, i: nat, d: nat): set<(nat, nat, nat)>
    requires n % 2 == 1 && n > 7
  {
    set q: nat, j: nat, e: nat |
      q < n && 2 * q + 2 < n && j < n && e < 2 && Sooner(q, j, e, p, i, d) && Visit(n, q, j, e) !in blocked :: (q, j, e)
  }

  // Adding one visit at the end of what came before.
  lemma OneVisit(blocked: set<Cell>, n: nat, p: nat, i: nat, d: nat, p': nat, i': nat, d': nat)
    requires n % 2 == 1 && n > 7 && 2 * p + 2 < n && i < n && d < 2
    requires forall q: nat, j: nat, e: nat :: j < n && e < 2 ==>
      (Sooner(q, j, e, p', i', d') <==> Sooner(q, j, e, p, i, d) || (q == p && j == i && e == d))
    ensures |FreeBefore(blocked, n, p', i', d')|
         == |FreeBefore(blocked, n, p, i, d)| + if Visit(n, p, i, d) in blocked then 0 else 1
  {
    hide Visit;
    var before, after := FreeBefore(blocked, n, p, i, d), FreeBefore(blocked, n, p', i', d');
    if Visit(n, p, i, d) in blocked {
      assert after == before;
    } else {
      assert after == before + {(p, i, d)};
      assert (p, i, d) !in before by {
        assert !Sooner(p, i, d, p, i, d);
      }
    }
  }

  ghost predicate CountsUpTo(blocked: set<Cell>, n: nat, p: nat, i: nat, d: nat)
    requires n % 2 == 1 && n > 7
  {
    var t := 2 * n * p + 2 * i + d;
    0 <= t < |Path(n)| && |Free(blocked, Path(n)[..t])| == |FreeBefore(blocked, n, p, i, d)|
  }

  lemma CountNext(blocked: set<Cell>, n: nat, p: nat, i: nat, d: nat, p': nat, i': nat, d': nat)
    requires n % 2 == 1 && n > 7 && 2 * p + 2 < n && i < n && d < 2 && CountsUpTo(blocked, n, p, i, d)
    requires 2 * p' + 2 < n && i' < n && d' < 2
    requires forall q: nat, j: nat, e: nat :: j < n && e < 2 ==>
      (Sooner(q, j, e, p', i', d') <==> Sooner(q, j, e, p, i, d) || (q == p && j == i && e == d))
    requires 2 * n * p' + 2 * i' + d' == 2 * n * p + 2 * i + d + 1
    ensures CountsUpTo(blocked, n, p', i', d')
  {
    hide Path, Visit, FreeBefore;
    var t := 2 * n * p + 2 * i + d;
    VisitAt(n, p, i, d);
    VisitAt(n, p', i', d');
    OneVisit(blocked, n, p, i, d, p', i', d');
    assert Path(n)[..t + 1][..t] == Path(n)[..t];
  }

  // The bit number of each visit.
  lemma {:induction false} FreeCount(blocked: set<Cell>, n: nat, p: nat, i: nat, d: nat)
    requires n % 2 == 1 && n > 7 && 2 * p + 2 < n && i < n && d < 2
    ensures CountsUpTo(blocked, n, p, i, d)
    decreases p, i, d
  {
    hide CountsUpTo;
    if d == 1 {
      FreeCount(blocked, n, p, i, 0);
      CountNext(blocked, n, p, i, 0, p, i, 1);
    } else if i > 0 {
      FreeCount(blocked, n, p, i - 1, 1);
      CountNext(blocked, n, p, i - 1, 1, p, i, 0);
    } else if p > 0 {
      FreeCount(blocked, n, p - 1, n - 1, 1);
      OneMore(2 * n, p);
      CountNext(blocked, n, p - 1, n - 1, 1, p, 0, 0);
    } else {
      FirstCount(blocked, n);
    }
  }

  lemma FirstCount(blocked: set<Cell>, n: nat)
    requires n % 2 == 1 && n > 7
    ensures CountsUpTo(blocked, n, 0, 0, 0)
  {
    hide Path, Visit;
    VisitAt(n, 0, 0, 0);
    assert FreeBefore(blocked, n, 0, 0, 0) == {};
    assert 2 * n * 0 + 2 * 0 + 0 == 0 && Path(n)[..0] == [];
  }

  lemma FreeVisit(blocked: set<Cell>, n: nat, p: nat, i: nat, d: nat)
    requires n % 2 == 1 && n > 7 && 2 * p + 2 < n && i < n && d < 2 && Visit(n, p, i, d) !in blocked
    ensures var k := |FreeBefore(blocked, n, p, i, d)|;
      k < |Free(blocked, Path(n))| && Free(blocked, Path(n))[k] == Visit(n, p, i, d)
  {
    hide Path, Visit, Free, FreeBefore;
    VisitAt(n, p, i, d);
    FreeCount(blocked, n, p, i, d);
    FreeAt(blocked, Path(n), 2 * n * p + 2 * i + d);
  }

  lemma FreeAt(blocked: set<Cell>, path: seq<Cell>, t: nat)
    requires t < |path| && path[t] !in blocked
    ensures var k := |Free(blocked, path[..t])|; k < |Free(blocked, path)| && Free(blocked, path)[k] == path[t]
  {
    hide Free;
    FreeJoin(blocked, path[..t], path[t..]);
    FreeJoin(blocked, [path[t]], path[t + 1..]);
    assert path[..t] + path[t..] == path && [path[t]] + path[t + 1..] == path[t..];
    FreeOne(blocked, path[t]);
  }

  lemma FreeOne(blocked: set<Cell>, x: Cell)
    requires x !in blocked
    ensures Free(blocked, [x]) == [x]
  {
    assert [x][..0] == [];
  }
}
