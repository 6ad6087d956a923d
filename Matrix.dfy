/** The 8x8 matrix of cell codes that both the authoritative board and the
    rules engine work on, with the piece codes, the side-ownership test by
    parity, promotion and material counting. */
module Matrix {

  /** Cell codes. */
  const EMPTY := 0
  const WHITE_MAN := 1
  const BLACK_MAN := 2
  const WHITE_KING := 3
  const BLACK_KING := 4

  /** A board matrix, row-major: m[row][column]. */
  type Mtx = seq<seq<int>>

  predicate InBounds(i: int, j: int)
  {
    0 <= i < 8 && 0 <= j < 8
  }

  predicate IsMatrix(m: Mtx)
  {
    |m| == 8 && forall i :: 0 <= i < 8 ==> |m[i]| == 8
  }

  /** An 8x8 matrix whose every cell holds one of the five codes. */
  predicate WellFormed(m: Mtx)
  {
    IsMatrix(m) && forall i, j :: 0 <= i < 8 && 0 <= j < 8 ==> EMPTY <= m[i][j] <= BLACK_KING
  }

  /** The matrix with cell (i, j) overwritten by v. */
  function Set(m: Mtx, i: int, j: int, v: int): (r: Mtx)
    requires IsMatrix(m) && InBounds(i, j)
    ensures IsMatrix(r)
    ensures forall a, b :: InBounds(a, b) ==> r[a][b] == (if a == i && b == j then v else m[a][b])
  {
    m[i := m[i][j := v]]
  }

  /** Two matrices that agree on every cell are equal. */
  lemma SameCells(a: Mtx, b: Mtx)
    requires IsMatrix(a) && IsMatrix(b)
    requires forall i, j :: InBounds(i, j) ==> a[i][j] == b[i][j]
    ensures a == b
  {
    forall i | 0 <= i < 8
      ensures a[i] == b[i]
    {
      assert forall j :: 0 <= j < 8 ==> a[i][j] == b[i][j] by {
        forall j | 0 <= j < 8 ensures a[i][j] == b[i][j] { assert InBounds(i, j); }
      }
    }
  }

  /** The side encoding of the source: a colour is a bool (false = white,
      true = black) and a cell belongs to `color` when it is occupied and its
      code's parity differs from the colour read as 0/1, so white owns the
      odd codes 1 and 3 and black the even codes 2 and 4. */
  predicate Owns(v: int, color: bool)
  {
    v != EMPTY && v % 2 != (if color then 1 else 0)
  }

  /** The code a piece carries after arriving on row `row`: a white man
      reaching row 0 or a black man reaching row 7 becomes a king (code + 2);
      every other code is kept. */
  function Promote(v: int, row: int): (r: int)
    ensures v == WHITE_MAN ==> r == (if row == 0 then WHITE_KING else WHITE_MAN)
    ensures v == BLACK_MAN ==> r == (if row == 7 then BLACK_KING else BLACK_MAN)
    ensures v != WHITE_MAN && v != BLACK_MAN ==> r == v
    ensures v % 2 == r % 2
    ensures EMPTY <= v <= BLACK_KING ==> EMPTY <= r <= BLACK_KING
  {
    if (v == WHITE_MAN && row == 0) || (v == BLACK_MAN && row == 7) then v + 2 else v
  }

  /** Number of cells among the first n of `row` holding code v. */
  function CountRow(row: seq<int>, v: int, n: int): (c: nat)
    requires 0 <= n <= |row|
    ensures c <= n
  {
    if n == 0 then 0 else CountRow(row, v, n - 1) + (if row[n - 1] == v then 1 else 0)
  }

  /** Number of cells holding code v in the first k rows of m. */
  function CountRows(m: Mtx, v: int, k: nat): (n: nat)
    requires IsMatrix(m) && k <= 8
  {
    if k == 0 then 0 else CountRows(m, v, k - 1) + CountRow(m[k - 1], v, 8)
  }

  /** Number of cells of the whole matrix holding code v. */
  function Count(m: Mtx, v: int): nat
    requires IsMatrix(m)
  {
    CountRows(m, v, 8)
  }

  /** The first n cells of a row hold code v somewhere exactly when their
      count of v is positive. */
  lemma {:induction false} CountRowPositive(row: seq<int>, v: int, n: int)
    requires 0 <= n <= |row|
    ensures CountRow(row, v, n) > 0 <==> exists j :: 0 <= j < n && row[j] == v
  {
    if n > 0 {
      CountRowPositive(row, v, n - 1);
    }
  }

  /** The first k rows hold code v somewhere exactly when their count of v is positive. */
  lemma {:induction false} CountRowsPositive(m: Mtx, v: int, k: nat)
    requires IsMatrix(m) && k <= 8
    ensures CountRows(m, v, k) > 0 <==> exists i, j :: 0 <= i < k && 0 <= j < 8 && m[i][j] == v
  {
    if k > 0 {
      CountRowsPositive(m, v, k - 1);
      var last := m[k - 1];
      CountRowPositive(last, v, 8);
      if exists j :: 0 <= j < 8 && last[j] == v {
        var j :| 0 <= j < 8 && last[j] == v;
        assert 0 <= k - 1 < k && m[k - 1][j] == v;
      }
      if exists i, j :: 0 <= i < k && 0 <= j < 8 && m[i][j] == v {
        var i, j :| 0 <= i < k && 0 <= j < 8 && m[i][j] == v;
        if i < k - 1 {
          assert 0 <= i < k - 1 && 0 <= j < 8 && m[i][j] == v;
        } else {
          assert m[k - 1][j] == v;
        }
      }
    }
  }

  /** The whole matrix holds code v somewhere exactly when Count(m, v) is positive. */
  lemma CountPositive(m: Mtx, v: int)
    requires IsMatrix(m)
    ensures Count(m, v) > 0 <==> exists i, j :: InBounds(i, j) && m[i][j] == v
  {
    CountRowsPositive(m, v, 8);
  }
}
