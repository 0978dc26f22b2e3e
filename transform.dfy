/**
 * `Transform2D`: 3x3 homogeneous matrices over the plane, held in mutable 3x3 arrays and
 * built up in place. Reals stand for the source's floating-point numbers.
 */
module Transform2D {
  import opened Wrappers

  /** A matrix value, row by row. */
  type Mat = seq<seq<real>>

  ghost predicate Is3x3(m: Mat)
  {
    |m| == 3 && forall i :: 0 <= i < 3 ==> |m[i]| == 3
  }

  /** The contents of a transform array, row by row. */
  ghost function Value(m: array2<real>): (r: Mat)
    requires m.Length0 == 3 && m.Length1 == 3
    reads m
    ensures Is3x3(r)
  {
    [[m[0, 0], m[0, 1], m[0, 2]], [m[1, 0], m[1, 1], m[1, 2]], [m[2, 0], m[2, 1], m[2, 2]]]
  }

  function Identity(): Mat
  {
    [[1.0, 0.0, 0.0], [0.0, 1.0, 0.0], [0.0, 0.0, 1.0]]
  }

  function Translation(x: real, y: real): Mat
  {
    [[1.0, 0.0, x], [0.0, 1.0, y], [0.0, 0.0, 1.0]]
  }

  function Scaling(sx: real, sy: real): Mat
  {
    [[sx, 0.0, 0.0], [0.0, sy, 0.0], [0.0, 0.0, 1.0]]
  }

  /** Entry (i, j) of the matrix product p * q. */
  function Dot(p: Mat, q: Mat, i: nat, j: nat): real
    requires Is3x3(p) && Is3x3(q) && i < 3 && j < 3
  {
    p[i][0] * q[0][j] + p[i][1] * q[1][j] + p[i][2] * q[2][j]
  }

  /** The matrix product p * q. */
  function Mul(p: Mat, q: Mat): (r: Mat)
    requires Is3x3(p) && Is3x3(q)
    ensures Is3x3(r)
    ensures forall i, j :: 0 <= i < 3 && 0 <= j < 3 ==> r[i][j] == Dot(p, q, i, j)
  {
    seq(3, i requires 0 <= i < 3 => seq(3, j requires 0 <= j < 3 => Dot(p, q, i, j)))
  }

  /** The matrix applied to a homogeneous column vector. */
  function Apply(m: Mat, v: seq<real>): (r: seq<real>)
    requires Is3x3(m) && |v| == 3
    ensures |r| == 3
    ensures forall i :: 0 <= i < 3 ==> r[i] == m[i][0] * v[0] + m[i][1] * v[1] + m[i][2] * v[2]
  {
    seq(3, i requires 0 <= i < 3 => m[i][0] * v[0] + m[i][1] * v[1] + m[i][2] * v[2])
  }

  /** The Cartesian point a matrix maps (x, y) to; `None` where the homogeneous divide is by zero. */
  function MapPoint(m: Mat, x: real, y: real): Option<(real, real)>
    requires Is3x3(m)
  {
    var h := Apply(m, [x, y, 1.0]);
    if h[2] == 0.0 then None else Some((h[0] / h[2], h[1] / h[2]))
  }

  /** Two 3x3 matrices with the same entries are equal. */
  lemma MatEq(m: Mat, n: Mat)
    requires Is3x3(m) && Is3x3(n)
    requires forall i, j :: 0 <= i < 3 && 0 <= j < 3 ==> m[i][j] == n[i][j]
    ensures m == n
  {
    forall i | 0 <= i < 3 ensures m[i] == n[i] {
      assert m[i][0] == n[i][0] && m[i][1] == n[i][1] && m[i][2] == n[i][2];
    }
  }

  /**
   * One row of MulApply, entry by entry: with q's rows (a0, a1, a2), (b0, b1, b2) and
   * (c0, c1, c2), the row (p0, p1, p2) of p * q against v is that row of p against q * v.
   */
  lemma RowApply(p0: real, p1: real, p2: real, a0: real, a1: real, a2: real, b0: real, b1: real, b2: real,
                 c0: real, c1: real, c2: real, v0: real, v1: real, v2: real)
    ensures (p0 * a0 + p1 * b0 + p2 * c0) * v0 + (p0 * a1 + p1 * b1 + p2 * c1) * v1
          + (p0 * a2 + p1 * b2 + p2 * c2) * v2
         == p0 * (a0 * v0 + a1 * v1 + a2 * v2) + p1 * (b0 * v0 + b1 * v1 + b2 * v2)
          + p2 * (c0 * v0 + c1 * v1 + c2 * v2)
  {
  }

  /** Row i of MulApply. */
  lemma MulApplyRow(p: Mat, q: Mat, v: seq<real>, i: nat)
    requires Is3x3(p) && Is3x3(q) && |v| == 3 && i < 3
    ensures Apply(Mul(p, q), v)[i] == Apply(p, Apply(q, v))[i]
  {
    var r := Mul(p, q);
    var w := Apply(q, v);
    assert Apply(r, v)[i] == r[i][0] * v[0] + r[i][1] * v[1] + r[i][2] * v[2];
    assert Apply(p, w)[i] == p[i][0] * w[0] + p[i][1] * w[1] + p[i][2] * w[2];
    assert r[i][0] == Dot(p, q, i, 0) && r[i][1] == Dot(p, q, i, 1) && r[i][2] == Dot(p, q, i, 2);
    RowApply(p[i][0], p[i][1], p[i][2], q[0][0], q[0][1], q[0][2], q[1][0], q[1][1], q[1][2],
             q[2][0], q[2][1], q[2][2], v[0], v[1], v[2]);
  }

  /** A matrix whose last row is (0, 0, 1) needs no homogeneous divide. */
  lemma MapPointAffine(m: Mat, x: real, y: real)
    requires Is3x3(m) && m[2] == [0.0, 0.0, 1.0]
    ensures var h := Apply(m, [x, y, 1.0]); MapPoint(m, x, y) == Some((h[0], h[1]))
  {
    var v := [x, y, 1.0];
    var h := Apply(m, v);
    assert m[2][0] * v[0] == 0.0 * x && m[2][1] * v[1] == 0.0 * y && m[2][2] * v[2] == 1.0 * 1.0;
    assert h[2] == 1.0;
    assert h[0] / h[2] == h[0] / 1.0 && h[1] / h[2] == h[1] / 1.0;
  }

  /** Applying a product applies its right factor first. */
  lemma MulApply(p: Mat, q: Mat, v: seq<real>)
    requires Is3x3(p) && Is3x3(q) && |v| == 3
    ensures Apply(Mul(p, q), v) == Apply(p, Apply(q, v))
  {
    MulApplyRow(p, q, v, 0);
    MulApplyRow(p, q, v, 1);
    MulApplyRow(p, q, v, 2);
  }

  /** `Apply` on a matrix written out entry by entry. */
  lemma ApplyEntries(a00: real, a01: real, a02: real, a10: real, a11: real, a12: real,
                     a20: real, a21: real, a22: real, v0: real, v1: real, v2: real)
    ensures Apply([[a00, a01, a02], [a10, a11, a12], [a20, a21, a22]], [v0, v1, v2])
         == [a00 * v0 + a01 * v1 + a02 * v2, a10 * v0 + a11 * v1 + a12 * v2, a20 * v0 + a21 * v1 + a22 * v2]
  {
    var m := [[a00, a01, a02], [a10, a11, a12], [a20, a21, a22]];
    var v := [v0, v1, v2];
    assert m[0][0] * v[0] == a00 * v0 && m[0][1] * v[1] == a01 * v1 && m[0][2] * v[2] == a02 * v2;
    assert m[1][0] * v[0] == a10 * v0 && m[1][1] * v[1] == a11 * v1 && m[1][2] * v[2] == a12 * v2;
    assert m[2][0] * v[0] == a20 * v0 && m[2][1] * v[1] == a21 * v1 && m[2][2] * v[2] == a22 * v2;
    var r := Apply(m, v);
    assert r[0] == a00 * v0 + a01 * v1 + a02 * v2;
    assert r[1] == a10 * v0 + a11 * v1 + a12 * v2;
    assert r[2] == a20 * v0 + a21 * v1 + a22 * v2;
  }

  /** A translation maps (x, y) to (x + dx, y + dy); a scaling to (sx x, sy y). */
  lemma TranslationAndScalingMapPoints(dx: real, dy: real, sx: real, sy: real, x: real, y: real)
    ensures MapPoint(Translation(dx, dy), x, y) == Some((x + dx, y + dy))
    ensures MapPoint(Scaling(sx, sy), x, y) == Some((sx * x, sy * y))
  {
    ApplyEntries(1.0, 0.0, dx, 0.0, 1.0, dy, 0.0, 0.0, 1.0, x, y, 1.0);
    ApplyEntries(sx, 0.0, 0.0, 0.0, sy, 0.0, 0.0, 0.0, 1.0, x, y, 1.0);
    MapPointAffine(Translation(dx, dy), x, y);
    MapPointAffine(Scaling(sx, sy), x, y);
  }

  /** A transform built as identity, then `scale(sx, sy)`, then `translate(dx, dy)`. */
  lemma ScaleThenTranslate(sx: real, sy: real, dx: real, dy: real, x: real, y: real)
    ensures MapPoint(Mul(Translation(dx, dy), Mul(Scaling(sx, sy), Identity())), x, y) == Some((sx * x + dx, sy * y + dy))
  {
    var v := [x, y, 1.0];
    MulApply(Translation(dx, dy), Mul(Scaling(sx, sy), Identity()), v);
    MulApply(Scaling(sx, sy), Identity(), v);
    ApplyEntries(1.0, 0.0, 0.0, 0.0, 1.0, 0.0, 0.0, 0.0, 1.0, x, y, 1.0);
    ApplyEntries(sx, 0.0, 0.0, 0.0, sy, 0.0, 0.0, 0.0, 1.0, x, y, 1.0);
    ApplyEntries(1.0, 0.0, dx, 0.0, 1.0, dy, 0.0, 0.0, 1.0, sx * x, sy * y, 1.0);
    LastRowAffine(Scaling(sx, sy), Identity());
    LastRowAffine(Translation(dx, dy), Mul(Scaling(sx, sy), Identity()));
    MapPointAffine(Mul(Translation(dx, dy), Mul(Scaling(sx, sy), Identity())), x, y);
  }

  /** Scaling after translating, applied to a point. */
  lemma ApplyTranslateThenScale(dx: real, dy: real, sx: real, sy: real, x: real, y: real)
    ensures Apply(Scaling(sx, sy), Apply(Translation(dx, dy), Apply(Identity(), [x, y, 1.0])))
         == [sx * (x + dx), sy * (y + dy), 1.0]
  {
    ApplyEntries(1.0, 0.0, 0.0, 0.0, 1.0, 0.0, 0.0, 0.0, 1.0, x, y, 1.0);
    ApplyEntries(1.0, 0.0, dx, 0.0, 1.0, dy, 0.0, 0.0, 1.0, x, y, 1.0);
    assert Apply(Identity(), [x, y, 1.0]) == [x, y, 1.0];
    assert Apply(Translation(dx, dy), [x, y, 1.0]) == [x + dx, y + dy, 1.0];
    ApplyEntries(sx, 0.0, 0.0, 0.0, sy, 0.0, 0.0, 0.0, 1.0, x + dx, y + dy, 1.0);
    var r := Apply(Scaling(sx, sy), [x + dx, y + dy, 1.0]);
    assert r[0] == sx * (x + dx) + 0.0 * (y + dy) + 0.0 * 1.0;
    assert r[1] == 0.0 * (x + dx) + sy * (y + dy) + 0.0 * 1.0;
    assert r[2] == 0.0 * (x + dx) + 0.0 * (y + dy) + 1.0 * 1.0;
  }

  /** A transform built as identity, then `translate(dx, dy)`, then `scale(sx, sy)`. */
  lemma TranslateThenScale(dx: real, dy: real, sx: real, sy: real, x: real, y: real)
    ensures MapPoint(Mul(Scaling(sx, sy), Mul(Translation(dx, dy), Identity())), x, y) == Some((sx * (x + dx), sy * (y + dy)))
  {
    var v := [x, y, 1.0];
    MulApply(Scaling(sx, sy), Mul(Translation(dx, dy), Identity()), v);
    MulApply(Translation(dx, dy), Identity(), v);
    ApplyTranslateThenScale(dx, dy, sx, sy, x, y);
    LastRowAffine(Translation(dx, dy), Identity());
    LastRowAffine(Scaling(sx, sy), Mul(Translation(dx, dy), Identity()));
    MapPointAffine(Mul(Scaling(sx, sy), Mul(Translation(dx, dy), Identity())), x, y);
  }

  /**
   * Each transform built by `scale` then `translate` is undone by the one built from the
   * inverse operations in reverse order: `translate(-dx, -dy)` then `scale(1 / sx, 1 / sy)`.
   */
  lemma ScaleTranslateRoundTrip(sx: real, sy: real, dx: real, dy: real, x: real, y: real)
    requires sx != 0.0 && sy != 0.0
    ensures MapPoint(Mul(Translation(dx, dy), Mul(Scaling(sx, sy), Identity())), x, y) == Some((sx * x + dx, sy * y + dy))
    ensures MapPoint(Mul(Scaling(1.0 / sx, 1.0 / sy), Mul(Translation(-dx, -dy), Identity())), sx * x + dx, sy * y + dy) == Some((x, y))
  {
    ScaleThenTranslate(sx, sy, dx, dy, x, y);
    Undo(sx, sy, dx, dy, x, y, 1.0 / sx, 1.0 / sy, sx * x + dx, sy * y + dy);
  }

  lemma Undo(sx: real, sy: real, dx: real, dy: real, x: real, y: real, isx: real, isy: real, u: real, w: real)
    requires sx != 0.0 && sy != 0.0 && isx == 1.0 / sx && isy == 1.0 / sy
    requires u == sx * x + dx && w == sy * y + dy
    ensures MapPoint(Mul(Scaling(isx, isy), Mul(Translation(-dx, -dy), Identity())), u, w) == Some((x, y))
  {
    var ndx, ndy := -dx, -dy;
    TranslateThenScale(ndx, ndy, isx, isy, u, w);
    Cancel(sx, isx, x, ndx, u);
    Cancel(sy, isy, y, ndy, w);
  }

  lemma Cancel(s: real, inv: real, x: real, d: real, u: real)
    requires s != 0.0 && inv == 1.0 / s && u + d == s * x
    ensures inv * (u + d) == x
  {
    assert inv * (u + d) == inv * (s * x);
    assert inv * (s * x) == (inv * s) * x;
    assert inv * s == 1.0;
  }

  lemma Subtract(k: real, c: real, d: real, nd: real)
    requires nd == -d
    ensures k * (c + nd) == k * (c - d)
  {
  }

  lemma SamePoint(a: real, b: real, c: real, d: real)
    requires a == c && b == d
    ensures Some((a, b)) == Some((c, d))
  {
  }

  lemma Flip(k: real, nk: real, c: real, d: real, nd: real)
    requires nk == -k && nd == -d
    ensures nk * (c + nd) == k * (d - c)
  {
    assert c + nd == -(d - c);
  }

  /** Products of matrices with last row (0, 0, 1) keep that last row. */
  lemma LastRowAffine(p: Mat, q: Mat)
    requires Is3x3(p) && Is3x3(q) && p[2] == [0.0, 0.0, 1.0] && q[2] == [0.0, 0.0, 1.0]
    ensures Mul(p, q)[2] == [0.0, 0.0, 1.0]
  {
    var r := Mul(p, q);
    forall j | 0 <= j < 3 ensures r[2][j] == q[2][j] {
      assert p[2][0] * q[0][j] == 0.0 * q[0][j] && p[2][1] * q[1][j] == 0.0 * q[1][j];
      assert p[2][2] * q[2][j] == 1.0 * q[2][j];
    }
  }

  method CreateIdentity() returns (m: array2<real>)
    ensures fresh(m) && m.Length0 == 3 && m.Length1 == 3
    ensures Value(m) == Identity()
  {
    m := new real[3, 3];
    m[0, 0], m[0, 1], m[0, 2] := 1.0, 0.0, 0.0;
    m[1, 0], m[1, 1], m[1, 2] := 0.0, 1.0, 0.0;
    m[2, 0], m[2, 1], m[2, 2] := 0.0, 0.0, 1.0;
  }

  /** A fresh array holding the same matrix. */
  method Copy(t: array2<real>) returns (result: array2<real>)
    requires t.Length0 == 3 && t.Length1 == 3
    ensures fresh(result) && result.Length0 == 3 && result.Length1 == 3
    ensures Value(result) == Value(t)
  {
    result := new real[3, 3];
    for i := 0 to 3
      invariant forall p, q :: 0 <= p < i && 0 <= q < 3 ==> result[p, q] == t[p, q]
    {
      for j := 0 to 3
        invariant forall p, q :: 0 <= p < i && 0 <= q < 3 ==> result[p, q] == t[p, q]
        invariant forall q :: 0 <= q < j ==> result[i, q] == t[i, q]
      {
        result[i, j] := t[i, j];
      }
    }
  }

  /** The first k terms of entry (i, j) of `multiply(a, b, _)`: a[x][j] * b[i][x] summed over x < k. */
  ghost function PartialProduct(a: array2<real>, b: array2<real>, i: nat, j: nat, k: nat): real
    requires a.Length0 == 3 && a.Length1 == 3 && b.Length0 == 3 && b.Length1 == 3
    requires i < 3 && j < 3 && k <= 3
    reads a, b
  {
    if k == 0 then 0.0 else PartialProduct(a, b, i, j, k - 1) + a[k - 1, j] * b[i, k - 1]
  }

  lemma FullProduct(a: array2<real>, b: array2<real>, i: nat, j: nat)
    requires a.Length0 == 3 && a.Length1 == 3 && b.Length0 == 3 && b.Length1 == 3
    requires i < 3 && j < 3
    ensures PartialProduct(a, b, i, j, 3) == Dot(Value(b), Value(a), i, j)
  {
    var p, q := Value(b), Value(a);
    assert p[i][0] == b[i, 0] && p[i][1] == b[i, 1] && p[i][2] == b[i, 2];
    assert q[0][j] == a[0, j] && q[1][j] == a[1, j] && q[2][j] == a[2, j];
    assert PartialProduct(a, b, i, j, 1) == a[0, j] * b[i, 0];
    assert PartialProduct(a, b, i, j, 2) == a[0, j] * b[i, 0] + a[1, j] * b[i, 1];
    assert PartialProduct(a, b, i, j, 3) == a[0, j] * b[i, 0] + a[1, j] * b[i, 1] + a[2, j] * b[i, 2];
    assert Dot(p, q, i, j) == b[i, 0] * a[0, j] + b[i, 1] * a[1, j] + b[i, 2] * a[2, j];
  }

  /** Fills `result` with b * a: entry (i, j) sums a[x][j] * b[i][x] over x. */
  method Multiply(a: array2<real>, b: array2<real>, result: array2<real>)
    requires a.Length0 == 3 && a.Length1 == 3 && b.Length0 == 3 && b.Length1 == 3
    requires result.Length0 == 3 && result.Length1 == 3
    requires result != a && result != b
    modifies result
    ensures Value(result) == Mul(Value(b), Value(a))
  {
    for i := 0 to 3
      invariant forall p, q :: 0 <= p < i && 0 <= q < 3 ==> result[p, q] == Dot(Value(b), Value(a), p, q)
    {
      for j := 0 to 3
        invariant forall p, q :: 0 <= p < i && 0 <= q < 3 ==> result[p, q] == Dot(Value(b), Value(a), p, q)
        invariant forall q :: 0 <= q < j ==> result[i, q] == Dot(Value(b), Value(a), i, q)
      {
        var value := 0.0;
        for x := 0 to 3
          invariant value == PartialProduct(a, b, i, j, x)
        {
          value := value + a[x, j] * b[i, x];
        }
        FullProduct(a, b, i, j);
        result[i, j] := value;
      }
    }
    MatEq(Value(result), Mul(Value(b), Value(a)));
  }

  /** `translate` ignores its `result` argument and overwrites `transform` with T(x, y) * transform. */
  method Translate(transform: array2<real>, x: real, y: real, result: array2<real>) returns (r: array2<real>)
    requires transform.Length0 == 3 && transform.Length1 == 3
    modifies transform
    ensures r == transform
    ensures Value(transform) == Mul(Translation(x, y), old(Value(transform)))
  {
    var a := Copy(transform);
    var b := new real[3, 3];
    b[0, 0], b[0, 1], b[0, 2] := 1.0, 0.0, x;
    b[1, 0], b[1, 1], b[1, 2] := 0.0, 1.0, y;
    b[2, 0], b[2, 1], b[2, 2] := 0.0, 0.0, 1.0;
    assert Value(b) == Translation(x, y);
    Multiply(a, b, transform);
    r := transform;
  }

  /** `scale` fills `result`, which may be `transform` itself, with S(sx, sy) * transform. */
  method Scale(transform: array2<real>, sx: real, sy: real, result: array2<real>) returns (r: array2<real>)
    requires transform.Length0 == 3 && transform.Length1 == 3
    requires result.Length0 == 3 && result.Length1 == 3
    modifies result
    ensures r == result
    ensures Value(result) == Mul(Scaling(sx, sy), old(Value(transform)))
  {
    var a := Copy(transform);
    var b := new real[3, 3];
    b[0, 0], b[0, 1], b[0, 2] := sx, 0.0, 0.0;
    b[1, 0], b[1, 1], b[1, 2] := 0.0, sy, 0.0;
    b[2, 0], b[2, 1], b[2, 2] := 0.0, 0.0, 1.0;
    assert Value(b) == Scaling(sx, sy);
    Multiply(a, b, result);
    r := result;
  }

  /** The first k terms of row i of a applied to vh. */
  ghost function PartialRow(a: array2<real>, vh: seq<real>, i: nat, k: nat): real
    requires a.Length0 == 3 && a.Length1 == 3 && |vh| == 3 && i < 3 && k <= 3
    reads a
  {
    if k == 0 then 0.0 else PartialRow(a, vh, i, k - 1) + a[i, k - 1] * vh[k - 1]
  }

  lemma FullRow(a: array2<real>, vh: seq<real>, i: nat)
    requires a.Length0 == 3 && a.Length1 == 3 && |vh| == 3 && i < 3
    ensures PartialRow(a, vh, i, 3) == Apply(Value(a), vh)[i]
  {
    var m := Value(a);
    assert m[i][0] == a[i, 0] && m[i][1] == a[i, 1] && m[i][2] == a[i, 2];
    assert PartialRow(a, vh, i, 1) == a[i, 0] * vh[0];
    assert PartialRow(a, vh, i, 2) == a[i, 0] * vh[0] + a[i, 1] * vh[1];
    assert PartialRow(a, vh, i, 3) == a[i, 0] * vh[0] + a[i, 1] * vh[1] + a[i, 2] * vh[2];
    assert m[i][0] * vh[0] == a[i, 0] * vh[0] && m[i][1] * vh[1] == a[i, 1] * vh[1] && m[i][2] * vh[2] == a[i, 2] * vh[2];
  }

  /** The homogeneous vector a * vh. */
  method TransformHomogeneous(a: array2<real>, vh: seq<real>) returns (avh: seq<real>)
    requires a.Length0 == 3 && a.Length1 == 3 && |vh| == 3
    ensures avh == Apply(Value(a), vh)
  {
    avh := [];
    for i := 0 to 3
      invariant |avh| == i
      invariant forall k :: 0 <= k < i ==> avh[k] == Apply(Value(a), vh)[k]
    {
      var value := 0.0;
      for x := 0 to 3
        invariant value == PartialRow(a, vh, i, x)
      {
        value := value + a[i, x] * vh[x];
      }
      FullRow(a, vh, i);
      avh := avh + [value];
    }
  }

  /**
   * The point a maps (x, y) to, after the homogeneous divide; `None` stands for the
   * non-finite coordinates a zero divisor produces.
   */
  method TransformPoint(a: array2<real>, x: real, y: real) returns (p: Option<(real, real)>)
    requires a.Length0 == 3 && a.Length1 == 3
    ensures p == MapPoint(Value(a), x, y)
  {
    var avh := TransformHomogeneous(a, [x, y, 1.0]);
    if avh[2] == 0.0 {
      p := None;
    } else {
      p := Some((avh[0] / avh[2], avh[1] / avh[2]));
    }
  }

  /**
   * The mouse transform built each frame: identity, then `translate(-w/2, -h/2)`, then
   * `scale(k, -k)`.
   */
  method FrameTransform(width: real, height: real, k: real) returns (t: array2<real>)
    ensures fresh(t) && t.Length0 == 3 && t.Length1 == 3
    ensures Value(t) == FrameMatrix(width / 2.0, height / 2.0, k)
  {
    t := CreateIdentity();
    var _ := Translate(t, -width / 2.0, -height / 2.0, t);
    var _ := Scale(t, k, -k, t);
    assert -width / 2.0 == -(width / 2.0) && -height / 2.0 == -(height / 2.0);
  }

  /** The frame's mouse transform for a canvas of half-size (hw, hh) and unit size k. */
  function FrameMatrix(hw: real, hh: real, k: real): Mat
  {
    Mul(Scaling(k, -k), Mul(Translation(-hw, -hh), Identity()))
  }

  /**
   * The frame transform takes canvas pixel (cx, cy) to (k (cx - hw), k (hh - cy)): the canvas
   * centre goes to the origin and y grows upwards.
   */
  lemma FrameMatrixMapsPoints(hw: real, hh: real, k: real, cx: real, cy: real)
    ensures MapPoint(FrameMatrix(hw, hh, k), cx, cy) == Some((k * (cx - hw), k * (hh - cy)))
  {
    var nhw, nhh, nk := -hw, -hh, -k;
    TranslateThenScale(nhw, nhh, k, nk, cx, cy);
    Subtract(k, cx, hw, nhw);
    Flip(k, nk, cy, hh, nhh);
    SamePoint(k * (cx + nhw), nk * (cy + nhh), k * (cx - hw), k * (hh - cy));
  }
}
