/**
 Color mapping, with the doubles of the original as reals: 3x3 matrices, the RGB to XYZ matrix of a set of
 primaries, the tone map, and the desaturation that brings a color into a display's range.
*/
module Color {
  datatype Rgb = Rgb(r: real, g: real, b: real)

  /** Row by row. */
  datatype Matrix = Matrix(
    m0: real, m1: real, m2: real,
    m3: real, m4: real, m5: real,
    m6: real, m7: real, m8: real)

  const IDENTITY := Matrix(1.0, 0.0, 0.0, 0.0, 1.0, 0.0, 0.0, 0.0, 1.0)

  /** Below this a determinant counts as zero. */
  const SINGULAR: real := 0.000000000001

  const WHITE := Rgb(1.0, 1.0, 1.0)

  function Abs(x: real): real { if x < 0.0 then -x else x }

  function Min(x: real, y: real): real { if x < y then x else y }

  function Mul(x: real, y: real): real { x * y }

  lemma MulSum(x: real, y: real, k: real)
    ensures Mul(x + y, k) == Mul(x, k) + Mul(y, k)
    ensures Mul(x - y, k) == Mul(x, k) - Mul(y, k)
    ensures Mul(x, k) == Mul(k, x) && Mul(y, k) == Mul(k, y)
  {
  }

  lemma MulSign(x: real, k: real)
    requires 0.0 <= x && 0.0 <= k
    ensures 0.0 <= Mul(x, k)
    ensures 0.0 < x && 0.0 < k ==> 0.0 < Mul(x, k)
  {
  }

  lemma MulGrows(x: real, y: real, k: real)
    requires 0.0 <= x <= y && 0.0 <= k
    ensures 0.0 <= Mul(x, k) <= Mul(y, k)
    ensures 0.0 < x && 0.0 < k ==> 0.0 < Mul(x, k)
    ensures x < y && 0.0 < k ==> Mul(x, k) < Mul(y, k)
    ensures Mul(x, k) == Mul(k, x) && Mul(y, k) == Mul(k, y)
  {
    hide Mul;
    MulSign(x, k);
    MulSign(y - x, k);
    MulSum(y, x, k);
  }

  function Dot(x: Rgb, y: Rgb): real { x.r * y.r + x.g * y.g + x.b * y.b }

  function Row0(m: Matrix): Rgb { Rgb(m.m0, m.m1, m.m2) }

  function Row1(m: Matrix): Rgb { Rgb(m.m3, m.m4, m.m5) }

  function Row2(m: Matrix): Rgb { Rgb(m.m6, m.m7, m.m8) }

  function Column0(m: Matrix): Rgb { Rgb(m.m0, m.m3, m.m6) }

  function Column1(m: Matrix): Rgb { Rgb(m.m1, m.m4, m.m7) }

  function Column2(m: Matrix): Rgb { Rgb(m.m2, m.m5, m.m8) }

  function Apply(m: Matrix, c: Rgb): Rgb {
    Rgb(Dot(Row0(m), c), Dot(Row1(m), c), Dot(Row2(m), c))
  }

  // ----- products -----

  function Product(a: Matrix, b: Matrix): Matrix {
    var c0, c1, c2 := Apply(a, Column0(b)), Apply(a, Column1(b)), Apply(a, Column2(b));
    Matrix(c0.r, c1.r, c2.r, c0.g, c1.g, c2.g, c0.b, c1.b, c2.b)
  }

  function Cells(m: Matrix): (v: seq<real>)
    ensures |v| == 9
  {
    [m.m0, m.m1, m.m2, m.m3, m.m4, m.m5, m.m6, m.m7, m.m8]
  }

  /** The first `n` terms of the cell at `row`, `col` of a product. */
  function Terms(a: seq<real>, b: seq<real>, row: nat, col: nat, n: nat): real
    requires |a| == |b| == 9 && row < 3 && col < 3 && n <= 3
  {
    if n == 0 then 0.0 else Terms(a, b, row, col, n - 1) + a[row * 3 + n - 1] * b[(n - 1) * 3 + col]
  }

  lemma CellOfProduct(a: Matrix, b: Matrix, row: nat, col: nat)
    requires row < 3 && col < 3
    ensures var x, y := Cells(a), Cells(b);
      Cells(Product(a, b))[row * 3 + col]
        == x[row * 3] * y[col] + x[row * 3 + 1] * y[3 + col] + x[row * 3 + 2] * y[6 + col]
  {
    if row == 0 {
    } else if row == 1 {
    } else {
    }
  }

  lemma CellIs(a: Matrix, b: Matrix, row: nat, col: nat)
    requires row < 3 && col < 3
    ensures Terms(Cells(a), Cells(b), row, col, 3) == Cells(Product(a, b))[row * 3 + col]
  {
    hide Product, Cells;
    var x, y := Cells(a), Cells(b);
    CellOfProduct(a, b, row, col);
    assert Terms(x, y, row, col, 1) == x[row * 3] * y[col];
    assert Terms(x, y, row, col, 2) == x[row * 3] * y[col] + x[row * 3 + 1] * y[3 + col];
    assert Terms(x, y, row, col, 3) == x[row * 3] * y[col] + x[row * 3 + 1] * y[3 + col] + x[row * 3 + 2] * y[6 + col];
  }

  method Multiply(a: Matrix, b: Matrix) returns (result: Matrix)
    ensures result == Product(a, b)
  {
    hide Product, Cells, Terms;
    var av, bv := Cells(a), Cells(b);
    ghost var product := Cells(Product(a, b));
    var v := new real[9](_ => 0.0);
    for row := 0 to 3
      invariant forall i :: 0 <= i < row * 3 ==> v[i] == product[i]
      invariant forall i :: row * 3 <= i < 9 ==> v[i] == 0.0
    {
      for col := 0 to 3
        invariant forall i :: 0 <= i < row * 3 + col ==> v[i] == product[i]
        invariant forall i :: row * 3 + col <= i < 9 ==> v[i] == 0.0
      {
        assert Terms(av, bv, row, col, 0) == 0.0 by {
          TermsStart(av, bv, row, col);
        }
        for k := 0 to 3
          invariant v[row * 3 + col] == Terms(av, bv, row, col, k)
          invariant forall i :: 0 <= i < row * 3 + col ==> v[i] == product[i]
          invariant forall i :: row * 3 + col < i < 9 ==> v[i] == 0.0
        {
          TermsNext(av, bv, row, col, k);
          v[row * 3 + col] := v[row * 3 + col] + av[row * 3 + k] * bv[k * 3 + col];
        }
        CellIs(a, b, row, col);
      }
    }
    result := Matrix(v[0], v[1], v[2], v[3], v[4], v[5], v[6], v[7], v[8]);
    CellsAreAll(result, Product(a, b));
  }

  lemma TermsStart(a: seq<real>, b: seq<real>, row: nat, col: nat)
    requires |a| == |b| == 9 && row < 3 && col < 3
    ensures Terms(a, b, row, col, 0) == 0.0
  {
  }

  lemma TermsNext(a: seq<real>, b: seq<real>, row: nat, col: nat, n: nat)
    requires |a| == |b| == 9 && row < 3 && col < 3 && n < 3
    ensures Terms(a, b, row, col, n + 1) == Terms(a, b, row, col, n) + a[row * 3 + n] * b[n * 3 + col]
  {
  }

  lemma CellsAreAll(a: Matrix, b: Matrix)
    requires a.m0 == Cells(b)[0] && a.m1 == Cells(b)[1] && a.m2 == Cells(b)[2]
    requires a.m3 == Cells(b)[3] && a.m4 == Cells(b)[4] && a.m5 == Cells(b)[5]
    requires a.m6 == Cells(b)[6] && a.m7 == Cells(b)[7] && a.m8 == Cells(b)[8]
    ensures a == b
  {
  }

  lemma DotOfSum(w: Rgb, x: Rgb, y: Rgb, z: Rgb, c: Rgb)
    ensures Dot(Rgb(Dot(w, x), Dot(w, y), Dot(w, z)), c)
         == Dot(w, Rgb(x.r * c.r + y.r * c.g + z.r * c.b, x.g * c.r + y.g * c.g + z.g * c.b,
                       x.b * c.r + y.b * c.g + z.b * c.b))
  {
  }

  /** A product acts as its factors, one after the other. */
  lemma ProductApplies(a: Matrix, b: Matrix, c: Rgb)
    ensures Apply(Product(a, b), c) == Apply(a, Apply(b, c))
  {
    hide Dot;
    var x, y, z := Column0(b), Column1(b), Column2(b);
    DotOfSum(Row0(a), x, y, z, c);
    DotOfSum(Row1(a), x, y, z, c);
    DotOfSum(Row2(a), x, y, z, c);
    assert Apply(b, c) == Rgb(x.r * c.r + y.r * c.g + z.r * c.b, x.g * c.r + y.g * c.g + z.g * c.b,
                              x.b * c.r + y.b * c.g + z.b * c.b) by {
      ApplyByColumns(b, c);
    }
  }

  lemma ApplyByColumns(b: Matrix, c: Rgb)
    ensures var x, y, z := Column0(b), Column1(b), Column2(b);
      Apply(b, c) == Rgb(x.r * c.r + y.r * c.g + z.r * c.b, x.g * c.r + y.g * c.g + z.g * c.b,
                         x.b * c.r + y.b * c.g + z.b * c.b)
  {
  }

  // ----- the inverse -----

  function Minor(a: real, b: real, c: real, d: real): real { a * b - c * d }

  function Determinant(m: Matrix): real {
    m.m0 * Minor(m.m4, m.m8, m.m5, m.m7) - m.m1 * Minor(m.m3, m.m8, m.m5, m.m6) + m.m2 * Minor(m.m3, m.m7, m.m4, m.m6)
  }

  function Scaled(m: Matrix, d: real): Matrix {
    Matrix(m.m0 * d, m.m1 * d, m.m2 * d, m.m3 * d, m.m4 * d, m.m5 * d, m.m6 * d, m.m7 * d, m.m8 * d)
  }

  function Adjugate(m: Matrix): Matrix {
    Matrix(Minor(m.m4, m.m8, m.m5, m.m7), Minor(m.m2, m.m7, m.m1, m.m8), Minor(m.m1, m.m5, m.m2, m.m4),
           Minor(m.m5, m.m6, m.m3, m.m8), Minor(m.m0, m.m8, m.m2, m.m6), Minor(m.m2, m.m3, m.m0, m.m5),
           Minor(m.m3, m.m7, m.m4, m.m6), Minor(m.m1, m.m6, m.m0, m.m7), Minor(m.m0, m.m4, m.m1, m.m3))
  }

  predicate Invertible(m: Matrix) {
    Abs(Determinant(m)) >= SINGULAR
  }

  function Inverse(m: Matrix): Matrix {
    if !Invertible(m) then IDENTITY else Scaled(Adjugate(m), 1.0 / Determinant(m))
  }

  function Cross(x: Rgb, y: Rgb): Rgb {
    Rgb(Minor(x.g, y.b, x.b, y.g), Minor(x.b, y.r, x.r, y.b), Minor(x.r, y.g, x.g, y.r))
  }

  lemma CrossIsAcross(x: Rgb, y: Rgb)
    ensures Dot(Cross(x, y), x) == 0.0
    ensures Dot(Cross(x, y), y) == 0.0
    ensures Dot(x, Cross(x, y)) == 0.0
    ensures Dot(y, Cross(x, y)) == 0.0
  {
  }

  lemma CrossTurns(x: Rgb, y: Rgb, z: Rgb)
    ensures Dot(Cross(x, y), z) == Dot(Cross(y, z), x)
    ensures Dot(z, Cross(x, y)) == Dot(Cross(x, y), z)
  {
  }

  lemma DeterminantByColumns(m: Matrix)
    ensures Determinant(m) == Dot(Cross(Column1(m), Column2(m)), Column0(m))
    ensures Determinant(m) == Dot(Cross(Row1(m), Row2(m)), Row0(m))
  {
  }

  lemma MinorTurns(a: real, b: real, c: real, d: real)
    ensures Minor(a, b, c, d) == Minor(a, b, d, c) == Minor(b, a, c, d) == Minor(b, a, d, c)
  {
  }

  lemma AdjugateRows(m: Matrix)
    ensures var x, y, z := Column0(m), Column1(m), Column2(m);
      var a := Adjugate(m);
      Row0(a) == Cross(y, z) && Row1(a) == Cross(z, x) && Row2(a) == Cross(x, y)
  {
    hide Minor;
    forall a, b, c, d ensures Minor(a, b, c, d) == Minor(a, b, d, c) == Minor(b, a, c, d) == Minor(b, a, d, c) {
      MinorTurns(a, b, c, d);
    }
  }

  lemma AdjugateColumns(m: Matrix)
    ensures var x, y, z := Row0(m), Row1(m), Row2(m);
      var a := Adjugate(m);
      Column0(a) == Cross(y, z) && Column1(a) == Cross(z, x) && Column2(a) == Cross(x, y)
  {
    hide Minor;
    forall a, b, c, d ensures Minor(a, b, c, d) == Minor(a, b, d, c) == Minor(b, a, c, d) == Minor(b, a, d, c) {
      MinorTurns(a, b, c, d);
    }
  }

  lemma AdjugateLeft(m: Matrix)
    ensures var d := Determinant(m);
      Product(Adjugate(m), m) == Matrix(d, 0.0, 0.0, 0.0, d, 0.0, 0.0, 0.0, d)
  {
    hide Dot, Cross, Determinant, Adjugate;
    var x, y, z := Column0(m), Column1(m), Column2(m);
    AdjugateRows(m);
    DeterminantByColumns(m);
    CrossIsAcross(x, y); CrossIsAcross(y, z); CrossIsAcross(z, x);
    CrossTurns(x, y, z); CrossTurns(y, z, x);
  }

  lemma AdjugateRight(m: Matrix)
    ensures var d := Determinant(m);
      Product(m, Adjugate(m)) == Matrix(d, 0.0, 0.0, 0.0, d, 0.0, 0.0, 0.0, d)
  {
    hide Dot, Cross, Determinant, Adjugate;
    var x, y, z := Row0(m), Row1(m), Row2(m);
    AdjugateColumns(m);
    DeterminantByColumns(m);
    CrossIsAcross(x, y); CrossIsAcross(y, z); CrossIsAcross(z, x);
    CrossTurns(x, y, z); CrossTurns(y, z, x); CrossTurns(z, x, y);
  }

  function Times(x: Rgb, d: real): Rgb { Rgb(x.r * d, x.g * d, x.b * d) }

  lemma DotScaled(x: Rgb, y: Rgb, d: real)
    ensures Dot(Times(x, d), y) == Dot(x, y) * d
    ensures Dot(x, Times(y, d)) == Dot(x, y) * d
  {
  }

  lemma RowsScaled(m: Matrix, d: real)
    ensures var s := Scaled(m, d);
      Row0(s) == Times(Row0(m), d) && Row1(s) == Times(Row1(m), d) && Row2(s) == Times(Row2(m), d)
  {
  }

  lemma ColumnsScaled(m: Matrix, d: real)
    ensures var s := Scaled(m, d);
      && Column0(s) == Times(Column0(m), d) && Column1(s) == Times(Column1(m), d)
      && Column2(s) == Times(Column2(m), d)
  {
  }

  lemma ApplyScaled(m: Matrix, c: Rgb, d: real)
    ensures Apply(Scaled(m, d), c) == Times(Apply(m, c), d)
    ensures Apply(m, Times(c, d)) == Times(Apply(m, c), d)
  {
    hide Dot, Scaled;
    RowsScaled(m, d);
    DotScaled(Row0(m), c, d);
    DotScaled(Row1(m), c, d);
    DotScaled(Row2(m), c, d);
  }

  lemma ProductScaled(a: Matrix, b: Matrix, d: real)
    ensures Product(Scaled(a, d), b) == Scaled(Product(a, b), d)
    ensures Product(a, Scaled(b, d)) == Scaled(Product(a, b), d)
  {
    hide Apply;
    ColumnsScaled(b, d);
    ApplyScaled(a, Column0(b), d);
    ApplyScaled(a, Column1(b), d);
    ApplyScaled(a, Column2(b), d);
  }

  lemma ScaledBack(d: real)
    requires d != 0.0
    ensures Scaled(Matrix(d, 0.0, 0.0, 0.0, d, 0.0, 0.0, 0.0, d), 1.0 / d) == IDENTITY
  {
  }

  /** Above its guard the inverse is one, on both sides; below it nothing is undone. */
  lemma InverseIsTwoSided(m: Matrix)
    ensures Invertible(m) ==> Product(Inverse(m), m) == IDENTITY && Product(m, Inverse(m)) == IDENTITY
    ensures !Invertible(m) ==> Product(Inverse(m), m) == m && Product(m, Inverse(m)) == m
  {
    hide Product, Adjugate, Determinant, Scaled;
    if Invertible(m) {
      var d := Determinant(m);
      ProductScaled(Adjugate(m), m, 1.0 / d);
      ProductScaled(m, Adjugate(m), 1.0 / d);
      AdjugateLeft(m);
      AdjugateRight(m);
      ScaledBack(d);
    } else {
      IdentityIsNeutral(m);
    }
  }

  lemma IdentityIsNeutral(m: Matrix)
    ensures Product(IDENTITY, m) == m && Product(m, IDENTITY) == m
  {
  }

  /** The inverse takes a color back. */
  lemma InverseUndoes(m: Matrix, c: Rgb)
    requires Invertible(m)
    ensures Apply(Inverse(m), Apply(m, c)) == c && Apply(m, Apply(Inverse(m), c)) == c
  {
    hide Product, Inverse, Invertible;
    InverseIsTwoSided(m);
    ProductApplies(Inverse(m), m, c);
    ProductApplies(m, Inverse(m), c);
  }

  // ----- primaries -----

  /** A chromaticity, in millionths. */
  datatype Point = Point(x: int, y: int)

  datatype Chromaticities = Chromaticities(red: Point, green: Point, blue: Point, white: Point)

  const SRGB :=
    Chromaticities(Point(640000, 330000), Point(300000, 600000), Point(150000, 60000), Point(312700, 329000))

  const BT2020 :=
    Chromaticities(Point(708000, 292000), Point(170000, 797000), Point(131000, 46000), Point(312700, 329000))

  const DISPLAY_P3 :=
    Chromaticities(Point(680000, 320000), Point(265000, 690000), Point(150000, 60000), Point(312700, 329000))

  function Unit(value: int): real { value as real / 1000000.0 }

  /** The color of a chromaticity whose luma is 1. */
  function Xyz(p: Point): Rgb
    requires p.y != 0
  {
    Rgb(Unit(p.x) / Unit(p.y), 1.0, (1.0 - Unit(p.x) - Unit(p.y)) / Unit(p.y))
  }

  /** No y coordinate to be divided by is zero. */
  predicate Divides(c: Chromaticities) {
    c.red.y != 0 && c.green.y != 0 && c.blue.y != 0 && c.white.y != 0
  }

  function White(c: Chromaticities): Rgb
    requires Divides(c)
  {
    Xyz(c.white)
  }

  function FromColumns(x: Rgb, y: Rgb, z: Rgb): Matrix {
    Matrix(x.r, y.r, z.r, x.g, y.g, z.g, x.b, y.b, z.b)
  }

  function Primaries(c: Chromaticities): Matrix
    requires Divides(c)
  {
    FromColumns(Xyz(c.red), Xyz(c.green), Xyz(c.blue))
  }

  function ColumnsTimes(p: Matrix, scale: Rgb): Matrix {
    FromColumns(Times(Column0(p), scale.r), Times(Column1(p), scale.g), Times(Column2(p), scale.b))
  }

  /** Each primary scaled so that together they make the white, provided the primaries span a triangle. */
  function RgbToXyz(c: Chromaticities): Matrix
    requires Divides(c)
  {
    var p := Primaries(c);
    var scale := Apply(Inverse(p), White(c));
    ColumnsTimes(p, scale)
  }

  function ScaledCell(cells: seq<real>, scale: Rgb, i: nat): real
    requires i < |cells|
  {
    cells[i] * (if i % 3 == 0 then scale.r else if i % 3 == 1 then scale.g else scale.b)
  }

  lemma ScaledRow(cells: seq<real>, scale: Rgb, row: nat)
    requires row < 3 && |cells| == 9
    ensures ScaledCell(cells, scale, row * 3) == cells[row * 3] * scale.r
    ensures ScaledCell(cells, scale, row * 3 + 1) == cells[row * 3 + 1] * scale.g
    ensures ScaledCell(cells, scale, row * 3 + 2) == cells[row * 3 + 2] * scale.b
  {
  }

  /** The scaling loop of rgbToXyz. */
  method ScaleColumns(p: Matrix, scale: Rgb) returns (m: Matrix)
    ensures m == ColumnsTimes(p, scale)
  {
    hide Cells, ColumnsTimes, ScaledCell;
    var cells := Cells(p);
    var v := new real[9](i requires 0 <= i < 9 => cells[i]);
    for row := 0 to 3
      invariant forall i :: 0 <= i < row * 3 ==> v[i] == ScaledCell(cells, scale, i)
      invariant forall i :: row * 3 <= i < 9 ==> v[i] == cells[i]
    {
      ScaledRow(cells, scale, row);
      v[row * 3] := v[row * 3] * scale.r;
      v[row * 3 + 1] := v[row * 3 + 1] * scale.g;
      v[row * 3 + 2] := v[row * 3 + 2] * scale.b;
    }
    m := Matrix(v[0], v[1], v[2], v[3], v[4], v[5], v[6], v[7], v[8]);
    CellsTimes(p, scale);
  }

  lemma CellsTimes(p: Matrix, scale: Rgb)
    ensures var c := Cells(p);
      ColumnsTimes(p, scale) == Matrix(
        ScaledCell(c, scale, 0), ScaledCell(c, scale, 1), ScaledCell(c, scale, 2),
        ScaledCell(c, scale, 3), ScaledCell(c, scale, 4), ScaledCell(c, scale, 5),
        ScaledCell(c, scale, 6), ScaledCell(c, scale, 7), ScaledCell(c, scale, 8))
  {
  }

  predicate Valid(c: Chromaticities) {
    c.red.y > 0 && c.green.y > 0 && c.blue.y > 0 && c.white.y > 0 && Abs(Determinant(RgbToXyz(c))) >= 0.000000001
  }

  function PrimariesTransform(from: Chromaticities, to: Chromaticities): Matrix
    requires Divides(from) && Divides(to)
  {
    Product(Inverse(RgbToXyz(to)), RgbToXyz(from))
  }

  lemma ScaledColumnsApply(p: Matrix, scale: Rgb)
    ensures Apply(ColumnsTimes(p, scale), WHITE) == Apply(p, scale)
  {
  }

  lemma WhiteLuma(c: Chromaticities)
    requires Divides(c)
    ensures White(c).g == 1.0
    ensures White(c).r + White(c).g + White(c).b == 1000000.0 / c.white.y as real
    ensures Row1(Primaries(c)) == WHITE
  {
  }

  /** Where the primaries span a triangle, red, green and blue at full make the white point. */
  lemma WhiteIsKept(c: Chromaticities)
    requires Divides(c) && Invertible(Primaries(c))
    ensures Apply(RgbToXyz(c), WHITE) == White(c)
  {
    hide Apply, Inverse, Invertible, Times;
    var p := Primaries(c);
    var scale := Apply(Inverse(p), White(c));
    ScaledColumnsApply(p, scale);
    InverseUndoes(p, White(c));
  }

  function Sum(c: Rgb): real { c.r + c.g + c.b }

  /**
   The luma weights of a set of primaries sum to 1 exactly when the primaries pass the guard of the inverse, or the
   white is at y = 1; below the guard they sum to 1 / y instead, which `Valid` does not exclude.
  */
  lemma LumaSumsToOne(c: Chromaticities)
    requires Divides(c)
    ensures Sum(Row1(RgbToXyz(c))) == (if Invertible(Primaries(c)) then 1.0 else 1000000.0 / c.white.y as real)
    ensures Sum(Row1(RgbToXyz(c))) == 1.0 <==> Invertible(Primaries(c)) || c.white.y == 1000000
  {
    hide Inverse, Invertible, Times, Determinant;
    var p := Primaries(c);
    var scale := Apply(Inverse(p), White(c));
    assert Apply(RgbToXyz(c), WHITE).g == Sum(Row1(RgbToXyz(c)));
    WhiteLuma(c);
    if Invertible(p) {
      WhiteIsKept(c);
    } else {
      ScaledColumnsApply(p, scale);
      GuardedInverse(p, White(c));
      assert Dot(Row1(p), scale) == Sum(scale);
      OverIsOne(c.white.y);
    }
  }

  lemma GuardedInverse(m: Matrix, c: Rgb)
    requires !Invertible(m)
    ensures Apply(Inverse(m), c) == c
  {
  }

  lemma OverIsOne(n: int)
    requires n != 0
    ensures 1000000.0 / n as real == 1.0 <==> n == 1000000
  {
  }

  lemma ColumnsOf(x: Rgb, y: Rgb, z: Rgb)
    ensures var m := FromColumns(x, y, z); Column0(m) == x && Column1(m) == y && Column2(m) == z
  {
  }

  lemma ColumnsTimesDeterminant(p: Matrix, scale: Rgb)
    ensures Determinant(ColumnsTimes(p, scale)) == Determinant(p) * (scale.r * scale.g * scale.b)
  {
    hide Dot, Cross, Determinant, Times, FromColumns;
    var x, y, z := Column0(p), Column1(p), Column2(p);
    ColumnsOf(Times(x, scale.r), Times(y, scale.g), Times(z, scale.b));
    DeterminantByColumns(p);
    DeterminantByColumns(ColumnsTimes(p, scale));
    CrossScaled(y, z, scale.g, scale.b);
    DotScaled(Cross(y, z), x, scale.g * scale.b);
    DotScaled(Times(Cross(y, z), scale.g * scale.b), x, scale.r);
    Regroup(Dot(Cross(y, z), x), scale);
  }

  lemma MinorScaled(a: real, b: real, p: real, q: real, d: real, e: real)
    ensures (a * d) * (b * e) - (p * d) * (q * e) == (a * b - p * q) * (d * e)
  {
    assert (a * d) * (b * e) == (a * b) * (d * e);
    assert (p * d) * (q * e) == (p * q) * (d * e);
  }

  lemma CrossScaled(x: Rgb, y: Rgb, d: real, e: real)
    ensures Cross(Times(x, d), Times(y, e)) == Times(Cross(x, y), d * e)
  {
    hide Times, Cross;
    MinorScaled(x.g, y.b, x.b, y.g, d, e);
    MinorScaled(x.b, y.r, x.r, y.b, d, e);
    MinorScaled(x.r, y.g, x.g, y.r, d, e);
    CrossOfTimes(x, y, d, e);
    CrossTimes(x, y, d * e);
  }

  lemma CrossOfTimes(x: Rgb, y: Rgb, d: real, e: real)
    ensures Cross(Times(x, d), Times(y, e))
         == Rgb((x.g * d) * (y.b * e) - (x.b * d) * (y.g * e), (x.b * d) * (y.r * e) - (x.r * d) * (y.b * e),
                (x.r * d) * (y.g * e) - (x.g * d) * (y.r * e))
  {
    assert Times(x, d) == Rgb(x.r * d, x.g * d, x.b * d) && Times(y, e) == Rgb(y.r * e, y.g * e, y.b * e);
  }

  lemma CrossTimes(x: Rgb, y: Rgb, f: real)
    ensures Times(Cross(x, y), f)
         == Rgb((x.g * y.b - x.b * y.g) * f, (x.b * y.r - x.r * y.b) * f, (x.r * y.g - x.g * y.r) * f)
  {
  }

  lemma Regroup(a: real, c: Rgb)
    ensures a * (c.g * c.b) * c.r == a * (c.r * c.g * c.b)
  {
  }

  lemma AbsOfProduct(x: real, y: real, a: real, b: real)
    requires Abs(x) < a && Abs(y) <= b && 0.0 < b
    ensures Abs(x * y) < a * b
  {
    assert Abs(x * y) == Abs(x) * Abs(y);
    assert Abs(x) * Abs(y) <= Abs(x) * b;
    assert Abs(x) * b < a * b;
  }

  /** Below the guard the white stands in for the scale, so the determinant stays small. */
  lemma UnguardedDeterminant(c: Chromaticities)
    requires Divides(c) && !Invertible(Primaries(c))
    ensures var p, w := Primaries(c), White(c);
      Determinant(RgbToXyz(c)) == Determinant(p) * (w.r * w.b)
  {
    hide Determinant, Apply, Times, ColumnsTimes, Primaries, Inverse, Invertible;
    var p, w := Primaries(c), White(c);
    GuardedInverse(p, w);
    ColumnsTimesDeterminant(p, w);
    assert w.g == 1.0;
  }

  /** A valid set whose white is nowhere near the y = 0 axis passes the guard. */
  lemma OrdinaryWhiteGuards(c: Chromaticities)
    requires Valid(c) && Abs(White(c).r * White(c).b) <= 1000.0
    ensures Invertible(Primaries(c))
  {
    hide Determinant, RgbToXyz, Primaries, White;
    if !Invertible(Primaries(c)) {
      var d, w := Determinant(Primaries(c)), White(c);
      UnguardedDeterminant(c);
      AbsOfProduct(d, w.r * w.b, SINGULAR, 1000.0);
    }
  }

  /** Twice the area of a triangle of chromaticities, in millionths squared, with its sign. */
  function Area(a: Point, b: Point, c: Point): int {
    a.x * (b.y - c.y) - b.x * (a.y - c.y) + c.x * (a.y - b.y)
  }

  function Whole(p: Point): Rgb {
    Rgb(p.x as real, p.y as real, (1000000 - p.x - p.y) as real)
  }

  lemma XyzTimesY(p: Point)
    requires p.y != 0
    ensures Times(Xyz(p), p.y as real) == Whole(p)
  {
    var x, y, z := Unit(p.x), Unit(p.y), 1.0 - Unit(p.x) - Unit(p.y);
    assert y * 1000000.0 == p.y as real;
    QuotientTimes(x, y);
    QuotientTimes(z, y);
  }

  lemma QuotientTimes(x: real, y: real)
    requires y != 0.0
    ensures x / y * (y * 1000000.0) == x * 1000000.0
  {
    assert x / y * y == x;
  }

  lemma TimesAsReal(a: int, b: int)
    ensures (a * b) as real == a as real * b as real
  {
  }

  lemma AreaAsReal(a: Point, b: Point, c: Point)
    ensures Area(a, b, c) as real
         == a.x as real * (b.y as real - c.y as real) - b.x as real * (a.y as real - c.y as real)
            + c.x as real * (a.y as real - b.y as real)
  {
    TimesAsReal(a.x, b.y - c.y);
    TimesAsReal(b.x, a.y - c.y);
    TimesAsReal(c.x, a.y - b.y);
  }

  lemma DeterminantOfSums(x: Rgb, y: Rgb, k: real)
    ensures var z := Rgb(k - x.r - y.r, k - x.g - y.g, k - x.b - y.b);
      Determinant(Matrix(x.r, x.g, x.b, y.r, y.g, y.b, z.r, z.g, z.b))
        == k * (x.r * (y.g - y.b) - x.g * (y.r - y.b) + x.b * (y.r - y.g))
  {
    var z := Rgb(k - x.r - y.r, k - x.g - y.g, k - x.b - y.b);
    assert Minor(y.g, z.b, y.b, z.g) == k * (y.g - y.b) - (y.g * x.b - y.b * x.g);
    assert Minor(y.r, z.b, y.b, z.r) == k * (y.r - y.b) - (y.r * x.b - y.b * x.r);
    assert Minor(y.r, z.g, y.g, z.r) == k * (y.r - y.g) - (y.r * x.g - y.g * x.r);
  }

  lemma WholeDeterminant(a: Point, b: Point, c: Point)
    ensures Determinant(FromColumns(Whole(a), Whole(b), Whole(c))) == 1000000.0 * Area(a, b, c) as real
  {
    hide Determinant, Area;
    AreaAsReal(a, b, c);
    var x, y := Rgb(a.x as real, b.x as real, c.x as real), Rgb(a.y as real, b.y as real, c.y as real);
    DeterminantOfSums(x, y, 1000000.0);
  }

  /** The determinant of the primaries is that of whole numbers, over the product of their y coordinates. */
  lemma PrimariesDeterminant(c: Chromaticities)
    requires Divides(c)
    ensures Determinant(Primaries(c)) * (c.red.y as real * c.green.y as real * c.blue.y as real)
         == 1000000.0 * Area(c.red, c.green, c.blue) as real
  {
    hide Determinant, Area, Xyz, Times, Whole;
    var p := Primaries(c);
    ColumnsTimesDeterminant(p, Rgb(c.red.y as real, c.green.y as real, c.blue.y as real));
    XyzTimesY(c.red);
    XyzTimesY(c.green);
    XyzTimesY(c.blue);
    WholeDeterminant(c.red, c.green, c.blue);
  }

  lemma ValidHasArea(c: Chromaticities)
    requires Valid(c)
    ensures Determinant(Primaries(c)) != 0.0
  {
    hide Determinant, Inverse, ColumnsTimes;
    ColumnsTimesDeterminant(Primaries(c), Apply(Inverse(Primaries(c)), White(c)));
  }

  lemma ProductUpTo(x: real, m: real, y: real, n: real)
    requires 0.0 < x <= m && 0.0 < y <= n
    ensures 0.0 < x * y <= m * n
    ensures x < m ==> x * y < m * n
  {
    assert x * y == Mul(x, y) && m * n == Mul(m, n);
    hide Mul;
    MulGrows(x, m, y);
    MulGrows(y, n, m);
  }

  lemma UpToAMillion(x: real, y: real, z: real)
    requires 0.0 < x <= 1000000.0 && 0.0 < y <= 1000000.0 && 0.0 < z <= 1000000.0
    ensures 0.0 < x * y * z <= 1000000000000000000.0
  {
    ProductUpTo(x, 1000000.0, y, 1000000.0);
    ProductUpTo(x * y, 1000000000000.0, z, 1000000.0);
  }

  lemma FarFromZero(d: real, v: real, area: int)
    requires d * v == 1000000.0 * area as real && 0.0 < v <= 1000000000000000000.0 && d != 0.0
    ensures Abs(d) >= SINGULAR
  {
    assert area != 0;
    assert Abs(d) * v == Abs(d * v);
    assert Abs(d) * v >= 1000000.0;
    if Abs(d) < SINGULAR {
      ProductUpTo(Abs(d), SINGULAR, v, 1000000000000000000.0);
    }
  }

  /**
   Every valid set whose primaries have a y of at most 1, as every physical one has, passes the guard: its determinant
   is a whole number of 1e-12 over the product of the three y. So its white and its luma are exact.
  */
  lemma PhysicalIsExact(c: Chromaticities)
    requires Valid(c) && c.red.y <= 1000000 && c.green.y <= 1000000 && c.blue.y <= 1000000
    ensures Invertible(Primaries(c))
    ensures Apply(RgbToXyz(c), WHITE) == White(c) && Sum(Row1(RgbToXyz(c))) == 1.0
  {
    hide Determinant, Area, Primaries, RgbToXyz, White, Apply, Sum;
    PrimariesDeterminant(c);
    assert Divides(c);
    ValidHasArea(c);
    var x, y, z := c.red.y as real, c.green.y as real, c.blue.y as real;
    UpToAMillion(x, y, z);
    FarFromZero(Determinant(Primaries(c)), x * y * z, Area(c.red, c.green, c.blue));
    WhiteIsKept(c);
    LumaSumsToOne(c);
  }

  /** Fit for use: valid, and past the guard of the inverse. */
  predicate Sound(c: Chromaticities) {
    Valid(c) && Invertible(Primaries(c))
  }

  lemma XyzIs(p: Point, v: Rgb)
    requires p.y != 0 && v.g == 1.0
    requires v.r * p.y as real == p.x as real && v.b * p.y as real == (1000000 - p.x - p.y) as real
    ensures Xyz(p) == v
  {
  }

  /** Nearly collinear primaries with a white next to the y = 0 axis. */
  const UNGUARDED := Chromaticities(Point(0, 1000000), Point(1, 1000000), Point(0, 1000001), Point(500000, 1))

  predicate ValidUnguarded(c: Chromaticities) {
    Valid(c) && !Invertible(Primaries(c))
  }

  predicate LumaSums(c: Chromaticities, sum: real) {
    Divides(c) && Sum(Row1(RgbToXyz(c))) == sum
  }

  /** They are valid, yet below the guard, and their luma weights sum to a million. */
  lemma ValidMayBeUnguarded()
    ensures ValidUnguarded(UNGUARDED) && LumaSums(UNGUARDED, 1000000.0)
  {
    var c := UNGUARDED;
    hide Xyz, RgbToXyz;
    XyzIs(c.red, Rgb(0.0, 1.0, 0.0));
    XyzIs(c.green, Rgb(0.000001, 1.0, -0.000001));
    XyzIs(c.blue, Rgb(0.0, 1.0, -1.0 / 1000001.0));
    XyzIs(c.white, Rgb(500000.0, 1.0, 499999.0));
    var d := Determinant(Primaries(c));
    assert d == 1.0 / 1000001000000.0;
    UnguardedDeterminant(c);
    assert Valid(c);
    LumaSumsToOne(c);
  }

  /** Soundness from the worked-out columns, white and scale of a set. */
  lemma SoundByScale(c: Chromaticities, x: Rgb, y: Rgb, z: Rgb, w: Rgb, scale: Rgb, d: real)
    requires c.red.y > 0 && c.green.y > 0 && c.blue.y > 0 && c.white.y > 0
    requires Xyz(c.red) == x && Xyz(c.green) == y && Xyz(c.blue) == z && Xyz(c.white) == w
    requires var p := FromColumns(x, y, z); Determinant(p) == d && Apply(p, scale) == w
    requires Abs(d) >= SINGULAR && Abs(d * (scale.r * scale.g * scale.b)) >= 0.000000001
    ensures Sound(c)
  {
    hide Determinant, Apply, ColumnsTimes, FromColumns, Xyz, Inverse;
    var p := FromColumns(x, y, z);
    assert p == Primaries(c);
    InverseUndoes(p, scale);
    ColumnsTimesDeterminant(p, scale);
  }

  lemma StandardSetsAreSound()
    ensures Sound(SRGB) && Sound(BT2020) && Sound(DISPLAY_P3)
  {
    hide Xyz, Sound;
    var w := Rgb(3127.0 / 3290.0, 1.0, 3583.0 / 3290.0);
    XyzIs(SRGB.white, w);
    {
      var x, y, z := Rgb(64.0 / 33.0, 1.0, 1.0 / 11.0), Rgb(0.5, 1.0, 1.0 / 6.0), Rgb(2.5, 1.0, 79.0 / 6.0);
      XyzIs(SRGB.red, x);
      XyzIs(SRGB.green, y);
      XyzIs(SRGB.blue, z);
      SoundByScale(SRGB, x, y, z, w, Rgb(87098.0 / 409605.0, 175762.0 / 245763.0, 12673.0 / 175545.0), 415.0 / 22.0);
    }
    {
      var x, y := Rgb(177.0 / 73.0, 1.0, 0.0), Rgb(170.0 / 797.0, 1.0, 33.0 / 797.0);
      var z := Rgb(131.0 / 46.0, 1.0, 823.0 / 46.0);
      XyzIs(BT2020.red, x);
      XyzIs(BT2020.green, y);
      XyzIs(BT2020.blue, z);
      SoundByScale(BT2020, x, y, z, w,
                   Rgb(26158966.0 / 99577255.0, 472592308.0 / 697040785.0, 8267143.0 / 139408157.0),
                   52966625.0 / 1338163.0);
    }
    {
      var x, y, z := Rgb(2.125, 1.0, 0.0), Rgb(53.0 / 138.0, 1.0, 3.0 / 46.0), Rgb(2.5, 1.0, 79.0 / 6.0);
      XyzIs(DISPLAY_P3.red, x);
      XyzIs(DISPLAY_P3.green, y);
      XyzIs(DISPLAY_P3.blue, z);
      SoundByScale(DISPLAY_P3, x, y, z, w,
                   Rgb(35783.0 / 156275.0, 247089.0 / 357200.0, 198249.0 / 2500400.0), 4750.0 / 207.0);
    }
  }

  /** What full red, green and blue make: below the guard, the white in place of the scale it asks for. */
  lemma WhiteReached(c: Chromaticities)
    requires Divides(c)
    ensures var p := Primaries(c);
      Apply(RgbToXyz(c), WHITE) == if Invertible(p) then White(c) else Apply(p, White(c))
  {
    hide Apply, Inverse, Invertible, Times, ColumnsTimes;
    var p := Primaries(c);
    if Invertible(p) {
      WhiteIsKept(c);
    } else {
      GuardedInverse(p, White(c));
      ScaledColumnsApply(p, White(c));
    }
  }

  /**
   The white point is made exactly by the primaries that pass the guard, but for a white at y = 1: there primaries below
   the guard make it exactly if they happen to map it to itself.
  */
  lemma WhiteExactly(c: Chromaticities)
    requires Divides(c)
    ensures Apply(RgbToXyz(c), WHITE) == White(c) <==>
      Invertible(Primaries(c)) || (c.white.y == 1000000 && Apply(Primaries(c), White(c)) == White(c))
  {
    hide Inverse, Invertible, Times, Determinant, RgbToXyz;
    WhiteReached(c);
    WhiteLuma(c);
    LumaSumsToOne(c);
    assert Apply(RgbToXyz(c), WHITE).g == Sum(Row1(RgbToXyz(c)));
  }

  /** A transform keeps white exactly when both sets make the same of it. */
  lemma WhiteThrough(from: Chromaticities, to: Chromaticities)
    requires Divides(from) && Divides(to) && Invertible(RgbToXyz(to))
    ensures Apply(PrimariesTransform(from, to), WHITE) == WHITE
      <==> Apply(RgbToXyz(from), WHITE) == Apply(RgbToXyz(to), WHITE)
  {
    hide Product, Inverse, Apply, RgbToXyz, Invertible;
    var f, t := RgbToXyz(from), RgbToXyz(to);
    ProductApplies(Inverse(t), f, WHITE);
    InverseUndoes(t, WHITE);
    InverseUndoes(t, Apply(f, WHITE));
  }

  /**
   Between valid sets of one white point, white stays white if both pass the guard or neither does and they make the
   same of the white; with the white off y = 1 it is lost if only one does.
  */
  lemma TransformKeepsWhite(from: Chromaticities, to: Chromaticities)
    requires Valid(from) && Valid(to) && White(from) == White(to)
    ensures var kept, f, t := Apply(PrimariesTransform(from, to), WHITE) == WHITE, Primaries(from), Primaries(to);
      && (Invertible(f) && Invertible(t) ==> kept)
      && (!Invertible(f) && !Invertible(t) ==> (kept <==> Apply(f, White(from)) == Apply(t, White(from))))
      && (Invertible(f) && !Invertible(t) ==> (kept <==> Apply(t, White(from)) == White(from)))
      && (!Invertible(f) && Invertible(t) ==> (kept <==> Apply(f, White(from)) == White(from)))
      && (from.white.y != 1000000 && Invertible(f) != Invertible(t) ==> !kept)
  {
    hide Product, Inverse, Apply, RgbToXyz, Primaries, Determinant, White, PrimariesTransform;
    assert Invertible(RgbToXyz(to));
    hide Invertible;
    WhiteThrough(from, to);
    WhiteReached(from);
    WhiteReached(to);
    WhiteExactly(from);
    WhiteExactly(to);
    assert from.white.y == to.white.y by {
      WhiteTellsY(from, to);
    }
  }

  lemma WhiteTellsY(c: Chromaticities, d: Chromaticities)
    requires Divides(c) && Divides(d) && White(c) == White(d)
    ensures c.white.y == d.white.y
  {
    hide White, Xyz;
    WhiteLuma(c);
    WhiteLuma(d);
    SameQuotient(c.white.y, d.white.y);
  }

  lemma SameQuotient(m: int, n: int)
    requires m != 0 && n != 0 && 1000000.0 / m as real == 1000000.0 / n as real
    ensures m == n
  {
    var q := 1000000.0 / m as real;
    assert q * m as real == 1000000.0 && q * n as real == 1000000.0;
    assert q * (m as real - n as real) == 0.0;
    assert q != 0.0;
  }

  const GUARDED := Chromaticities(Point(500000, 500000), Point(0, 1000000), Point(0, 500000), Point(500000, 1))

  predicate LosesWhite(from: Chromaticities, to: Chromaticities) {
    && Valid(from) && Valid(to) && White(from) == White(to)
    && Apply(PrimariesTransform(from, to), WHITE) != WHITE
  }

  /** Two valid sets of one white point between which white is lost. */
  lemma WhiteMayBeLost()
    ensures LosesWhite(UNGUARDED, GUARDED)
  {
    hide Xyz, RgbToXyz, Determinant, Primaries, PrimariesTransform, Apply, Invertible, Abs;
    ValidMayBeUnguarded();
    GuardedIsSound();
    TransformKeepsWhite(UNGUARDED, GUARDED);
  }

  lemma GuardedColumns()
    ensures Xyz(GUARDED.red) == Rgb(1.0, 1.0, 0.0) && Xyz(GUARDED.green) == Rgb(0.0, 1.0, 0.0)
    ensures Xyz(GUARDED.blue) == Rgb(0.0, 1.0, 1.0) && Xyz(GUARDED.white) == Rgb(500000.0, 1.0, 499999.0)
  {
    hide Xyz;
    XyzIs(GUARDED.red, Rgb(1.0, 1.0, 0.0));
    XyzIs(GUARDED.green, Rgb(0.0, 1.0, 0.0));
    XyzIs(GUARDED.blue, Rgb(0.0, 1.0, 1.0));
    XyzIs(GUARDED.white, Rgb(500000.0, 1.0, 499999.0));
  }

  const GUARDED_PRIMARIES := FromColumns(Rgb(1.0, 1.0, 0.0), Rgb(0.0, 1.0, 0.0), Rgb(0.0, 1.0, 1.0))

  lemma GuardedDeterminant()
    ensures Determinant(GUARDED_PRIMARIES) == 1.0
  {
  }

  lemma GuardedScale(scale: Rgb)
    requires scale.r == 500000.0 && scale.g == -999998.0 && scale.b == 499999.0
    ensures Apply(GUARDED_PRIMARIES, scale) == Rgb(500000.0, 1.0, 499999.0)
  {
    assert Row0(GUARDED_PRIMARIES) == Rgb(1.0, 0.0, 0.0);
    assert Row1(GUARDED_PRIMARIES) == WHITE;
    assert Row2(GUARDED_PRIMARIES) == Rgb(0.0, 0.0, 1.0);
  }

  lemma GuardedIsSound()
    ensures Sound(GUARDED)
  {
    hide Xyz, Sound, Determinant, Apply;
    GuardedColumns();
    var r, g, b: real := 500000.0, -999998.0, 499999.0;
    GuardedDeterminant();
    GuardedScale(Rgb(r, g, b));
    assert r * g * b < -1.0;
    SoundByScale(GUARDED, Rgb(1.0, 1.0, 0.0), Rgb(0.0, 1.0, 0.0), Rgb(0.0, 1.0, 1.0), Rgb(500000.0, 1.0, 499999.0),
                 Rgb(r, g, b), 1.0);
  }

  /** The transform back undoes the transform there, as it does for all valid sets. */
  lemma TransformUndone(from: Chromaticities, to: Chromaticities, c: Rgb)
    requires Divides(from) && Divides(to) && Invertible(RgbToXyz(from)) && Invertible(RgbToXyz(to))
    ensures Apply(PrimariesTransform(to, from), Apply(PrimariesTransform(from, to), c)) == c
  {
    hide Product, Inverse, Apply, RgbToXyz, Invertible;
    var f, t := RgbToXyz(from), RgbToXyz(to);
    ProductApplies(Inverse(t), f, c);
    ProductApplies(Inverse(f), t, Apply(Inverse(t), Apply(f, c)));
    InverseUndoes(t, Apply(f, c));
    InverseUndoes(f, c);
  }
}
