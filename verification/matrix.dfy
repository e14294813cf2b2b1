/** 4x4 matrices as the bridge stores them: sixteen floats in column-major
    order (src/Android/GLESBridge.c, `Mat4`), with the product, the identity,
    the translation and scaling operands, and the 3x3 normal matrix. Floats
    are modelled as reals, so the algebraic facts below hold exactly. */
module Matrix {

  type Mat4 = m: seq<real> | |m| == 16 witness seq(16, _ => 0.0)
  type Mat3 = m: seq<real> | |m| == 9 witness seq(9, _ => 0.0)

  /** The entry in row `row` and column `col`: column-major storage puts it at
      index `col * 4 + row`. */
  function At(m: Mat4, row: nat, col: nat): real
    requires row < 4 && col < 4
  {
    m[col * 4 + row]
  }

  /** The entry in row `row` and column `col` of a column-major 3x3 matrix. */
  function At3(m: Mat3, row: nat, col: nat): real
    requires row < 3 && col < 3
  {
    m[col * 3 + row]
  }

  /** Two matrices with the same entries are equal. */
  lemma Extensionality(m: Mat4, n: Mat4)
    requires forall row, col | 0 <= row < 4 && 0 <= col < 4 :: At(m, row, col) == At(n, row, col)
    ensures m == n
  {
    forall i | 0 <= i < 16
      ensures m[i] == n[i]
    {
      var row, col := i % 4, i / 4;
      assert col * 4 + row == i;
      assert At(m, row, col) == At(n, row, col);
    }
  }

  function Identity(): (r: Mat4)
    ensures forall row, col | 0 <= row < 4 && 0 <= col < 4 :: At(r, row, col) == if row == col then 1.0 else 0.0
  {
    [1.0, 0.0, 0.0, 0.0,
     0.0, 1.0, 0.0, 0.0,
     0.0, 0.0, 1.0, 0.0,
     0.0, 0.0, 0.0, 1.0]
  }

  /** Entry `(row, col)` of the product `a * b`: the dot product of row `row`
      of `a` with column `col` of `b`. */
  function Entry(a: Mat4, b: Mat4, row: nat, col: nat): real
    requires row < 4 && col < 4
  {
    At(a, row, 0) * At(b, 0, col) + At(a, row, 1) * At(b, 1, col)
    + At(a, row, 2) * At(b, 2, col) + At(a, row, 3) * At(b, 3, col)
  }

  /** The first `n` terms of `Entry(a, b, row, col)`, summed in the order the
      bridge sums them. */
  function PartialDot(a: Mat4, b: Mat4, row: nat, col: nat, n: nat): real
    requires row < 4 && col < 4 && n <= 4
  {
    if n == 0 then 0.0 else PartialDot(a, b, row, col, n - 1) + At(a, row, n - 1) * At(b, n - 1, col)
  }

  /** The matrix product `a * b` (`Mat4_Multiply`), stored column-major. */
  function Mul(a: Mat4, b: Mat4): Mat4 {
    [Entry(a, b, 0, 0), Entry(a, b, 1, 0), Entry(a, b, 2, 0), Entry(a, b, 3, 0),
     Entry(a, b, 0, 1), Entry(a, b, 1, 1), Entry(a, b, 2, 1), Entry(a, b, 3, 1),
     Entry(a, b, 0, 2), Entry(a, b, 1, 2), Entry(a, b, 2, 2), Entry(a, b, 3, 2),
     Entry(a, b, 0, 3), Entry(a, b, 1, 3), Entry(a, b, 2, 3), Entry(a, b, 3, 3)]
  }

  /** Entry `(row, col)` of the stored product is the dot product of row `row`
      of `a` with column `col` of `b`: the product is right-multiplication in
      the usual row/column sense, despite the column-major storage. */
  lemma MulEntries(a: Mat4, b: Mat4)
    ensures forall row, col | 0 <= row < 4 && 0 <= col < 4 :: At(Mul(a, b), row, col) == Entry(a, b, row, col)
  {
  }

  /** `Mat4_Multiply` as the bridge computes it: three nested loops writing
      into a temporary, so that the result may alias an operand. */
  method Multiply(a: Mat4, b: Mat4) returns (out: Mat4)
    ensures out == Mul(a, b)
  {
    var tmp: seq<real> := seq(16, _ => 0.0);
    for row := 0 to 4
      invariant |tmp| == 16
      invariant forall r, c | 0 <= r < row && 0 <= c < 4 :: tmp[c * 4 + r] == Entry(a, b, r, c)
    {
      for col := 0 to 4
        invariant |tmp| == 16
        invariant forall r, c | 0 <= r < row && 0 <= c < 4 :: tmp[c * 4 + r] == Entry(a, b, r, c)
        invariant forall c | 0 <= c < col :: tmp[c * 4 + row] == Entry(a, b, row, c)
      {
        var sum := 0.0;
        for k := 0 to 4
          invariant sum == PartialDot(a, b, row, col, k)
        {
          sum := sum + a[k * 4 + row] * b[col * 4 + k];
        }
        assert PartialDot(a, b, row, col, 2) == At(a, row, 0) * At(b, 0, col) + At(a, row, 1) * At(b, 1, col);
        tmp := tmp[col * 4 + row := sum];
      }
    }
    out := tmp;
    MulEntries(a, b);
    Extensionality(out, Mul(a, b));
  }

  /** The identity is a two-sided unit of the product. */
  lemma MulIdentity(a: Mat4)
    ensures Mul(Identity(), a) == a
    ensures Mul(a, Identity()) == a
  {
    var i := Identity();
    MulEntries(i, a);
    MulEntries(a, i);
    forall row, col | 0 <= row < 4 && 0 <= col < 4
      ensures At(Mul(i, a), row, col) == At(a, row, col)
      ensures At(Mul(a, i), row, col) == At(a, row, col)
    {
      if row == 0 {} else if row == 1 {} else if row == 2 {} else {}
      if col == 0 {} else if col == 1 {} else if col == 2 {} else {}
    }
    Extensionality(Mul(i, a), a);
    Extensionality(Mul(a, i), a);
  }

  /** The operand `bridge_Translatef` multiplies by: the identity with the
      translation in entries 12..14, i.e. in column 3. */
  function Translation(x: real, y: real, z: real): (r: Mat4)
    ensures At(r, 0, 3) == x && At(r, 1, 3) == y && At(r, 2, 3) == z
    ensures forall row, col | 0 <= row < 4 && 0 <= col < 4 && (col < 3 || row == 3) ::
      At(r, row, col) == At(Identity(), row, col)
  {
    Identity()[12 := x][13 := y][14 := z]
  }

  /** The operand `bridge_Scalef` multiplies by: the identity with the scale
      factors on the first three diagonal entries. */
  function Scaling(x: real, y: real, z: real): (r: Mat4)
    ensures At(r, 0, 0) == x && At(r, 1, 1) == y && At(r, 2, 2) == z
    ensures forall row, col | 0 <= row < 4 && 0 <= col < 4 && (row != col || row == 3) ::
      At(r, row, col) == At(Identity(), row, col)
  {
    Identity()[0 := x][5 := y][10 := z]
  }

  /** Right-multiplying by a translation keeps the first three columns of a
      row and adds the translated combination of them to its fourth entry. */
  lemma MulTranslation(a: Mat4, x: real, y: real, z: real, row: nat)
    requires row < 4
    ensures At(Mul(a, Translation(x, y, z)), row, 0) == At(a, row, 0)
    ensures At(Mul(a, Translation(x, y, z)), row, 1) == At(a, row, 1)
    ensures At(Mul(a, Translation(x, y, z)), row, 2) == At(a, row, 2)
    ensures At(Mul(a, Translation(x, y, z)), row, 3)
         == At(a, row, 0) * x + At(a, row, 1) * y + At(a, row, 2) * z + At(a, row, 3)
  {
    MulEntries(a, Translation(x, y, z));
  }

  /** The arithmetic step behind composing two translations. */
  lemma Distribute(a0: real, a1: real, a2: real, a3: real, x1: real, y1: real, z1: real, x2: real, y2: real, z2: real)
    ensures a0 * x2 + a1 * y2 + a2 * z2 + (a0 * x1 + a1 * y1 + a2 * z1 + a3)
         == a0 * (x1 + x2) + a1 * (y1 + y2) + a2 * (z1 + z2) + a3
  {
  }

  /** `t` has the entries of `a` right-multiplied by a translation. */
  ghost predicate TranslatedBy(t: Mat4, a: Mat4, x: real, y: real, z: real) {
    forall row | 0 <= row < 4 ::
      && At(t, row, 0) == At(a, row, 0) && At(t, row, 1) == At(a, row, 1) && At(t, row, 2) == At(a, row, 2)
      && At(t, row, 3) == At(a, row, 0) * x + At(a, row, 1) * y + At(a, row, 2) * z + At(a, row, 3)
  }

  /** `MulTranslation` for every row at once. */
  lemma MulTranslationAll(a: Mat4, x: real, y: real, z: real)
    ensures TranslatedBy(Mul(a, Translation(x, y, z)), a, x, y, z)
  {
    forall row | 0 <= row < 4
      ensures At(Mul(a, Translation(x, y, z)), row, 0) == At(a, row, 0)
      ensures At(Mul(a, Translation(x, y, z)), row, 1) == At(a, row, 1)
      ensures At(Mul(a, Translation(x, y, z)), row, 2) == At(a, row, 2)
      ensures At(Mul(a, Translation(x, y, z)), row, 3)
           == At(a, row, 0) * x + At(a, row, 1) * y + At(a, row, 2) * z + At(a, row, 3)
    {
      MulTranslation(a, x, y, z, row);
    }
  }

  /** Matrices translated from translated matrices: the offsets add up. */
  lemma TranslatedTwice(a: Mat4, t1: Mat4, t2: Mat4, t: Mat4,
                        x1: real, y1: real, z1: real, x2: real, y2: real, z2: real)
    requires TranslatedBy(t1, a, x1, y1, z1) && TranslatedBy(t2, t1, x2, y2, z2)
    requires TranslatedBy(t, a, x1 + x2, y1 + y2, z1 + z2)
    ensures t2 == t
  {
    forall row, col | 0 <= row < 4 && 0 <= col < 4
      ensures At(t2, row, col) == At(t, row, col)
    {
      var a0, a1, a2, a3 := At(a, row, 0), At(a, row, 1), At(a, row, 2), At(a, row, 3);
      Distribute(a0, a1, a2, a3, x1, y1, z1, x2, y2, z2);
      if col == 0 {} else if col == 1 {} else if col == 2 {} else {}
    }
    Extensionality(t2, t);
  }

  /** Two translations compose into one by adding their offsets. */
  lemma TranslationsCompose(a: Mat4, x1: real, y1: real, z1: real, x2: real, y2: real, z2: real)
    ensures Mul(Mul(a, Translation(x1, y1, z1)), Translation(x2, y2, z2))
         == Mul(a, Translation(x1 + x2, y1 + y2, z1 + z2))
  {
    var t1 := Mul(a, Translation(x1, y1, z1));
    MulTranslationAll(a, x1, y1, z1);
    MulTranslationAll(t1, x2, y2, z2);
    MulTranslationAll(a, x1 + x2, y1 + y2, z1 + z2);
    TranslatedTwice(a, t1, Mul(t1, Translation(x2, y2, z2)), Mul(a, Translation(x1 + x2, y1 + y2, z1 + z2)),
                    x1, y1, z1, x2, y2, z2);
  }

  /** Translating by an offset and then by its negation restores the matrix. */
  lemma TranslationRestores(a: Mat4, x: real, y: real, z: real)
    ensures Mul(Mul(a, Translation(x, y, z)), Translation(-x, -y, -z)) == a
  {
    TranslationsCompose(a, x, y, z, -x, -y, -z);
    assert Translation(x + -x, y + -y, z + -z) == Identity();
    MulIdentity(a);
  }

  /** Right-multiplying by a scaling scales the first three columns. */
  lemma MulScaling(a: Mat4, x: real, y: real, z: real)
    ensures forall row | 0 <= row < 4 ::
      && At(Mul(a, Scaling(x, y, z)), row, 0) == At(a, row, 0) * x
      && At(Mul(a, Scaling(x, y, z)), row, 1) == At(a, row, 1) * y
      && At(Mul(a, Scaling(x, y, z)), row, 2) == At(a, row, 2) * z
      && At(Mul(a, Scaling(x, y, z)), row, 3) == At(a, row, 3)
  {
    var t := Scaling(x, y, z);
    MulEntries(a, t);
    forall row, col | 0 <= row < 4 && 0 <= col < 4
      ensures At(Mul(a, t), row, col) == if col == 0 then At(a, row, 0) * x
                                         else if col == 1 then At(a, row, 1) * y
                                         else if col == 2 then At(a, row, 2) * z
                                         else At(a, row, 3)
    {
      if col == 0 {} else if col == 1 {} else if col == 2 {} else {}
    }
  }

  /** Scaling by non-zero factors and then by their reciprocals restores the
      matrix. */
  lemma {:induction false} ScalingRestores(a: Mat4, x: real, y: real, z: real)
    requires x != 0.0 && y != 0.0 && z != 0.0
    ensures Mul(Mul(a, Scaling(x, y, z)), Scaling(1.0 / x, 1.0 / y, 1.0 / z)) == a
  {
    var s := Mul(a, Scaling(x, y, z));
    var r := Mul(s, Scaling(1.0 / x, 1.0 / y, 1.0 / z));
    MulScaling(a, x, y, z);
    MulScaling(s, 1.0 / x, 1.0 / y, 1.0 / z);
    forall row, col | 0 <= row < 4 && 0 <= col < 4
      ensures At(r, row, col) == At(a, row, col)
    {
      if col == 0 {
        assert At(a, row, 0) * x * (1.0 / x) == At(a, row, 0);
      } else if col == 1 {
        assert At(a, row, 1) * y * (1.0 / y) == At(a, row, 1);
      } else if col == 2 {
        assert At(a, row, 2) * z * (1.0 / z) == At(a, row, 2);
      }
    }
    Extensionality(r, a);
  }

  /** The normal matrix the bridge derives from the model-view matrix
      (`Mat4_NormalMatrix`): its upper-left 3x3 block, which is correct only
      for uniform scale. */
  function NormalMatrix(mv: Mat4): (r: Mat3)
    ensures forall row, col | 0 <= row < 3 && 0 <= col < 3 :: At3(r, row, col) == At(mv, row, col)
  {
    [mv[0], mv[1], mv[2],
     mv[4], mv[5], mv[6],
     mv[8], mv[9], mv[10]]
  }

  /** A translation does not change the normal matrix: the derived normal
      matrix ignores the translation column. */
  lemma NormalMatrixIgnoresTranslation(a: Mat4, x: real, y: real, z: real)
    ensures NormalMatrix(Mul(a, Translation(x, y, z))) == NormalMatrix(a)
  {
    var l, r := NormalMatrix(Mul(a, Translation(x, y, z))), NormalMatrix(a);
    forall i | 0 <= i < 9
      ensures l[i] == r[i]
    {
      var row, col := i % 3, i / 3;
      assert col * 3 + row == i;
      MulTranslation(a, x, y, z, row);
      assert At3(l, row, col) == At3(r, row, col);
    }
  }
}
