/** What the game, the player table and the wire codecs call a rotation and a vector. */
module Geometry {
  datatype Quat = Quat(w: real, x: real, y: real, z: real)

  datatype Vec3 = Vec3(x: real, y: real, z: real)
}

/** CVehicleInterface::GetQuaternion over the reals: from the basis vectors of a vehicle's
    world matrix to a quaternion. */
module Quaternion {
  import opened Geometry

  /** Right, up and at vectors of the matrix. */
  datatype Matrix = Matrix(rx: real, ry: real, rz: real, ux: real, uy: real, uz: real, ax: real, ay: real, az: real)

  datatype MatrixPtr = Null | Ptr(m: Matrix)

  /** The square root is the unique non-negative root. */
  ghost predicate IsSqrt(sqrt: real -> real) {
    forall v: real :: RootAt(sqrt, v)
  }

  ghost predicate RootAt(sqrt: real -> real, v: real) {
    v >= 0.0 ==> sqrt(v) >= 0.0 && sqrt(v) * sqrt(v) == v
  }

  function ClampToZero(v: real): real {
    if v < 0.0 then 0.0 else v
  }

  function Abs(v: real): real {
    if v < 0.0 then -v else v
  }

  function CopySign(magnitude: real, sign: real): real {
    if sign < 0.0 then -Abs(magnitude) else Abs(magnitude)
  }

  function HalfRoot(sqrt: real -> real, v: real): real {
    sqrt(ClampToZero(v)) * 0.5
  }

  function GetQuaternion(ptr: MatrixPtr, sqrt: real -> real): Quat {
    match ptr
    case Null => Quat(1.0, 0.0, 0.0, 0.0)
    case Ptr(m) =>
      var w := HalfRoot(sqrt, 1.0 + m.rx + m.uy + m.az);
      var x := HalfRoot(sqrt, 1.0 + m.rx - m.uy - m.az);
      var y := HalfRoot(sqrt, 1.0 - m.rx + m.uy - m.az);
      var z := HalfRoot(sqrt, 1.0 - m.rx - m.uy + m.az);
      Quat(w, CopySign(x, m.uz - m.ay), CopySign(y, m.ax - m.rz), CopySign(z, m.ry - m.ux))
  }

  function NormSquared(q: Quat): real {
    q.w * q.w + q.x * q.x + q.y * q.y + q.z * q.z
  }

  function Negate(q: Quat): Quat {
    Quat(-q.w, -q.x, -q.y, -q.z)
  }

  /** The rotation matrix of a unit quaternion. */
  function Rotation(q: Quat): Matrix {
    Matrix(1.0 - 2.0 * (q.y * q.y + q.z * q.z), 2.0 * (q.x * q.y + q.w * q.z), 2.0 * (q.x * q.z - q.w * q.y),
           2.0 * (q.x * q.y - q.w * q.z), 1.0 - 2.0 * (q.x * q.x + q.z * q.z), 2.0 * (q.y * q.z + q.w * q.x),
           2.0 * (q.x * q.z + q.w * q.y), 2.0 * (q.y * q.z - q.w * q.x), 1.0 - 2.0 * (q.x * q.x + q.y * q.y))
  }

  lemma PositiveProduct(a: real, b: real)
    requires a > 0.0 && b > 0.0
    ensures a * b > 0.0
  {
  }

  lemma SquareGrows(a: real, b: real)
    requires 0.0 <= a < b
    ensures a * a < b * b
  {
    PositiveProduct(b - a, b + a);
    assert (b - a) * (b + a) == b * b - a * a;
  }

  lemma EqualRoots(a: real, b: real)
    requires a >= 0.0 && b >= 0.0 && a * a == b * b
    ensures a == b
  {
    if a < b {
      SquareGrows(a, b);
    } else if b < a {
      SquareGrows(b, a);
    }
  }

  lemma RootOfSquare(sqrt: real -> real, a: real)
    requires IsSqrt(sqrt)
    ensures 4.0 * (a * a) >= 0.0 && sqrt(4.0 * (a * a)) * 0.5 == Abs(a)
  {
    var v := 4.0 * (a * a);
    assert RootAt(sqrt, v);
    assert (2.0 * Abs(a)) * (2.0 * Abs(a)) == v;
    EqualRoots(sqrt(v), 2.0 * Abs(a));
  }

  lemma SignOfProduct(a: real, b: real)
    requires a != 0.0
    ensures CopySign(Abs(b), 4.0 * (a * b)) == if a > 0.0 then b else -b
  {
    if a > 0.0 && b > 0.0 {
      assert a * b > 0.0;
    } else if a > 0.0 && b < 0.0 {
      assert a * -b > 0.0;
    } else if a < 0.0 && b > 0.0 {
      assert -a * b > 0.0;
    } else if a < 0.0 && b < 0.0 {
      assert -a * -b > 0.0;
    }
  }

  /** A vehicle without a matrix is not rotated at all. */
  lemma NullIsIdentity(sqrt: real -> real)
    ensures var q := GetQuaternion(Null, sqrt);
      q == Quat(1.0, 0.0, 0.0, 0.0) && NormSquared(q) == 1.0 &&
      Rotation(q) == Matrix(1.0, 0.0, 0.0, 0.0, 1.0, 0.0, 0.0, 0.0, 1.0)
  {
  }

  /** The radicands of GetQuaternion, in the order of w, x, y, z. */
  function Radicand(m: Matrix, i: nat): real {
    match i
    case 0 => 1.0 + m.rx + m.uy + m.az
    case 1 => 1.0 + m.rx - m.uy - m.az
    case 2 => 1.0 - m.rx + m.uy - m.az
    case _ => 1.0 - m.rx - m.uy + m.az
  }

  /** The clamp changes nothing. */
  predicate NoneClamped(m: Matrix) {
    Radicand(m, 0) >= 0.0 && Radicand(m, 1) >= 0.0 && Radicand(m, 2) >= 0.0 && Radicand(m, 3) >= 0.0
  }

  lemma WRadicand(q: Quat)
    requires NormSquared(q) == 1.0
    ensures Radicand(Rotation(q), 0) == 4.0 * (q.w * q.w)
  {
  }

  lemma XRadicand(q: Quat)
    ensures Radicand(Rotation(q), 1) == 4.0 * (q.x * q.x)
  {
  }

  lemma YRadicand(q: Quat)
    ensures Radicand(Rotation(q), 2) == 4.0 * (q.y * q.y)
  {
  }

  lemma ZRadicand(q: Quat)
    ensures Radicand(Rotation(q), 3) == 4.0 * (q.z * q.z)
  {
  }

  lemma OffDiagonal(q: Quat)
    ensures var m := Rotation(q);
      m.uz - m.ay == 4.0 * (q.w * q.x) && m.ax - m.rz == 4.0 * (q.w * q.y) && m.ry - m.ux == 4.0 * (q.w * q.z)
  {
  }

  lemma ClampedRoot(sqrt: real -> real, v: real, a: real)
    requires IsSqrt(sqrt) && v == 4.0 * (a * a)
    ensures v >= 0.0 && HalfRoot(sqrt, v) == Abs(a)
  {
    RootOfSquare(sqrt, a);
  }

  lemma OfMatrix(m: Matrix, sqrt: real -> real, q: Quat, sx: real, sy: real, sz: real)
    requires HalfRoot(sqrt, Radicand(m, 0)) == Abs(q.w)
    requires HalfRoot(sqrt, Radicand(m, 1)) == Abs(q.x)
    requires HalfRoot(sqrt, Radicand(m, 2)) == Abs(q.y)
    requires HalfRoot(sqrt, Radicand(m, 3)) == Abs(q.z)
    requires m.uz - m.ay == sx && m.ax - m.rz == sy && m.ry - m.ux == sz
    ensures GetQuaternion(Ptr(m), sqrt) ==
      Quat(Abs(q.w), CopySign(Abs(q.x), sx), CopySign(Abs(q.y), sy), CopySign(Abs(q.z), sz))
  {
  }

  /** On a rotation matrix the four radicands are four times the squared components, so the
      clamp never acts; only the signs of x, y and z depend on the off-diagonal entries. */
  lemma OfRotation(q: Quat, sqrt: real -> real)
    requires IsSqrt(sqrt) && NormSquared(q) == 1.0
    ensures NoneClamped(Rotation(q))
    ensures GetQuaternion(Ptr(Rotation(q)), sqrt) ==
      Quat(Abs(q.w), CopySign(Abs(q.x), 4.0 * (q.w * q.x)), CopySign(Abs(q.y), 4.0 * (q.w * q.y)),
           CopySign(Abs(q.z), 4.0 * (q.w * q.z)))
  {
    OffDiagonal(q);
    RotationRoots(q, sqrt);
    OfMatrix(Rotation(q), sqrt, q, 4.0 * (q.w * q.x), 4.0 * (q.w * q.y), 4.0 * (q.w * q.z));
  }

  lemma RotationRoots(q: Quat, sqrt: real -> real)
    requires IsSqrt(sqrt) && NormSquared(q) == 1.0
    ensures var m := Rotation(q);
      NoneClamped(m) && HalfRoot(sqrt, Radicand(m, 0)) == Abs(q.w) && HalfRoot(sqrt, Radicand(m, 1)) == Abs(q.x) &&
      HalfRoot(sqrt, Radicand(m, 2)) == Abs(q.y) && HalfRoot(sqrt, Radicand(m, 3)) == Abs(q.z)
  {
    WRadicand(q);
    XRadicand(q);
    YRadicand(q);
    ZRadicand(q);
    Roots(Rotation(q), q, sqrt);
  }

  lemma Roots(m: Matrix, q: Quat, sqrt: real -> real)
    requires IsSqrt(sqrt)
    requires Radicand(m, 0) == 4.0 * (q.w * q.w) && Radicand(m, 1) == 4.0 * (q.x * q.x)
    requires Radicand(m, 2) == 4.0 * (q.y * q.y) && Radicand(m, 3) == 4.0 * (q.z * q.z)
    ensures NoneClamped(m) && HalfRoot(sqrt, Radicand(m, 0)) == Abs(q.w) && HalfRoot(sqrt, Radicand(m, 1)) == Abs(q.x)
    ensures HalfRoot(sqrt, Radicand(m, 2)) == Abs(q.y) && HalfRoot(sqrt, Radicand(m, 3)) == Abs(q.z)
  {
    ClampedRoot(sqrt, Radicand(m, 0), q.w);
    ClampedRoot(sqrt, Radicand(m, 1), q.x);
    ClampedRoot(sqrt, Radicand(m, 2), q.y);
    ClampedRoot(sqrt, Radicand(m, 3), q.z);
  }

  /** Off half-turns the quaternion itself, or its negative when w is negative, comes back. */
  lemma RotationComesBack(q: Quat, sqrt: real -> real)
    requires IsSqrt(sqrt) && NormSquared(q) == 1.0 && q.w != 0.0
    ensures GetQuaternion(Ptr(Rotation(q)), sqrt) == if q.w > 0.0 then q else Negate(q)
  {
    OfRotation(q, sqrt);
    SignOfProduct(q.w, q.x);
    SignOfProduct(q.w, q.y);
    SignOfProduct(q.w, q.z);
  }

  /** The same rotation comes back (as q or its negative) exactly when it is not a half-turn,
      or is one about an axis whose components do not differ in sign. */
  lemma RotationPreservedExactly(q: Quat, sqrt: real -> real)
    requires IsSqrt(sqrt) && NormSquared(q) == 1.0
    ensures var r := GetQuaternion(Ptr(Rotation(q)), sqrt);
      (r == q || r == Negate(q)) <==>
      (q.w != 0.0 || (q.x >= 0.0 && q.y >= 0.0 && q.z >= 0.0) || (q.x <= 0.0 && q.y <= 0.0 && q.z <= 0.0))
  {
    if q.w != 0.0 {
      RotationComesBack(q, sqrt);
    } else {
      HalfTurn(q, sqrt);
    }
  }

  /** A half-turn that comes back as another one: the axis (0.6, -0.8, 0) loses its sign. */
  lemma HalfTurnLost(sqrt: real -> real)
    requires IsSqrt(sqrt)
    ensures var q := Horizontal(0.6, -0.8);
      var r := GetQuaternion(Ptr(Rotation(q)), sqrt);
      NormSquared(q) == 1.0 && r == Horizontal(0.6, 0.8) && Rotation(r) != Rotation(q)
  {
    assert 0.6 * 0.6 + -0.8 * -0.8 == 1.0;
    HorizontalLost(0.6, -0.8, sqrt);
  }

  /** The half-turn about a horizontal axis. */
  function Horizontal(x: real, y: real): Quat {
    Quat(0.0, x, y, 0.0)
  }

  lemma AboutHorizontal(x: real, y: real)
    ensures NormSquared(Horizontal(x, y)) == x * x + y * y && Rotation(Horizontal(x, y)).ux == 2.0 * (x * y)
  {
  }

  lemma HorizontalLost(x: real, y: real, sqrt: real -> real)
    requires IsSqrt(sqrt) && x * x + y * y == 1.0 && y < 0.0 < x
    ensures var q := Horizontal(x, y);
      var r := GetQuaternion(Ptr(Rotation(q)), sqrt);
      NormSquared(q) == 1.0 && r == Horizontal(x, -y) && Rotation(r) != Rotation(q)
  {
    AboutHorizontal(x, y);
    AboutHorizontal(x, -y);
    HalfTurn(Horizontal(x, y), sqrt);
    PositiveProduct(x, -y);
  }

  /** Of a half-turn only the magnitudes of the axis come back. */
  lemma HalfTurn(q: Quat, sqrt: real -> real)
    requires IsSqrt(sqrt) && NormSquared(q) == 1.0 && q.w == 0.0
    ensures GetQuaternion(Ptr(Rotation(q)), sqrt) == Quat(0.0, Abs(q.x), Abs(q.y), Abs(q.z))
  {
    OfRotation(q, sqrt);
    assert q.w * q.x == 0.0 && q.w * q.y == 0.0 && q.w * q.z == 0.0;
  }

  /** For any matrix at all the result has norm one exactly when no radicand is negative,
      that is, when the clamp changes nothing. */
  lemma NormalisedExactly(m: Matrix, sqrt: real -> real)
    requires IsSqrt(sqrt)
    ensures NormSquared(GetQuaternion(Ptr(m), sqrt)) == 1.0 <==> NoneClamped(m)
  {
    ComponentSquares(m, sqrt);
    assert Radicand(m, 0) + Radicand(m, 1) + Radicand(m, 2) + Radicand(m, 3) == 4.0;
  }

  ghost predicate SameUpToSign(c: real, h: real) {
    c == h || c == Abs(h) || c == -Abs(h)
  }

  ghost predicate ComponentsOf(m: Matrix, sqrt: real -> real, q: Quat) {
    SameUpToSign(q.w, HalfRoot(sqrt, Radicand(m, 0))) && SameUpToSign(q.x, HalfRoot(sqrt, Radicand(m, 1))) &&
    SameUpToSign(q.y, HalfRoot(sqrt, Radicand(m, 2))) && SameUpToSign(q.z, HalfRoot(sqrt, Radicand(m, 3)))
  }

  lemma UpToSign(m: Matrix, sqrt: real -> real)
    ensures ComponentsOf(m, sqrt, GetQuaternion(Ptr(m), sqrt))
  {
  }

  ghost predicate SquaresTo(c: real, v: real) {
    4.0 * (c * c) == ClampToZero(v)
  }

  lemma HalfRootSquared(sqrt: real -> real, v: real, c: real)
    requires IsSqrt(sqrt) && SameUpToSign(c, HalfRoot(sqrt, v))
    ensures SquaresTo(c, v)
  {
    var r := sqrt(ClampToZero(v));
    assert RootAt(sqrt, ClampToZero(v));
    assert c * c == (r * 0.5) * (r * 0.5) == r * r * 0.25;
  }

  /** The half-turn about the vertical axis, its last diagonal entry e short of 1. */
  function ShortHalfTurn(e: real): Matrix {
    Matrix(-1.0, 0.0, 0.0, 0.0, -1.0, 0.0, 0.0, 0.0, 1.0 - e)
  }

  /** Rounding is enough for the clamp to act: a half-turn with an entry just below 1 gives a
      quaternion that is too long. */
  lemma RoundedHalfTurn(e: real, sqrt: real -> real)
    requires IsSqrt(sqrt) && 0.0 < e <= 1.0
    ensures Radicand(ShortHalfTurn(e), 0) == -e
    ensures NormSquared(GetQuaternion(Ptr(ShortHalfTurn(e)), sqrt)) == 1.0 + e / 4.0
  {
    ComponentSquares(ShortHalfTurn(e), sqrt);
  }

  /** The diagonal of m is within e of that of a rotation. */
  predicate Near(m: Matrix, q: Quat, e: real) {
    var r := Rotation(q);
    Abs(m.rx - r.rx) <= e && Abs(m.uy - r.uy) <= e && Abs(m.az - r.az) <= e
  }

  /** What the game hands over is a rotation up to rounding; the result is then never too
      short, and too long by at most three times the error. */
  lemma NearlyNormalised(m: Matrix, q: Quat, e: real, sqrt: real -> real)
    requires IsSqrt(sqrt) && NormSquared(q) == 1.0 && Near(m, q, e)
    ensures 1.0 <= NormSquared(GetQuaternion(Ptr(m), sqrt)) <= 1.0 + 3.0 * e
  {
    WRadicand(q);
    XRadicand(q);
    YRadicand(q);
    ZRadicand(q);
    RotationRoots(q, sqrt);
    ComponentSquares(m, sqrt);
    NearRadicands(m, Rotation(q), e);
  }

  lemma NearRadicands(m: Matrix, r: Matrix, e: real)
    requires NoneClamped(r) && Abs(m.rx - r.rx) <= e && Abs(m.uy - r.uy) <= e && Abs(m.az - r.az) <= e
    ensures 4.0 <= ClampedSum(m) <= 4.0 + 12.0 * e
  {
  }

  function ClampedSum(m: Matrix): real {
    ClampToZero(Radicand(m, 0)) + ClampToZero(Radicand(m, 1)) + ClampToZero(Radicand(m, 2)) + ClampToZero(Radicand(m, 3))
  }

  lemma ComponentSquares(m: Matrix, sqrt: real -> real)
    requires IsSqrt(sqrt)
    ensures 4.0 * NormSquared(GetQuaternion(Ptr(m), sqrt)) == ClampedSum(m)
  {
    UpToSign(m, sqrt);
    SquaresOf(m, sqrt, GetQuaternion(Ptr(m), sqrt));
  }

  lemma SquaresOf(m: Matrix, sqrt: real -> real, q: Quat)
    requires IsSqrt(sqrt) && ComponentsOf(m, sqrt, q)
    ensures 4.0 * NormSquared(q) == ClampedSum(m)
  {
    assert SquaresTo(q.w, Radicand(m, 0)) by { HalfRootSquared(sqrt, Radicand(m, 0), q.w); }
    assert SquaresTo(q.x, Radicand(m, 1)) by { HalfRootSquared(sqrt, Radicand(m, 1), q.x); }
    assert SquaresTo(q.y, Radicand(m, 2)) by { HalfRootSquared(sqrt, Radicand(m, 2), q.y); }
    assert SquaresTo(q.z, Radicand(m, 3)) by { HalfRootSquared(sqrt, Radicand(m, 3), q.z); }
    SumOfClamped(m, q);
  }

  lemma SumOfClamped(m: Matrix, q: Quat)
    requires SquaresTo(q.w, Radicand(m, 0)) && SquaresTo(q.x, Radicand(m, 1))
    requires SquaresTo(q.y, Radicand(m, 2)) && SquaresTo(q.z, Radicand(m, 3))
    ensures 4.0 * NormSquared(q) == ClampedSum(m)
  {
  }
}
