/** Two-dimensional affine transforms over integers (karm-math/trans.h,
    `Trans2<int>`): a linear part whose rows are the images of the unit
    vectors, and an origin. A point `p` maps to
    `(p.x * xx + p.y * yx + ox, p.x * xy + p.y * yy + oy)`. */
module Trans {
  /** `Vec2<int>`; its header is not part of this model, and `+` is taken
      to add component-wise. */
  datatype Vec2 = Vec2(x: int, y: int)

  function Add(a: Vec2, b: Vec2): Vec2
  {
    Vec2(a.x + b.x, a.y + b.y)
  }

  /** `Trans2<int>`: the six elements, in the order of `_els`. */
  datatype Trans2 = Trans2(xx: int, xy: int, yx: int, yy: int, ox: int, oy: int)
  {
    /** The union's vector views of the same six elements. */
    function X(): Vec2 { Vec2(xx, xy) }
    function Y(): Vec2 { Vec2(yx, yy) }
    function O(): Vec2 { Vec2(ox, oy) }
  }

  /** The default constructor. */
  const IDENTITY: Trans2 := Trans2(1, 0, 0, 1, 0, 0)

  function Skew(x: int, y: int): Trans2
  {
    Trans2(1, x, y, 1, 0, 0)
  }

  function Scale(x: int, y: int): Trans2
  {
    Trans2(x, 0, 0, y, 0, 0)
  }

  function Translate(x: int, y: int): Trans2
  {
    Trans2(1, 0, 0, 1, x, y)
  }

  /** `applyVector`: the linear part alone. */
  function ApplyVector(t: Trans2, v: Vec2): Vec2
  {
    Vec2(v.x * t.xx + v.y * t.yx, v.x * t.xy + v.y * t.yy)
  }

  /** `applyPoint`: the linear part, then the origin added. */
  function ApplyPoint(t: Trans2, v: Vec2): Vec2
  {
    Add(ApplyVector(t, v), t.O())
  }

  /** `a.multiply(b)`: the transform applying `a` first and `b` after. */
  function Multiply(a: Trans2, b: Trans2): Trans2
  {
    Trans2(a.xx * b.xx + a.xy * b.yx,
           a.xx * b.xy + a.xy * b.yy,
           a.yx * b.xx + a.yy * b.yx,
           a.yx * b.xy + a.yy * b.yy,
           a.ox * b.xx + a.oy * b.yx + b.ox,
           a.ox * b.xy + a.oy * b.yy + b.oy)
  }

  function Skewed(t: Trans2, x: int, y: int): Trans2
  {
    Multiply(t, Skew(x, y))
  }

  function Scaled(t: Trans2, x: int, y: int): Trans2
  {
    Multiply(t, Scale(x, y))
  }

  /** `scaled(s)`, the same factor on both axes. */
  function ScaledBy(t: Trans2, s: int): Trans2
  {
    Scaled(t, s, s)
  }

  function Translated(t: Trans2, x: int, y: int): Trans2
  {
    Multiply(t, Translate(x, y))
  }

  predicate IsIdentity(t: Trans2)
  {
    t.xx == 1 && t.xy == 0 && t.yx == 0 && t.yy == 1 && t.ox == 0 && t.oy == 0
  }

  /* ---- what the transforms do to points and vectors ---------------- */

  /** A transform is determined by where it sends the origin and the
      two unit points. */
  lemma Determined(a: Trans2, b: Trans2)
    requires ApplyPoint(a, Vec2(0, 0)) == ApplyPoint(b, Vec2(0, 0))
    requires ApplyPoint(a, Vec2(1, 0)) == ApplyPoint(b, Vec2(1, 0))
    requires ApplyPoint(a, Vec2(0, 1)) == ApplyPoint(b, Vec2(0, 1))
    ensures a == b
  {
    assert a.O() == ApplyPoint(a, Vec2(0, 0)) == b.O();
    assert Add(a.X(), a.O()) == ApplyPoint(a, Vec2(1, 0));
    assert Add(b.X(), b.O()) == ApplyPoint(b, Vec2(1, 0));
    assert Add(a.Y(), a.O()) == ApplyPoint(a, Vec2(0, 1));
    assert Add(b.Y(), b.O()) == ApplyPoint(b, Vec2(0, 1));
  }

  /** `isIdentity` holds exactly for the transform that leaves every
      point where it is, and the default constructor builds it. */
  lemma IdentityFixesPoints(t: Trans2)
    ensures IsIdentity(IDENTITY)
    ensures IsIdentity(t) <==> forall p :: ApplyPoint(t, p) == p
  {
    if IsIdentity(t) {
      forall p
        ensures ApplyPoint(t, p) == p
      {
        assert ApplyVector(t, p) == p;
      }
    } else if forall p :: ApplyPoint(t, p) == p {
      FixedUnitPoints(t, ApplyPoint(t, Vec2(0, 0)), ApplyPoint(t, Vec2(1, 0)), ApplyPoint(t, Vec2(0, 1)));
    }
  }

  /** A transform that fixes the origin and the two unit points is the
      identity. */
  lemma FixedUnitPoints(t: Trans2, o: Vec2, ex: Vec2, ey: Vec2)
    requires o == ApplyPoint(t, Vec2(0, 0)) && o.x == 0 && o.y == 0
    requires ex == ApplyPoint(t, Vec2(1, 0)) && ex.x == 1 && ex.y == 0
    requires ey == ApplyPoint(t, Vec2(0, 1)) && ey.x == 0 && ey.y == 1
    ensures IsIdentity(t)
  {
    assert t.ox == 0 && t.oy == 0;
    assert t.xx == 1 && t.xy == 0;
    assert t.yx == 0 && t.yy == 1;
  }

  /** A translation moves points by its offset and leaves vectors alone;
      `applyVector` never looks at the origin. */
  lemma TranslateMovesPoints(x: int, y: int, p: Vec2, t: Trans2, o: Vec2)
    ensures ApplyPoint(Translate(x, y), p) == Add(p, Vec2(x, y))
    ensures ApplyVector(Translate(x, y), p) == p
    ensures ApplyVector(t, p) == ApplyVector(Trans2(t.xx, t.xy, t.yx, t.yy, o.x, o.y), p)
  {
  }

  /** A scale multiplies each coordinate by its factor. */
  lemma ScaleStretches(x: int, y: int, v: Vec2)
    ensures ApplyVector(Scale(x, y), v) == Vec2(v.x * x, v.y * y)
    ensures ApplyPoint(Scale(x, y), v) == Vec2(v.x * x, v.y * y)
  {
  }

  /** A skew shears each axis along the other. */
  lemma SkewShears(x: int, y: int, v: Vec2)
    ensures ApplyPoint(Skew(x, y), v) == Vec2(v.x + v.y * y, v.x * x + v.y)
  {
  }

  /** `a.multiply(b)` applies `a` first, then `b`, to vectors and to points. */
  lemma {:induction false} MultiplyComposes(a: Trans2, b: Trans2, p: Vec2)
    ensures ApplyVector(Multiply(a, b), p) == ApplyVector(b, ApplyVector(a, p))
    ensures ApplyPoint(Multiply(a, b), p) == ApplyPoint(b, ApplyPoint(a, p))
  {
    Combine(p.x, p.y, a.xx, a.yx, a.ox, a.xy, a.yy, a.oy, b.xx, b.yx, b.ox);
    Combine(p.x, p.y, a.xx, a.yx, a.ox, a.xy, a.yy, a.oy, b.xy, b.yy, b.oy);
    Combine(p.x, p.y, a.xx, a.yx, 0, a.xy, a.yy, 0, b.xx, b.yx, 0);
    Combine(p.x, p.y, a.xx, a.yx, 0, a.xy, a.yy, 0, b.xy, b.yy, 0);
  }

  /** One output coordinate of two affine maps in a row: the input point
      `(px, py)` goes to `(u, v)` under the first map, whose rows are
      `(u1, u2, uo)` and `(v1, v2, vo)`, and the second map's row is
      `(b1, b2, bo)`. */
  lemma Combine(px: int, py: int, u1: int, u2: int, uo: int, v1: int, v2: int, vo: int,
                b1: int, b2: int, bo: int)
    ensures (px * u1 + py * u2 + uo) * b1 + (px * v1 + py * v2 + vo) * b2 + bo
            == px * (u1 * b1 + v1 * b2) + py * (u2 * b1 + v2 * b2) + (uo * b1 + vo * b2 + bo)
    ensures (px * u1 + py * u2) * b1 + (px * v1 + py * v2) * b2
            == px * (u1 * b1 + v1 * b2) + py * (u2 * b1 + v2 * b2)
  {
    var u, v := px * u1 + py * u2, px * v1 + py * v2;
    calc {
      (u + uo) * b1 + (v + vo) * b2 + bo;
      u * b1 + uo * b1 + v * b2 + vo * b2 + bo;
      { Distribute3(px * u1, py * u2, 0, b1); Distribute3(px * v1, py * v2, 0, b2); }
      px * u1 * b1 + py * u2 * b1 + px * v1 * b2 + py * v2 * b2 + (uo * b1 + vo * b2 + bo);
      { Factor(px, u1 * b1, v1 * b2); Factor(py, u2 * b1, v2 * b2); }
      px * (u1 * b1 + v1 * b2) + py * (u2 * b1 + v2 * b2) + (uo * b1 + vo * b2 + bo);
    }
    Distribute3(px * u1, py * u2, 0, b1);
    Distribute3(px * v1, py * v2, 0, b2);
    Factor(px, u1 * b1, v1 * b2);
    Factor(py, u2 * b1, v2 * b2);
  }

  lemma Distribute3(u: int, v: int, w: int, k: int)
    ensures (u + v + w) * k == u * k + v * k + w * k
  {
  }

  lemma Factor(s: int, u: int, v: int)
    ensures s * (u + v) == s * u + s * v
  {
  }

  /** The identity is neutral on both sides. */
  lemma MultiplyIdentity(t: Trans2)
    ensures Multiply(IDENTITY, t) == t
    ensures Multiply(t, IDENTITY) == t
  {
  }

  /** Composition is associative. */
  lemma {:induction false} MultiplyAssociative(a: Trans2, b: Trans2, c: Trans2)
    ensures Multiply(Multiply(a, b), c) == Multiply(a, Multiply(b, c))
  {
    var l := Multiply(Multiply(a, b), c);
    var r := Multiply(a, Multiply(b, c));
    forall p | p in {Vec2(0, 0), Vec2(1, 0), Vec2(0, 1)}
      ensures ApplyPoint(l, p) == ApplyPoint(r, p)
    {
      MultiplyComposes(Multiply(a, b), c, p);
      MultiplyComposes(a, b, p);
      MultiplyComposes(a, Multiply(b, c), p);
      MultiplyComposes(b, c, ApplyPoint(a, p));
    }
    Determined(l, r);
  }

  /** The `*ed` helpers apply their transform after `t`. */
  lemma {:induction false} HelpersApplyAfter(t: Trans2, x: int, y: int, s: int, p: Vec2)
    ensures ApplyPoint(Translated(t, x, y), p) == Add(ApplyPoint(t, p), Vec2(x, y))
    ensures ApplyPoint(Scaled(t, x, y), p) == Vec2(ApplyPoint(t, p).x * x, ApplyPoint(t, p).y * y)
    ensures ScaledBy(t, s) == Scaled(t, s, s)
    ensures ApplyPoint(Skewed(t, x, y), p) == ApplyPoint(Skew(x, y), ApplyPoint(t, p))
  {
    MultiplyComposes(t, Translate(x, y), p);
    MultiplyComposes(t, Scale(x, y), p);
    MultiplyComposes(t, Skew(x, y), p);
    ScaleStretches(x, y, ApplyPoint(t, p));
  }

  /** Translations compose by adding their offsets, scales by multiplying
      their factors. */
  lemma SameKindCompose(a: int, b: int, c: int, d: int)
    ensures Multiply(Translate(a, b), Translate(c, d)) == Translate(a + c, b + d)
    ensures Multiply(Scale(a, b), Scale(c, d)) == Scale(a * c, b * d)
  {
  }

  /** Order matters: scaling by `s` then translating by `x` keeps the
      offset `x`; translating first scales the offset too. */
  lemma OrderMatters(s: int, x: int)
    requires s != 1 && x != 0
    ensures Multiply(Scale(s, s), Translate(x, 0)).ox == x
    ensures Multiply(Translate(x, 0), Scale(s, s)).ox == x * s
    ensures Multiply(Scale(s, s), Translate(x, 0)) != Multiply(Translate(x, 0), Scale(s, s))
  {
    assert x * s - x == x * (s - 1);
    assert x * (s - 1) != 0;
  }
}
