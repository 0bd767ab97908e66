/**
  Node transforms. The source uses 4x4 float matrices; this model uses the
  exact group of rigid motions made of a quarter-turn rotation about the
  vertical axis followed by an integer translation. It has what the scene
  graph relies on (composition, inverse, identity, a position read from the
  translation part) and, unlike bare translations, admits transforms that
  differ while their positions agree.
 */
module Transform {

  datatype Vec3 = Vec3(x: int, y: int, z: int)

  const Origin := Vec3(0, 0, 0)

  function Add(a: Vec3, b: Vec3): Vec3 { Vec3(a.x + b.x, a.y + b.y, a.z + b.z) }
  function Neg(a: Vec3): Vec3 { Vec3(-a.x, -a.y, -a.z) }

  /** A number of quarter turns. */
  type Turn = q: int | 0 <= q < 4

  /** Quarter turns add modulo a full turn. */
  function TurnAdd(p: Turn, q: Turn): Turn {
    if p + q >= 4 then p + q - 4 else p + q
  }

  /** Rotation by `q` quarter turns about the y axis. */
  function Rotate(q: Turn, v: Vec3): Vec3 {
    if q == 0 then v
    else if q == 1 then Vec3(v.z, v.y, -v.x)
    else if q == 2 then Vec3(-v.x, v.y, -v.z)
    else Vec3(-v.z, v.y, v.x)
  }

  /** Rotations compose by adding turns and are linear. */
  lemma RotateRotate(a: Turn, b: Turn, v: Vec3)
    ensures Rotate(a, Rotate(b, v)) == Rotate(TurnAdd(a, b), v)
  {
  }

  lemma RotateAdd(q: Turn, u: Vec3, v: Vec3)
    ensures Rotate(q, Add(u, v)) == Add(Rotate(q, u), Rotate(q, v))
    ensures Rotate(q, Neg(u)) == Neg(Rotate(q, u))
  {
  }

  /** A transform: rotate by `turn`, then translate by `offset`. */
  datatype Xf = Xf(turn: Turn, offset: Vec3)

  const Identity := Xf(0, Origin)

  /** The point a transform maps `v` to. */
  function Apply(t: Xf, v: Vec3): Vec3 {
    Add(Rotate(t.turn, v), t.offset)
  }

  /** The position a transform places its node at (the matrix's translation row). */
  function Position(t: Xf): Vec3 {
    t.offset
  }

  /** `a` after `b`: the matrix product parent × local. */
  function Compose(a: Xf, b: Xf): (c: Xf)
    ensures Position(c) == Apply(a, Position(b))
  {
    Xf(TurnAdd(a.turn, b.turn), Add(Rotate(a.turn, b.offset), a.offset))
  }

  function Inverse(a: Xf): Xf {
    var q: Turn := if a.turn == 0 then 0 else 4 - a.turn;
    Xf(q, Neg(Rotate(q, a.offset)))
  }

  /** Composition is application in sequence. */
  lemma {:induction false} ComposeApply(a: Xf, b: Xf, v: Vec3)
    ensures Apply(Compose(a, b), v) == Apply(a, Apply(b, v))
  {
    RotateRotate(a.turn, b.turn, v);
    RotateAdd(a.turn, Rotate(b.turn, v), b.offset);
  }

  lemma {:induction false} ComposeAssoc(a: Xf, b: Xf, c: Xf)
    ensures Compose(a, Compose(b, c)) == Compose(Compose(a, b), c)
  {
    var l := Compose(a, Compose(b, c));
    var r := Compose(Compose(a, b), c);
    assert l.turn == r.turn by {
      TurnAssoc(a.turn, b.turn, c.turn);
    }
    assert l.offset == r.offset by {
      ComposeApply(a, b, c.offset);
      assert Position(l) == Apply(a, Apply(b, Position(c)));
      assert Position(r) == Apply(Compose(a, b), Position(c));
    }
  }

  lemma TurnAssoc(a: Turn, b: Turn, c: Turn)
    ensures TurnAdd(a, TurnAdd(b, c)) == TurnAdd(TurnAdd(a, b), c)
  {
  }

  lemma RotateOrigin(q: Turn)
    ensures Rotate(q, Origin) == Origin
  {
  }

  lemma ComposeIdentity(a: Xf)
    ensures Compose(Identity, a) == a && Compose(a, Identity) == a
  {
    assert TurnAdd(0, a.turn) == a.turn && TurnAdd(a.turn, 0) == a.turn;
    assert Rotate(0, a.offset) == a.offset;
    assert Compose(Identity, a) == Xf(a.turn, Add(a.offset, Origin));
    RotateOrigin(a.turn);
    assert Compose(a, Identity) == Xf(a.turn, Add(Origin, a.offset));
  }

  /** `Inverse` is a two-sided inverse. */
  lemma {:induction false} InverseCancels(a: Xf)
    ensures Compose(a, Inverse(a)) == Identity
    ensures Compose(Inverse(a), a) == Identity
  {
    var q: Turn := if a.turn == 0 then 0 else 4 - a.turn;
    var o := a.offset;
    if a.turn == 0 {
      assert Compose(a, Inverse(a)) == Xf(0, Add(Neg(o), o));
    } else if a.turn == 1 {
      assert Rotate(q, o) == Vec3(-o.z, o.y, o.x);
      assert Compose(a, Inverse(a)) == Xf(0, Add(Rotate(1, Vec3(o.z, -o.y, -o.x)), o));
    } else if a.turn == 2 {
      assert Rotate(q, o) == Vec3(-o.x, o.y, -o.z);
    } else {
      assert Rotate(q, o) == Vec3(o.z, o.y, -o.x);
      assert Compose(a, Inverse(a)) == Xf(0, Add(Rotate(3, Vec3(-o.z, -o.y, o.x)), o));
    }
  }

  /** The local transform the node constructor and `setGlobalTransform`
      compute, parent⁻¹ × p, composes back to p under the parent. */
  lemma {:induction false} RelativeComposesBack(parent: Xf, p: Xf)
    ensures Compose(parent, Compose(Inverse(parent), p)) == p
  {
    ComposeAssoc(parent, Inverse(parent), p);
    InverseCancels(parent);
    ComposeIdentity(p);
  }
}
