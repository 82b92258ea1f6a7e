/** The structural types that ports carry, and the relation that decides whether
    two ports may be bound (core/hin_vm.py, class MELLType). */
module MellTypes {
  datatype Option<+T> = None | Some(value: T)

  datatype TypeKind = I | Tensor | Implication | Bang

  /** Both components are optional: a missing one acts as a free type variable. */
  datatype MellType = MellType(kind: TypeKind, left: Option<MellType>, right: Option<MellType>, wildcard: bool)

  const ANY: MellType := MellType(I, None, None, true)
  const UNIT: MellType := MellType(I, None, None, false)

  function ImplicationOf(arg: MellType, ret: MellType): MellType {
    MellType(Implication, Some(arg), Some(ret), false)
  }

  function BangOf(inner: MellType): MellType {
    MellType(Bang, Some(inner), None, false)
  }

  /** Structural unification with dereliction: a Bang meets the type it promotes. */
  predicate Unifiable(a: MellType, b: MellType)
    decreases a, b
  {
    if a.wildcard || b.wildcard then true
    else if a.kind == b.kind then
      match a.kind
      case I => true
      case Bang => OptUnifiable(a.left, b.left)
      case _ => OptUnifiable(a.left, b.left) && OptUnifiable(a.right, b.right)
    else if a.kind == Bang then
      (a.left.Some? ==> Unifiable(a.left.value, b))
    else if b.kind == Bang then
      (b.left.Some? ==> Unifiable(a, b.left.value))
    else false
  }

  predicate OptUnifiable(a: Option<MellType>, b: Option<MellType>)
    decreases a, b
  {
    a.None? || b.None? || Unifiable(a.value, b.value)
  }

  /** No wildcard and no missing part anywhere that unification looks at. */
  predicate Complete(t: MellType) {
    && !t.wildcard
    && match t.kind
       case I => true
       case Bang => t.left.Some? && Complete(t.left.value)
       case _ => t.left.Some? && t.right.Some? && Complete(t.left.value) && Complete(t.right.value)
  }

  /** A type with every Bang erased. */
  datatype Shape = UnitShape | TensorShape(left: Shape, right: Shape) | ArrowShape(left: Shape, right: Shape)

  function EraseBangs(t: MellType): Shape
    requires Complete(t)
  {
    match t.kind
    case I => UnitShape
    case Bang => EraseBangs(t.left.value)
    case Tensor => TensorShape(EraseBangs(t.left.value), EraseBangs(t.right.value))
    case Implication => ArrowShape(EraseBangs(t.left.value), EraseBangs(t.right.value))
  }

  lemma {:induction false} UnifiableIsErasedEquality(a: MellType, b: MellType)
    requires Complete(a) && Complete(b)
    ensures Unifiable(a, b) <==> EraseBangs(a) == EraseBangs(b)
    decreases a, b
  {
    if a.kind == b.kind {
      match a.kind
      case I =>
      case Bang => UnifiableIsErasedEquality(a.left.value, b.left.value);
      case _ =>
        UnifiableIsErasedEquality(a.left.value, b.left.value);
        UnifiableIsErasedEquality(a.right.value, b.right.value);
    } else if a.kind == Bang {
      UnifiableIsErasedEquality(a.left.value, b);
    } else if b.kind == Bang {
      UnifiableIsErasedEquality(a, b.left.value);
    }
  }

  lemma {:induction false} UnifiableSymmetric(a: MellType, b: MellType)
    ensures Unifiable(a, b) == Unifiable(b, a)
    decreases a, b
  {
    if a.wildcard || b.wildcard {
    } else if a.kind == b.kind {
      if a.left.Some? && b.left.Some? { UnifiableSymmetric(a.left.value, b.left.value); }
      if a.right.Some? && b.right.Some? { UnifiableSymmetric(a.right.value, b.right.value); }
    } else if a.kind == Bang {
      if a.left.Some? { UnifiableSymmetric(a.left.value, b); }
    } else if b.kind == Bang {
      if b.left.Some? { UnifiableSymmetric(a, b.left.value); }
    }
  }

  lemma {:induction false} UnifiableReflexive(a: MellType)
    ensures Unifiable(a, a)
  {
    if a.left.Some? { UnifiableReflexive(a.left.value); }
    if a.right.Some? { UnifiableReflexive(a.right.value); }
  }

  /** Unification composes through a complete middle type; the outer two may
      contain wildcards and missing parts. */
  lemma {:induction false} UnifiableThrough(a: MellType, m: MellType, b: MellType)
    requires Complete(m)
    requires Unifiable(a, m) && Unifiable(m, b)
    ensures Unifiable(a, b)
    decreases a, m, b
  {
    if a.wildcard || b.wildcard {
    } else if m.kind == Bang {
      if a.kind == Bang {
        if a.left.Some? {
          if b.kind == Bang {
            if b.left.Some? { UnifiableThrough(a.left.value, m.left.value, b.left.value); }
          } else {
            UnifiableThrough(a.left.value, m.left.value, b);
          }
        }
      } else if b.kind == Bang {
        if b.left.Some? { UnifiableThrough(a, m.left.value, b.left.value); }
      } else {
        UnifiableThrough(a, m.left.value, b);
      }
    } else if a.kind == Bang {
      if a.left.Some? {
        if b.kind == Bang {
          if b.left.Some? { UnifiableThrough(a.left.value, m, b.left.value); }
        } else {
          UnifiableThrough(a.left.value, m, b);
        }
      }
    } else if b.kind == Bang {
      if b.left.Some? { UnifiableThrough(a, m, b.left.value); }
    } else {
      if a.left.Some? && m.left.Some? && b.left.Some? && m.kind != I { UnifiableThrough(a.left.value, m.left.value, b.left.value); }
      if a.right.Some? && m.right.Some? && b.right.Some? && m.kind != I { UnifiableThrough(a.right.value, m.right.value, b.right.value); }
    }
  }

  /** Unification composes through m, whatever the outer two types are. */
  ghost predicate Composes(m: MellType) {
    forall a, b :: Unifiable(a, m) && Unifiable(m, b) ==> Unifiable(a, b)
  }

  const PAIR: MellType := MellType(Tensor, Some(UNIT), Some(UNIT), false)

  /** An incomplete type has two types on either side of it that do not unify: the gap
      is at its first wildcard or missing part, in the same place in both. */
  lemma {:induction false} Gap(m: MellType) returns (a: MellType, b: MellType)
    requires !Complete(m)
    ensures Unifiable(a, m) && Unifiable(m, b) && !Unifiable(a, b)
  {
    a, b := UNIT, PAIR;
    if m.wildcard {
    } else if m.kind == Bang {
      if m.left.Some? {
        var x, y := Gap(m.left.value);
        a, b := BangOf(x), BangOf(y);
      }
    } else if m.left.None? {
      a, b := MellType(m.kind, Some(UNIT), None, false), MellType(m.kind, Some(PAIR), None, false);
    } else if !Complete(m.left.value) {
      var x, y := Gap(m.left.value);
      a, b := MellType(m.kind, Some(x), None, false), MellType(m.kind, Some(y), None, false);
    } else if m.right.None? {
      a, b := MellType(m.kind, None, Some(UNIT), false), MellType(m.kind, None, Some(PAIR), false);
    } else {
      var x, y := Gap(m.right.value);
      a, b := MellType(m.kind, None, Some(x), false), MellType(m.kind, None, Some(y), false);
    }
  }

  /** Unification composes through exactly the complete types. */
  lemma ComposesExactly(m: MellType)
    ensures Composes(m) <==> Complete(m)
  {
    if Complete(m) {
      forall a, b | Unifiable(a, m) && Unifiable(m, b) ensures Unifiable(a, b) { UnifiableThrough(a, m, b); }
    } else {
      var a, b := Gap(m);
    }
  }

  /** So the relation is not transitive: a wildcard in the middle bridges two types that
      do not unify. */
  lemma UnifiableIsNotTransitive()
    ensures exists a, m, b :: Unifiable(a, m) && Unifiable(m, b) && !Unifiable(a, b)
  {
    assert Unifiable(UNIT, ANY) && Unifiable(ANY, PAIR) && !Unifiable(UNIT, PAIR);
  }
}
