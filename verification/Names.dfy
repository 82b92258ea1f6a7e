/** Generated node names: numbered adaptors and prefixed donor ids (evolve.py, BoundaryAwareMutator). */
module Names {
  type Name = string

  const DONOR: string := "donor::"
  const ADAPT: string := "adapt_"

  predicate Adapted(v: Name) {
    ADAPT <= v
  }

  // ----- decimal numbers -----

  function Digit(d: nat): char
    requires d < 10
  {
    "0123456789"[d]
  }

  function Decimal(n: nat): string {
    if n < 10 then [Digit(n)] else Decimal(n / 10) + [Digit(n % 10)]
  }

  const PRINCIPAL := "p"

  /** Ports are named by their place. */
  function PortName(k: nat): string {
    if k == 0 then PRINCIPAL else "a_" + Decimal(k)
  }

  function Value(s: string): int {
    if s == [] then 0 else 10 * Value(s[..|s| - 1]) + (s[|s| - 1] as int - '0' as int)
  }

  lemma {:induction false} ValueOfDecimal(n: nat)
    ensures Value(Decimal(n)) == n
  {
    if n < 10 {
      assert Decimal(n)[..0] == [];
    } else {
      ValueOfDecimal(n / 10);
      assert Decimal(n)[..|Decimal(n)| - 1] == Decimal(n / 10);
    }
  }

  lemma AuxName(k: nat)
    ensures k > 0 ==> PortName(k) != [] && PortName(k)[0] == 'a' && PortName(k)[2..] == Decimal(k) && PortName(k) != PRINCIPAL
  {
  }

  /** Ports are told apart by their names. */
  lemma PortNamesApart(j: nat, k: nat)
    requires PortName(j) == PortName(k)
    ensures j == k
  {
    AuxName(j);
    AuxName(k);
    ValueOfDecimal(j);
    ValueOfDecimal(k);
  }

  function Numbered(prefix: string, i: nat): Name {
    prefix + "#" + Decimal(i)
  }

  /** Different numbers give different names. */
  lemma NumberedInjective(prefix: string, i: nat, j: nat)
    requires Numbered(prefix, i) == Numbered(prefix, j)
    ensures i == j
  {
    var n := |prefix + "#"|;
    assert Numbered(prefix, i)[n..] == Decimal(i) && Numbered(prefix, j)[n..] == Decimal(j);
    ValueOfDecimal(i);
    ValueOfDecimal(j);
  }

  function Tried(prefix: string, i: nat): set<Name> {
    if i == 0 then {} else Tried(prefix, i - 1) + {Numbered(prefix, i - 1)}
  }

  lemma {:induction false} NotTriedYet(prefix: string, i: nat, j: nat)
    requires i <= j
    ensures Numbered(prefix, j) !in Tried(prefix, i)
  {
    if i > 0 {
      NotTriedYet(prefix, i - 1, j);
      if Numbered(prefix, j) == Numbered(prefix, i - 1) { NumberedInjective(prefix, j, i - 1); }
    }
  }

  lemma {:induction false} TriedCount(prefix: string, i: nat)
    ensures |Tried(prefix, i)| == i
  {
    if i > 0 {
      TriedCount(prefix, i - 1);
      NotTriedYet(prefix, i - 1, i - 1);
    }
  }

  lemma Bounded(part: set<Name>, whole: set<Name>)
    requires part <= whole
    ensures |part| <= |whole|
  {
    assert whole == part + (whole - part);
  }

  /** The first unused number always exists: a finite graph cannot use them all. */
  method FreshAdaptorId(nodes: set<Name>, prefix: string) returns (id: Name)
    requires ADAPT <= prefix
    ensures id !in nodes && Adapted(id)
    ensures exists i: nat :: id == Numbered(prefix, i) && Tried(prefix, i) <= nodes
  {
    hide Decimal;
    var i: nat := 0;
    while Numbered(prefix, i) in nodes
      invariant Tried(prefix, i) <= nodes && i <= |nodes|
      decreases |nodes| - i
    {
      TriedCount(prefix, i + 1);
      Bounded(Tried(prefix, i + 1), nodes);
      i := i + 1;
    }
    id := Numbered(prefix, i);
  }

  // ----- donor names -----

  function Longer(nodes: set<Name>, n: nat): set<Name> {
    set v | v in nodes && |v| >= n
  }

  /** The donor name of an id: prefixed once, and again while the result is taken. */
  function DonorName(nodes: set<Name>, old_: Name): (name: Name)
    ensures name !in nodes && DONOR <= name
    decreases Longer(nodes, |old_| + 1)
  {
    var name := DONOR + old_;
    if name in nodes then
      assert name in Longer(nodes, |old_| + 1) && name !in Longer(nodes, |name| + 1);
      DonorName(nodes, name)
    else name
  }

  method RenameDonor(nodes: set<Name>, old_: Name) returns (name: Name)
    ensures name == DonorName(nodes, old_)
  {
    name := DONOR + old_;
    while name in nodes
      invariant DonorName(nodes, old_) == if name in nodes then DonorName(nodes, name) else name
      decreases Longer(nodes, |name|)
    {
      assert name in Longer(nodes, |name|) && name !in Longer(nodes, |DONOR + name|);
      name := DONOR + name;
    }
  }

  /** The id under k prefixes. */
  function Prefixed(old_: Name, k: nat): Name {
    if k == 0 then old_ else DONOR + Prefixed(old_, k - 1)
  }

  lemma {:induction false} PrefixedTwice(s: Name, j: nat, k: nat)
    ensures Prefixed(Prefixed(s, j), k) == Prefixed(s, j + k)
  {
    if k > 0 { PrefixedTwice(s, j, k - 1); }
  }

  /** How many prefixes a donor id receives: the least positive number that is not taken. */
  lemma {:induction false} DonorNameIs(nodes: set<Name>, s: Name) returns (k: nat)
    ensures k >= 1 && DonorName(nodes, s) == Prefixed(s, k) && Prefixed(s, k) !in nodes
    ensures forall i: nat :: 1 <= i < k ==> Prefixed(s, i) in nodes
    decreases Longer(nodes, |s| + 1)
  {
    var name := DONOR + s;
    assert Prefixed(s, 0) == s;
    assert Prefixed(s, 1) == name;
    k := 1;
    if name in nodes {
      assert name in Longer(nodes, |s| + 1) && name !in Longer(nodes, |name| + 1);
      var m := DonorNameIs(nodes, name);
      k := m + 1;
      PrefixedTwice(s, 1, m);
      forall i: nat | 1 <= i < k ensures Prefixed(s, i) in nodes {
        if i > 1 { PrefixedTwice(s, 1, i - 1); }
      }
    }
  }

  lemma {:induction false} Peel(s: Name, t: Name, a: nat, b: nat)
    requires Prefixed(s, a) == Prefixed(t, b) && a >= b
    ensures t == Prefixed(s, a - b)
    decreases b
  {
    if b > 0 {
      assert Prefixed(s, a)[7..] == Prefixed(s, a - 1) && Prefixed(t, b)[7..] == Prefixed(t, b - 1);
      Peel(s, t, a - 1, b - 1);
    }
  }

  /** One id is the other under some prefixes, each stage of which is taken. */
  ghost predicate Shadows(nodes: set<Name>, s: Name, t: Name) {
    exists j: nat :: j >= 1 && t == Prefixed(s, j) && forall i: nat :: 1 <= i <= j ==> Prefixed(s, i) in nodes
  }

  ghost predicate LeastFree(nodes: set<Name>, s: Name, k: nat) {
    k >= 1 && Prefixed(s, k) !in nodes && forall i: nat :: 1 <= i < k ==> Prefixed(s, i) in nodes
  }

  lemma ShadowShifts(nodes: set<Name>, s: Name, t: Name, j: nat, b: nat)
    requires j >= 1 && t == Prefixed(s, j) && forall i: nat :: 1 <= i <= j ==> Prefixed(s, i) in nodes
    requires LeastFree(nodes, t, b)
    ensures LeastFree(nodes, s, j + b) && Prefixed(s, j + b) == Prefixed(t, b)
  {
    PrefixedTwice(s, j, b);
    forall i: nat | 1 <= i < j + b ensures Prefixed(s, i) in nodes {
      if i > j { PrefixedTwice(s, j, i - j); }
    }
  }

  lemma LeastFreeUnique(nodes: set<Name>, s: Name, a: nat, b: nat)
    requires LeastFree(nodes, s, a) && LeastFree(nodes, s, b)
    ensures a == b
  {
  }

  lemma ShadowSharesName(nodes: set<Name>, s: Name, t: Name)
    requires Shadows(nodes, s, t)
    ensures DonorName(nodes, s) == DonorName(nodes, t)
  {
    var j: nat :| j >= 1 && t == Prefixed(s, j) && forall i: nat :: 1 <= i <= j ==> Prefixed(s, i) in nodes;
    var a := DonorNameIs(nodes, s);
    var b := DonorNameIs(nodes, t);
    ShadowShifts(nodes, s, t, j, b);
    LeastFreeUnique(nodes, s, a, j + b);
  }

  /** Two donor ids receive the same name exactly when one shadows the other. */
  lemma DonorNamesCollide(nodes: set<Name>, s: Name, t: Name)
    requires s != t
    ensures DonorName(nodes, s) == DonorName(nodes, t) <==> Shadows(nodes, s, t) || Shadows(nodes, t, s)
  {
    if Shadows(nodes, s, t) { ShadowSharesName(nodes, s, t); }
    if Shadows(nodes, t, s) { ShadowSharesName(nodes, t, s); }
    var a := DonorNameIs(nodes, s);
    var b := DonorNameIs(nodes, t);
    if DonorName(nodes, s) == DonorName(nodes, t) {
      if a >= b {
        Peel(s, t, a, b);
        assert Prefixed(s, 0) == s;
        assert Shadows(nodes, s, t);
      } else {
        Peel(t, s, b, a);
        assert Shadows(nodes, t, s);
      }
    }
  }

  /** A collision: with "donor::x" taken, the donor ids "x" and "donor::x" get one name. */
  lemma CollisionExample()
    ensures DonorName({"donor::x"}, "x") == DonorName({"donor::x"}, "donor::x")
  {
    var t := DONOR + "x";
    assert Prefixed("x", 0) == "x";
    assert Prefixed("x", 1) == t;
    assert t == "donor::x";
    assert Shadows({"donor::x"}, "x", t);
    ShadowSharesName({"donor::x"}, "x", t);
  }
}
