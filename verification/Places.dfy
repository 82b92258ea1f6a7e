/** Places: where in the nesting of closures a node of a compiled net stands, and in which order
    the nodes of one closure compute. A place is a list of slots, one for each enclosing closure
    and one for the node itself. */
module Places {
  /** Slots in order: before and after everything in a closure, its argument and its return path, and
      in between the nodes of its body, by the path that numbers them and by how often a source was forked. */
  datatype Slot = Start | First | At(path: seq<int>, forks: nat) | Last | End

  type Place = seq<Slot>

  /** Smaller at the first difference, which both have. */
  predicate PathLess(s: seq<int>, t: seq<int>) {
    s != [] && t != [] && (s[0] < t[0] || (s[0] == t[0] && PathLess(s[1..], t[1..])))
  }

  function Rank(s: Slot): int {
    match s
    case Start => 0
    case First => 1
    case At(_, _) => 2
    case Last => 3
    case End => 4
  }

  predicate SlotLess(s: Slot, t: Slot) {
    Rank(s) < Rank(t) || (s.At? && t.At? && (PathLess(s.path, t.path) || (s.path == t.path && s.forks < t.forks)))
  }

  predicate Less(s: Place, t: Place) {
    s != [] && t != [] && (SlotLess(s[0], t[0]) || (s[0] == t[0] && Less(s[1..], t[1..])))
  }

  predicate Prefix(s: Place, t: Place) {
    |s| <= |t| && t[..|s|] == s
  }

  /** t lies in the closure at s. */
  predicate Inside(s: Place, t: Place) {
    |s| < |t| && t[..|s|] == s
  }

  // ----- the orders -----

  lemma {:induction false} PathTrans(s: seq<int>, t: seq<int>, r: seq<int>)
    requires PathLess(s, t) && PathLess(t, r)
    ensures PathLess(s, r)
  {
    if s[0] == t[0] == r[0] { PathTrans(s[1..], t[1..], r[1..]); }
  }

  lemma {:induction false} PathStrict(s: seq<int>, t: seq<int>)
    requires PathLess(s, t)
    ensures s != t && !PathLess(t, s)
  {
    if s[0] == t[0] { PathStrict(s[1..], t[1..]); }
  }

  lemma {:induction false} PathMore(s: seq<int>, t: seq<int>, x: seq<int>, y: seq<int>)
    requires PathLess(s, t)
    ensures PathLess(s + x, t + y)
  {
    if s[0] == t[0] {
      PathMore(s[1..], t[1..], x, y);
      assert (s + x)[1..] == s[1..] + x && (t + y)[1..] == t[1..] + y;
    }
  }

  lemma {:induction false} PathUnder(w: seq<int>, s: seq<int>, t: seq<int>)
    ensures PathLess(w + s, w + t) <==> PathLess(s, t)
  {
    if w == [] {
      assert w + s == s && w + t == t;
    } else {
      PathUnder(w[1..], s, t);
      assert (w + s)[1..] == w[1..] + s && (w + t)[1..] == w[1..] + t;
    }
  }

  lemma SlotTrans(s: Slot, t: Slot, r: Slot)
    requires SlotLess(s, t) && SlotLess(t, r)
    ensures SlotLess(s, r)
  {
    if s.At? && t.At? && r.At? && PathLess(s.path, t.path) && PathLess(t.path, r.path) { PathTrans(s.path, t.path, r.path); }
  }

  lemma SlotStrict(s: Slot, t: Slot)
    requires SlotLess(s, t)
    ensures s != t && !SlotLess(t, s)
  {
    if s.At? && t.At? && PathLess(s.path, t.path) { PathStrict(s.path, t.path); }
  }

  lemma {:induction false} LessTrans(s: Place, t: Place, r: Place)
    requires Less(s, t) && Less(t, r)
    ensures Less(s, r)
  {
    if SlotLess(s[0], t[0]) && SlotLess(t[0], r[0]) {
      SlotTrans(s[0], t[0], r[0]);
    } else if !SlotLess(s[0], t[0]) && !SlotLess(t[0], r[0]) {
      LessTrans(s[1..], t[1..], r[1..]);
    }
  }

  /** Where two places part. */
  lemma {:induction false} LessAt(s: Place, t: Place) returns (k: nat)
    requires Less(s, t)
    ensures k < |s| && k < |t| && s[..k] == t[..k] && SlotLess(s[k], t[k]) && s[k] != t[k]
  {
    k := 0;
    if SlotLess(s[0], t[0]) {
      SlotStrict(s[0], t[0]);
    } else {
      k := LessAt(s[1..], t[1..]);
      assert s[..k + 1] == [s[0]] + s[1..][..k] && t[..k + 1] == [t[0]] + t[1..][..k];
      k := k + 1;
    }
  }

  lemma LessStrict(s: Place, t: Place)
    requires Less(s, t)
    ensures s != t && !Prefix(s, t) && !Prefix(t, s)
  {
    var k := LessAt(s, t);
  }

  lemma InsideTail(u: Place, s: Place)
    requires u != [] && s != [] && u[0] == s[0]
    ensures Inside(u, s) <==> Inside(u[1..], s[1..])
  {
    if |u| < |s| {
      assert u == [u[0]] + u[1..] && s[..|u|] == [s[0]] + s[1..][..|u| - 1];
    }
  }

  lemma {:induction false} LessMore(s: Place, t: Place, x: Place, y: Place)
    requires Less(s, t)
    ensures Less(s + x, t + y)
  {
    if s[0] == t[0] && !SlotLess(s[0], t[0]) {
      LessMore(s[1..], t[1..], x, y);
      assert (s + x)[1..] == s[1..] + x && (t + y)[1..] == t[1..] + y;
    }
  }

  lemma {:induction false} LessUnder(w: Place, s: Place, t: Place)
    ensures Less(w + s, w + t) <==> Less(s, t)
  {
    if w == [] {
      assert w + s == s && w + t == t;
    } else {
      LessUnder(w[1..], s, t);
      assert (w + s)[1..] == w[1..] + s && (w + t)[1..] == w[1..] + t;
      if SlotLess(w[0], w[0]) { SlotStrict(w[0], w[0]); }
    }
  }

  /** Before a place in a closure, but outside of the closure, is before the closure. */
  lemma {:induction false} LessOutside(s: Place, u: Place, t: Place)
    requires Less(s, u + t) && !Inside(u, s)
    ensures Less(s, u)
  {
    if u != [] {
      assert (u + t)[1..] == u[1..] + t && (u + t)[0] == u[0];
      if !SlotLess(s[0], u[0]) {
        InsideTail(u, s);
        LessOutside(s[1..], u[1..], t);
      }
    }
  }

  lemma LessInside(s: Place, t: Place, r: Place)
    requires Less(s, t) && (r == t || Inside(t, r))
    ensures Less(s, r)
  {
    LessMore(s, t, [], r[|t|..]);
    assert s + [] == s && t + r[|t|..] == r;
  }

  lemma InsideLess(s: Place, t: Place, r: Place)
    requires Less(t, r) && (s == t || Inside(t, s))
    ensures Less(s, r)
  {
    LessMore(t, r, s[|t|..], []);
    assert r + [] == r && t + s[|t|..] == s;
  }

  lemma InsideTrans(s: Place, t: Place, r: Place)
    requires Inside(s, t) && Inside(t, r)
    ensures Inside(s, r)
  {
    assert r[..|s|] == r[..|t|][..|s|];
  }

  /** Two closures around one place are one inside the other, or the same. */
  lemma InsideBoth(s: Place, t: Place, r: Place)
    requires Inside(s, r) && Inside(t, r)
    ensures s == t || Inside(s, t) || Inside(t, s)
  {
    if |s| <= |t| { assert t[..|s|] == r[..|t|][..|s|] == r[..|s|]; } else { assert s[..|t|] == r[..|s|][..|t|] == r[..|t|]; }
  }

  /** A closure computes after what is in it. */
  predicate Post(s: Place, t: Place) {
    Less(s, t) || Inside(t, s)
  }

  lemma PostTrans(s: Place, t: Place, r: Place)
    requires Post(s, t) && Post(t, r)
    ensures Post(s, r)
  {
    if Less(s, t) && Less(t, r) {
      LessTrans(s, t, r);
    } else if Less(s, t) {
      assert r + t[|r|..] == t;
      if !Inside(r, s) { LessOutside(s, r, t[|r|..]); }
    } else if Less(t, r) {
      InsideLess(s, t, r);
    } else {
      InsideTrans(r, t, s);
    }
  }

  lemma PostStrict(s: Place)
    ensures !Post(s, s) && !Less(s, s)
  {
    if Less(s, s) { LessStrict(s, s); }
  }

  // ----- places and the closures around them -----

  /** Not later, and in at least the same closures. */
  ghost predicate Goes(boxes: set<Place>, s: Place, t: Place) {
    (s == t || Less(s, t)) && forall b :: b in boxes && Inside(b, s) ==> Inside(b, t)
  }

  lemma GoesTrans(boxes: set<Place>, s: Place, t: Place, r: Place)
    requires Goes(boxes, s, t) && Goes(boxes, t, r)
    ensures Goes(boxes, s, r) && (Less(s, t) || Less(t, r) ==> Less(s, r))
  {
    if Less(s, t) && Less(t, r) { LessTrans(s, t, r); }
  }

  /** The body of the closure at u, moved to v. */
  function Moved(u: Place, v: Place, s: Place): Place {
    if Inside(u, s) then v + s[|u|..] else s
  }

  function MovedAll(u: Place, v: Place, boxes: set<Place>): set<Place> {
    set b | b in boxes :: Moved(u, v, b)
  }

  /** v is where the closure at u is called: later, in at least the same closures, and no closure's place itself. */
  ghost predicate CallSite(boxes: set<Place>, u: Place, v: Place) {
    u in boxes && Less(u, v) && Goes(boxes, u, v) && forall b :: b in boxes ==> !Prefix(v, b)
  }

  lemma PrefixInside(v: Place, b: Place, s: Place)
    ensures Prefix(v, b) && Inside(b, s) ==> Inside(v, s)
  {
    if |v| <= |b| < |s| { assert s[..|b|][..|v|] == s[..|v|]; }
  }

  lemma InsideOrBeyond(b: Place, v: Place, t: Place)
    requires Inside(b, v + t)
    ensures Inside(b, v) || Prefix(v, b)
  {
    if |b| < |v| { assert (v + t)[..|b|] == v[..|b|]; } else { assert (v + t)[..|b|][..|v|] == v; }
  }

  /** The boxes around a moved place. */
  lemma AroundMoved(boxes: set<Place>, u: Place, v: Place, b: Place, s: Place)
    requires CallSite(boxes, u, v) && b in MovedAll(u, v, boxes) && Inside(u, s) && Inside(b, Moved(u, v, s))
    ensures (b in boxes && Inside(b, v)) || (exists c :: c in boxes && Inside(u, c) && b == Moved(u, v, c) && Inside(c, s))
  {
    var c :| c in boxes && b == Moved(u, v, c);
    var t := s[|u|..];
    assert s == u + t && Moved(u, v, s) == v + t;
    if Inside(u, c) {
      assert (v + t)[..|b|] == v + c[|u|..];
      assert t[..|c| - |u|] == c[|u|..] by { assert (v + t)[..|b|][|v|..] == t[..|c| - |u|]; }
      assert s[..|c|] == u + t[..|c| - |u|] == c;
    } else {
      InsideOrBeyond(b, v, t);
    }
  }

  /** The boxes around a place that does not move. */
  lemma AroundOther(boxes: set<Place>, u: Place, v: Place, b: Place, s: Place)
    requires b in MovedAll(u, v, boxes) && Inside(b, s) && !Inside(v, s)
    ensures b in boxes && !Inside(u, b)
  {
    var c :| c in boxes && b == Moved(u, v, c);
    PrefixInside(v, b, s);
  }

  lemma InsideUnder(w: Place, s: Place, t: Place)
    ensures Inside(w + s, w + t) <==> Inside(s, t)
  {
    if |s| < |t| { assert (w + t)[..|w + s|] == w + t[..|s|] && (w + t[..|s|])[|w|..] == t[..|s|] && (w + s)[|w|..] == s; }
  }

  lemma InsideMoved(u: Place, v: Place, s: Place, b: Place)
    requires Inside(u, s) && Inside(u, b)
    ensures Inside(Moved(u, v, b), Moved(u, v, s)) <==> Inside(b, s)
  {
    assert s == u + s[|u|..] && b == u + b[|u|..];
    InsideUnder(u, b[|u|..], s[|u|..]);
    InsideUnder(v, b[|u|..], s[|u|..]);
  }

  /** Moving a closure's body to where the closure is called keeps the order and the nesting. */
  lemma MovedGoes(boxes: set<Place>, u: Place, v: Place, s: Place, t: Place)
    requires CallSite(boxes, u, v) && Less(s, t) && Goes(boxes, s, t) && !Inside(v, s) && !Inside(v, t)
    ensures Less(Moved(u, v, s), Moved(u, v, t)) && Goes(MovedAll(u, v, boxes), Moved(u, v, s), Moved(u, v, t))
  {
    if Inside(u, s) {
      assert Inside(u, t);
      assert s == u + s[|u|..] && t == u + t[|u|..];
      LessUnder(u, s[|u|..], t[|u|..]);
      LessUnder(v, s[|u|..], t[|u|..]);
      forall b | b in MovedAll(u, v, boxes) && Inside(b, Moved(u, v, s)) ensures Inside(b, Moved(u, v, t)) {
        AroundMoved(boxes, u, v, b, s);
        if b in boxes && Inside(b, v) {
          assert (v + t[|u|..])[..|b|] == v[..|b|];
        } else {
          var c :| c in boxes && Inside(u, c) && b == Moved(u, v, c) && Inside(c, s);
          InsideMoved(u, v, t, c);
        }
      }
    } else if Inside(u, t) {
      assert t == u + t[|u|..];
      LessOutside(s, u, t[|u|..]);
      LessTrans(s, u, v);
      LessMore(s, v, [], t[|u|..]);
      assert s + [] == s;
      forall b | b in MovedAll(u, v, boxes) && Inside(b, s) ensures Inside(b, Moved(u, v, t)) {
        AroundOther(boxes, u, v, b, s);
        assert Inside(b, t) && !Inside(u, b);
        InsideBoth(b, u, t);
        assert b != u;
        assert Inside(b, v);
        assert (v + t[|u|..])[..|b|] == v[..|b|];
      }
    } else {
      forall b | b in MovedAll(u, v, boxes) && Inside(b, s) ensures Inside(b, t) { AroundOther(boxes, u, v, b, s); }
    }
  }
}
