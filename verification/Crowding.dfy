/** Crowding distance (builder_brains/parameter_tuner.py, assign_crowding_distance): how isolated
    each member of a front is, the ends of every objective being infinitely so. */
module Crowding {
  import opened Collections
  import opened Levels
  import opened Wavefront
  import opened ParetoFronts

  const OBJECTIVES: nat := 3

  datatype Crowd = Far | Spaced(d: real)

  /** At least as isolated. */
  predicate NoCloser(a: Crowd, b: Crowd) {
    a.Far? || (b.Spaced? && a.d >= b.d)
  }

  /** Every member has all objectives. */
  ghost predicate Measured(members: seq<Id>, fit: Fitness) {
    forall v :: v in members ==> v in fit && |fit[v]| >= OBJECTIVES
  }

  // ----- the order by one objective -----

  function InsertLow(s: seq<Id>, v: Id, fit: Fitness, i: nat): (r: seq<Id>)
    requires i < OBJECTIVES && Measured(s, fit) && Measured([v], fit)
    ensures multiset(r) == multiset(s) + multiset{v}
  {
    if s == [] || fit[v][i] <= fit[s[0]][i] then [v] + s
    else
      assert s == [s[0]] + s[1..];
      [s[0]] + InsertLow(s[1..], v, fit, i)
  }

  /** Ascending in one objective, and otherwise in the order given. */
  function ByObjective(s: seq<Id>, fit: Fitness, i: nat): (r: seq<Id>)
    requires i < OBJECTIVES && Measured(s, fit)
    ensures multiset(r) == multiset(s)
  {
    if s == [] then []
    else
      assert s == [s[0]] + s[1..];
      var rest := ByObjective(s[1..], fit, i);
      SameMembers(rest, s[1..]);
      InsertLow(rest, s[0], fit, i)
  }

  lemma SameMembers(s: seq<Id>, t: seq<Id>)
    requires multiset(s) == multiset(t)
    ensures |s| == |t| && forall v :: v in s <==> v in t
  {
    assert |multiset(s)| == |s| && |multiset(t)| == |t|;
    forall v ensures v in s <==> v in t { assert v in multiset(s) <==> v in multiset(t); }
  }

  ghost predicate Rising(s: seq<Id>, fit: Fitness, i: nat)
    requires i < OBJECTIVES && Measured(s, fit)
  {
    forall j, k :: 0 <= j < k < |s| ==> fit[s[j]][i] <= fit[s[k]][i]
  }

  lemma InsertMembers(s: seq<Id>, v: Id, fit: Fitness, i: nat)
    requires i < OBJECTIVES && Measured(s, fit) && Measured([v], fit)
    ensures forall u :: u in InsertLow(s, v, fit, i) <==> u in s || u == v
  {
    forall u ensures u in InsertLow(s, v, fit, i) <==> u in s || u == v { assert u in multiset(InsertLow(s, v, fit, i)) <==> u in multiset(s) + multiset{v}; }
  }

  lemma {:induction false} InsertRises(s: seq<Id>, v: Id, fit: Fitness, i: nat)
    requires i < OBJECTIVES && Measured(s, fit) && Measured([v], fit) && Rising(s, fit, i)
    ensures Measured(InsertLow(s, v, fit, i), fit) && Rising(InsertLow(s, v, fit, i), fit, i)
  {
    InsertMembers(s, v, fit, i);
    if s != [] && fit[v][i] > fit[s[0]][i] {
      InsertRises(s[1..], v, fit, i);
      InsertMembers(s[1..], v, fit, i);
      RisingFrom(s[0], InsertLow(s[1..], v, fit, i), fit, i);
    } else if s != [] {
      RisingFrom(v, s, fit, i);
    }
  }

  lemma RisingFrom(v: Id, s: seq<Id>, fit: Fitness, i: nat)
    requires i < OBJECTIVES && Measured(s, fit) && Measured([v], fit) && Rising(s, fit, i)
    requires s != [] ==> forall u :: u in s ==> fit[v][i] <= fit[u][i]
    ensures Measured([v] + s, fit) && Rising([v] + s, fit, i)
  {
  }

  lemma {:induction false} Ordered(s: seq<Id>, fit: Fitness, i: nat)
    requires i < OBJECTIVES && Measured(s, fit)
    ensures Measured(ByObjective(s, fit, i), fit) && Rising(ByObjective(s, fit, i), fit, i)
  {
    SameMembers(ByObjective(s, fit, i), s);
    if s != [] {
      Ordered(s[1..], fit, i);
      InsertRises(ByObjective(s[1..], fit, i), s[0], fit, i);
    }
  }

  lemma OrderedOnce(s: seq<Id>, fit: Fitness, i: nat)
    requires i < OBJECTIVES && Measured(s, fit) && Distinct(s)
    ensures var o := ByObjective(s, fit, i); Distinct(o) && |o| == |s| && forall v :: v in o <==> v in s
  {
    SameMembers(ByObjective(s, fit, i), s);
    OnceEach(s);
    OnceEach(ByObjective(s, fit, i));
  }

  // ----- what the distance is -----

  function Place(s: seq<Id>, v: Id): (k: nat)
    requires v in s
    ensures k < |s| && s[k] == v
  {
    if s[0] == v then 0 else Place(s[1..], v) + 1
  }

  function Ratio(gap: int, span: int): real
    requires span > 0
  {
    gap as real / span as real
  }

  /** First or last in some objective. */
  predicate AtEnd(front: seq<Id>, fit: Fitness, v: Id, i: nat)
    requires i < OBJECTIVES && Measured(front, fit)
  {
    var o := ByObjective(front, fit, i);
    o != [] && (v == o[0] || v == o[|o| - 1])
  }

  /** What an objective adds for the member at a place of its order: the gap between the
      two neighbours, as a part of the whole span. */
  function ShareAt(o: seq<Id>, fit: Fitness, i: nat, k: nat): real
    requires i < OBJECTIVES && Measured(o, fit) && 0 < k < |o| - 1
  {
    var span := fit[o[|o| - 1]][i] - fit[o[0]][i];
    if span <= 0 then 0.0 else Ratio(fit[o[k + 1]][i] - fit[o[k - 1]][i], span)
  }

  function Share(front: seq<Id>, fit: Fitness, v: Id, i: nat): real
    requires i < OBJECTIVES && Measured(front, fit) && v in front
  {
    var o := ByObjective(front, fit, i);
    SameMembers(o, front);
    var k := Place(o, v);
    if k == 0 || k == |o| - 1 then 0.0 else ShareAt(o, fit, i, k)
  }

  function Total(front: seq<Id>, fit: Fitness, v: Id, n: nat): real
    requires n <= OBJECTIVES && Measured(front, fit) && v in front
  {
    if n == 0 then 0.0 else Total(front, fit, v, n - 1) + Share(front, fit, v, n - 1)
  }

  /** The distance after the first n objectives. */
  ghost function CrowdOf(front: seq<Id>, fit: Fitness, v: Id, n: nat): Crowd
    requires n <= OBJECTIVES && Measured(front, fit) && v in front
  {
    if exists i: nat :: i < n && AtEnd(front, fit, v, i) then Far else Spaced(Total(front, fit, v, n))
  }

  // ----- computing it -----

  ghost predicate Assigned(front: seq<Id>, fit: Fitness, crowd: map<Id, Crowd>, n: nat)
    requires n <= OBJECTIVES && Measured(front, fit)
  {
    && crowd.Keys == Members(front)
    && (forall v :: v in front ==> crowd[v] == CrowdOf(front, fit, v, n))
  }

  /** One objective in progress: the ends and the members before place p are done. */
  ghost predicate InProgress(front: seq<Id>, fit: Fitness, crowd: map<Id, Crowd>, n: nat, p: nat)
    requires n < OBJECTIVES && Measured(front, fit)
  {
    var o := ByObjective(front, fit, n);
    && crowd.Keys == Members(front) && (forall v :: v in o <==> v in front)
    && (forall k :: 0 <= k < |o| ==> crowd[o[k]] == CrowdOf(front, fit, o[k], if k < p || k == |o| - 1 then n + 1 else n))
  }

  lemma PlaceOnce(s: seq<Id>, k: nat)
    requires Distinct(s) && k < |s|
    ensures Place(s, s[k]) == k
  {
    var j := Place(s, s[k]);
    assert s[j] == s[k];
  }

  lemma EndNow(front: seq<Id>, fit: Fitness, n: nat, v: Id)
    requires n < OBJECTIVES && Measured(front, fit) && v in front && AtEnd(front, fit, v, n)
    ensures CrowdOf(front, fit, v, n + 1) == Far
  {
  }

  lemma MiddleNow(front: seq<Id>, fit: Fitness, n: nat, k: nat)
    requires n < OBJECTIVES && Measured(front, fit) && Distinct(front) && 0 < k < |front| - 1
    ensures var o := ByObjective(front, fit, n);
            && |o| == |front| && o[k] in front && Measured(o, fit)
            && var c := CrowdOf(front, fit, o[k], n);
               CrowdOf(front, fit, o[k], n + 1) == if c.Far? then Far else Spaced(c.d + ShareAt(o, fit, n, k))
  {
    hide ByObjective, Place, ShareAt;
    var o := ByObjective(front, fit, n);
    OrderedOnce(front, fit, n);
    PlaceOnce(o, k);
    assert o[k] in front && !AtEnd(front, fit, o[k], n);
    forall i: nat ensures i < n + 1 && AtEnd(front, fit, o[k], i) <==> i < n && AtEnd(front, fit, o[k], i) {}
  }

  lemma ObjectiveStarts(front: seq<Id>, fit: Fitness, crowd: map<Id, Crowd>, n: nat)
    requires n < OBJECTIVES && Measured(front, fit) && Distinct(front) && |front| > 2 && Assigned(front, fit, crowd, n)
    ensures var o := ByObjective(front, fit, n);
            && |o| == |front| && Measured(o, fit)
            && InProgress(front, fit, crowd[o[0] := Far][o[|o| - 1] := Far], n, 1)
  {
    hide CrowdOf;
    var o := ByObjective(front, fit, n);
    OrderedOnce(front, fit, n);
    assert o[0] in front && o[|o| - 1] in front;
    EndNow(front, fit, n, o[0]);
    EndNow(front, fit, n, o[|o| - 1]);
  }

  lemma ObjectiveMoves(front: seq<Id>, fit: Fitness, crowd: map<Id, Crowd>, n: nat, p: nat)
    requires n < OBJECTIVES && Measured(front, fit) && Distinct(front) && 0 < p < |front| - 1 && InProgress(front, fit, crowd, n, p)
    ensures var o := ByObjective(front, fit, n);
            && |o| == |front| && Measured(o, fit) && o[p] in crowd
            && var c := crowd[o[p]];
               InProgress(front, fit, if c.Far? then crowd else crowd[o[p] := Spaced(c.d + ShareAt(o, fit, n, p))], n, p + 1)
  {
    hide CrowdOf, ShareAt;
    OrderedOnce(front, fit, n);
    var o := ByObjective(front, fit, n);
    assert o[p] in o;
    MiddleNow(front, fit, n, p);
  }

  lemma ObjectiveEnds(front: seq<Id>, fit: Fitness, crowd: map<Id, Crowd>, n: nat)
    requires n < OBJECTIVES && Measured(front, fit) && Distinct(front) && |front| > 2 && InProgress(front, fit, crowd, n, |front| - 1)
    ensures Assigned(front, fit, crowd, n + 1)
  {
    hide CrowdOf;
    OrderedOnce(front, fit, n);
    var o := ByObjective(front, fit, n);
    forall v | v in front ensures crowd[v] == CrowdOf(front, fit, v, n + 1) { assert v == o[Place(o, v)]; }
  }

  /** One objective without any span adds nothing between its ends. */
  lemma {:induction false} NoSpan(front: seq<Id>, fit: Fitness, crowd: map<Id, Crowd>, n: nat, p: nat)
    requires n < OBJECTIVES && Measured(front, fit) && Distinct(front) && 0 < p <= |front| - 1 && InProgress(front, fit, crowd, n, p)
    requires var o := ByObjective(front, fit, n);
             |o| == |front| && Measured(o, fit) && fit[o[|o| - 1]][n] - fit[o[0]][n] <= 0
    ensures InProgress(front, fit, crowd, n, |front| - 1)
    decreases |front| - p
  {
    hide InProgress, CrowdOf, ByObjective, Measured;
    if p < |front| - 1 {
      ObjectiveMoves(front, fit, crowd, n, p);
      var o := ByObjective(front, fit, n);
      assert crowd[o[p]].Spaced? ==> crowd == crowd[o[p] := Spaced(crowd[o[p]].d + ShareAt(o, fit, n, p))];
      NoSpan(front, fit, crowd, n, p + 1);
    }
  }

  /** One turn of the loop over objectives. */
  method AddObjective(front: seq<Id>, fit: Fitness, crowd0: map<Id, Crowd>, n: nat) returns (crowd: map<Id, Crowd>)
    requires n < OBJECTIVES && Measured(front, fit) && Distinct(front) && |front| > 2 && Assigned(front, fit, crowd0, n)
    ensures Assigned(front, fit, crowd, n + 1)
  {
    hide InProgress, Assigned, Distinct, CrowdOf, ByObjective, Measured;
    var ordered := ByObjective(front, fit, n);
    ObjectiveStarts(front, fit, crowd0, n);
    AllMeasured(ordered, fit);
    crowd := crowd0[ordered[0] := Far][ordered[|ordered| - 1] := Far];
    var span := fit[ordered[|ordered| - 1]][n] - fit[ordered[0]][n];
    if span <= 0 {
      NoSpan(front, fit, crowd, n, 1);
      ObjectiveEnds(front, fit, crowd, n);
      return;
    }
    for position := 1 to |front| - 1
      invariant InProgress(front, fit, crowd, n, position)
    {
      ObjectiveMoves(front, fit, crowd, n, position);
      var v := ordered[position];
      if crowd[v].Spaced? {
        var gap := fit[ordered[position + 1]][n] - fit[ordered[position - 1]][n];
        crowd := crowd[v := Spaced(crowd[v].d + Ratio(gap, span))];
      }
    }
    ObjectiveEnds(front, fit, crowd, n);
  }

  lemma AllMeasured(s: seq<Id>, fit: Fitness)
    requires Measured(s, fit)
    ensures forall k :: 0 <= k < |s| ==> s[k] in fit && |fit[s[k]]| >= OBJECTIVES
  {
  }

  lemma NothingAssigned(front: seq<Id>, fit: Fitness)
    requires Measured(front, fit)
    ensures Assigned(front, fit, map v | v in front :: Spaced(0.0), 0)
  {
  }

  /** assign_crowding_distance */
  method AssignCrowding(front: seq<Id>, fit: Fitness) returns (crowd: map<Id, Crowd>)
    requires Measured(front, fit) && Distinct(front)
    ensures crowd.Keys == Members(front)
    ensures forall v :: v in front ==> crowd[v] == if |front| <= 2 then Far else CrowdOf(front, fit, v, OBJECTIVES)
  {
    hide Distinct, CrowdOf, Measured, Assigned, Total, AtEnd;
    if |front| <= 2 {
      return map v | v in front :: Far;
    }
    crowd := map v | v in front :: Spaced(0.0);
    NothingAssigned(front, fit);
    for n := 0 to OBJECTIVES
      invariant Assigned(front, fit, crowd, n)
    {
      crowd := AddObjective(front, fit, crowd, n);
    }
    AssignedIs(front, fit, crowd);
  }

  lemma AssignedIs(front: seq<Id>, fit: Fitness, crowd: map<Id, Crowd>)
    requires Measured(front, fit) && Assigned(front, fit, crowd, OBJECTIVES)
    ensures crowd.Keys == Members(front) && forall v :: v in front ==> crowd[v] == CrowdOf(front, fit, v, OBJECTIVES)
  {
  }

  // ----- what it is for -----

  /** An objective adds at most its whole span. */
  lemma ShareBounds(front: seq<Id>, fit: Fitness, v: Id, i: nat)
    requires i < OBJECTIVES && Measured(front, fit) && v in front
    ensures 0.0 <= Share(front, fit, v, i) <= 1.0
  {
    hide ByObjective, Place, Ratio;
    var o := ByObjective(front, fit, i);
    SameMembers(o, front);
    Ordered(front, fit, i);
    var k := Place(o, v);
    if 0 < k < |o| - 1 {
      var gap, span := fit[o[k + 1]][i] - fit[o[k - 1]][i], fit[o[|o| - 1]][i] - fit[o[0]][i];
      assert 0 <= gap <= span;
      if span > 0 { RatioBounds(gap, span); }
    }
  }

  lemma RatioBounds(gap: int, span: int)
    requires 0 <= gap <= span && span > 0
    ensures 0.0 <= Ratio(gap, span) <= 1.0
  {
    var g, s := gap as real, span as real;
    assert 0.0 <= g <= s && s > 0.0;
    assert (g / s) * s == g;
  }

  /** Finite distances lie between zero and the number of objectives. */
  lemma {:induction false} TotalBounds(front: seq<Id>, fit: Fitness, v: Id, n: nat)
    requires n <= OBJECTIVES && Measured(front, fit) && v in front
    ensures 0.0 <= Total(front, fit, v, n) <= n as real
  {
    hide Share;
    if n > 0 {
      TotalBounds(front, fit, v, n - 1);
      ShareBounds(front, fit, v, n - 1);
    }
  }

  /** A best and a worst member in every objective are infinitely far. */
  lemma ExtremesFar(front: seq<Id>, fit: Fitness, i: nat) returns (best: Id, worst: Id)
    requires i < OBJECTIVES && Measured(front, fit) && front != []
    ensures best in front && worst in front
    ensures CrowdOf(front, fit, best, OBJECTIVES) == CrowdOf(front, fit, worst, OBJECTIVES) == Far
    ensures forall v :: v in front ==> fit[worst][i] <= fit[v][i] <= fit[best][i]
  {
    hide ByObjective, Place, Total;
    var o := ByObjective(front, fit, i);
    SameMembers(o, front);
    Ordered(front, fit, i);
    best, worst := o[|o| - 1], o[0];
    assert AtEnd(front, fit, best, i) && AtEnd(front, fit, worst, i);
    forall v | v in front ensures fit[worst][i] <= fit[v][i] <= fit[best][i] { assert v == o[Place(o, v)]; }
  }

  function Ends(front: seq<Id>, fit: Fitness, n: nat): set<Id>
    requires n <= OBJECTIVES && Measured(front, fit) && front != []
  {
    if n == 0 then {}
    else
      var o := ByObjective(front, fit, n - 1);
      SameMembers(o, front);
      Ends(front, fit, n - 1) + {o[0], o[|o| - 1]}
  }

  lemma {:induction false} EndsFew(front: seq<Id>, fit: Fitness, n: nat)
    requires n <= OBJECTIVES && Measured(front, fit) && front != []
    ensures |Ends(front, fit, n)| <= 2 * n
  {
    hide ByObjective;
    if n > 0 {
      var o := ByObjective(front, fit, n - 1);
      SameMembers(o, front);
      EndsFew(front, fit, n - 1);
      var rest := Ends(front, fit, n - 1);
      assert |rest + {o[0], o[|o| - 1]}| <= |rest| + |{o[0], o[|o| - 1]}|;
    }
  }

  lemma {:induction false} EndIsIn(front: seq<Id>, fit: Fitness, v: Id, i: nat, n: nat)
    requires i < n <= OBJECTIVES && Measured(front, fit) && front != [] && AtEnd(front, fit, v, i)
    ensures v in Ends(front, fit, n)
  {
    hide ByObjective, Measured;
    if i < n - 1 { EndIsIn(front, fit, v, i, n - 1); }
  }

  /** At most two members of a front are infinitely far for each objective. */
  lemma FarFew(front: seq<Id>, fit: Fitness, far: set<Id>)
    requires Measured(front, fit) && front != []
    requires forall v :: v in far ==> v in front && CrowdOf(front, fit, v, OBJECTIVES) == Far
    ensures |far| <= 2 * OBJECTIVES
  {
    var ends := Ends(front, fit, OBJECTIVES);
    EndsFew(front, fit, OBJECTIVES);
    forall v | v in far ensures v in ends {
      var i: nat :| i < OBJECTIVES && AtEnd(front, fit, v, i);
      EndIsIn(front, fit, v, i, OBJECTIVES);
    }
    assert ends == far + (ends - far);
  }
}
