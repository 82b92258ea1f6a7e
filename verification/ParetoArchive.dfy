/** The Pareto archive (builder_brains/parameter_tuner.py, class FitnessSurvivalTracker): merging
    candidates keeps an antichain within capacity and, given room for the ends of every objective,
    never loses the best of any objective. */
module ParetoArchive {
  import opened Collections
  import opened MellTypes
  import opened Levels
  import opened Wavefront
  import opened ParetoFronts
  import opened Crowding

  // ----- the archive -----

  ghost predicate Antichain(s: seq<Id>, fit: Fitness) {
    forall u, v :: u in s && v in s ==> !Beats(fit, u, v)
  }

  /** The member of the pool that the candidate re-measures. */
  function TwinIn(pool: seq<Id>, c: Id, close: (Id, Id) -> bool): Option<nat> {
    if pool == [] then None
    else if pool[0] != c && close(pool[0], c) then Some(0)
    else
      var rest := TwinIn(pool[1..], c, close);
      if rest.None? then None else Some(rest.value + 1)
  }

  lemma {:induction false} TwinInside(pool: seq<Id>, c: Id, close: (Id, Id) -> bool)
    ensures TwinIn(pool, c, close).Some? ==> TwinIn(pool, c, close).value < |pool|
  {
    if pool != [] { TwinInside(pool[1..], c, close); }
  }

  /** The candidate replaces its twin, and joins the pool unless it is there. */
  function Admit(pool: seq<Id>, c: Id, close: (Id, Id) -> bool): seq<Id> {
    TwinInside(pool, c, close);
    var twin := TwinIn(pool, c, close);
    var rest := if twin.Some? then pool[..twin.value] + pool[twin.value + 1..] else pool;
    if c in rest then rest else rest + [c]
  }

  function Pool(archive: seq<Id>, candidates: seq<Id>, close: (Id, Id) -> bool): seq<Id> {
    if candidates == [] then archive
    else Admit(Pool(archive, candidates[..|candidates| - 1], close), candidates[|candidates| - 1], close)
  }

  lemma AdmitKeeps(pool: seq<Id>, c: Id, close: (Id, Id) -> bool)
    requires Enumerates(pool, Members(pool))
    ensures Enumerates(Admit(pool, c, close), Members(Admit(pool, c, close)))
    ensures forall v :: v in Admit(pool, c, close) ==> v == c || v in pool
  {
    TwinInside(pool, c, close);
    var twin := TwinIn(pool, c, close);
    var rest := if twin.Some? then pool[..twin.value] + pool[twin.value + 1..] else pool;
    assert Enumerates(rest, Members(rest));
    if c !in rest {
      EnumeratesMore(rest, Members(rest), c);
      assert Members(rest + [c]) == Members(rest) + {c};
    }
  }

  lemma {:induction false} PoolKeeps(archive: seq<Id>, candidates: seq<Id>, close: (Id, Id) -> bool)
    requires Enumerates(archive, Members(archive))
    ensures Enumerates(Pool(archive, candidates, close), Members(Pool(archive, candidates, close)))
    ensures forall v :: v in Pool(archive, candidates, close) ==> v in archive || v in candidates
  {
    hide Enumerates, Admit;
    if candidates != [] {
      var k := |candidates| - 1;
      PoolKeeps(archive, candidates[..k], close);
      AdmitKeeps(Pool(archive, candidates[..k], close), candidates[k], close);
    }
  }

  // ----- who is in the pool -----

  /** v is the first member that the candidate c re-measures. */
  ghost predicate Displaced(pool: seq<Id>, c: Id, close: (Id, Id) -> bool, v: Id) {
    exists i :: 0 <= i < |pool| && pool[i] == v && v != c && close(v, c) && forall j :: 0 <= j < i ==> pool[j] == c || !close(pool[j], c)
  }

  lemma {:induction false} TwinExactly(pool: seq<Id>, c: Id, close: (Id, Id) -> bool)
    ensures var t := TwinIn(pool, c, close);
      && (t.None? ==> forall v :: v in pool ==> v == c || !close(v, c))
      && (t.Some? ==> t.value < |pool| && pool[t.value] != c && close(pool[t.value], c) && forall j :: 0 <= j < t.value ==> pool[j] == c || !close(pool[j], c))
  {
    if pool != [] {
      TwinExactly(pool[1..], c, close);
      var t := TwinIn(pool, c, close);
      if t.Some? && t.value > 0 {
        forall j | 0 <= j < t.value ensures pool[j] == c || !close(pool[j], c) { if j > 0 { assert pool[1..][j - 1] == pool[j]; } }
      }
    }
  }

  /** A candidate is in the pool afterwards, and so is every member but the one that it displaces. */
  lemma AdmitExactly(pool: seq<Id>, c: Id, close: (Id, Id) -> bool)
    requires Distinct(pool)
    ensures forall v :: v in Admit(pool, c, close) <==> v == c || (v in pool && !Displaced(pool, c, close, v))
    ensures forall u, v :: Displaced(pool, c, close, u) && Displaced(pool, c, close, v) ==> u == v
  {
    TwinExactly(pool, c, close);
    var t := TwinIn(pool, c, close);
    forall v ensures Displaced(pool, c, close, v) <==> t.Some? && v == pool[t.value] {
      if Displaced(pool, c, close, v) {
        var i :| 0 <= i < |pool| && pool[i] == v && v != c && close(v, c) && forall j :: 0 <= j < i ==> pool[j] == c || !close(pool[j], c);
        assert t.Some? && t.value == i;
      }
    }
    forall v ensures v in Admit(pool, c, close) <==> v == c || (v in pool && !Displaced(pool, c, close, v)) {
      if t.Some? { WithoutOne(pool, t.value, v); }
    }
  }

  lemma WithoutOne(pool: seq<Id>, k: nat, v: Id)
    requires Distinct(pool) && k < |pool|
    ensures v in pool[..k] + pool[k + 1..] <==> v in pool && v != pool[k]
  {
    if v in pool && v != pool[k] {
      var i :| 0 <= i < |pool| && pool[i] == v;
      if i < k { assert pool[..k][i] == v; } else { assert pool[k + 1..][i - k - 1] == v; }
    }
  }

  /** No other of these candidates is close to v. */
  predicate Unreplaced(v: Id, candidates: seq<Id>, close: (Id, Id) -> bool) {
    forall j :: 0 <= j < |candidates| ==> candidates[j] == v || !close(v, candidates[j])
  }

  /** Every candidate is in the pool unless a different, later candidate is close to it; and an old member leaves
      only for a different candidate that is close to it. */
  lemma {:induction false} PoolHolds(archive: seq<Id>, candidates: seq<Id>, close: (Id, Id) -> bool)
    requires Enumerates(archive, Members(archive))
    ensures forall k :: 0 <= k < |candidates| && Unreplaced(candidates[k], candidates[k + 1..], close) ==> candidates[k] in Pool(archive, candidates, close)
    ensures forall v :: v in archive && Unreplaced(v, candidates, close) ==> v in Pool(archive, candidates, close)
  {
    hide Enumerates, Admit, Displaced;
    if candidates != [] {
      var n := |candidates| - 1;
      var less, c := candidates[..n], candidates[n];
      var pool, next := Pool(archive, less, close), Pool(archive, candidates, close);
      PoolHolds(archive, less, close);
      PoolKeeps(archive, less, close);
      EnumeratesOnce(pool);
      AdmitExactly(pool, c, close);
      forall v | v in pool && (v == c || !close(v, c)) ensures v in next { NotDisplaced(pool, c, close, v); }
      forall k | 0 <= k < |candidates| && Unreplaced(candidates[k], candidates[k + 1..], close) ensures candidates[k] in next {
        if k < n { FewerReplace(candidates, k, n, close); }
      }
      forall v | v in archive && Unreplaced(v, candidates, close) ensures v in next {
        assert candidates[n] == v || !close(v, candidates[n]);
        assert forall j :: 0 <= j < n ==> less[j] == candidates[j];
      }
    }
  }

  /** Each candidate puts at most one out. */
  lemma {:induction false} PoolLoses(archive: seq<Id>, candidates: seq<Id>, close: (Id, Id) -> bool)
    requires Enumerates(archive, Members(archive))
    ensures |Members(archive) + Members(candidates) - Members(Pool(archive, candidates, close))| <= |candidates|
  {
    hide Enumerates, Admit, Displaced;
    if candidates == [] {
      assert Members(archive) + Members(candidates) - Members(archive) == {};
    } else {
      var n := |candidates| - 1;
      var pool := Pool(archive, candidates[..n], close);
      PoolLoses(archive, candidates[..n], close);
      PoolKeeps(archive, candidates[..n], close);
      EnumeratesOnce(pool);
      AdmitExactly(pool, candidates[n], close);
      LosesOne(archive, candidates, pool, Pool(archive, candidates, close), close);
    }
  }

  lemma EnumeratesOnce(s: seq<Id>)
    requires Enumerates(s, Members(s))
    ensures Distinct(s)
  {
  }

  lemma NotDisplaced(pool: seq<Id>, c: Id, close: (Id, Id) -> bool, v: Id)
    requires v == c || !close(v, c)
    ensures !Displaced(pool, c, close, v)
  {
  }

  lemma FewerReplace(candidates: seq<Id>, k: nat, n: nat, close: (Id, Id) -> bool)
    requires k < n == |candidates| - 1 && Unreplaced(candidates[k], candidates[k + 1..], close)
    ensures Unreplaced(candidates[..n][k], candidates[..n][k + 1..], close)
    ensures candidates[n] == candidates[k] || !close(candidates[k], candidates[n])
  {
    assert candidates[k + 1..][n - k - 1] == candidates[n];
    var less, more := candidates[..n][k + 1..], candidates[k + 1..];
    forall j | 0 <= j < |less| ensures less[j] == candidates[k] || !close(candidates[k], less[j]) { assert more[j] == less[j]; }
  }

  lemma LosesOne(archive: seq<Id>, candidates: seq<Id>, pool: seq<Id>, next: seq<Id>, close: (Id, Id) -> bool)
    requires candidates != []
    requires var (n, c) := (|candidates| - 1, candidates[|candidates| - 1]);
      && (forall v :: v in next <==> v == c || (v in pool && !Displaced(pool, c, close, v)))
      && (forall u, v :: Displaced(pool, c, close, u) && Displaced(pool, c, close, v) ==> u == v)
      && |Members(archive) + Members(candidates[..n]) - Members(pool)| <= n
    ensures |Members(archive) + Members(candidates) - Members(next)| <= |candidates|
  {
    hide Displaced;
    var n, c := |candidates| - 1, candidates[|candidates| - 1];
    var lost, more := Members(archive) + Members(candidates[..n]) - Members(pool), Members(archive) + Members(candidates) - Members(next);
    forall v | v in more && v !in lost ensures Displaced(pool, c, close, v) {
      if v in candidates {
        var k :| 0 <= k < |candidates| && candidates[k] == v;
        if k < n { assert candidates[..n][k] == v; }
      }
    }
    var out := more - lost;
    if w :| w in out {
      assert out == {w};
      assert more <= lost + {w};
      SmallerSet(more, lost + {w});
    } else {
      assert more <= lost;
      SmallerSet(more, lost);
    }
  }

  lemma SmallerSet(s: set<Id>, t: set<Id>)
    requires s <= t
    ensures |s| <= |t|
  {
    assert t == s + (t - s);
  }

  /** What becomes of something in the pool: it is kept, or beaten there, or in the first front and cut. */
  ghost predicate Accounted(v: Id, pool: seq<Id>, front: seq<Id>, kept: seq<Id>, fit: Fitness) {
    v in kept || (exists u :: u in pool && Beats(fit, u, v)) || (v in front && |kept| < |front|)
  }

  lemma AllAccounted(pool: seq<Id>, front: seq<Id>, kept: seq<Id>, fit: Fitness, v: Id)
    requires v in pool && (forall u :: u in front <==> u in Undominated(pool, fit)) && (kept == front || |kept| < |front|)
    ensures Accounted(v, pool, front, kept, fit)
  {
    if v !in front {
      var u :| u in Beaters(Members(pool), fit, v);
      assert u in pool && Beats(fit, u, v);
    }
  }

  // ----- truncation -----

  ghost predicate Descending(s: seq<Id>, crowd: map<Id, Crowd>)
    requires forall v :: v in s ==> v in crowd
  {
    forall i, j :: 0 <= i < j < |s| ==> NoCloser(crowd[s[i]], crowd[s[j]])
  }

  function InsertFar(s: seq<Id>, v: Id, crowd: map<Id, Crowd>): (r: seq<Id>)
    requires v in crowd && forall u :: u in s ==> u in crowd
    ensures multiset(r) == multiset(s) + multiset{v}
  {
    if s == [] || NoCloser(crowd[v], crowd[s[0]]) then [v] + s
    else
      assert s == [s[0]] + s[1..];
      [s[0]] + InsertFar(s[1..], v, crowd)
  }

  /** By descending crowding distance. */
  function MostIsolated(s: seq<Id>, crowd: map<Id, Crowd>): (r: seq<Id>)
    requires forall v :: v in s ==> v in crowd
    ensures multiset(r) == multiset(s)
  {
    if s == [] then []
    else
      assert s == [s[0]] + s[1..];
      var rest := MostIsolated(s[1..], crowd);
      SameMembers(rest, s[1..]);
      InsertFar(rest, s[0], crowd)
  }

  lemma FarMembers(s: seq<Id>, v: Id, crowd: map<Id, Crowd>)
    requires v in crowd && forall u :: u in s ==> u in crowd
    ensures forall u :: u in InsertFar(s, v, crowd) <==> u in s || u == v
  {
    forall u ensures u in InsertFar(s, v, crowd) <==> u in s || u == v { assert u in multiset(InsertFar(s, v, crowd)) <==> u in multiset(s) + multiset{v}; }
  }

  lemma {:induction false} InsertDescends(s: seq<Id>, v: Id, crowd: map<Id, Crowd>)
    requires v in crowd && (forall u :: u in s ==> u in crowd) && Descending(s, crowd)
    ensures (forall u :: u in InsertFar(s, v, crowd) ==> u in crowd) && Descending(InsertFar(s, v, crowd), crowd)
  {
    FarMembers(s, v, crowd);
    if s != [] && !NoCloser(crowd[v], crowd[s[0]]) {
      InsertDescends(s[1..], v, crowd);
      FarMembers(s[1..], v, crowd);
      DescendingFrom(s[0], InsertFar(s[1..], v, crowd), crowd);
    } else {
      DescendingFrom(v, s, crowd);
    }
  }

  lemma DescendingFrom(v: Id, s: seq<Id>, crowd: map<Id, Crowd>)
    requires v in crowd && (forall u :: u in s ==> u in crowd) && Descending(s, crowd)
    requires s != [] ==> (NoCloser(crowd[v], crowd[s[0]]) || forall u :: u in s ==> NoCloser(crowd[v], crowd[u]))
    ensures Descending([v] + s, crowd)
  {
    forall k | 0 <= k < |s| ensures NoCloser(crowd[v], crowd[s[k]]) {
      assert s[0] in s && s[k] in s;
      if k > 0 { assert NoCloser(crowd[s[0]], crowd[s[k]]); }
    }
  }

  lemma {:induction false} MostIsolatedDescends(s: seq<Id>, crowd: map<Id, Crowd>)
    requires forall v :: v in s ==> v in crowd
    ensures (forall v :: v in MostIsolated(s, crowd) ==> v in crowd) && Descending(MostIsolated(s, crowd), crowd)
  {
    SameMembers(MostIsolated(s, crowd), s);
    if s != [] {
      MostIsolatedDescends(s[1..], crowd);
      InsertDescends(MostIsolated(s[1..], crowd), s[0], crowd);
    }
  }

  /** Every kept member is at least as isolated as every dropped one. */
  ghost predicate MostKept(kept: seq<Id>, front: seq<Id>, crowd: map<Id, Crowd>)
    requires forall v :: v in front ==> v in crowd
  {
    && (forall v :: v in kept ==> v in front)
    && (forall u, v :: u in kept && v in front && v !in kept ==> NoCloser(crowd[u], crowd[v]))
  }

  lemma PrefixIsolated(order: seq<Id>, crowd: map<Id, Crowd>, k: nat)
    requires (forall v :: v in order ==> v in crowd) && Descending(order, crowd) && k <= |order|
    ensures MostKept(order[..k], order, crowd)
  {
    assert forall i :: 0 <= i < k ==> order[..k][i] == order[i] && order[i] in order[..k];
    forall u, v | u in order[..k] && v in order && v !in order[..k] ensures NoCloser(crowd[u], crowd[v]) {
      var i :| 0 <= i < k && order[i] == u;
      var j :| 0 <= j < |order| && order[j] == v;
    }
  }

  lemma Truncated(front: seq<Id>, crowd: map<Id, Crowd>, k: nat)
    requires Distinct(front) && (forall v :: v in front ==> v in crowd) && k <= |front|
    ensures var order := MostIsolated(front, crowd);
            |order| == |front| && Distinct(order[..k]) && MostKept(order[..k], front, crowd)
  {
    hide MostIsolated, Descending;
    var order := MostIsolated(front, crowd);
    SameMembers(order, front);
    OnceEach(front);
    OnceEach(order);
    MostIsolatedDescends(front, crowd);
    PrefixIsolated(order, crowd, k);
  }

  /** The crowding distance of a member of a front. */
  ghost function CrowdIn(front: seq<Id>, fit: Fitness, v: Id): Crowd
    requires Measured(front, fit) && v in front
  {
    if |front| <= 2 then Far else CrowdOf(front, fit, v, OBJECTIVES)
  }

  /** For every objective, as good as every member of the pool in it. */
  ghost predicate Elitist(archive: seq<Id>, pool: seq<Id>, fit: Fitness)
    requires Measured(archive, fit) && Measured(pool, fit)
  {
    forall i: nat, u :: i < OBJECTIVES && u in pool ==> AsGood(archive, fit, i, fit[u][i])
  }

  ghost predicate AsGood(archive: seq<Id>, fit: Fitness, i: nat, score: int)
    requires i < OBJECTIVES && Measured(archive, fit)
  {
    exists v :: v in archive && fit[v][i] >= score
  }

  /** With room for both ends of every objective, none of the infinitely far members is dropped. */
  lemma FarKept(front: seq<Id>, fit: Fitness, kept: seq<Id>, crowd: map<Id, Crowd>, v: Id)
    requires Measured(front, fit) && |front| > 2 && crowd.Keys == Members(front) && (forall u :: u in front ==> crowd[u] == CrowdOf(front, fit, u, OBJECTIVES))
    requires MostKept(kept, front, crowd) && Distinct(kept) && |kept| >= 2 * OBJECTIVES
    requires v in front && crowd[v] == Far
    ensures v in kept
  {
    if v !in kept {
      var far := Members(kept) + {v};
      forall u | u in far ensures u in front && CrowdOf(front, fit, u, OBJECTIVES) == Far {
        if u in kept { assert NoCloser(crowd[u], crowd[v]); }
      }
      hide CrowdOf;
      FarFew(front, fit, far);
      SizeIs(kept);
    }
  }

  /** The best of the pool in every objective survive the truncation. */
  lemma BestSurvive(pool: seq<Id>, fit: Fitness, rank: Level, front: seq<Id>, kept: seq<Id>, crowd: map<Id, Crowd>)
    requires Measured(pool, fit) && RanksFronts(Members(pool), fit, rank) && Measured(front, fit)
    requires forall v :: v in front <==> v in Undominated(pool, fit)
    requires crowd.Keys == Members(front) && forall u :: u in front ==> crowd[u] == CrowdIn(front, fit, u)
    requires kept == front || (|front| > 2 && MostKept(kept, front, crowd) && Distinct(kept) && |kept| >= 2 * OBJECTIVES)
    ensures Measured(kept, fit) && Elitist(kept, pool, fit)
  {
    hide RanksFronts, CrowdOf, Undominated;
    forall i: nat, u | i < OBJECTIVES && u in pool ensures AsGood(kept, fit, i, fit[u][i]) {
      var w := UndominatedAbove(pool, fit, rank, u, i);
      if kept != front {
        var best, worst := ExtremesFar(front, fit, i);
        FarKept(front, fit, kept, crowd, best);
      }
    }
  }

  // ----- the tracker -----

  /** Equal in length, and in every entry up to the tolerance. */
  predicate VectorsClose(a: seq<int>, b: seq<int>, tolerance: nat) {
    |a| == |b| && forall i :: 0 <= i < |a| ==> a[i] - b[i] <= tolerance && b[i] - a[i] <= tolerance
  }

  /** Some member's objectives are close to those of none of the earlier members. */
  ghost predicate Novel(archive: seq<Id>, before: seq<Id>, fit: Fitness, tolerance: nat)
    requires forall v :: v in archive + before ==> v in fit
  {
    exists v :: v in archive && forall u :: u in before ==> !VectorsClose(fit[v], fit[u], tolerance)
  }

  /** The survival tracker's archive. */
  class Tracker {
    const capacity: nat
    var archive: seq<Id>

    constructor (capacity: int)
      ensures archive == [] && this.capacity == if capacity > 2 then capacity else 2
    {
      this.capacity := if capacity > 2 then capacity else 2;
      archive := [];
    }

    /** An antichain without repetitions, within capacity. */
    ghost predicate Valid(fit: Fitness) reads this {
      Antichain(archive, fit) && |archive| <= capacity && Distinct(archive)
    }

    /** _merge_into_archive: the archive becomes the undominated part of the merged pool, cut to the most
        isolated members when it exceeds the capacity. Tells whether a new objective vector got in. */
    method Merge(candidates: seq<Id>, fit: Fitness, close: (Id, Id) -> bool, tolerance: nat)
      returns (novel: bool, ghost front: seq<Id>)
      requires Distinct(archive) && Measured(archive + candidates, fit) && capacity >= 2
      modifies this`archive
      ensures Valid(fit) && Measured(archive, fit)
      ensures Distinct(front) && Measured(front, fit) && Measured(Pool(old(archive), candidates, close), fit)
      ensures forall v :: v in front <==> v in Undominated(Pool(old(archive), candidates, close), fit)
      ensures |front| <= capacity ==> archive == front
      ensures |front| > capacity ==> |archive| == capacity && MostKept(archive, front, map v | v in front :: CrowdIn(front, fit, v))
      ensures |front| <= capacity || capacity >= 2 * OBJECTIVES ==> Elitist(archive, Pool(old(archive), candidates, close), fit)
      ensures forall k :: 0 <= k < |candidates| && Unreplaced(candidates[k], candidates[k + 1..], close) ==>
        Accounted(candidates[k], Pool(old(archive), candidates, close), front, archive, fit)
      ensures forall v :: v in old(archive) && Unreplaced(v, candidates, close) ==> Accounted(v, Pool(old(archive), candidates, close), front, archive, fit)
      ensures forall v :: v in archive ==> v in old(archive) || v in candidates
      ensures novel <==> Novel(archive, old(archive), fit, tolerance)
    {
      var previous := archive;
      var members := Pool(archive, candidates, close);
      PoolKeeps(archive, candidates, close);
      PoolMeasured(archive, candidates, members, fit);
      var fronts, rank := FastNonDominatedSort(members, fit);
      var frontier := if fronts == [] then [] else fronts[0];
      FrontIsUndominated(members, fit, rank, fronts);
      FrontMeasured(members, fit, frontier);
      front := frontier;
      var crowd := AssignCrowding(frontier, fit);
      hide RanksFronts, Partition, CrowdOf, Enumerates, MostIsolated, Pool, Elitist, MostKept, Undominated;
      if |frontier| > capacity {
        Truncated(frontier, crowd, capacity);
        frontier := MostIsolated(frontier, crowd)[..capacity];
      }
      archive := frontier;
      Settles(members, fit, rank, front, frontier, crowd, capacity);
      EveryoneAccounted(previous, candidates, close, front, frontier, fit);
      novel := Admitted(frontier, previous, fit, tolerance);
    }
  }

  lemma EveryoneAccounted(previous: seq<Id>, candidates: seq<Id>, close: (Id, Id) -> bool, front: seq<Id>, kept: seq<Id>, fit: Fitness)
    requires Distinct(previous) && (kept == front || |kept| < |front|)
    requires forall u :: u in front <==> u in Undominated(Pool(previous, candidates, close), fit)
    ensures forall k :: 0 <= k < |candidates| && Unreplaced(candidates[k], candidates[k + 1..], close) ==>
      Accounted(candidates[k], Pool(previous, candidates, close), front, kept, fit)
    ensures forall v :: v in previous && Unreplaced(v, candidates, close) ==> Accounted(v, Pool(previous, candidates, close), front, kept, fit)
  {
    var pool := Pool(previous, candidates, close);
    assert Enumerates(previous, Members(previous));
    hide Pool, Undominated, Unreplaced, Accounted, Enumerates, Members, Distinct;
    PoolHolds(previous, candidates, close);
    forall v | v in pool ensures Accounted(v, pool, front, kept, fit) { AllAccounted(pool, front, kept, fit, v); }
  }

  lemma PoolMeasured(archive: seq<Id>, candidates: seq<Id>, pool: seq<Id>, fit: Fitness)
    requires Measured(archive + candidates, fit) && forall v :: v in pool ==> v in archive || v in candidates
    ensures Measured(pool, fit) && Scored(Members(pool), fit)
  {
  }

  lemma FrontMeasured(pool: seq<Id>, fit: Fitness, front: seq<Id>)
    requires Measured(pool, fit) && Enumerates(front, Undominated(pool, fit))
    ensures Measured(front, fit) && Distinct(front) && forall v :: v in front <==> v in Undominated(pool, fit)
  {
  }

  lemma Settles(pool: seq<Id>, fit: Fitness, rank: Level, front: seq<Id>, kept: seq<Id>, crowd: map<Id, Crowd>, capacity: nat)
    requires Measured(pool, fit) && RanksFronts(Members(pool), fit, rank) && Measured(front, fit) && capacity >= 2
    requires forall v :: v in front <==> v in Undominated(pool, fit)
    requires crowd.Keys == Members(front) && forall u :: u in front ==> crowd[u] == CrowdIn(front, fit, u)
    requires if |front| <= capacity then kept == front else |kept| == capacity && MostKept(kept, front, crowd) && Distinct(kept)
    ensures Measured(kept, fit) && Antichain(kept, fit) && crowd == map v | v in front :: CrowdIn(front, fit, v)
    ensures |front| <= capacity || capacity >= 2 * OBJECTIVES ==> Elitist(kept, pool, fit)
  {
    hide RanksFronts, CrowdOf, Elitist, Undominated;
    FrontierValid(pool, fit, kept);
    if |front| <= capacity || capacity >= 2 * OBJECTIVES {
      BestSurvive(pool, fit, rank, front, kept, crowd);
    }
  }

  /** Whether a member of the archive is new. */
  method Admitted(archive: seq<Id>, previous: seq<Id>, fit: Fitness, tolerance: nat) returns (novel: bool)
    requires forall v :: v in archive + previous ==> v in fit
    ensures novel <==> Novel(archive, previous, fit, tolerance)
  {
    hide VectorsClose;
    for i := 0 to |archive|
      invariant forall j :: 0 <= j < i ==> exists u :: u in previous && VectorsClose(fit[archive[j]], fit[u], tolerance)
    {
      assert archive[i] in archive;
      if !exists u :: u in previous && VectorsClose(fit[archive[i]], fit[u], tolerance) {
        return true;
      }
    }
    return false;
  }

  lemma FrontierValid(members: seq<Id>, fit: Fitness, frontier: seq<Id>)
    requires forall v :: v in frontier ==> v in Undominated(members, fit)
    ensures Antichain(frontier, fit)
  {
    hide Beats;
    forall u, v | u in frontier && v in frontier ensures !Beats(fit, u, v) {
      assert u in Members(members) && u !in Beaters(Members(members), fit, v);
    }
  }
}
