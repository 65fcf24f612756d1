/**
  The cohesion seed coordinator (AbstractCohesiveDataDescriptor): one process-wide set of
  descriptor kinds seen in the current record and one shared seed. A kind that registers
  a second time starts a new record: the seed is replaced and the window holds that kind
  alone. First name, last name and email drawn in one record therefore share a seed.
 */
module Cohesion {
  import opened JavaText
  import opened Generation
  import opened Sequences

  /** The classes that extend AbstractCohesiveDataDescriptor; the coordinator tracks classes, not instances. */
  datatype CohesiveKind = FirstNameKind | LastNameKind | EmailKind

  /** `inProcessClasses` and `randomSeed`. */
  datatype CoordState = CoordState(seen: set<CohesiveKind>, seed: Int64)

  /** The state change of one `getNextRandom` by kind `k`, `freshSeed` standing for `new Random().nextLong()`. */
  function Step(c: CoordState, k: CohesiveKind, freshSeed: Int64): CoordState {
    if k in c.seen then CoordState({k}, freshSeed) else CoordState(c.seen + {k}, c.seed)
  }

  /** The seeds a sequence of registrations observes (each after its own step), and the final state. */
  datatype RunResult = RunResult(observed: seq<Int64>, final: CoordState)

  function Run(c: CoordState, kinds: seq<CohesiveKind>, reseeds: seq<Int64>): (r: RunResult)
    requires |reseeds| == |kinds|
    ensures |r.observed| == |kinds|
    decreases |kinds|
  {
    if |kinds| == 0 then RunResult([], c)
    else
      var c' := Step(c, kinds[0], reseeds[0]);
      var rest := Run(c', kinds[1..], reseeds[1..]);
      RunResult([c'.seed] + rest.observed, rest.final)
  }

  function Kinds(kinds: seq<CohesiveKind>): set<CohesiveKind> {
    set i | 0 <= i < |kinds| :: kinds[i]
  }

  /** One record: distinct kinds, none of them in the window yet, all observe the current seed and join the window. */
  lemma {:induction false} OneRecordSharesSeed(c: CoordState, kinds: seq<CohesiveKind>, reseeds: seq<Int64>)
    requires |reseeds| == |kinds| && Distinct(kinds)
    requires forall i :: 0 <= i < |kinds| ==> kinds[i] !in c.seen
    ensures forall i :: 0 <= i < |kinds| ==> Run(c, kinds, reseeds).observed[i] == c.seed
    ensures Run(c, kinds, reseeds).final == CoordState(c.seen + Kinds(kinds), c.seed)
    decreases |kinds|
  {
    if |kinds| > 0 {
      var c' := Step(c, kinds[0], reseeds[0]);
      assert c' == CoordState(c.seen + {kinds[0]}, c.seed);
      forall i | 0 <= i < |kinds| - 1 ensures kinds[1..][i] !in c'.seen {
        assert kinds[1..][i] == kinds[i + 1] != kinds[0];
      }
      OneRecordSharesSeed(c', kinds[1..], reseeds[1..]);
      assert Kinds(kinds) == {kinds[0]} + Kinds(kinds[1..]) by {
        forall k | k in Kinds(kinds) ensures k in {kinds[0]} + Kinds(kinds[1..]) {
          var i :| 0 <= i < |kinds| && kinds[i] == k;
          if i > 0 { assert kinds[1..][i - 1] == k; }
        }
      }
    }
  }

  /** After `reset`, the three cohesive kinds in any order observe the seed the coordinator already held. */
  lemma AfterResetAnyOrderSharesSeed(seed: Int64, kinds: seq<CohesiveKind>, reseeds: seq<Int64>)
    requires |reseeds| == |kinds| && Distinct(kinds)
    ensures forall i :: 0 <= i < |kinds| ==> Run(CoordState({}, seed), kinds, reseeds).observed[i] == seed
  {
    OneRecordSharesSeed(CoordState({}, seed), kinds, reseeds);
  }

  /** The same kind registering twice in a row: the second registration is preceded by a reseed. */
  lemma RepeatedKindReseeds(c: CoordState, k: CohesiveKind, first: Int64, second: Int64)
    ensures Run(c, [k, k], [first, second]).observed[1] == second
    ensures Run(c, [k, k], [first, second]).final == CoordState({k}, second)
  {
    assert [k, k][1..] == [k] && [k][1..] == [];
    assert [first, second][1..] == [second] && [second][1..] == [];
    var c1 := Step(c, k, first);
    assert k in c1.seen;
    assert Run(c1, [k], [second]) == RunResult([second], CoordState({k}, second));
  }

  /**
    A record that repeats the kinds of the previous one: its first registration reseeds,
    and all of its registrations observe that reseeds seed.
   */
  lemma NextRecordSharesFreshSeed(c: CoordState, kinds: seq<CohesiveKind>, reseeds: seq<Int64>)
    requires |reseeds| == |kinds| && |kinds| > 0 && Distinct(kinds)
    requires c.seen == Kinds(kinds)
    ensures forall i :: 0 <= i < |kinds| ==> Run(c, kinds, reseeds).observed[i] == reseeds[0]
    ensures Run(c, kinds, reseeds).final == CoordState(Kinds(kinds), reseeds[0])
  {
    assert kinds[0] in Kinds(kinds);
    var c' := Step(c, kinds[0], reseeds[0]);
    assert c' == CoordState({kinds[0]}, reseeds[0]);
    forall i | 0 <= i < |kinds| - 1 ensures kinds[1..][i] !in c'.seen {
      assert kinds[1..][i] == kinds[i + 1] != kinds[0];
    }
    OneRecordSharesSeed(c', kinds[1..], reseeds[1..]);
    assert Kinds(kinds) == {kinds[0]} + Kinds(kinds[1..]) by {
      forall k | k in Kinds(kinds) ensures k in {kinds[0]} + Kinds(kinds[1..]) {
        var i :| 0 <= i < |kinds| && kinds[i] == k;
        if i > 0 { assert kinds[1..][i - 1] == k; }
      }
    }
  }

  /** Several records, each a run of registrations with its own reseeds seeds. */
  function RunRecords(c: CoordState, records: seq<seq<CohesiveKind>>, reseeds: seq<seq<Int64>>): (r: seq<seq<Int64>>)
    requires |reseeds| == |records| && forall n :: 0 <= n < |records| ==> |reseeds[n]| == |records[n]|
    ensures |r| == |records| && forall n :: 0 <= n < |records| ==> |r[n]| == |records[n]|
    decreases |records|
  {
    if |records| == 0 then []
    else
      var first := Run(c, records[0], reseeds[0]);
      [first.observed] + RunRecords(first.final, records[1..], reseeds[1..])
  }

  /**
    Records that each hold the same distinct kinds, after a reset: every registration of the
    first record observes the existing seed, and every registration of a later record observes
    the reseeds seed drawn at that record's first registration. Within a record all fields agree;
    between records the seed changes.
   */
  lemma {:induction false} RecordsAreCohesive(c: CoordState, records: seq<seq<CohesiveKind>>, reseeds: seq<seq<Int64>>, kinds: seq<CohesiveKind>)
    requires |kinds| > 0 && Distinct(kinds)
    requires c.seen == {} || c.seen == Kinds(kinds)
    requires |reseeds| == |records| && forall n :: 0 <= n < |records| ==> records[n] == kinds && |reseeds[n]| == |kinds|
    ensures forall n, i :: 0 <= n < |records| && 0 <= i < |kinds| ==>
      RunRecords(c, records, reseeds)[n][i] == if n == 0 && c.seen == {} then c.seed else reseeds[n][0]
    decreases |records|
  {
    if |records| > 0 {
      var first := Run(c, kinds, reseeds[0]);
      if c.seen == {} {
        OneRecordSharesSeed(c, kinds, reseeds[0]);
      } else {
        NextRecordSharesFreshSeed(c, kinds, reseeds[0]);
      }
      assert first.final.seen == Kinds(kinds);
      RecordsAreCohesive(first.final, records[1..], reseeds[1..], kinds);
      assert Kinds(kinds) != {} by { assert kinds[0] in Kinds(kinds); }
      forall n, i | 0 <= n < |records| && 0 <= i < |kinds|
        ensures RunRecords(c, records, reseeds)[n][i] == if n == 0 && c.seen == {} then c.seed else reseeds[n][0]
      {
        if n > 0 {
          assert RunRecords(c, records, reseeds)[n] == RunRecords(first.final, records[1..], reseeds[1..])[n - 1];
          assert reseeds[1..][n - 1] == reseeds[n];
        }
      }
    }
  }

  /** The static state of AbstractCohesiveDataDescriptor, passed explicitly to every cohesive production. */
  class SeedCoordinator {
    var inProcessKinds: set<CohesiveKind>
    var randomSeed: Int64

    /** Class initialisation: no kind seen yet, `initialSeed` standing for `new Random().nextLong()`. */
    constructor (initialSeed: Int64)
      ensures inProcessKinds == {} && randomSeed == initialSeed
    {
      inProcessKinds := {};
      randomSeed := initialSeed;
    }

    function State(): CoordState
      reads this
    {
      CoordState(inProcessKinds, randomSeed)
    }

    /** `getRandomSeed`: the shared seed as it stands. */
    function GetRandomSeed(): Int64
      reads this
    {
      randomSeed
    }

    /** `reset`: empties the window and keeps the seed. */
    method Reset()
      modifies this
      ensures inProcessKinds == {} && randomSeed == old(randomSeed)
    {
      inProcessKinds := {};
    }

    /** `getNextRandom(maxExclusive)` by a descriptor of kind `k`. */
    method GetNextRandom(k: CohesiveKind, maxExclusive: Int32, freshSeed: Int64, seeded: SeededDraw) returns (r: Int32)
      requires 0 < maxExclusive
      modifies this
      ensures State() == Step(old(State()), k, freshSeed)
      ensures k in inProcessKinds
      ensures k !in old(inProcessKinds) ==> randomSeed == old(randomSeed) && inProcessKinds == old(inProcessKinds) + {k}
      ensures k in old(inProcessKinds) ==> randomSeed == freshSeed && inProcessKinds == {k}
      ensures 0 <= r < maxExclusive && r == seeded(randomSeed, maxExclusive)
    {
      if k in inProcessKinds {
        randomSeed := freshSeed;
        inProcessKinds := {};
      }
      inProcessKinds := inProcessKinds + {k};
      r := seeded(randomSeed, maxExclusive);
    }
  }
}
