/**
  The descriptor objects. One class stands for the descriptor hierarchy: a fixed name,
  a configuration (`kind`), the per-iteration matcher and seed, and IdDescriptor's
  running counter. The cohesion coordinator's class-wide state is the `SeedCoordinator`
  object passed to the calls that use it.
 */
module Descriptors {
  import opened Wrappers
  import opened JavaText
  import opened Generation
  import opened Cohesion
  import opened Production
  import opened Configuration

  /** Which base class a descriptor class extends, and so which `getNextRandom` it has. */
  datatype Base = EntityBase | DataItemBase | CohesiveBase

  function BaseOf(k: Kind): Base {
    match k
    case StaticValue(_, _) => EntityBase
    case EmptyString => EntityBase
    case Email(_) => CohesiveBase
    case _ => DataItemBase
  }

  /** `getClass().getSimpleName()`. */
  function ClassName(k: Kind): string {
    match k
    case Id(_, _, _) => "IdDescriptor"
    case Boolean(_) => "BooleanDescriptor"
    case Integer(_, _) => "IntegerDescriptor"
    case EnumValues(_) => "EnumValuesDescriptor"
    case StaticValue(_, _) => "StaticValueDescriptor"
    case FileContent(_, _) => "FileContentDescriptor"
    case EmptyString => "EmptyDescriptor"
    case Email(_) => "EmailDescriptor"
  }

  /** The seed of DataItemDescriptor's per-call generator: `randomSeed + getSimpleName().hashCode()` in long arithmetic. */
  function ItemSeed(seed: Int64, k: Kind): Int64 {
    Wrap64(seed + JavaHashCode(ClassName(k)))
  }

  /** EnumValuesDescriptor's scan of the keys in insertion order, returning at the first threshold above the draw. */
  method ChooseEnumValue(buckets: seq<Bucket>, draw: int, policy: NullHandler) returns (v: Option<string>)
    ensures v == EnumText(buckets, draw, policy)
  {
    for i := 0 to |buckets|
      invariant SelectBucket(buckets, draw) == SelectFrom(buckets, draw, i)
    {
      if draw < buckets[i].threshold {
        return Some(Quote(buckets[i].choice));
      }
    }
    return NullValue(policy);
  }

  class Descriptor {
    const name: string
    var kind: Kind
    var currentMatch: Option<Match>
    var randomSeed: Option<Int64>
    var currentId: Int32

    /**
      A descriptor with its configuration and no iteration state. The running counter is
      not part of the configuration and so starts at 0 whatever the starting id.
     */
    constructor (name: string, kind: Kind)
      ensures this.name == name && State() == DescriptorState(kind, None, None, 0)
    {
      this.name := name;
      this.kind := kind;
      currentMatch := None;
      randomSeed := None;
      currentId := 0;
    }

    function State(): DescriptorState
      reads this
    {
      DescriptorState(kind, currentMatch, randomSeed, currentId)
    }

    /** Stores the matcher and the seed of the iteration and returns this same descriptor. */
    method SetIterationState(m: Match, seed: Int64) returns (self: Descriptor)
      modifies this
      ensures self == this
      ensures State() == old(State()).(currentMatch := Some(m), randomSeed := Some(seed))
    {
      currentMatch := Some(m);
      randomSeed := Some(seed);
      self := this;
    }

    function GetCurrentMatcherState(): Option<Match>
      reads this
    {
      currentMatch
    }

    /**
      `getNextRandom(maxExclusive)` of the descriptor's base class: the descriptor's own
      generator (entity base), the iteration seed when one is set (data-item base), or the
      coordinator's shared seed (cohesive base).
     */
    method GetNextRandom(maxExclusive: Int32, e: Entropy, coord: SeedCoordinator, seeded: SeededDraw) returns (r: Int32)
      requires 0 < maxExclusive
      modifies coord
      ensures 0 <= r < maxExclusive
      ensures BaseOf(kind) != CohesiveBase ==> coord.State() == old(coord.State())
      ensures BaseOf(kind) == EntityBase ==> r == e.nextInt(maxExclusive)
      ensures BaseOf(kind) == DataItemBase && randomSeed.Some? ==> r == seeded(ItemSeed(randomSeed.value, kind), maxExclusive)
      ensures BaseOf(kind) == DataItemBase && randomSeed.None? ==> r == e.nextInt(maxExclusive)
      ensures BaseOf(kind) == CohesiveBase ==>
        coord.State() == Step(old(coord.State()), EmailKind, e.freshSeed) && r == seeded(coord.GetRandomSeed(), maxExclusive)
    {
      match BaseOf(kind)
      case EntityBase =>
        r := e.nextInt(maxExclusive);
      case DataItemBase =>
        if randomSeed.Some? {
          r := seeded(ItemSeed(randomSeed.value, kind), maxExclusive);
        } else {
          r := e.nextInt(maxExclusive);
        }
      case CohesiveBase =>
        r := coord.GetNextRandom(EmailKind, maxExclusive, e.freshSeed, seeded);
    }

    /** `getNextValue(policy)`: the value, the descriptor's new state and the coordinator's new state are those of `Produce`. */
    method GetNextValue(policy: NullHandler, e: Entropy, coord: SeedCoordinator, env: Env) returns (v: Option<string>)
      requires Producible(State())
      modifies this, coord
      ensures var p := Produce(old(State()), policy, e, old(coord.State()), env);
              v == p.value && State() == p.next && coord.State() == p.coord
    {
      match kind
      case Id(idType, _, isString) =>
        if idType == Incrementing {
          v := Some(IncrementingText(isString, currentId));
          currentId := Inc32(currentId);
        } else {
          v := Some(Quote(e.guid));
        }
      case Boolean(percentTrue) =>
        var checkPercentage := e.nextInt(100);
        v := Some(BooleanText(percentTrue, checkPercentage));
      case Integer(lo, hi) =>
        var draw := e.nextInt(IntegerSpan(lo, hi));
        v := Some(IntToDecimal(IntegerValue(lo, hi, draw)));
      case EnumValues(buckets) =>
        var itemRandom := e.nextInt(100);
        v := ChooseEnumValue(buckets, itemRandom, policy);
      case StaticValue(value, valueIsString) =>
        v := Some(StaticText(value, valueIsString));
      case FileContent(index, isString) =>
        v := FileContentText(index, isString, currentMatch.value, policy);
      case EmptyString =>
        v := Some(EMPTY_TEXT);
      case Email(domain) =>
        var tracked := GetNextRandom(MAX_INT, e, coord, env.seeded);
        v := Some(EmailText(domain, coord.GetRandomSeed(), env));
    }

    // ------------------------------------------------------------ obtainConfiguration

    /**
      IdDescriptor: the chosen id type; for incrementing ids, the first starting-id answer
      that parses (blank meaning 1) becomes both the starting id and the running counter.
     */
    method ObtainIdConfiguration(idType: IdType, answers: seq<string>, isString: bool)
      requires kind.Id?
      requires idType == Incrementing ==> FirstStartingId(answers).Some?
      modifies this
      ensures idType == Guid ==> State() == old(State()).(kind := old(kind).(idType := Guid))
      ensures idType == Incrementing ==>
        var start := StartingIdAnswer(answers[FirstStartingId(answers).value]).value;
        State() == old(State()).(kind := Id(Incrementing, start, isString), currentId := start)
    {
      if idType == Incrementing {
        var i := 0;
        while StartingIdAnswer(answers[i]).None?
          invariant 0 <= i <= FirstStartingId(answers).value
          decreases FirstStartingId(answers).value - i
        {
          i := i + 1;
        }
        var start := StartingIdAnswer(answers[i]).value;
        kind := Id(Incrementing, start, isString);
        currentId := start;
      } else {
        kind := kind.(idType := Guid);
      }
    }

    /**
      BooleanDescriptor: the first percentage answer the prompt accepts, a blank answer
      meaning the default 50.
     */
    method ObtainBooleanConfiguration(answers: seq<string>)
      requires kind.Boolean? && FirstPercentage(answers, DEFAULT_PERCENT_TRUE).Some?
      modifies this
      ensures State() == old(State()).(kind := Boolean(PercentageAnswer(answers[FirstPercentage(answers, DEFAULT_PERCENT_TRUE).value], DEFAULT_PERCENT_TRUE).value))
      ensures 0 < kind.percentTrue <= 100
      ensures IsBlank(answers[0]) ==> kind == Boolean(DEFAULT_PERCENT_TRUE)
    {
      var i := 0;
      while PercentageAnswer(answers[i], DEFAULT_PERCENT_TRUE).None?
        invariant 0 <= i <= FirstPercentage(answers, DEFAULT_PERCENT_TRUE).value
        decreases FirstPercentage(answers, DEFAULT_PERCENT_TRUE).value - i
      {
        i := i + 1;
      }
      kind := Boolean(PercentageAnswer(answers[i], DEFAULT_PERCENT_TRUE).value);
    }

    /** IntegerDescriptor: the first answered (minimum, maximum) pair with minimum <= maximum. */
    method ObtainIntegerConfiguration(answers: seq<(Int32, Int32)>)
      requires kind.Integer? && FirstOrderedRange(answers).Some?
      modifies this
      ensures var k := FirstOrderedRange(answers).value;
              State() == old(State()).(kind := Integer(answers[k].0, answers[k].1))
      ensures kind.minValue <= kind.maxValue
    {
      var i := 0;
      while answers[i].0 > answers[i].1
        invariant 0 <= i <= FirstOrderedRange(answers).value
        decreases FirstOrderedRange(answers).value - i
      {
        i := i + 1;
      }
      kind := Integer(answers[i].0, answers[i].1);
    }

    /**
      EnumValuesDescriptor: the accumulation loop. The total restarts at 0 while the map
      keeps whatever entries it had.
     */
    method ObtainEnumConfiguration(entries: seq<EnumEntry>)
      requires kind.EnumValues?
      modifies this
      ensures State() == old(State()).(kind := EnumValues(Accumulate(Accumulator(old(kind).buckets, 0), entries).acc.buckets))
    {
      var total := 0;
      var buckets := kind.buckets;
      var i := 0;
      while total != 100 && i < |entries|
        invariant 0 <= i <= |entries|
        invariant Accumulate(Accumulator(buckets, total), entries[i..]).acc == Accumulate(Accumulator(old(kind).buckets, 0), entries).acc
        decreases |entries| - i
      {
        var e := entries[i];
        if IsBlank(e.item) {
          break;
        }
        assert entries[i..][1..] == entries[i + 1..];
        i := i + 1;
        if e.percentage <= 0 || e.percentage > 100 {
          continue;
        }
        total := total + e.percentage;
        if total > 100 {
          total := 0;
          buckets := [];
          continue;
        }
        buckets := Put(buckets, e.item, total);
      }
      kind := EnumValues(buckets);
    }

    /** StaticValueDescriptor: a non-blank literal, a string unless the answer is n or N (blank meaning Y). */
    method ObtainStaticConfiguration(value: string, answer: string)
      requires kind.StaticValue? && !IsBlank(value) && IsYesNo(WithDefault(answer, DEFAULT_STATIC_IS_STRING))
      modifies this
      ensures State() == old(State()).(kind := StaticValue(value, IsYes(WithDefault(answer, DEFAULT_STATIC_IS_STRING))))
    {
      kind := StaticValue(value, IsYes(WithDefault(answer, DEFAULT_STATIC_IS_STRING)));
    }

    /** FileContentDescriptor: the group index as answered, and whether the group is a string. */
    method ObtainFileContentConfiguration(index: Int32, answer: string)
      requires kind.FileContent? && IsYesNo(answer)
      modifies this
      ensures State() == old(State()).(kind := FileContent(index, IsYes(answer)))
    {
      kind := FileContent(index, IsYes(answer));
    }

    /** EmailDescriptor: the domain, blank meaning mailinator.com. */
    method ObtainEmailConfiguration(answer: string)
      requires kind.Email?
      modifies this
      ensures State() == old(State()).(kind := Email(WithDefault(answer, DEFAULT_EMAIL_DOMAIN)))
    {
      kind := Email(WithDefault(answer, DEFAULT_EMAIL_DOMAIN));
    }

    /** EmptyDescriptor: nothing to configure. */
    method ObtainEmptyConfiguration()
      requires kind.EmptyString?
      ensures State() == old(State())
    {
    }
  }
}
