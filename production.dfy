/**
  The descriptors' value rules. Each descriptor class of the generator is one variant of
  `Kind`; `Produce` is `getNextValue` as a state transition over the descriptor's mutable
  fields and the cohesion coordinator, with its randomness passed in.
 */
module Production {
  import opened Wrappers
  import opened JavaText
  import opened Generation
  import opened Cohesion
  import opened Sequences

  datatype IdType = Incrementing | Guid

  /** One entry of EnumValuesDescriptor's LinkedHashMap: a label and its cumulative percentage threshold. */
  datatype Bucket = Bucket(choice: string, threshold: int)

  /** The configuration of each descriptor class. */
  datatype Kind =
    | Id(idType: IdType, startingId: Int32, idIsString: bool)
    | Boolean(percentTrue: Int32)
    | Integer(minValue: Int32, maxValue: Int32)
    | EnumValues(buckets: seq<Bucket>)
    | StaticValue(value: string, valueIsString: bool)
    | FileContent(fieldFromContent: Int32, isString: bool)
    | EmptyString
    | Email(domain: string)

  /**
    Everything a production reads or changes in a descriptor: the configuration, the
    per-iteration matcher and seed, and IdDescriptor's running counter.
   */
  datatype DescriptorState = DescriptorState(kind: Kind, currentMatch: Option<Match>, randomSeed: Option<Int64>, currentId: Int32)

  /** The absent value under a null policy: null for AS_NULL, "" for EMPTY. */
  function NullValue(policy: NullHandler): Option<string> {
    if policy == AsNull then None else Some("")
  }

  // ---------------------------------------------------------------- IdDescriptor

  /** `String.valueOf(counter)`, wrapped in double quotes when the id is a string. */
  function IncrementingText(isString: bool, counter: Int32): string {
    var d := IntToDecimal(counter);
    if isString then Quote(d) else d
  }

  /** An incrementing id's text reads back as its counter: bare, or between the double quotes. */
  lemma IncrementingTextParses(isString: bool, counter: Int32)
    ensures var r := IncrementingText(isString, counter);
            !isString ==> ParseInt32(r) == Some(counter)
    ensures var r := IncrementingText(isString, counter);
            isString ==> |r| >= 2 && r == Quote(r[1..|r| - 1]) && ParseInt32(r[1..|r| - 1]) == Some(counter)
  {
    ParseRendered(counter);
    var d := IntToDecimal(counter);
    assert Quote(d)[1..|d| + 1] == d;
  }

  function IdText(idType: IdType, isString: bool, counter: Int32, guid: string): string {
    match idType
    case Incrementing => IncrementingText(isString, counter)
    case Guid => Quote(guid)
  }

  /** `incrementingCurrentId++` for incrementing ids; GUIDs leave the counter alone. */
  function IdAfter(idType: IdType, counter: Int32): Int32 {
    if idType == Incrementing then Inc32(counter) else counter
  }

  // ---------------------------------------------------------------- BooleanDescriptor

  const DEFAULT_PERCENT_TRUE: Int32 := 50

  /** `Boolean.toString(checkPercentage < percentTrue)` for the draw `checkPercentage` in [0, 100). */
  function BooleanText(percentTrue: int, draw: int): (r: string)
    ensures r == "true" || r == "false"
    ensures r == "true" <==> draw < percentTrue
  {
    if draw < percentTrue then "true" else "false"
  }

  /** How many of the draws 0 .. n-1 yield "true". */
  function TrueDraws(percentTrue: int, n: nat): nat
    decreases n
  {
    if n == 0 then 0 else TrueDraws(percentTrue, n - 1) + (if BooleanText(percentTrue, n - 1) == "true" then 1 else 0)
  }

  lemma {:induction false} TrueDrawsCount(percentTrue: int, n: nat)
    requires 0 <= percentTrue
    ensures TrueDraws(percentTrue, n) == if percentTrue < n then percentTrue else n
    decreases n
  {
    if n > 0 {
      TrueDrawsCount(percentTrue, n - 1);
    }
  }

  /** Of the 100 equally likely draws, exactly `percentTrue` yield "true". */
  lemma PercentTrueIsItsWeight(percentTrue: int)
    requires 0 <= percentTrue <= 100
    ensures TrueDraws(percentTrue, 100) == percentTrue
  {
    TrueDrawsCount(percentTrue, 100);
  }

  // ---------------------------------------------------------------- IntegerDescriptor

  /** `maxValue - minValue` in int arithmetic: the bound handed to `nextInt`. */
  function IntegerSpan(minValue: Int32, maxValue: Int32): Int32 {
    Wrap32(maxValue - minValue)
  }

  /**
    Configuration accepts every `minValue <= maxValue`, but `nextInt` needs a positive
    bound: the accepted ranges that can produce a value are exactly those with
    `minValue < maxValue` whose width fits an int.
   */
  lemma AcceptedRangeProducible(minValue: Int32, maxValue: Int32)
    requires minValue <= maxValue
    ensures 0 < IntegerSpan(minValue, maxValue) <==> minValue < maxValue && maxValue - minValue <= MAX_INT
    ensures maxValue - minValue <= MAX_INT ==> IntegerSpan(minValue, maxValue) == maxValue - minValue
  {
    var w := maxValue - minValue;
    if w > MAX_INT {
      WrapUnique(w, w - INT_RANGE, 1);
    }
  }

  /** `minValue + random.nextInt(maxValue - minValue)`, in int arithmetic. */
  function IntegerValue(minValue: Int32, maxValue: Int32, draw: int): (v: Int32)
    requires 0 < IntegerSpan(minValue, maxValue) && 0 <= draw < IntegerSpan(minValue, maxValue)
    ensures minValue <= maxValue ==> minValue <= v < maxValue && v == minValue + draw
  {
    if minValue <= maxValue then
      AcceptedRangeProducible(minValue, maxValue);
      Wrap32(minValue + draw)
    else
      Wrap32(minValue + draw)
  }

  // ---------------------------------------------------------------- EnumValuesDescriptor

  /** The first bucket at or after position `i`, in insertion order, whose threshold exceeds the draw. */
  function SelectFrom(buckets: seq<Bucket>, draw: int, i: nat): (r: Option<nat>)
    requires i <= |buckets|
    ensures r.Some? ==> i <= r.value < |buckets| && draw < buckets[r.value].threshold
    ensures r.Some? ==> forall k :: i <= k < r.value ==> buckets[k].threshold <= draw
    ensures r.None? ==> forall k :: i <= k < |buckets| ==> buckets[k].threshold <= draw
    decreases |buckets| - i
  {
    if i == |buckets| then None
    else if draw < buckets[i].threshold then Some(i)
    else SelectFrom(buckets, draw, i + 1)
  }

  function SelectBucket(buckets: seq<Bucket>, draw: int): Option<nat> {
    SelectFrom(buckets, draw, 0)
  }

  /** The quoted label of the selected bucket, or the null policy's value when the draw falls past every bucket. */
  function EnumText(buckets: seq<Bucket>, draw: int, policy: NullHandler): Option<string> {
    match SelectBucket(buckets, draw)
    case Some(i) => Some(Quote(buckets[i].choice))
    case None => NullValue(policy)
  }

  /** Thresholds strictly increasing in insertion order, starting above 0. */
  predicate Increasing(buckets: seq<Bucket>) {
    (|buckets| > 0 ==> 0 < buckets[0].threshold)
    && forall i, j :: 0 <= i < j < |buckets| ==> buckets[i].threshold < buckets[j].threshold
  }

  /** The threshold below which bucket `i`'s draws start: the previous bucket's threshold. */
  function Lower(buckets: seq<Bucket>, i: nat): int
    requires i < |buckets|
  {
    if i == 0 then 0 else buckets[i - 1].threshold
  }

  /** With increasing thresholds, bucket `i` is chosen exactly for the draws in [Lower(i), threshold(i)). */
  lemma BucketInterval(buckets: seq<Bucket>, draw: int, i: nat)
    requires Increasing(buckets) && i < |buckets| && 0 <= draw
    ensures SelectBucket(buckets, draw) == Some(i) <==> Lower(buckets, i) <= draw < buckets[i].threshold
  {
  }

  /** How many of the draws 0 .. n-1 choose bucket `i`. */
  function SelectingDraws(buckets: seq<Bucket>, i: nat, n: nat): nat
    decreases n
  {
    if n == 0 then 0 else SelectingDraws(buckets, i, n - 1) + (if SelectBucket(buckets, n - 1) == Some(i) then 1 else 0)
  }

  lemma {:induction false} SelectingDrawsCount(buckets: seq<Bucket>, i: nat, n: nat)
    requires Increasing(buckets) && i < |buckets|
    ensures SelectingDraws(buckets, i, n) ==
      (if n < buckets[i].threshold then n else buckets[i].threshold) - (if n < Lower(buckets, i) then n else Lower(buckets, i))
    decreases n
  {
    if n > 0 {
      SelectingDrawsCount(buckets, i, n - 1);
      BucketInterval(buckets, n - 1, i);
    }
  }

  /**
    With increasing thresholds within 100, of the 100 equally likely draws exactly the
    bucket's own percentage (its threshold minus the previous one) choose its label.
   */
  lemma BucketWeight(buckets: seq<Bucket>, i: nat)
    requires Increasing(buckets) && i < |buckets| && buckets[|buckets| - 1].threshold <= 100
    ensures SelectingDraws(buckets, i, 100) == buckets[i].threshold - Lower(buckets, i)
  {
    SelectingDrawsCount(buckets, i, 100);
  }

  // ---------------------------------------------------------------- Static, FileContent, Empty, Email

  /** StaticValueDescriptor: the literal, wrapped in double quotes when it is a string. */
  function StaticText(value: string, valueIsString: bool): string {
    if valueIsString then Quote(value) else value
  }

  /** FileContentDescriptor: the match's group at `index`; an absent group follows the null policy. */
  function FileContentText(index: Int32, isString: bool, m: Match, policy: NullHandler): Option<string>
    requires 0 <= index < |m|
  {
    match m[index]
    case None => NullValue(policy)
    case Some(g) => Some(if isString then Quote(g) else g)
  }

  /** EmptyDescriptor: the JSON empty string literal, two double quotes. */
  const EMPTY_TEXT: string := "\"\""

  /** EmailDescriptor: first letter of the seeded first name, the seeded last name, `@`, the domain, quoted. */
  function EmailText(domain: string, seed: Int64, env: Env): string {
    Quote([env.firstName(seed)[0]] + env.lastName(seed) + "@" + domain)
  }

  // ---------------------------------------------------------------- getNextValue

  /** The cases where Java's getNextValue throws: `nextInt` with a bound <= 0, `group` with a null matcher or a bad index. */
  predicate Producible(d: DescriptorState) {
    match d.kind
    case Integer(lo, hi) => 0 < IntegerSpan(lo, hi)
    case FileContent(index, _) => d.currentMatch.Some? && 0 <= index < |d.currentMatch.value|
    case _ => true
  }

  datatype Production = Production(value: Option<string>, next: DescriptorState, coord: CoordState)

  /** `getNextValue(policy)`: the value, the descriptor's new state and the coordinator's new state. */
  function Produce(d: DescriptorState, policy: NullHandler, e: Entropy, c: CoordState, env: Env): (p: Production)
    requires Producible(d)
    ensures p.next.kind == d.kind && p.next.currentMatch == d.currentMatch && p.next.randomSeed == d.randomSeed
    ensures p.value.None? ==> policy == AsNull && (d.kind.EnumValues? || d.kind.FileContent?)
    ensures !d.kind.Email? ==> p.coord == c
    ensures !(d.kind.Id? && d.kind.idType == Incrementing) ==> p.next.currentId == d.currentId
    ensures d.kind.Email? ==> p.coord == Step(c, EmailKind, e.freshSeed) && p.value == Some(EmailText(d.kind.domain, p.coord.seed, env))
  {
    match d.kind
    case Id(idType, _, isString) =>
      Production(Some(IdText(idType, isString, d.currentId, e.guid)), d.(currentId := IdAfter(idType, d.currentId)), c)
    case Boolean(percentTrue) =>
      Production(Some(BooleanText(percentTrue, e.nextInt(100))), d, c)
    case Integer(lo, hi) =>
      Production(Some(IntToDecimal(IntegerValue(lo, hi, e.nextInt(IntegerSpan(lo, hi))))), d, c)
    case EnumValues(buckets) =>
      Production(EnumText(buckets, e.nextInt(100), policy), d, c)
    case StaticValue(value, valueIsString) =>
      Production(Some(StaticText(value, valueIsString)), d, c)
    case FileContent(index, isString) =>
      Production(FileContentText(index, isString, d.currentMatch.value, policy), d, c)
    case EmptyString =>
      Production(Some(EMPTY_TEXT), d, c)
    case Email(domain) =>
      var c' := Step(c, EmailKind, e.freshSeed);
      Production(Some(EmailText(domain, c'.seed, env)), d, c')
  }

  /** Consecutive productions by one descriptor, one entropy record each. */
  datatype Series = Series(values: seq<Option<string>>, final: DescriptorState, coord: CoordState)

  function ProduceSeries(d: DescriptorState, policy: NullHandler, es: seq<Entropy>, c: CoordState, env: Env): (s: Series)
    requires Producible(d)
    ensures |s.values| == |es|
    ensures s.final.kind == d.kind && s.final.currentMatch == d.currentMatch && s.final.randomSeed == d.randomSeed
    decreases |es|
  {
    if |es| == 0 then Series([], d, c)
    else
      var p := Produce(d, policy, es[0], c, env);
      var rest := ProduceSeries(p.next, policy, es[1..], p.coord, env);
      Series([p.value] + rest.values, rest.final, rest.coord)
  }

  /**
    An incrementing id yields its current counter, then the counter incremented once, and
    so on: the k-th production (from 0) renders the counter incremented k times, and n
    productions leave it incremented n times.
   */
  lemma {:induction false} IncrementingIds(d: DescriptorState, policy: NullHandler, es: seq<Entropy>, c: CoordState, env: Env, k: nat)
    requires d.kind.Id? && d.kind.idType == Incrementing && k < |es|
    ensures ProduceSeries(d, policy, es, c, env).values[k] == Some(IncrementingText(d.kind.idIsString, Advanced(d.currentId, k)))
    decreases |es|
  {
    var p := Produce(d, policy, es[0], c, env);
    var rest := ProduceSeries(p.next, policy, es[1..], p.coord, env);
    assert ProduceSeries(d, policy, es, c, env).values == [p.value] + rest.values;
    if k > 0 {
      IncrementingIds(p.next, policy, es[1..], p.coord, env, k - 1);
    }
  }

  lemma {:induction false} IncrementingIdsAdvance(d: DescriptorState, policy: NullHandler, es: seq<Entropy>, c: CoordState, env: Env)
    requires d.kind.Id? && d.kind.idType == Incrementing
    ensures ProduceSeries(d, policy, es, c, env).final.currentId == Advanced(d.currentId, |es|)
    decreases |es|
  {
    if |es| > 0 {
      var p := Produce(d, policy, es[0], c, env);
      IncrementingIdsAdvance(p.next, policy, es[1..], p.coord, env);
    }
  }

  /** Started at s, the n-th production (counting from 1) renders s + n - 1 in int arithmetic. */
  lemma NthIncrementingId(d: DescriptorState, policy: NullHandler, es: seq<Entropy>, c: CoordState, env: Env, n: nat)
    requires d.kind.Id? && d.kind.idType == Incrementing && 1 <= n <= |es|
    ensures ProduceSeries(d, policy, es, c, env).values[n - 1] == Some(IncrementingText(d.kind.idIsString, Wrap32(d.currentId + (n - 1))))
  {
    var x, k := d.currentId, n - 1;
    IncrementingIds(d, policy, es, c, env, k);
    AdvancedIsWrap(x, k);
    assert Advanced(x, k) == Wrap32(x + k);
  }

  /** While s + n - 1 fits an int, the n-th production renders s + n - 1 itself. */
  lemma NthIncrementingIdFits(d: DescriptorState, policy: NullHandler, es: seq<Entropy>, c: CoordState, env: Env, n: nat)
    requires d.kind.Id? && d.kind.idType == Incrementing && 1 <= n <= |es| && d.currentId + (n - 1) <= MAX_INT
    ensures ProduceSeries(d, policy, es, c, env).values[n - 1] == Some(IncrementingText(d.kind.idIsString, d.currentId + (n - 1)))
  {
    NthIncrementingId(d, policy, es, c, env, n);
  }

  /** Two email productions in a row: the second reseeds, and its address derives from the new seed. */
  lemma ConsecutiveEmailsReseed(d: DescriptorState, policy: NullHandler, e1: Entropy, e2: Entropy, c: CoordState, env: Env)
    requires d.kind.Email?
    ensures var p1 := Produce(d, policy, e1, c, env);
            var p2 := Produce(p1.next, policy, e2, p1.coord, env);
            p2.coord == CoordState({EmailKind}, e2.freshSeed) && p2.value == Some(EmailText(d.kind.domain, e2.freshSeed, env))
  {
  }

  /**
    Cohesion within one record: when the first-name kind and the email kind register as
    part of one sequence of distinct kinds after the window was emptied, the email is
    built from the very first name and last name the first-name registration's seed gives.
   */
  lemma EmailAgreesWithNames(seed: Int64, kinds: seq<CohesiveKind>, reseeds: seq<Int64>, i: nat, j: nat, domain: string, env: Env)
    requires |reseeds| == |kinds| && Distinct(kinds) && i < |kinds| && j < |kinds|
    requires kinds[i] == FirstNameKind && kinds[j] == EmailKind
    ensures var s := Run(CoordState({}, seed), kinds, reseeds).observed;
            EmailText(domain, s[j], env) == Quote([env.firstName(s[i])[0]] + env.lastName(s[i]) + "@" + domain)
  {
    AfterResetAnyOrderSharesSeed(seed, kinds, reseeds);
  }
}
