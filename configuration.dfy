/**
  The configuration rules of the descriptors, over given answers instead of console
  prompts: answer defaults, the yes/no convention, and EnumValuesDescriptor's
  accumulation of (item, percentage) entries into cumulative thresholds.
 */
module Configuration {
  import opened Wrappers
  import opened JavaText
  import opened Sequences
  import opened Production

  // ---------------------------------------------------------------- answers

  /** A prompt with a default: a blank answer stands for the default. */
  function WithDefault(answer: string, default: string): string {
    if IsBlank(answer) then default else answer
  }

  /** The answers `^[YyNn]$` accepts. */
  predicate IsYesNo(answer: string) {
    answer == "Y" || answer == "y" || answer == "N" || answer == "n"
  }

  /** `answer.toLowerCase().equals("y")` on an accepted yes/no answer. */
  predicate IsYes(answer: string) {
    answer == "Y" || answer == "y"
  }

  const DEFAULT_STATIC_IS_STRING: string := "Y"
  const DEFAULT_EMAIL_DOMAIN: string := "mailinator.com"
  const DEFAULT_STARTING_ID: string := "1"

  /** A starting-id answer: blank means "1"; anything else must parse as an int or the prompt repeats. */
  function StartingIdAnswer(answer: string): (r: Option<Int32>)
    ensures IsBlank(answer) ==> r == Some(1)
  {
    assert IntToDecimal(1) == DEFAULT_STARTING_ID;
    ParseRendered(1);
    ParseInt32(WithDefault(answer, DEFAULT_STARTING_ID))
  }

  /** The position of the first answer the starting-id prompt accepts. */
  function FirstStartingId(answers: seq<string>): (r: Option<nat>)
    ensures r.Some? ==> r.value < |answers| && StartingIdAnswer(answers[r.value]).Some?
    ensures r.Some? ==> forall k :: 0 <= k < r.value ==> StartingIdAnswer(answers[k]).None?
    ensures r.None? ==> forall k :: 0 <= k < |answers| ==> StartingIdAnswer(answers[k]).None?
  {
    var verdicts := seq(|answers|, i requires 0 <= i < |answers| => StartingIdAnswer(answers[i]));
    assert forall i :: 0 <= i < |answers| ==> verdicts[i] == StartingIdAnswer(answers[i]);
    FirstSome(verdicts)
  }

  /**
    A percentage answer (`promptPercentage` with a default): blank means the default;
    otherwise it must parse as an int in (0, 100], or the prompt repeats.
   */
  function PercentageAnswer(answer: string, default: Int32): (r: Option<Int32>)
    ensures r.Some? ==> 0 < r.value <= 100
    ensures IsBlank(answer) && 0 < default <= 100 ==> r == Some(default)
  {
    ParseRendered(default);
    match ParseInt32(WithDefault(answer, IntToDecimal(default)))
    case Some(p) => if 0 < p <= 100 then Some(p) else None
    case None => None
  }

  /** The position of the first answer the percentage prompt accepts. */
  function FirstPercentage(answers: seq<string>, default: Int32): (r: Option<nat>)
    ensures r.Some? ==> r.value < |answers| && PercentageAnswer(answers[r.value], default).Some?
    ensures r.Some? ==> forall k :: 0 <= k < r.value ==> PercentageAnswer(answers[k], default).None?
    ensures r.None? ==> forall k :: 0 <= k < |answers| ==> PercentageAnswer(answers[k], default).None?
  {
    var verdicts := seq(|answers|, i requires 0 <= i < |answers| => PercentageAnswer(answers[i], default));
    assert forall i :: 0 <= i < |answers| ==> verdicts[i] == PercentageAnswer(answers[i], default);
    FirstSome(verdicts)
  }

  /** The position of the first (minimum, maximum) answer pair with minimum <= maximum. */
  function FirstOrderedRange(answers: seq<(Int32, Int32)>): (r: Option<nat>)
    ensures r.Some? ==> r.value < |answers| && answers[r.value].0 <= answers[r.value].1
    ensures r.Some? ==> forall k :: 0 <= k < r.value ==> answers[k].0 > answers[k].1
    ensures r.None? ==> forall k :: 0 <= k < |answers| ==> answers[k].0 > answers[k].1
    decreases |answers|
  {
    if |answers| == 0 then None
    else if answers[0].0 <= answers[0].1 then Some(0)
    else match FirstOrderedRange(answers[1..])
      case None => None
      case Some(k) => Some(k + 1)
  }

  // ---------------------------------------------------------------- EnumValuesDescriptor

  datatype EnumEntry = EnumEntry(item: string, percentage: Int32)

  /** The map's contents and `totalPercentage`. */
  datatype Accumulator = Accumulator(buckets: seq<Bucket>, total: int)

  function Labels(buckets: seq<Bucket>): (r: seq<string>)
    ensures |r| == |buckets| && forall i :: 0 <= i < |buckets| ==> r[i] == buckets[i].choice
  {
    seq(|buckets|, i requires 0 <= i < |buckets| => buckets[i].choice)
  }

  predicate DistinctLabels(buckets: seq<Bucket>) {
    forall i, j :: 0 <= i < j < |buckets| ==> buckets[i].choice != buckets[j].choice
  }

  /** `LinkedHashMap.put`: a present key keeps its position and takes the new value; a new key goes last. */
  function Put(buckets: seq<Bucket>, item: string, threshold: int): seq<Bucket>
    decreases |buckets|
  {
    if |buckets| == 0 then [Bucket(item, threshold)]
    else if buckets[0].choice == item then [Bucket(item, threshold)] + buckets[1..]
    else [buckets[0]] + Put(buckets[1..], item, threshold)
  }

  /** Re-entering an existing item overwrites its threshold in place. */
  lemma {:induction false} PutOverwritesInPlace(buckets: seq<Bucket>, item: string, threshold: int, i: nat)
    requires i < |buckets| && buckets[i].choice == item
    requires forall k :: 0 <= k < i ==> buckets[k].choice != item
    ensures Put(buckets, item, threshold) == buckets[i := Bucket(item, threshold)]
    decreases i
  {
    if i > 0 {
      PutOverwritesInPlace(buckets[1..], item, threshold, i - 1);
      assert buckets[1..][i - 1 := Bucket(item, threshold)] == buckets[i := Bucket(item, threshold)][1..];
    }
  }

  /** A new item is appended after all existing ones. */
  lemma {:induction false} PutAppendsNew(buckets: seq<Bucket>, item: string, threshold: int)
    requires item !in Labels(buckets)
    ensures Put(buckets, item, threshold) == buckets + [Bucket(item, threshold)]
    decreases |buckets|
  {
    if |buckets| > 0 {
      assert buckets[0].choice == Labels(buckets)[0];
      assert Labels(buckets[1..]) == Labels(buckets)[1..];
      PutAppendsNew(buckets[1..], item, threshold);
      assert buckets == [buckets[0]] + buckets[1..];
    }
  }

  lemma PutLabels(buckets: seq<Bucket>, item: string, threshold: int)
    ensures forall x :: x in Labels(Put(buckets, item, threshold)) <==> x in Labels(buckets) || x == item
  {
    var r := Put(buckets, item, threshold);
    match FirstIndex(Labels(buckets), item)
    case None =>
      PutAppendsNew(buckets, item, threshold);
      assert Labels(r) == Labels(buckets) + [item];
    case Some(i) =>
      PutOverwritesInPlace(buckets, item, threshold, i);
      assert Labels(r) == Labels(buckets);
  }

  lemma {:induction false} PutDistinct(buckets: seq<Bucket>, item: string, threshold: int)
    requires DistinctLabels(buckets)
    ensures DistinctLabels(Put(buckets, item, threshold))
    decreases |buckets|
  {
    if |buckets| > 0 && buckets[0].choice != item {
      PutDistinct(buckets[1..], item, threshold);
      PutLabels(buckets[1..], item, threshold);
      var r := Put(buckets, item, threshold);
      assert r == [buckets[0]] + Put(buckets[1..], item, threshold);
      assert buckets[0].choice !in Labels(buckets[1..]) by {
        forall m | 0 <= m < |buckets| - 1 ensures Labels(buckets[1..])[m] != buckets[0].choice {
          assert buckets[1..][m] == buckets[m + 1];
        }
      }
      forall j | 0 < j < |r|
        ensures r[0].choice != r[j].choice
      {
        assert r[j].choice == Labels(Put(buckets[1..], item, threshold))[j - 1];
      }
    }
  }

  lemma {:induction false} PutElements(buckets: seq<Bucket>, item: string, threshold: int)
    ensures forall b :: b in Put(buckets, item, threshold) ==> b in buckets || b == Bucket(item, threshold)
    decreases |buckets|
  {
    if |buckets| > 0 && buckets[0].choice != item {
      PutElements(buckets[1..], item, threshold);
    }
  }

  /** One pass of the configuration loop after a non-blank item and its percentage. */
  function AccumulateStep(a: Accumulator, e: EnumEntry): Accumulator {
    if e.percentage <= 0 || e.percentage > 100 then a
    else if a.total + e.percentage > 100 then Accumulator([], 0)
    else Accumulator(Put(a.buckets, e.item, a.total + e.percentage), a.total + e.percentage)
  }

  datatype Accumulated = Accumulated(acc: Accumulator, consumed: nat)

  /**
    The configuration loop: it stops before reading an entry once the total is exactly
    100, and at a blank item or the end of the entries.
   */
  function Accumulate(a: Accumulator, entries: seq<EnumEntry>): (r: Accumulated)
    ensures r.consumed <= |entries|
    ensures r.acc.total == 100 || r.consumed == |entries| || IsBlank(entries[r.consumed].item)
    ensures forall k :: 0 <= k < r.consumed ==> !IsBlank(entries[k].item)
    decreases |entries|
  {
    if a.total == 100 || |entries| == 0 || IsBlank(entries[0].item) then Accumulated(a, 0)
    else
      var rest := Accumulate(AccumulateStep(a, entries[0]), entries[1..]);
      Accumulated(rest.acc, rest.consumed + 1)
  }

  /** What configuration keeps true of the map and the total. */
  predicate WellFormed(a: Accumulator) {
    0 <= a.total <= 100
    && DistinctLabels(a.buckets)
    && (forall i :: 0 <= i < |a.buckets| ==> 0 < a.buckets[i].threshold <= a.total)
    && (a.total > 0 <==> |a.buckets| > 0)
    && (a.total > 0 ==> exists i :: 0 <= i < |a.buckets| && a.buckets[i].threshold == a.total)
  }

  lemma StepWellFormed(a: Accumulator, e: EnumEntry)
    requires WellFormed(a)
    ensures WellFormed(AccumulateStep(a, e))
  {
    if 0 < e.percentage <= 100 && a.total + e.percentage <= 100 {
      var t := a.total + e.percentage;
      var r := Put(a.buckets, e.item, t);
      PutDistinct(a.buckets, e.item, t);
      PutElements(a.buckets, e.item, t);
      assert Bucket(e.item, t) in r by {
        if e.item in Labels(a.buckets) {
          var i :| 0 <= i < |a.buckets| && a.buckets[i].choice == e.item;
          FirstLabel(a.buckets, e.item, i);
          var j :| 0 <= j <= i && a.buckets[j].choice == e.item && forall k :: 0 <= k < j ==> a.buckets[k].choice != e.item;
          PutOverwritesInPlace(a.buckets, e.item, t, j);
          assert r[j] == Bucket(e.item, t);
        } else {
          PutAppendsNew(a.buckets, e.item, t);
          assert r[|a.buckets|] == Bucket(e.item, t);
        }
      }
      forall i | 0 <= i < |r|
        ensures 0 < r[i].threshold <= t
      {
        assert r[i] in r;
      }
      var j :| 0 <= j < |r| && r[j] == Bucket(e.item, t);
      assert r[j].threshold == t;
    }
  }

  lemma {:induction false} FirstLabel(buckets: seq<Bucket>, item: string, i: nat)
    requires i < |buckets| && buckets[i].choice == item
    ensures exists j :: 0 <= j <= i && buckets[j].choice == item && forall k :: 0 <= k < j ==> buckets[k].choice != item
    decreases i
  {
    if exists k :: 0 <= k < i && buckets[k].choice == item {
      var k :| 0 <= k < i && buckets[k].choice == item;
      FirstLabel(buckets, item, k);
    }
  }

  /** Configuration from an empty map keeps every threshold in (0, total] with total <= 100. */
  lemma {:induction false} AccumulateWellFormed(a: Accumulator, entries: seq<EnumEntry>)
    requires WellFormed(a)
    ensures WellFormed(Accumulate(a, entries).acc)
    decreases |entries|
  {
    if !(a.total == 100 || |entries| == 0 || IsBlank(entries[0].item)) {
      StepWellFormed(a, entries[0]);
      AccumulateWellFormed(AccumulateStep(a, entries[0]), entries[1..]);
    }
  }

  /** Configuration that ends at a total of exactly 100 leaves no draw in [0, 100) to the null policy. */
  lemma FullTotalNeverFallsThrough(entries: seq<EnumEntry>, draw: int)
    requires Accumulate(Accumulator([], 0), entries).acc.total == 100 && 0 <= draw < 100
    ensures SelectBucket(Accumulate(Accumulator([], 0), entries).acc.buckets, draw).Some?
  {
    var a := Accumulate(Accumulator([], 0), entries).acc;
    AccumulateWellFormed(Accumulator([], 0), entries);
    var i :| 0 <= i < |a.buckets| && a.buckets[i].threshold == 100;
    assert draw < a.buckets[i].threshold;
  }

  /** The thresholds of a map built from distinct items increase strictly, the last one being the total. */
  predicate Ordered(a: Accumulator) {
    Increasing(a.buckets) && (|a.buckets| > 0 ==> a.buckets[|a.buckets| - 1].threshold == a.total)
  }

  predicate DistinctItems(entries: seq<EnumEntry>) {
    forall i, j :: 0 <= i < j < |entries| ==> entries[i].item != entries[j].item
  }

  /** A step adds at most its own item to the map's items. */
  lemma StepLabels(a: Accumulator, e: EnumEntry)
    ensures forall x :: x in Labels(AccumulateStep(a, e).buckets) ==> x in Labels(a.buckets) || x == e.item
  {
    if 0 < e.percentage <= 100 && a.total + e.percentage <= 100 {
      PutLabels(a.buckets, e.item, a.total + e.percentage);
    }
  }

  /** A step with a new item appends it, with the new total as its threshold, above all others. */
  lemma StepOrdered(a: Accumulator, e: EnumEntry)
    requires WellFormed(a) && Ordered(a) && e.item !in Labels(a.buckets)
    ensures Ordered(AccumulateStep(a, e))
  {
    if 0 < e.percentage <= 100 && a.total + e.percentage <= 100 {
      PutAppendsNew(a.buckets, e.item, a.total + e.percentage);
    }
  }

  lemma {:induction false} AccumulateOrdered(a: Accumulator, entries: seq<EnumEntry>)
    requires WellFormed(a) && Ordered(a) && DistinctItems(entries)
    requires forall k :: 0 <= k < |entries| ==> entries[k].item !in Labels(a.buckets)
    ensures Ordered(Accumulate(a, entries).acc)
    decreases |entries|
  {
    if !(a.total == 100 || |entries| == 0 || IsBlank(entries[0].item)) {
      var e := entries[0];
      var b := AccumulateStep(a, e);
      StepWellFormed(a, e);
      StepOrdered(a, e);
      StepLabels(a, e);
      var tail := entries[1..];
      forall k | 0 <= k < |tail|
        ensures tail[k].item !in Labels(b.buckets)
      {
        assert tail[k] == entries[k + 1];
      }
      assert DistinctItems(tail) by {
        forall i, j | 0 <= i < j < |tail|
          ensures tail[i].item != tail[j].item
        {
          assert tail[i] == entries[i + 1] && tail[j] == entries[j + 1];
        }
      }
      AccumulateOrdered(b, tail);
    }
  }

  /**
    From an empty map, entries with distinct items yield thresholds that increase strictly
    in insertion order, so each item is chosen for exactly its own percentage of draws.
   */
  lemma DistinctItemsIncrease(entries: seq<EnumEntry>)
    requires DistinctItems(entries)
    ensures Increasing(Accumulate(Accumulator([], 0), entries).acc.buckets)
  {
    AccumulateOrdered(Accumulator([], 0), entries);
  }
}
