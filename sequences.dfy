/** Sequence facts shared by the collections of the model. */
module Sequences {
  import opened Wrappers

  predicate Distinct<T(==)>(s: seq<T>) {
    forall i, j :: 0 <= i < j < |s| ==> s[i] != s[j]
  }

  /** The position of the first occurrence of `x`. */
  function FirstIndex<T(==)>(s: seq<T>, x: T): (r: Option<nat>)
    ensures r.Some? ==> r.value < |s| && s[r.value] == x && forall k :: 0 <= k < r.value ==> s[k] != x
    ensures r.None? <==> x !in s
    decreases |s|
  {
    if |s| == 0 then None
    else if s[0] == x then Some(0)
    else match FirstIndex(s[1..], x)
      case None => None
      case Some(k) => Some(k + 1)
  }

  /** The position of the first present entry: the first answer a retrying prompt accepts. */
  function FirstSome<T>(rs: seq<Option<T>>): (r: Option<nat>)
    ensures r.Some? ==> r.value < |rs| && rs[r.value].Some?
    ensures r.Some? ==> forall k :: 0 <= k < r.value ==> rs[k].None?
    ensures r.None? ==> forall k :: 0 <= k < |rs| ==> rs[k].None?
    decreases |rs|
  {
    if |rs| == 0 then None
    else if rs[0].Some? then Some(0)
    else match FirstSome(rs[1..])
      case None => None
      case Some(k) => Some(k + 1)
  }

  /** Adding names to a `LinkedHashSet` one by one: later repeats are dropped. */
  function Dedup(s: seq<string>): seq<string>
    decreases |s|
  {
    if |s| == 0 then []
    else
      var r := Dedup(s[..|s| - 1]);
      if s[|s| - 1] in r then r else r + [s[|s| - 1]]
  }

  /** `LinkedHashSet.add`: an element not yet present goes at the end. */
  function Add(seen: seq<string>, x: string): seq<string> {
    if x in seen then seen else seen + [x]
  }

  /** Adding the elements of `xs` one by one, from the front. */
  function AddAll(seen: seq<string>, xs: seq<string>): seq<string>
    decreases |xs|
  {
    if |xs| == 0 then seen else AddAll(Add(seen, xs[0]), xs[1..])
  }

  lemma AddAllCons(seen: seq<string>, x: string, xs: seq<string>)
    ensures AddAll(seen, [x] + xs) == AddAll(Add(seen, x), xs)
  {
    assert ([x] + xs)[1..] == xs;
  }

  /** Appending one element keeps it exactly when it has not been seen. */
  lemma DedupSnoc(s: seq<string>, x: string)
    ensures Dedup(s + [x]) == Add(Dedup(s), x)
  {
    assert (s + [x])[..|s|] == s;
  }

  /** Adding the rest of a sequence to the deduplicated prefix deduplicates the whole. */
  lemma {:induction false} AddAllDedup(s: seq<string>, k: nat)
    requires k <= |s|
    ensures AddAll(Dedup(s[..k]), s[k..]) == Dedup(s)
    decreases |s| - k
  {
    if k == |s| {
      assert s[..k] == s;
    } else {
      var p, x := s[..k], s[k];
      assert s[..k + 1] == p + [x];
      DedupSnoc(p, x);
      assert s[k..][1..] == s[k + 1..];
      AddAllDedup(s, k + 1);
    }
  }

  lemma {:induction false} FirstIndexSnoc(s: seq<string>, x: string, y: string)
    requires y in s
    ensures FirstIndex(s + [x], y) == FirstIndex(s, y)
    decreases |s|
  {
    if s[0] != y {
      assert (s + [x])[1..] == s[1..] + [x];
      FirstIndexSnoc(s[1..], x, y);
    }
  }

  /**
    The set's elements are those of the sequence, each once, in the order of their first
    occurrences.
   */
  lemma {:induction false} DedupProperties(s: seq<string>)
    ensures forall x :: x in Dedup(s) <==> x in s
    ensures Distinct(Dedup(s))
    ensures forall i, j :: 0 <= i < j < |Dedup(s)| ==> FirstIndex(s, Dedup(s)[i]).value < FirstIndex(s, Dedup(s)[j]).value
    decreases |s|
  {
    if |s| > 0 {
      var p := s[..|s| - 1];
      var x := s[|s| - 1];
      assert s == p + [x];
      DedupProperties(p);
      var r := Dedup(p);
      forall y | y in r
        ensures FirstIndex(s, y) == FirstIndex(p, y)
      {
        FirstIndexSnoc(p, x, y);
      }
      if x !in r {
        assert FirstIndex(s, x).value == |p|;
        forall i | 0 <= i < |r|
          ensures FirstIndex(s, r[i]).value < |p|
        {
          assert r[i] in r;
        }
      }
    }
  }

  /** Appending after a prefix: the regrouping the serialisers' builders rely on. */
  lemma AppendAssoc<T>(a: seq<T>, b: seq<T>, c: seq<T>)
    ensures a + (b + c) == a + b + c
  {
  }

  lemma AppendRegroup<T>(a: seq<T>, b: seq<T>, c: seq<T>, d: seq<T>)
    ensures a + (b + c + d) == a + b + c + d
  {
  }
}
