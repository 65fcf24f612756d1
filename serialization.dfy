/**
  The serialisers of DataBuilder. CSV and JSON run every descriptor, in settings order,
  over each match of the configured regex, after `setIterationState(matcher, seed)` with a
  fresh seed per match; token replacement asks the first setting named by each `$[name]`
  token for a value and substitutes it.
 */
module Serialization {
  import opened Wrappers
  import opened JavaText
  import opened Generation
  import opened Cohesion
  import opened Production
  import opened Descriptors
  import opened Settings
  import opened Sequences
  import opened Tokens

  /** `StringBuilder.append(String)` and `Collectors.joining` write a null value as `null`. */
  function Rendered(v: Option<string>): string {
    match v
    case None => "null"
    case Some(s) => s
  }

  // ------------------------------------------------------------ descriptor objects

  /** The states of the descriptors, in settings order. */
  function States(ds: seq<Descriptor>): (r: seq<DescriptorState>)
    reads set d | d in ds
    ensures |r| == |ds| && forall i :: 0 <= i < |ds| ==> r[i] == ds[i].State()
    decreases |ds|
  {
    if |ds| == 0 then [] else [ds[0].State()] + States(ds[1..])
  }

  ghost function Objects(ds: seq<Descriptor>): set<Descriptor> {
    set d | d in ds
  }

  function KindsOf(states: seq<DescriptorState>): (r: seq<Kind>)
    ensures |r| == |states|
  {
    seq(|states|, i requires 0 <= i < |states| => states[i].kind)
  }

  lemma KindsUpdate(states: seq<DescriptorState>, i: nat, d: DescriptorState)
    requires i < |states| && d.kind == states[i].kind
    ensures KindsOf(states[i := d]) == KindsOf(states)
  {
    assert forall j :: 0 <= j < |states| ==> KindsOf(states[i := d])[j] == KindsOf(states)[j];
  }

  // ------------------------------------------------------------ one row per match

  /** What `setIterationState(matcher, seed)` leaves in a descriptor. */
  function WithIteration(d: DescriptorState, m: Match, seed: Int64): DescriptorState {
    d.(currentMatch := Some(m), randomSeed := Some(seed))
  }

  /** A descriptor configured as `k` can produce once it is set to the match `m`. */
  predicate ProducibleOn(k: Kind, m: Match) {
    Producible(DescriptorState(k, Some(m), None, 0))
  }

  predicate ProducibleAll(ks: seq<Kind>, m: Match) {
    forall i :: 0 <= i < |ks| ==> ProducibleOn(ks[i], m)
  }

  predicate ProducibleEvery(ks: seq<Kind>, matches: seq<Match>) {
    forall r :: 0 <= r < |matches| ==> ProducibleAll(ks, matches[r])
  }

  lemma IterationProducible(d: DescriptorState, m: Match, seed: Int64)
    requires ProducibleOn(d.kind, m)
    ensures Producible(WithIteration(d, m, seed))
  {
  }

  /** A row in progress: the values so far, every descriptor's state, the coordinator's state. */
  datatype Row = Row(values: seq<Option<string>>, states: seq<DescriptorState>, coord: CoordState)

  /**
    The first `n` descriptors of one match, in settings order, each set to the match and
    the seed and then asked for `getNextValue(policy)` with its own entropy record.
   */
  function RowUpTo(states: seq<DescriptorState>, m: Match, seed: Int64, policy: NullHandler, es: seq<Entropy>,
                   c: CoordState, env: Env, n: nat): (r: Row)
    requires n <= |states| == |es| && ProducibleAll(KindsOf(states), m)
    ensures |r.values| == n && |r.states| == |states| && KindsOf(r.states) == KindsOf(states)
    ensures r.states[n..] == states[n..]
    decreases n
  {
    if n == 0 then Row([], states, c)
    else
      var prev := RowUpTo(states, m, seed, policy, es, c, env, n - 1);
      var d := prev.states[n - 1];
      assert d == states[n - 1] by {
        assert prev.states[n - 1..][0] == states[n - 1..][0];
      }
      assert ProducibleOn(KindsOf(states)[n - 1], m);
      IterationProducible(d, m, seed);
      var p := Produce(WithIteration(d, m, seed), policy, es[n - 1], prev.coord, env);
      KindsUpdate(prev.states, n - 1, p.next);
      assert prev.states[n - 1 := p.next][n..] == states[n..] by {
        assert prev.states[n - 1 := p.next][n..] == prev.states[n - 1..][1..];
      }
      Row(prev.values + [p.value], prev.states[n - 1 := p.next], p.coord)
  }

  /** Rows of equal width. */
  predicate Rectangular(rows: seq<seq<Option<string>>>, width: nat) {
    forall r :: 0 <= r < |rows| ==> |rows[r]| == width
  }

  /** One entropy record per descriptor and match. */
  predicate Shaped(es: seq<seq<Entropy>>, width: nat) {
    forall r :: 0 <= r < |es| ==> |es[r]| == width
  }

  datatype Table = Table(rows: seq<seq<Option<string>>>, states: seq<DescriptorState>, coord: CoordState)

  /**
    The rows of the first `n` matches: each match with its own seed, the descriptor states
    and the coordinator carried from one match to the next.
   */
  function TableUpTo(states: seq<DescriptorState>, matches: seq<Match>, seeds: seq<Int64>, policy: NullHandler,
                     es: seq<seq<Entropy>>, c: CoordState, env: Env, n: nat): (t: Table)
    requires n <= |matches| == |seeds| == |es| && Shaped(es, |states|) && ProducibleEvery(KindsOf(states), matches)
    ensures |t.rows| == n && |t.states| == |states| && KindsOf(t.states) == KindsOf(states)
    ensures Rectangular(t.rows, |states|)
    decreases n
  {
    if n == 0 then Table([], states, c)
    else
      var prev := TableUpTo(states, matches, seeds, policy, es, c, env, n - 1);
      assert ProducibleAll(KindsOf(prev.states), matches[n - 1]);
      var row := RowUpTo(prev.states, matches[n - 1], seeds[n - 1], policy, es[n - 1], prev.coord, env, |states|);
      Table(prev.rows + [row.values], row.states, row.coord)
  }

  // ------------------------------------------------------------ CSV

  function RenderedAll(values: seq<Option<string>>): (r: seq<string>)
    ensures |r| == |values|
    decreases |values|
  {
    if |values| == 0 then [] else RenderedAll(values[..|values| - 1]) + [Rendered(values[|values| - 1])]
  }

  /** One CSV line: the cells joined by commas, nothing escaped. */
  function CsvLine(values: seq<Option<string>>): string {
    Join(RenderedAll(values), ",")
  }

  /** Each row on a line of its own, each line preceded by a newline. */
  function CsvBody(rows: seq<seq<Option<string>>>): string
    decreases |rows|
  {
    if |rows| == 0 then "" else CsvBody(rows[..|rows| - 1]) + "\n" + CsvLine(rows[|rows| - 1])
  }

  /** `serializeCsv`: the header of field names, then the rows. */
  function CsvText(names: seq<string>, rows: seq<seq<Option<string>>>): string {
    Join(names, ",") + CsvBody(rows)
  }

  function CsvLines(rows: seq<seq<Option<string>>>): (r: seq<string>)
    ensures |r| == |rows|
    decreases |rows|
  {
    if |rows| == 0 then [] else CsvLines(rows[..|rows| - 1]) + [CsvLine(rows[|rows| - 1])]
  }

  lemma CsvTextSnoc(names: seq<string>, rows: seq<seq<Option<string>>>)
    requires |rows| > 0
    ensures CsvText(names, rows) == CsvText(names, rows[..|rows| - 1]) + "\n" + CsvLine(rows[|rows| - 1])
  {
  }

  /** The CSV text is the header line and one line per row, joined by newlines. */
  lemma {:induction false} CsvIsLines(names: seq<string>, rows: seq<seq<Option<string>>>)
    ensures CsvText(names, rows) == Join([Join(names, ",")] + CsvLines(rows), "\n")
    ensures |rows| == 0 ==> CsvText(names, rows) == Join(names, ",")
    decreases |rows|
  {
    var header := Join(names, ",");
    if |rows| == 0 {
      assert CsvText(names, rows) == header + "";
    } else {
      var front := rows[..|rows| - 1];
      var line := CsvLine(rows[|rows| - 1]);
      var lines := [header] + CsvLines(front);
      CsvIsLines(names, front);
      JoinSnoc(lines, line, "\n");
      assert CsvLines(rows) == CsvLines(front) + [line];
      AppendAssoc([header], CsvLines(front), [line]);
      CsvTextSnoc(names, rows);
    }
  }

  lemma RenderedPresent(values: seq<Option<string>>, i: nat)
    requires i < |values| && values[i].Some?
    ensures RenderedAll(values)[i] == values[i].value
  {
    RenderedAllAt(values, i);
  }

  lemma {:induction false} RenderedAllAt(values: seq<Option<string>>, i: nat)
    requires i < |values|
    ensures RenderedAll(values)[i] == Rendered(values[i])
    decreases |values|
  {
    if i < |values| - 1 {
      RenderedAllAt(values[..|values| - 1], i);
    }
  }

  // ------------------------------------------------------------ which production fills a cell

  /**
    Within a row, each descriptor produces from its own state before the row and the
    coordinator as the descriptors before it left it; the later descriptors do not touch
    its result.
   */
  lemma {:induction false} RowUpToEntry(states: seq<DescriptorState>, m: Match, seed: Int64, policy: NullHandler,
                                        es: seq<Entropy>, c: CoordState, env: Env, n: nat, i: nat)
    requires n <= |states| == |es| && ProducibleAll(KindsOf(states), m) && i < n
    ensures Producible(WithIteration(states[i], m, seed))
    ensures var p := Produce(WithIteration(states[i], m, seed), policy, es[i], RowUpTo(states, m, seed, policy, es, c, env, i).coord, env);
            RowUpTo(states, m, seed, policy, es, c, env, n).values[i] == p.value
            && RowUpTo(states, m, seed, policy, es, c, env, n).states[i] == p.next
  {
    RowUpToLater(states, m, seed, policy, es, c, env, n, i);
    RowUpToStep(states, m, seed, policy, es, c, env, i);
  }

  /** The descriptors after the i-th one leave its cell and its state alone. */
  lemma {:induction false} RowUpToLater(states: seq<DescriptorState>, m: Match, seed: Int64, policy: NullHandler,
                                        es: seq<Entropy>, c: CoordState, env: Env, n: nat, i: nat)
    requires n <= |states| == |es| && ProducibleAll(KindsOf(states), m) && i < n
    ensures RowUpTo(states, m, seed, policy, es, c, env, n).values[i] == RowUpTo(states, m, seed, policy, es, c, env, i + 1).values[i]
    ensures RowUpTo(states, m, seed, policy, es, c, env, n).states[i] == RowUpTo(states, m, seed, policy, es, c, env, i + 1).states[i]
    decreases n
  {
    if i < n - 1 {
      RowUpToLater(states, m, seed, policy, es, c, env, n - 1, i);
      RowUpToKeeps(states, m, seed, policy, es, c, env, n, i);
    }
  }

  /** The last descriptor of a row leaves the cells and states before it alone. */
  lemma RowUpToKeeps(states: seq<DescriptorState>, m: Match, seed: Int64, policy: NullHandler,
                     es: seq<Entropy>, c: CoordState, env: Env, n: nat, i: nat)
    requires 0 < n <= |states| == |es| && ProducibleAll(KindsOf(states), m) && i < n - 1
    ensures RowUpTo(states, m, seed, policy, es, c, env, n).values[i] == RowUpTo(states, m, seed, policy, es, c, env, n - 1).values[i]
    ensures RowUpTo(states, m, seed, policy, es, c, env, n).states[i] == RowUpTo(states, m, seed, policy, es, c, env, n - 1).states[i]
  {
    RowUpToStep(states, m, seed, policy, es, c, env, n - 1);
  }

  /** Under the EMPTY policy no cell is ever null. */
  lemma {:induction false} EmptyPolicyNoNulls(states: seq<DescriptorState>, matches: seq<Match>, seeds: seq<Int64>,
                                              es: seq<seq<Entropy>>, c: CoordState, env: Env, n: nat, r: nat, i: nat)
    requires n <= |matches| == |seeds| == |es| && Shaped(es, |states|) && ProducibleEvery(KindsOf(states), matches)
    requires r < n && i < |states|
    ensures TableUpTo(states, matches, seeds, Empty, es, c, env, n).rows[r][i].Some?
    decreases n
  {
    if r < n - 1 {
      EmptyPolicyNoNulls(states, matches, seeds, es, c, env, n - 1, r, i);
    } else {
      var prev := TableUpTo(states, matches, seeds, Empty, es, c, env, n - 1);
      assert ProducibleAll(KindsOf(prev.states), matches[n - 1]);
      RowUpToEntry(prev.states, matches[n - 1], seeds[n - 1], Empty, es[n - 1], prev.coord, env, |states|, i);
    }
  }

  lemma RowKeepsCounter(states: seq<DescriptorState>, m: Match, seed: Int64, policy: NullHandler,
                        es: seq<Entropy>, c: CoordState, env: Env, i: nat)
    requires |states| == |es| && ProducibleAll(KindsOf(states), m) && i < |states|
    requires states[i].kind.Id? && states[i].kind.idType == Incrementing
    ensures RowUpTo(states, m, seed, policy, es, c, env, |states|).values[i]
            == Some(IncrementingText(states[i].kind.idIsString, states[i].currentId))
    ensures RowUpTo(states, m, seed, policy, es, c, env, |states|).states[i].currentId == Inc32(states[i].currentId)
  {
    RowUpToEntry(states, m, seed, policy, es, c, env, |states|, i);
  }

  /**
    An incrementing id column counts on from row to row: in the row of match r (from 0)
    it holds the descriptor's counter incremented r times.
   */
  lemma {:induction false} IdColumnCounts(states: seq<DescriptorState>, matches: seq<Match>, seeds: seq<Int64>,
                                          policy: NullHandler, es: seq<seq<Entropy>>, c: CoordState, env: Env,
                                          n: nat, r: nat, i: nat)
    requires n <= |matches| == |seeds| == |es| && Shaped(es, |states|) && ProducibleEvery(KindsOf(states), matches)
    requires r < n && i < |states| && states[i].kind.Id? && states[i].kind.idType == Incrementing
    ensures TableUpTo(states, matches, seeds, policy, es, c, env, n).rows[r][i]
            == Some(IncrementingText(states[i].kind.idIsString, Advanced(states[i].currentId, r)))
    ensures TableUpTo(states, matches, seeds, policy, es, c, env, n).states[i].currentId == Advanced(states[i].currentId, n)
    decreases n
  {
    var prev := TableUpTo(states, matches, seeds, policy, es, c, env, n - 1);
    var x := states[i].currentId;
    if n - 1 > 0 {
      IdColumnCounts(states, matches, seeds, policy, es, c, env, n - 1, 0, i);
    }
    assert prev.states[i].currentId == Advanced(x, n - 1);
    assert KindsOf(prev.states)[i] == KindsOf(states)[i];
    assert ProducibleAll(KindsOf(prev.states), matches[n - 1]);
    RowKeepsCounter(prev.states, matches[n - 1], seeds[n - 1], policy, es[n - 1], prev.coord, env, i);
    AdvancedSnoc(x, n - 1);
    if r < n - 1 {
      IdColumnCounts(states, matches, seeds, policy, es, c, env, n - 1, r, i);
    }
  }

  // ------------------------------------------------------------ JSON

  /** `"name":value`, with a null value written as `null` and nothing escaped. */
  function JsonField(name: string, v: Option<string>): string {
    Quote(name) + ":" + Rendered(v)
  }

  /** The fields written for one match: a null value's field only when nulls are serialised. */
  function EmittedFields(names: seq<string>, values: seq<Option<string>>, serializeNulls: bool): seq<string>
    requires |names| == |values|
    decreases |values|
  {
    if |values| == 0 then []
    else
      var n := |values| - 1;
      var before := EmittedFields(names[..n], values[..n], serializeNulls);
      if values[n].Some? || serializeNulls then before + [JsonField(names[n], values[n])] else before
  }

  /** The positions of the written fields, in order. */
  function Kept(values: seq<Option<string>>, serializeNulls: bool): seq<nat>
    decreases |values|
  {
    if |values| == 0 then []
    else
      var n := |values| - 1;
      if values[n].Some? || serializeNulls then Kept(values[..n], serializeNulls) + [n] else Kept(values[..n], serializeNulls)
  }

  /**
    The fields written are, in settings order, exactly those whose value is not null, or
    all of them when nulls are serialised.
   */
  lemma {:induction false} KeptExactly(values: seq<Option<string>>, serializeNulls: bool)
    ensures forall j :: 0 <= j < |Kept(values, serializeNulls)| ==> Kept(values, serializeNulls)[j] < |values|
    ensures forall j, k :: 0 <= j < k < |Kept(values, serializeNulls)| ==> Kept(values, serializeNulls)[j] < Kept(values, serializeNulls)[k]
    ensures forall i :: 0 <= i < |values| ==> (i in Kept(values, serializeNulls) <==> values[i].Some? || serializeNulls)
    ensures serializeNulls ==> |Kept(values, serializeNulls)| == |values|
    decreases |values|
  {
    if |values| > 0 {
      var n := |values| - 1;
      var front := values[..n];
      KeptExactly(front, serializeNulls);
      assert forall i :: 0 <= i < n ==> values[i] == front[i];
    }
  }

  lemma {:induction false} EmittedAreKept(names: seq<string>, values: seq<Option<string>>, serializeNulls: bool)
    requires |names| == |values|
    ensures |EmittedFields(names, values, serializeNulls)| == |Kept(values, serializeNulls)|
    ensures forall j :: 0 <= j < |Kept(values, serializeNulls)| ==>
      Kept(values, serializeNulls)[j] < |values| &&
      EmittedFields(names, values, serializeNulls)[j] == JsonField(names[Kept(values, serializeNulls)[j]], values[Kept(values, serializeNulls)[j]])
    decreases |values|
  {
    if |values| > 0 {
      var n := |values| - 1;
      EmittedAreKept(names[..n], values[..n], serializeNulls);
      KeptExactly(values[..n], serializeNulls);
    }
  }

  /** One object: the written fields between braces, commas only between neighbours. */
  function JsonObject(names: seq<string>, values: seq<Option<string>>, serializeNulls: bool): string
    requires |names| == |values|
  {
    "\n{" + Join(EmittedFields(names, values, serializeNulls), ",") + "}"
  }

  function JsonObjects(names: seq<string>, rows: seq<seq<Option<string>>>, serializeNulls: bool): (r: seq<string>)
    requires Rectangular(rows, |names|)
    ensures |r| == |rows|
    decreases |rows|
  {
    if |rows| == 0 then []
    else JsonObjects(names, rows[..|rows| - 1], serializeNulls) + [JsonObject(names, rows[|rows| - 1], serializeNulls)]
  }

  /** What `serializeJson` has written after some matches: `[` and their objects, commas between. */
  function JsonOpen(names: seq<string>, rows: seq<seq<Option<string>>>, serializeNulls: bool): string
    requires Rectangular(rows, |names|)
  {
    "[" + Join(JsonObjects(names, rows, serializeNulls), ",")
  }

  /** `serializeJson`: the objects between `[` and a final `\n]`, commas only between objects. */
  function JsonText(names: seq<string>, rows: seq<seq<Option<string>>>, serializeNulls: bool): string
    requires Rectangular(rows, |names|)
  {
    JsonOpen(names, rows, serializeNulls) + "\n]"
  }

  lemma {:induction false} JsonObjectsAt(names: seq<string>, rows: seq<seq<Option<string>>>, serializeNulls: bool, k: nat)
    requires Rectangular(rows, |names|) && k < |rows|
    ensures JsonObjects(names, rows, serializeNulls)[k] == JsonObject(names, rows[k], serializeNulls)
    decreases |rows|
  {
    if k < |rows| - 1 {
      JsonObjectsAt(names, rows[..|rows| - 1], serializeNulls, k);
    }
  }

  lemma Framed(a: string, x: string, b: string)
    ensures (a + x + b)[..|a|] == a && (a + x + b)[|a + x|..] == b && |a + x + b| == |a| + |x| + |b|
  {
  }

  /** Every object opens with `\n{` and closes with `}`. */
  lemma JsonObjectShape(names: seq<string>, values: seq<Option<string>>, serializeNulls: bool)
    requires |names| == |values|
    ensures var o := JsonObject(names, values, serializeNulls); |o| >= 3 && o[..2] == "\n{" && o[|o| - 1] == '}'
  {
    Framed("\n{", Join(EmittedFields(names, values, serializeNulls), ","), "}");
  }

  /** The JSON text opens with `[` and closes with `\n]`; with no match it is `[\n]`. */
  lemma JsonFrame(names: seq<string>, rows: seq<seq<Option<string>>>, serializeNulls: bool)
    requires Rectangular(rows, |names|)
    ensures var t := JsonText(names, rows, serializeNulls);
            |t| >= 3 && t[..1] == "[" && t[|t| - 2..] == "\n]"
    ensures |rows| == 0 ==> JsonText(names, rows, serializeNulls) == "[\n]"
  {
    Framed("[", Join(JsonObjects(names, rows, serializeNulls), ","), "\n]");
    assert JsonText(names, rows, serializeNulls) == "[" + Join(JsonObjects(names, rows, serializeNulls), ",") + "\n]";
  }

  /**
    With matches, the JSON text is `[`, the objects of all matches but the last, a comma
    when there were any, the last object, and `\n]`.
   */
  lemma JsonOpenSnoc(names: seq<string>, rows: seq<seq<Option<string>>>, serializeNulls: bool)
    requires Rectangular(rows, |names|) && |rows| > 0
    ensures JsonOpen(names, rows, serializeNulls) ==
      JsonOpen(names, rows[..|rows| - 1], serializeNulls)
      + (if |rows| == 1 then "" else ",") + JsonObject(names, rows[|rows| - 1], serializeNulls)
  {
    var front := JsonObjects(names, rows[..|rows| - 1], serializeNulls);
    var last := JsonObject(names, rows[|rows| - 1], serializeNulls);
    JoinSnoc(front, last, ",");
  }

  // ------------------------------------------------------------ token replacement

  datatype DirectError =
    | MissingSetting(name: string)      // getSetting: findFirst().get() on no match
    | Unproducible(name: string)        // getNextValue throws (bound <= 0, no matcher, bad group index)
    | NullReplacement(name: string)     // appendReplacement with a null value

  datatype Replacement = Replacement(value: string, states: seq<DescriptorState>, coord: CoordState)

  /**
    `getSetting(name).getNextValue(AS_NULL)` as the replacement of one token: the first
    setting with that name produces, and only a non-null value can be substituted.
   */
  function Replace(name: string, names: seq<string>, states: seq<DescriptorState>, e: Entropy, c: CoordState, env: Env)
    : (r: Result<Replacement, DirectError>)
    requires |names| == |states|
    ensures r.Ok? ==> |r.value.states| == |states|
    ensures r == Err(MissingSetting(name)) <==> name !in names
  {
    match FirstIndex(names, name)
    case None => Err(MissingSetting(name))
    case Some(i) =>
      if !Producible(states[i]) then Err(Unproducible(name))
      else
        var p := Produce(states[i], AsNull, e, c, env);
        if p.value.None? then Err(NullReplacement(name))
        else Ok(Replacement(p.value.value, states[i := p.next], p.coord))
  }

  datatype DirectRun = DirectRun(text: string, values: seq<string>, states: seq<DescriptorState>, coord: CoordState)

  /** Where the search for the k-th token starts: after the previous token, or at the beginning. */
  function PosAt(toks: seq<Token>, k: nat): nat
    requires k <= |toks|
  {
    if k == 0 then 0 else toks[k - 1].close + 1
  }

  lemma ChainedAt(s: string, toks: seq<Token>, k: nat)
    requires Chained(toks, 0) && AllTokens(s, toks) && k <= |toks|
    ensures PosAt(toks, k) <= |s|
    ensures k < |toks| ==> PosAt(toks, k) <= toks[k].start <= toks[k].close < |s| && IsToken(s, toks[k])
  {
    ChainedOrdered(toks, 0);
    if k > 0 {
      assert IsToken(s, toks[k - 1]);
    }
    if k < |toks| {
      assert IsToken(s, toks[k]);
    }
  }

  /** A run preceded by the text up to one token and that token's value. */
  function After(text: string, v: string, r: Result<DirectRun, DirectError>): Result<DirectRun, DirectError> {
    match r
    case Err(e) => Err(e)
    case Ok(rest) => Ok(rest.(text := text + rest.text, values := [v] + rest.values))
  }

  /**
    `serializeDirect` from the k-th token found on: each token is replaced by its `Replace`
    value, without any `setIterationState`; the text between the tokens is copied.
   */
  function DirectOver(s: string, toks: seq<Token>, k: nat, names: seq<string>, states: seq<DescriptorState>,
                      es: seq<Entropy>, c: CoordState, env: Env): (r: Result<DirectRun, DirectError>)
    requires k <= |toks| == |es| && Chained(toks, 0) && AllTokens(s, toks) && |names| == |states|
    ensures r.Ok? ==> |r.value.states| == |states|
    decreases |toks| - k
  {
    ChainedAt(s, toks, k);
    if k == |toks| then Ok(DirectRun(s[PosAt(toks, k)..], [], states, c))
    else
      match Replace(TokenName(s, toks[k]), names, states, es[k], c, env)
      case Err(e) => Err(e)
      case Ok(x) =>
        After(s[PosAt(toks, k)..toks[k].start] + x.value, x.value,
              DirectOver(s, toks, k + 1, names, x.states, es, x.coord, env))
  }

  /** The whole token replacement over the input. */
  function DirectText(s: string, names: seq<string>, states: seq<DescriptorState>, es: seq<Entropy>,
                      c: CoordState, env: Env): Result<DirectRun, DirectError>
    requires |names| == |states| && |es| == |Tokens.Tokens(s)|
  {
    TokensFromValid(s, 0);
    DirectOver(s, Tokens.Tokens(s), 0, names, states, es, c, env)
  }

  /**
    A successful replacement is the literal substitution of one value per token, in
    order: the text outside the tokens is copied unchanged.
   */
  lemma {:induction false} DirectSubstitutes(s: string, toks: seq<Token>, k: nat, names: seq<string>,
                                             states: seq<DescriptorState>, es: seq<Entropy>, c: CoordState, env: Env)
    requires k <= |toks| == |es| && Chained(toks, 0) && AllTokens(s, toks) && |names| == |states|
    requires PosAt(toks, k) <= |s| && AllTokens(s, toks[k..]) && Chained(toks[k..], PosAt(toks, k))
    ensures var r := DirectOver(s, toks, k, names, states, es, c, env);
            r.Ok? ==> |r.value.values| == |toks| - k && r.value.text == Substitute(s, PosAt(toks, k), toks[k..], r.value.values)
    decreases |toks| - k
  {
    ChainedAt(s, toks, k);
    if k == |toks| {
      assert toks[k..] == [];
    } else {
      var x := Replace(TokenName(s, toks[k]), names, states, es[k], c, env);
      if x.Ok? {
        ChainTail(s, toks[k..], PosAt(toks, k));
        assert toks[k..][0] == toks[k] && toks[k..][1..] == toks[k + 1..];
        DirectSubstitutes(s, toks, k + 1, names, x.value.states, es, x.value.coord, env);
        var r := DirectOver(s, toks, k + 1, names, x.value.states, es, x.value.coord, env);
        if r.Ok? {
          var vs := [x.value.value] + r.value.values;
          SubstituteCons(s, PosAt(toks, k), toks[k..], vs);
          assert vs[1..] == r.value.values;
        }
      }
    }
  }

  /** A token whose name no setting has makes the replacement fail (`getSetting` throws). */
  lemma {:induction false} DirectNeedsEveryName(s: string, toks: seq<Token>, k: nat, names: seq<string>,
                                                states: seq<DescriptorState>, es: seq<Entropy>, c: CoordState,
                                                env: Env, j: nat)
    requires k <= |toks| == |es| && Chained(toks, 0) && AllTokens(s, toks) && |names| == |states|
    requires k <= j < |toks| && TokenName(s, toks[j]) !in names
    ensures DirectOver(s, toks, k, names, states, es, c, env).Err?
    decreases |toks| - k
  {
    var x := Replace(TokenName(s, toks[k]), names, states, es[k], c, env);
    if k < j && x.Ok? {
      DirectNeedsEveryName(s, toks, k + 1, names, x.value.states, es, x.value.coord, env, j);
    }
  }

  /** Replacing the tokens of an input fails when one of its token names has no setting. */
  lemma DirectTextNeedsEveryName(s: string, names: seq<string>, states: seq<DescriptorState>, es: seq<Entropy>,
                                 c: CoordState, env: Env, name: string)
    requires |names| == |states| && |es| == |Tokens.Tokens(s)|
    requires name in TokenNames(s) && name !in names
    ensures DirectText(s, names, states, es, c, env).Err?
  {
    TokensFromValid(s, 0);
    var toks := Tokens.Tokens(s);
    var j :| 0 <= j < |NamesOf(s, toks)| && NamesOf(s, toks)[j] == name;
    NamesOfAt(s, toks, j);
    DirectNeedsEveryName(s, toks, 0, names, states, es, c, env, j);
  }

  /** An input without tokens is copied unchanged and no descriptor is asked for a value. */
  lemma DirectWithoutTokens(s: string, names: seq<string>, states: seq<DescriptorState>, es: seq<Entropy>, c: CoordState, env: Env)
    requires |names| == |states| && Tokens.Tokens(s) == [] && es == []
    ensures DirectText(s, names, states, es, c, env) == Ok(DirectRun(s, [], states, c))
  {
    assert s[0..] == s;
  }

  // ------------------------------------------------------------ the serialisers over objects

  lemma RowUpToStep(states: seq<DescriptorState>, m: Match, seed: Int64, policy: NullHandler, es: seq<Entropy>,
                    c: CoordState, env: Env, i: nat)
    requires i < |states| == |es| && ProducibleAll(KindsOf(states), m)
    ensures RowUpTo(states, m, seed, policy, es, c, env, i).states[i] == states[i]
    ensures Producible(WithIteration(states[i], m, seed))
    ensures var row := RowUpTo(states, m, seed, policy, es, c, env, i);
            var p := Produce(WithIteration(states[i], m, seed), policy, es[i], row.coord, env);
            RowUpTo(states, m, seed, policy, es, c, env, i + 1) == Row(row.values + [p.value], row.states[i := p.next], p.coord)
  {
    var row := RowUpTo(states, m, seed, policy, es, c, env, i);
    assert row.states[i..][0] == states[i..][0];
    assert ProducibleOn(KindsOf(states)[i], m);
  }

  /** `setIterationState(matcher, seed).getNextValue(policy)` on one descriptor. */
  method ProduceCell(d: Descriptor, m: Match, seed: Int64, policy: NullHandler, e: Entropy,
                     coord: SeedCoordinator, env: Env) returns (v: Option<string>)
    requires ProducibleOn(d.kind, m)
    modifies d, coord
    ensures var p := Produce(WithIteration(old(d.State()), m, seed), policy, e, old(coord.State()), env);
            v == p.value && d.State() == p.next && coord.State() == p.coord
  {
    IterationProducible(d.State(), m, seed);
    var self := d.SetIterationState(m, seed);
    v := self.GetNextValue(policy, e, coord, env);
  }

  /**
    A row in progress over the objects: the values of the first `i` descriptors, and the
    descriptors and the coordinator as `RowUpTo` leaves them.
   */
  predicate RowAt(ds: seq<Descriptor>, coord: SeedCoordinator, values: seq<Option<string>>, start: seq<DescriptorState>,
                  m: Match, seed: Int64, policy: NullHandler, es: seq<Entropy>, c0: CoordState, env: Env, i: nat)
    reads Objects(ds), coord
  {
    i <= |start| == |es| && ProducibleAll(KindsOf(start), m)
    && var row := RowUpTo(start, m, seed, policy, es, c0, env, i);
       values == row.values && States(ds) == row.states && coord.State() == row.coord
  }

  /** The next descriptor of a row in progress produces its value; the other descriptors keep their state. */
  method ProduceNext(ds: seq<Descriptor>, i: nat, m: Match, seed: Int64, policy: NullHandler, es: seq<Entropy>,
                     coord: SeedCoordinator, env: Env, values: seq<Option<string>>, ghost start: seq<DescriptorState>,
                     ghost c0: CoordState) returns (v: Option<string>)
    requires i < |ds| && Distinct(ds) && RowAt(ds, coord, values, start, m, seed, policy, es, c0, env, i)
    modifies ds[i], coord
    ensures RowAt(ds, coord, values + [v], start, m, seed, policy, es, c0, env, i + 1)
  {
    RowUpToStep(start, m, seed, policy, es, c0, env, i);
    v := ProduceCell(ds[i], m, seed, policy, es[i], coord, env);
    assert forall j :: 0 <= j < |ds| && j != i ==> ds[j] != ds[i];
  }

  /** The values of one match: every descriptor in settings order, set to the match and asked for a value. */
  method ProduceRow(ds: seq<Descriptor>, m: Match, seed: Int64, policy: NullHandler, es: seq<Entropy>,
                    coord: SeedCoordinator, env: Env) returns (values: seq<Option<string>>)
    requires |es| == |ds| && Distinct(ds) && ProducibleAll(KindsOf(States(ds)), m)
    modifies Objects(ds), coord
    ensures var row := RowUpTo(old(States(ds)), m, seed, policy, es, old(coord.State()), env, |ds|);
            values == row.values && States(ds) == row.states && coord.State() == row.coord
  {
    ghost var start := States(ds);
    ghost var c0 := coord.State();
    values := [];
    var i := 0;
    while i < |ds|
      invariant i <= |ds| && RowAt(ds, coord, values, start, m, seed, policy, es, c0, env, i)
    {
      var v := ProduceNext(ds, i, m, seed, policy, es, coord, env, values, start, c0);
      values := values + [v];
      i := i + 1;
    }
  }

  lemma TableUpToStep(states: seq<DescriptorState>, matches: seq<Match>, seeds: seq<Int64>, policy: NullHandler,
                      es: seq<seq<Entropy>>, c: CoordState, env: Env, n: nat)
    requires n < |matches| == |seeds| == |es| && Shaped(es, |states|) && ProducibleEvery(KindsOf(states), matches)
    ensures var t := TableUpTo(states, matches, seeds, policy, es, c, env, n);
            |es[n]| == |t.states| && ProducibleAll(KindsOf(t.states), matches[n])
    ensures var t := TableUpTo(states, matches, seeds, policy, es, c, env, n);
            var row := RowUpTo(t.states, matches[n], seeds[n], policy, es[n], t.coord, env, |states|);
            TableUpTo(states, matches, seeds, policy, es, c, env, n + 1) == Table(t.rows + [row.values], row.states, row.coord)
  {
    assert ProducibleAll(KindsOf(states), matches[n]);
  }

  /**
    The matches so far over the objects: their rows, and the descriptors and the
    coordinator as `TableUpTo` leaves them.
   */
  predicate TableAt(ds: seq<Descriptor>, coord: SeedCoordinator, rows: seq<seq<Option<string>>>,
                    start: seq<DescriptorState>, matches: seq<Match>, seeds: seq<Int64>, policy: NullHandler,
                    es: seq<seq<Entropy>>, c0: CoordState, env: Env, r: nat)
    reads Objects(ds), coord
  {
    r <= |matches| == |seeds| == |es| && Shaped(es, |start|) && ProducibleEvery(KindsOf(start), matches)
    && var t := TableUpTo(start, matches, seeds, policy, es, c0, env, r);
       rows == t.rows && States(ds) == t.states && coord.State() == t.coord
  }

  /** The next match: every descriptor in settings order set to it and to its seed, and asked for a value. */
  method ProduceMatch(ds: seq<Descriptor>, r: nat, matches: seq<Match>, seeds: seq<Int64>, policy: NullHandler,
                      es: seq<seq<Entropy>>, coord: SeedCoordinator, env: Env, ghost rows: seq<seq<Option<string>>>,
                      ghost start: seq<DescriptorState>, ghost c0: CoordState) returns (values: seq<Option<string>>)
    requires r < |matches| && Distinct(ds) && TableAt(ds, coord, rows, start, matches, seeds, policy, es, c0, env, r)
    modifies Objects(ds), coord
    ensures |values| == |ds| && TableAt(ds, coord, rows + [values], start, matches, seeds, policy, es, c0, env, r + 1)
  {
    TableUpToStep(start, matches, seeds, policy, es, c0, env, r);
    values := ProduceRow(ds, matches[r], seeds[r], policy, es[r], coord, env);
  }

  /** `serializeCsv` over the matches of the configured regex, one seed per match. */
  method SerializeCsv(config: SettingsConfig, matches: seq<Match>, seeds: seq<Int64>, es: seq<seq<Entropy>>,
                      coord: SeedCoordinator, env: Env) returns (out: string)
    requires |seeds| == |matches| == |es| && Shaped(es, |config.settings|) && Distinct(config.settings)
    requires ProducibleEvery(KindsOf(States(config.settings)), matches)
    modifies Objects(config.settings), coord
    ensures var t := TableUpTo(old(States(config.settings)), matches, seeds, Empty, es, old(coord.State()), env, |matches|);
            out == CsvText(Names(config.settings), t.rows) && States(config.settings) == t.states && coord.State() == t.coord
  {
    var ds := config.settings;
    ghost var start := States(ds);
    ghost var c0 := coord.State();
    var names := Names(ds);
    out := Join(names, ",");
    ghost var rows := [];
    var r := 0;
    while r < |matches|
      invariant r <= |matches| && TableAt(ds, coord, rows, start, matches, seeds, Empty, es, c0, env, r)
      invariant out == CsvText(names, rows)
    {
      var values := ProduceMatch(ds, r, matches, seeds, Empty, es, coord, env, rows, start, c0);
      out := out + "\n" + CsvLine(values);
      CsvTextSnoc(names, rows + [values]);
      assert (rows + [values])[..|rows|] == rows;
      rows := rows + [values];
      r := r + 1;
    }
  }

  /** The fields of the first i + 1 settings: those of the first i, and the next one's when kept. */
  lemma EmittedStep(names: seq<string>, values: seq<Option<string>>, i: nat, serializeNulls: bool)
    requires i < |names| == |values|
    ensures EmittedFields(names[..i + 1], values[..i + 1], serializeNulls) ==
            if values[i].Some? || serializeNulls
            then EmittedFields(names[..i], values[..i], serializeNulls) + [JsonField(names[i], values[i])]
            else EmittedFields(names[..i], values[..i], serializeNulls)
  {
    assert names[..i + 1][..i] == names[..i] && names[..i + 1][i] == names[i];
    assert values[..i + 1][..i] == values[..i] && values[..i + 1][i] == values[i];
  }

  lemma EmittedWhole(names: seq<string>, values: seq<Option<string>>, serializeNulls: bool)
    requires |names| == |values|
    ensures EmittedFields(names[..|names|], values[..|values|], serializeNulls) == EmittedFields(names, values, serializeNulls)
  {
    assert names[..|names|] == names && values[..|values|] == values;
  }

  /** Writes the field of one value when it is kept, after a comma unless it is the first field. */
  method AppendField(fields: string, firstDescriptor: bool, name: string, v: Option<string>, serializeNulls: bool,
                     ghost emitted: seq<string>) returns (fields': string, firstDescriptor': bool)
    requires fields == Join(emitted, ",") && firstDescriptor == (|emitted| == 0)
    ensures var kept := if v.Some? || serializeNulls then emitted + [JsonField(name, v)] else emitted;
            fields' == Join(kept, ",") && firstDescriptor' == (|kept| == 0)
  {
    fields', firstDescriptor' := fields, firstDescriptor;
    if v.Some? || serializeNulls {
      if !firstDescriptor' {
        fields' := fields' + ",";
      }
      firstDescriptor' := false;
      fields' := fields' + Quote(name) + ":" + Rendered(v);
      JoinSnoc(emitted, JsonField(name, v), ",");
    }
  }

  /**
    The fields of one object in settings order: a field for a non-null value, or for every
    value when nulls are serialised, with a comma before all but the first field written.
   */
  method JsonFields(names: seq<string>, values: seq<Option<string>>, serializeNulls: bool) returns (fields: string)
    requires |names| == |values|
    ensures fields == Join(EmittedFields(names, values, serializeNulls), ",")
  {
    fields := "";
    var firstDescriptor := true;
    var i := 0;
    while i < |names|
      invariant i <= |names|
      invariant var emitted := EmittedFields(names[..i], values[..i], serializeNulls);
                fields == Join(emitted, ",") && firstDescriptor == (|emitted| == 0)
    {
      EmittedStep(names, values, i, serializeNulls);
      fields, firstDescriptor := AppendField(fields, firstDescriptor, names[i], values[i], serializeNulls,
                                             EmittedFields(names[..i], values[..i], serializeNulls));
      i := i + 1;
    }
    EmittedWhole(names, values, serializeNulls);
  }

  /**
    One match of `serializeJson`: a comma unless it is the first, then the object of its
    values, the fields of the values kept between braces.
   */
  method WriteObject(out: string, firstMatch: bool, names: seq<string>, values: seq<Option<string>>,
                     serializeNulls: bool, ghost rows: seq<seq<Option<string>>>) returns (out': string, firstMatch': bool)
    requires Rectangular(rows, |names|) && |values| == |names|
    requires out == JsonOpen(names, rows, serializeNulls) && firstMatch == (|rows| == 0)
    ensures Rectangular(rows + [values], |names|)
    ensures out' == JsonOpen(names, rows + [values], serializeNulls) && !firstMatch'
  {
    out' := out;
    if !firstMatch {
      out' := out' + ",";
    }
    firstMatch' := false;
    var fields := JsonFields(names, values, serializeNulls);
    out' := out' + "\n{" + fields + "}";
    JsonOpenSnoc(names, rows + [values], serializeNulls);
    assert (rows + [values])[..|rows|] == rows;
  }

  /**
    `serializeJson` over the matches of the configured regex, one seed per match: `[`,
    the objects with a comma before all but the first, and `\n]`. Each object is every
    descriptor in settings order set to the match and asked for a value under AS_NULL,
    and the fields of the values kept between braces.
   */
  method SerializeJson(config: SettingsConfig, matches: seq<Match>, seeds: seq<Int64>, es: seq<seq<Entropy>>,
                       coord: SeedCoordinator, env: Env, serializeNulls: bool) returns (out: string)
    requires |seeds| == |matches| == |es| && Shaped(es, |config.settings|) && Distinct(config.settings)
    requires ProducibleEvery(KindsOf(States(config.settings)), matches)
    modifies Objects(config.settings), coord
    ensures var t := TableUpTo(old(States(config.settings)), matches, seeds, AsNull, es, old(coord.State()), env, |matches|);
            out == JsonText(Names(config.settings), t.rows, serializeNulls)
            && States(config.settings) == t.states && coord.State() == t.coord
  {
    var ds := config.settings;
    ghost var start := States(ds);
    ghost var c0 := coord.State();
    var names := Names(ds);
    out := "[";
    var firstMatch := true;
    ghost var rows := [];
    var r := 0;
    while r < |matches|
      invariant r <= |matches| && TableAt(ds, coord, rows, start, matches, seeds, AsNull, es, c0, env, r)
      invariant Rectangular(rows, |names|) && out == JsonOpen(names, rows, serializeNulls) && firstMatch == (r == 0)
    {
      var values := ProduceMatch(ds, r, matches, seeds, AsNull, es, coord, env, rows, start, c0);
      out, firstMatch := WriteObject(out, firstMatch, names, values, serializeNulls, rows);
      rows := rows + [values];
      r := r + 1;
    }
    out := out + "\n]";
  }

  /** A replacement run finished after the text and the values already written. */
  function Prepend(b: string, vs: seq<string>, r: Result<DirectRun, DirectError>): Result<DirectRun, DirectError> {
    match r
    case Ok(run) => Ok(run.(text := b + run.text, values := vs + run.values))
    case Err(e) => Err(e)
  }

  lemma PrependNothing(r: Result<DirectRun, DirectError>)
    ensures Prepend("", [], r) == r
  {
    if r.Ok? {
      assert "" + r.value.text == r.value.text && [] + r.value.values == r.value.values;
    }
  }

  /** `appendReplacement`: the text up to the token and its value join what is already written. */
  lemma PrependAfter(b: string, vs: seq<string>, gap: string, v: string, r: Result<DirectRun, DirectError>)
    ensures Prepend(b, vs, After(gap + v, v, r)) == Prepend(b + gap + v, vs + [v], r)
  {
    if r.Ok? {
      AppendRegroup(b, gap, v, r.value.text);
      AppendAssoc(vs, [v], r.value.values);
    }
  }

  /** `appendTail`: the rest of the input ends what is written. */
  lemma PrependEnd(b: string, vs: seq<string>, tail: string, states: seq<DescriptorState>, c: CoordState)
    ensures Prepend(b, vs, Ok(DirectRun(tail, [], states, c))) == Ok(DirectRun(b + tail, vs, states, c))
  {
    assert vs + [] == vs;
  }

  /** `getNextValue(AS_NULL)` on the i-th setting: only that descriptor and the coordinator change. */
  method ProduceAt(ds: seq<Descriptor>, ghost i: nat, d: Descriptor, e: Entropy, coord: SeedCoordinator, env: Env)
      returns (v: Option<string>)
    requires i < |ds| && ds[i] == d && Distinct(ds) && Producible(d.State())
    modifies d, coord
    ensures var p := Produce(old(States(ds))[i], AsNull, e, old(coord.State()), env);
            v == p.value && States(ds) == old(States(ds))[i := p.next] && coord.State() == p.coord
  {
    ghost var before := States(ds);
    v := d.GetNextValue(AsNull, e, coord, env);
    assert forall j :: 0 <= j < |ds| && j != i ==> ds[j] != d;
  }

  /** What the caller of a replacement sees: the value written, or the failure. */
  function Written(x: Result<Replacement, DirectError>): Result<string, DirectError> {
    match x
    case Ok(y) => Ok(y.value)
    case Err(e) => Err(e)
  }

  /** `getSetting(name).getNextValue(AS_NULL)` on the configuration, with its failures. */
  method ReplaceToken(config: SettingsConfig, name: string, e: Entropy, coord: SeedCoordinator, env: Env)
      returns (r: Result<string, DirectError>)
    requires Distinct(config.settings)
    modifies Objects(config.settings), coord
    ensures var x := Replace(name, Names(config.settings), old(States(config.settings)), e, old(coord.State()), env);
            r == Written(x) && (x.Ok? ==> States(config.settings) == x.value.states && coord.State() == x.value.coord)
  {
    var ds := config.settings;
    var d := config.GetSetting(name);
    if d.None? {
      r := Err(MissingSetting(name));
    } else {
      ghost var i := FirstIndex(Names(ds), name).value;
      assert d.value == ds[i];
      if !Producible(d.value.State()) {
        r := Err(Unproducible(name));
      } else {
        var v := ProduceAt(ds, i, d.value, e, coord, env);
        r := if v.None? then Err(NullReplacement(name)) else Ok(v.value);
      }
    }
  }

  /** What `serializeDirect` hands back: the text built, or the failure. */
  function Output(d: Result<DirectRun, DirectError>): Result<string, DirectError> {
    match d
    case Ok(run) => Ok(run.text)
    case Err(e) => Err(e)
  }

  /**
    `serializeDirect` before the k-th token over the objects: the descriptors and the
    coordinator in the states `cur` and `cc`, and the text and values written so far
    followed by what the remaining tokens give make up the whole run.
   */
  predicate DirectAt(ds: seq<Descriptor>, coord: SeedCoordinator, s: string, toks: seq<Token>, es: seq<Entropy>,
                     env: Env, whole: Result<DirectRun, DirectError>, builder: string, vs: seq<string>, pos: nat,
                     k: nat, cur: seq<DescriptorState>, cc: CoordState)
    reads Objects(ds), coord
  {
    k <= |toks| == |es| && Chained(toks, 0) && AllTokens(s, toks) && pos == PosAt(toks, k) && |cur| == |ds|
    && States(ds) == cur && coord.State() == cc
    && whole == Prepend(builder, vs, DirectOver(s, toks, k, Names(ds), cur, es, cc, env))
  }

  /**
    One `find()` and `appendReplacement` of `serializeDirect`: the text before the k-th token
    and its value join the builder, and what is left to do is the rest of the tokens.
   */
  method ReplaceNextToken(config: SettingsConfig, s: string, toks: seq<Token>, k: nat, es: seq<Entropy>,
                          coord: SeedCoordinator, env: Env, builder: string, pos: nat,
                          ghost whole: Result<DirectRun, DirectError>, ghost vs: seq<string>,
                          ghost cur: seq<DescriptorState>, ghost cc: CoordState)
      returns (x: Result<string, DirectError>, builder': string, ghost vs': seq<string>)
    requires k < |toks| && Distinct(config.settings)
    requires DirectAt(config.settings, coord, s, toks, es, env, whole, builder, vs, pos, k, cur, cc)
    modifies Objects(config.settings), coord
    ensures var rep := Replace(TokenName(s, toks[k]), Names(config.settings), cur, es[k], cc, env);
            x == Written(rep)
            && (rep.Err? ==> whole == Err(rep.error))
            && (rep.Ok? ==> DirectAt(config.settings, coord, s, toks, es, env, whole, builder', vs', toks[k].close + 1,
                                     k + 1, rep.value.states, rep.value.coord))
  {
    ghost var names := Names(config.settings);
    var t := toks[k];
    ChainedAt(s, toks, k);
    ghost var rep := Replace(TokenName(s, t), names, cur, es[k], cc, env);
    x := ReplaceToken(config, TokenName(s, t), es[k], coord, env);
    builder', vs' := builder, vs;
    if x.Ok? {
      PrependAfter(builder, vs, s[pos..t.start], x.value,
                   DirectOver(s, toks, k + 1, names, rep.value.states, es, rep.value.coord, env));
      builder' := builder + s[pos..t.start] + x.value;
      vs' := vs + [x.value];
    }
  }

  /**
    `serializeDirect`: each `$[name]` token of the input, found left to right, is replaced
    by the value of the setting of that name; the rest of the input is copied.
   */
  method SerializeDirect(config: SettingsConfig, s: string, es: seq<Entropy>, coord: SeedCoordinator, env: Env)
      returns (r: Result<string, DirectError>)
    requires |es| == |Tokens.Tokens(s)| && Distinct(config.settings)
    modifies Objects(config.settings), coord
    ensures var d := DirectText(s, Names(config.settings), old(States(config.settings)), es, old(coord.State()), env);
            r == Output(d) && (d.Ok? ==> States(config.settings) == d.value.states && coord.State() == d.value.coord)
  {
    var ds := config.settings;
    ghost var whole := DirectText(s, Names(ds), States(ds), es, coord.State(), env);
    var builder := "";
    ghost var vs: seq<string> := [];
    var toks := Tokens.Tokens(s);
    var pos: nat := 0;
    var k := 0;
    ghost var cur, cc := States(ds), coord.State();
    TokensFromValid(s, 0);
    PrependNothing(whole);
    while k < |toks|
      invariant DirectAt(ds, coord, s, toks, es, env, whole, builder, vs, pos, k, cur, cc)
    {
      ghost var rep := Replace(TokenName(s, toks[k]), Names(ds), cur, es[k], cc, env);
      var x;
      x, builder, vs := ReplaceNextToken(config, s, toks, k, es, coord, env, builder, pos, whole, vs, cur, cc);
      if x.Err? {
        return Err(x.error);
      }
      cur, cc := rep.value.states, rep.value.coord;
      pos := toks[k].close + 1;
      k := k + 1;
    }
    ChainedAt(s, toks, k);
    PrependEnd(builder, vs, s[pos..], cur, cc);
    builder := builder + s[pos..];
    r := Ok(builder);
  }
}
