/**
  Building a configuration at the prompts and choosing how to serialise: which fields
  `promptSettingsConfig` creates, with which content types on offer, and the choice of
  serialisation in `process`.
 */
module Setup {
  import opened Wrappers
  import opened Sequences
  import opened JavaText
  import opened Tokens
  import Settings

  /** `ContentTypes`, in declaration order. */
  datatype ContentType =
    | IdContent | BooleanContent | IntegerContent | EmailContent | EmptyStringContent | EnumValuesContent
    | FileContentContent | FirstNameContent | LastNameContent | StaticValueContent | TextContent

  /** `ContentTypes.values()`: every type is on offer at first. */
  const CONTENT_TYPES: seq<ContentType> :=
    [IdContent, BooleanContent, IntegerContent, EmailContent, EmptyStringContent, EnumValuesContent,
     FileContentContent, FirstNameContent, LastNameContent, StaticValueContent, TextContent]

  /** `List.remove(Object)`: the first occurrence goes, the others keep their order. */
  function Remove(xs: seq<ContentType>, x: ContentType): (r: seq<ContentType>)
    ensures x !in xs ==> r == xs
    ensures x in xs ==> |r| == |xs| - 1
    decreases |xs|
  {
    if |xs| == 0 then []
    else if xs[0] == x then xs[1..]
    else [xs[0]] + Remove(xs[1..], x)
  }

  /** What `remove` leaves: the list without exactly its first occurrence of `x`. */
  lemma {:induction false} RemoveDropsFirst(xs: seq<ContentType>, x: ContentType)
    requires x in xs
    ensures var i := FirstIndex(xs, x).value; Remove(xs, x) == xs[..i] + xs[i + 1..]
    decreases |xs|
  {
    if xs[0] != x {
      var tail := xs[1..];
      assert x in tail by {
        var i :| 0 <= i < |xs| && xs[i] == x;
        assert tail[i - 1] == x;
      }
      RemoveDropsFirst(tail, x);
      var j := FirstIndex(tail, x).value;
      assert FirstIndex(xs, x).value == j + 1;
      assert xs[..j + 1] == [xs[0]] + tail[..j];
      assert xs[j + 2..] == tail[j + 1..];
    }
  }

  /** Removing a type from a list without repeats takes it off the offer and nothing else. */
  lemma {:induction false} RemoveOffer(xs: seq<ContentType>, x: ContentType)
    requires Distinct(xs)
    ensures Distinct(Remove(xs, x)) && x !in Remove(xs, x)
    ensures forall y :: y != x ==> (y in Remove(xs, x) <==> y in xs)
    decreases |xs|
  {
    if |xs| > 0 {
      var tail := xs[1..];
      assert Distinct(tail) by {
        forall i, j | 0 <= i < j < |tail| ensures tail[i] != tail[j] {
          assert tail[i] == xs[i + 1] && tail[j] == xs[j + 1];
        }
      }
      assert xs[0] !in tail by {
        forall i | 0 <= i < |tail| ensures tail[i] != xs[0] {
          assert tail[i] == xs[i + 1];
        }
      }
      if xs[0] != x {
        RemoveOffer(tail, x);
        var r := Remove(tail, x);
        assert Remove(xs, x) == [xs[0]] + r;
        assert forall y :: y in [xs[0]] + r <==> y == xs[0] || y in r;
        forall i, j | 0 <= i < j < |[xs[0]] + r| ensures ([xs[0]] + r)[i] != ([xs[0]] + r)[j] {
          if i > 0 {
            assert ([xs[0]] + r)[i] == r[i - 1] && ([xs[0]] + r)[j] == r[j - 1];
          } else {
            assert ([xs[0]] + r)[j] == r[j - 1];
          }
        }
      } else {
        assert forall y :: y in xs <==> y == xs[0] || y in tail;
      }
    }
  }

  /** One planned setting: its name and the content type chosen for it. */
  datatype Field = Field(name: string, content: ContentType)

  function FieldNames(fields: seq<Field>): (r: seq<string>)
    ensures |r| == |fields| && forall i :: 0 <= i < |fields| ==> r[i] == fields[i].name
  {
    seq(|fields|, i requires 0 <= i < |fields| => fields[i].name)
  }

  predicate AtMostOneId(fields: seq<Field>) {
    forall i, j :: 0 <= i < j < |fields| && fields[i].content == IdContent ==> fields[j].content != IdContent
  }

  /** What the field loop keeps: distinct names, one ID at most, and ID off the offer once a field has it. */
  predicate Planned(fields: seq<Field>, offered: seq<ContentType>) {
    Distinct(FieldNames(fields)) && AtMostOneId(fields) && Distinct(offered)
    && forall i :: 0 <= i < |fields| && fields[i].content == IdContent ==> IdContent !in offered
  }

  /** `addSetting` of a new name with a type on offer, ID then being taken off the offer. */
  lemma AddField(fields: seq<Field>, offered: seq<ContentType>, name: string, t: ContentType)
    requires Planned(fields, offered) && name !in FieldNames(fields) && t in offered
    ensures var offered' := if t == IdContent then Remove(offered, IdContent) else offered;
            Planned(fields + [Field(name, t)], offered')
            && FieldNames(fields + [Field(name, t)]) == FieldNames(fields) + [name]
            && forall y :: y != IdContent ==> (y in offered' <==> y in offered)
  {
    var fields' := fields + [Field(name, t)];
    assert FieldNames(fields') == FieldNames(fields) + [name];
    if t == IdContent {
      RemoveOffer(offered, IdContent);
    }
  }

  /**
    `promptForEnumValue` over the types on offer: an answer naming a type that is not on
    offer is asked again; running out of answers ends the prompting.
   */
  method PromptType(offered: seq<ContentType>, answers: seq<ContentType>, at: nat)
      returns (t: Option<ContentType>, next: nat)
    requires at <= |answers|
    ensures at <= next <= |answers|
    ensures t.Some? ==> at < next && t.value == answers[next - 1] && t.value in offered
                        && forall k :: at <= k < next - 1 ==> answers[k] !in offered
    ensures t.None? ==> next == |answers| && forall k :: at <= k < next ==> answers[k] !in offered
  {
    next := at;
    while next < |answers| && answers[next] !in offered
      invariant at <= next <= |answers|
      invariant forall k :: at <= k < next ==> answers[k] !in offered
    {
      next := next + 1;
    }
    if next == |answers| {
      return None, next;
    }
    t := Some(answers[next]);
    next := next + 1;
  }

  /** The types offered at first: all of them, less FILE_CONTENT when the input has tokens. */
  method OfferedTypes(tokenBased: bool) returns (offered: seq<ContentType>)
    ensures Distinct(offered)
    ensures forall y :: y in offered <==> y in CONTENT_TYPES && (tokenBased ==> y != FileContentContent)
  {
    offered := CONTENT_TYPES;
    if tokenBased {
      RemoveOffer(offered, FileContentContent);
      offered := Remove(offered, FileContentContent);
    }
  }

  /**
    The field loop of `promptSettingsConfig`. With tokens in the input (`tokenNames`
    present) there is one field per collected token name, in order, and FILE_CONTENT is
    not on offer; otherwise field names are asked for until a blank one, and a name
    already used is refused. ID is on offer until one field takes it. `used` is the
    number of type answers read.
   */
  method PlanFields(tokenNames: Option<seq<string>>, names: seq<string>, types: seq<ContentType>)
      returns (fields: seq<Field>, used: nat)
    requires tokenNames.Some? ==> Distinct(tokenNames.value)
    ensures Distinct(FieldNames(fields)) && AtMostOneId(fields)
    ensures used <= |types|
    ensures tokenNames.Some? ==> |fields| <= |tokenNames.value| && FieldNames(fields) == tokenNames.value[..|fields|]
    ensures tokenNames.Some? ==> forall i :: 0 <= i < |fields| ==> fields[i].content != FileContentContent
    ensures tokenNames.Some? && |fields| < |tokenNames.value| ==> used == |types|
    ensures tokenNames.None? ==> forall i :: 0 <= i < |fields| ==> !IsBlank(fields[i].name) && fields[i].name in names
  {
    var offered := OfferedTypes(tokenNames.Some?);
    var tokens := if tokenNames.Some? then tokenNames.value else [];
    fields, used := [], 0;
    var current, asked := 0, 0;
    while true
      invariant current <= |tokens| && asked <= |names| && used <= |types| && Planned(fields, offered)
      invariant tokenNames.Some? ==> current == |fields| && forall i :: 0 <= i < |fields| ==> fields[i].name == tokens[i]
      invariant tokenNames.Some? ==> FileContentContent !in offered
                                     && forall i :: 0 <= i < |fields| ==> fields[i].content != FileContentContent
      invariant tokenNames.None? ==> forall i :: 0 <= i < |fields| ==> !IsBlank(fields[i].name) && fields[i].name in names
      decreases |tokens| - current + |names| - asked
    {
      var name;
      if tokenNames.Some? {
        if current >= |tokens| {
          break;
        }
        name := tokens[current];
        current := current + 1;
        assert name !in FieldNames(fields) by {
          forall i | 0 <= i < |fields| ensures FieldNames(fields)[i] != name {
            assert fields[i].name == tokens[i];
          }
        }
      } else {
        if asked >= |names| {
          break;
        }
        name := names[asked];
        asked := asked + 1;
        if IsBlank(name) {
          break;
        }
        if name in FieldNames(fields) {
          continue;
        }
      }
      var t;
      t, used := PromptType(offered, types, used);
      if t.None? {
        break;
      }
      AddField(fields, offered, name, t.value);
      if t.value == IdContent {
        offered := Remove(offered, IdContent);
      }
      fields := fields + [Field(name, t.value)];
    }
    if tokenNames.Some? {
      assert FieldNames(fields) == tokens[..|fields|];
    }
  }

  /**
    `promptSettingsConfig` up to the descriptors' own configuration: a new configuration
    holding the input's token names when it has tokens, or else the regex the prompt
    accepted (`regexAnswer`), and the fields planned for the token names or for the names
    asked.
   */
  method PlanSettings(input: string, regexAnswer: string, names: seq<string>, types: seq<ContentType>)
      returns (config: Settings.SettingsConfig, fields: seq<Field>)
    ensures fresh(config)
    ensures config.IsTokenBased() <==> Tokens.Tokens(input) != []
    ensures config.IsTokenBased() ==> config.replacementTokens == Some(Dedup(TokenNames(input))) && config.regex == None
    ensures !config.IsTokenBased() ==> config.regex == Some(regexAnswer)
    ensures Distinct(FieldNames(fields)) && AtMostOneId(fields)
    ensures config.IsTokenBased() ==>
              forall i :: 0 <= i < |fields| ==> fields[i].name in TokenNames(input) && fields[i].content != FileContentContent
  {
    config := new Settings.SettingsConfig();
    var tokenNames := CollectTokenNames(input);
    if tokenNames.Some? {
      DedupProperties(TokenNames(input));
      config.SetReplacementTokens(tokenNames);
    } else {
      config.SetRegex(Some(regexAnswer));
    }
    var used;
    fields, used := PlanFields(tokenNames, names, types);
    if tokenNames.Some? {
      forall i | 0 <= i < |fields| ensures fields[i].name in TokenNames(input) {
        assert FieldNames(fields)[i] == tokenNames.value[i];
      }
    }
  }

  /** `SerializationTypes`. */
  datatype SerializationType = Csv | Json | TokenReplacement

  /** `String.endsWith`. */
  predicate EndsWith(s: string, suffix: string) {
    |suffix| <= |s| && s[|s| - |suffix|..] == suffix
  }

  /**
    The serialisation `process` chooses: token replacement for a token-based
    configuration; otherwise CSV or JSON by the output file's extension, and the answer
    `prompted` at the prompt for any other name.
   */
  function ChooseSerialization(config: Settings.SettingsConfig, outputName: string, prompted: SerializationType)
    : (r: SerializationType)
    reads config
    ensures config.IsTokenBased() ==> r == TokenReplacement
    ensures !config.IsTokenBased() && EndsWith(outputName, ".csv") ==> r == Csv
    ensures !config.IsTokenBased() && EndsWith(outputName, ".json") ==> r == Json
  {
    ExtensionsExclusive(outputName);
    if config.IsTokenBased() then TokenReplacement
    else if EndsWith(outputName, ".csv") then Csv
    else if EndsWith(outputName, ".json") then Json
    else prompted
  }

  /** No name ends in both extensions, so the order of the two comparisons does not matter. */
  lemma ExtensionsExclusive(outputName: string)
    ensures !(EndsWith(outputName, ".csv") && EndsWith(outputName, ".json"))
  {
    if EndsWith(outputName, ".csv") {
      var n := |outputName|;
      assert outputName[n - 1] == outputName[n - 4..][3] == 'v';
    }
  }

  /** The prompt decides only for a configuration that is not token based and a name without either extension. */
  lemma PromptDecidesOnlyOtherNames(config: Settings.SettingsConfig, outputName: string, p: SerializationType, q: SerializationType)
    requires ChooseSerialization(config, outputName, p) != ChooseSerialization(config, outputName, q)
    ensures !config.IsTokenBased() && !EndsWith(outputName, ".csv") && !EndsWith(outputName, ".json")
  {
  }

  /**
    `process` after `promptSettingsConfig`: an input with a token is serialised by token
    replacement, whatever the output file is called.
   */
  method ProcessChoice(input: string, regexAnswer: string, names: seq<string>, types: seq<ContentType>,
                       outputName: string, prompted: SerializationType)
      returns (t: SerializationType)
    ensures Tokens.Tokens(input) != [] ==> t == TokenReplacement
    ensures Tokens.Tokens(input) == [] && EndsWith(outputName, ".csv") ==> t == Csv
    ensures Tokens.Tokens(input) == [] && EndsWith(outputName, ".json") ==> t == Json
  {
    var config, fields := PlanSettings(input, regexAnswer, names, types);
    t := ChooseSerialization(config, outputName, prompted);
  }
}
