/**
  The `$[name]` token syntax: the pattern `\$\[(.*?)\]` scanned by hand with Java's
  `find()` semantics, literal substitution of the tokens, and the collection of
  distinct token names.
 */
module Tokens {
  import opened Wrappers
  import opened Sequences

  /** The characters `.` does not match: Java's line terminators. */
  predicate IsLineTerminator(c: char) {
    c == '\n' || c == '\r' || c == '\U{0085}' || c == '\U{2028}' || c == '\U{2029}'
  }

  /**
    The lazy `(.*?)\]` from position `k`: the first `]`, provided no line terminator
    comes before it.
   */
  function CloseFrom(s: string, k: nat): (r: Option<nat>)
    ensures r.Some? ==> k <= r.value < |s| && s[r.value] == ']'
    decreases |s| - k
  {
    if k >= |s| then None
    else if s[k] == ']' then Some(k)
    else if IsLineTerminator(s[k]) then None
    else CloseFrom(s, k + 1)
  }

  /** The bracket found is the first one, and no line terminator precedes it. */
  lemma {:induction false} CloseFromFirst(s: string, k: nat)
    requires CloseFrom(s, k).Some?
    ensures forall j :: k <= j < CloseFrom(s, k).value ==> s[j] != ']' && !IsLineTerminator(s[j])
    decreases |s| - k
  {
    if s[k] != ']' {
      CloseFromFirst(s, k + 1);
    }
  }

  /** No closing bracket is found exactly when a line terminator comes before every `]`. */
  lemma {:induction false} CloseFromNone(s: string, k: nat)
    requires CloseFrom(s, k).None?
    ensures forall j :: k <= j < |s| && s[j] == ']' ==> exists t :: k <= t < j && IsLineTerminator(s[t])
    decreases |s| - k
  {
    if k < |s| && s[k] != ']' && !IsLineTerminator(s[k]) {
      CloseFromNone(s, k + 1);
    }
  }

  /** A match of the token pattern: `$[` at `start`, its closing `]` at `close`. */
  datatype Token = Token(start: nat, close: nat)

  predicate IsToken(s: string, t: Token) {
    t.start + 2 <= t.close < |s| && s[t.start] == '$' && s[t.start + 1] == '['
    && CloseFrom(s, t.start + 2) == Some(t.close)
  }

  /** The pattern tried at one position. */
  function TokenAt(s: string, i: nat): (r: Option<Token>)
    ensures r.Some? ==> r.value.start == i && IsToken(s, r.value)
  {
    if i + 1 < |s| && s[i] == '$' && s[i + 1] == '[' then
      match CloseFrom(s, i + 2)
      case Some(j) => Some(Token(i, j))
      case None => None
    else None
  }

  /** `find()` from position `from`: the leftmost match starting there or later. */
  function FindToken(s: string, from: nat): (r: Option<Token>)
    ensures r.Some? ==> from <= r.value.start && IsToken(s, r.value)
    decreases |s| - from
  {
    if from >= |s| then None
    else match TokenAt(s, from)
      case Some(t) => Some(t)
      case None => FindToken(s, from + 1)
  }

  /** No token starts at a position where the pattern fails. */
  lemma TokenAtNone(s: string, i: nat)
    requires TokenAt(s, i).None?
    ensures forall t: Token :: t.start == i ==> !IsToken(s, t)
  {
  }

  /** `find()` returns the leftmost match: none starts between `from` and it, or anywhere when it fails. */
  lemma {:induction false} FindTokenLeftmost(s: string, from: nat)
    ensures FindToken(s, from).Some? ==> forall i :: from <= i < FindToken(s, from).value.start ==> TokenAt(s, i).None?
    ensures FindToken(s, from).None? ==> forall i :: from <= i ==> TokenAt(s, i).None?
    decreases |s| - from
  {
    if from < |s| && TokenAt(s, from).None? {
      FindTokenLeftmost(s, from + 1);
    }
  }

  /** Tokens in order, each after the previous one's closing bracket. */
  predicate Chained(toks: seq<Token>, from: nat)
    decreases |toks|
  {
    |toks| == 0 || (from <= toks[0].start < toks[0].close && Chained(toks[1..], toks[0].close + 1))
  }

  /** Chained tokens start at or after `from` and do not overlap, in order. */
  lemma {:induction false} ChainedOrdered(toks: seq<Token>, from: nat)
    requires Chained(toks, from)
    ensures forall i :: 0 <= i < |toks| ==> from <= toks[i].start < toks[i].close
    ensures forall i, j :: 0 <= i < j < |toks| ==> toks[i].close < toks[j].start
    decreases |toks|
  {
    if |toks| > 0 {
      var r := toks[1..];
      ChainedOrdered(r, toks[0].close + 1);
      assert forall i :: 0 < i < |toks| ==> toks[i] == r[i - 1];
    }
  }

  predicate AllTokens(s: string, toks: seq<Token>) {
    forall i :: 0 <= i < |toks| ==> IsToken(s, toks[i])
  }

  /** Repeated `find()`: each search resumes right after the previous match. */
  function TokensFrom(s: string, from: nat): seq<Token>
    decreases |s| - from
  {
    match FindToken(s, from)
    case None => []
    case Some(t) => [t] + TokensFrom(s, t.close + 1)
  }

  /** Every match found is a token, and the matches are in order without overlap. */
  lemma {:induction false} TokensFromValid(s: string, from: nat)
    ensures AllTokens(s, TokensFrom(s, from)) && Chained(TokensFrom(s, from), from)
    decreases |s| - from
  {
    match FindToken(s, from)
    case None =>
    case Some(t) =>
      TokensFromValid(s, t.close + 1);
      ChainCons(s, t, TokensFrom(s, t.close + 1), from);
  }

  lemma ChainCons(s: string, t: Token, rest: seq<Token>, from: nat)
    requires from <= t.start && IsToken(s, t) && AllTokens(s, rest) && Chained(rest, t.close + 1)
    ensures AllTokens(s, [t] + rest) && Chained([t] + rest, from)
  {
    var r := [t] + rest;
    assert forall i :: 0 < i < |r| ==> r[i] == rest[i - 1];
  }

  lemma ChainTail(s: string, toks: seq<Token>, from: nat)
    requires |toks| > 0 && AllTokens(s, toks) && Chained(toks, from)
    ensures AllTokens(s, toks[1..]) && Chained(toks[1..], toks[0].close + 1)
  {
    var r := toks[1..];
    assert forall i :: 0 <= i < |r| ==> r[i] == toks[i + 1];
  }

  lemma TokensFromStep(s: string, from: nat, t: Token)
    requires FindToken(s, from) == Some(t)
    ensures from < t.close + 1 && TokensFrom(s, from) == [t] + TokensFrom(s, t.close + 1)
  {
  }

  function Tokens(s: string): seq<Token> {
    TokensFrom(s, 0)
  }

  /**
    `group(1)`: the text between `$[` and the closing `]`, which holds neither a `]` nor a
    line terminator.
   */
  function TokenName(s: string, t: Token): string
    requires IsToken(s, t)
  {
    s[t.start + 2..t.close]
  }

  /** A token reads `$[`, its name, `]`; the name holds neither a `]` nor a line terminator. */
  lemma TokenNameShape(s: string, t: Token)
    requires IsToken(s, t)
    ensures s[t.start..t.close + 1] == "$[" + TokenName(s, t) + "]"
    ensures forall i :: 0 <= i < |TokenName(s, t)| ==> TokenName(s, t)[i] != ']' && !IsLineTerminator(TokenName(s, t)[i])
  {
    var n := TokenName(s, t);
    CloseFromFirst(s, t.start + 2);
    assert forall i :: 0 <= i < |n| ==> n[i] == s[t.start + 2 + i];
  }

  /** The names of the tokens, in order. */
  function NamesOf(s: string, toks: seq<Token>): (r: seq<string>)
    requires AllTokens(s, toks)
    ensures |r| == |toks|
    decreases |toks|
  {
    if |toks| == 0 then [] else [TokenName(s, toks[0])] + NamesOf(s, toks[1..])
  }

  lemma {:induction false} NamesOfAt(s: string, toks: seq<Token>, j: nat)
    requires AllTokens(s, toks) && j < |toks|
    ensures NamesOf(s, toks)[j] == TokenName(s, toks[j])
    decreases |toks|
  {
    if j > 0 {
      var r := toks[1..];
      assert AllTokens(s, r) by {
        assert forall i :: 0 <= i < |r| ==> r[i] == toks[i + 1];
      }
      NamesOfAt(s, r, j - 1);
    }
  }

  function TokenNames(s: string): seq<string> {
    TokensFromValid(s, 0);
    NamesOf(s, Tokens(s))
  }

  /**
    `appendReplacement` for each token, then `appendTail`, with the values taken
    literally: the text between tokens is copied and each token is replaced by its value.
   */
  function Substitute(s: string, from: nat, toks: seq<Token>, values: seq<string>): string
    requires from <= |s| && |values| == |toks| && Chained(toks, from) && AllTokens(s, toks)
    decreases |toks|
  {
    if |toks| == 0 then s[from..]
    else
      ChainTail(s, toks, from);
      s[from..toks[0].start] + values[0] + Substitute(s, toks[0].close + 1, toks[1..], values[1..])
  }

  /** Each token's own text. */
  function TokenTexts(s: string, toks: seq<Token>): (r: seq<string>)
    requires AllTokens(s, toks)
    ensures |r| == |toks|
    decreases |toks|
  {
    if |toks| == 0 then [] else [s[toks[0].start..toks[0].close + 1]] + TokenTexts(s, toks[1..])
  }

  lemma SubstituteCons(s: string, from: nat, toks: seq<Token>, values: seq<string>)
    requires from <= |s| && |values| == |toks| && Chained(toks, from) && AllTokens(s, toks) && |toks| > 0
    ensures Chained(toks[1..], toks[0].close + 1) && AllTokens(s, toks[1..])
    ensures Substitute(s, from, toks, values) ==
      s[from..toks[0].start] + values[0] + Substitute(s, toks[0].close + 1, toks[1..], values[1..])
  {
    ChainTail(s, toks, from);
  }

  /** The pieces `s[a..b]`, `s[b..c]` and `s[c..]` put together again. */
  lemma Reassemble(s: string, a: nat, b: nat, c: nat, middle: string, tail: string)
    requires a <= b <= c <= |s| && middle == s[b..c] && tail == s[c..]
    ensures s[a..b] + middle + tail == s[a..]
  {
    assert s[a..] == s[a..b] + s[b..c] + s[c..];
  }

  /** Substitution changes nothing but the tokens: putting each token's own text back yields the input. */
  lemma {:induction false} SubstituteOwnText(s: string, from: nat, toks: seq<Token>, texts: seq<string>)
    requires from <= |s| && Chained(toks, from) && AllTokens(s, toks) && texts == TokenTexts(s, toks)
    ensures Substitute(s, from, toks, texts) == s[from..]
    decreases |toks|
  {
    if |toks| > 0 {
      ChainTail(s, toks, from);
      assert texts[1..] == TokenTexts(s, toks[1..]);
      SubstituteOwnText(s, toks[0].close + 1, toks[1..], texts[1..]);
      SubstituteOwnFirst(s, from, toks, texts);
    }
  }

  /** The first token's own text, the text before it and the substituted rest give the input back. */
  lemma SubstituteOwnFirst(s: string, from: nat, toks: seq<Token>, texts: seq<string>)
    requires from <= |s| && Chained(toks, from) && AllTokens(s, toks) && texts == TokenTexts(s, toks) && |toks| > 0
    requires Chained(toks[1..], toks[0].close + 1) && AllTokens(s, toks[1..])
    requires Substitute(s, toks[0].close + 1, toks[1..], texts[1..]) == s[toks[0].close + 1..]
    ensures Substitute(s, from, toks, texts) == s[from..]
  {
    var t := toks[0];
    SubstituteCons(s, from, toks, texts);
    Reassemble(s, from, t.start, t.close + 1, texts[0], Substitute(s, t.close + 1, toks[1..], texts[1..]));
  }

  /** The collection loop from `pos` on, with `names` gathered so far. */
  function CollectFrom(s: string, pos: nat, names: seq<string>): seq<string>
    decreases |s| - pos
  {
    match FindToken(s, pos)
    case None => names
    case Some(t) => CollectFrom(s, t.close + 1, Add(names, TokenName(s, t)))
  }

  lemma CollectFromStep(s: string, pos: nat, names: seq<string>, t: Token)
    requires FindToken(s, pos) == Some(t)
    ensures pos < t.close + 1 <= |s| && IsToken(s, t)
    ensures CollectFrom(s, pos, names) == CollectFrom(s, t.close + 1, Add(names, TokenName(s, t)))
  {
  }

  lemma NamesOfCons(s: string, t: Token, rest: seq<Token>)
    requires IsToken(s, t) && AllTokens(s, rest)
    ensures AllTokens(s, [t] + rest) && NamesOf(s, [t] + rest) == [TokenName(s, t)] + NamesOf(s, rest)
  {
    assert ([t] + rest)[1..] == rest;
  }

  /** The loop adds the names of the remaining tokens, in order, to those gathered so far. */
  lemma {:induction false} CollectFromAddsNames(s: string, pos: nat, names: seq<string>)
    ensures AllTokens(s, TokensFrom(s, pos))
    ensures CollectFrom(s, pos, names) == AddAll(names, NamesOf(s, TokensFrom(s, pos)))
    decreases |s| - pos
  {
    TokensFromValid(s, pos);
    match FindToken(s, pos)
    case None =>
    case Some(t) =>
      var n := TokenName(s, t);
      var rest := TokensFrom(s, t.close + 1);
      var added := Add(names, n);
      CollectFromAddsNames(s, t.close + 1, added);
      NamesOfCons(s, t, rest);
      calc {
        CollectFrom(s, pos, names);
        { CollectFromStep(s, pos, names, t); }
        CollectFrom(s, t.close + 1, added);
        AddAll(added, NamesOf(s, rest));
        { AddAllCons(names, n, NamesOf(s, rest)); }
        AddAll(names, [n] + NamesOf(s, rest));
        AddAll(names, NamesOf(s, [t] + rest));
        { TokensFromStep(s, pos, t); }
        AddAll(names, NamesOf(s, TokensFrom(s, pos)));
      }
  }

  /** The loop from the start yields the distinct token names; it finds nothing exactly when there is no token. */
  lemma CollectFromDedups(s: string)
    ensures FindToken(s, 0).None? <==> Tokens(s) == []
    ensures CollectFrom(s, 0, []) == Dedup(TokenNames(s))
  {
    CollectFromAddsNames(s, 0, []);
    AddAllDedup(TokenNames(s), 0);
    assert TokenNames(s)[..0] == [] && TokenNames(s)[0..] == TokenNames(s);
  }

  /**
    The token-name collection of the settings prompt: none when the input holds no token,
    otherwise the names in a `LinkedHashSet`, each once, in order of first occurrence.
   */
  method CollectTokenNames(s: string) returns (names: Option<seq<string>>)
    ensures Tokens(s) == [] ==> names == None
    ensures Tokens(s) != [] ==> names == Some(Dedup(TokenNames(s)))
  {
    CollectFromDedups(s);
    var found := FindToken(s, 0);
    if found.None? {
      return None;
    }
    var nameSet: seq<string> := [];
    var pos: nat := 0;
    while found.Some?
      invariant pos <= |s| && found == FindToken(s, pos)
      invariant CollectFrom(s, pos, nameSet) == CollectFrom(s, 0, [])
      decreases |s| - pos
    {
      var t := found.value;
      var name := TokenName(s, t);
      CollectFromStep(s, pos, nameSet, t);
      nameSet := Add(nameSet, name);
      pos := t.close + 1;
      found := FindToken(s, pos);
    }
    names := Some(nameSet);
  }
}
