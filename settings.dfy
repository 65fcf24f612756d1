/** SettingsConfig: the replacement tokens or the regex, and the ordered list of descriptors. */
module Settings {
  import opened Wrappers
  import opened Sequences
  import opened Descriptors

  function Names(ds: seq<Descriptor>): (r: seq<string>)
    ensures |r| == |ds| && forall i :: 0 <= i < |ds| ==> r[i] == ds[i].name
  {
    seq(|ds|, i requires 0 <= i < |ds| => ds[i].name)
  }

  class SettingsConfig {
    var replacementTokens: Option<seq<string>>
    var regex: Option<string>
    var settings: seq<Descriptor>

    /** A new configuration: no tokens, no regex, no settings. */
    constructor ()
      ensures replacementTokens == None && regex == None && settings == []
    {
      replacementTokens := None;
      regex := None;
      settings := [];
    }

    /** A configuration is token based when it holds replacement tokens. */
    function IsTokenBased(): bool
      reads this
    {
      replacementTokens.Some?
    }

    method SetReplacementTokens(tokens: Option<seq<string>>)
      modifies this
      ensures replacementTokens == tokens && regex == old(regex) && settings == old(settings)
    {
      replacementTokens := tokens;
    }

    method SetRegex(r: Option<string>)
      modifies this
      ensures regex == r && replacementTokens == old(replacementTokens) && settings == old(settings)
    {
      regex := r;
    }

    method SetSettings(ds: seq<Descriptor>)
      modifies this
      ensures settings == ds && replacementTokens == old(replacementTokens) && regex == old(regex)
    {
      settings := ds;
    }

    /** Appends at the end; the existing entries keep their order. */
    method AddSetting(d: Descriptor)
      modifies this
      ensures settings == old(settings) + [d]
      ensures replacementTokens == old(replacementTokens) && regex == old(regex)
    {
      settings := settings + [d];
    }

    /**
      The first setting whose name equals `n`; none when no setting has that name, where
      `findFirst().get()` throws.
     */
    function GetSetting(n: string): (r: Option<Descriptor>)
      reads this
      ensures r.None? <==> forall i :: 0 <= i < |settings| ==> settings[i].name != n
      ensures r.Some? ==> exists i :: 0 <= i < |settings| && settings[i] == r.value && r.value.name == n
                                      && forall k :: 0 <= k < i ==> settings[k].name != n
    {
      match FirstIndex(Names(settings), n)
      case None => None
      case Some(i) => Some(settings[i])
    }
  }
}
