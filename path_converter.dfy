/**
 * URI prefix rewriting between the editor and the language server
 * (src/pathConverter.ts). Each configured rule pairs a client prefix with a
 * server prefix; URIs coming from the server have every matching server
 * prefix replaced by its client prefix, rule after rule, and URIs going to
 * the server the other way round.
 *
 * `Uri.parse(x).toString()` is taken to give back `x`, and
 * `Uri.file(p).toString()` to be `file://` followed by `p`.
 */
module PathConverter {
  import opened Wrappers

  /**
   * A rule as configured: either a client URI prefix (`clientUri` set) or a
   * client file path (`client`), and a server file path.
   */
  datatype ConfigurationRule = ConfigurationRule(clientUri: Option<string>, client: string, server: string)

  /** A rule with both sides as URI prefixes. */
  datatype ConversionRule = ConversionRule(client: string, server: string)

  /** `isClientUriPrefixConversionRule`: the rule names a client URI prefix rather than a path. */
  function IsClientUriPrefixConversionRule(rule: ConfigurationRule): (b: bool)
    ensures b <==> rule.clientUri.Some?
  {
    rule.clientUri != None
  }

  /** `Uri.file(path).toString()`. */
  function FileUri(path: string): (u: string)
    ensures |u| == |path| + 7 && u[7..] == path
  {
    "file://" + path
  }

  /**
   * The constructor's normalisation of one rule: a client URI prefix is
   * kept as it is, a client path and the server path become `file` URIs.
   */
  function Normalize(rule: ConfigurationRule): (r: ConversionRule)
    ensures IsClientUriPrefixConversionRule(rule) ==> r.client == rule.clientUri.value
    ensures !IsClientUriPrefixConversionRule(rule) ==> r.client == FileUri(rule.client)
    ensures r.server == FileUri(rule.server)
  {
    ConversionRule(
      if IsClientUriPrefixConversionRule(rule) then rule.clientUri.value else FileUri(rule.client),
      FileUri(rule.server))
  }

  /** The configured rules, each normalised, in the configured order. */
  function NormalizeAll(rules: seq<ConfigurationRule>): (r: seq<ConversionRule>)
    ensures |r| == |rules| && forall i :: 0 <= i < |rules| ==> r[i] == Normalize(rules[i])
  {
    seq(|rules|, i requires 0 <= i < |rules| => Normalize(rules[i]))
  }

  /** `s` with its prefix `from` replaced by `to`, or `s` itself when it does not start with `from`. */
  function ReplacePrefix(s: string, from: string, to: string): (r: string)
    ensures from <= s ==> |r| == |s| - |from| + |to| && to <= r && r[|to|..] == s[|from|..]
    ensures !(from <= s) ==> r == s
  {
    if from <= s then to + s[|from|..] else s
  }

  /** Replacing a prefix and then putting it back gives the string again. */
  lemma ReplacePrefixInverse(s: string, from: string, to: string)
    requires from <= s
    ensures ReplacePrefix(ReplacePrefix(s, from, to), to, from) == s
  {
  }

  /** `uri` after every rule, in order, has turned a server prefix into its client prefix. */
  function ToCode(rules: seq<ConversionRule>, uri: string): string
  {
    if rules == [] then uri
    else
      var last := rules[|rules| - 1];
      ReplacePrefix(ToCode(rules[..|rules| - 1], uri), last.server, last.client)
  }

  /** `uri` after every rule, in order, has turned a client prefix into its server prefix. */
  function ToProtocol(rules: seq<ConversionRule>, uri: string): string
  {
    if rules == [] then uri
    else
      var last := rules[|rules| - 1];
      ReplacePrefix(ToProtocol(rules[..|rules| - 1], uri), last.client, last.server)
  }

  /** The rules act one after another: the later ones see what the earlier ones produced. */
  lemma {:induction false} ToCodeAppend(a: seq<ConversionRule>, b: seq<ConversionRule>, uri: string)
    ensures ToCode(a + b, uri) == ToCode(b, ToCode(a, uri))
    decreases |b|
  {
    if b == [] {
      assert a + b == a;
    } else {
      ToCodeAppend(a, b[..|b| - 1], uri);
      assert (a + b)[..|a + b| - 1] == a + b[..|b| - 1];
    }
  }

  /** The same holds going to the server. */
  lemma {:induction false} ToProtocolAppend(a: seq<ConversionRule>, b: seq<ConversionRule>, uri: string)
    ensures ToProtocol(a + b, uri) == ToProtocol(b, ToProtocol(a, uri))
    decreases |b|
  {
    if b == [] {
      assert a + b == a;
    } else {
      ToProtocolAppend(a, b[..|b| - 1], uri);
      assert (a + b)[..|a + b| - 1] == a + b[..|b| - 1];
    }
  }

  /** A URI that no rule's prefix matches at any step is left as it is. */
  lemma {:induction false} ToCodeUnmatched(rules: seq<ConversionRule>, uri: string)
    requires forall i :: 0 <= i < |rules| ==> !(rules[i].server <= uri)
    ensures ToCode(rules, uri) == uri
  {
    if rules != [] {
      ToCodeUnmatched(rules[..|rules| - 1], uri);
      assert rules[|rules| - 1] == rules[|rules| - 1];
    }
  }

  /** The mirror: a URI that no rule's client prefix matches at any step is left as it is. */
  lemma {:induction false} ToProtocolUnmatched(rules: seq<ConversionRule>, uri: string)
    requires forall i :: 0 <= i < |rules| ==> !(rules[i].client <= uri)
    ensures ToProtocol(rules, uri) == uri
  {
    if rules != [] {
      ToProtocolUnmatched(rules[..|rules| - 1], uri);
      assert rules[|rules| - 1] == rules[|rules| - 1];
    }
  }

  /**
   * With one rule, sending a URI under the client prefix to the server and
   * back gives the URI again.
   */
  lemma SingleRuleRoundTrip(rule: ConversionRule, uri: string)
    requires rule.client <= uri
    ensures ToCode([rule], ToProtocol([rule], uri)) == uri
  {
  }

  /** Two rules can chain: the second rewrites what the first produced. */
  lemma ChainedRules()
    ensures ToCode([ConversionRule("b", "a"), ConversionRule("c", "b")], "ax") == "cx"
  {
  }

  /** `PathConverterProvider`: the normalised rules and the two converters. */
  class PathConverterProvider {
    const rules: seq<ConversionRule>

    /**
     * The rules come from the `misc.pathConversionRules` setting; an unset
     * or null setting means no rules.
     */
    constructor (configured: Option<seq<ConfigurationRule>>)
      ensures rules == NormalizeAll(configured.GetOr([]))
    {
      rules := NormalizeAll(configured.GetOr([]));
    }

    /** `_protocol2Code`: a URI from the server, rewritten by every rule in order. */
    method Protocol2Code(uri: string) returns (r: string)
      ensures r == ToCode(rules, uri)
    {
      r := uri;
      var i := 0;
      while i < |rules|
        invariant 0 <= i <= |rules|
        invariant r == ToCode(rules[..i], uri)
      {
        var rule := rules[i];
        if rule.server <= r {
          r := rule.client + r[|rule.server|..];
        }
        assert rules[..i + 1][..i] == rules[..i];
        i := i + 1;
      }
      assert rules[..i] == rules;
    }

    /** `_code2Protocol`: a URI for the server, rewritten by every rule in order. */
    method Code2Protocol(uri: string) returns (r: string)
      ensures r == ToProtocol(rules, uri)
    {
      r := uri;
      var i := 0;
      while i < |rules|
        invariant 0 <= i <= |rules|
        invariant r == ToProtocol(rules[..i], uri)
      {
        var rule := rules[i];
        if rule.client <= r {
          r := rule.server + r[|rule.client|..];
        }
        assert rules[..i + 1][..i] == rules[..i];
        i := i + 1;
      }
      assert rules[..i] == rules;
    }
  }
}
