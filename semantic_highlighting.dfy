/** The `SymbolKind` values the backend sends: LSP symbol kinds plus ccls's own. */
module SymbolKind {
  const Unknown: int := 0
  const File: int := 1
  const Namespace: int := 3
  const Class: int := 5
  const Method: int := 6
  const Field: int := 8
  const Constructor: int := 9
  const Enum: int := 10
  const Function: int := 12
  const Variable: int := 13
  const String: int := 15
  const EnumMember: int := 22
  const Struct: int := 23
  const TypeParameter: int := 26
  const TypeAlias: int := 252
  const Parameter: int := 253
  const StaticMethod: int := 254
  const Macro: int := 255
}

/** The `StorageClass` values the backend sends. */
module StorageClass {
  const Invalid: int := 0
  const None: int := 1
  const Extern: int := 2
  const Static: int := 3
  const PrivateExtern: int := 4
  const Auto: int := 5
  const Register: int := 6
}

/**
 * Semantic highlighting (src/semanticHighlighting.ts): a symbol the
 * backend publishes is classified into one of fifteen categories when its
 * kind is one of fifteen mapped kinds, and is not highlighted otherwise; an
 * enabled category has a list of decoration types, one per configured
 * colour, and the symbol's stable id picks one of them. The ranges of a
 * published document are grouped by decoration type and cached per URI.
 *
 * The editor's configuration is a map from full setting names to values;
 * a missing setting reads as its default.
 */
module SemanticHighlighting {
  import opened Wrappers
  import opened Lsp
  import SymbolKind
  import StorageClass

  /** The fifteen highlighting categories. */
  datatype Category =
    | Types
    | FreeStandingFunctions
    | MemberFunctions
    | FreeStandingVariables
    | MemberVariables
    | Namespaces
    | Macros
    | Enums
    | TypeAliases
    | EnumConstants
    | StaticMemberFunctions
    | Parameters
    | TemplateParameters
    | StaticMemberVariables
    | GlobalVariables

  /** The name a category has in settings and in the decoration tables. */
  function Name(c: Category): string {
    match c
    case Types => "types"
    case FreeStandingFunctions => "freeStandingFunctions"
    case MemberFunctions => "memberFunctions"
    case FreeStandingVariables => "freeStandingVariables"
    case MemberVariables => "memberVariables"
    case Namespaces => "namespaces"
    case Macros => "macros"
    case Enums => "enums"
    case TypeAliases => "typeAliases"
    case EnumConstants => "enumConstants"
    case StaticMemberFunctions => "staticMemberFunctions"
    case Parameters => "parameters"
    case TemplateParameters => "templateParameters"
    case StaticMemberVariables => "staticMemberVariables"
    case GlobalVariables => "globalVariables"
  }

  /** The categories, in the order the extension registers them. */
  const Categories: seq<Category> := [
    Types, FreeStandingFunctions, MemberFunctions, FreeStandingVariables, MemberVariables, Namespaces, Macros, Enums, TypeAliases, EnumConstants, StaticMemberFunctions, Parameters, TemplateParameters, StaticMemberVariables, GlobalVariables]

  /**
   * The settings whose being on means that some semantic highlighting is
   * wanted: the enable setting of every category, in the order above.
   */
  const HighlightingOptions: seq<string> :=
    seq(|Categories|, i requires 0 <= i < |Categories| => EnabledPrefix + Name(Categories[i]))

  /** Prefix of the setting that turns one category on. */
  const EnabledPrefix: string := "ccls.highlighting.enabled."

  /** Prefix of the setting that lists one category's colours. */
  const ColorsPrefix: string := "ccls.highlighting.colors."

  /** A boolean setting, `false` when it is not set. */
  function ConfigFlag(config: map<string, bool>, key: string): bool {
    if key in config then config[key] else false
  }

  /** The colours the setting of `category` lists, none when it is not set. */
  function ColorsOf(colors: map<string, seq<string>>, category: Category): seq<string> {
    var key := ColorsPrefix + Name(category);
    if key in colors then colors[key] else []
  }

  /** One symbol of a `$ccls/publishSemanticHighlighting` notification. */
  datatype SemanticSymbol = SemanticSymbol(
    stableId: int, parentKind: int, kind: int, storage: int, lsRanges: seq<Range>)

  /** A decoration type: the `slot`-th colour configured for `category`. */
  datatype DecorationType = DecorationType(category: Category, slot: nat, color: string)

  /** Ranges to paint, per decoration type. */
  type Decorations = map<DecorationType, seq<Range>>

  /**
   * The category a symbol belongs to, if any: the branch chain of
   * `tryFindDecoration`.
   */
  function CategoryOf(kind: int, parentKind: int, storage: int): (r: Option<Category>)
    ensures kind == SymbolKind.Class || kind == SymbolKind.Struct ==> r == Some(Types)
    ensures kind == SymbolKind.Method || kind == SymbolKind.Constructor ==> r == Some(MemberFunctions)
    ensures kind == SymbolKind.Variable ==>
      r == (if parentKind in {SymbolKind.Function, SymbolKind.Method, SymbolKind.Constructor}
            then Some(FreeStandingVariables) else Some(GlobalVariables))
    ensures kind == SymbolKind.Field ==>
      r == (if storage == StorageClass.Static then Some(StaticMemberVariables) else Some(MemberVariables))
    ensures r.Some? <==> kind in MappedKinds()
  {
    if kind == SymbolKind.Class || kind == SymbolKind.Struct then Some(Types)
    else if kind == SymbolKind.Enum then Some(Enums)
    else if kind == SymbolKind.TypeAlias then Some(TypeAliases)
    else if kind == SymbolKind.TypeParameter then Some(TemplateParameters)
    else if kind == SymbolKind.Function then Some(FreeStandingFunctions)
    else if kind == SymbolKind.Method || kind == SymbolKind.Constructor then Some(MemberFunctions)
    else if kind == SymbolKind.StaticMethod then Some(StaticMemberFunctions)
    else if kind == SymbolKind.Variable then
      if parentKind == SymbolKind.Function || parentKind == SymbolKind.Method ||
         parentKind == SymbolKind.Constructor
      then Some(FreeStandingVariables)
      else Some(GlobalVariables)
    else if kind == SymbolKind.Field then
      if storage == StorageClass.Static then Some(StaticMemberVariables) else Some(MemberVariables)
    else if kind == SymbolKind.Parameter then Some(Parameters)
    else if kind == SymbolKind.EnumMember then Some(EnumConstants)
    else if kind == SymbolKind.Namespace then Some(Namespaces)
    else if kind == SymbolKind.Macro then Some(Macros)
    else None
  }

  /** The symbol kinds that have a category. */
  function MappedKinds(): set<int> {
    {SymbolKind.Class, SymbolKind.Struct, SymbolKind.Enum, SymbolKind.TypeAlias,
     SymbolKind.TypeParameter, SymbolKind.Function, SymbolKind.Method, SymbolKind.Constructor,
     SymbolKind.StaticMethod, SymbolKind.Variable, SymbolKind.Field, SymbolKind.Parameter,
     SymbolKind.EnumMember, SymbolKind.Namespace, SymbolKind.Macro}
  }

  /** Where a category stands in `Categories`: the list names every category. */
  function CategoryIndex(c: Category): (i: nat)
    ensures i < |Categories| && Categories[i] == c
  {
    match c
    case Types => 0
    case FreeStandingFunctions => 1
    case MemberFunctions => 2
    case FreeStandingVariables => 3
    case MemberVariables => 4
    case Namespaces => 5
    case Macros => 6
    case Enums => 7
    case TypeAliases => 8
    case EnumConstants => 9
    case StaticMemberFunctions => 10
    case Parameters => 11
    case TemplateParameters => 12
    case StaticMemberVariables => 13
    case GlobalVariables => 14
  }

  /** No category is listed twice: the category at position `i` has index `i`. */
  lemma CategoriesDistinct(i: nat)
    requires i < |Categories|
    ensures CategoryIndex(Categories[i]) == i
  {
  }

  /** Every category is reached by some symbol: the mapping misses none of the fifteen. */
  lemma EveryCategoryReached(c: Category)
    ensures exists kind, parentKind, storage :: CategoryOf(kind, parentKind, storage) == Some(c)
  {
    match c
    case Types => assert CategoryOf(SymbolKind.Class, 0, 0) == Some(c);
    case FreeStandingFunctions => assert CategoryOf(SymbolKind.Function, 0, 0) == Some(c);
    case MemberFunctions => assert CategoryOf(SymbolKind.Method, 0, 0) == Some(c);
    case FreeStandingVariables => assert CategoryOf(SymbolKind.Variable, SymbolKind.Function, 0) == Some(c);
    case MemberVariables => assert CategoryOf(SymbolKind.Field, 0, 0) == Some(c);
    case Namespaces => assert CategoryOf(SymbolKind.Namespace, 0, 0) == Some(c);
    case Macros => assert CategoryOf(SymbolKind.Macro, 0, 0) == Some(c);
    case Enums => assert CategoryOf(SymbolKind.Enum, 0, 0) == Some(c);
    case TypeAliases => assert CategoryOf(SymbolKind.TypeAlias, 0, 0) == Some(c);
    case EnumConstants => assert CategoryOf(SymbolKind.EnumMember, 0, 0) == Some(c);
    case StaticMemberFunctions => assert CategoryOf(SymbolKind.StaticMethod, 0, 0) == Some(c);
    case Parameters => assert CategoryOf(SymbolKind.Parameter, 0, 0) == Some(c);
    case TemplateParameters => assert CategoryOf(SymbolKind.TypeParameter, 0, 0) == Some(c);
    case StaticMemberVariables => assert CategoryOf(SymbolKind.Field, 0, StorageClass.Static) == Some(c);
    case GlobalVariables => assert CategoryOf(SymbolKind.Variable, 0, 0) == Some(c);
  }

  /** `makeDecorations`: one decoration type per configured colour of `category`, in order. */
  function MakeDecorations(category: Category, colors: seq<string>): (ds: seq<DecorationType>)
    ensures |ds| == |colors|
    ensures forall i :: 0 <= i < |ds| ==> ds[i] == DecorationType(category, i, colors[i])
  {
    seq(|colors|, i requires 0 <= i < |colors| => DecorationType(category, i, colors[i]))
  }

  /**
   * JavaScript's `a % n` for a positive `n`: the remainder truncated toward
   * zero, so it takes the sign of `a` (a negative `a` gives a remainder in
   * `-n+1..0`, and `-0` indexes like `0`).
   */
  function JsRem(a: int, n: int): (r: int)
    requires n > 0
    ensures -n < r < n
    ensures a >= 0 ==> r == a % n
    ensures a < 0 ==> r <= 0 && -r == (-a) % n
  {
    if a >= 0 then a % n else -((-a) % n)
  }

  /**
   * With three colours, id `-7` has remainder `-1` and finds no decoration
   * type, while id `-6` has remainder `-0` and finds the first one.
   */
  lemma NegativeIds(colors: seq<string>)
    requires |colors| == 3
    ensures FindDecoration(map[Types := MakeDecorations(Types, colors)], map[Types := true],
                           SemanticSymbol(-7, 0, SymbolKind.Struct, 0, [])) == None
    ensures FindDecoration(map[Types := MakeDecorations(Types, colors)], map[Types := true],
                           SemanticSymbol(-6, 0, SymbolKind.Struct, 0, [])) == Some(DecorationType(Types, 0, colors[0]))
  {
    assert JsRem(-7, 3) == -1;
    assert JsRem(-6, 3) == 0;
  }

  /**
   * `tryFindDecoration`: nothing for a symbol without a category, for a
   * disabled category and for a category without colours; otherwise the
   * element `stableId % n` of the category's `n` types, which for a
   * negative remainder is `undefined`.
   */
  function FindDecoration(decorations: map<Category, seq<DecorationType>>, enabled: map<Category, bool>,
                          symbol: SemanticSymbol): (r: Option<DecorationType>)
    ensures r.Some? <==>
      var c := CategoryOf(symbol.kind, symbol.parentKind, symbol.storage);
      c.Some? && c.value in enabled && enabled[c.value] && c.value in decorations && |decorations[c.value]| > 0 &&
      JsRem(symbol.stableId, |decorations[c.value]|) >= 0
    ensures r.Some? ==>
      var ds := decorations[CategoryOf(symbol.kind, symbol.parentKind, symbol.storage).value];
      0 <= JsRem(symbol.stableId, |ds|) < |ds| && r.value == ds[JsRem(symbol.stableId, |ds|)]
  {
    match CategoryOf(symbol.kind, symbol.parentKind, symbol.storage)
    case None => None
    case Some(name) =>
      if !(name in enabled && enabled[name]) || name !in decorations then None
      else
        var ds := decorations[name];
        if |ds| == 0 then None
        else
          var k := JsRem(symbol.stableId, |ds|);
          if k < 0 then None else Some(ds[k])
  }

  /** `FindDecoration` against fixed tables, as a function of the symbol. */
  function Classifier(decorations: map<Category, seq<DecorationType>>, enabled: map<Category, bool>)
    : (find: SemanticSymbol -> Option<DecorationType>)
    ensures forall s :: find(s) == FindDecoration(decorations, enabled, s)
  {
    s => FindDecoration(decorations, enabled, s)
  }

  /** Whether some symbol of `symbols` is painted with `t`. */
  ghost predicate Decorated(find: SemanticSymbol -> Option<DecorationType>, symbols: seq<SemanticSymbol>,
                            t: DecorationType)
  {
    exists i :: 0 <= i < |symbols| && find(symbols[i]) == Some(t)
  }

  /** The ranges painted with `t`: those of the symbols that find `t`, in symbol order. */
  function RangesFor(find: SemanticSymbol -> Option<DecorationType>, symbols: seq<SemanticSymbol>,
                     t: DecorationType): seq<Range>
  {
    if symbols == [] then []
    else
      var last := symbols[|symbols| - 1];
      RangesFor(find, symbols[..|symbols| - 1], t) + (if find(last) == Some(t) then last.lsRanges else [])
  }

  /** Grouping distributes over concatenation: two batches of symbols paint what they paint apart. */
  lemma {:induction false} RangesForAppend(find: SemanticSymbol -> Option<DecorationType>,
                                           a: seq<SemanticSymbol>, b: seq<SemanticSymbol>, t: DecorationType)
    ensures RangesFor(find, a + b, t) == RangesFor(find, a, t) + RangesFor(find, b, t)
    decreases |b|
  {
    if b == [] {
      assert a + b == a;
    } else {
      RangesForAppend(find, a, b[..|b| - 1], t);
      assert (a + b)[..|a + b| - 1] == a + b[..|b| - 1];
    }
  }

  /** Each symbol's ranges land, between those of the symbols before and after it, under its own decoration only. */
  lemma {:induction false} RangesForOne(find: SemanticSymbol -> Option<DecorationType>,
                                        symbols: seq<SemanticSymbol>, i: nat, t: DecorationType)
    requires i < |symbols|
    ensures RangesFor(find, symbols, t) ==
      RangesFor(find, symbols[..i], t) +
      (if find(symbols[i]) == Some(t) then symbols[i].lsRanges else []) +
      RangesFor(find, symbols[i + 1..], t)
  {
    assert symbols == symbols[..i] + [symbols[i]] + symbols[i + 1..];
    RangesForAppend(find, symbols[..i] + [symbols[i]], symbols[i + 1..], t);
    RangesForAppend(find, symbols[..i], [symbols[i]], t);
    assert [symbols[i]][..0] == [];
  }

  /** A decoration type no symbol finds gets no ranges. */
  lemma {:induction false} RangesForUndecorated(find: SemanticSymbol -> Option<DecorationType>,
                                                symbols: seq<SemanticSymbol>, t: DecorationType)
    requires !Decorated(find, symbols, t)
    ensures RangesFor(find, symbols, t) == []
  {
    if symbols != [] {
      var prefix := symbols[..|symbols| - 1];
      assert !Decorated(find, prefix, t) by {
        forall j | 0 <= j < |prefix| ensures find(prefix[j]) != Some(t) {
          assert prefix[j] == symbols[j];
        }
      }
      RangesForUndecorated(find, prefix, t);
    }
  }

  /** The `Decorated` and `RangesFor` facts of one more symbol. */
  lemma GroupStep(find: SemanticSymbol -> Option<DecorationType>, symbols: seq<SemanticSymbol>, i: nat)
    requires i < |symbols|
    ensures forall t :: Decorated(find, symbols[..i + 1], t) <==>
      (Decorated(find, symbols[..i], t) || find(symbols[i]) == Some(t))
    ensures forall t ::
      RangesFor(find, symbols[..i + 1], t) ==
      RangesFor(find, symbols[..i], t) + (if find(symbols[i]) == Some(t) then symbols[i].lsRanges else [])
  {
    assert symbols[..i + 1][..i] == symbols[..i];
    forall t
      ensures Decorated(find, symbols[..i + 1], t) <==> (Decorated(find, symbols[..i], t) || find(symbols[i]) == Some(t))
    {
      if find(symbols[i]) == Some(t) {
        assert symbols[..i + 1][i] == symbols[i];
      }
      if Decorated(find, symbols[..i + 1], t) {
        var j :| 0 <= j < i + 1 && find(symbols[..i + 1][j]) == Some(t);
        if j < i { assert symbols[..i + 1][j] == symbols[..i][j]; }
      }
      if Decorated(find, symbols[..i], t) {
        var j :| 0 <= j < i && find(symbols[..i][j]) == Some(t);
        assert symbols[..i + 1][j] == symbols[..i][j];
      }
    }
  }

  /**
   * One turn of the grouping loop keeps it in step with `RangesFor`: the
   * symbol's ranges are appended under the decoration it finds, or start
   * that decoration's entry.
   */
  lemma GroupUpdate(find: SemanticSymbol -> Option<DecorationType>, symbols: seq<SemanticSymbol>, i: nat,
                    before: Decorations, found: Option<DecorationType>, after: Decorations)
    requires i < |symbols| && found == find(symbols[i])
    requires forall t :: t in before <==> Decorated(find, symbols[..i], t)
    requires forall t :: t in before ==> before[t] == RangesFor(find, symbols[..i], t)
    requires found.None? ==> after == before
    requires found.Some? && found.value in before ==>
      after == before[found.value := before[found.value] + symbols[i].lsRanges]
    requires found.Some? && found.value !in before ==> after == before[found.value := symbols[i].lsRanges]
    ensures forall t :: t in after <==> Decorated(find, symbols[..i + 1], t)
    ensures forall t :: t in after ==> after[t] == RangesFor(find, symbols[..i + 1], t)
  {
    GroupStep(find, symbols, i);
    if found.Some? && found.value !in before {
      RangesForUndecorated(find, symbols[..i], found.value);
    }
  }

  /**
   * The registration loop of `activate` over `categories`: each gets one
   * decoration type per colour `colorsOf` lists for it, and starts disabled.
   */
  method RegisterCategories(categories: seq<Category>, colorsOf: Category -> seq<string>)
    returns (decorations: map<Category, seq<DecorationType>>, enabled: map<Category, bool>)
    ensures forall c :: c in decorations <==> c in categories
    ensures forall c :: c in enabled <==> c in categories
    ensures forall c :: c in decorations ==> decorations[c] == MakeDecorations(c, colorsOf(c))
    ensures forall c :: c in enabled ==> !enabled[c]
  {
    decorations := map[];
    enabled := map[];
    var i := 0;
    while i < |categories|
      invariant 0 <= i <= |categories|
      invariant forall c :: c in decorations <==> c in categories[..i]
      invariant forall c :: c in enabled <==> c in categories[..i]
      invariant forall c :: c in decorations ==> decorations[c] == MakeDecorations(c, colorsOf(c))
      invariant forall c :: c in enabled ==> !enabled[c]
    {
      var c := categories[i];
      decorations := decorations[c := MakeDecorations(c, colorsOf(c))];
      enabled := enabled[c := false];
      assert categories[..i + 1] == categories[..i] + [c];
      i := i + 1;
    }
    assert categories[..i] == categories;
  }

  /**
   * The grouping loop of the publish handler, with `find` the decoration
   * lookup: a symbol without a decoration is skipped, the first symbol
   * finding a decoration starts its entry, and later ones append to it.
   */
  method GroupSymbols(find: SemanticSymbol -> Option<DecorationType>, symbols: seq<SemanticSymbol>)
    returns (decorations: Decorations)
    ensures forall t :: t in decorations <==> Decorated(find, symbols, t)
    ensures forall t :: t in decorations ==> decorations[t] == RangesFor(find, symbols, t)
  {
    decorations := map[];
    var i := 0;
    while i < |symbols|
      invariant 0 <= i <= |symbols|
      invariant forall t :: t in decorations <==> Decorated(find, symbols[..i], t)
      invariant forall t :: t in decorations ==> decorations[t] == RangesFor(find, symbols[..i], t)
    {
      var symbol := symbols[i];
      var found := find(symbol);
      ghost var before := decorations;
      if found.Some? {
        var t := found.value;
        if t in decorations {
          decorations := decorations[t := decorations[t] + symbol.lsRanges];
        } else {
          decorations := decorations[t := symbol.lsRanges];
        }
      }
      GroupUpdate(find, symbols, i, before, found, decorations);
      i := i + 1;
    }
    assert symbols[..i] == symbols;
  }

  /**
   * The extension's highlighting state: the decoration types and the
   * enabled flag of each category, and the grouped ranges of every
   * published document.
   */
  class SemanticHighlighter {
    var semanticDecorations: map<Category, seq<DecorationType>>
    var semanticEnabled: map<Category, bool>
    var cachedSemanticHighlighting: map<string, Decorations>

    /** Both tables hold every category, each with its own decoration types in slot order. */
    ghost predicate Valid()
      reads this
    {
      (forall c: Category :: c in semanticDecorations && c in semanticEnabled) &&
      forall c :: c in semanticDecorations ==>
        forall i :: 0 <= i < |semanticDecorations[c]| ==>
          semanticDecorations[c][i].category == c && semanticDecorations[c][i].slot == i
    }

    /**
     * `activate`: every category gets one decoration type per colour its
     * colour setting lists (none when unset) and starts disabled; then the
     * enabled flags are read from `config`.
     */
    constructor (colors: map<string, seq<string>>, config: map<string, bool>)
      ensures Valid() && cachedSemanticHighlighting == map[]
      ensures forall c: Category ::
        semanticDecorations[c] == MakeDecorations(c, ColorsOf(colors, c))
      ensures forall c: Category :: semanticEnabled[c] == ConfigFlag(config, EnabledPrefix + Name(c))
    {
      var decorations, enabled := RegisterCategories(Categories, c => ColorsOf(colors, c));
      semanticDecorations := decorations;
      semanticEnabled := enabled;
      cachedSemanticHighlighting := map[];
      new;
      forall c: Category
        ensures c in Categories
      {
        assert Categories[CategoryIndex(c)] == c;
      }
      UpdateConfigValues(config);
    }

    /** `updateConfigValues`: every known category's flag is re-read from `config`; none is added. */
    method UpdateConfigValues(config: map<string, bool>)
      modifies this`semanticEnabled
      ensures semanticEnabled.Keys == old(semanticEnabled.Keys)
      ensures forall c :: c in semanticEnabled ==> semanticEnabled[c] == ConfigFlag(config, EnabledPrefix + Name(c))
    {
      var pending := semanticEnabled.Keys;
      while pending != {}
        invariant pending <= semanticEnabled.Keys && semanticEnabled.Keys == old(semanticEnabled.Keys)
        invariant forall c :: c in semanticEnabled && c !in pending ==>
          semanticEnabled[c] == ConfigFlag(config, EnabledPrefix + Name(c))
        decreases pending
      {
        var c :| c in pending;
        semanticEnabled := semanticEnabled[c := ConfigFlag(config, EnabledPrefix + Name(c))];
        pending := pending - {c};
      }
    }

    /** `tryFindDecoration` against the current tables. */
    function TryFindDecoration(symbol: SemanticSymbol): (r: Option<DecorationType>)
      reads this
      requires Valid()
      ensures r.Some? ==>
        var c := CategoryOf(symbol.kind, symbol.parentKind, symbol.storage);
        c.Some? && semanticEnabled[c.value] && |semanticDecorations[c.value]| > 0 &&
        0 <= JsRem(symbol.stableId, |semanticDecorations[c.value]|) &&
        r.value == semanticDecorations[c.value][JsRem(symbol.stableId, |semanticDecorations[c.value]|)]
      ensures r.None? <==>
        var c := CategoryOf(symbol.kind, symbol.parentKind, symbol.storage);
        c.None? || !semanticEnabled[c.value] || |semanticDecorations[c.value]| == 0 ||
        JsRem(symbol.stableId, |semanticDecorations[c.value]|) < 0
    {
      FindDecoration(semanticDecorations, semanticEnabled, symbol)
    }

    /**
     * The grouping of the publish handler against the current tables: each
     * decoration type found for some symbol maps to the ranges of all
     * symbols that find it, in symbol order, and no other type appears.
     */
    method GroupByDecoration(symbols: seq<SemanticSymbol>) returns (decorations: Decorations)
      requires Valid()
      ensures forall t :: t in decorations <==> Decorated(Classifier(semanticDecorations, semanticEnabled), symbols, t)
      ensures forall t :: t in decorations ==>
        decorations[t] == RangesFor(Classifier(semanticDecorations, semanticEnabled), symbols, t)
    {
      decorations := GroupSymbols(Classifier(semanticDecorations, semanticEnabled), symbols);
    }

    /**
     * The publish handler: the flags are re-read, the symbols grouped, and
     * the grouping cached for the notification's URI, replacing what was
     * there; no other URI's entry changes.
     */
    method OnPublishSemanticHighlighting(uri: string, symbols: seq<SemanticSymbol>, config: map<string, bool>)
      requires Valid()
      modifies this`semanticEnabled, this`cachedSemanticHighlighting
      ensures Valid() && semanticDecorations == old(semanticDecorations)
      ensures forall c :: c in semanticEnabled ==> semanticEnabled[c] == ConfigFlag(config, EnabledPrefix + Name(c))
      ensures cachedSemanticHighlighting.Keys == old(cachedSemanticHighlighting.Keys) + {uri}
      ensures forall u :: u in cachedSemanticHighlighting && u != uri ==>
        cachedSemanticHighlighting[u] == old(cachedSemanticHighlighting[u])
      ensures forall t :: t in cachedSemanticHighlighting[uri] <==>
        Decorated(Classifier(semanticDecorations, semanticEnabled), symbols, t)
      ensures forall t :: t in cachedSemanticHighlighting[uri] ==>
        cachedSemanticHighlighting[uri][t] == RangesFor(Classifier(semanticDecorations, semanticEnabled), symbols, t)
    {
      UpdateConfigValues(config);
      var decorations := GroupByDecoration(symbols);
      cachedSemanticHighlighting := cachedSemanticHighlighting[uri := decorations];
    }

    /** Closing a document drops its cached grouping and no other. */
    method OnDidCloseTextDocument(uri: string)
      modifies this`cachedSemanticHighlighting
      ensures cachedSemanticHighlighting == old(cachedSemanticHighlighting) - {uri}
    {
      cachedSemanticHighlighting := cachedSemanticHighlighting - {uri};
    }
  }

  /** `hasAnySemanticHighlighting`: whether some highlighting setting is on. */
  method HasAnySemanticHighlighting(config: map<string, bool>) returns (r: bool)
    ensures r <==> exists i :: 0 <= i < |HighlightingOptions| && ConfigFlag(config, HighlightingOptions[i])
  {
    r := AnySettingOn(config, HighlightingOptions);
  }

  /** The loop of `hasAnySemanticHighlighting`: stops at the first setting of `options` that is on. */
  method AnySettingOn(config: map<string, bool>, options: seq<string>) returns (r: bool)
    ensures r <==> exists i :: 0 <= i < |options| && ConfigFlag(config, options[i])
  {
    var i := 0;
    while i < |options|
      invariant 0 <= i <= |options|
      invariant forall j :: 0 <= j < i ==> !ConfigFlag(config, options[j])
    {
      if ConfigFlag(config, options[i]) {
        return true;
      }
      i := i + 1;
    }
    return false;
  }

  /**
   * Once the flags have been read from `config`, some highlighting setting
   * is on exactly when some category is enabled.
   */
  lemma AnyOptionIffSomeCategory(enabled: map<Category, bool>, config: map<string, bool>)
    requires forall c: Category :: c in enabled
    requires forall c :: c in enabled ==> enabled[c] == ConfigFlag(config, EnabledPrefix + Name(c))
    ensures (exists i :: 0 <= i < |HighlightingOptions| && ConfigFlag(config, HighlightingOptions[i])) <==>
      (exists c :: c in enabled && enabled[c])
  {
    assert |HighlightingOptions| == |Categories|;
    if i :| 0 <= i < |HighlightingOptions| && ConfigFlag(config, HighlightingOptions[i]) {
      assert HighlightingOptions[i] == EnabledPrefix + Name(Categories[i]);
      assert enabled[Categories[i]];
    }
    if c :| c in enabled && enabled[c] {
      var i := CategoryIndex(c);
      assert HighlightingOptions[i] == EnabledPrefix + Name(c);
    }
  }
}
