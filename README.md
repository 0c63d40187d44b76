# vscode-ccls core, modelled in Dafny

This project models the client-side logic of the VS Code extension for the
ccls C/C++ language server, and proves properties of it. Six pieces are
covered:

- **Inheritance hierarchy view** (`inheritance_hierarchy.dfy`). It is a tree
  of backend-supplied nodes that expands lazily. Each node carries a
  direction flag (`wantsDerived`). Subtrees are stamped with their parent's
  direction. A synthetic `[[Base]]` group gathers the base classes and is
  stamped "base".
- **Call hierarchy view** (`call_hierarchy.dfy`). It is the same kind of
  lazy tree, with icons chosen by call type.
- **Tree-view activation** (`goto_for_tree_view.dfy`). A leaf jumps to its
  location when clicked. A node with children jumps only on a quick second
  click.
- **Semantic highlighting** (`semantic_highlighting.dfy`). A symbol of one
  of fifteen kinds is classified into one of fifteen categories; symbols of
  other kinds are not highlighted. A category's decoration type is
  picked by `stableId` modulo the number of colours configured for it. The
  symbols' ranges are grouped per decoration type and cached per document.
- **Path conversion** (`path_converter.dfy`). URIs are rewritten by prefix,
  rule by rule, in both directions between editor and server.
- **Initialization options** (`extension.dfy`). Settings are copied into a
  nested options object under dotted keys, `${workspaceFolder}` is
  substituted, and a reload prompt is shown when a top-level option changes.

`lsp.dfy` holds the Language Server Protocol shapes and the label suffix
` (<file>:<line>)` that both views share. `wrappers.dfy` holds `Option`.

A tree node is a class whose fields the continuations update. Provider
state (`root`, the decoration tables, the highlighting cache) is made of
fields of classes. Loops over rules, categories, symbols, settings and keys
are `while` loops. The loops of `_protocol2Code`, `_code2Protocol`, the
range grouping and the settings table are proved equal to recursive
specification functions, whose properties are proved as lemmas. The other
loops (`updateConfigValues`, `hasAnySemanticHighlighting`, the category
registration, the changed-key check and the stamping of a child list) are
proved against quantified postconditions. The nested options object that
`getInitializationOptions` mutates in place is modelled on values (see
"## Left out").

Several things are parameters rather than calls:

- the backend's replies (arguments of the methods that model the
  continuations consuming them);
- the clock and the double-click timeout;
- the VS Code configuration (maps from setting name to value);
- the workspace root path.

## Model

| member | source | states |
|---|---|---|
| Lsp.ActivationCommand | src/inheritanceHierarchy.ts:55-59 | a node's command is `ccls.hackGotoForTreeView` titled `Goto`, and passes `hasChildren` exactly when `numChildren > 0` |
| Lsp.LastIndexOf | src/inheritanceHierarchy.ts:47 | the result is -1 or an index holding the character, and no later index holds it |
| Lsp.BaseName | src/inheritanceHierarchy.ts:46-47 | the result is a suffix of the path without `/`, and when shorter than the path it is preceded by `/` |
| Lsp.DecimalDigits | src/inheritanceHierarchy.ts:48 | the printed line number is a non-empty string of decimal digits with no leading zero |
| Lsp.DecimalRoundTrip | src/inheritanceHierarchy.ts:48 | reading the printed digits back gives the number |
| Lsp.LocationSuffix | src/inheritanceHierarchy.ts:44-49 | the suffix starts with ` (` and ends with `)` |
| Lsp.LocationSuffixReadsBack | src/callHierarchy.ts:57-62 | the suffix's last `:` separates exactly the URI's last segment from exactly the digits of the one-based start line |
| Lsp.BarCppSuffix | src/inheritanceHierarchy.ts:44-49 | a location on stored line 9 of `.../foo/bar.cpp` gets the suffix ` (bar.cpp:10)` |
| InheritanceHierarchy.ExpansionRequest | src/inheritanceHierarchy.ts:73-80 | an expansion asks by id and kind, in the given direction, unqualified, one level, as a hierarchy |
| InheritanceHierarchy.InheritanceHierarchyNode.BaseGroup | src/inheritanceHierarchy.ts:124-127 | the new group holds exactly the base reply's children, counts them, has the `[[Base]]` name and no id, kind or location |
| InheritanceHierarchy.InheritanceHierarchyNode.SetWantsDerived | src/inheritanceHierarchy.ts:18-21 | every node of the subtree gets the flag; the frame lets nothing but those flags change |
| InheritanceHierarchy.InheritanceHierarchyNode.SetWantsDerivedAll | src/inheritanceHierarchy.ts:20 | every node below each child gets the flag |
| InheritanceHierarchy.InheritanceHierarchyProvider.constructor | src/inheritanceHierarchy.ts:24-31 | a new provider shows no hierarchy and keeps the direction invariant |
| InheritanceHierarchy.InheritanceHierarchyProvider.GetTreeItem | src/inheritanceHierarchy.ts:33-61 | not collapsible iff `numChildren <= 0`; expanded iff it has children, materialised ones and is not `[[Base]]`; label is the name, plus the location suffix iff not `[[Base]]` and located; the activation command |
| InheritanceHierarchy.InheritanceHierarchyProvider.GetChildren | src/inheritanceHierarchy.ts:63-80 | nothing without a root, the root at top level, the cached children when counts agree, and otherwise exactly one request in the node's own direction |
| InheritanceHierarchy.InheritanceHierarchyProvider.OnChildrenReply | src/inheritanceHierarchy.ts:81-85 | the node's children become the reply's; every node below them is stamped with the node's direction; the direction invariant is kept |
| InheritanceHierarchy.InheritanceHierarchyProvider.OpenRequest | src/inheritanceHierarchy.ts:100-109 | the command asks for derived classes at the cursor, one level, unqualified |
| InheritanceHierarchy.InheritanceHierarchyProvider.OnDerivedReply | src/inheritanceHierarchy.ts:110-121 | the whole derived reply is stamped derived, and the base request for the same id and kind follows |
| InheritanceHierarchy.InheritanceHierarchyProvider.OnBaseReply | src/inheritanceHierarchy.ts:122-136 | with base classes, a fresh `[[Base]]` group over them, stamped base throughout, is put first and the count grows by one; without, the entry is unchanged; the entry becomes the root and the direction invariant is kept |
| InheritanceHierarchy.InheritanceHierarchyProvider.AttachBaseGroup | src/inheritanceHierarchy.ts:130-131 | the group is spliced in at position 0 and `numChildren` grows by one, keeping the direction invariant |
| InheritanceHierarchy.InheritanceHierarchyProvider.MakeBaseGroup | src/inheritanceHierarchy.ts:124-129 | the fresh group holds the base reply's children and every node of it is stamped base |
| InheritanceHierarchy.InheritanceHierarchyProvider.Close | src/inheritanceHierarchy.ts:139-143 | after closing, every query of the view answers nothing |
| InheritanceHierarchy.InheritanceHierarchyProvider.PathDirection | src/inheritanceHierarchy.ts:15-17 | along any path from the root, a node expands towards derived classes exactly when no `[[Base]]` group lies on the path |
| CallHierarchy.OpenCallType | src/callHierarchy.ts:125 | the bitwise or of `0x1` and `0x2` is `CallType.All`, the sum of `Base` and `Derived` |
| CallHierarchy.OpenRequest | src/callHierarchy.ts:118-129 | the command asks for callers at the cursor, of all call types, two levels deep |
| CallHierarchy.ExpansionRequest | src/callHierarchy.ts:85-93 | an expansion asks for the node's callers of all call types, one level deep |
| CallHierarchy.CallHierarchyProvider.constructor | src/callHierarchy.ts:30-33 | the four icon paths are kept and no hierarchy is shown |
| CallHierarchy.CallHierarchyProvider.Icon | src/callHierarchy.ts:47-55 | base icons for `Base`, derived icons for `Derived`, empty paths otherwise |
| CallHierarchy.CallHierarchyProvider.GetTreeItem | src/callHierarchy.ts:38-75 | not collapsible iff `numChildren <= 0`; expanded iff materialised children; label suffix iff located; the icon of the call type; the activation command |
| CallHierarchy.CallHierarchyProvider.GetChildren | src/callHierarchy.ts:77-93 | nothing without a root, the root at top level, cached children when counts agree, otherwise exactly the expansion request for the node's id |
| CallHierarchy.CallHierarchyProvider.OnChildrenReply | src/callHierarchy.ts:94-97 | the children become the reply's and `numChildren` is untouched, so the node is served from cache iff the counts agree |
| CallHierarchy.CallHierarchyProvider.OnOpenReply | src/callHierarchy.ts:130-133 | the reply becomes the root; the view's top level shows it, or nothing when the reply is null |
| CallHierarchy.CallHierarchyProvider.Close | src/callHierarchy.ts:135-139 | after closing, every query of the view answers nothing |
| GotoForTreeView.GotoForTreeView | src/gotoForTreeView.ts:13-21 | no jump iff the node has no location; otherwise a jump to its range start that keeps the focus |
| GotoForTreeView.Click | src/gotoForTreeView.ts:25-49 | unlocated: nothing; leaf: jump, state unchanged; new node: remembered with the time, no jump; same node: timer restarted, jump iff within the timeout |
| GotoForTreeView.ClickDisambiguator.constructor | src/gotoForTreeView.ts:23-24 | no node has been clicked yet |
| GotoForTreeView.ClickDisambiguator.HackGotoForTreeView | src/gotoForTreeView.ts:25-49 | the handler's new closure state and jump are those of `Click` on the old state |
| GotoForTreeView.DoubleClick | src/gotoForTreeView.ts:36-48 | of two clicks on a fresh node, the first never jumps and the second jumps iff it came within the timeout |
| GotoForTreeView.QuickThirdClick | src/gotoForTreeView.ts:45-48 | a slow second click restarts the timer, so a quick third click jumps |
| GotoForTreeView.InterleavedClicks | src/gotoForTreeView.ts:36-40 | a click on another node in between makes the next click on the first node not jump |
| GotoForTreeView.StateOnlyForParents | src/gotoForTreeView.ts:28-34 | unlocated nodes and leaves never change the click state |
| SemanticHighlighting.CategoryOf | src/semanticHighlighting.ts:118-155 | the branch chain's category for classes, structs, methods, constructors, variables by parent kind, fields by storage; a category iff the kind is one of the fifteen mapped kinds |
| SemanticHighlighting.CategoryIndex | src/semanticHighlighting.ts:205-210 | every category is in the registration list |
| SemanticHighlighting.CategoriesDistinct | src/semanticHighlighting.ts:205-210 | no category is registered twice |
| SemanticHighlighting.EveryCategoryReached | src/semanticHighlighting.ts:118-155 | every category is the classification of some symbol |
| SemanticHighlighting.MakeDecorations | src/semanticHighlighting.ts:89-96 | one decoration type per configured colour, in order, slot `i` with colour `i` |
| SemanticHighlighting.JsRem | src/semanticHighlighting.ts:115 | JavaScript's `%`: the remainder has the sign of the id, its size is below the divisor, and it is the ordinary remainder for non-negative ids |
| SemanticHighlighting.NegativeIds | src/semanticHighlighting.ts:112-116 | with three colours, id `-7` finds no decoration type and id `-6` finds the first one |
| SemanticHighlighting.FindDecoration | src/semanticHighlighting.ts:110-116 | a decoration iff the symbol has a category that is enabled and has colours and the id's JavaScript remainder by their number is not negative; then it is the type in that slot |
| SemanticHighlighting.RangesForAppend | src/semanticHighlighting.ts:225-234 | grouping two batches of symbols gives the concatenation of their groupings |
| SemanticHighlighting.RangesForOne | src/semanticHighlighting.ts:225-234 | each symbol's ranges land only under the decoration it finds, between those of earlier and later symbols |
| SemanticHighlighting.RangesForUndecorated | src/semanticHighlighting.ts:225-234 | a decoration no symbol finds gets no ranges |
| SemanticHighlighting.RegisterCategories | src/semanticHighlighting.ts:205-213 | exactly the listed categories are registered, each with one decoration type per colour listed for it, and each starts disabled |
| SemanticHighlighting.GroupSymbols | src/semanticHighlighting.ts:225-234 | a decoration type is a key iff some symbol finds it, and it maps to the ranges of exactly those symbols, in symbol order |
| SemanticHighlighting.SemanticHighlighter.constructor | src/semanticHighlighting.ts:204-215 | every category gets its decorations from its colour setting and its flag from the enable setting; the cache is empty |
| SemanticHighlighting.SemanticHighlighter.UpdateConfigValues | src/semanticHighlighting.ts:101-108 | every known category's flag is re-read from the settings, and no category is added |
| SemanticHighlighting.SemanticHighlighter.TryFindDecoration | src/semanticHighlighting.ts:110-155 | no decoration iff the symbol is unmapped, its category disabled or without colours, or the id's remainder is negative; otherwise exactly the table's decoration type of that category in slot `stableId % n` |
| SemanticHighlighting.SemanticHighlighter.GroupByDecoration | src/semanticHighlighting.ts:223-234 | a decoration type is a key iff some symbol finds it, and it maps to the ranges of exactly those symbols, in symbol order |
| SemanticHighlighting.SemanticHighlighter.OnPublishSemanticHighlighting | src/semanticHighlighting.ts:218-237 | flags re-read, the grouping cached for the URI, every other URI's entry unchanged |
| SemanticHighlighting.SemanticHighlighter.OnDidCloseTextDocument | src/semanticHighlighting.ts:249-251 | the closed document's grouping is dropped and nothing else |
| SemanticHighlighting.HasAnySemanticHighlighting | src/semanticHighlighting.ts:157-180 | true iff one of the fifteen enable settings is on |
| SemanticHighlighting.AnySettingOn | src/semanticHighlighting.ts:175-179 | true iff some setting of the list is on |
| SemanticHighlighting.AnyOptionIffSomeCategory | src/semanticHighlighting.ts:157-173 | once flags are read, some enable setting is on iff some category is enabled |
| PathConverter.IsClientUriPrefixConversionRule | src/pathConverter.ts:17-19 | a rule is a client-URI rule iff it has `clientUri` |
| PathConverter.Normalize | src/pathConverter.ts:35-42 | the client side is the client URI when given, else the `file` URI of the client path; the server side is the `file` URI of the server path |
| PathConverter.NormalizeAll | src/pathConverter.ts:35-42 | one normalised rule per configured rule, in order |
| PathConverter.ReplacePrefix | src/pathConverter.ts:51-53 | a string starting with the prefix gets the replacement followed by the rest; any other string is unchanged |
| PathConverter.ReplacePrefixInverse | src/pathConverter.ts:49-66 | replacing a prefix and replacing back gives the original string |
| PathConverter.ToCodeAppend | src/pathConverter.ts:50-54 | rules act in list order on the running result, so a later rule sees an earlier rule's output |
| PathConverter.ToProtocolAppend | src/pathConverter.ts:60-64 | the same for the client-to-server direction |
| PathConverter.ToCodeUnmatched | src/pathConverter.ts:50-54 | a URI no rule's server prefix matches (this covers no rules at all) is returned unchanged |
| PathConverter.ToProtocolUnmatched | src/pathConverter.ts:60-64 | a URI no rule's client prefix matches (this covers no rules at all) is returned unchanged |
| PathConverter.SingleRuleRoundTrip | src/pathConverter.ts:49-66 | with one rule, converting a client URI to the server and back gives it again |
| PathConverter.ChainedRules | src/pathConverter.ts:50-54 | a concrete two-rule list where the second rule rewrites the first one's output |
| PathConverter.PathConverterProvider.constructor | src/pathConverter.ts:31-42 | the rules are the configured rules normalised, none when the setting is unset or null |
| PathConverter.PathConverterProvider.Protocol2Code | src/pathConverter.ts:49-56 | the loop's result is every rule's server-to-client rewrite, in order |
| PathConverter.PathConverterProvider.Code2Protocol | src/pathConverter.ts:58-66 | the loop's result is every rule's client-to-server rewrite, in order |
| Extension.IndexOf | src/extension.ts:30 | the first occurrence of the pattern, or none when it never occurs |
| Extension.ReplaceFirst | src/extension.ts:30 | only the first occurrence is replaced; the rest, later occurrences included, is copied |
| Extension.ResolveVariables | src/extension.ts:28-35 | strings have their first `${workspaceFolder}` replaced; arrays are resolved element-wise with the same length; other values are returned unchanged |
| Extension.ResolveVariablesResolved | src/extension.ts:28-35 | a value without `${workspaceFolder}` anywhere is returned unchanged |
| Extension.Split | src/extension.ts:90 | at least one piece, no piece holds a dot, and joining with dots gives the key back |
| Extension.SetPath | src/extension.ts:91-98 | a successful write adds only the first key to the top level |
| Extension.SetPathSucceeds | src/extension.ts:91-97 | the walk fails exactly when some proper prefix of the key leads to a non-object |
| Extension.SetThenLookup | src/extension.ts:90-98 | after the write, the nested lookup of the dotted key gives the value |
| Extension.SetPathKeepsOthers | src/extension.ts:92-96 | intermediate objects are reused, so any key path that diverges from the written one reads the same |
| Extension.BlacklistKeepsLsRanges | src/extension.ts:78-81 | writing `highlight.blacklist` leaves the default `highlight.lsRanges` in place |
| Extension.Defaults | src/extension.ts:76-85 | the defaults have exactly the top-level keys `cacheDirectory`, `highlight` and `workspaceSymbol` |
| Extension.ApplyMapping | src/extension.ts:88-98 | a setting that is null or undefined leaves the options as they were; a present one can be looked up under its dotted key, resolved |
| Extension.NothingConfigured | src/extension.ts:87-100 | when no setting of the table is present, the options are the starting ones |
| Extension.ApplySettings | src/extension.ts:87-100 | the loop's result is the table applied line by line, or the failure |
| Extension.GetInitializationOptions | src/extension.ts:37-102 | the defaults with the whole mapping table applied in order |
| Extension.NoSettingsGivesDefaults | src/extension.ts:76-101 | with no settings at all the options are exactly the defaults |
| Extension.Serialized | src/extension.ts:151-152 | `undefined` stays `undefined`; an object keeps exactly its defined properties, each serialised; an array keeps its length, `undefined` items becoming `null` and the others serialised; other values are unchanged |
| Extension.SerializedClean | src/extension.ts:151-152 | a serialised value has no `undefined` inside it, and serialising it again changes nothing |
| Extension.ChangedKey | src/extension.ts:144-163 | a prompt iff some top-level key of the new options serialises differently, and the key named is one of those |
| Extension.ApplyAllAppend | src/extension.ts:87-100 | applying two tables in turn is applying their concatenation, and a failure in the first is final |
| Extension.ApplyAllKeeps | src/extension.ts:87-100 | a top-level option that no table line's key starts with keeps its value |
| Extension.CacheDirectoryWrittenOnce | src/extension.ts:39-75 | the first table line maps `cacheDirectory` to itself, and no other option key starts with `cacheDirectory` |
| Extension.FirstLineOnly | src/extension.ts:87-100 | when only a table's first line writes under a top-level key, that option ends up as the first line's resolved setting |
| Extension.CacheDirectoryChangePrompts | src/extension.ts:146-162 | a change of the `cacheDirectory` setting that survives substitution makes the top-level `cacheDirectory` option differ, so the reload prompt is due |

## Left out

- Editor and API surface is not modelled: the event emitters, `setContext`, tree-view and command registration, applying decorations to editors (`updateSemanticHighlightingForEditor`), the status bar and the notification plumbing. These only show values the model computes.
- Promises are not modelled. Each `.then` continuation is a method that gets the reply as an argument. Interleavings between continuations are not modelled.
- `Uri.parse(x).toString()` is taken to give `x` back, and `Uri.file(p).toString()` to be `file://` followed by `p`. `Uri.parse(uri).path` in the label is taken to be the URI itself. Percent-encoding and scheme normalisation are not modelled.
- InheritanceHierarchy.InheritanceHierarchyProvider.OnDerivedReply: a null derived reply (no symbol at the cursor) is not modelled; the source then throws inside `setWantsDerived` and nothing changes, so the view keeps what it showed.
- Node ids are compared by value. The loose `!=` between an undefined `lastGotoNodeId` and a node's id is modelled by `None` differing from every id.
- GotoForTreeView.Click: the two `Date.now()` readings of one activation are the same `now`. An unset double-click timeout, which in the source makes every second click miss, is not modelled: the timeout is an integer.
- SemanticHighlighting.SemanticSymbol: `stableId` is an integer, as the server sends it. A fractional id, for which the source's index would be `undefined`, is not modelled.
- The decoration render options (underline, italic, bold) are not modelled. A decoration type is its category, slot and colour.
- SemanticHighlighting.SemanticHighlighter.GroupByDecoration does not model that the first symbol's `lsRanges` array is stored and then appended to in place, which mutates the symbol. The ranges are values here.
- The insertion order of JavaScript `Map`s and objects is not modelled. Maps are unordered here.
- Extension.ChangedKey: when several keys differ, the model names one of them, not necessarily the first in property order.
- Extension.Serialized: key order and number formatting of `JSON.stringify` are not modelled. Numbers are integers and there is no floating point.
- Extension.ResolveVariables: the `$` patterns of a replacement string (`$&`, `$$`) are not interpreted. The root path is a string; an unset root path, which the source prints as `undefined`, is not modelled.
- Extension.SetPath: the nested objects that `getInitializationOptions` mutates in place are modelled as values. Writing a property on a non-object intermediate is modelled as a failure, the `TypeError` of strict mode. On an array it would silently add a property; the model treats that as a failure too.
- Extension.GetInitializationOptions: that the fixed table never reaches the failure path is not proved. The hasAnySemanticHighlighting result is a parameter; its computation is `SemanticHighlighting.HasAnySemanticHighlighting`.
- Configuration values are maps from setting name to value, and a missing name reads as the source's default. Settings from `package.json` contributions are not modelled.
