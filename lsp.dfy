/**
 * Shapes shared by the two hierarchy views: LSP locations as the backend
 * sends them, the tree item the view is given for a node, and the label
 * suffix ` (<file name>:<line>)` both views append to a node's name.
 */
module Lsp {
  import opened Wrappers

  /** Identifier the backend assigns to a symbol; only compared and echoed back. */
  type NodeId = int

  /** Zero-based line and character, as in the Language Server Protocol. */
  datatype Position = Position(line: nat, character: nat)
  datatype Range = Range(start: Position, end: Position)
  datatype Location = Location(uri: string, range: Range)

  /** The editor's TreeItemCollapsibleState; `NotCollapsible` is its `None`. */
  datatype CollapsibleState = NotCollapsible | Collapsed | Expanded

  /** Light and dark icon paths of a tree item. */
  datatype IconPath = IconPath(light: string, dark: string)

  /** The command a tree item runs when activated, with the `hasChildren` argument it passes. */
  datatype GotoCommand = GotoCommand(command: string, title: string, hasChildren: bool)

  datatype TreeItem = TreeItem(
    labelText: string,
    collapsibleState: CollapsibleState,
    contextValue: string,
    command: GotoCommand,
    iconPath: Option<IconPath>)

  const ContextValue: string := "cclsGoto"
  const HackGotoCommand: string := "ccls.hackGotoForTreeView"

  /** The activation command of a node whose `numChildren` is given. */
  function ActivationCommand(numChildren: int): (c: GotoCommand)
    ensures c.command == HackGotoCommand && c.title == "Goto"
    ensures c.hasChildren <==> numChildren > 0
  {
    GotoCommand(HackGotoCommand, "Goto", numChildren > 0)
  }

  /** `s.lastIndexOf(c)`: the last index holding `c`, or -1 when there is none. */
  function LastIndexOf(s: string, c: char): (r: int)
    ensures -1 <= r < |s|
    ensures r >= 0 ==> s[r] == c
    ensures forall j :: r < j < |s| ==> s[j] != c
  {
    if s == [] then -1
    else if s[|s| - 1] == c then |s| - 1
    else LastIndexOf(s[..|s| - 1], c)
  }

  /** `path.substr(path.lastIndexOf('/') + 1)`: the last segment of a path. */
  function BaseName(path: string): (r: string)
    ensures |r| <= |path| && r == path[|path| - |r|..]
    ensures '/' !in r
    ensures |r| < |path| ==> path[|path| - |r| - 1] == '/'
  {
    var k := LastIndexOf(path, '/');
    assert forall j :: k + 1 <= j < |path| ==> path[j] != '/';
    path[k + 1..]
  }

  /** Decimal rendering of a natural number, as JavaScript's template strings print it. */
  function DecimalDigits(n: nat): (s: string)
    ensures |s| >= 1
    ensures forall i :: 0 <= i < |s| ==> '0' <= s[i] <= '9'
    ensures s[0] == '0' ==> n == 0 && s == "0"
  {
    if n < 10 then [(48 + n) as char]
    else DecimalDigits(n / 10) + [(48 + n % 10) as char]
  }

  /** The number a string of decimal digits denotes. */
  function DecimalValue(s: string): nat
    requires forall i :: 0 <= i < |s| ==> '0' <= s[i] <= '9'
  {
    if s == [] then 0
    else 10 * DecimalValue(s[..|s| - 1]) + (s[|s| - 1] as int - 48)
  }

  /** Reading back the printed number gives the number: the rendering loses nothing. */
  lemma {:induction false} DecimalRoundTrip(n: nat)
    ensures DecimalValue(DecimalDigits(n)) == n
  {
    if n >= 10 {
      DecimalRoundTrip(n / 10);
      var s := DecimalDigits(n);
      assert s[..|s| - 1] == DecimalDigits(n / 10);
    }
  }

  /**
   * ` (<file name>:<line>)` for a location: the last path segment of the URI
   * and the one-based line of the range start. The URI is taken as its own
   * path (`Uri.parse(uri).path` is not modelled).
   */
  function LocationSuffix(loc: Location): (r: string)
    ensures |r| >= 5 && r[..2] == " (" && r[|r| - 1] == ')'
  {
    " (" + BaseName(loc.uri) + ":" + DecimalDigits(loc.range.start.line + 1) + ")"
  }

  /**
   * The suffix reads back: its last `:` separates the file name, which is
   * the URI's last segment, from the digits of the one-based line (which
   * `DecimalRoundTrip` reads back as the number).
   */
  lemma LocationSuffixReadsBack(loc: Location)
    ensures var r := LocationSuffix(loc);
      var k := LastIndexOf(r, ':');
      2 <= k < |r| - 1 &&
      r[2..k] == BaseName(loc.uri) &&
      r[k + 1..|r| - 1] == DecimalDigits(loc.range.start.line + 1)
  {
    var f := BaseName(loc.uri);
    var d := DecimalDigits(loc.range.start.line + 1);
    var a := " (" + f;
    var r := LocationSuffix(loc);
    assert r == a + ":" + d + ")";
    LastColon(a, d);
    assert LastIndexOf(r, ':') == |a|;
    assert r[2..|a|] == a[2..] == f;
    assert r[|a| + 1..|r| - 1] == d;
  }

  /** In `a + ":" + d + ")"` with `d` all digits, the last `:` is the one after `a`. */
  lemma LastColon(a: string, d: string)
    requires forall i :: 0 <= i < |d| ==> '0' <= d[i] <= '9'
    ensures var r := a + ":" + d + ")";
      LastIndexOf(r, ':') == |a| && r[..|a|] == a && r[|a| + 1..|r| - 1] == d
  {
    var r := a + ":" + d + ")";
    assert r[|a|] == ':';
    forall j | |a| < j < |r|
      ensures r[j] != ':'
    {
      if j < |r| - 1 {
        assert r[j] == d[j - |a| - 1];
      }
    }
    assert r[..|a|] == a;
    assert r[|a| + 1..|r| - 1] == d;
  }

  /** The label suffix of a location on the tenth line of `.../foo/bar.cpp`. */
  lemma BarCppSuffix()
    ensures LocationSuffix(Location("file:///foo/bar.cpp", Range(Position(9, 0), Position(9, 3)))) == " (bar.cpp:10)"
  {
    assert LastIndexOf("file:///foo/bar.cpp", '/') == 11;
    assert BaseName("file:///foo/bar.cpp") == "bar.cpp";
    assert DecimalDigits(10) == DecimalDigits(1) + ['0'];
  }
}
