/** The help text of `command.go`: `PrintUsage` (lines 91-106), `hasFlags`
    (108-116), `printFlags` (118-123), `printCommands` (125-146) and the
    `Usage` closure that runs them in turn (42-48).

    Text is modelled as a sequence of writes, each to the sink it goes to;
    the flag defaults table (`PrintDefaults`) is a parameter. */
module Usage {
  import opened Optional
  import opened Strings
  import opened CommandTree
  import opened Behaviour

  /** One piece of text written to one sink. */
  datatype Write = Write(sink: Sink, text: string)

  /** `hasFlags`: the node has a flag set declaring at least one flag. */
  predicate HasFlags<H>(c: Cmd<H>)
  {
    c.flags.Some? && |c.flags.value.decls| > 0
  }

  const UsagePrefix: string := "Usage: "

  /** The clause after the path: ` [flags]` when there are flags. */
  function FlagsClause<H>(n: Cmd<H>): string
  {
    if HasFlags(n) then " [flags]" else ""
  }

  /** The clause at the end: ` <command>` for a node with children,
      otherwise the node's own usage string, if it has one. */
  function ArgsClause<H>(n: Cmd<H>): string
  {
    if |n.children| > 0 then " <command>"
    else if n.usageStr != "" then " " + n.usageStr
    else ""
  }

  /** What follows `Usage: `: the space-joined path and the clauses. */
  function UsageBody<H(==)>(t: Cmd<H>, route: Route): string
    requires Valid(t, route)
  {
    var n := NodeAt(t, route);
    Join(Path(t, route), " ") + FlagsClause(n) + ArgsClause(n)
  }

  /** The line `PrintUsage` writes for the node at `route`. */
  function UsageLine<H(==)>(t: Cmd<H>, route: Route): string
    requires Valid(t, route)
  {
    UsagePrefix + UsageBody(t, route) + "\n"
  }

  /** The usage line, exactly, in each of the six cases: ` [flags]`
      follows the path exactly when the node declares a flag, and then
      comes ` <command>` for a node with children, else ` ` and the usage
      string when there is one, else nothing. */
  lemma UsageLineShape<H>(t: Cmd<H>, route: Route)
    requires Valid(t, route)
    ensures var n := NodeAt(t, route);
      var line := UsageLine(t, route);
      var head := UsagePrefix + Join(Path(t, route), " ");
      && (HasFlags(n) && |n.children| > 0 ==> line == head + " [flags] <command>\n")
      && (!HasFlags(n) && |n.children| > 0 ==> line == head + " <command>\n")
      && (HasFlags(n) && |n.children| == 0 && n.usageStr != "" ==> line == head + " [flags] " + n.usageStr + "\n")
      && (!HasFlags(n) && |n.children| == 0 && n.usageStr != "" ==> line == head + " " + n.usageStr + "\n")
      && (HasFlags(n) && |n.children| == 0 && n.usageStr == "" ==> line == head + " [flags]\n")
      && (!HasFlags(n) && |n.children| == 0 && n.usageStr == "" ==> line == head + "\n")
  {
    var n := NodeAt(t, route);
    var j := Join(Path(t, route), " ");
    var head := UsagePrefix + j;
    var f := FlagsClause(n);
    var g := ArgsClause(n);
    assert UsageLine(t, route) == (head + f) + (g + "\n") by {
      assert UsageLine(t, route) == UsagePrefix + (j + f + g) + "\n";
      ConcatAssoc(UsagePrefix, j + f, g);
      ConcatAssoc(UsagePrefix, j, f);
      ConcatAssoc(head + f, g, "\n");
    }
    ClauseCases(head, HasFlags(n), |n.children| > 0, n.usageStr, f, g);
  }

  /** The six lines a head, the flags clause and the final clause make. */
  lemma ClauseCases(head: string, flags: bool, children: bool, u: string, f: string, g: string)
    requires f == if flags then " [flags]" else ""
    requires g == if children then " <command>" else if u != "" then " " + u else ""
    ensures var line := (head + f) + (g + "\n");
      && (flags && children ==> line == head + " [flags] <command>\n")
      && (!flags && children ==> line == head + " <command>\n")
      && (flags && !children && u != "" ==> line == head + " [flags] " + u + "\n")
      && (!flags && !children && u != "" ==> line == head + " " + u + "\n")
      && (flags && !children && u == "" ==> line == head + " [flags]\n")
      && (!flags && !children && u == "" ==> line == head + "\n")
  {
    if !children && u != "" {
      if flags {
        assert (head + " [flags]") + (" " + u + "\n") == head + " [flags] " + u + "\n";
      } else {
        assert (head + "") + (" " + u + "\n") == head + " " + u + "\n";
      }
    } else if flags {
      assert (head + " [flags]") + (g + "\n") == head + (" [flags]" + g + "\n");
    } else {
      assert head + "" == head;
    }
  }

  /** `Split` on one separator splits the two sides independently. */
  lemma {:induction false} SplitConcat(a: string, b: string, sep: char)
    ensures Split(a + [sep] + b, sep) == Split(a, sep) + Split(b, sep)
    decreases |a|
  {
    if |a| == 0 {
      assert a + [sep] + b == [sep] + b;
      assert ([sep] + b)[1..] == b;
    } else {
      assert (a + [sep] + b)[1..] == a[1..] + [sep] + b;
      SplitConcat(a[1..], b, sep);
    }
  }

  /** Words joined by spaces, followed by text that is empty or starts
      with a space, split back into those words first. */
  lemma {:induction false} SplitJoinedWords(words: seq<string>, rest: string)
    requires |words| > 0 && forall i :: 0 <= i < |words| ==> ' ' !in words[i]
    requires |rest| == 0 || rest[0] == ' '
    ensures var r := Split(Join(words, " ") + rest, ' ');
      |r| >= |words| && r[..|words|] == words
  {
    var j := Join(words, " ");
    SplitJoin(words, ' ');
    if |rest| == 0 {
      assert j + rest == j;
    } else {
      assert j + rest == j + [' '] + rest[1..];
      SplitConcat(j, rest[1..], ' ');
    }
  }

  /** The path of a node holds no space when no name on the way does. */
  lemma PathWithoutSpaces<H>(t: Cmd<H>, route: Route)
    requires WellFormed(t) && Valid(t, route)
    requires ' ' !in t.name && forall i :: 0 <= i < |route| ==> ' ' !in route[i]
    ensures forall i :: 0 <= i < |Path(t, route)| ==> ' ' !in Path(t, route)[i]
  {
    var path := Path(t, route);
    PathIsRoute(t, route);
    forall i | 0 <= i < |path|
      ensures ' ' !in path[i]
    {
      if i > 0 {
        assert path[i] == route[i - 1];
      }
    }
  }

  /** The command words of a usage line read back as the node's path:
      splitting what follows `Usage: ` at spaces starts with the root's
      name followed by the route, as long as no name holds a space. */
  lemma UsageLineNamesNode<H>(t: Cmd<H>, route: Route)
    requires WellFormed(t) && Valid(t, route)
    requires ' ' !in t.name && forall i :: 0 <= i < |route| ==> ' ' !in route[i]
    ensures var words := Split(UsageBody(t, route), ' ');
      |words| > |route| && words[..|route| + 1] == [t.name] + route
  {
    var n := NodeAt(t, route);
    var path := Path(t, route);
    PathIsRoute(t, route);
    PathWithoutSpaces(t, route);
    var rest := FlagsClause(n) + ArgsClause(n);
    assert UsageBody(t, route) == Join(path, " ") + rest by {
      ConcatAssoc(Join(path, " "), FlagsClause(n), ArgsClause(n));
    }
    SplitJoinedWords(path, rest);
  }

  // -----------------------------------------------------------------------
  // printCommands
  // -----------------------------------------------------------------------

  /** No element occurs twice. */
  predicate Distinct(s: seq<string>)
  {
    forall i, j :: 0 <= i < j < |s| ==> s[i] != s[j]
  }

  /** `order` lists the keys of `m` once each: the order in which a Go
      `range` over the map happened to visit them. */
  predicate Enumerates<H>(order: seq<string>, m: map<string, Cmd<H>>)
  {
    && (forall i :: 0 <= i < |order| ==> order[i] in m)
    && (forall k :: k in m ==> k in order)
    && Distinct(order)
  }

  lemma {:induction false} DistinctCount(s: seq<string>, x: string)
    requires Distinct(s)
    ensures multiset(s)[x] == if x in s then 1 else 0
    decreases |s|
  {
    if |s| > 0 {
      assert s == [s[0]] + s[1..];
      DistinctCount(s[1..], x);
    }
  }

  /** Two enumerations of one map hold the same names. */
  lemma EnumerationsAgree<H>(a: seq<string>, b: seq<string>, m: map<string, Cmd<H>>)
    requires Enumerates(a, m) && Enumerates(b, m)
    ensures multiset(a) == multiset(b)
  {
    forall x
      ensures multiset(a)[x] == multiset(b)[x]
    {
      DistinctCount(a, x);
      DistinctCount(b, x);
    }
  }

  lemma {:induction false} DistinctSize(s: seq<string>)
    requires Distinct(s)
    ensures |set x | x in s| == |s|
    decreases |s|
  {
    if |s| > 0 {
      DistinctSize(s[1..]);
      assert (set x | x in s) == (set x | x in s[1..]) + {s[0]};
    }
  }

  /** An element occurring at two positions is counted at least twice. */
  lemma CountsRepeat(b: seq<string>, i: nat, j: nat)
    requires i < j < |b|
    ensures b[i] == b[j] ==> multiset(b)[b[i]] >= 2
  {
    if b[i] == b[j] {
      assert b == b[..j] + [b[j]] + b[j + 1..];
      assert b[i] in b[..j];
      assert multiset(b) == multiset(b[..j]) + multiset{b[j]} + multiset(b[j + 1..]);
    }
  }

  /** A sequence with the contents of a distinct one is distinct too. */
  lemma SameContentsDistinct(a: seq<string>, b: seq<string>)
    requires Distinct(a) && multiset(a) == multiset(b)
    ensures Distinct(b)
  {
    forall i, j | 0 <= i < j < |b|
      ensures b[i] != b[j]
    {
      DistinctCount(a, b[i]);
      CountsRepeat(b, i, j);
    }
  }

  /** Sorting an enumeration of a map's keys lists each key exactly once. */
  lemma SortedEnumeration<H>(order: seq<string>, m: map<string, Cmd<H>>)
    requires Enumerates(order, m)
    ensures |Sort(order)| == |m|
    ensures Distinct(Sort(order))
    ensures forall i :: 0 <= i < |Sort(order)| ==> Sort(order)[i] in m
    ensures forall k :: k in m ==> k in Sort(order)
  {
    var names := Sort(order);
    forall i | 0 <= i < |names|
      ensures names[i] in m
    {
      assert names[i] in multiset(order);
    }
    forall k | k in m
      ensures k in names
    {
      assert k in multiset(names);
    }
    SameContentsDistinct(order, names);
    DistinctSize(order);
    assert (set x | x in order) == m.Keys;
  }

  /** One line of the listing: a name, its description and the sink of
      the child it describes (the Go loop shadows `cmd` with the child). */
  datatype Row = Row(name: string, desc: string, sink: Sink)

  /** The rows for the children named by `names`, in that order. */
  function RowsFor<H(==)>(c: Cmd<H>, names: seq<string>): (rows: seq<Row>)
    requires forall i :: 0 <= i < |names| ==> names[i] in c.children
    ensures |rows| == |names|
    ensures forall i :: 0 <= i < |rows| ==>
      rows[i] == Row(names[i], c.children[names[i]].desc, c.children[names[i]].output)
  {
    if |names| == 0 then []
    else [Row(names[0], c.children[names[0]].desc, c.children[names[0]].output)] + RowsFor(c, names[1..])
  }

  /** The children of `c` as rows, sorted by name (`sort.Strings` on
      the names a `range` over the map produced). */
  function Rows<H(==)>(c: Cmd<H>, order: seq<string>): (rows: seq<Row>)
    requires Enumerates(order, c.children)
    ensures |rows| == |c.children|
    ensures forall i :: 0 <= i < |rows| ==>
      rows[i].name in c.children
      && rows[i].desc == c.children[rows[i].name].desc
      && rows[i].sink == c.children[rows[i].name].output
  {
    SortedEnumeration(order, c.children);
    RowsFor(c, Sort(order))
  }

  /** The rows come in strictly increasing order of name. */
  lemma RowsSorted<H>(c: Cmd<H>, order: seq<string>)
    requires Enumerates(order, c.children)
    ensures var rows := Rows(c, order);
      forall i, j :: 0 <= i < j < |rows| ==> Below(rows[i].name, rows[j].name) && rows[i].name != rows[j].name
  {
    var names := Sort(order);
    SortedEnumeration(order, c.children);
    assert Rows(c, order) == RowsFor(c, names);
  }

  /** Every child has a row. */
  lemma RowsCoverChildren<H>(c: Cmd<H>, order: seq<string>)
    requires Enumerates(order, c.children)
    ensures var rows := Rows(c, order);
      forall k :: k in c.children ==> exists i :: 0 <= i < |rows| && rows[i].name == k
  {
    forall k | k in c.children
      ensures exists i :: 0 <= i < |Rows(c, order)| && Rows(c, order)[i].name == k
    {
      RowFor(c, order, k);
    }
  }

  /** The row of one child. */
  lemma RowFor<H>(c: Cmd<H>, order: seq<string>, k: string)
    requires Enumerates(order, c.children) && k in c.children
    ensures exists i :: 0 <= i < |Rows(c, order)| && Rows(c, order)[i].name == k
  {
    var names := Sort(order);
    SortedEnumeration(order, c.children);
    var i :| 0 <= i < |names| && names[i] == k;
    assert Rows(c, order)[i] == RowsFor(c, names)[i];
  }

  const Indent: string := "     "

  /** `fmt.Sprintf("     %*s %s\n", width, name, desc)`. */
  function RowText(r: Row, width: nat): string
  {
    Indent + PadLeft(r.name, width) + " " + r.desc + "\n"
  }

  /** A row fitting the width is the indent, the name right-aligned to the
      width (spaces before it), a space, the description and a newline. */
  lemma RowTextLayout(r: Row, width: nat)
    requires |r.name| <= width
    ensures var text := RowText(r, width);
      && |text| == |Indent| + width + 1 + |r.desc| + 1
      && (forall j :: 0 <= j < |Indent| + width - |r.name| ==> text[j] == ' ')
      && text[|Indent| + width - |r.name|..|Indent| + width] == r.name
      && text[|Indent| + width] == ' '
      && text[|Indent| + width + 1..|text| - 1] == r.desc
      && text[|text| - 1] == '\n'
  {
    var padded := PadLeft(r.name, width);
    var text := RowText(r, width);
    assert text == (Indent + padded) + ([' '] + r.desc + "\n");
    assert text[..|Indent| + width] == Indent + padded;
    assert text[|Indent| + width + 1..|text| - 1] == r.desc;
    forall j | 0 <= j < |Indent| + width - |r.name|
      ensures text[j] == ' '
    {
      if j >= |Indent| {
        assert text[j] == padded[j - |Indent|];
      }
    }
    assert text[|Indent| + width - |r.name|..|Indent| + width] == padded[width - |r.name|..];
  }

  /** One write per row, each to the row's sink. */
  function RowLines(rows: seq<Row>, width: nat): (ws: seq<Write>)
    ensures |ws| == |rows|
    ensures forall i :: 0 <= i < |rows| ==> ws[i].sink == rows[i].sink && ws[i].text == RowText(rows[i], width)
  {
    seq(|rows|, i requires 0 <= i < |rows| => Write(rows[i].sink, RowText(rows[i], width)))
  }

  /** Every row's name fits the width of the longest name. */
  lemma RowFits<H>(c: Cmd<H>, order: seq<string>, i: nat)
    requires Enumerates(order, c.children) && i < |Rows(c, order)|
    ensures |Rows(c, order)[i].name| <= MaxLen(order)
  {
    var name := Rows(c, order)[i].name;
    assert name in c.children;
    var j :| 0 <= j < |order| && order[j] == name;
  }

  const ListingHeader: string := "\nAvailable Commands:\n"

  /** `printCommands`: nothing for a leaf, otherwise a header and one line
      per child, sorted by name; `ListingLine` states where the
      descriptions start. */
  function Listing<H(==)>(c: Cmd<H>, order: seq<string>): (ws: seq<Write>)
    requires Enumerates(order, c.children)
    ensures |c.children| == 0 ==> ws == []
    ensures |c.children| > 0 ==> |ws| == |c.children| + 1 && ws[0] == Write(c.output, ListingHeader)
  {
    if |c.children| == 0 then []
    else [Write(c.output, ListingHeader)] + RowLines(Rows(c, order), MaxLen(order))
  }

  /** Any line of the listing after the header: the text of the row of
      the child it describes, written to that child's sink, with the name
      fitting the width of the longest name. With `RowTextLayout`, every
      description starts in the same column. */
  lemma ListingLine<H>(c: Cmd<H>, order: seq<string>, i: nat)
    requires Enumerates(order, c.children) && 1 <= i < |Listing(c, order)|
    ensures var row := Rows(c, order)[i - 1];
      var width := MaxLen(order);
      && Listing(c, order)[i] == Write(c.children[row.name].output, RowText(row, width))
      && |row.name| <= width
  {
    var rows := Rows(c, order);
    var width := MaxLen(order);
    RowFits(c, order, i - 1);
    assert Listing(c, order)[i] == RowLines(rows, width)[i - 1];
  }

  /** Every write goes to `w`. */
  predicate AllTo(ws: seq<Write>, w: Sink)
  {
    forall i :: 0 <= i < |ws| ==> ws[i].sink == w
  }

  lemma AllToConcat(a: seq<Write>, b: seq<Write>, w: Sink)
    requires AllTo(a, w) && AllTo(b, w)
    ensures AllTo(a + b, w)
  {
    forall i | 0 <= i < |a + b|
      ensures (a + b)[i].sink == w
    {
      if i >= |a| {
        assert (a + b)[i] == b[i - |a|];
      }
    }
  }

  /** Each line of the listing goes to the sink of the child it names. */
  lemma ListingSinks<H>(c: Cmd<H>, order: seq<string>, w: Sink)
    requires Enumerates(order, c.children) && AllWrite(c, w)
    ensures AllTo(Listing(c, order), w)
  {
    var ws := Listing(c, order);
    forall i | 0 <= i < |ws|
      ensures ws[i].sink == w
    {
      if i > 0 {
        ListingLine(c, order, i);
        assert AllWrite(c.children[Rows(c, order)[i - 1].name], w);
      }
    }
  }

  /** The listing does not depend on the order the map was visited in. */
  lemma ListingIgnoresOrder<H>(c: Cmd<H>, a: seq<string>, b: seq<string>)
    requires Enumerates(a, c.children) && Enumerates(b, c.children)
    ensures Listing(c, a) == Listing(c, b)
  {
    EnumerationsAgree(a, b, c.children);
    SortIgnoresOrder(a, b);
    MaxLenIgnoresOrder(a, b);
  }

  // -----------------------------------------------------------------------
  // The Usage closure
  // -----------------------------------------------------------------------

  /** `Usage(cmd)()` for the node at `route`: the usage line, the flags
      block when there are flags (its table written by the flag set itself,
      through `defaults`), then the command listing. */
  function UsageOutput<H(==)>(t: Cmd<H>, route: Route, order: seq<string>, defaults: seq<Flag> -> string): seq<Write>
    requires Valid(t, route) && Enumerates(order, NodeAt(t, route).children)
  {
    var n := NodeAt(t, route);
    [Write(n.output, UsageLine(t, route))] + FlagsBlock(n, defaults) + Listing(n, order)
  }

  /** The flags block: a header and the table, or nothing without flags. */
  function FlagsBlock<H>(n: Cmd<H>, defaults: seq<Flag> -> string): seq<Write>
  {
    if HasFlags(n) then [Write(n.output, "Flags:\n"), Write(n.flags.value.output, defaults(n.flags.value.decls))]
    else []
  }

  /** The help text opens with the usage line, on the node's sink; a node
      with flags follows it with the "Flags:" header, on the node's sink,
      and the table, on the flag set's sink; one line per child and a
      header follow when there are children. */
  lemma UsageOutputLayout<H>(t: Cmd<H>, route: Route, order: seq<string>, defaults: seq<Flag> -> string)
    requires Valid(t, route) && Enumerates(order, NodeAt(t, route).children)
    ensures var n := NodeAt(t, route); var ws := UsageOutput(t, route, order, defaults);
      && |ws| >= 1 && ws[0] == Write(n.output, UsageLine(t, route))
      && (HasFlags(n) ==> |ws| >= 3 && ws[1] == Write(n.output, "Flags:\n") && ws[2].sink == n.flags.value.output)
      && |ws| == 1 + (if HasFlags(n) then 2 else 0) + (if |n.children| > 0 then |n.children| + 1 else 0)
  {
    var n := NodeAt(t, route);
    var head := [Write(n.output, UsageLine(t, route))] + FlagsBlock(n, defaults);
    assert UsageOutput(t, route, order, defaults) == head + Listing(n, order);
  }

  lemma {:induction false} AllWriteAt<H>(t: Cmd<H>, route: Route, w: Sink)
    requires AllWrite(t, w) && Valid(t, route)
    ensures AllWrite(NodeAt(t, route), w)
    decreases |route|
  {
    if |route| > 0 {
      AllWriteAt(t.children[route[0]], route[1..], w);
    }
  }

  /** When every node and flag set of the tree writes to `w`, all of any
      node's help text lands on `w`. */
  lemma UsageOnOneSink<H>(t: Cmd<H>, route: Route, order: seq<string>, defaults: seq<Flag> -> string, w: Sink)
    requires Valid(t, route) && Enumerates(order, NodeAt(t, route).children)
    requires AllWrite(t, w)
    ensures AllTo(UsageOutput(t, route, order, defaults), w)
  {
    var n := NodeAt(t, route);
    AllWriteAt(t, route, w);
    ListingSinks(n, order, w);
    var flags := FlagsBlock(n, defaults);
    AllToConcat([Write(n.output, UsageLine(t, route))], flags, w);
    AllToConcat([Write(n.output, UsageLine(t, route))] + flags, Listing(n, order), w);
  }

  /** `SetOutput` as intended sends all help text of every node to the new
      sink, whichever node it was called on. */
  lemma SetOutputRetargetsHelp<H>(t: Cmd<H>, from: Route, w: Sink, route: Route, order: seq<string>, defaults: seq<Flag> -> string)
    requires Valid(t, from)
    requires Valid(SetOutput(t, from, w, Intended), route)
    requires Enumerates(order, NodeAt(SetOutput(t, from, w, Intended), route).children)
    ensures AllTo(UsageOutput(SetOutput(t, from, w, Intended), route, order, defaults), w)
  {
    UsageOnOneSink(SetOutput(t, from, w, Intended), route, order, defaults, w);
  }

  /** As written, `SetOutput` leaves a flag set on its old sink: a child
      with one declared flag, created while the root wrote to standard
      error, still has its flag table written there after the root is
      pointed at another sink. */
  lemma SetOutputStrandsFlagTable()
    ensures var leaf: Cmd<int> := Cmd("serve", "", Router, Some(FlagSet([Flag("port", "80", "")], Stderr)), "", map[], Stderr);
      var root: Cmd<int> := Cmd("app", "", Router, None, "", map["serve" := leaf], Stderr);
      var moved := SetOutput(root, ["serve"], Writer(1), AsWritten);
      && Valid(moved, ["serve"])
      && var u := UsageOutput(moved, ["serve"], [], _ => "  -port string\n");
      |u| == 3 && u[0].sink == Writer(1) && u[1].sink == Writer(1) && u[2].sink == Stderr
  {
    var leaf: Cmd<int> := Cmd("serve", "", Router, Some(FlagSet([Flag("port", "80", "")], Stderr)), "", map[], Stderr);
    var root: Cmd<int> := Cmd("app", "", Router, None, "", map["serve" := leaf], Stderr);
    var moved := SetOutput(root, ["serve"], Writer(1), AsWritten);
    assert moved == SetOutputBelow(root, Writer(1), AsWritten);
    assert "serve" in moved.children;
    assert moved.children["serve"] == SetOutputBelow(leaf, Writer(1), AsWritten);
  }
}
