/** The command tree of `command.go`: named nodes, each owning a flag set,
    an optional handler and a map of children.

    Go links every node to its parent with a pointer. Here the tree is an
    immutable value and a node is addressed by its ROUTE, the child names
    leading to it from the root; the root is the node with the empty route
    (Go: `parent == nil`). */
module CommandTree {
  import opened Optional
  import opened Behaviour

  type Route = seq<string>

  /** An output destination (Go `io.Writer`); `Stderr` is `os.Stderr`. */
  datatype Sink = Stderr | Writer(id: nat)

  /** One declared flag: name, default value as text, help text. */
  datatype Flag = Flag(name: string, defValue: string, usage: string)

  /** A `flag.FlagSet`: the declared flags and the set's own output. */
  datatype FlagSet = FlagSet(decls: seq<Flag>, output: Sink)

  /** A node's `Run`: either its own `Runner` (a pure router, what a nil
      `CommandFunc` turns into) or a handler of type `H`. */
  datatype Run<H> = Router | Handler(handler: H)

  datatype Cmd<H> = Cmd(
    name: string,
    desc: string,
    run: Run<H>,
    flags: Option<FlagSet>,
    usageStr: string,
    children: map<string, Cmd<H>>,
    output: Sink)

  /** The flags a node declares (none for a nil flag set). */
  function Decls<H(==)>(c: Cmd<H>): seq<Flag>
  {
    if c.flags.Some? then c.flags.value.decls else []
  }

  /** The shape every tree built through `NewCommand` and `AddCommand`
      has: each child is registered under its own name and owns a flag set. */
  predicate WellFormed<H(==)>(t: Cmd<H>)
    decreases t
  {
    forall k | k in t.children ::
      t.children[k].name == k && t.children[k].flags.Some? && WellFormed(t.children[k])
  }

  /** `NewCommand` (command.go:50-59): an unnamed root that routes, has no
      children, no flag set, and writes to standard error. */
  function NewCommand<H(==)>(): (c: Cmd<H>)
    ensures WellFormed(c)
    ensures c.run == Router && c.children == map[] && c.flags.None?
    ensures c.output == Stderr
  {
    Cmd("", "", Router, None, "", map[], Stderr)
  }

  /** `route` leads from `t` to an existing node. */
  predicate Valid<H(==)>(t: Cmd<H>, route: Route)
    decreases |route|
  {
    |route| == 0 || (route[0] in t.children && Valid(t.children[route[0]], route[1..]))
  }

  /** The node `route` leads to. */
  function NodeAt<H(==)>(t: Cmd<H>, route: Route): Cmd<H>
    requires Valid(t, route)
    decreases |route|
  {
    if |route| == 0 then t else NodeAt(t.children[route[0]], route[1..])
  }

  lemma {:induction false} ValidPrefix<H>(t: Cmd<H>, route: Route, n: nat)
    requires Valid(t, route) && n <= |route|
    ensures Valid(t, route[..n])
    decreases |route|
  {
    if n > 0 {
      ValidPrefix(t.children[route[0]], route[1..], n - 1);
      assert route[..n][1..] == route[1..][..n - 1];
    }
  }

  /** Following one more child name from a node. */
  lemma {:induction false} NodeAtExtend<H>(t: Cmd<H>, route: Route, k: string)
    requires Valid(t, route)
    ensures Valid(t, route + [k]) <==> k in NodeAt(t, route).children
    ensures Valid(t, route + [k]) ==> NodeAt(t, route + [k]) == NodeAt(t, route).children[k]
    decreases |route|
  {
    if |route| > 0 {
      assert (route + [k])[1..] == route[1..] + [k];
      NodeAtExtend(t.children[route[0]], route[1..], k);
    }
  }

  /** Every node of a well-formed tree heads a well-formed subtree. */
  lemma {:induction false} WellFormedAt<H>(t: Cmd<H>, route: Route)
    requires WellFormed(t) && Valid(t, route)
    ensures WellFormed(NodeAt(t, route))
    decreases |route|
  {
    if |route| > 0 {
      WellFormedAt(t.children[route[0]], route[1..]);
    }
  }

  /** `Lookup` (command.go:178-181): the child registered under `name`. */
  function Lookup<H(==)>(t: Cmd<H>, name: string): (r: Option<Cmd<H>>)
    ensures r.Some? <==> name in t.children
    ensures r.Some? ==> r.value == t.children[name]
  {
    if name in t.children then Some(t.children[name]) else None
  }

  /** `Path` (command.go:76-84): the names from the root down to the node
      `route` leads to, read from the nodes' `name` fields. */
  function Path<H(==)>(t: Cmd<H>, route: Route): (p: seq<string>)
    requires Valid(t, route)
    ensures |p| == |route| + 1
    ensures p[0] == t.name
    ensures p[|p| - 1] == NodeAt(t, route).name
    decreases |route|
  {
    if |route| == 0 then [t.name]
    else [t.name] + Path(t.children[route[0]], route[1..])
  }

  /** In a well-formed tree a node's path is the root's name followed by
      the route: names and registration keys agree all the way down. */
  lemma {:induction false} PathIsRoute<H>(t: Cmd<H>, route: Route)
    requires WellFormed(t) && Valid(t, route)
    ensures Path(t, route) == [t.name] + route
    decreases |route|
  {
    if |route| > 0 {
      var c := t.children[route[0]];
      PathIsRoute(c, route[1..]);
      assert Path(c, route[1..]) == [route[0]] + route[1..];
      assert [route[0]] + route[1..] == route;
    }
  }

  // -----------------------------------------------------------------------
  // AddCommand (command.go:148-172)
  // -----------------------------------------------------------------------

  /** The node `AddCommand` creates under `parent`: it shares the parent's
      output, gets a fresh flag set writing there too, no children, and
      routes when no handler is given. */
  function NewChild<H(==)>(parent: Cmd<H>, name: string, desc: string, run: Option<H>): Cmd<H>
  {
    Cmd(name, desc, if run.Some? then Handler(run.value) else Router,
        Some(FlagSet([], parent.output)), "", map[], parent.output)
  }

  /** Rebuilds the tree with `child` registered as `name` under the node
      at `route`, replacing any earlier child of that name. */
  function Attach<H(==)>(t: Cmd<H>, route: Route, name: string, child: Cmd<H>): (r: Cmd<H>)
    requires Valid(t, route)
    ensures Valid(r, route)
    ensures NodeAt(r, route) == NodeAt(t, route).(children := NodeAt(t, route).children[name := child])
    decreases |route|
  {
    if |route| == 0 then t.(children := t.children[name := child])
    else
      var k := route[0];
      t.(children := t.children[k := Attach(t.children[k], route[1..], name, child)])
  }

  /** Apart from the attached child, `Attach` changes nothing: nodes off
      the route are untouched, nodes on it differ only in their children. */
  lemma {:induction false} AttachLeavesOthers<H>(t: Cmd<H>, route: Route, name: string, child: Cmd<H>, other: Route)
    requires Valid(t, route) && Valid(t, other)
    requires !(route + [name] <= other)
    ensures Valid(Attach(t, route, name, child), other)
    ensures other <= route ==>
      NodeAt(Attach(t, route, name, child), other).(children := map[]) == NodeAt(t, other).(children := map[])
    ensures !(other <= route) ==> NodeAt(Attach(t, route, name, child), other) == NodeAt(t, other)
    decreases |route|
  {
    if |route| > 0 && |other| > 0 && other[0] == route[0] {
      var k := route[0];
      assert route + [name] == [k] + (route[1..] + [name]);
      assert other == [k] + other[1..];
      AttachLeavesOthers(t.children[k], route[1..], name, child, other[1..]);
    }
  }

  /** `AddCommand` on the node at `route` of the tree `root`: returns the
      new tree and the route of the new child. `AddCommandContract` states
      what it does. */
  function AddCommand<H(==)>(root: Cmd<H>, route: Route, name: string, desc: string, run: Option<H>): (res: (Cmd<H>, Route))
    requires Valid(root, route)
  {
    (Attach(root, route, name, NewChild(NodeAt(root, route), name, desc, run)), route + [name])
  }

  /** The new child sits at `route + [name]` with the given name,
      description and handler, no children and no usage string, writing
      where its parent writes; the parent keeps its other children, and a
      well-formed tree stays well-formed. */
  lemma AddCommandContract<H>(root: Cmd<H>, route: Route, name: string, desc: string, run: Option<H>)
    requires Valid(root, route)
    ensures var res := AddCommand(root, route, name, desc, run);
      res.1 == route + [name] && Valid(res.0, res.1) && Valid(res.0, route)
    ensures var res := AddCommand(root, route, name, desc, run);
      var c := NodeAt(res.0, res.1); var p := NodeAt(root, route);
      && c.name == name && c.desc == desc
      && (run.None? ==> c.run == Router)
      && (run.Some? ==> c.run == Handler(run.value))
      && c.children == map[] && c.usageStr == ""
      && c.output == p.output
      && c.flags == Some(FlagSet([], p.output))
    ensures var res := AddCommand(root, route, name, desc, run);
      NodeAt(res.0, route).children == NodeAt(root, route).children[name := NodeAt(res.0, res.1)]
    ensures WellFormed(root) ==> WellFormed(AddCommand(root, route, name, desc, run).0)
  {
    var child := NewChild(NodeAt(root, route), name, desc, run);
    var t := Attach(root, route, name, child);
    NodeAtExtend(t, route, name);
    AttachKeepsWellFormed(root, route, name, child);
  }

  /** `AddCommand` on the root only touches the root's child map. */
  lemma AddCommandAtRoot<H>(t: Cmd<H>, name: string, desc: string, run: Option<H>)
    ensures AddCommand(t, [], name, desc, run).0 == t.(children := t.children[name := NewChild(t, name, desc, run)])
  {
  }

  /** `AddCommand` further down rebuilds only the child the route passes
      through: every other child and every other field stay as they were. */
  lemma AddCommandBelow<H>(t: Cmd<H>, k: string, route: Route, name: string, desc: string, run: Option<H>)
    requires Valid(t, [k] + route)
    ensures k in t.children && Valid(t.children[k], route)
    ensures AddCommand(t, [k] + route, name, desc, run).0 ==
      t.(children := t.children[k := AddCommand(t.children[k], route, name, desc, run).0])
  {
    assert ([k] + route)[1..] == route;
  }

  /** The same for setting a usage string. */
  lemma WithUsageStrBelow<H>(t: Cmd<H>, k: string, route: Route, u: string)
    requires Valid(t, [k] + route) && |route| > 0
    ensures k in t.children && Valid(t.children[k], route)
    ensures WithUsageStr(t, [k] + route, u) == t.(children := t.children[k := WithUsageStr(t.children[k], route, u)])
  {
    assert ([k] + route)[1..] == route;
    assert ([k] + route)[..|route|] == [k] + route[..|route| - 1];
    assert ([k] + route[..|route| - 1])[1..] == route[..|route| - 1];
  }

  /** The same for setting the usage string of a child of the root. */
  lemma WithUsageStrAtChild<H>(t: Cmd<H>, k: string, u: string)
    requires Valid(t, [k])
    ensures k in t.children
    ensures WithUsageStr(t, [k], u) == t.(children := t.children[k := t.children[k].(usageStr := u)])
  {
    var route := [k];
    assert route[..|route| - 1] == [];
    assert route[|route| - 1] == k;
    assert NodeAt(t, route) == NodeAt(t.children[k], []);
  }

  lemma {:induction false} AttachKeepsWellFormed<H>(t: Cmd<H>, route: Route, name: string, child: Cmd<H>)
    requires Valid(t, route)
    ensures WellFormed(t) && child.name == name && child.flags.Some? && WellFormed(child) ==>
      WellFormed(Attach(t, route, name, child))
    decreases |route|
  {
    if |route| > 0 {
      AttachKeepsWellFormed(t.children[route[0]], route[1..], name, child);
    }
  }

  /** Assigning `UsageStr` on a node below the root (`cmd.UsageStr = u`):
      only that field of that node changes. */
  function WithUsageStr<H(==)>(t: Cmd<H>, route: Route, u: string): (r: Cmd<H>)
    requires Valid(t, route) && |route| > 0
    ensures Valid(r, route)
    ensures NodeAt(r, route) == NodeAt(t, route).(usageStr := u)
    ensures WellFormed(t) ==> WellFormed(r)
  {
    var parent := route[..|route| - 1];
    var k := route[|route| - 1];
    assert route == parent + [k];
    ValidPrefix(t, route, |route| - 1);
    NodeAtExtend(t, parent, k);
    var n := NodeAt(t, route);
    var r := Attach(t, parent, k, n.(usageStr := u));
    NodeAtExtend(r, parent, k);
    WellFormedKeepsNode(t, route);
    AttachKeepsWellFormed(t, parent, k, n.(usageStr := u));
    r
  }

  /** Following `a` and then `b` is following `a + b`. */
  lemma {:induction false} NodeAtAppend<H>(t: Cmd<H>, a: Route, b: Route)
    requires Valid(t, a)
    ensures Valid(t, a + b) <==> Valid(NodeAt(t, a), b)
    ensures Valid(t, a + b) ==> NodeAt(t, a + b) == NodeAt(NodeAt(t, a), b)
    decreases |a|
  {
    if |a| > 0 {
      assert (a + b)[0] == a[0] && (a + b)[1..] == a[1..] + b;
      NodeAtAppend(t.children[a[0]], a[1..], b);
    } else {
      assert a + b == b;
    }
  }

  /** Apart from the node's usage string, `WithUsageStr` changes nothing:
      every route stays valid, a node that is not above the changed one
      (its own descendants included) is untouched, and the nodes above it
      differ only in their children. */
  lemma WithUsageStrLeavesOthers<H>(t: Cmd<H>, route: Route, u: string, other: Route)
    requires Valid(t, route) && |route| > 0 && Valid(t, other)
    ensures Valid(WithUsageStr(t, route, u), other)
    ensures other < route ==>
      NodeAt(WithUsageStr(t, route, u), other).(children := map[]) == NodeAt(t, other).(children := map[])
    ensures !(other <= route) ==> NodeAt(WithUsageStr(t, route, u), other) == NodeAt(t, other)
  {
    var r := WithUsageStr(t, route, u);
    var parent := route[..|route| - 1];
    var k := route[|route| - 1];
    var n := NodeAt(t, route);
    assert route == parent + [k];
    ValidPrefix(t, route, |route| - 1);
    assert r == Attach(t, parent, k, n.(usageStr := u));
    if route <= other {
      var rest := other[|route|..];
      assert other == route + rest;
      NodeAtAppend(t, route, rest);
      NodeAtAppend(r, route, rest);
      if |rest| > 0 {
        assert NodeAt(r, route).children == n.children;
      }
    } else {
      AttachLeavesOthers(t, parent, k, n.(usageStr := u), other);
      if other < route {
        assert other <= parent;
      }
    }
  }

  /** In a well-formed tree a node below the root is registered under its
      own name and owns a flag set, and so is the node with another usage
      string. */
  lemma WellFormedKeepsNode<H>(t: Cmd<H>, route: Route)
    requires Valid(t, route) && |route| > 0
    ensures WellFormed(t) ==> var n := NodeAt(t, route);
      n.name == route[|route| - 1] && n.flags.Some? && forall u :: WellFormed(n.(usageStr := u))
  {
    if WellFormed(t) {
      var parent := route[..|route| - 1];
      var k := route[|route| - 1];
      assert route == parent + [k];
      ValidPrefix(t, route, |route| - 1);
      NodeAtExtend(t, parent, k);
      WellFormedAt(t, parent);
    }
  }

  // -----------------------------------------------------------------------
  // SetOutput (command.go:61-74)
  // -----------------------------------------------------------------------

  /** Every node of `t` writes to `w`. */
  predicate Writes<H(==)>(t: Cmd<H>, w: Sink)
    decreases t
  {
    t.output == w && forall k | k in t.children :: Writes(t.children[k], w)
  }

  /** Every node of `t` and every flag set in it writes to `w`. */
  predicate AllWrite<H(==)>(t: Cmd<H>, w: Sink)
    decreases t
  {
    && t.output == w
    && (t.flags.Some? ==> t.flags.value.output == w)
    && forall k | k in t.children :: AllWrite(t.children[k], w)
  }

  /** `a` and `b` are the same tree except for where their text goes. */
  predicate SameButSinks<H(==)>(a: Cmd<H>, b: Cmd<H>)
    decreases a
  {
    && a.name == b.name && a.desc == b.desc && a.run == b.run
    && a.usageStr == b.usageStr && Decls(a) == Decls(b)
    && a.flags.Some? == b.flags.Some?
    && a.children.Keys == b.children.Keys
    && forall k | k in a.children :: SameButSinks(a.children[k], b.children[k])
  }

  /** `a` and `b` differ at most in the nodes' own outputs. */
  predicate SameButOutput<H(==)>(a: Cmd<H>, b: Cmd<H>)
    decreases a
  {
    && a.(output := Stderr, children := map[]) == b.(output := Stderr, children := map[])
    && a.children.Keys == b.children.Keys
    && forall k | k in a.children :: SameButOutput(a.children[k], b.children[k])
  }

  /** `setOutput`: points the node and all its descendants at `w`. As
      written it leaves every flag set on the output it was created with;
      the intended behaviour moves the flag sets along. */
  function SetOutputBelow<H(==)>(t: Cmd<H>, w: Sink, policy: Policy): (r: Cmd<H>)
    ensures Writes(r, w)
    ensures policy == AsWritten ==> SameButOutput(r, t)
    ensures policy == Intended ==> AllWrite(r, w) && SameButSinks(r, t)
    decreases t
  {
    var flags := if policy == Intended && t.flags.Some? then Some(t.flags.value.(output := w)) else t.flags;
    Cmd(t.name, t.desc, t.run, flags, t.usageStr,
        map k | k in t.children :: SetOutputBelow(t.children[k], w, policy), w)
  }

  /** `SetOutput` called on the node at `route`: climbs parent by parent
      to the root, then retargets the whole tree from there. */
  function SetOutput<H(==)>(root: Cmd<H>, route: Route, w: Sink, policy: Policy): (r: Cmd<H>)
    requires Valid(root, route)
    ensures Writes(r, w)
    ensures policy == AsWritten ==> SameButOutput(r, root)
    ensures policy == Intended ==> AllWrite(r, w) && SameButSinks(r, root)
    decreases |route|
  {
    if |route| == 0 then SetOutputBelow(root, w, policy)
    else
      ValidPrefix(root, route, |route| - 1);
      SetOutput(root, route[..|route| - 1], w, policy)
  }
}
