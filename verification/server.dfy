/** The `server` command of the `waffle` tool (`cmd/waffle/server.go`):
    the sub-tree its `init` adds to the application's root command and the
    argument check of its handlers, as a concrete instance of dispatch. */
module Server {
  import opened Optional
  import opened CommandTree
  import opened Dispatch
  import opened Strings
  import opened Usage

  /** The handlers the tree can hold: the five of `server.go`, and those
      other files register (`Elsewhere`). */
  datatype Handler = AddController | AddEndpoint | RmController | RmEndpoint | GenerateServer | Elsewhere(id: nat)

  /** The error a handler returns. `addController` rejects fewer than two
      arguments with `ErrUsage`; past that check it saves the configuration
      and regenerates the code, whose error is `saved`. The other four
      return nil; the handlers of other files are `elsewhere`. */
  function Invoke(h: Handler, args: seq<string>, saved: seq<string> -> Option<Error>,
                  elsewhere: (nat, seq<string>) -> Option<Error>): (r: Option<Error>)
    ensures h == AddController && |args| < 2 ==> r == Some(ErrUsage)
    ensures h == AddController && |args| >= 2 ==> r == saved(args)
    ensures h in {AddEndpoint, RmController, RmEndpoint, GenerateServer} ==> r.None?
    ensures h.Elsewhere? ==> r == elsewhere(h.id, args)
  {
    match h
    case AddController => if |args| < 2 then Some(ErrUsage) else saved(args)
    case Elsewhere(id) => elsewhere(id, args)
    case _ => None
  }

  const AddControllerDesc: string := "add a controller to the server"
  const RmControllerDesc: string := "remove a controller from the server"
  const AddDesc: string := "add controllers, endpoints and security"
  const RemoveDesc: string := "remove controllers, endpoints and security"
  const GenerateDesc: string := "generate code specified in openapi.json"
  const ServerDesc: string := "manage api server controllers and endpoints"

  const ServerRoute: Route := ["server"]
  const AddRoute: Route := ["server", "add"]
  const AddControllerRoute: Route := ["server", "add", "controller"]
  const AddEndpointRoute: Route := ["server", "add", "endpoint"]
  const RemoveRoute: Route := ["server", "remove"]
  const RmControllerRoute: Route := ["server", "remove", "controller"]
  const RmEndpointRoute: Route := ["server", "remove", "endpoint"]
  const GenerateRoute: Route := ["server", "generate"]

  // `init` calls `AddCommand` on node pointers (`serverCmd`, `addCmd`,
  // `removeCmd`), changing those nodes in place. Here each group of calls
  // builds the node's new value, which is then put back in its parent.

  /** `c` with its child `k` replaced by `n`. */
  function Replace(c: Cmd<Handler>, k: string, n: Cmd<Handler>): Cmd<Handler>
  {
    c.(children := c.children[k := n])
  }

  /** server.go:9-11, run on `addCmd`. */
  function FillAdd(a: Cmd<Handler>): Cmd<Handler>
  {
    var (a1, ctrl) := AddCommand(a, [], "controller", AddControllerDesc, Some(AddController));
    var a2 := WithUsageStr(a1, ctrl, "<name> <path>");
    AddCommand(a2, [], "endpoint", AddControllerDesc, Some(AddEndpoint)).0
  }

  /** server.go:14-15, run on `removeCmd`. */
  function FillRemove(r: Cmd<Handler>): Cmd<Handler>
  {
    var (r1, _) := AddCommand(r, [], "controller", RmControllerDesc, Some(RmController));
    AddCommand(r1, [], "endpoint", RmControllerDesc, Some(RmEndpoint)).0
  }

  /** server.go:8-17, run on `serverCmd`. */
  function FillServer(s: Cmd<Handler>): Cmd<Handler>
  {
    var (s1, _) := AddCommand(s, [], "add", AddDesc, None);
    var s2 := Replace(s1, "add", FillAdd(s1.children["add"]));
    var (s3, _) := AddCommand(s2, [], "remove", RemoveDesc, None);
    var s4 := Replace(s3, "remove", FillRemove(s3.children["remove"]));
    AddCommand(s4, [], "generate", GenerateDesc, Some(GenerateServer)).0
  }

  /** `init` of `server.go` run on the application's root command. */
  function Init(app: Cmd<Handler>): Cmd<Handler>
  {
    var (t, _) := AddCommand(app, [], "server", ServerDesc, None);
    Replace(t, "server", FillServer(t.children["server"]))
  }

  /** A leaf with the given name, handler and usage string, and no flags. */
  predicate IsLeaf(c: Cmd<Handler>, name: string, h: Handler, usage: string)
  {
    c.name == name && c.run == Handler(h) && c.children == map[] && c.usageStr == usage && Decls(c) == []
  }

  /** A routing node with the given name and child names, and no flags. */
  predicate IsRouter(c: Cmd<Handler>, name: string, keys: set<string>)
  {
    c.name == name && c.run == Router && c.children.Keys == keys && Decls(c) == []
  }

  /** `server{add{controller, endpoint}, remove{controller, endpoint},
      generate}`, with the handlers and usage string `init` gives them. */
  predicate ServerShape(f: Cmd<Handler>)
  {
    && IsRouter(f, "server", {"add", "remove", "generate"})
    && IsRouter(f.children["add"], "add", {"controller", "endpoint"})
    && IsRouter(f.children["remove"], "remove", {"controller", "endpoint"})
    && IsLeaf(f.children["add"].children["controller"], "controller", AddController, "<name> <path>")
    && IsLeaf(f.children["add"].children["endpoint"], "endpoint", AddEndpoint, "")
    && IsLeaf(f.children["remove"].children["controller"], "controller", RmController, "")
    && IsLeaf(f.children["remove"].children["endpoint"], "endpoint", RmEndpoint, "")
    && IsLeaf(f.children["generate"], "generate", GenerateServer, "")
  }

  /** The tree has the `server` sub-tree under its root. */
  predicate HasServer(t: Cmd<Handler>)
  {
    "server" in t.children && ServerShape(t.children["server"])
  }

  /** `AddCommand` called on a node changes only that node's children. */
  lemma AddHere(c: Cmd<Handler>, name: string, desc: string, run: Option<Handler>)
    ensures AddCommand(c, [], name, desc, run).0 == Replace(c, name, NewChild(c, name, desc, run))
  {
    AddCommandAtRoot(c, name, desc, run);
  }

  lemma FillAddShape(a: Cmd<Handler>)
    requires IsRouter(a, "add", {})
    ensures IsRouter(FillAdd(a), "add", {"controller", "endpoint"})
    ensures IsLeaf(FillAdd(a).children["controller"], "controller", AddController, "<name> <path>")
    ensures IsLeaf(FillAdd(a).children["endpoint"], "endpoint", AddEndpoint, "")
  {
    AddHere(a, "controller", AddControllerDesc, Some(AddController));
    var a1 := Replace(a, "controller", NewChild(a, "controller", AddControllerDesc, Some(AddController)));
    WithUsageStrAtChild(a1, "controller", "<name> <path>");
    var a2 := WithUsageStr(a1, ["controller"], "<name> <path>");
    AddHere(a2, "endpoint", AddControllerDesc, Some(AddEndpoint));
    assert a2.children.Keys == {"controller"};
    assert FillAdd(a).children.Keys == {"controller"} + {"endpoint"};
  }

  lemma FillRemoveShape(r: Cmd<Handler>)
    requires IsRouter(r, "remove", {})
    ensures IsRouter(FillRemove(r), "remove", {"controller", "endpoint"})
    ensures IsLeaf(FillRemove(r).children["controller"], "controller", RmController, "")
    ensures IsLeaf(FillRemove(r).children["endpoint"], "endpoint", RmEndpoint, "")
  {
    AddHere(r, "controller", RmControllerDesc, Some(RmController));
    var r1 := Replace(r, "controller", NewChild(r, "controller", RmControllerDesc, Some(RmController)));
    AddHere(r1, "endpoint", RmControllerDesc, Some(RmEndpoint));
    assert FillRemove(r).children.Keys == {"controller"} + {"endpoint"};
  }

  lemma FillServerShape(s: Cmd<Handler>)
    requires IsRouter(s, "server", {})
    ensures ServerShape(FillServer(s))
  {
    AddHere(s, "add", AddDesc, None);
    var s1 := Replace(s, "add", NewChild(s, "add", AddDesc, None));
    var add := FillAdd(s1.children["add"]);
    FillAddShape(s1.children["add"]);
    var s2 := Replace(s1, "add", add);
    AddHere(s2, "remove", RemoveDesc, None);
    var s3 := Replace(s2, "remove", NewChild(s2, "remove", RemoveDesc, None));
    var remove := FillRemove(s3.children["remove"]);
    FillRemoveShape(s3.children["remove"]);
    var s4 := Replace(s3, "remove", remove);
    AddHere(s4, "generate", GenerateDesc, Some(GenerateServer));
    var f := FillServer(s);
    assert f == Replace(s4, "generate", NewChild(s4, "generate", GenerateDesc, Some(GenerateServer)));
    assert f.children["add"] == add && f.children["remove"] == remove;
    assert f.children.Keys == {"add"} + {"remove"} + {"generate"};
  }

  /** `init` adds a fresh `server` node and fills it. */
  lemma InitIsFill(app: Cmd<Handler>)
    ensures var s := NewChild(app, "server", ServerDesc, None);
      IsRouter(s, "server", {}) && Init(app) == Replace(app, "server", FillServer(s))
  {
    var s := NewChild(app, "server", ServerDesc, None);
    var t := AddCommand(app, [], "server", ServerDesc, None).0;
    AddHere(app, "server", ServerDesc, None);
    assert t.children["server"] == s;
    ReplaceTwice(app, "server", s, FillServer(s));
  }

  /** Replacing a child twice keeps the second value. */
  lemma ReplaceTwice(c: Cmd<Handler>, k: string, a: Cmd<Handler>, b: Cmd<Handler>)
    ensures Replace(Replace(c, k, a), k, b) == Replace(c, k, b)
  {
    assert c.children[k := a][k := b] == c.children[k := b];
  }

  /** `init` builds the `server` sub-tree under the root. */
  lemma InitBuildsServer(app: Cmd<Handler>)
    ensures HasServer(Init(app))
  {
    InitIsFill(app);
    var s := NewChild(app, "server", ServerDesc, None);
    FillServerShape(s);
    var f := FillServer(s);
    assert Replace(app, "server", f).children["server"] == f;
  }

  /** `init` leaves the root's other commands alone (a `server` command
      registered earlier is replaced). */
  lemma InitKeepsOthers(app: Cmd<Handler>)
    ensures Init(app).children == app.children["server" := Init(app).children["server"]]
  {
    InitIsFill(app);
  }

  // -----------------------------------------------------------------------
  // Dispatch through the `server` sub-tree
  // -----------------------------------------------------------------------

  /** The handler errors of this program, given what saving and
      regenerating and the other files' handlers return. */
  function Handlers(saved: seq<string> -> Option<Error>, elsewhere: (nat, seq<string>) -> Option<Error>): (Handler, seq<string>) -> Option<Error>
  {
    (h, a) => Invoke(h, a, saved, elsewhere)
  }

  /** `server add` with nothing after it stops at `add`, a router: the
      root shows the usage of `add`, and no handler runs. */
  lemma ServerAddNeedsSubCommand(t: Cmd<Handler>, parse: Parser, invoke: (Handler, seq<string>) -> Option<Error>)
    requires HasServer(t) && StopsAtOperand(parse)
    ensures Runner(t, [], ["server", "add"], parse, invoke) ==
      Outcome(Some(CommandError(ExpectingSubCommand, AddRoute)), None, ShowUsage(AddRoute, ExpectingSubCommand))
  {
    var s := t.children["server"];
    assert IsOperand("add");
    assert parse(Decls(s), ["add"]) == ["add"];
    assert ["server", "add"][1..] == ["add"];
    assert [] + ["server"] == ServerRoute;
    assert ServerRoute + ["add"] == AddRoute;
    var a := s.children["add"];
    assert parse(Decls(a), []) == [];
    assert Descend(a, AddRoute, [], parse, invoke) == Descent(Some(CommandError(ExpectingSubCommand, AddRoute)), None);
    assert Descend(s, ServerRoute, ["add"], parse, invoke) == Descent(Some(CommandError(ExpectingSubCommand, AddRoute)), None);
  }

  /** `server remove controller ...` runs `rmController` on what is left
      after flag parsing, never `addController`, and succeeds silently. */
  lemma RemoveControllerRunsRm(t: Cmd<Handler>, parse: Parser, args: seq<string>,
                               saved: seq<string> -> Option<Error>, elsewhere: (nat, seq<string>) -> Option<Error>)
    requires HasServer(t) && StopsAtOperand(parse)
    ensures var o := Runner(t, [], ["server", "remove", "controller"] + args, parse, Handlers(saved, elsewhere));
      o == Outcome(None, Some(Call(RmControllerRoute, RmController, parse([], args))), Silent)
  {
    var invoke := Handlers(saved, elsewhere);
    var all := ["server", "remove", "controller"] + args;
    var s := t.children["server"];
    var r := s.children["remove"];
    assert IsOperand("remove") && IsOperand("controller");
    assert all[0] == "server" && all[1..] == ["remove", "controller"] + args;
    assert parse(Decls(s), all[1..]) == all[1..];
    assert (all[1..])[0] == "remove" && all[1..][1..] == ["controller"] + args;
    assert parse(Decls(r), ["controller"] + args) == ["controller"] + args;
    assert (["controller"] + args)[0] == "controller" && (["controller"] + args)[1..] == args;
    assert [] + ["server"] == ServerRoute && ServerRoute + ["remove"] == RemoveRoute;
    assert RemoveRoute + ["controller"] == RmControllerRoute;
    var d := Descent(None, Some(Call(RmControllerRoute, RmController, parse([], args))));
    assert Descend(r, RemoveRoute, ["controller"] + args, parse, invoke) == d;
    assert Descend(s, ServerRoute, all[1..], parse, invoke) == d;
  }

  /** `server add controller` with fewer than two arguments left after
      flag parsing fails with `ErrUsage` tagged with the `controller` node,
      whose usage the root then shows. */
  lemma AddControllerTooFewArgs(t: Cmd<Handler>, parse: Parser, args: seq<string>,
                                saved: seq<string> -> Option<Error>, elsewhere: (nat, seq<string>) -> Option<Error>)
    requires HasServer(t) && StopsAtOperand(parse)
    requires |parse([], args)| < 2
    ensures var o := Runner(t, [], ["server", "add", "controller"] + args, parse, Handlers(saved, elsewhere));
      o == Outcome(Some(CommandError(ErrUsage, AddControllerRoute)),
                   Some(Call(AddControllerRoute, AddController, parse([], args))),
                   ShowUsage(AddControllerRoute, ErrUsage))
  {
    var invoke := Handlers(saved, elsewhere);
    var all := ["server", "add", "controller"] + args;
    var s := t.children["server"];
    var a := s.children["add"];
    assert IsOperand("add") && IsOperand("controller");
    assert all[0] == "server" && all[1..] == ["add", "controller"] + args;
    assert parse(Decls(s), all[1..]) == all[1..];
    assert (all[1..])[0] == "add" && all[1..][1..] == ["controller"] + args;
    assert parse(Decls(a), ["controller"] + args) == ["controller"] + args;
    assert (["controller"] + args)[0] == "controller" && (["controller"] + args)[1..] == args;
    assert [] + ["server"] == ServerRoute && ServerRoute + ["add"] == AddRoute;
    assert AddRoute + ["controller"] == AddControllerRoute;
    var d := Descent(Some(CommandError(ErrUsage, AddControllerRoute)), Some(Call(AddControllerRoute, AddController, parse([], args))));
    assert Descend(a, AddRoute, ["controller"] + args, parse, invoke) == d;
    assert Descend(s, ServerRoute, all[1..], parse, invoke) == d;
  }

  /** Where `server add controller` sits and what its path reads. */
  lemma ControllerNode(t: Cmd<Handler>)
    requires HasServer(t)
    ensures Valid(t, AddControllerRoute)
    ensures Path(t, AddControllerRoute) == [t.name, "server", "add", "controller"]
    ensures NodeAt(t, AddControllerRoute) == t.children["server"].children["add"].children["controller"]
  {
    var s := t.children["server"];
    var a := s.children["add"];
    assert Valid(a, ["controller"]) && ["add", "controller"][1..] == ["controller"];
    assert Valid(s, ["add", "controller"]);
    assert AddControllerRoute[1..] == ["add", "controller"];
    assert Path(t, AddControllerRoute) == [t.name] + Path(s, ["add", "controller"]);
  }

  lemma JoinControllerPath(root: string)
    ensures Join([root, "server", "add", "controller"], " ") == root + " server add controller"
  {
    assert [root, "server", "add", "controller"][1..] == ["server", "add", "controller"];
    assert ["server", "add", "controller"][1..] == ["add", "controller"];
    assert ["add", "controller"][1..] == ["controller"];
  }

  /** A usage line whose path joins to `head + tail` and whose clauses
      are `f` and `g`, regrouped. */
  lemma RegroupLine(j: string, head: string, tail: string, f: string, g: string)
    requires j == head + tail && f == ""
    ensures UsagePrefix + ((j + f) + g) + "\n" == UsagePrefix + head + tail + g + "\n"
  {
    assert j + f == j;
    ConcatAssoc(UsagePrefix, j, g);
    ConcatAssoc(UsagePrefix, head, tail);
  }

  /** The usage line of `server add controller`: a leaf without flags,
      so its usage string ends the line. */
  lemma ControllerUsageLine(t: Cmd<Handler>)
    requires HasServer(t)
    ensures Valid(t, AddControllerRoute)
    ensures UsageLine(t, AddControllerRoute) == UsagePrefix + t.name + " server add controller" + " <name> <path>" + "\n"
  {
    ControllerNode(t);
    var n := NodeAt(t, AddControllerRoute);
    var j := Join(Path(t, AddControllerRoute), " ");
    assert j == t.name + " server add controller" by {
      JoinControllerPath(t.name);
    }
    assert FlagsClause(n) == "" && ArgsClause(n) == " <name> <path>";
    RegroupLine(j, t.name, " server add controller", FlagsClause(n), ArgsClause(n));
  }

  /** The usage line of `server`: a router, so it ends with `<command>`. */
  lemma ServerUsageLine(t: Cmd<Handler>)
    requires HasServer(t)
    ensures Valid(t, ServerRoute)
    ensures UsageLine(t, ServerRoute) == UsagePrefix + t.name + " server" + " <command>" + "\n"
  {
    var s := t.children["server"];
    assert ServerRoute[1..] == [];
    assert NodeAt(t, ServerRoute) == s;
    var j := Join(Path(t, ServerRoute), " ");
    assert j == t.name + " server" by {
      assert Path(t, ServerRoute) == [t.name, "server"];
      assert [t.name, "server"][1..] == ["server"];
      assert Join([t.name, "server"], " ") == t.name + " " + Join(["server"], " ");
      ConcatAssoc(t.name, " ", "server");
      assert " " + "server" == " server";
    }
    assert "add" in s.children && !HasFlags(s);
    assert FlagsClause(s) == "" && ArgsClause(s) == " <command>";
    RegroupLine(j, t.name, " server", FlagsClause(s), ArgsClause(s));
  }
}
