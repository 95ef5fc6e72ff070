/** `Runner` from `command.go` (lines 183-214): routes an argument vector
    down the command tree, parsing each selected child's flags, and
    reports the final error at the root only.

    Flag parsing (`flag.FlagSet.Parse` followed by `Args()`) and the
    handlers themselves are parameters: `parse` gives the non-flag
    remainder of an argument list, `invoke` the error a handler returns. */
module Dispatch {
  import opened Optional
  import opened CommandTree

  /** The error values that flow through `Runner`. */
  datatype Error =
    | ErrUsage                                 // the sentinel `ErrUsage`
    | Annotated(inner: Error, detail: string)  // `fmt.Errorf("%w: <detail>", inner)`
    | Other(message: string)                   // any error wrapping nothing
    | CommandError(cause: Error, node: Route)  // `commandError`: `cause` tagged with the node it arose at

  /** The error's text (`Error()`); a `commandError` shows its cause. */
  function Message(e: Error): string
  {
    match e
    case ErrUsage => "Invalid command usage"
    case Annotated(inner, detail) => Message(inner) + ": " + detail
    case Other(m) => m
    case CommandError(cause, _) => Message(cause)
  }

  /** `errors.Is(e, ErrUsage)`: follows the `Unwrap` chain, which runs
      through `%w` annotations and through `commandError`. */
  predicate IsUsage(e: Error)
  {
    match e
    case ErrUsage => true
    case Annotated(inner, _) => IsUsage(inner)
    case Other(_) => false
    case CommandError(cause, _) => IsUsage(cause)
  }

  /** `%q` on a command name (escaping is not modelled). */
  function Quote(s: string): string
  {
    "\"" + s + "\""
  }

  /** The error for an empty argument list (command.go:185). */
  const ExpectingSubCommand: Error := Annotated(ErrUsage, "expecting sub-command")

  /** The error for a first argument that names no child (command.go:196). */
  function UnknownCommand(name: string): Error
  {
    Annotated(ErrUsage, "Unknown command " + Quote(name))
  }

  /** A flag parser: a flag set's declarations and an argument list to
      the arguments left once the flags are consumed. */
  type Parser = (seq<Flag>, seq<string>) -> seq<string>

  /** Go's flag parsing stops at the first argument that is not a flag:
      one shorter than two characters or not starting with `-`. */
  predicate IsOperand(arg: string)
  {
    |arg| < 2 || arg[0] != '-'
  }

  /** A parser that behaves as Go's does on arguments holding no flags:
      nothing to parse leaves nothing, and arguments starting with an
      operand are left as they are. */
  ghost predicate StopsAtOperand(parse: Parser)
  {
    forall decls: seq<Flag>, args: seq<string> ::
      (|args| == 0 || IsOperand(args[0])) ==> parse(decls, args) == args
  }

  /** Tags a child's error with the child (command.go:189-194), unless it
      is already tagged: the first tag, the deepest node, stays. */
  function Tag(e: Option<Error>, node: Route): (r: Option<Error>)
    ensures r.None? <==> e.None?
    ensures r.Some? ==> r.value.CommandError?
    ensures e.Some? && e.value.CommandError? ==> r == e
    ensures e.Some? && !e.value.CommandError? ==> r == Some(CommandError(e.value, node))
  {
    match e
    case None => None
    case Some(err) => if err.CommandError? then e else Some(CommandError(err, node))
  }

  /** One handler invocation: the node whose handler ran, the handler and
      the arguments it was given. */
  datatype Call<H> = Call(node: Route, handler: H, args: seq<string>)

  /** What a non-root `Runner` produces: its error and the handler call
      it led to, if any. */
  datatype Descent<H> = Descent(err: Option<Error>, call: Option<Call<H>>)

  /** `Runner` on the node `t` at `route`, up to the root-only reporting:
      command.go:184-197. */
  function Descend<H(==)>(t: Cmd<H>, route: Route, args: seq<string>, parse: Parser,
                          invoke: (H, seq<string>) -> Option<Error>): (d: Descent<H>)
    ensures |args| == 0 ==> d == Descent(Some(CommandError(ExpectingSubCommand, route)), None)
    ensures |args| > 0 && args[0] !in t.children ==>
      d == Descent(Some(CommandError(UnknownCommand(args[0]), route)), None)
    ensures |args| > 0 && args[0] in t.children && t.children[args[0]].run.Handler? ==>
      var c := t.children[args[0]];
      var rest := parse(Decls(c), args[1..]);
      d == Descent(Tag(invoke(c.run.handler, rest), route + [args[0]]),
                   Some(Call(route + [args[0]], c.run.handler, rest)))
    // every error leaving a Runner is tagged with a node
    ensures d.err.None? || d.err.value.CommandError?
    // no handler ran: it is a usage error
    ensures d.call.None? ==> d.err.Some? && IsUsage(d.err.value)
    // a handler that ran belongs to the child named by the first argument
    ensures d.call.Some? ==> |args| > 0 && route + [args[0]] <= d.call.value.node
    decreases t
  {
    if |args| < 1 then Descent(Some(CommandError(ExpectingSubCommand, route)), None)
    else if args[0] in t.children then
      var sub := t.children[args[0]];
      var rest := parse(Decls(sub), args[1..]);
      var inner :=
        match sub.run
        case Handler(h) => Descent(invoke(h, rest), Some(Call(route + [args[0]], h, rest)))
        case Router => Descend(sub, route + [args[0]], rest, parse, invoke);
      Descent(Tag(inner.err, route + [args[0]]), inner.call)
    else Descent(Some(CommandError(UnknownCommand(args[0]), route)), None)
  }

  /** What the root prints: nothing, the usage of the node an error is
      tagged with, or "Command <name> failed" for that node. */
  datatype Report = Silent | ShowUsage(node: Route, cause: Error) | LogFailure(node: Route, cause: Error)

  /** The root's reaction to `Runner`'s error (command.go:199-211). */
  function ReportOf(err: Option<Error>): Report
  {
    match err
    case None => Silent
    case Some(e) =>
      if e.CommandError? then
        if IsUsage(e.cause) then ShowUsage(e.node, e.cause) else LogFailure(e.node, e.cause)
      else LogFailure([], e)
  }

  datatype Outcome<H> = Outcome(err: Option<Error>, call: Option<Call<H>>, report: Report)

  /** `Runner` (command.go:183-214) on the node `t` at `route`; only the
      root, the node without a parent, reports. */
  function Runner<H(==)>(t: Cmd<H>, route: Route, args: seq<string>, parse: Parser,
                         invoke: (H, seq<string>) -> Option<Error>): (o: Outcome<H>)
    ensures o.err == Descend(t, route, args, parse, invoke).err
    ensures o.call == Descend(t, route, args, parse, invoke).call
    ensures |route| > 0 ==> o.report == Silent
    ensures |route| == 0 ==> (o.report == Silent <==> o.err.None?)
    ensures |route| == 0 && o.err.Some? ==>
      && o.report.node == o.err.value.node
      && o.report.cause == o.err.value.cause
      && (o.report.ShowUsage? <==> IsUsage(o.err.value))
  {
    var d := Descend(t, route, args, parse, invoke);
    Outcome(d.err, d.call, if |route| == 0 then ReportOf(d.err) else Silent)
  }

  // -----------------------------------------------------------------------
  // An independent account of where dispatch stops.
  // -----------------------------------------------------------------------

  /** Where dispatch ends: at a handler, given its arguments, or stuck at
      a node with no argument left or an unknown first argument. */
  datatype Stop<H> = Invoked(node: Route, handler: H, args: seq<string>) | Stuck(node: Route, args: seq<string>)

  /** Follows the child names through routers, parsing each child's flags. */
  function Select<H(==)>(t: Cmd<H>, route: Route, args: seq<string>, parse: Parser): (s: Stop<H>)
    ensures route <= s.node && Valid(t, s.node[|route|..])
    ensures s.Invoked? ==> |s.node| > |route| && NodeAt(t, s.node[|route|..]).run == Handler(s.handler)
    ensures s.Stuck? ==> |s.args| == 0 || s.args[0] !in NodeAt(t, s.node[|route|..]).children
    decreases t
  {
    if |args| == 0 || args[0] !in t.children then Stuck(route, args)
    else
      var c := t.children[args[0]];
      var rest := parse(Decls(c), args[1..]);
      match c.run
      case Handler(h) =>
        assert (route + [args[0]])[|route|..] == [args[0]];
        Invoked(route + [args[0]], h, rest)
      case Router =>
        var s := Select(c, route + [args[0]], rest, parse);
        assert s.node[|route|..] == [args[0]] + s.node[|route| + 1..];
        s
  }

  /** The error a stuck dispatch produces. */
  function StuckError(args: seq<string>): Error
  {
    if |args| == 0 then ExpectingSubCommand else UnknownCommand(args[0])
  }

  /** However deep dispatch goes, the error is tagged exactly once, with
      the node where it arose: the handler's node for a handler error (an
      already tagged one passes through untouched), the node where
      dispatch got stuck for a usage error. */
  lemma {:induction false} DescendBySelect<H>(t: Cmd<H>, route: Route, args: seq<string>, parse: Parser,
                                                   invoke: (H, seq<string>) -> Option<Error>)
    ensures var d := Descend(t, route, args, parse, invoke);
      match Select(t, route, args, parse)
      case Invoked(n, h, a) => d.call == Some(Call(n, h, a)) && d.err == Tag(invoke(h, a), n)
      case Stuck(n, a) => d.call.None? && d.err == Some(CommandError(StuckError(a), n))
    decreases t
  {
    if |args| > 0 && args[0] in t.children {
      var c := t.children[args[0]];
      if c.run.Router? {
        DescendBySelect(c, route + [args[0]], parse(Decls(c), args[1..]), parse, invoke);
      }
    }
  }

  /** Handlers that never hand back an already tagged error. */
  ghost predicate PlainHandlers<H(!new)>(invoke: (H, seq<string>) -> Option<Error>)
  {
    forall h, a :: invoke(h, a).None? || !invoke(h, a).value.CommandError?
  }

  /** With such handlers, every error is tagged with a node that exists
      below the one `Runner` started at, so the root can show its usage. */
  lemma TagNamesANode<H(!new)>(t: Cmd<H>, route: Route, args: seq<string>, parse: Parser,
                                   invoke: (H, seq<string>) -> Option<Error>)
    requires PlainHandlers(invoke)
    ensures var d := Descend(t, route, args, parse, invoke);
      d.err.Some? ==> route <= d.err.value.node && Valid(t, d.err.value.node[|route|..])
  {
    DescendBySelect(t, route, args, parse, invoke);
  }
}
