# waffle core, modelled in Dafny

`waffle` is a Go command-line tool that scaffolds API server projects from
embedded templates. This project models its core and proves properties of
the model:

- the **command tree** of `command.go`:
  - building it (`NewCommand`, `AddCommand`, `Lookup`, `Path`, `SetOutput`);
  - dispatching an argument vector through it (`Runner`), including how
    errors are tagged with the node they arose at and what the root
    reports;
  - the help text a node prints (`PrintUsage`, `printFlags`,
    `printCommands`, the `Usage` closure);
- the **`server` sub-tree** that `cmd/waffle/server.go` registers, as a
  concrete tree, with its handlers' argument check;
- the **template pipeline** of `templates.go`:
  - naming (`getTmplName`);
  - discovery of the template tree (`templateBuilder.init`);
  - rendering one template (`executeTemplate`) and the ordered run over
    the list (`execute`);
  - the error flow of `ExecuteTemplates`;
- the **`Version` text codec** of `config.go`: `String` and `MarshalJSON`
  print with `%d.%d.%d`, and `UnmarshalJSON` reads back with `fmt.Sscanf`;
- the **input validator** `PromptStr` gives the prompt (`prompt.go`).

The tree is an immutable value, and a node is addressed by its route, the
child names leading to it from the root. Go's parent pointers become
prefixes of the route.

The following are parameters of the operations that need them:

- flag parsing (`parse`);
- handlers (`invoke`);
- the flag defaults table (`defaults`);
- the order a Go `range` visits a map in (`order`);
- the file system, `text/template` and `go/format` (the `Source` and `Env`
  records).

The file-system calls an operation makes are returned as a list of effects.

Where the code does something its authors evidently did not mean, the
operation takes a `Policy`:

- `AsWritten` follows the code line by line;
- `Intended` is the corrected behaviour the rest of the model relies on.

The findings below list each such place.

The design description of the system and the code disagree in a few places.
The model follows the code:

- the hidden-file marker `!` is rewritten only in a template's final path
  element, not in every element;
- a failed discovery or render makes `ExecuteTemplates` return nil;
- only `.go` files are written;
- `SetOutput` leaves flag tables on their old sink;
- the version round trip holds for every 64-bit value, negative ones
  included, not just non-negative ones.

## Model

| member | source | states |
|---|---|---|
| CommandTree.NewCommand | command.go:50-59 | a new root is a router with no children and no flag set, writing to standard error |
| CommandTree.Lookup | command.go:178-181 | a child is found exactly when one is registered under the name, and it is that child |
| CommandTree.Path | command.go:76-84 | the path has one name more than the route, starts with the root's name and ends with the node's own name |
| CommandTree.PathIsRoute | command.go:76-84 | in a tree built by `AddCommand`, a node's path is the root's name followed by the child names leading to it |
| CommandTree.AddCommandContract | command.go:148-172 | the new child is reachable under its name, has the given name, description and handler (a router when the handler is nil), no children or usage string, and writes where its parent writes, as does its fresh flag set; the parent keeps its other children, a same-named child is replaced, and registration keeps the tree well formed |
| CommandTree.AddCommandBelow | command.go:148-172 | adding under a deeper node rebuilds only the child the route passes through |
| CommandTree.AttachLeavesOthers | command.go:170 | registering a child changes no node off the route and, on the route, nothing but child maps |
| CommandTree.WithUsageStr | cmd/waffle/server.go:12 | after assigning `UsageStr` the node holds the new usage string with every other field as before, and the tree stays well formed |
| CommandTree.WithUsageStrLeavesOthers | cmd/waffle/server.go:12 | nothing else changes: every node stays reachable, a node not above the changed one (its descendants included) is untouched, and the nodes above it differ only in their children |
| CommandTree.SetOutputBelow | command.go:61-66 | every node below gets the new output; as written, flag sets keep their old output and nothing else changes; corrected, flag sets move too |
| CommandTree.SetOutput | command.go:68-74 | called on any node, the whole tree from the root is retargeted, with the same guarantees as `setOutput` on the root |
| Dispatch.Tag | command.go:189-194 | a handler's error is wrapped with the child exactly once: an error already tagged passes through unchanged, nil stays nil |
| Dispatch.Descend | command.go:183-197 | no argument gives a usage error tagged with the current node; an unknown name gives an unknown-command usage error tagged with it; a handler child runs on the remainder its flag set leaves; every error that leaves is tagged; no handler ran only on a usage error; a handler that ran belongs to the named child's subtree |
| Dispatch.Runner | command.go:183-214 | only the root reports; it is silent exactly on success, otherwise it reports the tagged node and cause, showing usage exactly for usage errors |
| Dispatch.Select | command.go:184-197 | an independent walk: it ends at an existing node, either at a handler or stuck with no argument left or an unknown name |
| Dispatch.DescendBySelect | command.go:183-197 | `Runner` agrees with that walk: the handler it reaches is the one called, with its arguments, and its error is tagged with that handler's node; a stuck walk gives the usage error tagged with the node where it stuck |
| Dispatch.TagNamesANode | command.go:199-204 | when handlers return untagged errors, every error names an existing node below the start, so the root can show that node's usage |
| Usage.UsageLineShape | command.go:91-106 | the exact usage line in each of the six cases: `Usage: ` and the space-joined path, then ` [flags]` exactly when a flag is declared, then ` <command>` for a node with children, else ` ` and the usage string when there is one, else nothing, and a newline |
| Usage.UsageLineNamesNode | command.go:105 | splitting the line after `Usage: ` at spaces gives back the root's name and the route, when no name holds a space |
| Usage.RowsSorted | command.go:139 | the listing rows come in strictly increasing name order |
| Usage.RowsCoverChildren | command.go:130-139 | every child has a row |
| Usage.RowFits | command.go:130-137 | every child name fits the width of the longest name |
| Usage.RowTextLayout | command.go:141-144 | a row is the indent, spaces, then the name ending at the width, a space, the description and a newline |
| Usage.ListingLine | command.go:142-145 | each line after the header is the row of one child, written to that child's sink, and its name fits the width, so descriptions line up |
| Usage.Listing | command.go:125-146 | a leaf prints nothing; otherwise the header comes first, then one line per child |
| Usage.ListingIgnoresOrder | command.go:132-139 | the listing is the same whatever order the map was visited in |
| Usage.UsageOutputLayout | command.go:42-48 | the help opens with the usage line on the node's sink; a node with flags follows it with `Flags:` on the node's sink and the table on the flag set's sink; the listing follows |
| Usage.UsageOnOneSink | command.go:42-48 | when every node and flag set writes to one sink, all help text goes there |
| Usage.SetOutputRetargetsHelp | command.go:61-74 | after the corrected `SetOutput`, all help text of every node goes to the new sink |
| Usage.SetOutputStrandsFlagTable | command.go:165-166 | as written, a flag table still goes to the sink its flag set was created with after `SetOutput` |
| Server.Invoke | cmd/waffle/server.go:20-47 | `addController` rejects fewer than two arguments with `ErrUsage` and otherwise returns what saving and regenerating return; the other four handlers return nil |
| Server.FillAddShape | cmd/waffle/server.go:9-12 | `add` gets the leaves `controller`, with usage `<name> <path>`, and `endpoint` |
| Server.FillRemoveShape | cmd/waffle/server.go:14-16 | `remove` gets the leaves `controller` and `endpoint` |
| Server.FillServerShape | cmd/waffle/server.go:8-17 | `server` gets `add`, `remove` and `generate`, with the handlers and usage string `init` gives them |
| Server.InitIsFill | cmd/waffle/server.go:6 | `init` registers a fresh router `server` under the root and fills it |
| Server.InitBuildsServer | cmd/waffle/server.go:5-18 | after `init` the root holds the whole `server` sub-tree |
| Server.InitKeepsOthers | cmd/waffle/server.go:6 | `init` leaves the root's other commands alone |
| Server.ServerAddNeedsSubCommand | cmd/waffle/server.go:9 | `server add` alone fails with a usage error tagged with `add`, runs no handler and shows `add`'s usage |
| Server.RemoveControllerRunsRm | cmd/waffle/server.go:15 | `server remove controller ...` calls only `rmController`, on the parsed remainder, and succeeds silently |
| Server.AddControllerTooFewArgs | cmd/waffle/server.go:20-24 | `server add controller` with fewer than two arguments fails with `ErrUsage` tagged with `controller`, whose usage the root shows |
| Server.ControllerUsageLine | cmd/waffle/server.go:10-11 | the usage line of `server add controller` is `Usage: <app> server add controller <name> <path>` |
| Server.ServerUsageLine | cmd/waffle/server.go:6 | the usage line of `server` is `Usage: <app> server <command>` |
| TemplateNames.SplitPathParts | templates.go:21 | `path.Split` gives a directory that is empty or ends in `/` and a final element without `/`, which together are the path |
| TemplateNames.SplitPathUnique | templates.go:21 | those three properties determine the split |
| TemplateNames.TemplateNameShape | templates.go:20-27 | every name starts with `/` and keeps the file's directory as it is; only the final element is rewritten |
| TemplateNames.NameParts | templates.go:20-27 | the name's final element is the file's final element with `!` turned into `.` and `.tmpl` dropped |
| TemplateNames.PlainTemplateName | templates.go:20-27 | an ordinary template file is named `/` followed by its path without `.tmpl` |
| TemplateNames.NameOfPath | templates.go:20-27 | every name whose final element does not start with `!` is the name of the file `TemplatePath` gives |
| TemplateNames.PathOfName | templates.go:20-27 | every template file whose final element does not start with `.` is recovered from its name |
| TemplateNames.HiddenMarkerCollides | templates.go:22-24 | `!x.tmpl` and `.x.tmpl` get the same name, so they collide |
| Templates.Visit | templates.go:48-75 | the walk callback returns the entry's own error; a template file joins the render list, unless private, and its content joins the namespace when read; other entries change nothing |
| Templates.Load | templates.go:47-76 | the walk succeeds exactly when no entry fails; a failure is the first failing entry's error; on success the render list is every non-private template name in walk order, and the namespace holds every template's name |
| Templates.PrivateMarkerSurvives | templates.go:57-61 | a name's final element starts with `$` exactly when the file's base name does |
| Templates.PrivateNeverRendered | templates.go:59-61 | no name on the render list has a final element starting with `$` |
| Templates.ExecuteOneContract | templates.go:78-106 | a render failure touches no file; otherwise the destination's directory is made first and only the destination is written; a file is written exactly when the directory exists and the name is a Go file, or the corrected behaviour is asked for; the written bytes are gofmt's output, or the raw text when gofmt fails or does not apply; success means every call went through |
| Templates.RunContract | templates.go:110-120 | the run is nil exactly when every template succeeds, and then holds all their calls; otherwise it returns the first failing template's error, with the calls up to and including that template and none after |
| Templates.RunSucceeds | templates.go:108-121 | `execute` succeeds exactly when every template renders on its own |
| Templates.Round | templates.go:78-112 | handed the buffer `execute` allocated (first round) or the one the previous round left, a round is the `i`-th step of the reference run; the deferred `Reset` leaves the buffer empty for the next |
| Templates.Execute | templates.go:108-121 | the loop, carrying one buffer from round to round and returning early, produces exactly the reference run |
| Templates.Discover | templates.go:124-126 | the mount error is returned as it is; the tree is found exactly when no walk entry fails, and then the render list and namespace are those of `Load` |
| Templates.ExecuteTemplates | templates.go:123-134 | a mount failure is reported with its cause; as written, nothing else is reported; corrected, the result is nil exactly when the tree is found and every template renders; nothing is written unless the whole tree loaded |
| Templates.FirstFileGetsZeros | templates.go:109 | as written, the first Go file whose text gofmt rejects is written with 8192 zero bytes in front |
| Templates.WritesRenderedText | templates.go:78-106 | corrected, what is written is the rendered text or its formatted form |
| Templates.OtherFilesDropped | templates.go:85 | as written, a rendered file whose name does not end in `.go` is never written, yet it counts as a success |
| Templates.EveryFileWritten | templates.go:82-98 | corrected, every rendered file is written to its destination |
| Templates.WriteCauseLost | templates.go:94-96 | as written, a failed write of a formatted Go file wraps the nil `err`, and the message shows `%!w(<nil>)` |
| Templates.WriteCauseKept | templates.go:94-96 | corrected, the write's own error is the cause |
| Templates.FailuresSwallowed | templates.go:125-133 | as written, once the mount succeeds the result is nil whatever discovery and rendering did |
| Templates.FailuresReported | templates.go:125-133 | corrected, a discovery failure is returned and nothing is written |
| Configuration.MarshalJSON | config.go:15-17 | the bytes are the text of `String`, and there is never an error |
| Configuration.ScanVersion | config.go:19-22 | success implies the text has two dots, each after a digit; a failure never assigns the third field. The error for input that ends early is stated by `MissingComponent` (`io.ErrUnexpectedEOF` where the `.` is due) and by `OnlySpace`, `EmptyInput`, `SignAlone` and `TrailingDot` (`io.EOF` where a number is due) |
| Configuration.ScanPrinted | config.go:20 | `%d` reads back what `%d` printed, for every 64-bit value, and stops right after it |
| Configuration.ScanPrintedVersion | config.go:19-22 | scanning a printed `Version` reads back every field, whatever the receiver held before |
| Configuration.RoundTrip | config.go:15-22 | `UnmarshalJSON` of `MarshalJSON(v)` restores `v` with no error |
| Configuration.ZeroPrints | config.go:11-13 | the zero `Version` prints as `0.0.0` |
| Configuration.MissingComponent | config.go:19-22 | `1.2` assigns the first two fields, keeps the third and fails with `io.ErrUnexpectedEOF`, since the input ends where the literal `.` is due |
| Configuration.OnlySpace | config.go:19-22 | input of nothing but spaces other than a newline fails with `io.EOF` and assigns nothing |
| Configuration.EmptyInput | config.go:19-22 | empty input fails with `io.EOF` and assigns nothing |
| Configuration.SignAlone | config.go:19-22 | a lone `+` or `-` fails with `io.EOF`, not "expected integer", and assigns nothing |
| Configuration.TrailingDot | config.go:19-22 | `1.` assigns the first field and fails with `io.EOF` where the second number is due |
| Configuration.NotANumber | config.go:19-22 | input starting with neither space, sign nor digit fails with "expected integer" and assigns nothing |
| Configuration.TooLarge | config.go:19-22 | a number past 64 bits fails with an out-of-range error naming it, and assigns nothing |
| Prompt.Validate | prompt.go:12-25 | a value is accepted exactly when it has no space, tab, carriage return or line feed; a rejection carries the fixed message |
| Prompt.AcceptableConcat | prompt.go:13-24 | a concatenation is accepted exactly when both parts are |
| Prompt.OthersIgnored | prompt.go:13-24 | inserting any other character, a Unicode space included, does not change the verdict |

## Left out

- Logging: every `Logger.Logf` call is left out. The root's reaction is modelled as a `Report` value, not as text.
- Flag parsing is a parameter (`parse`). `flag.ExitOnError`, the flag set's usage hook and the flag defaults table (`PrintDefaults`, a parameter `defaults`) are not modelled.
- Process exit, `os.Stderr` and writers are reduced to `Sink` identities. Text is a list of writes per sink, with no interleaving or I/O errors.
- The file system, `fs.WalkDir`, `fs.Sub`, `text/template` and `go/format` are functions passed in. They answer from their arguments alone, so a write does not change what a later call sees.
- `text/template` creates a template name in the namespace even when reading the file then fails. The model adds the content only on a successful read; the walk stops at that error anyway.
- Templates.Destination: `filepath.Join` is modelled only for names starting with `/`. `filepath.Clean` of `.` and `..` elements is not modelled, and `filepath.FromSlash` is taken to be the identity.
- `getTmplName` formats with `%s%s`, which is plain concatenation here.
- ByteSeq.Text: bytes are read one per character. This agrees with Go's UTF-8 decoding only on ASCII input.
- `Sscanf` is modelled for the `%d` verb and the literal `.` only. Errors are kinds, not Go's message texts.
- Go's `int` is taken to be 64 bits wide (`GoInt`), as on the 64-bit platforms the tool is built for. A 32-bit `int` would give other out-of-range errors.
- Usage.RowText: the column width is the longest name's length in characters. Go takes it from `len(name)`, in bytes, while `%*s` pads in runes, so for a name with a non-ASCII character Go's column is wider than the model's.
- Templates.Message: the mount failure quotes the directory with plain double quotes. Go's `%q` escapes quotes, backslashes and non-printable characters inside it, which is not modelled.
- `MarshalJSON` output is not quoted and so is not valid JSON. `encoding/json` itself, and the JSON encoding of `Config` and `Maintainer`, are not modelled.
- `promptui` (`Prompt`) is not modelled. Only the validator closure is.
- `git.go`, `internal/main.go` and the other files under `cmd/waffle` are not part of this model. What `addController` does after its argument check (saving and regenerating) is a parameter (`saved`). The handlers of other files are a parameter (`elsewhere`).
- Configuration.String: its contract states only that the text is ASCII. What it prints is stated by `ScanPrintedVersion`, `RoundTrip` and `ZeroPrints`.

## Findings

| source | as written | input that shows it | evidently intended | confidence | as-written member | corrected member |
|---|---|---|---|---|---|---|
| templates.go:109 | the buffer starts as `make([]byte, 8192)`, that is, 8192 zero bytes, and rendering appends to them | the first template is a Go file: gofmt is handed 8192 NUL bytes before the text and rejects it, so the file is written with them in front and the run fails | an empty buffer with 8192 bytes of capacity (`make([]byte, 0, 8192)`) | high, not executed | Templates.FirstFileGetsZeros | Templates.WritesRenderedText |
| templates.go:85 | a file is written only when its name ends in `.go` | a rendered `README.md` whose directory was created: no write, and the template counts as a success | every rendered file is written; gofmt applies to Go files only | high, not executed | Templates.OtherFilesDropped | Templates.EveryFileWritten |
| templates.go:96 | the write error is reported by wrapping `err`, which is nil there | a formatted Go file whose write fails: the message ends in `%!w(<nil>)` and the cause is lost | wrap `err1`, the write's own error | high, not executed | Templates.WriteCauseLost | Templates.WriteCauseKept |
| templates.go:126 | `tb, err :=` declares a new `err` inside the `if`, and the function returns the outer one | a template that fails to parse, or to render, once the mount succeeded: the result is nil | return the builder's and `execute`'s error | high, not executed | Templates.FailuresSwallowed | Templates.FailuresReported |
| command.go:61-74 | `setOutput` changes each node's output but not its flag set's, which was fixed at creation (line 166) | a child with one flag, then `SetOutput(w)` on the root: the flag table still goes to standard error | the whole help text follows `SetOutput` | medium, not executed | Usage.SetOutputStrandsFlagTable | Usage.SetOutputRetargetsHelp |
