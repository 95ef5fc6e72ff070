/** The template pipeline of `templates.go`: discovery of the template
    tree (`templateBuilder.init`, lines 47-76), rendering of one template
    (`executeTemplate`, lines 78-106), the ordered run over the render
    list (`execute`, lines 108-121) and the error flow of
    `ExecuteTemplates` (lines 123-134).

    The file system, `text/template` and `go/format` are oracles: the
    walk is a sequence of entries, reading, parsing, rendering, gofmt,
    directory creation and file writing are functions passed in, and the
    file-system calls an operation makes are recorded as effects. */
module Templates {
  import opened Optional
  import opened Strings
  import opened Behaviour
  import opened TemplateNames
  import opened ByteSeq

  /** An error coming out of an oracle. */
  datatype Fault = Fault(message: string)

  datatype Result<T> = Ok(value: T) | Err(fault: Fault)

  // ---------------------------------------------------------------------
  // Discovery
  // ---------------------------------------------------------------------

  /** One call of the `fs.WalkDir` callback: the path (relative to the
      template tree, `/`-separated), whether it is a directory, and the
      error the walk hands over for it, if any. */
  datatype Entry = Entry(path: string, isDir: bool, err: Option<Fault>)

  /** Where the template files are read from: `read` is `fs.ReadFile` on
      the mounted tree, `parse` the error `Parse` gives for a template's
      text under its name. */
  datatype Source = Source(mount: string -> Result<seq<Entry>>,
                           read: string -> Result<Bytes>,
                           parse: (string, Bytes) -> Option<Fault>)

  /** The template list and the shared namespace (`root` with its
      associated templates, by name) built up by the walk. */
  datatype Builder = Builder(templates: seq<string>, namespace: map<string, Bytes>)

  const Empty: Builder := Builder([], map[])

  /** `d.Name()`: the final element of an entry's path. */
  function BaseName(p: string): string
  {
    SplitPath(p).1
  }

  /** A file the walk registers as a template (templates.go:49, 56). */
  predicate IsTemplate(e: Entry)
  {
    e.err.None? && !e.isDir && HasSuffix(e.path, ".tmpl")
  }

  /** A `$` base name: parsed into the namespace, never rendered itself. */
  predicate IsPrivate(e: Entry)
  {
    HasPrefix(BaseName(e.path), "$")
  }

  predicate Renders(e: Entry)
  {
    IsTemplate(e) && !IsPrivate(e)
  }

  /** The error the callback returns for one entry, judged on its own:
      the walk's error, else for a template the read or the parse error. */
  function EntryFault(e: Entry, src: Source): Option<Fault>
  {
    if e.err.Some? then e.err
    else if e.isDir || !HasSuffix(e.path, ".tmpl") then None
    else
      match src.read(e.path)
      case Err(f) => Some(f)
      case Ok(c) => src.parse(TemplateName(e.path), c)
  }

  /** The names of the files that get rendered, in walk order. */
  function RenderList(walk: seq<Entry>): (names: seq<string>)
    ensures |names| <= |walk|
  {
    if |walk| == 0 then []
    else (if IsTemplate(walk[0]) then ListedName(walk[0]) else []) + RenderList(walk[1..])
  }

  /** The names of every template file in the walk. */
  function NamesOf(walk: seq<Entry>): set<string>
  {
    if |walk| == 0 then {}
    else (if IsTemplate(walk[0]) then {TemplateName(walk[0].path)} else {}) + NamesOf(walk[1..])
  }

  /** The callback of `fs.WalkDir` (templates.go:48-75) on one entry: the
      builder after it and the error it returns. The name joins the render
      list before the file is read, as in the source. */
  function Visit(b: Builder, e: Entry, src: Source): (r: (Builder, Option<Fault>))
    ensures r.1 == EntryFault(e, src)
    ensures !IsTemplate(e) ==> r.0 == b
    ensures IsTemplate(e) ==> r.0.templates == b.templates + ListedName(e)
    ensures r.1.None? && IsTemplate(e) ==>
      r.0.namespace == b.namespace[TemplateName(e.path) := src.read(e.path).value]
  {
    if e.err.Some? || e.isDir then (b, e.err)
    else if !HasSuffix(e.path, ".tmpl") then (b, None)
    else
      var name := TemplateName(e.path);
      var listed := b.(templates := b.templates + ListedName(e));
      match src.read(e.path)
      case Err(f) => (listed, Some(f))
      case Ok(c) => (listed.(namespace := listed.namespace[name := c]), src.parse(name, c))
  }

  /** What a template file adds to the render list: its name, unless it
      is private. */
  function ListedName(e: Entry): seq<string>
  {
    if IsPrivate(e) then [] else [TemplateName(e.path)]
  }

  /** `fs.WalkDir` with that callback: entries are visited in order and
      the first error stops the walk and is returned. */
  function Load(b: Builder, walk: seq<Entry>, src: Source): (r: (Builder, Option<Fault>))
    // the walk succeeds exactly when no entry fails on its own
    ensures r.1.None? <==> forall i :: 0 <= i < |walk| ==> EntryFault(walk[i], src).None?
    // a failure is the first failing entry's error
    ensures r.1.Some? ==>
      exists k :: 0 <= k < |walk| && r.1 == EntryFault(walk[k], src)
                  && forall i :: 0 <= i < k ==> EntryFault(walk[i], src).None?
    ensures r.1.None? ==> r.0.templates == b.templates + RenderList(walk)
    ensures r.1.None? ==> r.0.namespace.Keys == b.namespace.Keys + NamesOf(walk)
    decreases |walk|
  {
    if |walk| == 0 then (b, None)
    else
      var v := Visit(b, walk[0], src);
      if v.1.Some? then v
      else
        var rest := Load(v.0, walk[1..], src);
        LoadFaultStep(walk, src, rest.1);
        if rest.1.Some? then rest
        else
          VisitKeys(b, walk[0], src);
          LoadBuildStep(b, walk, v.0, rest.0);
          rest
  }

  /** One step of `Load`, as far as errors go: a first entry that does
      not fail puts the rest of the walk in charge. */
  lemma LoadFaultStep(walk: seq<Entry>, src: Source, err: Option<Fault>)
    requires |walk| > 0 && EntryFault(walk[0], src).None?
    requires err.None? <==> forall i :: 0 <= i < |walk| - 1 ==> EntryFault(walk[1..][i], src).None?
    requires err.Some? ==>
      exists k :: 0 <= k < |walk| - 1 && err == EntryFault(walk[1..][k], src)
                  && forall i :: 0 <= i < k ==> EntryFault(walk[1..][i], src).None?
    ensures err.None? <==> forall i :: 0 <= i < |walk| ==> EntryFault(walk[i], src).None?
    ensures err.Some? ==>
      exists k :: 0 <= k < |walk| && err == EntryFault(walk[k], src)
                  && forall i :: 0 <= i < k ==> EntryFault(walk[i], src).None?
  {
    var tail := walk[1..];
    if err.Some? {
      var k :| 0 <= k < |walk| - 1 && err == EntryFault(tail[k], src)
               && forall i :: 0 <= i < k ==> EntryFault(tail[i], src).None?;
      assert tail[k] == walk[k + 1];
      forall i | 0 <= i < k + 1
        ensures EntryFault(walk[i], src).None?
      {
        if i > 0 {
          assert walk[i] == tail[i - 1];
        }
      }
    } else {
      forall i | 0 <= i < |walk|
        ensures EntryFault(walk[i], src).None?
      {
        if i > 0 {
          assert walk[i] == tail[i - 1];
        }
      }
    }
  }

  /** What visiting one entry without error adds to the builder's names. */
  lemma VisitKeys(b: Builder, e: Entry, src: Source)
    requires Visit(b, e, src).1.None?
    ensures Visit(b, e, src).0.namespace.Keys ==
      b.namespace.Keys + (if IsTemplate(e) then {TemplateName(e.path)} else {})
  {
  }

  /** One step of `Load`, as far as the builder goes. */
  lemma LoadBuildStep(b: Builder, walk: seq<Entry>, v: Builder, last: Builder)
    requires |walk| > 0
    requires v.templates == b.templates + (if IsTemplate(walk[0]) then ListedName(walk[0]) else [])
    requires v.namespace.Keys == b.namespace.Keys + (if IsTemplate(walk[0]) then {TemplateName(walk[0].path)} else {})
    requires last.templates == v.templates + RenderList(walk[1..])
    requires last.namespace.Keys == v.namespace.Keys + NamesOf(walk[1..])
    ensures last.templates == b.templates + RenderList(walk)
    ensures last.namespace.Keys == b.namespace.Keys + NamesOf(walk)
  {
    var head := if IsTemplate(walk[0]) then ListedName(walk[0]) else [];
    ConcatAssoc(b.templates, head, RenderList(walk[1..]));
  }

  /** The final element of a template's name starts with `$` exactly
      when the file's base name does: the marker survives naming. */
  lemma PrivateMarkerSurvives(f: string)
    ensures HasPrefix(SplitPath(TemplateName(f)).1, "$") <==> HasPrefix(BaseName(f), "$")
  {
    NameParts(f);
    SameBaseName(f);
    var file := SplitPath("/" + f).1;
    if HasPrefix(file, "$") {
      assert Unhide(file) == file;
      if HasSuffix(file, ".tmpl") {
        assert file[|file| - 5] == '.';
        assert |file| > 5;
      }
      assert TrimSuffix(file, ".tmpl")[0] == '$';
    } else if |TrimSuffix(Unhide(file), ".tmpl")| > 0 {
      assert TrimSuffix(Unhide(file), ".tmpl")[0] == Unhide(file)[0];
      if HasPrefix(file, "!") {
        assert Unhide(file)[0] == '.';
      } else {
        assert Unhide(file) == file;
      }
    }
  }

  /** Prefixing `/` does not change a path's final element. */
  lemma SameBaseName(f: string)
    ensures SplitPath("/" + f).1 == BaseName(f)
  {
    SplitPathParts(f);
    var d := SplitPath(f).0;
    var x := SplitPath(f).1;
    assert "/" + f == ("/" + d) + x;
    SplitPathUnique("/" + f, "/" + d, x);
  }

  /** No name with a `$` final element is ever rendered: those names only
      come from `$` files, which discovery keeps off the list. */
  lemma {:induction false} PrivateNeverRendered(walk: seq<Entry>)
    ensures forall n :: n in RenderList(walk) ==> !HasPrefix(SplitPath(n).1, "$")
    decreases |walk|
  {
    if |walk| > 0 {
      PrivateNeverRendered(walk[1..]);
      PrivateMarkerSurvives(walk[0].path);
    }
  }

  // ---------------------------------------------------------------------
  // Rendering one template
  // ---------------------------------------------------------------------

  /** A file-system call, recorded whether or not it succeeded. */
  datatype Effect = MakeDir(dir: string) | WriteFile(path: string, data: Bytes)

  /** The errors of the pipeline; each shows the message the source
      builds (see `Message`). */
  datatype TmplError =
    | LoadFault(cause: Fault)                          // a walk, read or parse error
    | ExecFailed(name: string, cause: Fault)           // templates.go:103
    | MkdirFailed(dir: string, cause: Fault)           // templates.go:99
    | FormatFailed(dest: string, cause: Fault)         // templates.go:90
    | WriteFailed(dest: string, wrapped: Option<Fault>)  // templates.go:96, wrapping whatever `err` holds
    | MountFailed(srcDir: string, cause: Fault)        // templates.go:131

  function Message(e: TmplError): string
  {
    match e
    case LoadFault(f) => f.message
    case ExecFailed(n, f) => "failed to execute template " + n + ": " + f.message
    case MkdirFailed(d, f) => "failed to create directory " + d + ": " + f.message
    case FormatFailed(d, f) => "failed to format go source file " + d + ": " + f.message
    case WriteFailed(d, f) =>
      "failed to write file " + d + ": " + (if f.Some? then f.value.message else "%!w(<nil>)")
    case MountFailed(s, f) => "Failed to mount \"" + s + "\": " + f.message
  }

  /** Rendering, gofmt and the two file-system calls. `mkdir` is
      `os.MkdirAll`; each answers from its arguments alone. */
  datatype Env<!C> = Env(render: (map<string, Bytes>, string, C) -> Result<Bytes>,
                        format: Bytes -> Result<Bytes>,
                        mkdir: string -> Option<Fault>,
                        write: (string, Bytes) -> Option<Fault>)

  predicate IsGoName(name: string)
  {
    HasSuffix(name, ".go")
  }

  /** `filepath.Join(dest, name)` for a name starting with `/`: the two
      separators meeting in the middle collapse into one. */
  function Destination(destDir: string, name: string): string
  {
    if HasSuffix(destDir, "/") then destDir[..|destDir| - 1] + name else destDir + name
  }

  /** `filepath.Dir`: everything before the final element, without the
      trailing separator unless that is all there is; `.` for none. */
  function DirOf(p: string): (d: string)
    ensures |d| > 0
  {
    var d := SplitPath(p).0;
    if |d| == 0 then "." else if |d| == 1 then d else d[..|d| - 1]
  }

  /** What one template did: the calls made and the error returned. */
  datatype Step = Step(effects: seq<Effect>, err: Option<TmplError>)

  /** `executeTemplate` (templates.go:78-106) with `buf` holding what the
      buffer held before rendering; `ExecuteOneContract` states what it
      does. */
  function ExecuteOne<C>(ns: map<string, Bytes>, buf: Bytes, name: string, destDir: string,
                         config: C, env: Env<C>, policy: Policy): Step
  {
    match env.render(ns, name, config)
    case Err(f) => Step([], Some(ExecFailed(name, f)))
    case Ok(out) =>
      var dest := Destination(destDir, name);
      var dir := DirOf(dest);
      var made := [MakeDir(dir)];
      match env.mkdir(dir)
      case Some(f) => Step(made, Some(MkdirFailed(dir, f)))
      case None =>
        var raw := buf + out;
        if IsGoName(name) then
          match env.format(raw)
          case Err(f) => Step(made + [WriteFile(dest, raw)], Some(FormatFailed(dest, f)))
          case Ok(b) =>
            var werr := env.write(dest, b);
            Step(made + [WriteFile(dest, b)],
                 if werr.None? then None else Some(WriteFailed(dest, if policy == Intended then werr else None)))
        else if policy.AsWritten? then Step(made, None)
        else
          var werr := env.write(dest, raw);
          Step(made + [WriteFile(dest, raw)], if werr.None? then None else Some(WriteFailed(dest, werr)))
  }

  /** What one template does: the calls it makes, in order, and when it
      succeeds. */
  lemma ExecuteOneContract<C>(ns: map<string, Bytes>, buf: Bytes, name: string, destDir: string,
                              config: C, env: Env<C>, policy: Policy)
    // a render failure touches no file
    ensures var s := ExecuteOne(ns, buf, name, destDir, config, env, policy);
      env.render(ns, name, config).Err? ==>
      s == Step([], Some(ExecFailed(name, env.render(ns, name, config).fault)))
    // otherwise the destination's directory is created first, and only the
    // destination is ever written
    ensures var s := ExecuteOne(ns, buf, name, destDir, config, env, policy);
      env.render(ns, name, config).Ok? ==>
      && 1 <= |s.effects| <= 2
      && s.effects[0] == MakeDir(DirOf(Destination(destDir, name)))
      && (|s.effects| == 2 ==> s.effects[1].WriteFile? && s.effects[1].path == Destination(destDir, name))
    // a file is written exactly when the directory exists and either the
    // name is a Go file or the corrected behaviour is asked for
    ensures var s := ExecuteOne(ns, buf, name, destDir, config, env, policy);
      |s.effects| == 2 <==>
      && env.render(ns, name, config).Ok?
      && env.mkdir(DirOf(Destination(destDir, name))).None?
      && (IsGoName(name) || policy.Intended?)
    // what is written: the formatted text, or the raw text when gofmt fails
    // or is not applied
    ensures var s := ExecuteOne(ns, buf, name, destDir, config, env, policy);
      |s.effects| == 2 ==>
      var raw := buf + env.render(ns, name, config).value;
      s.effects[1].data == if IsGoName(name) && env.format(raw).Ok? then env.format(raw).value else raw
    // success means every call the template needed went through
    ensures var s := ExecuteOne(ns, buf, name, destDir, config, env, policy);
      s.err.None? <==>
      && env.render(ns, name, config).Ok?
      && env.mkdir(DirOf(Destination(destDir, name))).None?
      && (IsGoName(name) ==> env.format(buf + env.render(ns, name, config).value).Ok?)
      && (|s.effects| == 2 ==> env.write(s.effects[1].path, s.effects[1].data).None?)
  {
  }

  // ---------------------------------------------------------------------
  // Rendering the list
  // ---------------------------------------------------------------------

  /** `n` zero bytes. */
  function Zeros(n: nat): (z: Bytes)
    ensures |z| == n
  {
    seq(n, _ => 0)
  }

  /** `bytes.NewBuffer(make([]byte, 8192))` holds 8192 zero bytes
      (templates.go:109); the corrected buffer starts empty. */
  function InitialBuffer(policy: Policy): Bytes
  {
    if policy == AsWritten then Zeros(8192) else []
  }

  /** The buffer's contents before the `i`-th template, as the reference
      run assumes them; `Execute` carries the real buffer from round to
      round and `Round` shows the two agree. */
  function BufferFor(i: nat, policy: Policy): Bytes
  {
    if i == 0 then InitialBuffer(policy) else []
  }

  /** Everything `execute` works with. */
  datatype Job<!C> = Job(namespace: map<string, Bytes>, templates: seq<string>, destDir: string,
                         config: C, env: Env<C>, policy: Policy)

  /** The `i`-th template of the list, rendered on its own. */
  function StepAt<C>(job: Job<C>, i: nat): Step
    requires i < |job.templates|
  {
    ExecuteOne(job.namespace, BufferFor(i, job.policy), job.templates[i], job.destDir,
               job.config, job.env, job.policy)
  }

  /** `f(i)`, `f(i + 1)`, ..., `f(n - 1)`. */
  function Tabulate<T>(f: nat --> T, i: nat, n: nat): (s: seq<T>)
    requires i <= n && forall k :: i <= k < n ==> f.requires(k)
    ensures |s| == n - i
    decreases n - i
  {
    if i == n then [] else [f(i)] + Tabulate(f, i + 1, n)
  }

  lemma {:induction false} TabulateAt<T>(f: nat --> T, i: nat, n: nat, j: nat)
    requires i <= j < n && forall k :: i <= k < n ==> f.requires(k)
    ensures Tabulate(f, i, n)[j - i] == f(j)
    decreases j - i
  {
    if i < j {
      var rest := Tabulate(f, i + 1, n);
      assert Tabulate(f, i, n)[j - i] == rest[j - (i + 1)];
      TabulateAt(f, i + 1, n, j);
    }
  }

  /** Every template of the list, each rendered on its own. */
  function Steps<C>(job: Job<C>): (steps: seq<Step>)
    ensures |steps| == |job.templates|
  {
    Tabulate((k: nat) requires k < |job.templates| => StepAt(job, k), 0, |job.templates|)
  }

  /** The `j`-th entry of `Steps` is the `j`-th template rendered alone. */
  lemma StepsAt<C>(job: Job<C>, j: nat)
    requires j < |job.templates|
    ensures Steps(job)[j] == StepAt(job, j)
  {
    TabulateAt((k: nat) requires k < |job.templates| => StepAt(job, k), 0, |job.templates|, j);
  }

  /** The calls of steps `i` up to, not including, `n`. */
  function EffectsBetween(steps: seq<Step>, i: nat, n: nat): seq<Effect>
    requires i <= n <= |steps|
    decreases n - i
  {
    if i == n then [] else steps[i].effects + EffectsBetween(steps, i + 1, n)
  }

  lemma {:induction false} EffectsBetweenExtend(steps: seq<Step>, i: nat, n: nat)
    requires i <= n < |steps|
    ensures EffectsBetween(steps, i, n + 1) == EffectsBetween(steps, i, n) + steps[n].effects
    decreases n - i
  {
    if i < n {
      EffectsBetweenExtend(steps, i + 1, n);
      assert steps[i].effects + (EffectsBetween(steps, i + 1, n) + steps[n].effects)
          == (steps[i].effects + EffectsBetween(steps, i + 1, n)) + steps[n].effects;
    }
  }

  /** The steps from `i` on, in order, stopping at the first failure: the
      reference `execute` is checked against; `RunContract` states what it
      yields. */
  function Run(steps: seq<Step>, i: nat): Step
    requires i <= |steps|
    decreases |steps| - i
  {
    if i == |steps| then Step([], None)
    else if steps[i].err.Some? then steps[i]
    else
      var rest := Run(steps, i + 1);
      Step(steps[i].effects + rest.effects, rest.err)
  }

  /** A run is nil exactly when every remaining step succeeds, and then
      holds all their calls; otherwise it carries the first failing step's
      error and the calls up to and including that step, none after it. */
  lemma {:induction false} RunContract(steps: seq<Step>, i: nat)
    requires i <= |steps|
    ensures var s := Run(steps, i);
      s.err.None? <==> forall j :: i <= j < |steps| ==> steps[j].err.None?
    ensures var s := Run(steps, i);
      s.err.None? ==> s.effects == EffectsBetween(steps, i, |steps|)
    ensures var s := Run(steps, i);
      s.err.Some? ==>
        exists k :: i <= k < |steps|
          && s.err == steps[k].err
          && (forall j :: i <= j < k ==> steps[j].err.None?)
          && s.effects == EffectsBetween(steps, i, k + 1)
    decreases |steps| - i
  {
    if i == |steps| {
    } else if steps[i].err.Some? {
      assert EffectsBetween(steps, i + 1, i + 1) == [];
      assert steps[i].effects + [] == steps[i].effects;
      assert EffectsBetween(steps, i, i + 1) == steps[i].effects;
    } else {
      RunContract(steps, i + 1);
      var rest := Run(steps, i + 1);
      if rest.err.Some? {
        var k :| i + 1 <= k < |steps|
          && rest.err == steps[k].err
          && (forall j :: i + 1 <= j < k ==> steps[j].err.None?)
          && rest.effects == EffectsBetween(steps, i + 1, k + 1);
        assert forall j :: i <= j < k ==> steps[j].err.None?;
      }
    }
  }

  /** The run over a job succeeds exactly when every template does. */
  lemma RunSucceeds<C>(job: Job<C>)
    ensures Run(Steps(job), 0).err.None? <==> forall j :: 0 <= j < |job.templates| ==> StepAt(job, j).err.None?
  {
    var steps := Steps(job);
    RunContract(steps, 0);
    forall j | 0 <= j < |job.templates|
      ensures steps[j].err == StepAt(job, j).err
    {
      StepsAt(job, j);
    }
  }

  /** The `i`-th round of `execute`'s loop: `executeTemplate` renders the
      `i`-th template onto whatever the buffer holds, and its deferred
      `buf.Reset()` empties the buffer whatever happened. Handed the buffer
      `execute` allocated (first round) or the one the previous round left
      (later rounds), the round is the `i`-th step of the reference run,
      and it leaves the buffer empty for the next. */
  method Round<C>(job: Job<C>, i: nat, buf: Bytes) returns (s: Step, after: Bytes)
    requires i < |job.templates|
    requires i == 0 ==> buf == InitialBuffer(job.policy)
    requires i > 0 ==> buf == []
    ensures s == Steps(job)[i]
    ensures after == []
  {
    s := ExecuteOne(job.namespace, buf, job.templates[i], job.destDir, job.config, job.env, job.policy);
    after := [];
    StepsAt(job, i);
  }

  /** One step of `Run`, seen from the start of the list: the effects
      gathered before step `i` followed by what is left of the run. */
  lemma RunAdvance(steps: seq<Step>, i: nat, done: seq<Effect>)
    requires i < |steps|
    requires Run(steps, 0) == Step(done + Run(steps, i).effects, Run(steps, i).err)
    ensures steps[i].err.Some? ==> Run(steps, 0) == Step(done + steps[i].effects, steps[i].err)
    ensures steps[i].err.None? ==>
      Run(steps, 0) == Step((done + steps[i].effects) + Run(steps, i + 1).effects, Run(steps, i + 1).err)
  {
    if steps[i].err.None? {
      ConcatAssoc(done, steps[i].effects, Run(steps, i + 1).effects);
    }
  }

  /** `execute` (templates.go:108-121): renders the list in order through
      one buffer, allocated once and emptied after every template, and
      returns at the first error. */
  method Execute<C>(job: Job<C>) returns (effects: seq<Effect>, err: Option<TmplError>)
    ensures Step(effects, err) == Run(Steps(job), 0)
  {
    var steps := Steps(job);
    var buf := InitialBuffer(job.policy);
    effects := [];
    var i := 0;
    while i < |job.templates|
      invariant i <= |job.templates|
      invariant i == 0 ==> buf == InitialBuffer(job.policy)
      invariant i > 0 ==> buf == []
      invariant Run(steps, 0) == Step(effects + Run(steps, i).effects, Run(steps, i).err)
    {
      var s;
      s, buf := Round(job, i, buf);
      RunAdvance(steps, i, effects);
      if s.err.Some? {
        return effects + s.effects, s.err;
      }
      effects := effects + s.effects;
      i := i + 1;
    }
    assert effects + [] == effects;
    err := None;
  }

  // ---------------------------------------------------------------------
  // ExecuteTemplates
  // ---------------------------------------------------------------------

  /** The embedded directory `fs.Sub` is asked for (templates.go:124). */
  function MountPath(srcDir: string): string
  {
    "internal/templates/" + srcDir
  }

  /** The job `execute` gets once discovery has built `b`. */
  function JobFor<C>(b: Builder, destDir: string, config: C, env: Env<C>, policy: Policy): Job<C>
  {
    Job(b.namespace, b.templates, destDir, config, env, policy)
  }

  /** What mounting and walking the template tree give. */
  datatype Discovered = MountError(fault: Fault) | LoadError(fault: Fault) | Found(builder: Builder)

  /** `fs.Sub` followed by `newTemplateBuilder` (templates.go:124-126). */
  function Discover(srcDir: string, src: Source): (d: Discovered)
    ensures src.mount(MountPath(srcDir)).Err? <==> d.MountError?
    ensures d.MountError? ==> d.fault == src.mount(MountPath(srcDir)).fault
    // found exactly when the walk has no failing entry, and then the render
    // list holds the rendered files' names in walk order
    ensures src.mount(MountPath(srcDir)).Ok? ==>
      var walk := src.mount(MountPath(srcDir)).value;
      && (d.Found? <==> forall i :: 0 <= i < |walk| ==> EntryFault(walk[i], src).None?)
      && (d.Found? ==> d.builder.templates == RenderList(walk) && d.builder.namespace.Keys == NamesOf(walk))
      && (d.LoadError? ==> exists k :: 0 <= k < |walk| && Some(d.fault) == EntryFault(walk[k], src))
  {
    match src.mount(MountPath(srcDir))
    case Err(f) => MountError(f)
    case Ok(walk) =>
      var loaded := Load(Empty, walk, src);
      EmptyConcat(RenderList(walk));
      assert Empty.namespace.Keys + NamesOf(walk) == NamesOf(walk);
      if loaded.1.Some? then LoadError(loaded.1.value) else Found(loaded.0)
  }

  /** `ExecuteTemplates` (templates.go:123-134). As written, the builder's
      and `execute`'s error land in a variable declared inside the `if`
      (line 126) and the function returns the outer one, which is nil once
      the mount succeeded; the corrected flow returns them. */
  function ExecuteTemplates<C>(srcDir: string, destDir: string, config: C, src: Source,
                               env: Env<C>, policy: Policy): (s: Step)
    ensures Discover(srcDir, src).MountError? ==>
      s == Step([], Some(MountFailed(srcDir, Discover(srcDir, src).fault)))
    // as written only a failed mount is reported
    ensures policy.AsWritten? ==> (s.err.None? <==> !Discover(srcDir, src).MountError?)
    // corrected: nil exactly when the tree is found and every template renders
    ensures policy.Intended? ==>
      (s.err.None? <==>
        && Discover(srcDir, src).Found?
        && var job := JobFor(Discover(srcDir, src).builder, destDir, config, env, policy);
           forall j :: 0 <= j < |job.templates| ==> StepAt(job, j).err.None?)
    // nothing is rendered unless the whole tree was loaded
    ensures |s.effects| > 0 ==> Discover(srcDir, src).Found?
  {
    match Discover(srcDir, src)
    case MountError(f) => Step([], Some(MountFailed(srcDir, f)))
    case LoadError(f) => Step([], if policy.Intended? then Some(LoadFault(f)) else None)
    case Found(b) =>
      var job := JobFor(b, destDir, config, env, policy);
      RunSucceeds(job);
      RunContract(Steps(job), 0);
      var r := Run(Steps(job), 0);
      Step(r.effects, if policy.Intended? then r.err else None)
  }

  // ---------------------------------------------------------------------
  // Where the code departs from what it evidently means
  // ---------------------------------------------------------------------

  /** As written, the first template is rendered after 8192 zero bytes:
      a Go file whose text gofmt rejects is written with them in front. */
  lemma FirstFileGetsZeros<C>(job: Job<C>, out: Bytes, f: Fault)
    requires job.policy == AsWritten && |job.templates| > 0
    requires IsGoName(job.templates[0])
    requires job.env.render(job.namespace, job.templates[0], job.config) == Ok(out)
    requires job.env.mkdir(DirOf(Destination(job.destDir, job.templates[0]))).None?
    requires job.env.format(Zeros(8192) + out) == Err(f)
    ensures StepAt(job, 0).effects[1] == WriteFile(Destination(job.destDir, job.templates[0]), Zeros(8192) + out)
  {
  }

  /** Corrected, what is written is exactly the rendered text or its
      formatted form, for every template. */
  lemma WritesRenderedText<C>(job: Job<C>, i: nat)
    requires job.policy == Intended && i < |job.templates|
    ensures var s := StepAt(job, i);
      var out := job.env.render(job.namespace, job.templates[i], job.config);
      |s.effects| == 2 ==>
        s.effects[1].data == out.value
        || (job.env.format(out.value).Ok? && s.effects[1].data == job.env.format(out.value).value)
  {
    var out := job.env.render(job.namespace, job.templates[i], job.config);
    if out.Ok? {
      assert BufferFor(i, Intended) + out.value == out.value;
    }
  }

  /** As written, a rendered file whose name does not end in `.go` is
      never written, yet the template counts as a success. */
  lemma OtherFilesDropped<C>(ns: map<string, Bytes>, buf: Bytes, name: string, destDir: string,
                             config: C, env: Env<C>)
    requires !IsGoName(name)
    requires env.render(ns, name, config).Ok?
    requires env.mkdir(DirOf(Destination(destDir, name))).None?
    ensures ExecuteOne(ns, buf, name, destDir, config, env, AsWritten)
            == Step([MakeDir(DirOf(Destination(destDir, name)))], None)
  {
  }

  /** Corrected, every rendered file reaches its destination. */
  lemma EveryFileWritten<C>(ns: map<string, Bytes>, buf: Bytes, name: string, destDir: string,
                            config: C, env: Env<C>)
    requires env.render(ns, name, config).Ok?
    requires env.mkdir(DirOf(Destination(destDir, name))).None?
    ensures var s := ExecuteOne(ns, buf, name, destDir, config, env, Intended);
      |s.effects| == 2 && s.effects[1].path == Destination(destDir, name)
  {
  }

  /** As written, a failed write of a formatted Go file wraps the nil
      `err`, so the write's own error is lost from the message. */
  lemma WriteCauseLost<C>(ns: map<string, Bytes>, buf: Bytes, name: string, destDir: string,
                          config: C, env: Env<C>, out: Bytes, b: Bytes, f: Fault)
    requires IsGoName(name)
    requires env.render(ns, name, config) == Ok(out)
    requires env.mkdir(DirOf(Destination(destDir, name))).None?
    requires env.format(buf + out) == Ok(b)
    requires env.write(Destination(destDir, name), b) == Some(f)
    ensures var s := ExecuteOne(ns, buf, name, destDir, config, env, AsWritten);
      s.err == Some(WriteFailed(Destination(destDir, name), None))
      && Message(s.err.value) == "failed to write file " + Destination(destDir, name) + ": " + "%!w(<nil>)"
  {
  }

  /** Corrected, the write's error is the cause. */
  lemma WriteCauseKept<C>(ns: map<string, Bytes>, buf: Bytes, name: string, destDir: string,
                          config: C, env: Env<C>, f: Fault)
    requires env.render(ns, name, config).Ok?
    requires env.mkdir(DirOf(Destination(destDir, name))).None?
    requires IsGoName(name) ==> env.format(buf + env.render(ns, name, config).value).Ok?
    ensures var s := ExecuteOne(ns, buf, name, destDir, config, env, Intended);
      env.write(s.effects[1].path, s.effects[1].data) == Some(f) ==>
        s.err == Some(WriteFailed(Destination(destDir, name), Some(f)))
  {
  }

  /** As written, a template that fails to parse or render still gives a
      nil result once the mount succeeded. */
  lemma FailuresSwallowed<C>(srcDir: string, destDir: string, config: C, src: Source, env: Env<C>)
    requires src.mount(MountPath(srcDir)).Ok?
    ensures ExecuteTemplates(srcDir, destDir, config, src, env, AsWritten).err.None?
  {
  }

  /** Corrected, a discovery failure is returned, and nothing is written. */
  lemma FailuresReported<C>(srcDir: string, destDir: string, config: C, src: Source, env: Env<C>)
    requires Discover(srcDir, src).LoadError?
    ensures ExecuteTemplates(srcDir, destDir, config, src, env, Intended)
            == Step([], Some(LoadFault(Discover(srcDir, src).fault)))
  {
  }
}
