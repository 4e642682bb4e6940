/**
 * `apply::run`: read the descriptor, resolve the bindings, then walk the
 * template tree and, for every regular file, render its relative path
 * against the bindings, render its body, and write the result under the
 * target directory.
 */
module Apply {
  import opened Wrappers
  import opened Paths
  import opened FileSystem
  import opened Helpers
  import opened Variables

  /** The name of the descriptor file at the root of a template. */
  const DescriptorName := "template.toml"

  /** The text parsed in place of a descriptor that cannot be read. */
  const DefaultDescriptorText := "[variables]\n"

  /** What the TOML parser makes of a descriptor's text. */
  datatype Parsed = Malformed | Parsed(variables: Option<Declarations>)

  type Parser = string -> Parsed

  /** The values the program takes from its configuration. */
  datatype GlobalConfig = GlobalConfig(templatesDir: Path, fullName: string, license: string)

  /** The `unwrap`s and `expect`s that end the process. */
  datatype Panic =
    | DescriptorParse          // the descriptor is not valid TOML
    | NoVariablesTable         // the descriptor has no [variables] table
    | PromptFailed             // a prompt got no answer
    | NoFileName               // the source directory has no final name
    | CreateDirFailed(path: Path)
    | HelperPanic              // an unwrap inside include_file

  /** The errors `run` returns with `?`. */
  datatype RunError =
    | PathRender(desc: string)
    | ReadFailed(path: Path)
    | WriteFailed(path: Path)

  datatype Outcome = Ok | Err(error: RunError) | Panicked(reason: Panic)

  /** The descriptor's text, or the default text when it cannot be read. */
  function DescriptorText(disk: Disk, source: Path): (t: string)
    ensures ReadToString(disk, Join(source, DescriptorName)).None? ==> t == DefaultDescriptorText
    ensures ReadToString(disk, Join(source, DescriptorName)).Some? ==>
              t == ReadToString(disk, Join(source, DescriptorName)).value
  {
    match ReadToString(disk, Join(source, DescriptorName))
    case Some(text) => text
    case None => DefaultDescriptorText
  }

  /** Parse the descriptor and take its `[variables]` table; both steps `unwrap`. */
  function LoadDeclarations(disk: Disk, source: Path, parse: Parser): Result<Declarations, Panic>
  {
    match parse(DescriptorText(disk, source))
    case Malformed => Failure(DescriptorParse)
    case Parsed(None) => Failure(NoVariablesTable)
    case Parsed(Some(decls)) => Success(decls)
  }

  /**
   * Without a readable descriptor the parser sees `[variables]`, so no
   * prompt is shown and the bindings are exactly the three metadata keys.
   */
  lemma MissingDescriptorBindsMetadataOnly(disk: Disk, config: GlobalConfig, source: Path, target: Path,
                                           parse: Parser, answers: seq<string>, raw: seq<WalkItem>,
                                           render: Renderer, projectName: string)
    requires parse(DefaultDescriptorText) == Parsed(Some([]))
    requires ReadToString(disk, Join(source, DescriptorName)).None?
    ensures LoadDeclarations(disk, source, parse) == Success([])
    ensures RunSpec(disk, config, source, target, parse, answers, raw, render).prompts == []
    ensures Bindings(Declared([], answers), projectName, config.fullName, config.license).Keys == ReservedKeys
  {
  }

  /** One item the directory walker yields. */
  datatype WalkItem = WalkError | Entry(components: seq<string>)

  /** The walker's `filter_entry`: `.git` and the descriptor are not descended into or yielded. */
  predicate FilterEntry(name: string) {
    name != ".git" && name != DescriptorName
  }

  /**
   * An entry at or below a rejected name is never yielded. The root entry
   * (no components) is never filtered.
   */
  predicate Pruned(item: WalkItem) {
    item.Entry? && exists k :: 0 <= k < |item.components| && !FilterEntry(item.components[k])
  }

  /** What the walker yields from the tree's raw entries: everything not pruned, in order. */
  function Walk(raw: seq<WalkItem>): (r: seq<WalkItem>)
    ensures |r| <= |raw|
    ensures forall x :: x in r ==> x in raw && !Pruned(x)
    ensures forall x :: x in raw && !Pruned(x) ==> x in r
  {
    if raw == [] then []
    else (if Pruned(raw[0]) then [] else [raw[0]]) + Walk(raw[1..])
  }

  /** The walker keeps the raw order: what it yields from `a + b` is what it yields from `a`, then from `b`. */
  lemma {:induction false} WalkAppend(a: seq<WalkItem>, b: seq<WalkItem>)
    ensures Walk(a + b) == Walk(a) + Walk(b)
    decreases |a|
  {
    if a == [] {
      assert a + b == b;
    } else {
      assert (a + b)[0] == a[0];
      assert (a + b)[1..] == a[1..] + b;
      WalkAppend(a[1..], b);
    }
  }

  /** One raw item is yielded exactly when it is not pruned. */
  lemma WalkOne(x: WalkItem)
    ensures Walk([x]) == if Pruned(x) then [] else [x]
  {
  }

  /** What one run works with once the bindings are resolved. */
  datatype Job = Job(source: Path, target: Path, templatesDir: Path,
                     bindings: map<string, string>, projectName: string, render: Renderer)

  /** The context file bodies are rendered against: `project_name` alone. */
  function ContentContext(projectName: string): (ctx: map<string, string>)
    ensures ctx.Keys == {"project_name"} && ctx["project_name"] == projectName
  {
    map["project_name" := projectName]
  }

  /** How the walk ends: all items done, stopped by a body that failed to render, or aborted. */
  datatype Progress = Completed | Stopped(desc: string) | Aborted(outcome: Outcome)

  /** What `run` reports: a stopped walk returns `Ok(())` just like a completed one. */
  function OutcomeOf(p: Progress): (o: Outcome)
    ensures p.Completed? || p.Stopped? ==> o == Ok
  {
    match p
    case Completed => Ok
    case Stopped(_) => Ok
    case Aborted(o) => o
  }

  datatype Step = Skip | Write(path: Path, text: string) | Halt(progress: Progress)

  /** The path the walker gives for an entry: the root entry is `source` as given, the others are joined onto it. */
  function InputPath(source: Path, components: seq<string>): (p: Path)
    ensures components == [] ==> p == source
  {
    if components == [] then source else Join(source, Unsplit(components))
  }

  /** The body of the walk loop for one item, up to the write. */
  function StepEntry(job: Job, disk: Disk, item: WalkItem): Step
  {
    match item
    case WalkError => Skip
    case Entry(cs) =>
      var input := InputPath(job.source, cs);
      if !IsFile(disk, input) then Skip
      else match job.render(Unsplit(cs), PathRegistry, job.bindings)
        case RenderError(desc) => Halt(Aborted(Err(PathRender(desc))))
        case HelperPanicked => Halt(Aborted(Panicked(HelperPanic)))
        case Rendered(rel) =>
          match ReadToString(disk, input)
          case None => Halt(Aborted(Err(ReadFailed(input))))
          case Some(body) =>
            match job.render(body, ContentRegistry(disk, job.templatesDir), ContentContext(job.projectName))
            case RenderError(desc) => Halt(Stopped(desc))
            case HelperPanicked => Halt(Aborted(Panicked(HelperPanic)))
            case Rendered(text) => Write(Join(job.target, rel), text)
  }

  /** The walk loop over `items`, threading the disk through the writes. */
  function Process(job: Job, items: seq<WalkItem>, disk: Disk): (Progress, Disk)
    decreases |items|
  {
    if items == [] then (Completed, disk)
    else match StepEntry(job, disk, items[0])
      case Skip => Process(job, items[1..], disk)
      case Halt(p) => (p, disk)
      case Write(path, text) =>
        match WriteFile(disk, path, text)
        case ParentBlocked => (Aborted(Panicked(CreateDirFailed(path))), disk)
        case WriteRejected(d) => (Aborted(Err(WriteFailed(path))), d)
        case Written(d) => Process(job, items[1..], d)
  }

  /** The body of the walk loop for one item, up to the write: skip it, stop, or write a rendered file. */
  method ApplyEntry(job: Job, disk: Disk, item: WalkItem) returns (step: Step)
    ensures step == StepEntry(job, disk, item)
  {
    if item.WalkError? {
      return Skip;
    }
    var input := InputPath(job.source, item.components);
    if !IsFile(disk, input) {
      return Skip;
    }
    var rel: string;
    match job.render(Unsplit(item.components), PathRegistry, job.bindings) {
      case RenderError(desc) =>
        return Halt(Aborted(Err(PathRender(desc))));
      case HelperPanicked =>
        return Halt(Aborted(Panicked(HelperPanic)));
      case Rendered(r) =>
        rel := r;
    }
    var output := Join(job.target, rel);
    var body: string;
    match ReadToString(disk, input) {
      case None =>
        return Halt(Aborted(Err(ReadFailed(input))));
      case Some(b) =>
        body := b;
    }
    match job.render(body, ContentRegistry(disk, job.templatesDir), ContentContext(job.projectName)) {
      case RenderError(desc) =>
        return Halt(Stopped(desc));
      case HelperPanicked =>
        return Halt(Aborted(Panicked(HelperPanic)));
      case Rendered(text) =>
        return Write(output, text);
    }
  }

  /** One turn of the walk loop, as `Process` takes it. */
  lemma ProcessFirst(job: Job, items: seq<WalkItem>, disk: Disk)
    requires items != []
    ensures var step := StepEntry(job, disk, items[0]);
            && (step.Skip? ==> Process(job, items, disk) == Process(job, items[1..], disk))
            && (step.Halt? ==> Process(job, items, disk) == (step.progress, disk))
            && (step.Write? && WriteFile(disk, step.path, step.text).ParentBlocked? ==>
                  Process(job, items, disk) == (Aborted(Panicked(CreateDirFailed(step.path))), disk))
            && (step.Write? && WriteFile(disk, step.path, step.text).WriteRejected? ==>
                  Process(job, items, disk) ==
                  (Aborted(Err(WriteFailed(step.path))), WriteFile(disk, step.path, step.text).disk))
            && (step.Write? && WriteFile(disk, step.path, step.text).Written? ==>
                  Process(job, items, disk) == Process(job, items[1..], WriteFile(disk, step.path, step.text).disk))
  {
  }

  /** The walk/render/write loop of `run`. */
  method ApplyEntries(job: Job, raw: seq<WalkItem>, disk: Disk) returns (progress: Progress, out: Disk)
    ensures (progress, out) == Process(job, Walk(raw), disk)
  {
    var items := Walk(raw);
    out := disk;
    var i := 0;
    while i < |items|
      invariant 0 <= i <= |items|
      invariant Process(job, items, disk) == Process(job, items[i..], out)
    {
      var step := ApplyEntry(job, out, items[i]);
      ProcessFirst(job, items[i..], out);
      match step {
        case Skip =>
        case Halt(p) =>
          return p, out;
        case Write(output, text) =>
          match WriteFile(out, output, text) {
            case ParentBlocked =>
              return Aborted(Panicked(CreateDirFailed(output))), out;
            case WriteRejected(d) =>
              return Aborted(Err(WriteFailed(output))), d;
            case Written(d) =>
              out := d;
          }
      }
      assert items[i..][1..] == items[i + 1..];
      i := i + 1;
    }
    progress := Completed;
  }

  datatype Report = Report(outcome: Outcome, disk: Disk, prompts: seq<string>)

  /** The whole of `run`: the outcome, the disk afterwards, and the prompts shown. */
  function RunSpec(disk: Disk, config: GlobalConfig, source: Path, target: Path, parse: Parser,
                   answers: seq<string>, raw: seq<WalkItem>, render: Renderer): Report
  {
    match LoadDeclarations(disk, source, parse)
    case Failure(p) => Report(Panicked(p), disk, [])
    case Success(decls) =>
      if |PromptedKeys(decls)| > |answers| then
        Report(Panicked(PromptFailed), disk, Labels(PromptedKeys(decls)[..|answers| + 1]))
      else match FileName(source)
        case None => Report(Panicked(NoFileName), disk, Labels(PromptedKeys(decls)))
        case Some(name) =>
          var bindings := Bindings(Declared(decls, answers), name, config.fullName, config.license);
          var r := Process(Job(source, target, config.templatesDir, bindings, name, render), Walk(raw), disk);
          Report(OutcomeOf(r.0), r.1, Labels(PromptedKeys(decls)))
  }

  /** `apply::run(source_dir, target_dir)`. */
  method Run(disk: Disk, config: GlobalConfig, source: Path, target: Path, parse: Parser,
             answers: seq<string>, raw: seq<WalkItem>, render: Renderer)
    returns (outcome: Outcome, out: Disk, prompts: seq<string>)
    ensures Report(outcome, out, prompts) == RunSpec(disk, config, source, target, parse, answers, raw, render)
  {
    var loaded := LoadDeclarations(disk, source, parse);
    if loaded.Failure? {
      return Panicked(loaded.error), disk, [];
    }
    var declared;
    declared, prompts := ResolveDeclared(loaded.value, answers);
    if declared.None? {
      return Panicked(PromptFailed), disk, prompts;
    }
    var name := FileName(source);
    if name.None? {
      return Panicked(NoFileName), disk, prompts;
    }
    var bindings := Bindings(declared.value, name.value, config.fullName, config.license);
    var job := Job(source, target, config.templatesDir, bindings, name.value, render);
    var progress;
    progress, out := ApplyEntries(job, raw, disk);
    outcome := OutcomeOf(progress);
  }

  /** A descriptor that fails to load ends the run before any prompt or write. */
  lemma DescriptorFailureWritesNothing(disk: Disk, config: GlobalConfig, source: Path, target: Path, parse: Parser,
                                       answers: seq<string>, raw: seq<WalkItem>, render: Renderer)
    requires parse(DescriptorText(disk, source)).Malformed? || parse(DescriptorText(disk, source)).variables.None?
    ensures var r := RunSpec(disk, config, source, target, parse, answers, raw, render);
            r.outcome.Panicked? && r.disk == disk && r.prompts == []
  {
  }

  /** Running out of answers ends the run before any write. */
  lemma PromptFailureWritesNothing(disk: Disk, config: GlobalConfig, source: Path, target: Path, parse: Parser,
                                   answers: seq<string>, raw: seq<WalkItem>, render: Renderer)
    requires LoadDeclarations(disk, source, parse).Success?
    requires |PromptedKeys(LoadDeclarations(disk, source, parse).value)| > |answers|
    ensures var r := RunSpec(disk, config, source, target, parse, answers, raw, render);
            r.outcome == Panicked(PromptFailed) && r.disk == disk && |r.prompts| == |answers| + 1
  {
  }

  /** The loop over `a + b` is the loop over `a`, then, if it completed, the loop over `b`. */
  lemma {:induction false} ProcessAppend(job: Job, a: seq<WalkItem>, b: seq<WalkItem>, disk: Disk)
    ensures Process(job, a + b, disk) ==
            if Process(job, a, disk).0.Completed? then Process(job, b, Process(job, a, disk).1)
            else Process(job, a, disk)
    decreases |a|
  {
    if a == [] {
      assert a + b == b;
    } else {
      assert (a + b)[0] == a[0];
      assert (a + b)[1..] == a[1..] + b;
      match StepEntry(job, disk, a[0])
      case Skip =>
        ProcessAppend(job, a[1..], b, disk);
      case Halt(_) =>
      case Write(path, text) =>
        match WriteFile(disk, path, text)
        case Written(d) =>
          ProcessAppend(job, a[1..], b, d);
        case ParentBlocked =>
        case WriteRejected(_) =>
    }
  }

  /** Once an item halts the loop, later items are never visited and earlier writes stay. */
  lemma HaltEndsRun(job: Job, a: seq<WalkItem>, x: WalkItem, b: seq<WalkItem>, disk: Disk)
    requires Process(job, a, disk).0.Completed?
    requires StepEntry(job, Process(job, a, disk).1, x).Halt?
    ensures Process(job, a + [x] + b, disk) ==
            (StepEntry(job, Process(job, a, disk).1, x).progress, Process(job, a, disk).1)
  {
    assert a + [x] + b == a + ([x] + b);
    ProcessAppend(job, a, [x] + b, disk);
  }

  /**
   * A file body that fails to render stops the loop: that file and all
   * later ones are not written, the earlier writes remain, and `run`
   * reports `Ok`.
   */
  lemma ContentErrorEndsRunAsOk(job: Job, a: seq<WalkItem>, cs: seq<string>, b: seq<WalkItem>, disk: Disk,
                                rel: string, body: string, desc: string)
    requires Process(job, a, disk).0.Completed?
    requires var d := Process(job, a, disk).1;
             && IsFile(d, InputPath(job.source, cs))
             && job.render(Unsplit(cs), PathRegistry, job.bindings) == Rendered(rel)
             && ReadToString(d, InputPath(job.source, cs)) == Some(body)
             && job.render(body, ContentRegistry(d, job.templatesDir), ContentContext(job.projectName)) == RenderError(desc)
    ensures Process(job, a + [Entry(cs)] + b, disk) == (Stopped(desc), Process(job, a, disk).1)
    ensures OutcomeOf(Process(job, a + [Entry(cs)] + b, disk).0) == Ok
  {
    HaltEndsRun(job, a, Entry(cs), b, disk);
  }

  /** A relative path that fails to render ends the run with that error; earlier writes remain. */
  lemma PathErrorEndsRunAsErr(job: Job, a: seq<WalkItem>, cs: seq<string>, b: seq<WalkItem>, disk: Disk,
                              desc: string)
    requires Process(job, a, disk).0.Completed?
    requires IsFile(Process(job, a, disk).1, InputPath(job.source, cs))
    requires job.render(Unsplit(cs), PathRegistry, job.bindings) == RenderError(desc)
    ensures Process(job, a + [Entry(cs)] + b, disk) == (Aborted(Err(PathRender(desc))), Process(job, a, disk).1)
  {
    HaltEndsRun(job, a, Entry(cs), b, disk);
  }

  function WithoutErrors(items: seq<WalkItem>): seq<WalkItem>
  {
    if items == [] then []
    else (if items[0].WalkError? then [] else [items[0]]) + WithoutErrors(items[1..])
  }

  /** Walk errors are skipped: the loop behaves as if they were not there. */
  lemma {:induction false} WalkErrorsSkipped(job: Job, items: seq<WalkItem>, disk: Disk)
    ensures Process(job, items, disk) == Process(job, WithoutErrors(items), disk)
    decreases |items|
  {
    if items != [] {
      var rest := WithoutErrors(items[1..]);
      if items[0].WalkError? {
        assert WithoutErrors(items) == rest;
        assert StepEntry(job, disk, items[0]) == Skip;
        WalkErrorsSkipped(job, items[1..], disk);
      } else {
        var w := [items[0]] + rest;
        assert w[0] == items[0] && w[1..] == rest;
        match StepEntry(job, disk, items[0])
        case Skip =>
          WalkErrorsSkipped(job, items[1..], disk);
        case Halt(_) =>
        case Write(path, text) =>
          match WriteFile(disk, path, text)
          case Written(d) =>
            WalkErrorsSkipped(job, items[1..], d);
          case ParentBlocked =>
          case WriteRejected(_) =>
      }
    }
  }

  /** Bodies do not see the descriptor's bindings: changing them without changing path renders changes nothing. */
  lemma BodiesIgnoreBindings(job: Job, bindings: map<string, string>, disk: Disk, item: WalkItem)
    requires forall t :: job.render(t, PathRegistry, bindings) == job.render(t, PathRegistry, job.bindings)
    ensures StepEntry(job.(bindings := bindings), disk, item) == StepEntry(job, disk, item)
  {
  }

  /** Every path render yields a relative path with no `..` segment. */
  ghost predicate RelativePathRenders(job: Job) {
    forall t :: job.render(t, PathRegistry, job.bindings).Rendered? ==>
      && !IsAbsolute(job.render(t, PathRegistry, job.bindings).text)
      && ".." !in Split(job.render(t, PathRegistry, job.bindings).text)
  }

  /** `q` was added or replaced between `before` and `after`. */
  predicate Changed(before: Disk, after: Disk, q: Path) {
    q in after && (q !in before || after[q] != before[q])
  }

  lemma StepWritesUnderTarget(job: Job, disk: Disk, item: WalkItem)
    requires RelativePathRenders(job)
    requires StepEntry(job, disk, item).Write?
    ensures Within(job.target, StepEntry(job, disk, item).path)
  {
    var cs := item.components;
    var rel := job.render(Unsplit(cs), PathRegistry, job.bindings).text;
    assert StepEntry(job, disk, item).path == Join(job.target, rel);
    JoinWithin(job.target, rel);
  }

  /** A write within `target` adds or replaces only paths within `target` or directories above it. */
  lemma WriteStaysInTarget(target: Path, disk: Disk, path: Path, text: string)
    requires Within(target, path)
    requires !WriteFile(disk, path, text).ParentBlocked?
    ensures forall q :: q in disk ==> q in WriteFile(disk, path, text).disk
    ensures forall q :: Changed(disk, WriteFile(disk, path, text).disk, q) ==> Within(target, q) || Above(target, q)
  {
    var d := WriteFile(disk, path, text).disk;
    forall q | Changed(disk, d, q) ensures Within(target, q) || Above(target, q) {
      if q != path {
        AncestorStaysInTarget(target, path, q);
      }
    }
  }

  /** A directory above a path within `target` is within `target` too, or above it. */
  lemma AncestorStaysInTarget(target: Path, path: Path, q: Path)
    requires Within(target, path)
    requires q in Ancestors(path)
    ensures Within(target, q) || Above(target, q)
  {
    assert q < path && path[|q|] == '/';
    if |q| < |target| {
      assert q == path[..|q|] == target[..|q|];
      assert target[|q|] == path[|q|];
    } else if |q| == |target| {
      assert q == path[..|q|] == target;
      assert q[|target|..] == "";
      assert Split("") == [""];
    } else {
      AncestorBelowTarget(target, path, q);
    }
  }

  lemma AncestorBelowTarget(target: Path, path: Path, q: Path)
    requires Within(target, path)
    requires q < path && path[|q|] == '/' && |q| > |target|
    ensures Within(target, q)
  {
    assert target == path[..|target|] == q[..|target|];
    assert q[|target|] == path[|target|];
    var tail := path[|target|..];
    assert q[|target|..] == tail[..|q| - |target|];
    assert tail[|q| - |target|] == '/';
    SplitFreeOfDotDot(tail, |q| - |target|);
  }

  /** Cutting `s` before one of its separators adds no `..` segment. */
  lemma SplitFreeOfDotDot(s: string, k: nat)
    requires k < |s| && s[k] == '/'
    requires ".." !in Split(s)
    ensures ".." !in Split(s[..k])
  {
    if ".." in Split(s[..k]) {
      SplitPrefix(s, k, "..");
    }
  }

  /**
   * When every relative path renders to a relative path without `..`, the
   * loop removes nothing, and every path it adds or replaces lies within
   * the target or is a directory above it.
   */
  lemma {:induction false} ProcessStaysInTarget(job: Job, items: seq<WalkItem>, disk: Disk)
    requires RelativePathRenders(job)
    ensures forall q :: q in disk ==> q in Process(job, items, disk).1
    ensures forall q :: Changed(disk, Process(job, items, disk).1, q) ==> Within(job.target, q) || Above(job.target, q)
    decreases |items|
  {
    if items != [] {
      match StepEntry(job, disk, items[0])
      case Skip =>
        ProcessStaysInTarget(job, items[1..], disk);
      case Halt(_) =>
      case Write(path, text) =>
        StepWritesUnderTarget(job, disk, items[0]);
        match WriteFile(disk, path, text)
        case Written(d) =>
          WriteStaysInTarget(job.target, disk, path, text);
          ProcessStaysInTarget(job, items[1..], d);
          var final := Process(job, items[1..], d).1;
          forall q | Changed(disk, final, q) ensures Within(job.target, q) || Above(job.target, q) {
            if !Changed(disk, d, q) {
              assert Changed(d, final, q);
            }
          }
        case WriteRejected(_) =>
          WriteStaysInTarget(job.target, disk, path, text);
        case ParentBlocked =>
    }
  }

  /**
   * The program checks nothing about where a rendered path leads: a
   * relative path `../<name>`, say from a directory named `{{dir}}` bound
   * to "..", is written as it stands, and read lexically it names a
   * sibling of the target, not something below it.
   */
  lemma DotDotLeavesTarget(job: Job, disk: Disk, cs: seq<string>, body: string, text: string,
                           name: string, above: seq<string>, last: string)
    requires job.target != [] && !EndsInSeparator(job.target)
    requires IsPlainName(name) && Resolve(Split(job.target)) == above + [last] && last != name
    requires IsFile(disk, InputPath(job.source, cs))
    requires job.render(Unsplit(cs), PathRegistry, job.bindings) == Rendered(".." + "/" + name)
    requires ReadToString(disk, InputPath(job.source, cs)) == Some(body)
    requires job.render(body, ContentRegistry(disk, job.templatesDir), ContentContext(job.projectName)) == Rendered(text)
    ensures StepEntry(job, disk, Entry(cs)) == Write(job.target + "/" + (".." + "/" + name), text)
    ensures Resolve(Split(job.target + "/" + (".." + "/" + name))) == above + [name]
    ensures !(Resolve(Split(job.target)) <= Resolve(Split(job.target + "/" + (".." + "/" + name))))
    ensures !Within(job.target, job.target + "/" + (".." + "/" + name))
  {
    assert Join(job.target, ".." + "/" + name) == job.target + "/" + (".." + "/" + name);
    DotDotClimbs(job.target, name, above, last);
  }

  /**
   * A file that renders and writes cleanly continues the loop from the
   * disk on which its rendered path now reads back as its rendered body.
   */
  lemma FileWrittenAtRenderedPath(job: Job, a: seq<WalkItem>, cs: seq<string>, b: seq<WalkItem>, disk: Disk,
                                  rel: string, body: string, text: string)
    requires Process(job, a, disk).0.Completed?
    requires var d := Process(job, a, disk).1;
             && IsFile(d, InputPath(job.source, cs))
             && job.render(Unsplit(cs), PathRegistry, job.bindings) == Rendered(rel)
             && ReadToString(d, InputPath(job.source, cs)) == Some(body)
             && job.render(body, ContentRegistry(d, job.templatesDir), ContentContext(job.projectName)) == Rendered(text)
             && ParentsCreatable(d, Join(job.target, rel))
             && !EndsInSeparator(Join(job.target, rel))
             && !(Join(job.target, rel) in d && d[Join(job.target, rel)].Directory?)
    ensures var d := Process(job, a, disk).1;
            && WriteFile(d, Join(job.target, rel), text).Written?
            && ReadToString(WriteFile(d, Join(job.target, rel), text).disk, Join(job.target, rel)) == Some(text)
            && Process(job, a + [Entry(cs)] + b, disk) == Process(job, b, WriteFile(d, Join(job.target, rel), text).disk)
  {
    var d := Process(job, a, disk).1;
    assert a + [Entry(cs)] + b == a + ([Entry(cs)] + b);
    ProcessAppend(job, a, [Entry(cs)] + b, disk);
    assert ([Entry(cs)] + b)[1..] == b;
  }

  /**
   * A template that is a regular file: the walker yields its root entry,
   * whose relative path is empty, so the output path is the target
   * followed by '/'. Writing there fails, and `run` returns that error.
   */
  lemma FileTemplateFails(job: Job, disk: Disk, rest: seq<WalkItem>, body: string, text: string)
    requires job.target != [] && !EndsInSeparator(job.target)
    requires forall a :: a in Ancestors(job.target) && a in disk ==> disk[a].Directory?
    requires IsFile(disk, job.source)
    requires job.render("", PathRegistry, job.bindings) == Rendered("")
    requires ReadToString(disk, job.source) == Some(body)
    requires job.render(body, ContentRegistry(disk, job.templatesDir), ContentContext(job.projectName)) == Rendered(text)
    ensures Process(job, [Entry([])] + rest, disk).0 == Aborted(Err(WriteFailed(job.target + "/")))
    ensures OutcomeOf(Process(job, [Entry([])] + rest, disk).0).Err?
  {
    var out := job.target + "/";
    assert Join(job.target, "") == out;
    assert StepEntry(job, disk, Entry([])) == Write(out, text);
    assert out[..|out| - 1] == job.target;
    assert TrimSeparators(out) == job.target;
    assert Ancestors(out) == Ancestors(job.target);
    assert ([Entry([])] + rest)[0] == Entry([]);
  }
}
