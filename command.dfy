/**
 * The `apply` arm of `main`: check that the target exists, resolve the
 * template's source directory (by name, or with the picker), apply the
 * overwrite guard, and hand over to `apply::run`. Exits and panics are
 * decisions the function returns.
 */
module ApplyCommand {
  import opened Wrappers
  import opened Paths
  import Picker

  /** What the arm observes of the host: which paths exist, and what `read_dir` yields for those it can list. */
  datatype HostView = HostView(existing: set<Path>, listings: map<Path, seq<string>>)

  /** The arguments of `apply`; `watch` is accepted and never read. */
  datatype ApplyArgs = ApplyArgs(targetDir: Path, templateName: Option<string>, force: bool, watch: bool)

  datatype Decision =
    | TargetMissing                      // exit 1
    | TemplateNotFound(name: string)     // exit 1
    | TemplatesDirMissing(path: Path)    // exit 1
    | ReadDirPanicked(path: Path)        // `read_dir().unwrap()` on something that cannot be listed
    | PickerPanicked
    | PickerWaiting                      // the picker has not returned yet
    | Declined                           // the confirmation was answered yes: exit 1
    | RunApply(source: Path, target: Path)

  /** The process exit status a decision ends with, when it ends the process here. */
  function ExitStatus(d: Decision): (s: Option<int>)
    ensures s == Some(1) <==> d.TargetMissing? || d.TemplateNotFound? || d.TemplatesDirMissing? || d.Declined?
    ensures d.RunApply? || d.PickerWaiting? ==> s.None?
  {
    match d
    case TargetMissing => Some(1)
    case TemplateNotFound(_) => Some(1)
    case TemplatesDirMissing(_) => Some(1)
    case Declined => Some(1)
    case ReadDirPanicked(_) => Some(101)
    case PickerPanicked => Some(101)
    case PickerWaiting => None
    case RunApply(_, _) => None
  }

  function TemplatesSubdir(templatesDir: Path): Path
  {
    Join(templatesDir, "templates")
  }

  /** The template's source directory: named on the command line, or picked from the templates directory. */
  function ResolveSource(host: HostView, templatesDir: Path, name: Option<string>, keys: seq<Picker.Event>)
    : Result<Path, Decision>
  {
    match name
    case Some(n) =>
      var p := Join(TemplatesSubdir(templatesDir), n);
      if p !in host.existing then Failure(TemplateNotFound(n)) else Success(p)
    case None =>
      var p := TemplatesSubdir(templatesDir);
      if p !in host.existing then Failure(TemplatesDirMissing(p))
      else if p !in host.listings then Failure(ReadDirPanicked(p))
      else match Picker.PickerRun(host.listings[p], keys)
        case Returned(picked) => Success(Join(p, picked))
        case Panicked => Failure(PickerPanicked)
        case Waiting => Failure(PickerWaiting)
  }

  /** The overwrite guard; `None` lets the run go ahead. `confirm` is the answer to "Do you want to continue?". */
  function Guard(host: HostView, target: Path, force: bool, confirm: bool): Option<Decision>
  {
    if force then None
    else if target !in host.listings then Some(ReadDirPanicked(target))
    else if host.listings[target] == [] then None
    else if confirm then Some(Declined)
    else None
  }

  /** The `Cmd::Apply` arm. */
  function Decide(host: HostView, templatesDir: Path, args: ApplyArgs, keys: seq<Picker.Event>, confirm: bool)
    : (d: Decision)
    ensures d == TargetMissing <==> args.targetDir !in host.existing
    ensures d.RunApply? ==> d.target == args.targetDir
    ensures d.Declined? ==> !args.force && confirm && args.targetDir in host.listings && host.listings[args.targetDir] != []
  {
    if args.targetDir !in host.existing then TargetMissing
    else match ResolveSource(host, templatesDir, args.templateName, keys)
      case Failure(d) => d
      case Success(source) =>
        match Guard(host, args.targetDir, args.force, confirm)
        case Some(d) => d
        case None => RunApply(source, args.targetDir)
  }

  /** The guard as a rule: the run goes ahead when forced, when the target is empty, or when the answer is no. */
  predicate GuardPasses(listing: seq<string>, force: bool, confirm: bool) {
    force || listing == [] || !confirm
  }

  /**
   * Once the target exists and the source is resolved, `apply::run` is
   * reached exactly when the guard passes; otherwise the arm exits.
   */
  lemma ApplyReachedIffGuardPasses(host: HostView, templatesDir: Path, args: ApplyArgs,
                                   keys: seq<Picker.Event>, confirm: bool, source: Path)
    requires args.targetDir in host.existing
    requires ResolveSource(host, templatesDir, args.templateName, keys) == Success(source)
    requires args.force || args.targetDir in host.listings
    ensures Decide(host, templatesDir, args, keys, confirm) == RunApply(source, args.targetDir) <==>
            GuardPasses(if args.force then [] else host.listings[args.targetDir], args.force, confirm)
    ensures !GuardPasses(if args.force then [] else host.listings[args.targetDir], args.force, confirm) ==>
            Decide(host, templatesDir, args, keys, confirm) == Declined
  {
  }

  /** With `force`, the answer is never asked for and a resolved source is always applied. */
  lemma ForceSkipsGuard(host: HostView, templatesDir: Path, args: ApplyArgs, keys: seq<Picker.Event>,
                        confirm: bool)
    requires args.force
    ensures Decide(host, templatesDir, args, keys, confirm) == Decide(host, templatesDir, args, keys, !confirm)
    ensures args.targetDir in host.existing && ResolveSource(host, templatesDir, args.templateName, keys).Success? ==>
              Decide(host, templatesDir, args, keys, confirm)
              == RunApply(ResolveSource(host, templatesDir, args.templateName, keys).value, args.targetDir)
  {
  }

  /** An empty target goes straight to the run, whatever the answer would have been. */
  lemma EmptyTargetNotConfirmed(host: HostView, templatesDir: Path, args: ApplyArgs, keys: seq<Picker.Event>)
    requires args.targetDir in host.listings && host.listings[args.targetDir] == []
    ensures Decide(host, templatesDir, args, keys, true) == Decide(host, templatesDir, args, keys, false)
  {
  }

  /** A missing target ends the arm before the templates directory is looked at or the picker is shown. */
  lemma TargetCheckedFirst(host: HostView, templatesDir: Path, args: ApplyArgs, keys: seq<Picker.Event>,
                           confirm: bool)
    requires args.targetDir !in host.existing
    ensures Decide(host, templatesDir, args, keys, confirm) == TargetMissing
    ensures ExitStatus(Decide(host, templatesDir, args, keys, confirm)) == Some(1)
  {
  }

  /** A template named on the command line is applied with that name as its `project_name`. */
  lemma NamedTemplateIsProjectName(host: HostView, templatesDir: Path, args: ApplyArgs,
                                   keys: seq<Picker.Event>, confirm: bool)
    requires args.templateName.Some? && IsPlainName(args.templateName.value)
    requires Decide(host, templatesDir, args, keys, confirm).RunApply?
    ensures FileName(Decide(host, templatesDir, args, keys, confirm).source) == Some(args.templateName.value)
  {
    FileNameOfJoin(TemplatesSubdir(templatesDir), args.templateName.value);
  }

  /**
   * Quitting the picker with `q` returns the empty name, which joined onto
   * the templates directory names that directory itself: the whole
   * templates directory is applied, with `project_name` "templates".
   */
  lemma QuitAppliesTemplatesDir(host: HostView, templatesDir: Path, targetDir: Path, rest: seq<Picker.Event>)
    requires targetDir in host.existing
    requires TemplatesSubdir(templatesDir) in host.existing && TemplatesSubdir(templatesDir) in host.listings
    ensures var d := Decide(host, templatesDir, ApplyArgs(targetDir, None, true, false),
                            [Picker.Key(Picker.Char('q'), Picker.Press)] + rest, false);
            && d == RunApply(TemplatesSubdir(templatesDir) + "/", targetDir)
            && FileName(d.source) == Some("templates")
  {
    var sub := TemplatesSubdir(templatesDir);
    var keys := [Picker.Key(Picker.Char('q'), Picker.Press)] + rest;
    assert Picker.HandleEvent(host.listings[sub], Some(0), keys[0]) == Picker.Finish(Picker.Returned(""));
    assert Picker.PickerRun(host.listings[sub], keys) == Picker.Returned("");
    assert sub[|sub| - 1] == 's';
    assert Join(sub, "") == sub + "/";
    assert ResolveSource(host, templatesDir, None, keys) == Success(sub + "/");
    FileNameTrailingSlash(sub);
    FileNameOfJoin(templatesDir, "templates");
  }

  /** The `watch` flag changes nothing. */
  lemma WatchIgnored(host: HostView, templatesDir: Path, args: ApplyArgs, keys: seq<Picker.Event>, confirm: bool)
    ensures Decide(host, templatesDir, args.(watch := !args.watch), keys, confirm)
            == Decide(host, templatesDir, args, keys, confirm)
  {
  }

  /**
   * A named template is `templates_dir/templates/<name>`: when it is
   * missing the arm exits with status 1 whatever the guard would say, and
   * when it exists and the guard passes that path is applied.
   */
  lemma NamedTemplateResolution(host: HostView, templatesDir: Path, args: ApplyArgs,
                                keys: seq<Picker.Event>, confirm: bool, name: string)
    requires args.targetDir in host.existing && args.templateName == Some(name)
    requires args.force || args.targetDir in host.listings
    ensures Join(Join(templatesDir, "templates"), name) !in host.existing ==>
              && Decide(host, templatesDir, args, keys, confirm) == TemplateNotFound(name)
              && ExitStatus(Decide(host, templatesDir, args, keys, confirm)) == Some(1)
    ensures Join(Join(templatesDir, "templates"), name) in host.existing
              && GuardPasses(if args.force then [] else host.listings[args.targetDir], args.force, confirm) ==>
              Decide(host, templatesDir, args, keys, confirm)
                == RunApply(Join(Join(templatesDir, "templates"), name), args.targetDir)
  {
  }

  /**
   * Without a name, the name the picker returns is joined onto
   * `templates_dir/templates`; with a non-empty listing it is `""` or one
   * of the listed names.
   */
  lemma PickedTemplateApplied(host: HostView, templatesDir: Path, args: ApplyArgs,
                              keys: seq<Picker.Event>, confirm: bool, picked: string)
    requires args.targetDir in host.existing && args.templateName.None?
    requires TemplatesSubdir(templatesDir) in host.existing && TemplatesSubdir(templatesDir) in host.listings
    requires Picker.PickerRun(host.listings[TemplatesSubdir(templatesDir)], keys) == Picker.Returned(picked)
    requires args.force || args.targetDir in host.listings
    requires GuardPasses(if args.force then [] else host.listings[args.targetDir], args.force, confirm)
    ensures Decide(host, templatesDir, args, keys, confirm)
              == RunApply(Join(Join(templatesDir, "templates"), picked), args.targetDir)
    ensures |host.listings[TemplatesSubdir(templatesDir)]| > 0 ==>
              picked == "" || picked in host.listings[TemplatesSubdir(templatesDir)]
  {
    if |host.listings[TemplatesSubdir(templatesDir)]| > 0 {
      Picker.PickerReturnsItem(host.listings[TemplatesSubdir(templatesDir)], keys);
    }
  }
}
