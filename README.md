# template scaffolder — a Dafny model of the apply engine

The program copies a template directory tree into a target directory. It substitutes variables into each file's relative path and into each file's body. This project models three parts of it in Dafny and proves properties of the model:

- **The apply engine** (`src/commands/apply.rs`, modules `Variables`, `Helpers` and `Apply`).
  - It reads `template.toml` and resolves each `[variables]` entry to a string. A bare string is used as-is, a `default` is used without a prompt, and an entry with no default gets one prompted answer.
  - It then inserts `project_name`, `full_name` and `license` on top of those entries.
  - It walks the template tree, skipping walk errors and pruning `.git` and `template.toml` at any depth below the root, and handles only regular files.
  - For each file it renders the relative path against the bindings and renders the body against a context that holds only `project_name`. It then creates the parent directories and writes the file.
  - Its error policy is modelled as written. A path-render error is returned as `Err`. A body-render error stops the run and still returns `Ok(())`.
  - The two body helpers, `include_file` and `include_resource`, are modelled as functions.
- **The template picker** (`src/util.rs`, module `Picker`).
  - `StatefulList` is a class with `items` and `selected` fields. `Next` and `Previous` move the selection cyclically.
  - `RunApp` is the `run_app` key loop, fed a sequence of terminal events.
- **The `apply` command's pre-flight decisions** (`src/main.rs`, module `ApplyCommand`). `Decide` runs the target check, resolves the source directory (by name or through the picker) and applies the overwrite guard. It returns a decision: exit, panic or run.

Two supporting modules model the Rust standard library the code relies on:
- `Paths` covers `PathBuf::join` and `Path::file_name` on '/'-separated strings.
- `FileSystem` models the disk as a map from path to node: a directory, a UTF-8 text file, or a file that `read_to_string` rejects. It also models `create_dir_all` followed by `fs::write`.

The model treats every outside service as an input or an abstract function:
- **Template engine:** the handlebars engine is an abstract `Renderer`, a function from (template, registry, context) to a rendered text, a render error or a helper panic.
- **TOML parser:** an abstract `Parser` turns a descriptor's text into `Malformed` or a `[variables]` table. The table is a sequence of entries in the hash map's iteration order.
- **Directory walker:** the walker's raw output is an arbitrary sequence of entries and errors. The model passes it through the code's own `filter_entry` predicate.
- **Prompts and the confirmation:** prompt answers are a sequence and the confirmation is a boolean.
- **Key events:** the picker reads from a sequence of key events.
- **Host in `Decide`:** the set of existing paths and the `read_dir` listings.
- **Configuration:** `templates_dir`, `full_name` and `license` are passed in as parameters.

Some of the code's behaviour is easy to misread:
- `project_name` is the final segment of the template's source directory, not of the target.
- Bodies are rendered against `project_name` only, so `{{full_name}}` or a descriptor variable in a body does not see the bindings.
- Answering **yes** to "Do you want to continue?" exits with status 1, and answering no proceeds.
- Quitting the picker with `q` returns `""`, and `main` joins that onto the templates directory. The whole templates directory is then applied as the template (`ApplyCommand.QuitAppliesTemplatesDir`).
- A template that is a regular file is walked as its own root entry. Its relative path is empty, so the output path is the target followed by '/', and the write fails (`Apply.FileTemplateFails`).
- Nothing keeps a rendered path inside the target: a `..` segment is written as it stands (`Apply.DotDotLeavesTarget`).

## Model

| member | source | states |
|---|---|---|
| Paths.Join | src/commands/apply.rs:158 | `target_dir.join(relpath)`: an absolute rendered path replaces the target outright. A relative one is appended after the target, so the target is a prefix of the result and the relative path ends it. |
| Paths.SplitThenUnsplit | src/commands/apply.rs:149 | Splitting a path at '/' and joining the pieces again gives back the same string. |
| Paths.UnsplitThenSplit | src/commands/apply.rs:149 | Joining walk components with '/' and splitting the result gives back the same components, when no component contains '/'. |
| Paths.JoinWithin | src/commands/apply.rs:158 | A relative path without `..` segments joined onto the target lies within the target: after a separator, with no `..` segment in the rest. |
| Paths.WithinResolves | src/commands/apply.rs:158 | A path within the target, read lexically, names the target's names followed by more names. |
| Paths.DotDotClimbs | src/commands/apply.rs:158 | `target/../name`, read lexically, names `name` beside the target's last name. It does not extend the target's names and is not within the target. |
| Paths.FileNameOfJoin | src/commands/apply.rs:99-104 | `file_name` of a directory joined with a plain name is that name. This is how `project_name` is obtained. |
| Paths.FileNameTrailingSlash | src/main.rs:68-70 | A trailing '/' does not change what `file_name` reports. |
| FileSystem.WriteFile | src/commands/apply.rs:198-200 | It panics (`parent().unwrap()` or the `expect`) exactly when the path has no parent or an ancestor of it is a file. Otherwise the ancestors become directories, and the write fails (returned `Err`) exactly when the path ends in '/' or is a directory. A failed write changes no existing entry. A successful one makes the path read back as the written text, replacing any old content. Every other existing entry is unchanged, and only the path and its ancestors are added. |
| Helpers.IncludeFile | src/commands/apply.rs:22-33 | With no argument it is a render error, and a non-string argument panics. A snippet path that does not exist (a path ending in '/' exists when it names a directory) gives exactly `NOT EXISTS`. A readable snippet gives its verbatim text, and an unreadable one panics. |
| Helpers.IncludeFileReadsBackSnippet | src/commands/apply.rs:26-31 | A snippet written into the shared directory is what `include_file` then emits, byte for byte. |
| Helpers.IncludeFileAbsoluteName | src/commands/apply.rs:26 | An absolute snippet name bypasses the shared directory: that path itself is read. |
| Helpers.IncludeResource | src/commands/apply.rs:163-174 | With no argument it is the render error `A`. Otherwise it emits the rendered argument followed by exactly ` pts`. |
| Helpers.Registry.Call | src/commands/apply.rs:176-179 | The path registry has no helpers. The content registry has exactly `include_file` and `include_resource`, and calls `IncludeFile` and `IncludeResource` for them. |
| Variables.ResolveDeclared | src/commands/apply.rs:81-96 | The loop succeeds exactly when there are enough answers for the undefaulted entries. It then yields the declared map, and the prompts shown are the `Value of key: '<key>'?` labels of the undefaulted keys in order. When answers run out, the prompts shown are those up to and including the one left unanswered. |
| Variables.Bindings | src/commands/apply.rs:97-114 | The bindings are the descriptor keys plus `project_name`, `full_name` and `license`. The three metadata values override same-named descriptor keys, and every other descriptor key keeps its value. |
| Variables.PromptedKeysPrefix | src/commands/apply.rs:82-95 | The prompts for the first entries are a prefix of the prompts for all entries. |
| Variables.PromptedAt | src/commands/apply.rs:86-93 | An undefaulted entry is prompted for, at the position given by the number of prompts before it. |
| Variables.NoPromptWithoutUndefaulted | src/commands/apply.rs:84-86 | A descriptor of literals and defaulted tables shows no prompt. |
| Variables.PromptedKeysAreUndefaulted | src/commands/apply.rs:86-93 | Only keys whose entry has no default are prompted for. |
| Variables.OnePromptPerUndefaultedKey | src/commands/apply.rs:86-93 | With distinct keys, each undefaulted key is prompted for exactly once and every other key is never prompted for. |
| Variables.DeclaredKeys | src/commands/apply.rs:81-96 | The declared map has exactly the descriptor's keys. |
| Variables.DeclaredValue | src/commands/apply.rs:84-95 | A key's value comes from its last entry: the literal, the default, or the answer whose index is the number of prompts before it. |
| Variables.DeclaredEntryBinding | src/commands/apply.rs:84-113 | In the final bindings, a non-metadata key is bound to its literal or to its default. An undefaulted key is bound to the answer given to its own prompt. |
| Apply.DescriptorText | src/commands/apply.rs:72-75 | An unreadable `template.toml` is read as `[variables]\n`, and a readable one as its text. |
| Apply.MissingDescriptorBindsMetadataOnly | src/commands/apply.rs:75-113 | Without a readable descriptor there are no declarations, and `run` shows no prompt. The bindings are exactly `project_name`, `full_name` and `license`. |
| Apply.DescriptorFailureWritesNothing | src/commands/apply.rs:78-82 | Malformed TOML, or a descriptor without `[variables]`, panics before any prompt or write. The disk is unchanged. |
| Apply.PromptFailureWritesNothing | src/commands/apply.rs:87-91 | A prompt left unanswered panics before any write. By then one more prompt has been shown than there were answers. |
| Apply.Walk | src/commands/apply.rs:117-133 | The walker yields every entry that is not pruned and nothing else. An entry with `.git` or `template.toml` at any depth below the root is pruned. |
| Apply.WalkAppend | src/commands/apply.rs:117-133 | The walker keeps the raw order: what it yields from `a + b` is what it yields from `a`, then from `b`. |
| Apply.WalkOne | src/commands/apply.rs:122-132 | One raw item is yielded exactly when it is not pruned. |
| Apply.InputPath | src/commands/apply.rs:144 | The root entry's path is the source directory exactly as given. |
| Apply.ContentContext | src/commands/apply.rs:181-186 | Bodies are rendered against a context holding only `project_name`. |
| Apply.OutcomeOf | src/commands/apply.rs:188-192 | A walk stopped by a body-render error is reported as `Ok`, the same as a completed one. |
| Apply.ApplyEntry | src/commands/apply.rs:135-196 | The loop body for one item computes exactly `StepEntry`. It skips walk errors and non-files, stops on a path-render, read or body-render failure, and otherwise yields the rendered text to write at `target/rel`. |
| Apply.ApplyEntries | src/commands/apply.rs:117-201 | The walk loop (skip, render path, read, render body, write, early returns) computes exactly `Process` over the walker's output, the root entry included. |
| Apply.Run | src/commands/apply.rs:35-204 | `run` computes exactly `RunSpec`: load the descriptor, resolve the bindings with `project_name` taken from `source_dir`, then run the walk loop. |
| Apply.ProcessAppend | src/commands/apply.rs:117-201 | The loop over `a + b` runs `a`, then runs `b` on the resulting disk only if `a` completed. |
| Apply.HaltEndsRun | src/commands/apply.rs:148-192 | An item that halts the loop ends it. Later items are not visited, and the writes of earlier items remain. |
| Apply.ContentErrorEndsRunAsOk | src/commands/apply.rs:181-192 | A body-render error stops the run with `Ok`. That file and all later ones are not written, and earlier files stay written. |
| Apply.FileWrittenAtRenderedPath | src/commands/apply.rs:148-200 | A file whose path renders to `rel` and whose body renders to `text`, with the write possible, continues the loop from the disk where `target/rel` reads back as `text`. |
| Apply.FileTemplateFails | src/commands/apply.rs:144-200 | A template that is a regular file is written to the target followed by '/'. That write fails, and `run` returns `Err`. |
| Apply.PathErrorEndsRunAsErr | src/commands/apply.rs:148-156 | A path-render error ends the run with that `Err`, and earlier files stay written. |
| Apply.WalkErrorsSkipped | src/commands/apply.rs:135-141 | Walk errors have no effect: the loop behaves as if they were absent. |
| Apply.BodiesIgnoreBindings | src/commands/apply.rs:181-186 | Changing the bindings without changing how paths render changes no step. Bodies never see the bindings. |
| Apply.StepWritesUnderTarget | src/commands/apply.rs:158 | When every path renders relative and without `..` segments, each write goes to a path within the target. |
| Apply.WriteStaysInTarget | src/commands/apply.rs:198-200 | A write within the target, failed or not, adds or replaces only paths within the target or directories above it. |
| Apply.ProcessStaysInTarget | src/commands/apply.rs:148-200 | When every path renders relative and without `..` segments, the loop deletes nothing. Every path it adds or replaces lies within the target or is a directory above it. |
| Apply.DotDotLeavesTarget | src/commands/apply.rs:148-158 | A path that renders to `../name` is written as it stands. Read lexically it names a sibling of the target, not a path within it. |
| Picker.NextIndex | src/util.rs:29-41 | `next` selects 0 from no selection, wraps to 0 from the last index (or beyond), and otherwise selects `i+1`. For a non-empty list the result is always in range. |
| Picker.PreviousIndex | src/util.rs:43-55 | `previous` selects 0 from no selection, wraps to `len-1` from 0, and otherwise selects `i-1`. For a non-empty list and a selection in range, the result stays in range. |
| Picker.StatefulList.WithItems | src/util.rs:22-27 | The list starts with the given items and nothing selected. |
| Picker.StatefulList.Next | src/util.rs:29-41 | The selection becomes `NextIndex` of the old one, and the items are unchanged. |
| Picker.StatefulList.Previous | src/util.rs:43-55 | The selection becomes `PreviousIndex` of the old one, and the items are unchanged. |
| Picker.NextThenPrevious | src/util.rs:29-55 | From a selected index, `next` then `previous` restores it. |
| Picker.PreviousThenNext | src/util.rs:29-55 | From a selected index, `previous` then `next` restores it. |
| Picker.NextTimesAdvances | src/util.rs:29-41 | Before the end of the list, `k` calls to `next` advance the index by `k`. |
| Picker.NextTimesCompose | src/util.rs:29-41 | `a + b` calls to `next` are `a` calls followed by `b` calls. |
| Picker.NextFullCircle | src/util.rs:29-41 | `len` calls to `next` return to the starting index. |
| Picker.RunApp | src/util.rs:78-113 | The key loop selects the first item before reading any key, then computes exactly `PickerRun` over the events. |
| Picker.HandleEventKeys | src/util.rs:94-106 | `q` quits with `""`. Enter returns the selected item, and does nothing without a selection. `j` and Down select `NextIndex`, and `k` and Up select `PreviousIndex`. |
| Picker.EnterPicksFirst | src/util.rs:84-100 | Enter pressed first returns the first item of a non-empty list. |
| Picker.DispatchReturnsItem | src/util.rs:93-107 | For a non-empty list with the selection in range, the loop never panics. What it returns is `""` (quit) or one of the items. |
| Picker.PickerReturnsItem | src/util.rs:84-107 | For a non-empty list the picker never panics and returns `""` or one of the items. |
| Picker.EmptyListPanics | src/util.rs:84-107 | With an empty list, the first navigation key or Enter panics: `len() - 1` underflows, or the index is out of bounds. |
| Picker.UnboundEventsIgnored | src/util.rs:92-107 | Non-press events, non-key events and unbound keys leave the selection unchanged. |
| ApplyCommand.Decide | src/main.rs:24-98 | It exits as `TargetMissing` exactly when the target does not exist. A run is always on the given target. A decline happens only without `force`, with a yes answer and a non-empty target. |
| ApplyCommand.ExitStatus | src/main.rs:32-94 | A missing target, a missing template, a missing templates directory and a declined confirmation exit with status 1. A run and a waiting picker do not exit here. |
| ApplyCommand.ApplyReachedIffGuardPasses | src/main.rs:76-98 | With the target present and the source resolved, `apply::run` is reached exactly when `force` is set, the target is empty, or the answer is no. Otherwise the arm exits declined. |
| ApplyCommand.ForceSkipsGuard | src/main.rs:76 | With `force` the answer never matters, and a resolved source is always applied. |
| ApplyCommand.EmptyTargetNotConfirmed | src/main.rs:77-82 | An empty target is decided the same whatever the answer would be. |
| ApplyCommand.TargetCheckedFirst | src/main.rs:32-35 | A missing target exits with status 1 before the template is resolved or the picker shown. |
| ApplyCommand.NamedTemplateIsProjectName | src/main.rs:38-48 | A plain template name given on the command line becomes the applied source's `file_name`, which is its `project_name`. |
| ApplyCommand.NamedTemplateResolution | src/main.rs:37-98 | A named template is `templates_dir/templates/<name>`. When it is missing the arm exits with status 1 before the guard. When it exists and the guard passes, that path is applied. |
| ApplyCommand.PickedTemplateApplied | src/main.rs:50-72 | Without a name, the picked name is joined onto `templates_dir/templates` and applied when the guard passes. With a non-empty listing it is `""` or a listed name. |
| ApplyCommand.QuitAppliesTemplatesDir | src/main.rs:66-72 | Quitting the picker with `q` applies `templates_dir/templates/` itself, whose `project_name` is `templates`. |
| ApplyCommand.WatchIgnored | src/main.rs:24-29 | The `watch` flag changes nothing. |

## Left out

- The handlebars engine is abstract (`Renderer`). The model does not say how a template calls the registered helpers, how placeholders are parsed, or how a value is substituted. Both registries use `no_escape`, so the abstract renderer is the unescaped one.
- The `ignore` crate's walk settings (`hidden`, `parents`, `git_global`, `git_exclude`) and `.gitignore` handling are not modelled. The walk is an arbitrary sequence that the modelled `filter_entry` prunes.
- Hash-map iteration order is an input: the order of the declaration sequence.
- dialoguer prompts are an input sequence of accepted answers. Re-prompting on an empty line is not modelled, and neither is a terminal failure other than running out of answers.
- The confirmation is an input boolean. A terminal failure in `Confirm::interact` is not modelled.
- Picker: terminal setup and teardown, drawing (`ui`), the polling timeout and tick timing are not modelled. The error path of `get_template_name` (exit 1 on a terminal error) is also left out.
- Picker.NextIndex: `len() - 1` on an empty list is modelled as the debug-build panic. The release-build wrap-around is not modelled.
- `println!`/`eprintln!` status lines and the unused `verbose` flag are left out.
- Paths are strings. The disk's keys are not resolved: `..`, `.` and repeated separators name other keys than the paths they lead to. A trailing '/' is understood only by `WriteFile`, `Exists` and `IsFile`. Symlinks are not modelled, and neither is the `to_str().unwrap()` panic on non-UTF-8 names.
- FileSystem.WriteFile: the only I/O failures modelled are a path without a parent, a file where a directory is needed, and a directory or trailing '/' at the output path. Permission errors and a full disk are not modelled. When `create_dir_all` panics, the directories it made before reaching the blocking file are not modelled.
- `Decide` observes the host through `HostView`, which is not tied to the `Disk` used by `apply::run`.
- The composition of `main` with `run`, where `expect("Failed to run templater")` turns an `Err` into a panic, is not a member. `Decide` stops at `RunApply`.
- `src/config.rs` (hard-coded constants, passed in as parameters), `src/cli.rs` (argument declarations) and `src/commands/applygit.rs` (a loop calling `run` once per template) are not part of this model.
