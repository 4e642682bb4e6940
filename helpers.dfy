/**
 * The two handlebars helpers that file bodies may call, and the two
 * registries the apply loop builds. Both registries use `no_escape`, so a
 * bound value is substituted verbatim; the template engine itself is not
 * part of this model and is reached through `Renderer`.
 */
module Helpers {
  import opened Wrappers
  import opened Paths
  import opened FileSystem

  /** A helper argument: a JSON string, or any other JSON value with the text handlebars renders it as. */
  datatype Json = JString(s: string) | JOther(rendered: string)

  datatype HelperResult =
    | Emit(text: string)   // written to the output
    | Error(desc: string)  // a RenderError: rendering of the body fails
    | Panic                // an `unwrap` inside the helper aborts the process

  /** What `include_file` emits for a snippet that does not exist. */
  const NotExists := "NOT EXISTS"

  /** The error `include_resource` raises when called without an argument. */
  const MissingResourceArg := "A"

  /**
   * The error the `handlebars_helper!` wrapper raises when `include_file`
   * has no argument; the wording is a placeholder, only its being an error
   * matters.
   */
  const MissingFileArg := "include_file: missing parameter"

  /** `templates_dir/internal/files/<name>`. */
  function SnippetPath(templatesDir: Path, name: string): Path
  {
    Join(Join(templatesDir, "internal/files"), name)
  }

  /** How a JSON value is written into the output. */
  function RenderJson(v: Json): string
  {
    match v
    case JString(s) => s
    case JOther(t) => t
  }

  /**
   * `include_file(name)`: the verbatim text of the snippet, or `NOT EXISTS`
   * when nothing is at its path. A non-string argument and an unreadable
   * snippet (a directory, bytes that are not UTF-8) hit an `unwrap`.
   */
  function IncludeFile(disk: Disk, templatesDir: Path, params: seq<Json>): (r: HelperResult)
    ensures params == [] ==> r == Error(MissingFileArg)
    ensures params != [] && params[0].JOther? ==> r == Panic
    ensures params != [] && params[0].JString? && !Exists(disk, SnippetPath(templatesDir, params[0].s)) ==>
              r == Emit(NotExists)
    ensures params != [] && params[0].JString? && ReadToString(disk, SnippetPath(templatesDir, params[0].s)).Some? ==>
              r == Emit(ReadToString(disk, SnippetPath(templatesDir, params[0].s)).value)
    ensures params != [] && params[0].JString? && Exists(disk, SnippetPath(templatesDir, params[0].s))
              && ReadToString(disk, SnippetPath(templatesDir, params[0].s)).None? ==>
              r == Panic
  {
    if params == [] then Error(MissingFileArg)
    else match params[0]
      case JOther(_) => Panic
      case JString(name) =>
        var path := SnippetPath(templatesDir, name);
        if !Exists(disk, path) then Emit(NotExists)
        else match ReadToString(disk, path)
          case None => Panic
          case Some(text) => Emit(text)
  }

  /** `include_resource(x)`: the rendered argument followed by " pts"; an error without an argument. */
  function IncludeResource(params: seq<Json>): (r: HelperResult)
    ensures params == [] <==> r == Error(MissingResourceArg)
    ensures params != [] ==>
              && r.Emit? && |r.text| >= 4
              && r.text[|r.text| - 4..] == " pts"
              && r.text[..|r.text| - 4] == RenderJson(params[0])
  {
    if params == [] then Error(MissingResourceArg)
    else Emit(RenderJson(params[0]) + " pts")
  }

  /** A snippet written to the shared directory is what `include_file` then emits, byte for byte. */
  lemma IncludeFileReadsBackSnippet(disk: Disk, templatesDir: Path, name: string, text: string)
    requires WriteFile(disk, SnippetPath(templatesDir, name), text).Written?
    ensures IncludeFile(WriteFile(disk, SnippetPath(templatesDir, name), text).disk, templatesDir, [JString(name)])
            == Emit(text)
  {
  }

  /** An absolute snippet name replaces the shared directory: `include_file` reads that path itself. */
  lemma IncludeFileAbsoluteName(disk: Disk, templatesDir: Path, name: string)
    requires IsAbsolute(name)
    ensures IncludeFile(disk, templatesDir, [JString(name)]) == IncludeFile(disk, "", [JString(name)])
    ensures SnippetPath(templatesDir, name) == name
  {
  }

  /** The registry a render call is given. */
  datatype Registry =
    | PathRegistry                                     // for relative paths: no helpers
    | ContentRegistry(disk: Disk, templatesDir: Path)  // for file bodies: include_file and include_resource
  {
    /** The helper registered under `name`, applied to `params`. */
    function Call(name: string, params: seq<Json>): (r: Option<HelperResult>)
      ensures PathRegistry? ==> r == None
      ensures ContentRegistry? ==> (r.Some? <==> name == "include_file" || name == "include_resource")
      ensures ContentRegistry? && name == "include_file" ==> r == Some(IncludeFile(disk, templatesDir, params))
      ensures ContentRegistry? && name == "include_resource" ==> r == Some(IncludeResource(params))
    {
      match this
      case PathRegistry => None
      case ContentRegistry(disk, dir) =>
        if name == "include_file" then Some(IncludeFile(disk, dir, params))
        else if name == "include_resource" then Some(IncludeResource(params))
        else None
    }
  }

  datatype Rendered =
    | Rendered(text: string)
    | RenderError(desc: string)
    | HelperPanicked

  /** `Handlebars::render_template`, left abstract: template text, registry, context. */
  type Renderer = (string, Registry, map<string, string>) -> Rendered
}
