/**
 * The disk as the program sees it through `std::fs`: a map from path to
 * node. Directories are nodes of their own; a file holds either UTF-8 text
 * or bytes that `read_to_string` rejects.
 */
module FileSystem {
  import opened Wrappers
  import opened Paths

  datatype Content = Text(text: string) | NotUtf8

  datatype Node = File(content: Content) | Directory

  type Disk = map<Path, Node>

  /** `Path::is_file`. */
  predicate IsFile(disk: Disk, p: Path) {
    p in disk && disk[p].File?
  }

  /**
   * `Path::exists`: a key of the disk; a path ending in '/' exists when
   * the path before its trailing separators is the root or a directory.
   */
  predicate Exists(disk: Disk, p: Path) {
    || p in disk
    || (EndsInSeparator(p) && (TrimSeparators(p) == [] ||
                               (TrimSeparators(p) in disk && disk[TrimSeparators(p)].Directory?)))
  }

  /** `fs::read_to_string`: the text of a regular UTF-8 file, nothing otherwise. */
  function ReadToString(disk: Disk, p: Path): Option<string>
  {
    if IsFile(disk, p) && disk[p].content.Text? then Some(disk[p].content.text) else None
  }

  /** `p` without its trailing separators; `Path::parent` ignores them. */
  function TrimSeparators(p: Path): (r: Path)
    ensures r <= p && !EndsInSeparator(r)
    ensures !EndsInSeparator(p) ==> r == p
  {
    if EndsInSeparator(p) then TrimSeparators(p[..|p| - 1]) else p
  }

  /**
   * The directories `create_dir_all(p.parent())` must see or make: every
   * prefix of `p` that ends before one of its inner separators.
   */
  function Ancestors(p: Path): (r: set<Path>)
    ensures forall a :: a in r ==> a < p && p[|a|] == '/'
  {
    var t := TrimSeparators(p);
    set i | 0 < i < |t| && t[i] == '/' :: t[..i]
  }

  /**
   * `p` has a parent (it is not empty or all separators) and no ancestor
   * of `p` is a file, so `create_dir_all` of its parent succeeds.
   */
  predicate ParentsCreatable(disk: Disk, p: Path) {
    && TrimSeparators(p) != []
    && forall a :: a in Ancestors(p) && a in disk ==> disk[a].Directory?
  }

  datatype WriteResult =
    | Written(disk: Disk)
    | ParentBlocked          // `parent().unwrap()` or `create_dir_all` panicked
    | WriteRejected(disk: Disk) // fs::write failed after the parents were made: `p` is a directory or ends in '/'

  /** The disk with every missing ancestor of `p` made a directory. */
  function WithParents(disk: Disk, p: Path): Disk
  {
    map q | q in disk.Keys + Ancestors(p) :: if q in disk then disk[q] else Directory
  }

  /**
   * `fs::create_dir_all(p.parent().unwrap())` followed by `fs::write(p, text)`:
   * the missing ancestors become directories, an existing file at `p` is
   * replaced, and nothing else on the disk changes. A path ending in '/'
   * never names a file, so writing to it fails, as writing to a directory
   * does; the parents made before the failure stay.
   */
  function WriteFile(disk: Disk, p: Path, text: string): (r: WriteResult)
    ensures r.ParentBlocked? <==> !ParentsCreatable(disk, p)
    ensures r.WriteRejected? <==>
              ParentsCreatable(disk, p) && (EndsInSeparator(p) || (p in disk && disk[p].Directory?))
    ensures r.Written? ==> ReadToString(r.disk, p) == Some(text)
    ensures r.WriteRejected? ==> forall q :: q in disk ==> q in r.disk && r.disk[q] == disk[q]
    ensures !r.ParentBlocked? ==> forall q :: q in disk && q != p ==> q in r.disk && r.disk[q] == disk[q]
    ensures !r.ParentBlocked? ==> forall q :: q in r.disk && q !in disk ==> q == p || q in Ancestors(p)
    ensures !r.ParentBlocked? ==> forall a :: a in Ancestors(p) ==> a in r.disk && r.disk[a].Directory?
  {
    if !ParentsCreatable(disk, p) then ParentBlocked
    else if EndsInSeparator(p) || (p in disk && disk[p].Directory?) then WriteRejected(WithParents(disk, p))
    else Written(WithParents(disk, p)[p := File(Text(text))])
  }
}
