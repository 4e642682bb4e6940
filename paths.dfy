/**
 * Unix paths as `std::path::PathBuf` treats them, on plain strings with '/'
 * separators. Nothing is normalised: `..`, `.` and repeated separators stay
 * in the string, exactly as the program's `join` calls leave them.
 */
module Paths {
  import opened Wrappers

  type Path = string

  predicate IsAbsolute(p: Path) {
    |p| > 0 && p[0] == '/'
  }

  /**
   * `PathBuf::from(base).join(part)`: an absolute `part` replaces `base`;
   * otherwise `part` is appended after a '/' unless `base` is empty or
   * already ends with one.
   */
  function Join(base: Path, part: Path): (r: Path)
    ensures IsAbsolute(part) ==> r == part
    ensures !IsAbsolute(part) ==> base <= r && |base| + |part| <= |r| <= |base| + 1 + |part|
    ensures !IsAbsolute(part) ==> r[|r| - |part|..] == part
  {
    if IsAbsolute(part) then part
    else if base == [] || base[|base| - 1] == '/' then base + part
    else base + "/" + part
  }

  /** Index of the first '/' in `p`. */
  function FirstSlash(p: string): (i: nat)
    requires '/' in p
    ensures i < |p| && p[i] == '/' && '/' !in p[..i]
  {
    if p[0] == '/' then 0 else 1 + FirstSlash(p[1..])
  }

  /** The first '/' of `p` is the one that has no '/' before it. */
  lemma {:induction false} FirstSlashIs(p: string, i: nat)
    requires i < |p| && p[i] == '/' && '/' !in p[..i]
    ensures FirstSlash(p) == i
  {
    if i > 0 {
      assert p[0] == p[..i][0];
      assert p[1..][..i - 1] == p[..i][1..];
      FirstSlashIs(p[1..], i - 1);
    }
  }

  /** The '/'-separated segments of `p`, empty ones included. */
  function Split(p: string): (r: seq<string>)
    ensures |r| > 0
    ensures forall k :: 0 <= k < |r| ==> '/' !in r[k]
    decreases |p|
  {
    if '/' !in p then [p]
    else
      var i := FirstSlash(p);
      [p[..i]] + Split(p[i + 1..])
  }

  /** The segments `parts` joined by '/'; the walker's relative path of an entry. */
  function Unsplit(parts: seq<string>): string
  {
    if parts == [] then ""
    else if |parts| == 1 then parts[0]
    else parts[0] + "/" + Unsplit(parts[1..])
  }

  lemma {:induction false} SplitThenUnsplit(p: string)
    ensures Unsplit(Split(p)) == p
    decreases |p|
  {
    if '/' in p {
      var i := FirstSlash(p);
      SplitThenUnsplit(p[i + 1..]);
      assert p == p[..i] + "/" + p[i + 1..];
    }
  }

  lemma {:induction false} UnsplitThenSplit(parts: seq<string>)
    requires |parts| > 0
    requires forall k :: 0 <= k < |parts| ==> '/' !in parts[k]
    ensures Split(Unsplit(parts)) == parts
  {
    if |parts| > 1 {
      var p := Unsplit(parts);
      var rest := Unsplit(parts[1..]);
      assert p == parts[0] + "/" + rest;
      assert p[|parts[0]|] == '/';
      assert p[..|parts[0]|] == parts[0];
      FirstSlashIs(p, |parts[0]|);
      var i := |parts[0]|;
      assert p[i + 1..] == rest;
      UnsplitThenSplit(parts[1..]);
    }
  }

  /** Splitting `x + "/" + y` splits `x` and `y` apart at that '/'. */
  lemma {:induction false} SplitConcat(x: string, y: string)
    ensures Split(x + "/" + y) == Split(x) + Split(y)
    decreases |x|
  {
    var p := x + "/" + y;
    assert p[..|x|] == x && p[|x|] == '/' && p[|x| + 1..] == y;
    if '/' !in x {
      FirstSlashIs(p, |x|);
      assert Split(p) == [x] + Split(y);
    } else {
      var j := FirstSlash(x);
      assert p[..j] == x[..j];
      FirstSlashIs(p, j);
      assert p[j + 1..] == x[j + 1..] + "/" + y;
      SplitConcat(x[j + 1..], y);
      assert Split(p) == [x[..j]] + Split(p[j + 1..]);
      assert Split(x) == [x[..j]] + Split(x[j + 1..]);
    }
  }

  /** A segment of the part of `s` before a '/' is a segment of `s`. */
  lemma SplitPrefix(s: string, k: nat, seg: string)
    requires k < |s| && s[k] == '/'
    requires seg in Split(s[..k])
    ensures seg in Split(s)
  {
    assert s == s[..k] + "/" + s[k + 1..];
    SplitConcat(s[..k], s[k + 1..]);
  }

  predicate EndsInSeparator(p: Path) {
    |p| > 0 && p[|p| - 1] == '/'
  }

  /**
   * The names a path's segments lead to, read lexically: empty and `.`
   * segments name nothing, and `..` cancels the name before it.
   */
  function Resolve(segments: seq<string>): seq<string>
  {
    if segments == [] then []
    else
      var init := Resolve(segments[..|segments| - 1]);
      var last := segments[|segments| - 1];
      if last == "" || last == "." then init
      else if last == ".." then (if init == [] then [] else init[..|init| - 1])
      else init + [last]
  }

  /** Segments without `..` only add names: resolving `a + b` is resolving `a`, then `b`. */
  lemma {:induction false} ResolveAppend(a: seq<string>, b: seq<string>)
    requires ".." !in b
    ensures Resolve(a + b) == Resolve(a) + Resolve(b)
    decreases |b|
  {
    if b == [] {
      assert a + b == a;
    } else {
      var init := b[..|b| - 1];
      assert (a + b)[..|a + b| - 1] == a + init;
      assert (a + b)[|a + b| - 1] == b[|b| - 1];
      ResolveAppend(a, init);
    }
  }

  /**
   * `q` is `base` itself or lies below it: `base` is empty or followed by
   * a separator, and no `..` segment in the rest climbs back out.
   */
  predicate Within(base: Path, q: Path) {
    && base <= q
    && (base == [] || |q| == |base| || q[|base|] == '/' || EndsInSeparator(base))
    && ".." !in Split(q[|base|..])
  }

  /** `q` is a directory above `base`: a prefix of it that ends before one of its separators. */
  predicate Above(base: Path, q: Path) {
    q < base && base[|q|] == '/'
  }

  /** What lies within `base` resolves to names that extend the names of `base`. */
  lemma WithinResolves(base: Path, q: Path)
    requires Within(base, q)
    ensures Resolve(Split(base)) <= Resolve(Split(q))
  {
    if |q| == |base| {
      assert q == base;
    } else if base == [] {
      assert Resolve(Split(base)) == [] by { assert Split(base) == [""]; }
    } else if EndsInSeparator(base) {
      ResolveBelowSeparator(base, q);
    } else {
      ResolveBelowName(base, q);
    }
  }

  /** `q` continues a `base` that ends in '/'. */
  lemma ResolveBelowSeparator(base: Path, q: Path)
    requires Within(base, q) && EndsInSeparator(base)
    ensures Resolve(Split(base)) <= Resolve(Split(q))
  {
    var b := base[..|base| - 1];
    var rest := q[|base|..];
    assert base == b + "/" + "";
    SplitConcat(b, "");
    var segs := Split(b) + [""];
    assert Split(base) == segs;
    assert segs[..|segs| - 1] == Split(b);
    assert Resolve(Split(base)) == Resolve(Split(b));
    assert q == b + "/" + rest;
    SplitConcat(b, rest);
    ResolveAppend(Split(b), Split(rest));
  }

  /** `q` continues `base` after a '/'. */
  lemma ResolveBelowName(base: Path, q: Path)
    requires Within(base, q) && |q| > |base| && q[|base|] == '/'
    ensures Resolve(Split(base)) <= Resolve(Split(q))
  {
    var rest := q[|base| + 1..];
    assert q == base + "/" + rest;
    SplitConcat(base, rest);
    assert q[|base|..] == "/" + rest;
    SplitRooted(rest);
    assert Split(q[|base|..]) == [""] + Split(rest);
    assert ".." !in Split(rest);
    ResolveAppend(Split(base), Split(rest));
  }

  /**
   * A relative path without `..` segments joined onto `base` lies within
   * `base`.
   */
  lemma JoinWithin(base: Path, rel: Path)
    requires !IsAbsolute(rel) && ".." !in Split(rel)
    ensures Within(base, Join(base, rel))
  {
    var q := Join(base, rel);
    if base == [] || base[|base| - 1] == '/' {
      assert q[|base|..] == rel;
    } else {
      assert q[|base|..] == "" + "/" + rel;
      SplitConcat("", rel);
    }
  }

  /** The segments that `Path::components` reports as normal names or `..`. */
  function Components(segments: seq<string>): seq<string>
  {
    if segments == [] then []
    else
      var last := segments[|segments| - 1];
      Components(segments[..|segments| - 1]) + (if last == "" || last == "." then [] else [last])
  }

  /**
   * `Path::file_name`: the last component, unless the path has none or ends
   * in `..`.
   */
  function FileName(p: Path): Option<string>
  {
    var comps := Components(Split(p));
    if comps == [] || comps[|comps| - 1] == ".." then None else Some(comps[|comps| - 1])
  }

  /** A single path segment that `file_name` reports as itself. */
  predicate IsPlainName(name: string) {
    name != "" && name != "." && name != ".." && '/' !in name
  }

  /** Joining a plain name onto any directory gives a path named by it. */
  lemma FileNameOfJoin(dir: Path, name: string)
    requires IsPlainName(name)
    ensures FileName(Join(dir, name)) == Some(name)
  {
    var p := Join(dir, name);
    if dir == [] {
      assert p == name;
      assert Split(p) == [name];
      assert Components([name]) == Components([name][..0]) + [name];
    } else {
      var x := if dir[|dir| - 1] == '/' then dir[..|dir| - 1] else dir;
      assert p == x + "/" + name;
      SplitConcat(x, name);
      var segs := Split(x) + [name];
      assert segs[..|segs| - 1] == Split(x);
    }
  }

  /** A trailing '/' does not change what `file_name` reports. */
  lemma FileNameTrailingSlash(p: Path)
    ensures FileName(p + "/") == FileName(p)
  {
    assert p + "/" == p + "/" + "";
    SplitConcat(p, "");
    var segs := Split(p) + [""];
    assert segs[..|segs| - 1] == Split(p);
  }

  /** A leading '/' adds one empty segment. */
  lemma SplitRooted(p: string)
    ensures Split("/" + p) == [""] + Split(p)
  {
    assert "/" + p == "" + "/" + p;
    SplitConcat("", p);
  }

  /**
   * `base/../name` read lexically names `name` beside the last name of
   * `base`: it does not extend `base`'s names and is not within `base`.
   */
  lemma DotDotClimbs(base: Path, name: string, above: seq<string>, last: string)
    requires base != [] && !EndsInSeparator(base)
    requires IsPlainName(name) && Resolve(Split(base)) == above + [last] && last != name
    ensures Resolve(Split(base + "/" + (".." + "/" + name))) == above + [name]
    ensures !(Resolve(Split(base)) <= Resolve(Split(base + "/" + (".." + "/" + name))))
    ensures !Within(base, base + "/" + (".." + "/" + name))
  {
    var rel := ".." + "/" + name;
    DotDotSegments(name);
    SplitConcat(base, rel);
    ResolveClimb(Split(base), name, above, last);
    assert (above + [last])[|above|] != (above + [name])[|above|];
    DotDotNotWithin(base, rel);
  }

  /** A `..` segment right after `base` leaves `base`. */
  lemma DotDotNotWithin(base: Path, rel: string)
    requires ".." in Split(rel)
    ensures !Within(base, base + "/" + rel)
  {
    var path := base + "/" + rel;
    var tail := path[|base|..];
    assert tail == "/" + rel;
    SplitRooted(rel);
    assert Split(tail) == [""] + Split(rel);
    assert ".." in Split(tail);
  }

  /** `..` cancels the last name, and the name after it takes its place. */
  lemma ResolveClimb(segs: seq<string>, name: string, above: seq<string>, last: string)
    requires IsPlainName(name) && Resolve(segs) == above + [last]
    ensures Resolve(segs + ["..", name]) == above + [name]
  {
    var all := segs + ["..", name];
    assert all[..|all| - 1] == segs + [".."];
    assert (segs + [".."])[..|segs|] == segs;
    assert (above + [last])[..|above|] == above;
    assert Resolve(segs + [".."]) == above;
  }

  lemma DotDotSegments(name: string)
    requires IsPlainName(name)
    ensures Split(".." + "/" + name) == ["..", name]
  {
    assert Split("..") == [".."];
    assert Split(name) == [name];
    SplitConcat("..", name);
  }
}
