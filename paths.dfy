/**
 * The part of Rust's `std::path` (Unix flavour) that the staging code relies
 * on: splitting a path into components, the component-wise `starts_with`,
 * `file_name` and `join`.
 */
module Paths {
  import opened Injection

  /** A path component as Rust's `Path::components` yields it on Unix. */
  datatype Component = RootDir | CurDir | ParentDir | Normal(name: string)

  /** A name that `components` can yield as `Normal`. */
  predicate IsNormalName(s: string) {
    s != "" && s != "." && s != ".." && '/' !in s
  }

  /** No piece holds a separator. */
  predicate NoSeparators(pieces: seq<string>) {
    forall i :: 0 <= i < |pieces| ==> '/' !in pieces[i]
  }

  predicate IsAbsolute(path: string) {
    |path| > 0 && path[0] == '/'
  }

  /** The pieces of `s` between separators, empty pieces included. */
  function Split(s: string): (pieces: seq<string>)
    ensures |pieces| >= 1 && NoSeparators(pieces)
  {
    if s == [] then [""]
    else
      var rest := Split(s[1..]);
      if s[0] == '/' then [""] + rest
      else [[s[0]] + rest[0]] + rest[1..]
  }

  /** Puts the pieces back together with one separator between neighbours. */
  function Unsplit(pieces: seq<string>): string
    requires |pieces| >= 1
  {
    if |pieces| == 1 then pieces[0] else pieces[0] + "/" + Unsplit(pieces[1..])
  }

  /** What one piece contributes: empty pieces and `.` vanish, `..` is the parent. */
  function PieceComponents(piece: string): seq<Component> {
    if piece == "" || piece == "." then []
    else if piece == ".." then [ParentDir]
    else [Normal(piece)]
  }

  function Normals(pieces: seq<string>): (cs: seq<Component>)
    requires NoSeparators(pieces)
    ensures forall i :: 0 <= i < |cs| ==> cs[i] == ParentDir || (cs[i].Normal? && IsNormalName(cs[i].name))
  {
    if pieces == [] then []
    else PieceComponents(pieces[0]) + Normals(pieces[1..])
  }

  /**
   * `Path::components`: a leading separator gives `RootDir`, a leading `.`
   * piece of a relative path gives `CurDir`, and the rest is normalised
   * (repeated and trailing separators and inner `.` pieces disappear).
   */
  function Components(path: string): (cs: seq<Component>)
    ensures IsAbsolute(path) <==> |cs| > 0 && cs[0] == RootDir
    ensures forall i :: 0 <= i < |cs| && cs[i].Normal? ==> IsNormalName(cs[i].name)
  {
    if IsAbsolute(path) then [RootDir] + Normals(Split(path[1..]))
    else
      var pieces := Split(path);
      if pieces[0] == "." then [CurDir] + Normals(pieces[1..]) else Normals(pieces)
  }

  /**
   * `Path::starts_with`: the components of `base` are a prefix of those of
   * `path`. Every path starts with itself, and only an absolute path starts
   * with an absolute base.
   */
  predicate StartsWith(path: string, base: string): (b: bool)
    ensures path == base ==> b
    ensures b && IsAbsolute(base) ==> IsAbsolute(path)
  {
    var cp, cb := Components(path), Components(base);
    |cb| <= |cp| && cp[..|cb|] == cb
  }

  /** `Path::file_name`: the last component, when it is a normal name. */
  function FileName(path: string): (name: Option<string>)
    ensures name.Some? ==> IsNormalName(name.value)
  {
    var cs := Components(path);
    if |cs| > 0 && cs[|cs| - 1].Normal? then Some(cs[|cs| - 1].name) else None
  }

  /**
   * `Path::join` (`PathBuf::push`): an absolute `path` replaces `base`;
   * otherwise `path` is appended, after a separator unless `base` is empty or
   * already ends in one.
   */
  function Join(base: string, path: string): (joined: string)
    ensures IsAbsolute(path) ==> joined == path
    ensures !IsAbsolute(path) ==> |base| <= |joined| && joined[..|base|] == base
    ensures !IsAbsolute(path) ==> |path| <= |joined| && joined[|joined| - |path|..] == path
    ensures !IsAbsolute(path) ==> joined == base + path || joined == base + "/" + path
    ensures !IsAbsolute(path) ==> (joined == base + "/" + path <==> base != [] && base[|base| - 1] != '/')
    ensures |joined| <= |base| + |path| + 1
  {
    if IsAbsolute(path) then path
    else if |base| > 0 && base[|base| - 1] != '/' then base + "/" + path
    else base + path
  }

  // ---------------------------------------------------------------------------
  // Splitting

  /** Splitting and re-joining gives the path back. */
  lemma {:induction false} UnsplitSplit(s: string)
    ensures Unsplit(Split(s)) == s
  {
    if s != [] {
      UnsplitSplit(s[1..]);
      var rest := Split(s[1..]);
      if s[0] == '/' {
        assert Split(s)[1..] == rest;
        assert s == [s[0]] + s[1..];
      } else if |rest| == 1 {
        assert s == [s[0]] + s[1..];
      } else {
        assert Split(s)[1..] == rest[1..];
        assert s == [s[0]] + s[1..];
      }
    }
  }

  /** Joining pieces that hold no separator and splitting again gives the pieces back. */
  lemma {:induction false} SplitUnsplit(pieces: seq<string>)
    requires |pieces| >= 1 && NoSeparators(pieces)
    ensures Split(Unsplit(pieces)) == pieces
  {
    if |pieces| == 1 {
      SplitWithoutSeparator(pieces[0]);
    } else {
      SplitUnsplit(pieces[1..]);
      SplitAppend(pieces[0], Unsplit(pieces[1..]));
      SplitWithoutSeparator(pieces[0]);
      assert pieces == [pieces[0]] + pieces[1..];
    }
  }

  /** A string without separators is one piece. */
  lemma {:induction false} SplitWithoutSeparator(s: string)
    requires '/' !in s
    ensures Split(s) == [s]
  {
    if s != [] {
      assert '/' !in s[1..] by {
        forall i | 0 <= i < |s| - 1 ensures s[1..][i] != '/' {
          assert s[1..][i] == s[i + 1];
        }
      }
      SplitWithoutSeparator(s[1..]);
      assert s == [s[0]] + s[1..];
    }
  }

  /** A separator between two strings splits their pieces apart. */
  lemma {:induction false} SplitAppend(a: string, b: string)
    ensures Split(a + "/" + b) == Split(a) + Split(b)
  {
    var s := a + "/" + b;
    if a == [] {
      assert s[0] == '/' && s[1..] == b;
    } else {
      assert s[0] == a[0] && s[1..] == a[1..] + "/" + b;
      SplitAppend(a[1..], b);
      var rest := Split(s[1..]);
      assert rest == Split(a[1..]) + Split(b);
      if a[0] != '/' {
        assert rest[0] == Split(a[1..])[0];
        assert rest[1..] == Split(a[1..])[1..] + Split(b);
      }
    }
  }

  lemma {:induction false} NormalsAppend(xs: seq<string>, ys: seq<string>)
    requires NoSeparators(xs) && NoSeparators(ys)
    ensures Normals(xs + ys) == Normals(xs) + Normals(ys)
  {
    if xs == [] {
      assert xs + ys == ys;
    } else {
      assert (xs + ys)[0] == xs[0] && (xs + ys)[1..] == xs[1..] + ys;
      NormalsAppend(xs[1..], ys);
    }
  }

  // ---------------------------------------------------------------------------
  // Children of an absolute directory

  /** Everything below an absolute directory keeps the directory's components as a prefix. */
  lemma ComponentsOfChild(base: string, rest: string)
    requires IsAbsolute(base)
    ensures Components(base + "/" + rest) == Components(base) + Normals(Split(rest))
  {
    var child := base + "/" + rest;
    assert IsAbsolute(child) && child[1..] == base[1..] + "/" + rest;
    SplitAppend(base[1..], rest);
    NormalsAppend(Split(base[1..]), Split(rest));
  }

  /** `starts_with` holds for every path nested below `base`, however deep. */
  lemma ChildStartsWith(base: string, rest: string)
    requires IsAbsolute(base)
    ensures StartsWith(base + "/" + rest, base)
  {
    ComponentsOfChild(base, rest);
    var cb := Components(base);
    assert (cb + Normals(Split(rest)))[..|cb|] == cb;
  }

  /** One normal name below an absolute directory adds exactly one component. */
  lemma ComponentsOfName(base: string, name: string)
    requires IsAbsolute(base) && IsNormalName(name)
    ensures Components(base + "/" + name) == Components(base) + [Normal(name)]
  {
    ComponentsOfChild(base, name);
    SplitWithoutSeparator(name);
    assert Normals([name]) == [Normal(name)] by {
      assert [name][1..] == [];
    }
  }

  /**
   * Joining a normal name onto an absolute directory gives a path directly
   * inside that directory whose file name is that name.
   */
  lemma JoinName(base: string, name: string)
    requires IsAbsolute(base) && base[|base| - 1] != '/' && IsNormalName(name)
    ensures Join(base, name) == base + "/" + name
    ensures Components(Join(base, name)) == Components(base) + [Normal(name)]
    ensures FileName(Join(base, name)) == Some(name)
    ensures StartsWith(Join(base, name), base)
  {
    assert !IsAbsolute(name) by { assert name[0] in name; }
    ComponentsOfName(base, name);
    var cb := Components(base);
    assert (cb + [Normal(name)])[..|cb|] == cb;
  }

  /** The root directory is a single component and has no file name. */
  lemma RootComponents()
    ensures Components("/") == [RootDir]
    ensures FileName("/") == None
  {
    assert "/"[1..] == "";
    assert Split("") == [""];
  }

  /** The root directory is not inside any absolute path that ends in a name. */
  lemma RootIsNotInside(dir: string)
    requires IsAbsolute(dir) && FileName(dir).Some?
    ensures !StartsWith("/", dir)
  {
    RootComponents();
    var cd := Components(dir);
    assert cd[0] == RootDir && cd[|cd| - 1].Normal?;
  }

  /** `starts_with` is transitive: a path inside `mid`, itself inside `base`, is inside `base`. */
  lemma StartsWithTransitive(path: string, mid: string, base: string)
    requires StartsWith(path, mid) && StartsWith(mid, base)
    ensures StartsWith(path, base)
  {
    var cp, cm, cb := Components(path), Components(mid), Components(base);
    assert cp[..|cb|] == cp[..|cm|][..|cb|];
  }

  /**
   * `starts_with` compares whole components: a path whose component below
   * `base` is `name` is not inside `base/other` when the names differ, even
   * when one name is a prefix of the other.
   */
  lemma SiblingIsNotInside(path: string, base: string, name: string, other: string, rest: string)
    requires IsAbsolute(base) && IsNormalName(name) && IsNormalName(other) && name != other
    requires path == base + "/" + name + "/" + rest
    ensures !StartsWith(path, base + "/" + other)
  {
    var cb := Components(base);
    ComponentsOfName(base, name);
    ComponentsOfChild(base + "/" + name, rest);
    ComponentsOfName(base, other);
    assert Components(path)[|cb|] == Normal(name);
    assert Components(base + "/" + other)[|cb|] == Normal(other);
  }

  /** The file name of a normal name below an absolute directory is that name. */
  lemma FileNameOfChild(path: string, base: string, name: string)
    requires IsAbsolute(base) && IsNormalName(name) && path == base + "/" + name
    ensures FileName(path) == Some(name)
  {
    ComponentsOfName(base, name);
  }
}
