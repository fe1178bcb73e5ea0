/**
 * The two functions of Node's POSIX `path` module the program relies on for
 * file names: `basename(p, suffix)` and `extname(p)`, following Node's
 * right-to-left scanning algorithm (trailing slashes ignored).
 */
module NodePath {
  import opened Strings


  /** `p` without its trailing run of `/`. */
  function StripTrailingSlashes(p: string): (r: string)
    ensures StartsWith(p, r)
    ensures r == [] || r[|r| - 1] != '/'
    ensures forall i :: |r| <= i < |p| ==> p[i] == '/'
    decreases |p|
  {
    if |p| > 0 && p[|p| - 1] == '/' then
      var r := StripTrailingSlashes(p[..|p| - 1]);
      assert p[..|p| - 1][..|r|] == p[..|r|];
      r
    else p
  }

  /** The last path component: what `basename` works on. */
  function LastComponent(p: string): (c: string)
    ensures NoneIn(c, Slash)
  {
    LastSegment(StripTrailingSlashes(p), Slash)
  }

  /**
   * `path.basename(p, suffix)`: the last component, with `suffix` removed when
   * the component ends with it and is longer than it.
   */
  function Basename(p: string, suffix: string): (r: string)
  {
    if 0 < |suffix| <= |p| && suffix == p then ""
    else
      var c := LastComponent(p);
      if 0 < |suffix| <= |p| && |suffix| < |c| && EndsWith(c, suffix) then c[..|c| - |suffix|]
      else c
  }

  /**
   * `path.extname(p)`: from the last `.` of the last component to its end;
   * empty when there is no dot, when the only dot leads the component, or when
   * the component is `..`.
   */
  function Extname(p: string): (r: string)
    ensures r == [] || (r[0] == '.' && NoneIn(r[1..], Dot) && NoneIn(r, Slash))
    ensures r != [] ==> EndsWith(LastComponent(p), r) && |r| < |LastComponent(p)|
  {
    ComponentExtname(LastComponent(p))
  }

  /** The extension of one path component `c` (no `/` in it). */
  function ComponentExtname(c: string): (r: string)
    requires NoneIn(c, Slash)
    ensures r == [] || (r[0] == '.' && NoneIn(r[1..], Dot) && NoneIn(r, Slash))
    ensures r != [] ==> EndsWith(c, r) && |r| < |c|
  {
    var seg := LastSegment(c, Dot);
    if |seg| == |c| || |seg| == |c| - 1 || c == ".." then ""
    else
      var r := c[|c| - |seg| - 1..];
      assert r[1..] == seg;
      r
  }

  /** The extension without its dot: `extname(p).slice(1)`. */
  function ExtensionOf(p: string): (e: string)
    ensures NoneIn(e, Dot) && NoneIn(e, Slash)
  {
    var x := Extname(p);
    if |x| == 0 then "" else x[1..]
  }

  /** A path not ending in `/` has no trailing slashes to strip. */
  lemma NoTrailingSlash(p: string)
    requires |p| > 0 && p[|p| - 1] != '/'
    ensures StripTrailingSlashes(p) == p
  {
  }

  /** A separator-free, non-empty name after a directory prefix is the last component. */
  lemma LastComponentAfterDir(dir: string, c: string)
    requires dir == [] || dir[|dir| - 1] == '/'
    requires |c| > 0 && NoneIn(c, Slash)
    ensures LastComponent(dir + c) == c
  {
    var p := dir + c;
    assert p[|p| - 1] == c[|c| - 1];
    NoTrailingSlash(p);
    assert p[|p| - |c|..] == c;
    assert |c| == |p| || p[|p| - |c| - 1] == dir[|dir| - 1];
    LastSegmentIs(p, Slash, c);
  }

  lemma DottedName(stem: string, ext: string)
    requires |stem| > 0 && NoneIn(stem, Slash)
    requires NoneIn(ext, Dot) && NoneIn(ext, Slash) && |ext| > 0
    ensures NoneIn(stem + "." + ext, Slash)
    ensures LastSegment(stem + "." + ext, Dot) == ext
  {
    var c := stem + "." + ext;
    forall j | 0 <= j < |c| ensures c[j] !in Slash {
      if j < |stem| { assert c[j] == stem[j]; }
      else if j > |stem| { assert c[j] == ext[j - |stem| - 1]; }
    }
    assert c[|c| - |ext|..] == ext;
    assert c[|c| - |ext| - 1] == '.';
    LastSegmentUnique(c, Dot, LastSegment(c, Dot), ext);
  }

  /** A component whose last dot has a non-empty stem before it and a non-empty extension after it. */
  lemma ComponentExtnameOf(c: string, ext: string)
    requires NoneIn(c, Slash)
    requires LastSegment(c, Dot) == ext
    requires 0 < |ext| && |ext| + 2 <= |c|
    ensures |ComponentExtname(c)| > 0 && ComponentExtname(c)[1..] == ext
  {
    assert c != "..";
    var x := c[|c| - |ext| - 1..];
    assert x[1..] == c[|c| - |ext|..];
  }

  lemma ExtensionFromComponent(p: string, ext: string)
    requires LastSegment(LastComponent(p), Dot) == ext
    requires 0 < |ext| && |ext| + 2 <= |LastComponent(p)|
    ensures ExtensionOf(p) == ext
  {
    ComponentExtnameOf(LastComponent(p), ext);
  }

  /** For `p` whose last component `stem + "." + ext` has a non-empty stem, the extension is `ext`. */
  lemma ExtensionOfDotted(dir: string, stem: string, ext: string)
    requires dir == [] || dir[|dir| - 1] == '/'
    requires |stem| > 0 && NoneIn(stem, Slash)
    requires NoneIn(ext, Dot) && NoneIn(ext, Slash) && |ext| > 0
    ensures ExtensionOf(dir + stem + "." + ext) == ext
  {
    var c := stem + "." + ext;
    assert dir + stem + "." + ext == dir + c;
    DottedName(stem, ext);
    LastComponentAfterDir(dir, c);
    ExtensionFromComponent(dir + c, ext);
  }

  /** The extension of a bare `stem.ext` name. */
  lemma ExtensionOfPlainName(stem: string, ext: string)
    requires |stem| > 0 && NoneIn(stem, Slash)
    requires NoneIn(ext, Dot) && NoneIn(ext, Slash) && |ext| > 0
    ensures ExtensionOf(stem + "." + ext) == ext
  {
    var c := stem + "." + ext;
    DottedName(stem, ext);
    LastComponentAfterDir([], c);
    assert [] + c == c;
    ExtensionFromComponent(c, ext);
  }

  /** A name without any dot has no extension. */
  lemma DotlessNameHasNoExtension(name: string)
    requires |name| > 0 && NoneIn(name, Slash) && NoneIn(name, Dot)
    ensures ExtensionOf(name) == ""
  {
    LastComponentAfterDir([], name);
    assert [] + name == name;
    LastSegmentUnique(name, Dot, LastSegment(name, Dot), name);
  }

  /** When the last component ends with a shorter suffix, `basename` strips it. */
  lemma BasenameOfComponent(p: string, suffix: string)
    requires 0 < |suffix| < |LastComponent(p)|
    requires EndsWith(LastComponent(p), suffix)
    ensures Basename(p, suffix) == LastComponent(p)[..|LastComponent(p)| - |suffix|]
  {
    assert |LastComponent(p)| <= |p|;
  }

  /** `basename(dir + stem + suffix, suffix)` is `stem` for a plain, non-empty stem. */
  lemma BasenameStripsSuffix(dir: string, stem: string, suffix: string)
    requires dir == [] || dir[|dir| - 1] == '/'
    requires |stem| > 0 && NoneIn(stem, Slash)
    requires |suffix| > 0 && NoneIn(suffix, Slash)
    ensures Basename(dir + stem + suffix, suffix) == stem
  {
    var c := stem + suffix;
    assert dir + stem + suffix == dir + c;
    NoneInAppend(stem, suffix, Slash);
    LastComponentAfterDir(dir, c);
    assert c[|c| - |suffix|..] == suffix;
    BasenameOfComponent(dir + c, suffix);
    assert c[..|c| - |suffix|] == stem;
  }

  // ---------------------------------------------------------------------------
  // Lowercasing commutes with the path functions: it keeps lengths and never
  // produces or removes a `/` or a `.`.
  // ---------------------------------------------------------------------------

  lemma {:induction false} StripTrailingSlashesLower(p: string)
    ensures StripTrailingSlashes(Lower(p)) == Lower(StripTrailingSlashes(p))
    decreases |p|
  {
    if |p| > 0 {
      var q := Lower(p);
      assert q[|q| - 1] == LowerChar(p[|p| - 1]);
      if p[|p| - 1] == '/' {
        assert q[..|q| - 1] == Lower(p[..|p| - 1]);
        StripTrailingSlashesLower(p[..|p| - 1]);
      }
    }
  }

  lemma LastComponentLower(p: string)
    ensures LastComponent(Lower(p)) == Lower(LastComponent(p))
  {
    StripTrailingSlashesLower(p);
    LastSegmentLower(StripTrailingSlashes(p), Slash);
  }

  lemma ExtnameLower(p: string)
    ensures Extname(Lower(p)) == Lower(Extname(p))
  {
    LastComponentLower(p);
    ComponentExtnameLower(LastComponent(p));
  }

  lemma ComponentExtnameLower(c: string)
    requires NoneIn(c, Slash)
    ensures NoneIn(Lower(c), Slash)
    ensures ComponentExtname(Lower(c)) == Lower(ComponentExtname(c))
  {
    var lc := Lower(c);
    assert NoneIn(lc, Slash) by {
      forall j | 0 <= j < |lc| ensures lc[j] !in Slash {
        assert lc[j] == LowerChar(c[j]);
      }
    }
    LastSegmentLower(c, Dot);
    var seg := LastSegment(c, Dot);
    assert |LastSegment(lc, Dot)| == |seg|;
    assert lc == ".." <==> c == ".." by {
      if lc == ".." {
        assert LowerChar(c[0]) == '.' && LowerChar(c[1]) == '.';
        assert c == [c[0], c[1]];
      }
    }
    if !(|seg| == |c| || |seg| == |c| - 1 || c == "..") {
      assert lc[|c| - |seg| - 1..] == Lower(c[|c| - |seg| - 1..]);
    }
  }

  /** `X.PY` and `x.py` have the same extension once lowercased. */
  lemma ExtensionOfLower(p: string)
    ensures ExtensionOf(Lower(p)) == Lower(ExtensionOf(p))
  {
    ExtnameLower(p);
    var x := Extname(p);
    if |x| > 0 {
      LowerDrop(x, 1);
    }
  }
}
