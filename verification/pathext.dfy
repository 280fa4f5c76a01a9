/**
  The extension of a path, as Go's `filepath.Ext` computes it on a system whose
  only path separator is `/` (Unix; on Windows Go also stops at `\`, which is
  not modelled): the suffix starting at the last `.` of the final path
  element, or the empty string when that element has no `.`.

  Go scans bytes; both `.` and `/` are ASCII, and no byte of a multi-byte UTF-8
  encoding equals an ASCII byte, so scanning characters finds the same positions.
 */
module PathExt {

  const Separator: char := '/'
  const Dot: char := '.'

  /** Position `k` lies in the final element of `path`: no separator at or after it. */
  ghost predicate InFinalElement(path: string, k: int) {
    0 <= k < |path| && forall j :: k <= j < |path| ==> path[j] != Separator
  }

  /**
    Reference definition of "`e` is the extension of `path`": either the final
    element has no dot and `e` is empty, or `e` is the suffix starting at a dot
    of the final element after which no other dot follows.
   */
  ghost predicate IsExtensionOf(path: string, e: string) {
    if e == [] then
      forall k :: InFinalElement(path, k) ==> path[k] != Dot
    else
      exists i :: && InFinalElement(path, i)
                  && path[i] == Dot
                  && e == path[i..]
                  && forall j :: i < j < |path| ==> path[j] != Dot
  }

  /**
    The backwards scan of `filepath.Ext`, at index `i`: every character after `i`
    has already been seen to be neither a dot nor a separator.
   */
  function ExtFrom(path: string, i: int): (e: string)
    requires -1 <= i < |path|
    requires forall j :: i < j < |path| ==> path[j] != Dot && path[j] != Separator
    ensures IsExtensionOf(path, e)
    decreases i + 1
  {
    if i < 0 || path[i] == Separator then
      assert forall k :: InFinalElement(path, k) ==> k > i;
      []
    else if path[i] == Dot then
      assert InFinalElement(path, i);
      path[i..]
    else
      ExtFrom(path, i - 1)
  }

  /** `filepath.Ext(path)`. */
  function Ext(path: string): (e: string)
    ensures IsExtensionOf(path, e)
  {
    ExtFrom(path, |path| - 1)
  }

  /** A path has at most one extension in the sense of the reference definition. */
  lemma ExtensionUnique(path: string, e1: string, e2: string)
    requires IsExtensionOf(path, e1) && IsExtensionOf(path, e2)
    ensures e1 == e2
  {
  }

  /** `Ext` computes exactly the reference extension, in both directions. */
  lemma ExtCharacterized(path: string, e: string)
    ensures Ext(path) == e <==> IsExtensionOf(path, e)
  {
  }

  /**
    Shape of an extension: a suffix of the path that is empty or starts with the
    only dot it contains and holds no separator.
   */
  lemma ExtShape(path: string)
    ensures |Ext(path)| <= |path|
    ensures Ext(path) == path[|path| - |Ext(path)|..]
    ensures Ext(path) != [] ==> Ext(path)[0] == Dot
    ensures forall k :: 0 < k < |Ext(path)| ==> Ext(path)[k] != Dot && Ext(path)[k] != Separator
  {
  }

  /**
    Appending a dot followed by dot-free, separator-free characters to any stem
    makes that suffix the extension.
   */
  lemma ExtOfSuffix(stem: string, e: string)
    requires e != [] && e[0] == Dot
    requires forall k :: 0 < k < |e| ==> e[k] != Dot && e[k] != Separator
    ensures Ext(stem + e) == e
  {
    var p := stem + e;
    var i := |stem|;
    forall j | i <= j < |p|
      ensures p[j] != Separator
    {
      assert p[j] == e[j - i];
    }
    forall j | i < j < |p|
      ensures p[j] != Dot
    {
      assert p[j] == e[j - i];
    }
    assert InFinalElement(p, i);
    assert p[i..] == e;
    assert IsExtensionOf(p, e);
    ExtCharacterized(p, e);
  }

  /** A path whose final element has no dot has no extension. */
  lemma ExtOfDotless(stem: string, name: string)
    requires forall k :: 0 <= k < |name| ==> name[k] != Dot && name[k] != Separator
    requires stem == [] || stem[|stem| - 1] == Separator
    ensures Ext(stem + name) == []
  {
    var p := stem + name;
    if stem != [] {
      assert p[|stem| - 1] == Separator;
    }
    forall k | InFinalElement(p, k)
      ensures p[k] != Dot
    {
      assert k >= |stem|;
      assert p[k] == name[k - |stem|];
    }
    assert IsExtensionOf(p, []);
    ExtCharacterized(p, []);
  }

}
