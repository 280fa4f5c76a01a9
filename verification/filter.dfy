/**
  The extension allow-list test applied to every newly created file
  (`isSupportedFile`): a path qualifies when its `filepath.Ext` extension
  case-insensitively equals one of the configured extensions.
 */
module Filter {
  import opened PathExt
  import opened Fold

  /** Reference: some configured extension matches the path's extension. */
  predicate Supported(exts: seq<string>, path: string) {
    exists k | 0 <= k < |exts| :: EqualFold(Ext(path), exts[k])
  }

  /**
    Reference, independent of the scan and of the fold loop: the path has an
    extension in the sense of `IsExtensionOf` that lower-cases to the same
    string as some configured extension.
   */
  ghost predicate MatchesAllowList(exts: seq<string>, path: string) {
    exists e :: IsExtensionOf(path, e) && exists k :: 0 <= k < |exts| && Lower(e) == Lower(exts[k])
  }

  /** `Supported` agrees with the reference, in both directions. */
  lemma SupportedIffMatchesAllowList(exts: seq<string>, path: string)
    ensures Supported(exts, path) <==> MatchesAllowList(exts, path)
  {
    if Supported(exts, path) {
      var k :| 0 <= k < |exts| && EqualFold(Ext(path), exts[k]);
      EqualFoldIffSameLower(Ext(path), exts[k]);
    }
    if MatchesAllowList(exts, path) {
      var e :| IsExtensionOf(path, e) && exists k :: 0 <= k < |exts| && Lower(e) == Lower(exts[k]);
      var k :| 0 <= k < |exts| && Lower(e) == Lower(exts[k]);
      ExtCharacterized(path, e);
      EqualFoldIffSameLower(e, exts[k]);
    }
  }

  /** The source's loop: compare against each configured extension in turn, stopping at the first match. */
  method IsSupportedFile(exts: seq<string>, path: string) returns (b: bool)
    ensures b <==> Supported(exts, path)
  {
    var ext := Ext(path);
    for k := 0 to |exts|
      invariant forall j :: 0 <= j < k ==> !EqualFold(ext, exts[j])
    {
      if EqualFold(ext, exts[k]) {
        return true;
      }
    }
    return false;
  }

  /** With no configured extension, no path is supported. */
  lemma NothingSupportedWithoutExtensions(path: string)
    ensures !Supported([], path)
  {
  }

  /** The backwards scans over two paths that differ only in letter case stop at the same place. */
  lemma ExtFromRespectsFold(p: string, q: string, i: int)
    requires Lower(p) == Lower(q)
    requires -1 <= i < |p|
    requires forall j :: i < j < |p| ==> p[j] != Dot && p[j] != Separator
    requires forall j :: i < j < |q| ==> q[j] != Dot && q[j] != Separator
    ensures Lower(ExtFrom(p, i)) == Lower(ExtFrom(q, i))
  {
  }

  /** Paths equal up to letter case have extensions equal up to letter case. */
  lemma ExtRespectsFold(p: string, q: string)
    requires EqualFold(p, q)
    ensures EqualFold(Ext(p), Ext(q))
  {
    EqualFoldIffSameLower(p, q);
    ExtFromRespectsFold(p, q, |p| - 1);
    EqualFoldIffSameLower(Ext(p), Ext(q));
  }

  /** Changing only the letter case of a path never changes whether it is supported. */
  lemma SupportedRespectsFold(exts: seq<string>, p: string, q: string)
    requires EqualFold(p, q)
    ensures Supported(exts, p) <==> Supported(exts, q)
  {
    ExtRespectsFold(p, q);
    forall k | 0 <= k < |exts|
      ensures EqualFold(Ext(p), exts[k]) <==> EqualFold(Ext(q), exts[k])
    {
      EqualFoldEquivalence(Ext(p), Ext(q), exts[k]);
      EqualFoldEquivalence(Ext(q), Ext(p), exts[k]);
    }
  }

  /** In particular, re-casing the extension of a path does not change the verdict. */
  lemma SupportedIgnoresExtensionCase(exts: seq<string>, stem: string, e1: string, e2: string)
    requires EqualFold(e1, e2)
    ensures Supported(exts, stem + e1) <==> Supported(exts, stem + e2)
  {
    EqualFoldIffSameLower(e1, e2);
    LowerAppend(stem, e1);
    LowerAppend(stem, e2);
    EqualFoldIffSameLower(stem + e1, stem + e2);
    SupportedRespectsFold(exts, stem + e1, stem + e2);
  }

  /**
    A file whose final element has no dot is supported exactly when the empty
    string is one of the configured extensions.
   */
  lemma ExtensionlessSupportedIffEmptyEntry(exts: seq<string>, stem: string, name: string)
    requires forall k :: 0 <= k < |name| ==> name[k] != Dot && name[k] != Separator
    requires stem == [] || stem[|stem| - 1] == Separator
    ensures Supported(exts, stem + name) <==> exists k :: 0 <= k < |exts| && exts[k] == []
  {
    ExtOfDotless(stem, name);
    forall k | 0 <= k < |exts|
      ensures EqualFold([], exts[k]) <==> exts[k] == []
    {
    }
  }

  /** A concrete case: an upper-case `.HEIC` photo passes a lower-case allow-list entry. */
  lemma UpperCaseHeicAccepted()
    ensures Supported([".jpg", ".heic"], "/photos/IMG_0001.HEIC")
  {
    ExtOfSuffix("/photos/IMG_0001", ".HEIC");
    assert "/photos/IMG_0001" + ".HEIC" == "/photos/IMG_0001.HEIC";
    EqualFoldIffSameLower(".HEIC", ".heic");
    assert Lower(".HEIC") == ".heic";
    assert EqualFold(Ext("/photos/IMG_0001.HEIC"), [".jpg", ".heic"][1]);
  }

}
