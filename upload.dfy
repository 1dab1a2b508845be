/**
 * The upload middleware (backend/src/middleware/upload.ts): which uploads the file filter lets
 * through, and under which name and in which directory an accepted upload is stored.
 */
module UploadMiddleware {
  import opened Wrappers
  import opened JsText
  import NodePath
  import opened BackendTypes

  /**
   * The file filter: the lower-cased extension of the client's file name must be one of the
   * configured extensions; otherwise the upload fails with an error naming that extension.
   */
  function FileFilter(originalName: string): (r: Result<bool, string>)
    ensures r.Ok? <==> ToLower(NodePath.Extname(originalName)) in AllowedExtensions
    ensures r.Ok? ==> r.value
    ensures r.Err? ==> r.error == "Filtyp " + ToLower(NodePath.Extname(originalName)) + " är inte tillåten"
  {
    var ext := ToLower(NodePath.Extname(originalName));
    if ext !in AllowedExtensions then Err("Filtyp " + ext + " är inte tillåten") else Ok(true)
  }

  /** The name of the last path segment ends in `suffix`, ignoring letter case, after at least one more character. */
  predicate EndsWithExtension(originalName: string, suffix: string)
  {
    var b := NodePath.Basename(originalName);
    |b| > |suffix| && ToLower(b[|b| - |suffix|..]) == suffix
  }

  /**
   * The accepted uploads are exactly those whose file name ends in ".mp4", ".mov" or ".avi" in
   * any letter case, with something in front: ".mp4" alone has no extension and is refused.
   */
  lemma AcceptedIffVideoSuffix(originalName: string)
    ensures FileFilter(originalName).Ok? <==>
      (EndsWithExtension(originalName, ".mp4") || EndsWithExtension(originalName, ".mov")
       || EndsWithExtension(originalName, ".avi"))
  {
    var ext := ToLower(NodePath.Extname(originalName));
    AllowedIsVideo(ext);
    ExtensionIsSuffix(originalName, ".mp4");
    ExtensionIsSuffix(originalName, ".mov");
    ExtensionIsSuffix(originalName, ".avi");
    assert FileFilter(originalName).Ok? <==> ext == ".mp4" || ext == ".mov" || ext == ".avi";
  }

  lemma AllowedIsVideo(ext: string)
    ensures ext in AllowedExtensions <==> ext == ".mp4" || ext == ".mov" || ext == ".avi"
  {
  }

  /** For a dot followed by three characters other than dots, comparing the extension is comparing the end of the name. */
  lemma {:induction false} ExtensionIsSuffix(originalName: string, suffix: string)
    requires |suffix| == 4 && suffix[0] == '.' && forall i :: 1 <= i < 4 ==> suffix[i] != '.'
    ensures ToLower(NodePath.Extname(originalName)) == suffix <==> EndsWithExtension(originalName, suffix)
  {
    var b := NodePath.Basename(originalName);
    var ext := NodePath.Extname(originalName);
    if ToLower(ext) == suffix {
      ExtensionIsSuffixForward(b, ext, suffix);
    }
    if EndsWithExtension(originalName, suffix) {
      ExtensionIsSuffixBackward(b, suffix);
    }
  }

  lemma ExtensionIsSuffixForward(b: string, ext: string, suffix: string)
    requires |suffix| == 4 && suffix[0] == '.'
    requires ext == (var k := NodePath.LastDot(b); if k <= 0 || b == ".." then [] else b[k..])
    requires ToLower(ext) == suffix
    ensures |b| > 4 && ToLower(b[|b| - 4..]) == suffix
  {
    var k := NodePath.LastDot(b);
    assert ext != [];
    assert ext == b[k..];
    assert k > 0;
  }

  lemma ExtensionIsSuffixBackward(b: string, suffix: string)
    requires |suffix| == 4 && suffix[0] == '.' && forall i :: 1 <= i < 4 ==> suffix[i] != '.'
    requires |b| > 4 && ToLower(b[|b| - 4..]) == suffix
    ensures (var k := NodePath.LastDot(b); if k <= 0 || b == ".." then [] else b[k..]) == b[|b| - 4..]
  {
    var tail := b[|b| - 4..];
    assert LowerChar(tail[0]) == '.';
    assert b[|b| - 4] == '.';
    forall i | |b| - 4 < i < |b| ensures b[i] != '.' {
      assert LowerChar(tail[i - (|b| - 4)]) == suffix[i - (|b| - 4)];
    }
    NodePath.LastDotIs(b, |b| - 4);
  }

  /**
   * The stem of a stored file name: the upload time in milliseconds, a dash and a random
   * base-36 string.
   */
  function UniqueName(nowMillis: nat, randomPart: string): (r: string)
    ensures |r| > |randomPart|
    ensures var k := |r| - |randomPart| - 1;
      && k >= 1 && AllDigits(r[..k]) && DigitsValue(r[..k]) == nowMillis
      && r[k] == '-' && r[k + 1..] == randomPart
    ensures (forall i :: 0 <= i < |randomPart| ==> IsBase36(randomPart[i])) ==>
      forall i :: 0 <= i < |r| ==> r[i] != '.' && r[i] != '/'
  {
    var digits := NatToString(nowMillis);
    NatToStringValue(nowMillis);
    var r := digits + "-" + randomPart;
    assert r[..|digits|] == digits;
    assert r[|digits| + 1..] == randomPart;
    assert (forall i :: 0 <= i < |randomPart| ==> IsBase36(randomPart[i])) ==>
      forall i :: 0 <= i < |r| ==> r[i] != '.' && r[i] != '/'
    by {
      if forall i :: 0 <= i < |randomPart| ==> IsBase36(randomPart[i]) {
        forall i | 0 <= i < |r| ensures r[i] != '.' && r[i] != '/' {
          if i < |digits| {
            assert r[i] == digits[i];
          } else if i > |digits| {
            assert r[i] == randomPart[i - |digits| - 1];
          }
        }
      }
    }
    r
  }

  /** The stored file name: the unique stem followed by the client's extension, letter case kept. */
  function StoredFilename(uniqueName: string, originalName: string): (r: string)
    ensures |r| == |uniqueName| + |NodePath.Extname(originalName)|
    ensures r[..|uniqueName|] == uniqueName
    ensures r[|uniqueName|..] == NodePath.Extname(originalName)
  {
    uniqueName + NodePath.Extname(originalName)
  }

  /** Where the stored file lives: every upload goes to the upload directory. */
  function StoredPath(uniqueName: string, originalName: string): (r: string)
    ensures |r| >= |UploadDir| + 1
    ensures r[..|UploadDir| + 1] == UploadDir + "/"
  {
    NodePath.Join(UploadDir, StoredFilename(uniqueName, originalName))
  }

  predicate IsBase36(c: char)
  {
    ('0' <= c <= '9') || ('a' <= c <= 'z')
  }

  /**
   * A stored file keeps the extension of the client's file name, so the stored name passes the
   * file filter exactly when the original did.
   */
  lemma StoredNameKeepsExtension(nowMillis: nat, randomPart: string, originalName: string)
    requires forall i :: 0 <= i < |randomPart| ==> IsBase36(randomPart[i])
    ensures NodePath.Extname(StoredFilename(UniqueName(nowMillis, randomPart), originalName))
         == NodePath.Extname(originalName)
    ensures FileFilter(StoredFilename(UniqueName(nowMillis, randomPart), originalName)) == FileFilter(originalName)
  {
    var stem := UniqueName(nowMillis, randomPart);
    NodePath.ExtnameOfStemAndExtension(stem, NodePath.Extname(originalName));
  }
}
