/**
 * FileTypeUtil: file-name and extension helpers. A path is its text with '/'
 * separators, normalised as Files.walk produces it (no trailing '/').
 */
module FileTypes {
  import opened JavaStrings

  type Path = string

  /** Path.getFileName(): the text after the last '/'. */
  function FileName(p: Path): (name: string)
    ensures '/' !in name
    ensures name == p[LastIndexOf(p, '/') + 1..]
  {
    p[LastIndexOf(p, '/') + 1..]
  }

  /**
   * FilenameUtils.indexOfExtension: the last '.', unless a '/' or '\' follows it.
   */
  function IndexOfExtension(name: string): (i: int)
    ensures -1 <= i < |name|
    ensures i >= 0 ==> name[i] == '.' && forall j :: i < j < |name| ==> name[j] != '.' && name[j] != '\\' && name[j] != '/'
    ensures i == -1 ==> forall j :: 0 <= j < |name| && name[j] == '.' ==>
              exists k :: j < k < |name| && (name[k] == '\\' || name[k] == '/')
  {
    var dot := LastIndexOf(name, '.');
    var separator := if LastIndexOf(name, '/') > LastIndexOf(name, '\\') then LastIndexOf(name, '/') else LastIndexOf(name, '\\');
    if separator > dot then -1 else dot
  }

  /** FilenameUtils.getExtension. */
  function GetExtension(name: string): string {
    var i := IndexOfExtension(name);
    if i == -1 then "" else name[i + 1..]
  }

  /** FilenameUtils.removeExtension. */
  function RemoveExtension(name: string): string {
    var i := IndexOfExtension(name);
    if i == -1 then name else name[..i]
  }

  const SupportedExtensions: set<string> := {"mkv", "jpeg", "jpg", "avi", "mp4", "mov", "png", "webp", "gif"}

  /** FileTypeUtil.getLowercaseExtension. */
  function LowercaseExtension(p: Path): string {
    GetExtension(ToLower(FileName(p)))
  }

  /** FileTypeUtil.withoutExtension. */
  function WithoutExtension(p: Path): string {
    RemoveExtension(FileName(p))
  }

  /** FileTypeUtil.isJpegFile. */
  predicate IsJpegFile(p: Path) {
    var extension := LowercaseExtension(p);
    extension == "jpeg" || extension == "jpg"
  }

  /** FileTypeUtil.isSupportedExtension. */
  predicate IsSupportedExtension(p: Path) {
    LowercaseExtension(p) in SupportedExtensions
  }

  lemma ToLowerKeepsBackslash(s: string)
    ensures LastIndexOf(ToLower(s), '\\') == LastIndexOf(s, '\\')
  {
    LastIndexOfUnique(ToLower(s), '\\', LastIndexOf(s, '\\'));
  }

  /**
   * Splitting a file name at its extension: the name is the part before the
   * last '.', the '.', and an original-case extension whose lower-case form is
   * getLowercaseExtension; a name without an extension is kept whole.
   */
  lemma ExtensionSplit(p: Path)
    ensures var name := FileName(p);
      ('.' !in name ==> WithoutExtension(p) == name && LowercaseExtension(p) == "")
      && (IndexOfExtension(name) >= 0 ==>
            WithoutExtension(p) + "." + GetExtension(name) == name
            && ToLower(GetExtension(name)) == LowercaseExtension(p)
            && '.' !in GetExtension(name))
  {
    var name := FileName(p);
    if '.' !in name {
      NoExtension(name);
    }
    if IndexOfExtension(name) >= 0 {
      ExtensionParts(name);
    }
  }

  /** A name without a '.' has no extension, in either case. */
  lemma NoExtension(name: string)
    requires '.' !in name
    ensures RemoveExtension(name) == name && GetExtension(ToLower(name)) == ""
  {
    LowerIndexOfExtension(name);
    assert LastIndexOf(name, '.') == -1;
  }

  /** A name with an extension is its base, the '.', and the extension. */
  lemma ExtensionParts(name: string)
    requires IndexOfExtension(name) >= 0
    ensures RemoveExtension(name) + "." + GetExtension(name) == name
    ensures ToLower(GetExtension(name)) == GetExtension(ToLower(name))
    ensures '.' !in GetExtension(name)
  {
    var i := IndexOfExtension(name);
    SplitAtDot(name, i);
    LowerExtension(name);
    var ext := name[i + 1..];
    forall j | 0 <= j < |ext| ensures ext[j] != '.' {
      assert ext[j] == name[i + 1 + j];
    }
  }

  lemma SplitAtDot(name: string, i: int)
    requires 0 <= i < |name| && name[i] == '.'
    ensures name[..i] + "." + name[i + 1..] == name
  {
  }

  /** The extension of the lower-cased name is the lower-cased extension. */
  lemma LowerExtension(name: string)
    requires IndexOfExtension(name) >= 0
    ensures ToLower(GetExtension(name)) == GetExtension(ToLower(name))
  {
    LowerIndexOfExtension(name);
    ToLowerSlice(name, IndexOfExtension(name) + 1);
  }

  /** Lower-casing a name moves none of the characters indexOfExtension looks for. */
  lemma LowerIndexOfExtension(name: string)
    ensures IndexOfExtension(ToLower(name)) == IndexOfExtension(name)
  {
    ToLowerKeepsSeparator(name, '.');
    ToLowerKeepsSeparator(name, '/');
    ToLowerKeepsBackslash(name);
  }

  /** Only the last path component is examined. */
  lemma OnlyFileNameMatters(folder: Path, name: string)
    requires '/' !in name
    ensures FileName(folder + "/" + name) == name
    ensures WithoutExtension(folder + "/" + name) == RemoveExtension(name)
    ensures LowercaseExtension(folder + "/" + name) == GetExtension(ToLower(name))
  {
    var p := folder + "/" + name;
    LastIndexOfUnique(p, '/', |folder|);
    assert p[|folder| + 1..] == name;
  }

  /** isJpegFile and isSupportedExtension by extension; every JPEG is supported. */
  lemma FileKinds(p: Path)
    ensures IsJpegFile(p) <==> LowercaseExtension(p) in {"jpg", "jpeg"}
    ensures IsJpegFile(p) ==> IsSupportedExtension(p)
    ensures IsSupportedExtension(p) <==> LowercaseExtension(p) in SupportedExtensions
  {
  }

  /** "IMG.JPG" is a JPEG file: the extension is compared in lower case. */
  lemma ExampleUpperCaseJpeg()
    ensures LowercaseExtension("IMG.JPG") == "jpg" && IsJpegFile("IMG.JPG")
  {
    LowerImgJpg();
    LowercaseExtensionOf("IMG.JPG", "img", "jpg");
  }

  /** A path without a '/' is its own file name. */
  lemma NameOnly(p: Path)
    requires '/' !in p
    ensures FileName(p) == p
  {
    LastIndexOfUnique(p, '/', -1);
  }

  /** The extension of "clip.MP4" in lower case, and its base name. */
  lemma ExampleVideoName()
    ensures GetExtension(ToLower("clip.MP4")) == "mp4" && RemoveExtension("clip.MP4") == "clip"
  {
    LowerClipMp4();
    ExtensionAt("clip", "mp4");
    BaseOfClipMp4();
  }

  lemma LowerImgJpg()
    ensures ToLower("IMG.JPG") == "img" + "." + "jpg"
  {
  }

  lemma LowerClipMp4()
    ensures ToLower("clip.MP4") == "clip" + "." + "mp4"
  {
  }

  lemma BaseOfClipMp4()
    ensures RemoveExtension("clip.MP4") == "clip"
  {
    ExtensionAt("clip", "MP4");
    assert "clip" + "." + "MP4" == "clip.MP4";
  }

  /** A base, a '.', and an extension without a '.', with no separator anywhere. */
  lemma ExtensionAt(base: string, ext: string)
    requires '.' !in ext
    requires '/' !in base + "." + ext && '\\' !in base + "." + ext
    ensures IndexOfExtension(base + "." + ext) == |base|
    ensures GetExtension(base + "." + ext) == ext && RemoveExtension(base + "." + ext) == base
  {
    var name := base + "." + ext;
    forall j | |base| < j < |name| ensures name[j] != '.' {
      assert name[j] == ext[j - |base| - 1];
    }
    LastIndexOfUnique(name, '.', |base|);
    LastIndexOfUnique(name, '/', -1);
    LastIndexOfUnique(name, '\\', -1);
    assert name[|base| + 1..] == ext && name[..|base|] == base;
  }

  /** A file name without separators that lower-cases to base.ext has the extension ext. */
  lemma LowercaseExtensionOf(p: Path, base: string, ext: string)
    requires '/' !in p && ToLower(p) == base + "." + ext
    requires '.' !in ext && '/' !in base + "." + ext && '\\' !in base + "." + ext
    ensures LowercaseExtension(p) == ext
  {
    NameOnly(p);
    ExtensionAt(base, ext);
  }

  /** An extension holds no '.' and no separator. */
  lemma ExtensionCharacters(name: string)
    ensures forall c :: c in GetExtension(name) ==> c != '.' && c != '/' && c != '\\'
  {
    var i := IndexOfExtension(name);
    if i >= 0 {
      var ext := name[i + 1..];
      forall j | 0 <= j < |ext| ensures ext[j] != '.' && ext[j] != '/' && ext[j] != '\\' {
        assert ext[j] == name[i + 1 + j];
      }
    }
  }

  /** A file "clip.MP4" in a folder is supported but not a JPEG, and its base name is "clip". */
  lemma ExampleVideoInFolder()
    ensures LowercaseExtension("videos/clip.MP4") == "mp4" && !IsJpegFile("videos/clip.MP4")
    ensures IsSupportedExtension("videos/clip.MP4")
    ensures WithoutExtension("videos/clip.MP4") == "clip"
  {
    LastIndexOfUnique("videos/clip.MP4", '/', 6);
    assert FileName("videos/clip.MP4") == "clip.MP4";
    ExampleVideoName();
  }
}
