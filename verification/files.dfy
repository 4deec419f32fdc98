/** The image-file scan: `listFilesRecursively` walks a directory tree and keeps
    the files whose lower-cased name matches `.*\.(png|jpg|jpeg|bmp)$`.
    The file system is an in-memory tree; a directory whose `listFiles()`
    returns null is an `Unlisted` entry. */
module Files {
  import opened Text

  /** A `java.io.File`: its path and its last name component (`getName`). */
  datatype File = File(path: string, name: string)

  /** One entry of the tree: a non-directory, a listable directory with its
      children in `listFiles()` order, or a directory that cannot be listed. */
  datatype Entry =
    | Leaf(file: File)
    | Dir(path: string, children: seq<Entry>)
    | Unlisted(path: string)

  const Extensions: set<string> := {"png", "jpg", "jpeg", "bmp"}

  /** The characters `.` does not match in java.util.regex without DOTALL. */
  predicate IsLineTerminator(c: char)
  {
    c == '\n' || c == '\r' || c == '\U{0085}' || c == '\U{2028}' || c == '\U{2029}'
  }

  predicate NoLineTerminator(s: string)
  {
    forall i :: 0 <= i < |s| ==> !IsLineTerminator(s[i])
  }

  /** `s` ends with "." + `ext` and `.*` can consume everything before it. */
  predicate EndsWithExtension(s: string, ext: string)
  {
    |s| > |ext| && s[|s| - |ext| - 1] == '.' && s[|s| - |ext|..] == ext && NoLineTerminator(s[..|s| - |ext| - 1])
  }

  /** The extension test of `listFilesRecursively` on an already lower-cased name. */
  predicate IsImageLower(s: string)
  {
    EndsWithExtension(s, "png") || EndsWithExtension(s, "jpg")
    || EndsWithExtension(s, "jpeg") || EndsWithExtension(s, "bmp")
  }

  /** `name.toLowerCase().matches(".*\\.(png|jpg|jpeg|bmp)$")`. */
  predicate IsImageName(name: string)
  {
    IsImageLower(Lower(name))
  }

  /** The language of the regex `.*\.(png|jpg|jpeg|bmp)$` under whole-input
      matching: some prefix without line terminators, a dot, one extension
      (and `$` cannot be followed by a final line terminator, since nothing
      would consume it). */
  ghost predicate InImageLanguage(s: string)
  {
    exists k :: 0 <= k < |s| && s[k] == '.' && s[k + 1..] in Extensions && NoLineTerminator(s[..k])
  }

  /** A split of `s` at a dot before `ext` is the same thing as `s` ending with "." + `ext`. */
  lemma SplitIsSuffix(s: string, k: nat, ext: string)
    requires k < |s| && s[k] == '.' && s[k + 1..] == ext && NoLineTerminator(s[..k])
    ensures EndsWithExtension(s, ext)
  {
    assert |s| - |ext| - 1 == k;
  }

  /** The suffix test used by the model accepts exactly the regex's language. */
  lemma ImageTestMatchesRegex(s: string)
    ensures IsImageLower(s) <==> InImageLanguage(s)
  {
    if InImageLanguage(s) {
      var k :| 0 <= k < |s| && s[k] == '.' && s[k + 1..] in Extensions && NoLineTerminator(s[..k]);
      SplitIsSuffix(s, k, s[k + 1..]);
    }
    if IsImageLower(s) {
      SuffixIsSplit(s);
    }
  }

  /** A name passing the suffix test splits at the dot before its extension. */
  lemma SuffixIsSplit(s: string)
    requires IsImageLower(s)
    ensures InImageLanguage(s)
  {
    var ext := if EndsWithExtension(s, "png") then "png"
      else if EndsWithExtension(s, "jpg") then "jpg"
      else if EndsWithExtension(s, "jpeg") then "jpeg" else "bmp";
    assert EndsWithExtension(s, ext);
    var k := |s| - |ext| - 1;
    assert s[k + 1..] == ext;
    assert ext in Extensions;
  }

  /** `listFilesRecursively(folder)`: a non-directory or unlistable root gives
      the empty list; otherwise the children are visited in order, directories
      recursively, and image files are kept. */
  function ListFilesRecursively(folder: Entry): (r: seq<File>)
    ensures forall i :: 0 <= i < |r| ==> IsImageName(r[i].name)
    ensures !folder.Dir? ==> r == []
    decreases folder, 1
  {
    match folder
    case Dir(_, children) => ListEntries(folder, children)
    case _ => []
  }

  /** The files found under the listed `entries` of directory `parent`. */
  function ListEntries(parent: Entry, entries: seq<Entry>): (r: seq<File>)
    requires parent.Dir? && entries <= parent.children
    ensures forall i :: 0 <= i < |r| ==> IsImageName(r[i].name)
    decreases parent, 0, |entries|
  {
    if |entries| == 0 then []
    else
      var rest := ListEntries(parent, entries[..|entries| - 1]);
      var e := entries[|entries| - 1];
      assert e in parent.children;
      rest + match e
             case Leaf(f) => if IsImageName(f.name) then [f] else []
             case _ => ListFilesRecursively(e)
  }

  /** `f` is a non-directory entry somewhere below `folder`, reached through
      listable directories only. */
  ghost predicate Below(folder: Entry, f: File)
    decreases folder
  {
    folder.Dir? && exists i :: 0 <= i < |folder.children| && (folder.children[i] == Leaf(f) || Below(folder.children[i], f))
  }

  /** The walk returns exactly the image files below the root: a file is in the
      result iff it is a non-directory entry reached through listable
      directories and its lower-cased name has an image extension. */
  lemma {:induction false} ListFilesMembership(folder: Entry, f: File)
    ensures f in ListFilesRecursively(folder) <==> Below(folder, f) && IsImageName(f.name)
    decreases folder, 1
  {
    if folder.Dir? {
      ListEntriesMembership(folder, folder.children, f);
    }
  }

  lemma {:induction false} ListEntriesMembership(parent: Entry, entries: seq<Entry>, f: File)
    requires parent.Dir? && entries <= parent.children
    ensures f in ListEntries(parent, entries) <==>
              IsImageName(f.name) && exists i :: 0 <= i < |entries| && (entries[i] == Leaf(f) || Below(entries[i], f))
    decreases parent, 0, |entries|
  {
    if |entries| > 0 {
      var init := entries[..|entries| - 1];
      var e := entries[|entries| - 1];
      assert e in parent.children;
      ListEntriesMembership(parent, init, f);
      ListFilesMembership(e, f);
      if IsImageName(f.name) && exists i :: 0 <= i < |entries| && (entries[i] == Leaf(f) || Below(entries[i], f)) {
        var i :| 0 <= i < |entries| && (entries[i] == Leaf(f) || Below(entries[i], f));
        if i < |entries| - 1 {
          assert init[i] == entries[i];
        }
      }
      if exists i :: 0 <= i < |init| && (init[i] == Leaf(f) || Below(init[i], f)) {
        var i :| 0 <= i < |init| && (init[i] == Leaf(f) || Below(init[i], f));
        assert entries[i] == init[i];
      }
    }
  }
}
