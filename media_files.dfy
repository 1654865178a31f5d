/**
 * `BirthdayWisherApp._get_image_files`: the image files of the media folder,
 * as full paths in ascending order.
 */
module MediaFiles {
  import opened Wrappers
  import opened PyText
  import opened PySorted

  /** The suffixes that mark a file name as an image, compared in lower case. */
  const ImageExtensions: seq<string> := [".png", ".jpg", ".jpeg", ".gif", ".bmp", ".tiff"]

  /** `name.lower().endswith(image_extensions)` */
  predicate IsImageName(name: string)
  {
    EndsWithAny(Lower(name), ImageExtensions)
  }

  /**
   * `os.path.join(dir, name)` with the POSIX separator: an absolute `name`
   * replaces `dir`; otherwise a `/` goes between them unless `dir` is empty
   * or already ends with one.
   */
  function Join(dir: string, name: string): (r: string)
    ensures EndsWith(r, name)
    ensures (name == [] || name[0] != '/') ==> |dir| <= |r| && r[..|dir|] == dir
  {
    if name != [] && name[0] == '/' then name
    else if dir == [] || dir[|dir| - 1] == '/' then dir + name
    else dir + "/" + name
  }

  /** `[os.path.join(dir, f) for f in names if f.lower().endswith(image_extensions)]` */
  function ImagePaths(dir: string, names: seq<string>): (r: seq<string>)
    ensures |r| <= |names|
    ensures forall p :: p in r <==> exists f :: f in names && IsImageName(f) && p == Join(dir, f)
  {
    if names == [] then
      []
    else
      var rest := ImagePaths(dir, names[1..]);
      assert forall f :: f in names <==> f == names[0] || f in names[1..];
      (if IsImageName(names[0]) then [Join(dir, names[0])] else []) + rest
  }

  /**
   * `_get_image_files`, given what `os.listdir(media_dir)` returns (`None`
   * when it raises an OS error, after which the list is empty). The result
   * is sorted and is a permutation of the comprehension's paths.
   */
  function GetImageFiles(dir: string, listing: Option<seq<string>>): (r: seq<string>)
    ensures listing.None? ==> r == []
    ensures Sorted(r)
    ensures listing.Some? ==> multiset(r) == multiset(ImagePaths(dir, listing.value))
    ensures forall p :: p in r <==>
      listing.Some? && exists f :: f in listing.value && IsImageName(f) && p == Join(dir, f)
  {
    match listing
    case None => []
    case Some(names) =>
      var r := Sort(ImagePaths(dir, names));
      assert forall p :: p in r <==> p in ImagePaths(dir, names) by {
        forall p ensures p in r <==> p in ImagePaths(dir, names) {
          assert p in r <==> p in multiset(r);
          assert p in ImagePaths(dir, names) <==> p in multiset(ImagePaths(dir, names));
        }
      }
      r
  }

  /**
   * Whatever algorithm orders the paths, an ascending arrangement of the
   * same entries is the list `GetImageFiles` returns.
   */
  lemma GetImageFilesUnique(dir: string, names: seq<string>, s: seq<string>)
    requires Sorted(s) && multiset(s) == multiset(ImagePaths(dir, names))
    ensures s == GetImageFiles(dir, Some(names))
  {
    SortedUnique(s, GetImageFiles(dir, Some(names)));
  }
}
