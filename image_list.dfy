/** `get_image_list`: the paths of the files in a directory whose name
    contains a format token, in ascending order. The directory listing
    (`listdir` restricted by `isfile`) is an input. */
module Listing {
  import opened Strings
  import opened Sorting

  /** The file `f` is selected: the token occurs anywhere in its name. */
  predicate Selected(f: string, format: string)
  {
    Contains(f, format)
  }

  /** The comprehension `[path + image for image in images if img_format in str(image)]`:
      listing order, the directory path glued on without a separator. */
  function Candidates(path: string, files: seq<string>, format: string): (r: seq<string>)
    ensures |r| <= |files|
    ensures forall i :: 0 <= i < |r| ==> path <= r[i]
  {
    if files == [] then []
    else (if Selected(files[0], format) then [path + files[0]] else [])
         + Candidates(path, files[1..], format)
  }

  /** The comprehension keeps exactly the selected names, each prefixed by
      the directory path, as often as the name is listed, and never grows
      the list. */
  lemma {:induction false} CandidatesExact(path: string, files: seq<string>, format: string)
    ensures |Candidates(path, files, format)| <= |files|
    ensures forall x :: x in Candidates(path, files, format) <==>
              exists f :: f in files && Selected(f, format) && x == path + f
    ensures forall f :: multiset(Candidates(path, files, format))[path + f] ==
              if Selected(f, format) then multiset(files)[f] else 0
  {
    if files != [] {
      CandidatesExact(path, files[1..], format);
      assert files == [files[0]] + files[1..];
    }
    CandidatesCount(path, files, format);
  }

  /** Each selected name gives exactly as many paths as it is listed:
      gluing on the directory path merges no two names. */
  lemma {:induction false} CandidatesCount(path: string, files: seq<string>, format: string)
    ensures forall f :: multiset(Candidates(path, files, format))[path + f] ==
              if Selected(f, format) then multiset(files)[f] else 0
  {
    if files != [] {
      CandidatesCount(path, files[1..], format);
      assert files == [files[0]] + files[1..];
      var head := if Selected(files[0], format) then [path + files[0]] else [];
      assert multiset(Candidates(path, files, format)) == multiset(head) + multiset(Candidates(path, files[1..], format));
      forall f ensures multiset(head)[path + f] == if Selected(f, format) && f == files[0] then 1 else 0 {
        if path + files[0] == path + f {
          assert files[0] == (path + files[0])[|path|..] == (path + f)[|path|..] == f;
        }
      }
    }
  }

  /** The value `get_image_list` returns. */
  function ImageList(path: string, files: seq<string>, format: string): (r: seq<string>)
    ensures |r| <= |files|
  {
    var c := Candidates(path, files, format);
    assert |SortStrings(c)| == |multiset(SortStrings(c))| == |multiset(c)| == |c|;
    SortStrings(c)
  }

  /** What the caller of `get_image_list` may rely on: exactly the selected
      names prefixed by the path, ascending, no more entries than files. */
  lemma ImageListSpec(path: string, files: seq<string>, format: string)
    ensures Sorted(ImageList(path, files, format))
    ensures multiset(ImageList(path, files, format)) == multiset(Candidates(path, files, format))
    ensures |ImageList(path, files, format)| <= |files|
    ensures forall x :: x in ImageList(path, files, format) <==>
              exists f :: f in files && Selected(f, format) && x == path + f
    ensures forall f :: multiset(ImageList(path, files, format))[path + f] ==
              if Selected(f, format) then multiset(files)[f] else 0
  {
    var c := Candidates(path, files, format);
    SortStringsCorrect(c);
    CandidatesExact(path, files, format);
    assert |SortStrings(c)| == |multiset(SortStrings(c))| == |multiset(c)| == |c|;
    forall x ensures x in SortStrings(c) <==> x in c {
      assert x in SortStrings(c) <==> x in multiset(SortStrings(c));
      assert x in c <==> x in multiset(c);
    }
  }

  /** `get_image_list(path, img_format)`: builds the filtered list, then
      sorts it in place. */
  method GetImageList(path: string, files: seq<string>, format: string := "JPG")
    returns (paths: seq<string>)
    ensures Sorted(paths)
    ensures multiset(paths) == multiset(Candidates(path, files, format))
    ensures paths == ImageList(path, files, format)
  {
    var images := Candidates(path, files, format);
    var a := new string[|images|](i requires 0 <= i < |images| => images[i]);
    assert a[..] == images;
    SortInPlace(a);
    paths := a[..];
  }
}
