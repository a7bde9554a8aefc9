/** `get_dng_jpg`: derives a base name from every DNG and JPG path,
    compares the two name sets and chooses which name list to return. */
module Pairing {
  import opened Results
  import opened Strings
  import opened Sorting
  import opened Listing

  /** `s[:-4]`: everything but the last four characters; empty when `s`
      has fewer than four. */
  function DropLast4(s: string): string
  {
    if |s| < 4 then "" else s[..|s| - 4]
  }

  /** `img.split('/')[1][:-4]`: the piece after the first '/', without its
      last four characters. Indexing fails when the path has no '/'. */
  function BaseName(p: string): (r: Result<string>)
    ensures r.Ok? ==> '/' !in r.value && |r.value| < |p|
  {
    var parts := Split(p, '/');
    SplitPiecesPlain(p, '/');
    JoinSplit(p, '/');
    if |parts| < 2 then Err(NoSecondSegment(p))
    else
      JoinedPieceShorter(parts, '/');
      Ok(DropLast4(parts[1]))
  }

  /** The second piece is shorter than the joined string. */
  lemma JoinedPieceShorter(parts: seq<string>, sep: char)
    requires |parts| >= 2
    ensures |parts[1]| < |Join(parts, sep)|
  {
    if |parts| > 2 {
      assert parts[1..][0] == parts[1];
    }
  }

  /** A base name exists exactly when the path holds a '/'. */
  lemma BaseNameDefined(p: string)
    ensures BaseName(p).Ok? <==> '/' in p
    ensures BaseName(p).Err? ==> BaseName(p).error == NoSecondSegment(p)
  {
    SplitHasSecond(p, '/');
  }

  /** For a path `dir/seg...` whose first two pieces are `dir` and `seg`,
      the base name is `seg` cut by four characters, whatever follows. */
  lemma BaseNameShape(dir: string, seg: string, rest: string)
    requires '/' !in dir && '/' !in seg
    requires rest == [] || rest[0] == '/'
    ensures BaseName(dir + "/" + seg + rest) == Ok(DropLast4(seg))
  {
    if rest == [] {
      SplitPlain(seg, '/');
      assert seg + rest == seg;
    } else {
      SplitCons(seg, rest[1..], '/');
      assert seg + [rest[0]] + rest[1..] == seg + rest;
    }
    SplitCons(dir, seg + rest, '/');
    assert dir + ['/'] + (seg + rest) == dir + "/" + seg + rest;
  }

  /** The expected layout `dir/name.EXT` with a four-character extension
      gives back `name`. */
  lemma BaseNameOfFile(dir: string, name: string, ext: string)
    requires '/' !in dir && '/' !in name && '/' !in ext && |ext| == 4
    ensures BaseName(dir + "/" + name + ext) == Ok(name)
  {
    BaseNameShape(dir, name + ext, []);
    assert dir + "/" + (name + ext) + [] == dir + "/" + name + ext;
    assert (name + ext)[..|name + ext| - 4] == name;
  }

  /** The comprehension `[img.split('/')[1][:-4] for img in paths]`: one
      name per path, in order; the first path without a '/' raises. */
  function NameList(paths: seq<string>): (r: Result<seq<string>>)
    ensures r.Ok? <==> forall i :: 0 <= i < |paths| ==> BaseName(paths[i]).Ok?
    ensures r.Ok? ==> |r.value| == |paths|
    ensures r.Ok? ==> forall i :: 0 <= i < |paths| ==> BaseName(paths[i]) == Ok(r.value[i])
    ensures r.Err? ==> exists i :: 0 <= i < |paths| && BaseName(paths[i]) == Err(r.error)
                                   && forall j :: 0 <= j < i ==> BaseName(paths[j]).Ok?
  {
    if paths == [] then Ok([])
    else
      match BaseName(paths[0])
      case Err(e) => Err(e)
      case Ok(n) =>
        match NameList(paths[1..])
        case Err(e) => Err(e)
        case Ok(ns) => Ok([n] + ns)
  }

  /** The name list is determined by the base names of the paths. */
  lemma NameListOf(paths: seq<string>, names: seq<string>)
    requires |paths| == |names|
    requires forall i :: 0 <= i < |paths| ==> BaseName(paths[i]) == Ok(names[i])
    ensures NameList(paths) == Ok(names)
  {
    var r := NameList(paths);
    assert r.Ok?;
    assert forall i :: 0 <= i < |paths| ==> r.value[i] == names[i];
    assert r.value == names;
  }

  /** `set(names)`. */
  function Elems(names: seq<string>): set<string>
  {
    set x | x in names
  }

  /** What `get_dng_jpg` returns: the chosen name list, the two path lists,
      and the set of names its warning prints, if it prints one. */
  datatype Pairing = Pairing(names: seq<string>, dngPaths: seq<string>, jpgPaths: seq<string>,
                             warning: Option<set<string>>)

  /** The body of `get_dng_jpg` after the two listings. */
  function Pair(imagesDng: seq<string>, imagesJpg: seq<string>): (r: Result<Pairing>)
    ensures r.Ok? ==> r.value.dngPaths == imagesDng && r.value.jpgPaths == imagesJpg
    ensures r.Ok? && r.value.warning.Some? ==> r.value.warning.value != {}
  {
    match NameList(imagesJpg)
    case Err(e) => Err(e)
    case Ok(jpgNames) =>
      match NameList(imagesDng)
      case Err(e) => Err(e)
      case Ok(dngNames) =>
        var difference1 := Elems(dngNames) - Elems(jpgNames);
        var difference2 := Elems(jpgNames) - Elems(dngNames);
        if difference1 != {} then Ok(Pairing(dngNames, imagesDng, imagesJpg, Some(difference1)))
        else if difference2 != {} then Ok(Pairing(jpgNames, imagesDng, imagesJpg, Some(difference2)))
        else Ok(Pairing(jpgNames, imagesDng, imagesJpg, None))
  }

  /** `get_dng_jpg(path)` over the directory listing `files`. */
  function GetDngJpg(path: string, files: seq<string>): (r: Result<Pairing>)
    ensures r.Ok? ==> Sorted(r.value.dngPaths) && Sorted(r.value.jpgPaths)
  {
    ImageListSpec(path, files, "DNG");
    ImageListSpec(path, files, "JPG");
    Pair(ImageList(path, files, "DNG"), ImageList(path, files, "JPG"))
  }

  /** Pairing fails only on a path without '/', the JPG list being named
      first; otherwise both path lists come back untouched. */
  lemma PairOutcome(imagesDng: seq<string>, imagesJpg: seq<string>)
    ensures Pair(imagesDng, imagesJpg).Err? <==>
              (exists p :: p in imagesJpg && '/' !in p) || (exists p :: p in imagesDng && '/' !in p)
    ensures NameList(imagesJpg).Err? ==> Pair(imagesDng, imagesJpg) == Err(NameList(imagesJpg).error)
    ensures Pair(imagesDng, imagesJpg).Err? ==>
              exists p :: (p in imagesJpg || p in imagesDng) && Pair(imagesDng, imagesJpg).error == NoSecondSegment(p)
    ensures Pair(imagesDng, imagesJpg).Ok? ==>
              Pair(imagesDng, imagesJpg).value.dngPaths == imagesDng &&
              Pair(imagesDng, imagesJpg).value.jpgPaths == imagesJpg
  {
    forall p | p in imagesJpg + imagesDng ensures BaseName(p).Ok? <==> '/' in p {
      BaseNameDefined(p);
    }
    var rj, rd := NameList(imagesJpg), NameList(imagesDng);
    if rj.Err? {
      var i :| 0 <= i < |imagesJpg| && BaseName(imagesJpg[i]) == Err(rj.error)
               && forall j :: 0 <= j < i ==> BaseName(imagesJpg[j]).Ok?;
      BaseNameDefined(imagesJpg[i]);
    } else if rd.Err? {
      var i :| 0 <= i < |imagesDng| && BaseName(imagesDng[i]) == Err(rd.error)
               && forall j :: 0 <= j < i ==> BaseName(imagesDng[j]).Ok?;
      BaseNameDefined(imagesDng[i]);
    }
  }

  /** The branch `get_dng_jpg` takes, given both name lists. A warning is
      raised exactly when the name sets differ; DNG-only names take
      precedence; with no warning the two name sets coincide. */
  lemma PairBranches(imagesDng: seq<string>, imagesJpg: seq<string>,
                     dngNames: seq<string>, jpgNames: seq<string>)
    requires NameList(imagesDng) == Ok(dngNames) && NameList(imagesJpg) == Ok(jpgNames)
    ensures Pair(imagesDng, imagesJpg).Ok?
    ensures (exists x :: x in dngNames && x !in jpgNames) ==>
              Pair(imagesDng, imagesJpg).value.names == dngNames &&
              Pair(imagesDng, imagesJpg).value.warning == Some(Elems(dngNames) - Elems(jpgNames))
    ensures (forall x :: x in dngNames ==> x in jpgNames) ==>
              Pair(imagesDng, imagesJpg).value.names == jpgNames
    ensures (forall x :: x in dngNames ==> x in jpgNames) && (exists y :: y in jpgNames && y !in dngNames) ==>
              Pair(imagesDng, imagesJpg).value.warning == Some(Elems(jpgNames) - Elems(dngNames))
    ensures Pair(imagesDng, imagesJpg).value.warning.Some? <==> Elems(dngNames) != Elems(jpgNames)
    ensures Pair(imagesDng, imagesJpg).value.warning.None? ==>
              forall x :: x in dngNames <==> x in jpgNames
    ensures Pair(imagesDng, imagesJpg).value.warning.Some? ==>
              Pair(imagesDng, imagesJpg).value.warning.value != {} &&
              forall x :: x in Pair(imagesDng, imagesJpg).value.warning.value ==>
                (x in dngNames) != (x in jpgNames)
  {
    var d1 := Elems(dngNames) - Elems(jpgNames);
    var d2 := Elems(jpgNames) - Elems(dngNames);
    if exists x :: x in dngNames && x !in jpgNames {
      var x :| x in dngNames && x !in jpgNames;
      assert x in d1;
    } else if exists y :: y in jpgNames && y !in dngNames {
      var y :| y in jpgNames && y !in dngNames;
      assert y in d2;
    } else {
      assert d1 == {} && d2 == {};
    }
  }

  /** The returned names are always the base names of one of the two path
      lists, position by position. */
  lemma PairNamesFollowPaths(imagesDng: seq<string>, imagesJpg: seq<string>)
    requires Pair(imagesDng, imagesJpg).Ok?
    ensures var p := Pair(imagesDng, imagesJpg).value;
      || (|p.names| == |imagesDng| && forall i :: 0 <= i < |imagesDng| ==> BaseName(imagesDng[i]) == Ok(p.names[i]))
      || (|p.names| == |imagesJpg| && forall i :: 0 <= i < |imagesJpg| ==> BaseName(imagesJpg[i]) == Ok(p.names[i]))
  {
  }

  // ---------------------------------------------------------------------------
  // Worked cases

  /** One file in each format under one directory: the common name comes
      back and nothing is printed. */
  lemma PairOneMatchedFile(dir: string, name: string)
    requires '/' !in dir && '/' !in name
    ensures var dng, jpg := dir + "/" + name + ".DNG", dir + "/" + name + ".JPG";
      Pair([dng], [jpg]) == Ok(Pairing([name], [dng], [jpg], None))
  {
    var dng, jpg := dir + "/" + name + ".DNG", dir + "/" + name + ".JPG";
    BaseNameOfFile(dir, name, ".DNG");
    BaseNameOfFile(dir, name, ".JPG");
    NameListOf([dng], [name]);
    NameListOf([jpg], [name]);
    assert Elems([name]) == {name};
  }

  /** No warning does not mean equal lengths: two JPG files may share a base
      name (`a.JPG` and `a_JPG`), so the name list outgrows the DNG list and
      only the caller's count check rejects the directory. */
  lemma PairNoWarningUnequalLengths(dir: string, name: string)
    requires '/' !in dir && '/' !in name
    ensures var r := Pair([dir + "/" + name + ".DNG"],
                          [dir + "/" + name + ".JPG", dir + "/" + name + "_JPG"]);
      r.Ok? && r.value.warning.None? && |r.value.names| == 2 && |r.value.dngPaths| == 1
  {
    var dng := dir + "/" + name + ".DNG";
    var jpg1, jpg2 := dir + "/" + name + ".JPG", dir + "/" + name + "_JPG";
    BaseNameOfFile(dir, name, ".DNG");
    BaseNameOfFile(dir, name, ".JPG");
    BaseNameOfFile(dir, name, "_JPG");
    NameListOf([dng], [name]);
    NameListOf([jpg2], [name]);
    NameListOf([jpg1, jpg2], [name, name]);
    assert Elems([name, name]) == Elems([name]) == {name};
  }

  /** After a warning the path lists are not re-aligned with the names: with
      DNG names {a, b} and JPG names {a, c} all three lists have length two,
      and position 1 pairs the name b with the JPG file of c. */
  lemma PairWarningMisaligns(dir: string, a: string, b: string, c: string)
    requires '/' !in dir && '/' !in a && '/' !in b && '/' !in c
    requires a != b && a != c && b != c
    ensures var r := Pair([dir + "/" + a + ".DNG", dir + "/" + b + ".DNG"],
                          [dir + "/" + a + ".JPG", dir + "/" + c + ".JPG"]);
      && r.Ok? && r.value.warning == Some({b})
      && r.value.names == [a, b]
      && |r.value.names| == |r.value.dngPaths| == |r.value.jpgPaths| == 2
      && BaseName(r.value.jpgPaths[1]) == Ok(c)
  {
    var dngA, dngB := dir + "/" + a + ".DNG", dir + "/" + b + ".DNG";
    var jpgA, jpgC := dir + "/" + a + ".JPG", dir + "/" + c + ".JPG";
    BaseNameOfFile(dir, a, ".DNG");
    BaseNameOfFile(dir, b, ".DNG");
    BaseNameOfFile(dir, a, ".JPG");
    BaseNameOfFile(dir, c, ".JPG");
    NameListOf([jpgC], [c]);
    NameListOf([jpgA, jpgC], [a, c]);
    NameListOf([dngB], [b]);
    NameListOf([dngA, dngB], [a, b]);
    assert Elems([a, b]) == {a, b} && Elems([a, c]) == {a, c};
    assert Elems([a, b]) - Elems([a, c]) == {b};
  }
}
