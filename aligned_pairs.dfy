/** A corrected pairing. `get_dng_jpg` returns the JPG name list next to
    the two path lists, each sorted on its own, and `get_imgs` zips the
    three. Matching name sets do not make the positions agree (see
    `MatchedPairs.MisalignedWithoutWarning`). The pairing below looks up,
    for every JPG file in list order, the DNG file of the same base name,
    so that each triple describes one shot. */
module AlignedPairs {
  import opened Results
  import opened Pairing
  import opened Metadata
  import opened Images

  /** The first position of `x` in `s`. */
  function IndexOf(s: seq<string>, x: string): (k: nat)
    requires x in s
    ensures k < |s| && s[k] == x
    ensures forall j :: 0 <= j < k ==> s[j] != x
  {
    if s[0] == x then 0 else 1 + IndexOf(s[1..], x)
  }

  /** The JPG files whose name also names a DNG file, in JPG order, each
      beside the first DNG file of that name. */
  function Align(jpgs: seq<string>, jpgNames: seq<string>, dngs: seq<string>, dngNames: seq<string>)
    : (r: Pairing)
    requires |jpgs| == |jpgNames| && |dngs| == |dngNames|
    ensures |r.names| == |r.dngPaths| == |r.jpgPaths| <= |jpgs|
    ensures r.warning == None
  {
    if jpgNames == [] then Pairing([], [], [], None)
    else
      var rest := Align(jpgs[1..], jpgNames[1..], dngs, dngNames);
      if jpgNames[0] in dngNames then
        var k := IndexOf(dngNames, jpgNames[0]);
        Pairing([jpgNames[0]] + rest.names, [dngs[k]] + rest.dngPaths, [jpgs[0]] + rest.jpgPaths, None)
      else rest
  }

  /** The i-th path of `paths` is a path of `src` whose name in `srcNames`
      is the i-th name of `names`. */
  ghost predicate TakenFrom(paths: seq<string>, names: seq<string>, src: seq<string>, srcNames: seq<string>)
  {
    forall i :: 0 <= i < |paths| && i < |names| ==>
      exists k :: 0 <= k < |src| && k < |srcNames| && paths[i] == src[k] && srcNames[k] == names[i]
  }

  /** Every triple of `Align` is one name with a DNG and a JPG file of that
      name, and exactly the names of both lists are kept. */
  lemma AlignSpec(jpgs: seq<string>, jpgNames: seq<string>, dngs: seq<string>, dngNames: seq<string>)
    requires |jpgs| == |jpgNames| && |dngs| == |dngNames|
    ensures TakenFrom(Align(jpgs, jpgNames, dngs, dngNames).dngPaths,
                      Align(jpgs, jpgNames, dngs, dngNames).names, dngs, dngNames)
    ensures TakenFrom(Align(jpgs, jpgNames, dngs, dngNames).jpgPaths,
                      Align(jpgs, jpgNames, dngs, dngNames).names, jpgs, jpgNames)
    ensures Elems(Align(jpgs, jpgNames, dngs, dngNames).names) == Elems(jpgNames) * Elems(dngNames)
  {
    AlignDngs(jpgs, jpgNames, dngs, dngNames);
    AlignJpgs(jpgs, jpgNames, dngs, dngNames);
    AlignNames(jpgs, jpgNames, dngs, dngNames);
  }

  /** Each DNG path of `Align` is a listed DNG file of the triple's name. */
  lemma {:induction false} AlignDngs(jpgs: seq<string>, jpgNames: seq<string>,
                                     dngs: seq<string>, dngNames: seq<string>)
    requires |jpgs| == |jpgNames| && |dngs| == |dngNames|
    ensures TakenFrom(Align(jpgs, jpgNames, dngs, dngNames).dngPaths,
                      Align(jpgs, jpgNames, dngs, dngNames).names, dngs, dngNames)
  {
    if jpgNames != [] {
      AlignDngs(jpgs[1..], jpgNames[1..], dngs, dngNames);
      var rest := Align(jpgs[1..], jpgNames[1..], dngs, dngNames);
      var r := Align(jpgs, jpgNames, dngs, dngNames);
      if jpgNames[0] in dngNames {
        var k0 := IndexOf(dngNames, jpgNames[0]);
        forall i | 0 <= i < |r.dngPaths| && i < |r.names|
          ensures exists k :: 0 <= k < |dngs| && k < |dngNames| && r.dngPaths[i] == dngs[k] && dngNames[k] == r.names[i]
        {
          if i == 0 {
            assert r.dngPaths[0] == dngs[k0];
          } else {
            var j := i - 1;
            assert 0 <= j < |rest.names| && r.names[i] == rest.names[j] && r.dngPaths[i] == rest.dngPaths[j];
            var k :| 0 <= k < |dngs| && k < |dngNames| && rest.dngPaths[j] == dngs[k] && dngNames[k] == rest.names[j];
          }
        }
      }
    }
  }

  /** Each JPG path of `Align` is a listed JPG file of the triple's name. */
  lemma {:induction false} AlignJpgs(jpgs: seq<string>, jpgNames: seq<string>,
                                     dngs: seq<string>, dngNames: seq<string>)
    requires |jpgs| == |jpgNames| && |dngs| == |dngNames|
    ensures TakenFrom(Align(jpgs, jpgNames, dngs, dngNames).jpgPaths,
                      Align(jpgs, jpgNames, dngs, dngNames).names, jpgs, jpgNames)
  {
    if jpgNames != [] {
      AlignJpgs(jpgs[1..], jpgNames[1..], dngs, dngNames);
      var rest := Align(jpgs[1..], jpgNames[1..], dngs, dngNames);
      var r := Align(jpgs, jpgNames, dngs, dngNames);
      var kept := jpgNames[0] in dngNames;
      forall i | 0 <= i < |r.jpgPaths| && i < |r.names|
        ensures exists k :: 0 <= k < |jpgs| && k < |jpgNames| && r.jpgPaths[i] == jpgs[k] && jpgNames[k] == r.names[i]
      {
        if kept && i == 0 {
          assert r.jpgPaths[0] == jpgs[0];
        } else {
          var j := if kept then i - 1 else i;
          assert 0 <= j < |rest.names| && r.names[i] == rest.names[j] && r.jpgPaths[i] == rest.jpgPaths[j];
          var k :| 0 <= k < |jpgs[1..]| && k < |jpgNames[1..]| && rest.jpgPaths[j] == jpgs[1..][k]
                   && jpgNames[1..][k] == rest.names[j];
          assert jpgs[k + 1] == jpgs[1..][k];
        }
      }
    }
  }

  /** `Align` keeps exactly the names listed in both formats. */
  lemma {:induction false} AlignNames(jpgs: seq<string>, jpgNames: seq<string>,
                                      dngs: seq<string>, dngNames: seq<string>)
    requires |jpgs| == |jpgNames| && |dngs| == |dngNames|
    ensures Elems(Align(jpgs, jpgNames, dngs, dngNames).names) == Elems(jpgNames) * Elems(dngNames)
  {
    if jpgNames != [] {
      AlignNames(jpgs[1..], jpgNames[1..], dngs, dngNames);
      var rest := Align(jpgs[1..], jpgNames[1..], dngs, dngNames);
      var r := Align(jpgs, jpgNames, dngs, dngNames);
      assert jpgNames == [jpgNames[0]] + jpgNames[1..];
      assert Elems(jpgNames) == {jpgNames[0]} + Elems(jpgNames[1..]);
      if jpgNames[0] in dngNames {
        assert r.names == [jpgNames[0]] + rest.names;
        assert Elems(r.names) == {jpgNames[0]} + Elems(rest.names);
      }
    }
  }

  /** `get_dng_jpg` with each name placed beside its own DNG and JPG
      files. It fails, and warns, exactly as `get_dng_jpg` does. */
  function AlignedPair(imagesDng: seq<string>, imagesJpg: seq<string>): (r: Result<Pairing>)
    ensures r.Err? <==> Pair(imagesDng, imagesJpg).Err?
    ensures r.Err? ==> r.error == Pair(imagesDng, imagesJpg).error
    ensures r.Ok? ==> r.value.warning == Pair(imagesDng, imagesJpg).value.warning
    ensures r.Ok? ==> |r.value.names| == |r.value.dngPaths| == |r.value.jpgPaths|
  {
    match Pair(imagesDng, imagesJpg)
    case Err(e) => Err(e)
    case Ok(p) =>
      var jpgNames, dngNames := NameList(imagesJpg).value, NameList(imagesDng).value;
      Ok(Align(imagesJpg, jpgNames, imagesDng, dngNames).(warning := p.warning))
  }

  /** What the corrected pairing promises: every triple is one name, a DNG
      file of that name and a JPG file of that name, taken from the two
      listings; the names kept are exactly those with files in both formats;
      and with no warning, exactly the names `get_dng_jpg` returns. */
  lemma AlignedPairSpec(imagesDng: seq<string>, imagesJpg: seq<string>)
    requires AlignedPair(imagesDng, imagesJpg).Ok?
    ensures var r := AlignedPair(imagesDng, imagesJpg).value;
      forall i :: 0 <= i < |r.names| ==>
        && BaseName(r.dngPaths[i]) == Ok(r.names[i]) && r.dngPaths[i] in imagesDng
        && BaseName(r.jpgPaths[i]) == Ok(r.names[i]) && r.jpgPaths[i] in imagesJpg
    ensures Elems(AlignedPair(imagesDng, imagesJpg).value.names) ==
            Elems(NameList(imagesDng).value) * Elems(NameList(imagesJpg).value)
    ensures AlignedPair(imagesDng, imagesJpg).value.warning == None ==>
            Elems(AlignedPair(imagesDng, imagesJpg).value.names) ==
            Elems(Pair(imagesDng, imagesJpg).value.names)
  {
    var jpgNames, dngNames := NameList(imagesJpg).value, NameList(imagesDng).value;
    AlignSpec(imagesJpg, jpgNames, imagesDng, dngNames);
    var r := AlignedPair(imagesDng, imagesJpg).value;
    forall i | 0 <= i < |r.names|
      ensures BaseName(r.dngPaths[i]) == Ok(r.names[i]) && r.dngPaths[i] in imagesDng
      ensures BaseName(r.jpgPaths[i]) == Ok(r.names[i]) && r.jpgPaths[i] in imagesJpg
    {
      var k :| 0 <= k < |imagesDng| && r.dngPaths[i] == imagesDng[k] && dngNames[k] == r.names[i];
      var m :| 0 <= m < |imagesJpg| && r.jpgPaths[i] == imagesJpg[m] && jpgNames[m] == r.names[i];
    }
    assert Elems(r.names) == Elems(dngNames) * Elems(jpgNames);
    if r.warning == None {
      PairBranches(imagesDng, imagesJpg, dngNames, jpgNames);
    }
  }

  /** `get_imgs` over the corrected pairing: the count check can no longer
      fail, and every record names its own two files. */
  function AlignedImgsOf(imagesDng: seq<string>, imagesJpg: seq<string>,
                         meta: string -> Result<map<string, Value>>)
    : (r: Result<seq<DJIImage>>)
  {
    match AlignedPair(imagesDng, imagesJpg)
    case Err(e) => Err(e)
    case Ok(p) => Assemble(p.names, p.dngPaths, p.jpgPaths, meta)
  }

  /** Each record of the corrected `get_imgs` holds a DNG and a JPG file
      whose base name is the record's name. */
  lemma AlignedImgsMatch(imagesDng: seq<string>, imagesJpg: seq<string>,
                         meta: string -> Result<map<string, Value>>)
    requires AlignedImgsOf(imagesDng, imagesJpg, meta).Ok?
    ensures forall img :: img in AlignedImgsOf(imagesDng, imagesJpg, meta).value ==>
              BaseName(img.dngPath) == Ok(img.imgName) && BaseName(img.jpgPath) == Ok(img.imgName)
              && img.dngPath in imagesDng && img.jpgPath in imagesJpg
  {
    var p := AlignedPair(imagesDng, imagesJpg).value;
    AlignedPairSpec(imagesDng, imagesJpg);
    var imgs := AlignedImgsOf(imagesDng, imagesJpg, meta).value;
    forall img | img in imgs
      ensures BaseName(img.dngPath) == Ok(img.imgName) && BaseName(img.jpgPath) == Ok(img.imgName)
      ensures img.dngPath in imagesDng && img.jpgPath in imagesJpg
    {
      var i :| 0 <= i < |imgs| && imgs[i] == img;
    }
  }
}
