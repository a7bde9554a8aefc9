/** `get_imgs`: pairs the DNG and JPG files of a directory and builds one
    `DJIImage` record per name, with the metadata read from the DNG file. */
module Images {
  import opened Results
  import opened Listing
  import opened Pairing
  import opened Metadata

  /** The `DJIImage` dataclass. */
  datatype DJIImage = DJIImage(imgName: string, dngPath: string, jpgPath: string, metadata: map<string, Value>)

  /** The loop over `zip(img_names, images_dng, images_jpg)`: one record per
      triple in list order; the first metadata failure ends it. */
  function Assemble(names: seq<string>, dngs: seq<string>, jpgs: seq<string>,
                    meta: string -> Result<map<string, Value>>)
    : (r: Result<seq<DJIImage>>)
    requires |names| == |dngs| == |jpgs|
    ensures r.Ok? ==> |r.value| == |names|
    ensures r.Ok? ==> forall i :: 0 <= i < |r.value| ==>
              r.value[i].imgName == names[i] && r.value[i].dngPath == dngs[i] && r.value[i].jpgPath == jpgs[i]
  {
    if names == [] then Ok([])
    else
      match meta(dngs[0])
      case Err(e) => Err(e)
      case Ok(md) =>
        match Assemble(names[1..], dngs[1..], jpgs[1..], meta)
        case Err(e) => Err(e)
        case Ok(rest) => Ok([DJIImage(names[0], dngs[0], jpgs[0], md)] + rest)
  }

  /** The loop succeeds exactly when the metadata of every DNG file can be
      read; it then holds one record per triple, the i-th made of the i-th
      name, DNG path, JPG path and that DNG file's metadata. Otherwise it
      raises the error of the first DNG file, in list order, that fails. */
  lemma {:induction false} AssembleSpec(names: seq<string>, dngs: seq<string>, jpgs: seq<string>,
                                        meta: string -> Result<map<string, Value>>)
    requires |names| == |dngs| == |jpgs|
    ensures Assemble(names, dngs, jpgs, meta).Ok? <==>
              forall i :: 0 <= i < |dngs| ==> meta(dngs[i]).Ok?
    ensures Assemble(names, dngs, jpgs, meta).Ok? ==>
              var r := Assemble(names, dngs, jpgs, meta).value;
              && |r| == |names|
              && forall i :: 0 <= i < |r| ==>
                   r[i] == DJIImage(names[i], dngs[i], jpgs[i], meta(dngs[i]).value)
    ensures Assemble(names, dngs, jpgs, meta).Err? ==>
              exists i :: 0 <= i < |dngs| && meta(dngs[i]).Err?
                && (forall j :: 0 <= j < i ==> meta(dngs[j]).Ok?)
                && Assemble(names, dngs, jpgs, meta).error == meta(dngs[i]).error
  {
    if names != [] {
      AssembleSpec(names[1..], dngs[1..], jpgs[1..], meta);
      var head := meta(dngs[0]);
      var tail := Assemble(names[1..], dngs[1..], jpgs[1..], meta);
      if head.Ok? && tail.Ok? {
        var r := Assemble(names, dngs, jpgs, meta).value;
        forall i | 0 <= i < |r|
          ensures r[i] == DJIImage(names[i], dngs[i], jpgs[i], meta(dngs[i]).value)
        {
          if i > 0 { assert r[i] == tail.value[i - 1]; }
        }
        forall i | 0 <= i < |dngs| ensures meta(dngs[i]).Ok? {
          if i > 0 { assert dngs[i] == dngs[1..][i - 1]; }
        }
      } else if head.Ok? {
        var k :| 0 <= k < |dngs[1..]| && meta(dngs[1..][k]).Err?
                 && (forall j :: 0 <= j < k ==> meta(dngs[1..][j]).Ok?)
                 && tail.error == meta(dngs[1..][k]).error;
        assert dngs[k + 1] == dngs[1..][k];
        forall j | 0 <= j < k + 1 ensures meta(dngs[j]).Ok? {
          if j > 0 { assert dngs[j] == dngs[1..][j - 1]; }
        }
      }
    }
  }

  /** When the metadata of the i-th DNG file is the first to fail, the loop
      raises its error. */
  lemma FirstFailure(names: seq<string>, dngs: seq<string>, jpgs: seq<string>, i: nat,
                     meta: string -> Result<map<string, Value>>)
    requires |names| == |dngs| == |jpgs| && i < |dngs|
    requires forall j :: 0 <= j < i ==> meta(dngs[j]).Ok?
    requires meta(dngs[i]).Err?
    ensures Assemble(names, dngs, jpgs, meta) == Err(meta(dngs[i]).error)
  {
    AssembleSpec(names, dngs, jpgs, meta);
    var k :| 0 <= k < |dngs| && meta(dngs[k]).Err?
             && (forall j :: 0 <= j < k ==> meta(dngs[j]).Ok?)
             && Assemble(names, dngs, jpgs, meta).error == meta(dngs[k]).error;
    assert k == i;
  }

  /** One more successful read extends the records built so far by the
      record of the next triple. */
  lemma AssembleExtend(names: seq<string>, dngs: seq<string>, jpgs: seq<string>,
                       meta: string -> Result<map<string, Value>>, i: nat, imgs: seq<DJIImage>)
    requires |names| == |dngs| == |jpgs| && i < |names|
    requires Assemble(names[..i], dngs[..i], jpgs[..i], meta) == Ok(imgs)
    requires meta(dngs[i]).Ok?
    ensures Assemble(names[..i + 1], dngs[..i + 1], jpgs[..i + 1], meta) ==
              Ok(imgs + [DJIImage(names[i], dngs[i], jpgs[i], meta(dngs[i]).value)])
  {
    assert names[..i + 1] == names[..i] + [names[i]];
    assert dngs[..i + 1] == dngs[..i] + [dngs[i]];
    assert jpgs[..i + 1] == jpgs[..i] + [jpgs[i]];
    AssembleSnoc(names[..i], dngs[..i], jpgs[..i], meta, names[i], dngs[i], jpgs[i]);
  }

  /** Appending a triple whose metadata can be read appends its record. */
  lemma {:induction false} AssembleSnoc(names: seq<string>, dngs: seq<string>, jpgs: seq<string>,
                                        meta: string -> Result<map<string, Value>>,
                                        name: string, dng: string, jpg: string)
    requires |names| == |dngs| == |jpgs|
    requires Assemble(names, dngs, jpgs, meta).Ok? && meta(dng).Ok?
    ensures Assemble(names + [name], dngs + [dng], jpgs + [jpg], meta) ==
              Ok(Assemble(names, dngs, jpgs, meta).value + [DJIImage(name, dng, jpg, meta(dng).value)])
  {
    if names != [] {
      AssembleSnoc(names[1..], dngs[1..], jpgs[1..], meta, name, dng, jpg);
      assert (names + [name])[1..] == names[1..] + [name];
      assert (dngs + [dng])[1..] == dngs[1..] + [dng];
      assert (jpgs + [jpg])[1..] == jpgs[1..] + [jpg];
      assert (names + [name])[0] == names[0] && (dngs + [dng])[0] == dngs[0] && (jpgs + [jpg])[0] == jpgs[0];
      var head := DJIImage(names[0], dngs[0], jpgs[0], meta(dngs[0]).value);
      var tail := Assemble(names[1..], dngs[1..], jpgs[1..], meta).value;
      var rec := DJIImage(name, dng, jpg, meta(dng).value);
      assert Assemble(names, dngs, jpgs, meta).value == [head] + tail;
      assert [head] + (tail + [rec]) == ([head] + tail) + [rec];
    } else {
      assert names + [name] == [name] && dngs + [dng] == [dng] && jpgs + [jpg] == [jpg];
      assert [name][1..] == [] && [dng][1..] == [] && [jpg][1..] == [];
      assert Assemble([], [], [], meta) == Ok([]);
      var one := Assemble([name], [dng], [jpg], meta);
      assert [dng][0] == dng && [name][0] == name && [jpg][0] == jpg;
      assert Assemble([name][1..], [dng][1..], [jpg][1..], meta) == Ok([]);
      var rec := DJIImage(name, dng, jpg, meta(dng).value);
      assert one == Ok([rec] + []);
      assert [rec] + [] == [rec] == [] + [rec];
      assert Assemble(names, dngs, jpgs, meta).value == [];
    }
  }

  /** A failed read after successful ones ends the loop with its error. */
  lemma AssembleStops(names: seq<string>, dngs: seq<string>, jpgs: seq<string>,
                      meta: string -> Result<map<string, Value>>, i: nat)
    requires |names| == |dngs| == |jpgs| && i < |names|
    requires Assemble(names[..i], dngs[..i], jpgs[..i], meta).Ok?
    requires meta(dngs[i]).Err?
    ensures Assemble(names, dngs, jpgs, meta) == Err(meta(dngs[i]).error)
  {
    AssembleSpec(names[..i], dngs[..i], jpgs[..i], meta);
    forall j | 0 <= j < i ensures meta(dngs[j]).Ok? {
      assert dngs[..i][j] == dngs[j];
    }
    FirstFailure(names, dngs, jpgs, i, meta);
  }

  /** The value `get_imgs(path)` returns or the exception it raises, once
      the DNG and JPG listings are known. */
  function ImgsOf(imagesDng: seq<string>, imagesJpg: seq<string>, meta: string -> Result<map<string, Value>>)
    : (r: Result<seq<DJIImage>>)
    ensures r.Ok? ==> |r.value| == |imagesDng| == |imagesJpg|
    ensures r.Ok? ==> forall i :: 0 <= i < |r.value| ==>
              r.value[i].dngPath == imagesDng[i] && r.value[i].jpgPath == imagesJpg[i]
  {
    match Pair(imagesDng, imagesJpg)
    case Err(e) => Err(e)
    case Ok(p) =>
      if |p.names| != |p.dngPaths| || |p.names| != |p.jpgPaths| then Err(CountMismatch)
      else Assemble(p.names, p.dngPaths, p.jpgPaths, meta)
  }

  /** `get_imgs(path)` over the directory listing `files`. */
  function Imgs(path: string, files: seq<string>,
                readRaw: string -> Option<map<string, string>>, parse: string -> Option<real>)
    : (r: Result<seq<DJIImage>>)
    ensures r.Ok? ==> |r.value| == |ImageList(path, files, "DNG")| == |ImageList(path, files, "JPG")|
  {
    ImgsOf(ImageList(path, files, "DNG"), ImageList(path, files, "JPG"), MetadataOf(readRaw, parse))
  }

  /** What `get_imgs` promises, given the two listings. A pairing failure
      propagates. After pairing, the count-mismatch exception is raised
      exactly when the name list and the two path lists do not all have the
      same length. Otherwise the result holds one record per name, the i-th
      made of the i-th name, DNG path, JPG path and the metadata of that DNG
      file, or else the first metadata failure. */
  lemma ImgsSpec(imagesDng: seq<string>, imagesJpg: seq<string>, meta: string -> Result<map<string, Value>>)
    requires forall f :: meta(f).Err? ==> meta(f).error != CountMismatch
    ensures Pair(imagesDng, imagesJpg).Err? ==>
              ImgsOf(imagesDng, imagesJpg, meta) == Err(Pair(imagesDng, imagesJpg).error)
    ensures ImgsOf(imagesDng, imagesJpg, meta) == Err(CountMismatch) <==>
              Pair(imagesDng, imagesJpg).Ok? &&
              var p := Pair(imagesDng, imagesJpg).value;
              |p.names| != |imagesDng| || |p.names| != |imagesJpg|
    ensures ImgsOf(imagesDng, imagesJpg, meta).Ok? ==>
              var names := Pair(imagesDng, imagesJpg).value.names;
              var r := ImgsOf(imagesDng, imagesJpg, meta).value;
              && |r| == |names| == |imagesDng| == |imagesJpg|
              && forall i :: 0 <= i < |r| ==>
                   && meta(imagesDng[i]).Ok?
                   && r[i] == DJIImage(names[i], imagesDng[i], imagesJpg[i],
                                       meta(imagesDng[i]).value)
    ensures Pair(imagesDng, imagesJpg).Ok? &&
            |Pair(imagesDng, imagesJpg).value.names| == |imagesDng| == |imagesJpg| ==>
              ImgsOf(imagesDng, imagesJpg, meta) ==
                Assemble(Pair(imagesDng, imagesJpg).value.names, imagesDng, imagesJpg, meta)
  {
    PairOutcome(imagesDng, imagesJpg);
    var pr := Pair(imagesDng, imagesJpg);
    if pr.Ok? {
      var p := pr.value;
      if |p.names| == |p.dngPaths| == |p.jpgPaths| {
        AssembleSpec(p.names, p.dngPaths, p.jpgPaths, meta);
        var r := Assemble(p.names, p.dngPaths, p.jpgPaths, meta);
        if r.Err? {
          var i :| 0 <= i < |p.dngPaths| && meta(p.dngPaths[i]).Err?
                   && r.error == meta(p.dngPaths[i]).error;
        }
      }
    }
  }

  /** For a directory: `get_imgs` raises its count-mismatch exception exactly
      when `get_dng_jpg` succeeds with a name list whose length differs from
      one of the two path lists; metadata reading never raises it. */
  lemma ImgsCountCheck(path: string, files: seq<string>,
                       readRaw: string -> Option<map<string, string>>, parse: string -> Option<real>)
    ensures Imgs(path, files, readRaw, parse) == Err(CountMismatch) <==>
              GetDngJpg(path, files).Ok? &&
              var p := GetDngJpg(path, files).value;
              |p.names| != |ImageList(path, files, "DNG")| || |p.names| != |ImageList(path, files, "JPG")|
  {
    MetadataNeverCountMismatch(readRaw, parse);
    ImgsSpec(ImageList(path, files, "DNG"), ImageList(path, files, "JPG"), MetadataOf(readRaw, parse));
  }

  /** `get_imgs(path)`: lists the two formats, pairs the names, checks the
      counts, then builds the records. */
  method GetImgs(path: string, files: seq<string>,
                 readRaw: string -> Option<map<string, string>>, parse: string -> Option<real>)
    returns (r: Result<seq<DJIImage>>)
    ensures r == Imgs(path, files, readRaw, parse)
  {
    var imagesDng := GetImageList(path, files, "DNG");
    var imagesJpg := GetImageList(path, files, "JPG");
    assert Imgs(path, files, readRaw, parse) == ImgsOf(imagesDng, imagesJpg, MetadataOf(readRaw, parse));
    var pairing := Pair(imagesDng, imagesJpg);
    if pairing.Err? {
      return Err(pairing.error);
    }
    var names, dngs, jpgs := pairing.value.names, pairing.value.dngPaths, pairing.value.jpgPaths;
    if |names| != |dngs| || |names| != |jpgs| {
      return Err(CountMismatch);
    }
    r := CollectImgs(names, dngs, jpgs, readRaw, parse);
  }

  /** The loop of `get_imgs`: walks the three lists together, reading each
      DNG file's metadata and appending its record. */
  method CollectImgs(names: seq<string>, dngs: seq<string>, jpgs: seq<string>,
                     readRaw: string -> Option<map<string, string>>, parse: string -> Option<real>)
    returns (r: Result<seq<DJIImage>>)
    requires |names| == |dngs| == |jpgs|
    ensures r == Assemble(names, dngs, jpgs, MetadataOf(readRaw, parse))
  {
    ghost var meta := MetadataOf(readRaw, parse);
    var imgs: seq<DJIImage> := [];
    for i := 0 to |names|
      invariant Assemble(names[..i], dngs[..i], jpgs[..i], meta) == Ok(imgs)
    {
      var metadata := GetDjiMetadata(dngs[i], readRaw, parse);
      assert metadata == meta(dngs[i]);
      if metadata.Err? {
        AssembleStops(names, dngs, jpgs, meta, i);
        return Err(metadata.error);
      }
      AssembleExtend(names, dngs, jpgs, meta, i, imgs);
      imgs := imgs + [DJIImage(names[i], dngs[i], jpgs[i], metadata.value)];
    }
    assert names[..|names|] == names && dngs[..|names|] == dngs && jpgs[..|names|] == jpgs;
    r := Ok(imgs);
  }
}
