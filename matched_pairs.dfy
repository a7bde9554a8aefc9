/** A survey directory where every shot was saved in both formats: for
    each name `n` the files `n.DNG` and `n.JPG`, listed in any order.
    `get_dng_jpg` then prints no warning and returns three lists of the same
    length, with every name once in the name set. */
module MatchedPairs {
  import opened Results
  import opened Strings
  import opened Sorting
  import opened Listing
  import opened Pairing

  /** The file names `n + ext` for the names `ns`, in order. */
  function Tagged(ns: seq<string>, ext: string): (r: seq<string>)
    ensures |r| == |ns|
    ensures forall i :: 0 <= i < |ns| ==> r[i] == ns[i] + ext
  {
    seq(|ns|, i requires 0 <= i < |ns| => ns[i] + ext)
  }

  // ---------------------------------------------------------------------------
  // The format test on `name.EXT`

  /** A file `n.TOK` contains its own format token. */
  lemma SelectedOwnFormat(n: string, tok: string)
    requires |tok| == 3
    ensures Selected(n + ("." + tok), tok)
  {
    var hay := n + ("." + tok);
    assert hay[|n| + 1..|n| + 4] == tok;
    assert OccursAt(hay, tok, |n| + 1);
    ContainsIffOccurs(hay, tok);
  }

  /** A file `n.OTHER` does not contain the token `tok` when the name does
      not: an occurrence would have to cross the '.' or be `OTHER` itself. */
  lemma NotSelectedOtherFormat(n: string, tok: string, other: string)
    requires |tok| == 3 && |other| == 3 && tok != other && '.' !in tok
    requires !Contains(n, tok)
    ensures !Selected(n + ("." + other), tok)
  {
    var hay := n + ("." + other);
    ContainsIffOccurs(n, tok);
    forall i ensures !OccursAt(hay, tok, i) {
      NoOccurrenceAt(n, tok, other, i);
    }
    ContainsIffOccurs(hay, tok);
  }

  /** One position of `n.OTHER`: inside `n`, across the '.', or at `OTHER`. */
  lemma NoOccurrenceAt(n: string, tok: string, other: string, i: int)
    requires |tok| == 3 && |other| == 3 && tok != other && '.' !in tok
    requires !OccursAt(n, tok, i)
    ensures !OccursAt(n + ("." + other), tok, i)
  {
    var hay := n + ("." + other);
    if 0 <= i && i + 3 <= |hay| {
      var w := hay[i..i + 3];
      if i + 3 <= |n| {
        assert hay[..|n|] == n;
        assert w == n[i..i + 3];
      } else if i <= |n| {
        assert w[|n| - i] == '.';
      } else {
        assert w == other;
      }
    }
  }

  // ---------------------------------------------------------------------------
  // The filtering comprehension on such listings

  lemma {:induction false} CandidatesAppend(path: string, a: seq<string>, b: seq<string>, format: string)
    ensures Candidates(path, a + b, format) == Candidates(path, a, format) + Candidates(path, b, format)
  {
    if a != [] {
      CandidatesAppend(path, a[1..], b, format);
      assert (a + b)[0] == a[0] && (a + b)[1..] == a[1..] + b;
      var h := if Selected(a[0], format) then [path + a[0]] else [];
      assert Candidates(path, a + b, format) == h + Candidates(path, a[1..] + b, format);
      assert Candidates(path, a, format) == h + Candidates(path, a[1..], format);
    } else {
      assert a + b == b;
    }
  }

  lemma {:induction false} CandidatesNoneSelected(path: string, files: seq<string>, format: string)
    requires forall f :: f in files ==> !Selected(f, format)
    ensures Candidates(path, files, format) == []
  {
    if files != [] {
      assert files[0] in files;
      CandidatesNoneSelected(path, files[1..], format);
    }
  }

  lemma {:induction false} CandidatesAllSelected(path: string, files: seq<string>, format: string)
    requires forall f :: f in files ==> Selected(f, format)
    ensures |Candidates(path, files, format)| == |files|
    ensures forall i :: 0 <= i < |files| ==> Candidates(path, files, format)[i] == path + files[i]
  {
    if files != [] {
      assert files[0] in files;
      CandidatesAllSelected(path, files[1..], format);
      var c := Candidates(path, files, format);
      forall i | 0 <= i < |files| ensures c[i] == path + files[i] {
        if i > 0 { assert files[1..][i - 1] == files[i]; }
      }
    }
  }

  /** The comprehension does not depend on the listing order, up to order. */
  lemma CandidatesPermutation(path: string, a: seq<string>, b: seq<string>, format: string)
    requires multiset(a) == multiset(b)
    ensures multiset(Candidates(path, a, format)) == multiset(Candidates(path, b, format))
  {
    forall x ensures multiset(Candidates(path, a, format))[x] == multiset(Candidates(path, b, format))[x] {
      CandidatesCountAt(path, a, format, x);
      CandidatesCountAt(path, b, format, x);
    }
  }

  /** How often the comprehension yields a given string: as often as the
      listing holds the selected name the string extends the path by. */
  lemma CandidatesCountAt(path: string, files: seq<string>, format: string, x: string)
    ensures multiset(Candidates(path, files, format))[x] ==
            if path <= x && Selected(x[|path|..], format) then multiset(files)[x[|path|..]] else 0
  {
    CandidatesCount(path, files, format);
    if path <= x {
      assert x == path + x[|path|..];
    } else {
      assert x !in Candidates(path, files, format);
    }
  }

  // ---------------------------------------------------------------------------
  // One format of a matched directory

  lemma OwnFilesSelected(ns: seq<string>, tok: string)
    requires |tok| == 3
    ensures forall f :: f in Tagged(ns, "." + tok) ==> Selected(f, tok)
  {
    var own := Tagged(ns, "." + tok);
    forall f | f in own ensures Selected(f, tok) {
      var i :| 0 <= i < |own| && own[i] == f;
      SelectedOwnFormat(ns[i], tok);
    }
  }

  lemma OtherFilesNotSelected(ns: seq<string>, tok: string, other: string)
    requires |tok| == 3 && |other| == 3 && tok != other && '.' !in tok
    requires forall n :: n in ns ==> !Contains(n, tok)
    ensures forall f :: f in Tagged(ns, "." + other) ==> !Selected(f, tok)
  {
    var rest := Tagged(ns, "." + other);
    forall f | f in rest ensures !Selected(f, tok) {
      var i :| 0 <= i < |rest| && rest[i] == f;
      assert ns[i] in ns;
      NotSelectedOtherFormat(ns[i], tok, other);
    }
  }

  /** The filtered list of one format is, up to order, the paths
      `dir/n.TOK` in name order. */
  lemma FormatCandidates(dir: string, ns: seq<string>, files: seq<string>, tok: string, other: string)
    requires |tok| == 3 && |other| == 3 && tok != other && '.' !in tok
    requires forall n :: n in ns ==> !Contains(n, tok)
    requires multiset(files) == multiset(Tagged(ns, "." + tok) + Tagged(ns, "." + other))
    ensures var c := Candidates(dir + "/", Tagged(ns, "." + tok), tok);
      && multiset(ImageList(dir + "/", files, tok)) == multiset(c)
      && |c| == |ns|
      && forall i :: 0 <= i < |ns| ==> c[i] == dir + "/" + ns[i] + ("." + tok)
  {
    var p := dir + "/";
    var own := Tagged(ns, "." + tok);
    OwnFilesSelected(ns, tok);
    CandidatesAllSelected(p, own, tok);
    FormatFiltered(p, ns, files, tok, other);
    ImageListSpec(p, files, tok);
  }

  /** Only the files of the format survive the filter, whatever the order. */
  lemma FormatFiltered(p: string, ns: seq<string>, files: seq<string>, tok: string, other: string)
    requires |tok| == 3 && |other| == 3 && tok != other && '.' !in tok
    requires forall n :: n in ns ==> !Contains(n, tok)
    requires multiset(files) == multiset(Tagged(ns, "." + tok) + Tagged(ns, "." + other))
    ensures multiset(Candidates(p, files, tok)) == multiset(Candidates(p, Tagged(ns, "." + tok), tok))
  {
    var own, rest := Tagged(ns, "." + tok), Tagged(ns, "." + other);
    OtherFilesNotSelected(ns, tok, other);
    CandidatesNoneSelected(p, rest, tok);
    CandidatesAppend(p, own, rest, tok);
    assert Candidates(p, own + rest, tok) == Candidates(p, own, tok) + [];
    CandidatesPermutation(p, files, own + rest, tok);
  }

  /** A list holding, up to order, one path per name whose base name is
      that name: its base names are exactly the names, and it holds every
      one of those paths. */
  lemma FormatNames(l: seq<string>, c: seq<string>, ns: seq<string>)
    requires multiset(l) == multiset(c) && |c| == |ns|
    requires forall i :: 0 <= i < |ns| ==> BaseName(c[i]) == Ok(ns[i])
    ensures |l| == |ns|
    ensures forall i :: 0 <= i < |ns| ==> c[i] in l
    ensures NameList(l).Ok?
    ensures Elems(NameList(l).value) == Elems(ns)
  {
    PermutationMembers(l, c);
    NamesWithin(l, c, ns);
    SameNames(l, c, NameList(l).value, ns);
  }

  lemma SameNames(l: seq<string>, c: seq<string>, names: seq<string>, ns: seq<string>)
    requires |names| == |l| && |c| == |ns|
    requires forall i :: 0 <= i < |l| ==> BaseName(l[i]) == Ok(names[i])
    requires forall i :: 0 <= i < |l| ==> BaseName(l[i]).Ok? && BaseName(l[i]).value in ns
    requires forall i :: 0 <= i < |ns| ==> BaseName(c[i]) == Ok(ns[i]) && c[i] in l
    ensures Elems(names) == Elems(ns)
  {
    NamesSubset(l, names, ns);
    NamesCover(l, c, names, ns);
  }

  lemma PermutationMembers(l: seq<string>, c: seq<string>)
    requires multiset(l) == multiset(c)
    ensures |l| == |c|
    ensures forall i :: 0 <= i < |c| ==> c[i] in l
  {
    assert |l| == |multiset(l)| == |multiset(c)| == |c|;
    forall i | 0 <= i < |c| ensures c[i] in l {
      assert c[i] in multiset(c);
    }
  }

  lemma NamesSubset(l: seq<string>, names: seq<string>, ns: seq<string>)
    requires |names| == |l|
    requires forall i :: 0 <= i < |l| ==> BaseName(l[i]) == Ok(names[i])
    requires forall i :: 0 <= i < |l| ==> BaseName(l[i]).Ok? && BaseName(l[i]).value in ns
    ensures Elems(names) <= Elems(ns)
  {
    forall x | x in names ensures x in ns {
      var i :| 0 <= i < |l| && names[i] == x;
    }
  }

  /** Every path of the list has a base name, and it is one of the names. */
  lemma NamesWithin(l: seq<string>, c: seq<string>, ns: seq<string>)
    requires multiset(l) == multiset(c) && |c| == |ns|
    requires forall i :: 0 <= i < |ns| ==> BaseName(c[i]) == Ok(ns[i])
    ensures forall i :: 0 <= i < |l| ==> BaseName(l[i]).Ok? && BaseName(l[i]).value in ns
  {
    forall i | 0 <= i < |l| ensures BaseName(l[i]).Ok? && BaseName(l[i]).value in ns {
      assert l[i] in multiset(c);
      var k :| 0 <= k < |c| && c[k] == l[i];
    }
  }

  /** Every name is a base name of the list. */
  lemma NamesCover(l: seq<string>, c: seq<string>, names: seq<string>, ns: seq<string>)
    requires |names| == |l| && |c| == |ns|
    requires forall i :: 0 <= i < |l| ==> BaseName(l[i]) == Ok(names[i])
    requires forall i :: 0 <= i < |ns| ==> BaseName(c[i]) == Ok(ns[i]) && c[i] in l
    ensures Elems(ns) <= Elems(names)
  {
    forall x | x in ns ensures x in names {
      var k :| 0 <= k < |ns| && ns[k] == x;
      var i :| 0 <= i < |l| && l[i] == c[k];
    }
  }

  /** The sorted list of one format: as many paths as names, every path
      `dir/n.TOK`, and its base names are exactly the names. */
  lemma FormatList(dir: string, ns: seq<string>, files: seq<string>, tok: string, other: string)
    requires '/' !in dir
    requires |tok| == 3 && |other| == 3 && tok != other && '.' !in tok && '/' !in tok
    requires forall n :: n in ns ==> '/' !in n && !Contains(n, tok)
    requires multiset(files) == multiset(Tagged(ns, "." + tok) + Tagged(ns, "." + other))
    ensures |ImageList(dir + "/", files, tok)| == |ns|
    ensures forall i :: 0 <= i < |ns| ==> dir + "/" + ns[i] + ("." + tok) in ImageList(dir + "/", files, tok)
    ensures NameList(ImageList(dir + "/", files, tok)).Ok?
    ensures Elems(NameList(ImageList(dir + "/", files, tok)).value) == Elems(ns)
  {
    FormatCandidates(dir, ns, files, tok, other);
    var c := Candidates(dir + "/", Tagged(ns, "." + tok), tok);
    forall i | 0 <= i < |ns| ensures BaseName(c[i]) == Ok(ns[i]) {
      assert ns[i] in ns;
      BaseNameOfFile(dir, ns[i], "." + tok);
    }
    FormatNames(ImageList(dir + "/", files, tok), c, ns);
  }

  // ---------------------------------------------------------------------------
  // The whole directory

  /** A directory `dir/` holding, for each name of `ns`, one DNG and one JPG
      file and nothing else: `get_dng_jpg` succeeds without a warning, the
      name list and both path lists have one entry per name, the name set
      is the set of shot names, and every file is in its path list. */
  lemma MatchedDirectory(dir: string, ns: seq<string>, files: seq<string>)
    requires '/' !in dir
    requires forall n :: n in ns ==> '/' !in n && !Contains(n, "DNG") && !Contains(n, "JPG")
    requires multiset(files) == multiset(Tagged(ns, ".DNG") + Tagged(ns, ".JPG"))
    ensures GetDngJpg(dir + "/", files).Ok?
    ensures var p := GetDngJpg(dir + "/", files).value;
      && p.warning == None
      && |p.names| == |p.dngPaths| == |p.jpgPaths| == |ns|
      && Elems(p.names) == Elems(ns)
      && forall i :: 0 <= i < |ns| ==>
           dir + "/" + ns[i] + ".DNG" in p.dngPaths && dir + "/" + ns[i] + ".JPG" in p.jpgPaths
  {
    assert ".DNG" == "." + "DNG" && ".JPG" == "." + "JPG";
    FormatList(dir, ns, files, "DNG", "JPG");
    FormatList(dir, ns, files, "JPG", "DNG");
    var dngs, jpgs := ImageList(dir + "/", files, "DNG"), ImageList(dir + "/", files, "JPG");
    var dngNames, jpgNames := NameList(dngs).value, NameList(jpgs).value;
    PairBranches(dngs, jpgs, dngNames, jpgNames);
    assert forall x :: x in dngNames ==> x in Elems(jpgNames);
  }

  // ---------------------------------------------------------------------------
  // Matched names, misaligned paths

  lemma TaggedTwo(a: string, b: string, ext: string)
    ensures Tagged([a, b], ext) == [a + ext, b + ext]
  {
    var t := Tagged([a, b], ext);
    assert t == [t[0], t[1]];
  }

  /** A common prefix does not change the order. */
  lemma {:induction false} LessEqAfterPrefix(p: string, x: string, y: string)
    ensures LessEq(p + x, p + y) == LessEq(x, y)
  {
    if p != [] {
      LessEqAfterPrefix(p[1..], x, y);
      assert (p + x)[1..] == p[1..] + x && (p + y)[1..] == p[1..] + y;
    } else {
      assert p + x == x && p + y == y;
    }
  }

  /** In a matched directory, an ascending rearrangement of the filtered
      paths of one format is that format's listing. */
  lemma ListingIs(dir: string, ns: seq<string>, files: seq<string>, tok: string, other: string,
                  l: seq<string>)
    requires |tok| == 3 && |other| == 3 && tok != other && '.' !in tok
    requires forall n :: n in ns ==> !Contains(n, tok)
    requires multiset(files) == multiset(Tagged(ns, "." + tok) + Tagged(ns, "." + other))
    requires Sorted(l) && multiset(l) == multiset(Candidates(dir + "/", Tagged(ns, "." + tok), tok))
    ensures ImageList(dir + "/", files, tok) == l
  {
    FormatCandidates(dir, ns, files, tok, other);
    ImageListSpec(dir + "/", files, tok);
    SortedUnique(ImageList(dir + "/", files, tok), l);
  }

  /** The filtered paths of two shots saved as `.TOK`, in name order. */
  lemma TwoShotCandidates(dir: string, a: string, b: string, tok: string)
    requires |tok| == 3
    ensures Candidates(dir + "/", Tagged([a, b], "." + tok), tok)
            == [dir + "/" + a + ("." + tok), dir + "/" + b + ("." + tok)]
  {
    TaggedTwo(a, b, "." + tok);
    OwnFilesSelected([a, b], tok);
    CandidatesAllSelected(dir + "/", Tagged([a, b], "." + tok), tok);
    var c := Candidates(dir + "/", Tagged([a, b], "." + tok), tok);
    assert (dir + "/") + (a + ("." + tok)) == dir + "/" + a + ("." + tok);
    assert (dir + "/") + (b + ("." + tok)) == dir + "/" + b + ("." + tok);
    assert c == [c[0], c[1]];
  }

  lemma TwoShotFiles(a: string, b: string, files: seq<string>, tok: string, other: string)
    requires multiset(files) ==
             multiset([a + ("." + tok), b + ("." + tok)]) + multiset([a + ("." + other), b + ("." + other)])
    ensures multiset(files) == multiset(Tagged([a, b], "." + tok) + Tagged([a, b], "." + other))
  {
    TaggedTwo(a, b, "." + tok);
    TaggedTwo(a, b, "." + other);
  }

  /** Two shots `a` and `b`, each saved as `.TOK` and `.OTHER`: the listing
      of `TOK` holds their two paths, in string order. */
  lemma TwoShotListing(dir: string, a: string, b: string, files: seq<string>,
                       tok: string, other: string, ext: string, otherExt: string)
    requires |tok| == 3 && |other| == 3 && tok != other && '.' !in tok
    requires ext == "." + tok && otherExt == "." + other
    requires !Contains(a, tok) && !Contains(b, tok)
    requires multiset(files) == multiset([a + ext, b + ext]) + multiset([a + otherExt, b + otherExt])
    ensures ImageList(dir + "/", files, tok) == Ordered(dir + "/" + a + ext, dir + "/" + b + ext)
  {
    var pa, pb := dir + "/" + a + ("." + tok), dir + "/" + b + ("." + tok);
    TwoShotFiles(a, b, files, tok, other);
    TwoShotCandidates(dir, a, b, tok);
    OrderedSorted(pa, pb);
    ListingIs(dir, [a, b], files, tok, other, Ordered(pa, pb));
  }

  /** Two strings in ascending order. */
  function Ordered(x: string, y: string): seq<string>
  {
    if LessEq(x, y) then [x, y] else [y, x]
  }

  lemma OrderedSorted(x: string, y: string)
    ensures Sorted(Ordered(x, y)) && multiset(Ordered(x, y)) == multiset([x, y])
  {
    LessEqTotal(x, y);
    if !LessEq(x, y) {
      assert multiset([x, y]) == multiset([y, x]);
    }
  }

  /** After a common prefix `q`, the DNG path of `q` sorts before that of
      `q.E` ('.' = '.', then 'D' < 'E'), and the JPG path after it ('J' > 'E'). */
  lemma DotEOrder(p: string, a: string)
    ensures Ordered(p + a + ".DNG", p + (a + ".E") + ".DNG") == [p + a + ".DNG", p + (a + ".E") + ".DNG"]
    ensures Ordered(p + a + ".JPG", p + (a + ".E") + ".JPG") == [p + (a + ".E") + ".JPG", p + a + ".JPG"]
  {
    var q := p + a;
    assert p + (a + ".E") + ".DNG" == q + ".E.DNG" && p + (a + ".E") + ".JPG" == q + ".E.JPG";
    LessEqAfterPrefix(q, ".DNG", ".E.DNG");
    LessEqAfterPrefix(q, ".JPG", ".E.JPG");
    assert LessEq(".DNG", ".E.DNG") && !LessEq(".JPG", ".E.JPG");
  }

  lemma GetDngJpgOf(path: string, files: seq<string>, dngs: seq<string>, jpgs: seq<string>)
    requires ImageList(path, files, "DNG") == dngs && ImageList(path, files, "JPG") == jpgs
    ensures GetDngJpg(path, files) == Pair(dngs, jpgs)
  {
  }

  /** `get_dng_jpg` on the two sorted listings of the shots `a` and `a.E`. */
  lemma DotEPair(dir: string, a: string)
    requires '/' !in dir && '/' !in a
    ensures var p, b := dir + "/", a + ".E";
      && Pair([p + a + ".DNG", p + b + ".DNG"], [p + b + ".JPG", p + a + ".JPG"])
         == Ok(Pairing([b, a], [p + a + ".DNG", p + b + ".DNG"], [p + b + ".JPG", p + a + ".JPG"], None))
      && BaseName(p + a + ".DNG") == Ok(a) && BaseName(p + b + ".JPG") == Ok(b) && a != b
  {
    var p, b := dir + "/", a + ".E";
    assert |b| != |a|;
    BaseNameOfFile(dir, a, ".DNG");
    BaseNameOfFile(dir, b, ".DNG");
    BaseNameOfFile(dir, a, ".JPG");
    BaseNameOfFile(dir, b, ".JPG");
    NameListOf([p + a + ".DNG", p + b + ".DNG"], [a, b]);
    NameListOf([p + b + ".JPG", p + a + ".JPG"], [b, a]);
    assert Elems([a, b]) == Elems([b, a]);
  }

  /** Matching name sets do not make the three lists line up. Take the
      shots `a` and `a.E`, both saved as DNG and JPG. The sort puts `a.DNG`
      before `a.E.DNG` ('D' < 'E') but `a.E.JPG` before `a.JPG` ('E' < 'J').
      The name sets agree, so no warning is printed, and the JPG name order
      is returned: position 0 pairs the name `a.E` with the DNG file of `a`. */
  lemma MisalignedWithoutWarning(dir: string, a: string, files: seq<string>)
    requires '/' !in dir && '/' !in a
    requires !Contains(a, "DNG") && !Contains(a, "JPG")
    requires !Contains(a + ".E", "DNG") && !Contains(a + ".E", "JPG")
    requires multiset(files) == multiset([a + ".DNG", a + ".E" + ".DNG"]) + multiset([a + ".JPG", a + ".E" + ".JPG"])
    ensures var p, b := dir + "/", a + ".E";
      GetDngJpg(p, files)
      == Ok(Pairing([b, a], [p + a + ".DNG", p + b + ".DNG"], [p + b + ".JPG", p + a + ".JPG"], None))
    ensures var p, b := dir + "/", a + ".E";
      BaseName(p + a + ".DNG") == Ok(a) && BaseName(p + b + ".JPG") == Ok(b) && a != b
  {
    var p, b := dir + "/", a + ".E";
    DotEListings(dir, a, files);
    DotEPair(dir, a);
    GetDngJpgOf(p, files, [p + a + ".DNG", p + b + ".DNG"], [p + b + ".JPG", p + a + ".JPG"]);
  }

  /** The two sorted listings of the shots `a` and `a.E`. */
  lemma DotEListings(dir: string, a: string, files: seq<string>)
    requires !Contains(a, "DNG") && !Contains(a, "JPG")
    requires !Contains(a + ".E", "DNG") && !Contains(a + ".E", "JPG")
    requires multiset(files) == multiset([a + ".DNG", a + ".E" + ".DNG"]) + multiset([a + ".JPG", a + ".E" + ".JPG"])
    ensures var p, b := dir + "/", a + ".E";
      && ImageList(p, files, "DNG") == [p + a + ".DNG", p + b + ".DNG"]
      && ImageList(p, files, "JPG") == [p + b + ".JPG", p + a + ".JPG"]
  {
    var p, b := dir + "/", a + ".E";
    TwoShotListing(dir, a, b, files, "DNG", "JPG", ".DNG", ".JPG");
    TwoShotListing(dir, a, b, files, "JPG", "DNG", ".JPG", ".DNG");
    DotEOrder(p, a);
  }
}
