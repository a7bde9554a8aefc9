/** `get_dji_metadata`: the normalisation of the flat XMP description of a
    DNG file. The record is restricted to 16 whitelisted attributes, 15 of
    them are converted to numbers, and the namespace prefixes are stripped
    from the keys. Reading the record from the file is an input function. */
module Metadata {
  import opened Results
  import opened Strings

  /** A metadata value: the text of an XMP attribute, or the number that
      `float()` made of it. The number is a `real` standing for the float
      `parse` produced; rounding is not modelled. */
  datatype Value = Text(text: string) | Number(x: real)

  const XmpPrefix: string := "@xmp:"
  const DjiPrefix: string := "@drone-dji:"

  /** `keep_columns`. */
  const KeepColumns: seq<string> :=
    [XmpPrefix + "CreateDate",
     DjiPrefix + "GpsLatitude", DjiPrefix + "GpsLongitude",
     DjiPrefix + "AbsoluteAltitude", DjiPrefix + "RelativeAltitude",
     DjiPrefix + "GimbalRollDegree", DjiPrefix + "GimbalYawDegree",
     DjiPrefix + "GimbalPitchDegree", DjiPrefix + "FlightRollDegree",
     DjiPrefix + "FlightYawDegree", DjiPrefix + "FlightPitchDegree",
     DjiPrefix + "FlightXSpeed", DjiPrefix + "FlightYSpeed",
     DjiPrefix + "FlightZSpeed", DjiPrefix + "CamReverse",
     DjiPrefix + "GimbalReverse"]

  /** `float_columns`: every kept column except the creation date. */
  const FloatColumns: seq<string> :=
    [DjiPrefix + "GpsLatitude", DjiPrefix + "GpsLongitude",
     DjiPrefix + "AbsoluteAltitude", DjiPrefix + "RelativeAltitude",
     DjiPrefix + "GimbalRollDegree", DjiPrefix + "GimbalYawDegree",
     DjiPrefix + "GimbalPitchDegree", DjiPrefix + "FlightRollDegree",
     DjiPrefix + "FlightYawDegree", DjiPrefix + "FlightPitchDegree",
     DjiPrefix + "FlightXSpeed", DjiPrefix + "FlightYSpeed",
     DjiPrefix + "FlightZSpeed", DjiPrefix + "CamReverse",
     DjiPrefix + "GimbalReverse"]

  /** The keys of a normalised record: the kept columns without prefix. */
  const FieldNames: seq<string> :=
    ["CreateDate",
     "GpsLatitude", "GpsLongitude",
     "AbsoluteAltitude", "RelativeAltitude",
     "GimbalRollDegree", "GimbalYawDegree",
     "GimbalPitchDegree", "FlightRollDegree",
     "FlightYawDegree", "FlightPitchDegree",
     "FlightXSpeed", "FlightYSpeed",
     "FlightZSpeed", "CamReverse",
     "GimbalReverse"]

  /** A whitelist shaped like `keep_columns`: one `@xmp:` key first, then
      `@drone-dji:` keys, over bare names that hold no '@' and are pairwise
      distinct. */
  ghost predicate Shaped(keep: seq<string>, names: seq<string>)
  {
    && |keep| == |names| > 0
    && keep[0] == XmpPrefix + names[0]
    && (forall i :: 1 <= i < |keep| ==> keep[i] == DjiPrefix + names[i])
    && (forall i :: 0 <= i < |names| ==> '@' !in names[i])
    && (forall i, j :: 0 <= i < j < |names| ==> names[i] != names[j])
  }

  /** `keep_columns` has that shape, and `float_columns` is all of it but the
      creation date. */
  lemma WhitelistLayout()
    ensures |KeepColumns| == |FieldNames| == 16 && |FloatColumns| == 15
    ensures Shaped(KeepColumns, FieldNames)
    ensures FloatColumns == KeepColumns[1..]
  {
    KeepPrefixed();
    NamesPlain();
    NamesDistinct();
  }

  lemma KeepPrefixed()
    ensures |KeepColumns| == |FieldNames| == 16
    ensures KeepColumns[0] == XmpPrefix + FieldNames[0]
    ensures forall i :: 1 <= i < 16 ==> KeepColumns[i] == DjiPrefix + FieldNames[i]
  {
  }

  lemma NamesPlain()
    ensures forall i :: 0 <= i < |FieldNames| ==> '@' !in FieldNames[i]
  {
  }

  lemma NamesDistinct()
    ensures forall i, j :: 0 <= i < j < |FieldNames| ==> FieldNames[i] != FieldNames[j]
  {
  }

  // ---------------------------------------------------------------------------
  // Step 1: whitelist filter

  /** `dict_filter(md, keep_columns)`: the entries whose key is whitelisted. */
  function Filter(md: map<string, string>): (r: map<string, Value>)
    ensures forall k :: k in r ==> k in md && k in KeepColumns && r[k] == Text(md[k])
  {
    map k | k in md && k in KeepColumns :: Text(md[k])
  }

  /** The filter keeps exactly the whitelisted keys of the record, with their
      values untouched. */
  lemma FilterSpec(md: map<string, string>)
    ensures Filter(md).Keys == md.Keys * (set c | c in KeepColumns)
    ensures forall k :: k in Filter(md) ==> Filter(md)[k] == Text(md[k])
  {
  }

  // ---------------------------------------------------------------------------
  // Step 2: conversion of the float columns

  /** `md[column] = float(md[column])` for one column. A missing column
      raises a KeyError, text that `parse` rejects a ValueError; a value that
      is already a number stays as it is. */
  function CoerceColumn(md: map<string, Value>, column: string, parse: string -> Option<real>)
    : Result<map<string, Value>>
  {
    if column !in md then Err(MissingKey(column))
    else match md[column]
      case Number(_) => Ok(md)
      case Text(s) =>
        match parse(s)
        case None => Err(NotNumeric(column, s))
        case Some(x) => Ok(md[column := Number(x)])
  }

  /** The loop `for column in float_columns`, stopping at the first failure. */
  function CoerceColumns(md: map<string, Value>, columns: seq<string>, parse: string -> Option<real>)
    : Result<map<string, Value>>
  {
    if columns == [] then Ok(md)
    else
      match CoerceColumn(md, columns[0], parse)
      case Err(e) => Err(e)
      case Ok(md') => CoerceColumns(md', columns[1..], parse)
  }

  /** The conversion loop raises only a KeyError or a ValueError. */
  lemma {:induction false} CoerceColumnsErrors(md: map<string, Value>, columns: seq<string>,
                                               parse: string -> Option<real>)
    ensures CoerceColumns(md, columns, parse).Err? ==>
              CoerceColumns(md, columns, parse).error.MissingKey? || CoerceColumns(md, columns, parse).error.NotNumeric?
  {
    if columns != [] && CoerceColumn(md, columns[0], parse).Ok? {
      CoerceColumnsErrors(CoerceColumn(md, columns[0], parse).value, columns[1..], parse);
    }
  }

  /** The column is present and its value converts. */
  ghost predicate Convertible(md: map<string, Value>, column: string, parse: string -> Option<real>)
  {
    column in md && (md[column].Text? ==> parse(md[column].text).Some?)
  }

  /** The number a convertible value becomes. */
  ghost function Converted(v: Value, parse: string -> Option<real>): Value
    requires v.Text? ==> parse(v.text).Some?
  {
    match v
    case Number(x) => Number(x)
    case Text(s) => Number(parse(s).value)
  }

  /** The error the conversion of a column that is not convertible raises:
      a KeyError when it is absent, a ValueError on its text otherwise. A
      column holding a number always converts, so only the first two cases
      arise; the last one only completes the definition. */
  ghost function ColumnError(md: map<string, Value>, column: string): Error
  {
    if column !in md then MissingKey(column)
    else if md[column].Text? then NotNumeric(column, md[column].text)
    else MissingKey(column)
  }

  /** Conversion succeeds exactly when every listed column is present and
      converts. It then changes the listed columns into numbers and nothing
      else; otherwise it reports the first column, in list order, that fails. */
  lemma {:induction false} CoerceColumnsSpec(md: map<string, Value>, columns: seq<string>,
                                             parse: string -> Option<real>)
    ensures CoerceColumns(md, columns, parse).Ok? <==>
              forall c :: c in columns ==> Convertible(md, c, parse)
    ensures CoerceColumns(md, columns, parse).Ok? ==>
              var r := CoerceColumns(md, columns, parse).value;
              && r.Keys == md.Keys
              && (forall k :: k in md && k !in columns ==> r[k] == md[k])
              && (forall k :: k in md && k in columns ==> Convertible(md, k, parse) && r[k] == Converted(md[k], parse))
    ensures CoerceColumns(md, columns, parse).Err? ==>
              exists i :: 0 <= i < |columns| && !Convertible(md, columns[i], parse)
                          && CoerceColumns(md, columns, parse).error == ColumnError(md, columns[i])
                          && forall j :: 0 <= j < i ==> Convertible(md, columns[j], parse)
  {
    if columns != [] {
      var c := columns[0];
      assert columns == [c] + columns[1..];
      var step := CoerceColumn(md, c, parse);
      if step.Ok? {
        var md' := step.value;
        assert CoerceColumns(md, columns, parse) == CoerceColumns(md', columns[1..], parse);
        assert Convertible(md, c, parse);
        assert md'.Keys == md.Keys;
        assert forall k :: k in md && k != c ==> md'[k] == md[k];
        assert Convertible(md', c, parse) && md'[c] == Converted(md[c], parse);
        assert forall k :: Convertible(md', k, parse) <==> Convertible(md, k, parse);
        CoerceColumnsSpec(md', columns[1..], parse);
        assert (forall x :: x in columns ==> Convertible(md, x, parse)) <==>
               (forall x :: x in columns[1..] ==> Convertible(md, x, parse));
        var r := CoerceColumns(md, columns, parse);
        if r.Err? {
          var i :| 0 <= i < |columns[1..]| && !Convertible(md', columns[1..][i], parse)
                   && r.error == ColumnError(md', columns[1..][i])
                   && forall j :: 0 <= j < i ==> Convertible(md', columns[1..][j], parse);
          assert columns[i + 1] != c;
          assert ColumnError(md', columns[i + 1]) == ColumnError(md, columns[i + 1]);
          assert forall j :: 0 <= j < i + 1 ==> Convertible(md, columns[j], parse);
        }
      } else {
        assert !Convertible(md, c, parse) && c in columns;
      }
    }
  }

  // ---------------------------------------------------------------------------
  // Step 3: key renaming

  /** `k.replace('@xmp:', '')`. */
  function DropXmp(k: string): string
  {
    RemoveAll(k, XmpPrefix)
  }

  /** `k.replace('@drone-dji:', '')`. */
  function DropDji(k: string): string
  {
    RemoveAll(k, DjiPrefix)
  }

  /** A `@drone-dji:` key survives the `@xmp:` pass and loses its prefix in
      the `@drone-dji:` pass. */
  lemma StripDjiKey(name: string)
    requires '@' !in name
    ensures DropXmp(DjiPrefix + name) == DjiPrefix + name
    ensures DropDji(DjiPrefix + name) == name
  {
    var k := DjiPrefix + name;
    assert k[1..] == DjiPrefix[1..] + name;
    assert '@' !in DjiPrefix[1..];
    assert k[..|XmpPrefix|] != XmpPrefix by { assert k[1] == 'd'; }
    RemoveAllMismatchedHead(k, XmpPrefix);
    RemoveAllPrefix(DjiPrefix, name);
  }

  /** An `@xmp:` key loses its prefix in the `@xmp:` pass, and the bare name
      survives the `@drone-dji:` pass. */
  lemma StripXmpKey(name: string)
    requires '@' !in name
    ensures DropXmp(XmpPrefix + name) == name
    ensures DropDji(name) == name
  {
    RemoveAllPrefix(XmpPrefix, name);
    RemoveAllAbsent(name, DjiPrefix);
  }

  /** The two passes send the i-th key of a shaped whitelist to the i-th bare
      name. */
  lemma StripShaped(keep: seq<string>, names: seq<string>)
    requires Shaped(keep, names)
    ensures forall i :: 0 <= i < |keep| ==> DropDji(DropXmp(keep[i])) == names[i]
  {
    forall i | 0 <= i < |keep| ensures DropDji(DropXmp(keep[i])) == names[i] {
      if i == 0 { StripXmpKey(names[0]); } else { StripDjiKey(names[i]); }
    }
  }

  /** Keys that the renaming `f` merges carry the same value: then the dict
      comprehension `{f(k): v for k, v in md.items()}` has one answer
      whatever the order of the entries. */
  ghost predicate RenameSafe(md: map<string, Value>, f: string -> string)
  {
    forall k1, k2 :: k1 in md && k2 in md && f(k1) == f(k2) ==> md[k1] == md[k2]
  }

  /** `{f(k): v for k, v in md.items()}`. */
  function RenameKeys(md: map<string, Value>, f: string -> string): (r: map<string, Value>)
    requires RenameSafe(md, f)
    ensures r.Keys == set k | k in md :: f(k)
    ensures forall k :: k in md ==> f(k) in r && r[f(k)] == md[k]
  {
    map k | k in md :: f(k) := md[k]
  }

  /** `f` merges no two keys of `md`. */
  ghost predicate Injective(md: map<string, Value>, f: string -> string)
  {
    forall k1, k2 :: k1 in md && k2 in md && f(k1) == f(k2) ==> k1 == k2
  }

  /** `f` followed by `g` merges no two keys of `md`. */
  ghost predicate ComposedInjective(md: map<string, Value>, f: string -> string, g: string -> string)
  {
    forall k1, k2 :: k1 in md && k2 in md && g(f(k1)) == g(f(k2)) ==> k1 == k2
  }

  /** When the two passes together merge nothing, neither does each pass. */
  lemma SecondPassInjective(md: map<string, Value>, f: string -> string, g: string -> string)
    requires ComposedInjective(md, f, g)
    ensures Injective(md, f) && RenameSafe(md, f)
    ensures Injective(RenameKeys(md, f), g) && RenameSafe(RenameKeys(md, f), g)
  {
    var m1 := RenameKeys(md, f);
    forall u1, u2 | u1 in m1 && u2 in m1 && g(u1) == g(u2) ensures u1 == u2 {
      var k1 :| k1 in md && f(k1) == u1;
      var k2 :| k2 in md && f(k2) == u2;
    }
  }

  /** After both passes each key `k` sits at `g(f(k))` with its value. */
  lemma ComposedValues(md: map<string, Value>, f: string -> string, g: string -> string)
    requires ComposedInjective(md, f, g)
    ensures RenameSafe(md, f) && RenameSafe(RenameKeys(md, f), g)
    ensures var r := RenameKeys(RenameKeys(md, f), g);
      forall k :: k in md ==> g(f(k)) in r && r[g(f(k))] == md[k]
  {
    SecondPassInjective(md, f, g);
  }

  /** After both passes the keys are the images `g(f(k))`, and nothing else. */
  lemma ComposedKeys(md: map<string, Value>, f: string -> string, g: string -> string)
    requires ComposedInjective(md, f, g)
    ensures RenameSafe(md, f) && RenameSafe(RenameKeys(md, f), g)
    ensures RenameKeys(RenameKeys(md, f), g).Keys == set k | k in md :: g(f(k))
  {
    SecondPassInjective(md, f, g);
    ImageOfImage(md.Keys, RenameKeys(md, f).Keys, RenameKeys(RenameKeys(md, f), g).Keys, f, g);
  }

  lemma ImageOfImage(s: set<string>, s1: set<string>, s2: set<string>, f: string -> string, g: string -> string)
    requires s1 == set k | k in s :: f(k)
    requires s2 == set u | u in s1 :: g(u)
    ensures s2 == set k | k in s :: g(f(k))
  {
    forall x | x in s2 ensures x in set k | k in s :: g(f(k)) {
      var u :| u in s1 && g(u) == x;
      var k :| k in s && f(k) == u;
    }
  }

  /** Both passes together keep the number of entries. */
  lemma ComposedSize(md: map<string, Value>, f: string -> string, g: string -> string)
    requires ComposedInjective(md, f, g)
    ensures RenameSafe(md, f) && RenameSafe(RenameKeys(md, f), g)
    ensures |RenameKeys(RenameKeys(md, f), g)| == |md|
  {
    SecondPassInjective(md, f, g);
    RenamePreservesSize(md, f);
    RenamePreservesSize(RenameKeys(md, f), g);
  }

  /** A renaming that merges no two keys keeps the number of entries. */
  lemma RenamePreservesSize(md: map<string, Value>, f: string -> string)
    requires Injective(md, f)
    ensures RenameSafe(md, f)
    ensures |RenameKeys(md, f)| == |md|
  {
    InjectiveImageSize(md.Keys, f);
    assert RenameKeys(md, f).Keys == set k | k in md.Keys :: f(k);
  }

  /** An injective function maps a finite set onto a set of the same size. */
  lemma {:induction false} InjectiveImageSize(s: set<string>, f: string -> string)
    requires forall a, b :: a in s && b in s && f(a) == f(b) ==> a == b
    ensures |set x | x in s :: f(x)| == |s|
    decreases |s|
  {
    if s != {} {
      var a :| a in s;
      var rest := s - {a};
      InjectiveImageSize(rest, f);
      var img := set x | x in s :: f(x);
      var imgRest := set x | x in rest :: f(x);
      assert img == imgRest + {f(a)};
      assert f(a) !in imgRest;
    }
  }

  /** `r` is `md` with its keys renamed from `keep` to `names`, position by
      position: exactly the names whose key was present, each with that
      key's value, and as many entries as before. */
  ghost predicate RenamedOnto(md: map<string, Value>, r: map<string, Value>, keep: seq<string>, names: seq<string>)
    requires |keep| == |names|
  {
    && r.Keys == (set i | 0 <= i < |keep| && keep[i] in md :: names[i])
    && (forall i :: 0 <= i < |keep| && keep[i] in md ==> names[i] in r && r[names[i]] == md[keep[i]])
    && |r| == |md|
  }

  /** Two passes that send `keep` one-to-one onto distinct `names` merge no
      two keys of a record whose keys come from `keep`. */
  lemma IndexedInjective(md: map<string, Value>, f: string -> string, g: string -> string,
                         keep: seq<string>, names: seq<string>)
    requires |keep| == |names|
    requires forall k :: k in md ==> k in keep
    requires forall i :: 0 <= i < |keep| ==> g(f(keep[i])) == names[i]
    requires forall i, j :: 0 <= i < j < |names| ==> names[i] != names[j]
    ensures ComposedInjective(md, f, g)
  {
    forall k1, k2 | k1 in md && k2 in md && g(f(k1)) == g(f(k2)) ensures k1 == k2 {
      var i :| 0 <= i < |keep| && keep[i] == k1;
      var j :| 0 <= j < |keep| && keep[j] == k2;
      assert names[i] == names[j];
    }
  }

  /** The images of the keys are the names at the positions of the keys. */
  lemma IndexedKeys(md: map<string, Value>, f: string -> string, g: string -> string,
                    keep: seq<string>, names: seq<string>)
    requires |keep| == |names|
    requires forall k :: k in md ==> k in keep
    requires forall i :: 0 <= i < |keep| ==> g(f(keep[i])) == names[i]
    ensures (set k | k in md :: g(f(k))) == (set i | 0 <= i < |keep| && keep[i] in md :: names[i])
  {
    var image := set k | k in md :: g(f(k));
    var want := set i | 0 <= i < |keep| && keep[i] in md :: names[i];
    forall x ensures x in image <==> x in want {
      if x in image {
        var k :| k in md && g(f(k)) == x;
        var i :| 0 <= i < |keep| && keep[i] == k;
        assert x == names[i];
      }
      if x in want {
        var i :| 0 <= i < |keep| && keep[i] in md && names[i] == x;
        assert g(f(keep[i])) == x;
      }
    }
  }

  /** Facts about `g(f(k))` read as facts about the i-th name. */
  lemma OntoFromImages(md: map<string, Value>, r: map<string, Value>, f: string -> string, g: string -> string,
                       keep: seq<string>, names: seq<string>)
    requires |keep| == |names|
    requires forall k :: k in md ==> k in keep
    requires forall i :: 0 <= i < |keep| ==> g(f(keep[i])) == names[i]
    requires r.Keys == set k | k in md :: g(f(k))
    requires forall k :: k in md ==> g(f(k)) in r && r[g(f(k))] == md[k]
    requires |r| == |md|
    ensures RenamedOnto(md, r, keep, names)
  {
    IndexedKeys(md, f, g, keep, names);
    forall i | 0 <= i < |keep| && keep[i] in md ensures names[i] in r && r[names[i]] == md[keep[i]] {
      assert g(f(keep[i])) == names[i];
    }
  }

  /** Two renamings applied to a record whose keys come from `keep`, when
      together they send `keep` one-to-one onto distinct `names`: neither
      pass merges two keys, and the result is the record renamed position
      by position. */
  lemma RenameTwice(md: map<string, Value>, f: string -> string, g: string -> string,
                    keep: seq<string>, names: seq<string>)
    requires |keep| == |names|
    requires forall k :: k in md ==> k in keep
    requires forall i :: 0 <= i < |keep| ==> g(f(keep[i])) == names[i]
    requires forall i, j :: 0 <= i < j < |names| ==> names[i] != names[j]
    ensures RenameSafe(md, f) && RenameSafe(RenameKeys(md, f), g)
    ensures RenamedOnto(md, RenameKeys(RenameKeys(md, f), g), keep, names)
  {
    IndexedInjective(md, f, g, keep, names);
    ComposedValues(md, f, g);
    ComposedKeys(md, f, g);
    ComposedSize(md, f, g);
    OntoFromImages(md, RenameKeys(RenameKeys(md, f), g), f, g, keep, names);
  }

  // ---------------------------------------------------------------------------
  // The three steps together

  /** The dictionary part of `get_dji_metadata`: filter, convert, rename. */
  function Normalize(raw: map<string, string>, parse: string -> Option<real>): Result<map<string, Value>>
  {
    var filtered := Filter(raw);
    match CoerceColumns(filtered, FloatColumns, parse)
    case Err(e) => Err(e)
    case Ok(md) =>
      ConvertedRenameSafe(raw, parse);
      Ok(RenameKeys(RenameKeys(md, DropXmp), DropDji))
  }

  lemma CoercedKeysWhitelisted(raw: map<string, string>, parse: string -> Option<real>)
    requires CoerceColumns(Filter(raw), FloatColumns, parse).Ok?
    ensures forall k :: k in CoerceColumns(Filter(raw), FloatColumns, parse).value ==> k in KeepColumns
  {
    CoerceColumnsSpec(Filter(raw), FloatColumns, parse);
  }

  /** Neither renaming pass merges two keys of the converted record. */
  lemma ConvertedRenameSafe(raw: map<string, string>, parse: string -> Option<real>)
    requires CoerceColumns(Filter(raw), FloatColumns, parse).Ok?
    ensures var md := CoerceColumns(Filter(raw), FloatColumns, parse).value;
      RenameSafe(md, DropXmp) && RenameSafe(RenameKeys(md, DropXmp), DropDji)
  {
    CoercedKeysWhitelisted(raw, parse);
    RenameWhitelisted(CoerceColumns(Filter(raw), FloatColumns, parse).value);
  }

  /** The two renaming passes on a record whose keys are whitelisted: the
      i-th kept column becomes the i-th bare name, and nothing collides. */
  lemma RenameWhitelisted(md: map<string, Value>)
    requires forall k :: k in md ==> k in KeepColumns
    ensures RenameSafe(md, DropXmp)
    ensures RenameSafe(RenameKeys(md, DropXmp), DropDji)
    ensures RenamedOnto(md, RenameKeys(RenameKeys(md, DropXmp), DropDji), KeepColumns, FieldNames)
  {
    WhitelistLayout();
    StripShaped(KeepColumns, FieldNames);
    RenameTwice(md, DropXmp, DropDji, KeepColumns, FieldNames);
  }

  /** `get_dji_metadata(filename)`, with the XMP description read by
      `readRaw` (the model of `get_raw_dji_metadata`). */
  function DjiMetadata(filename: string, readRaw: string -> Option<map<string, string>>,
                       parse: string -> Option<real>): (r: Result<map<string, Value>>)
    ensures r.Err? ==> r.error == MetadataLookup(filename) || r.error.MissingKey? || r.error.NotNumeric?
  {
    match readRaw(filename)
    case None => Err(MetadataLookup(filename))
    case Some(raw) =>
      CoerceColumnsErrors(Filter(raw), FloatColumns, parse);
      Normalize(raw, parse)
  }

  /** `get_dji_metadata` as a function of the file name alone. */
  function MetadataOf(readRaw: string -> Option<map<string, string>>, parse: string -> Option<real>)
    : string -> Result<map<string, Value>>
  {
    filename => DjiMetadata(filename, readRaw, parse)
  }

  /** Metadata reading never raises the count mismatch of `get_imgs`. */
  lemma MetadataNeverCountMismatch(readRaw: string -> Option<map<string, string>>, parse: string -> Option<real>)
    ensures forall f :: MetadataOf(readRaw, parse)(f).Err? ==> MetadataOf(readRaw, parse)(f).error != CountMismatch
  {
    forall f | MetadataOf(readRaw, parse)(f).Err? ensures MetadataOf(readRaw, parse)(f).error != CountMismatch {
      assert MetadataOf(readRaw, parse)(f) == DjiMetadata(f, readRaw, parse);
    }
  }

  /** The float column `c` is present in the raw record and parses. */
  ghost predicate Parses(raw: map<string, string>, c: string, parse: string -> Option<real>)
  {
    c in raw && parse(raw[c]).Some?
  }

  /** The number the text of the float column `c` parses to. */
  ghost function ParsedValue(raw: map<string, string>, c: string, parse: string -> Option<real>): Value
    requires Parses(raw, c, parse)
  {
    Number(parse(raw[c]).value)
  }

  /** When normalisation succeeds or fails. It succeeds exactly when each of
      the 15 float columns is present and parses; otherwise it raises, for
      the first failing column in list order, a KeyError when the column is
      absent and a ValueError when its text does not parse. */
  lemma NormalizeOutcome(raw: map<string, string>, parse: string -> Option<real>)
    ensures Normalize(raw, parse).Ok? <==> forall c :: c in FloatColumns ==> Parses(raw, c, parse)
    ensures Normalize(raw, parse).Err? ==>
              exists i :: 0 <= i < |FloatColumns| && !Parses(raw, FloatColumns[i], parse)
                && (forall j :: 0 <= j < i ==> Parses(raw, FloatColumns[j], parse))
                && Normalize(raw, parse).error ==
                     if FloatColumns[i] in raw then NotNumeric(FloatColumns[i], raw[FloatColumns[i]])
                     else MissingKey(FloatColumns[i])
  {
    var res := CoerceColumns(Filter(raw), FloatColumns, parse);
    CoerceColumnsSpec(Filter(raw), FloatColumns, parse);
    FilteredFloats(raw, parse);
    OutcomeFromCoercion(raw, Filter(raw), res, FloatColumns, parse);
    assert Normalize(raw, parse).Ok? == res.Ok?;
    assert Normalize(raw, parse).Err? ==> Normalize(raw, parse).error == res.error;
  }

  // The helpers below take the filtered record, the conversion result, the
  // whitelist and its bare names as parameters instead of the constants and
  // function applications they stand for. They are stated generically only
  // so that each proof stays small for the solver; every caller instantiates
  // them with `Filter(raw)`, `KeepColumns`, `FloatColumns` and `FieldNames`.

  /** The outcome of the conversion loop `res` over `filtered`, read back in
      terms of the raw record. */
  lemma OutcomeFromCoercion(raw: map<string, string>, filtered: map<string, Value>, res: Result<map<string, Value>>,
                            floats: seq<string>, parse: string -> Option<real>)
    requires res.Ok? <==> forall c :: c in floats ==> Convertible(filtered, c, parse)
    requires res.Err? ==>
               exists i :: 0 <= i < |floats| && !Convertible(filtered, floats[i], parse)
                           && res.error == ColumnError(filtered, floats[i])
                           && forall j :: 0 <= j < i ==> Convertible(filtered, floats[j], parse)
    requires forall c :: c in floats ==>
               && (Convertible(filtered, c, parse) <==> Parses(raw, c, parse))
               && ColumnError(filtered, c) == if c in raw then NotNumeric(c, raw[c]) else MissingKey(c)
    ensures res.Ok? <==> forall c :: c in floats ==> Parses(raw, c, parse)
    ensures res.Err? ==>
              exists i :: 0 <= i < |floats| && !Parses(raw, floats[i], parse)
                && (forall j :: 0 <= j < i ==> Parses(raw, floats[j], parse))
                && res.error == if floats[i] in raw then NotNumeric(floats[i], raw[floats[i]]) else MissingKey(floats[i])
  {
    if res.Err? {
      var i :| 0 <= i < |floats| && !Convertible(filtered, floats[i], parse)
               && res.error == ColumnError(filtered, floats[i])
               && forall j :: 0 <= j < i ==> Convertible(filtered, floats[j], parse);
      assert floats[i] in floats;
      forall j | 0 <= j < i ensures Parses(raw, floats[j], parse) {
        assert floats[j] in floats;
      }
    }
  }

  /** After the filter a float column converts exactly when the raw record
      has it and its text parses, and otherwise fails with the error the raw
      record explains. */
  lemma FilteredFloats(raw: map<string, string>, parse: string -> Option<real>)
    ensures forall c :: c in FloatColumns ==>
              && (Convertible(Filter(raw), c, parse) <==> Parses(raw, c, parse))
              && ColumnError(Filter(raw), c) == if c in raw then NotNumeric(c, raw[c]) else MissingKey(c)
  {
    WhitelistLayout();
    forall c | c in FloatColumns
      ensures && (Convertible(Filter(raw), c, parse) <==> Parses(raw, c, parse))
              && ColumnError(Filter(raw), c) == if c in raw then NotNumeric(c, raw[c]) else MissingKey(c)
    {
      var i :| 0 <= i < |FloatColumns| && FloatColumns[i] == c;
      assert c == KeepColumns[i + 1];
      assert c in KeepColumns;
    }
  }

  /** `r` is the normalised form of the raw record: the 15 bare float names,
      plus `CreateDate` exactly when the record had `@xmp:CreateDate`; each
      float name holds the number its text parses to, the creation date
      keeps its text, and there are as many entries as the filter kept. */
  ghost predicate NormalizedFrom(raw: map<string, string>, r: map<string, Value>, parse: string -> Option<real>)
  {
    |KeepColumns| == |FieldNames| > 0 && NormalizedOnto(raw, Filter(raw), r, KeepColumns, FieldNames, parse)
  }

  /** `r` is the normalised form of `raw`, for any whitelist `keep` renamed
      to `names` whose first column is the only one not converted. */
  ghost predicate NormalizedOnto(raw: map<string, string>, filtered: map<string, Value>, r: map<string, Value>,
                                 keep: seq<string>, names: seq<string>, parse: string -> Option<real>)
    requires |keep| == |names| > 0
  {
    && r.Keys == (set i | 1 <= i < |keep| :: names[i]) + (if keep[0] in raw then {names[0]} else {})
    && (forall i :: 1 <= i < |keep| ==>
          Parses(raw, keep[i], parse) && names[i] in r && r[names[i]] == ParsedValue(raw, keep[i], parse))
    && (keep[0] in raw ==> names[0] in r && r[names[0]] == Text(raw[keep[0]]))
    && |r| == |filtered|
  }

  /** `md` is `filtered`, the whitelisted part of `raw`, with every column of
      `keep` but the first converted to the number its text parses to. */
  ghost predicate CoercedFrom(raw: map<string, string>, filtered: map<string, Value>, md: map<string, Value>,
                              keep: seq<string>, parse: string -> Option<real>)
    requires |keep| > 0
  {
    && (forall k :: k in filtered <==> k in raw && k in keep)
    && (forall k :: k in filtered ==> filtered[k] == Text(raw[k]))
    && md.Keys == filtered.Keys
    && (forall k :: k in md ==> k in keep)
    && (keep[0] in md ==> md[keep[0]] == filtered[keep[0]])
    && (forall i :: 1 <= i < |keep| ==>
          Parses(raw, keep[i], parse) && keep[i] in md && md[keep[i]] == ParsedValue(raw, keep[i], parse))
  }

  /** What a successful normalisation holds: the 15 bare float names, plus
      `CreateDate` exactly when the record had `@xmp:CreateDate`; each float
      name holds the number its text parses to, the creation date keeps its
      text, and no two kept keys collide, so there are as many entries as
      the filter kept. */
  lemma NormalizeFields(raw: map<string, string>, parse: string -> Option<real>)
    requires Normalize(raw, parse).Ok?
    ensures NormalizedFrom(raw, Normalize(raw, parse).value, parse)
  {
    CoercedParts(raw, parse);
    var md := CoerceColumns(Filter(raw), FloatColumns, parse).value;
    RenameWhitelisted(md);
    var r := RenameKeys(RenameKeys(md, DropXmp), DropDji);
    assert Normalize(raw, parse) == Ok(r);
    FieldsFromParts(raw, Filter(raw), md, r, KeepColumns, FieldNames, parse);
  }

  /** The filter and the conversion together. */
  lemma CoercedParts(raw: map<string, string>, parse: string -> Option<real>)
    requires CoerceColumns(Filter(raw), FloatColumns, parse).Ok?
    ensures |KeepColumns| == |FieldNames| > 0
    ensures CoercedFrom(raw, Filter(raw), CoerceColumns(Filter(raw), FloatColumns, parse).value, KeepColumns, parse)
  {
    WhitelistLayout();
    CreateDateNotFloat();
    FilterSpec(raw);
    var filtered := Filter(raw);
    CoerceColumnsSpec(filtered, FloatColumns, parse);
    var md := CoerceColumns(filtered, FloatColumns, parse).value;
    CoercedFields(raw, filtered, md, KeepColumns, FloatColumns, parse);
  }

  /** The creation date is not among the float columns. */
  lemma CreateDateNotFloat()
    ensures KeepColumns[0] !in FloatColumns
  {
    WhitelistLayout();
    forall i | 0 <= i < |FloatColumns| ensures FloatColumns[i] != KeepColumns[0] {
      assert FloatColumns[i] == DjiPrefix + FieldNames[i + 1];
      assert (DjiPrefix + FieldNames[i + 1])[1] == 'd';
      assert (XmpPrefix + FieldNames[0])[1] == 'x';
    }
  }

  /** After a successful conversion of the columns `floats`, all of `keep`
      but its first, every float column holds the number its text parses
      to, and the first column, if present, is untouched. */
  lemma CoercedFields(raw: map<string, string>, filtered: map<string, Value>, md: map<string, Value>,
                      keep: seq<string>, floats: seq<string>, parse: string -> Option<real>)
    requires |keep| > 0 && floats == keep[1..] && keep[0] !in floats
    requires forall k :: k in filtered ==> k in raw && filtered[k] == Text(raw[k])
    requires md.Keys == filtered.Keys
    requires forall k :: k in filtered && k !in floats ==> md[k] == filtered[k]
    requires forall k :: k in filtered && k in floats ==>
               Convertible(filtered, k, parse) && md[k] == Converted(filtered[k], parse)
    requires forall c :: c in floats ==> Convertible(filtered, c, parse)
    ensures keep[0] in md ==> md[keep[0]] == filtered[keep[0]]
    ensures forall i :: 1 <= i < |keep| ==>
              Parses(raw, keep[i], parse) && keep[i] in md && md[keep[i]] == ParsedValue(raw, keep[i], parse)
  {
    forall i | 1 <= i < |keep|
      ensures Parses(raw, keep[i], parse) && keep[i] in md && md[keep[i]] == ParsedValue(raw, keep[i], parse)
    {
      var k := keep[i];
      assert k == floats[i - 1] && k in floats;
      assert Convertible(filtered, k, parse) && filtered[k] == Text(raw[k]);
      assert md[k] == Converted(Text(raw[k]), parse);
    }
  }

  /** Renaming a converted record gives its normalised form. */
  lemma FieldsFromParts(raw: map<string, string>, filtered: map<string, Value>, md: map<string, Value>,
                        r: map<string, Value>, keep: seq<string>, names: seq<string>,
                        parse: string -> Option<real>)
    requires |keep| == |names| > 0
    requires CoercedFrom(raw, filtered, md, keep, parse)
    requires RenamedOnto(md, r, keep, names)
    ensures NormalizedOnto(raw, filtered, r, keep, names, parse)
  {
    assert keep[0] in md <==> keep[0] in raw;
    KeysFromParts(raw, md, r, keep, names);
    assert |md| == |md.Keys| == |filtered.Keys| == |filtered|;
  }

  /** The renamed keys: every name but the first, and the first exactly when
      its column was present. */
  lemma KeysFromParts(raw: map<string, string>, md: map<string, Value>, r: map<string, Value>,
                      keep: seq<string>, names: seq<string>)
    requires |keep| == |names| > 0
    requires keep[0] in md <==> keep[0] in raw
    requires forall i :: 1 <= i < |keep| ==> keep[i] in md
    requires RenamedOnto(md, r, keep, names)
    ensures r.Keys == (set i | 1 <= i < |keep| :: names[i]) + (if keep[0] in raw then {names[0]} else {})
  {
    var keys := (set i | 1 <= i < |keep| :: names[i]) + (if keep[0] in raw then {names[0]} else {});
    forall x ensures x in r.Keys <==> x in keys {
      if x in r.Keys {
        var i :| 0 <= i < |keep| && keep[i] in md && names[i] == x;
      }
    }
  }

  /** `get_dji_metadata(filename)`: reads the record, filters it, converts
      the float columns one after the other in place, and renames the keys. */
  method GetDjiMetadata(filename: string, readRaw: string -> Option<map<string, string>>,
                        parse: string -> Option<real>)
    returns (r: Result<map<string, Value>>)
    ensures r == DjiMetadata(filename, readRaw, parse)
  {
    var raw := readRaw(filename);
    if raw.None? {
      return Err(MetadataLookup(filename));
    }
    var md := Filter(raw.value);
    ghost var filtered := md;
    for i := 0 to |FloatColumns|
      invariant CoerceColumns(filtered, FloatColumns, parse) == CoerceColumns(md, FloatColumns[i..], parse)
    {
      var column := FloatColumns[i];
      assert FloatColumns[i..] == [column] + FloatColumns[i + 1..];
      if column !in md {
        return Err(MissingKey(column));
      }
      match md[column]
      case Number(_) =>
      case Text(s) =>
        var x := parse(s);
        if x.None? {
          return Err(NotNumeric(column, s));
        }
        md := md[column := Number(x.value)];
    }
    assert CoerceColumns(filtered, FloatColumns, parse) == Ok(md);
    CoercedKeysWhitelisted(raw.value, parse);
    RenameWhitelisted(md);
    md := RenameKeys(md, DropXmp);
    md := RenameKeys(md, DropDji);
    r := Ok(md);
  }
}
