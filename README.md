# dji_utils in Dafny

A model of the image-pairing and metadata helpers of `dji_utils.py`, the
utility module that organises the photos of a DJI drone survey. A survey
directory holds one DNG (raw) and one JPG file per shot. The module does four things:

- `get_image_list` lists the files of one format, sorted.
- `get_dng_jpg` derives a base name for every file and warns when the DNG and JPG names differ.
- `get_imgs` builds one `DJIImage` record per shot.
- `get_dji_metadata` cleans the XMP description of a DNG file:
  - it keeps 16 whitelisted attributes;
  - it converts 15 of them to numbers;
  - it strips the `@xmp:` and `@drone-dji:` prefixes from the keys.

Modules:

- `Results` (`results.dfy`): `Option`, `Result` and the errors the Python code can raise.
  - `NoSecondSegment`: the `IndexError` of `split('/')[1]`.
  - `CountMismatch`: the exception of `get_imgs`.
  - `MetadataLookup`: the file or its XMP record cannot be read.
  - `MissingKey`: the `KeyError` of a missing float column.
  - `NotNumeric`: the `ValueError` of `float()`.
- `Strings` (`strings.dfy`): the Python string operations the code relies on.
  - the substring test `in`;
  - the ordering `<=` that `list.sort` uses;
  - `split('/')`;
  - `replace(pat, '')`.
- `Sorting` (`sorting.dfy`): a reference insertion sort, and an in-place insertion sort on an array that is proved to equal it. The in-place sort is `paths.sort()`.
- `Listing` (`image_list.dfy`): `get_image_list`.
- `Pairing` (`pairing.dfy`): `get_dng_jpg`.
- `Metadata` (`metadata.dfy`): `get_dji_metadata`, as three steps:
  - the whitelist filter;
  - the in-place float conversion loop;
  - the two key-renaming comprehensions.
- `Images` (`images.dfy`): the `DJIImage` record and `get_imgs`.
- `MatchedPairs` (`matched_pairs.dfy`): what `get_dng_jpg` returns for a directory holding one DNG and one JPG file per shot.
  - Every shot's name comes back, with no warning and three lists of equal length.
  - The path lists are still not aligned: for two shots `a` and `a.E` the DNG and JPG files of one shot sit at different indices.
- `AlignedPairs` (`aligned_pairs.dfy`): a corrected pairing that puts each DNG file beside the JPG file of the same name (see "## Findings").

Two differences between the model and a literal reading of the Python:

- **Directory listing.** The model does not read the file system. The directory listing (`listdir` restricted by `isfile`) is the parameter `files`.
- **Metadata inputs.** The reader of the XMP description is the parameter `readRaw`. `float()` is the parameter `parse`.

The constants `keep_columns` and `float_columns` are copied exactly. `float_columns` has 15 entries, including the two "reverse" flags. The model follows the code in two places where a 16-key description could suggest otherwise:

- **Missing `@xmp:CreateDate`.** Normalisation still succeeds and gives 15 keys. `CreateDate` is never converted.
- **Dictionary comprehensions.** A dict in Python keeps insertion order, while a Dafny `map` has no order. The two comprehensions are therefore modelled as map comprehensions. Each comes with the side condition that keys it merges carry equal values. The model proves that this condition holds for every whitelisted record.

## Model

| member | source | states |
|---|---|---|
| `Strings.Contains` | dji_utils.py:14 | the empty token is in every name, and a token found is no longer than the name |
| `Strings.ContainsIffOccurs` | dji_utils.py:14 | `img_format in str(image)` holds exactly when the format occurs as a contiguous substring somewhere in the name |
| `Strings.LessEq` | dji_utils.py:15 | the string order used by `sort` contains the prefix order |
| `Strings.LessEqTransitive` | dji_utils.py:15 | the string order used by `sort` is transitive |
| `Strings.LessEqAntisymmetric` | dji_utils.py:15 | two strings each `<=` the other are equal, so the sorted order is unique |
| `Strings.LessEqTotal` | dji_utils.py:15 | any two strings are comparable |
| `Strings.Split` | dji_utils.py:27-28 | `split('/')` always returns at least one piece |
| `Strings.JoinSplit` | dji_utils.py:27-28 | joining the pieces of `split('/')` with '/' gives back the path |
| `Strings.SplitHasSecond` | dji_utils.py:27-28 | `split('/')` has a second piece exactly when the path holds a '/' |
| `Strings.SplitPiecesPlain` | dji_utils.py:27-28 | no piece of `split('/')` holds a '/' |
| `Strings.RemoveAll` | dji_utils.py:111-112 | `replace(pat, '')` never lengthens a string |
| `Strings.RemoveAllAbsent` | dji_utils.py:111-112 | `replace(pat, '')` leaves a string without the pattern's first character unchanged |
| `Strings.RemoveAllPrefix` | dji_utils.py:111-112 | `replace(pat, '')` on a key made of the prefix and a prefix-free rest gives the rest |
| `Sorting.SortStrings` | dji_utils.py:15 | the reference sort returns a permutation of its input |
| `Sorting.SortStringsCorrect` | dji_utils.py:15 | the reference sort returns an ascending permutation of its input |
| `Sorting.SortedUnique` | dji_utils.py:15 | two ascending sequences with the same elements are equal, so the sort result depends only on the input multiset |
| `Sorting.InsertInPlace` | dji_utils.py:15 | one insertion step extends the sorted prefix by one element, permutes the array and leaves the suffix alone |
| `Sorting.SortInPlace` | dji_utils.py:15 | `paths.sort()` leaves the array ascending, a permutation of the old contents, and equal to the reference sort of them |
| `Listing.Candidates` | dji_utils.py:13-14 | the comprehension yields no more entries than files, each starting with the directory path |
| `Listing.CandidatesExact` | dji_utils.py:13-14 | the comprehension keeps exactly the names containing the format token, each prefixed by the directory path, never more entries than files, and `path + f` as many times as `f` is listed when `f` holds the token (otherwise not at all) |
| `Listing.CandidatesCount` | dji_utils.py:13-14 | the number of copies of `path + f` in the comprehension is the number of copies of `f` in the listing when `f` holds the token, and zero otherwise |
| `Listing.ImageList` | dji_utils.py:8-16 | the returned list is never longer than the listing |
| `Listing.ImageListSpec` | dji_utils.py:8-16 | the returned list is ascending, a permutation of the filtered list, no longer than the listing, and holds `path + f` exactly for the files `f` whose name contains the token, as many times as `f` is listed |
| `Listing.GetImageList` | dji_utils.py:8-16 | the imperative build-then-sort returns the specified list, ascending and a permutation of the filtered names |
| `Pairing.BaseName` | dji_utils.py:27-28 | a base name holds no '/' and is shorter than its path |
| `Pairing.BaseNameDefined` | dji_utils.py:27-28 | a base name exists exactly when the path contains '/'; otherwise the indexing error names the path |
| `Pairing.BaseNameOfFile` | dji_utils.py:27-28 | for `dir/name.EXT` with a four-character extension the base name is `name` |
| `Pairing.NameList` | dji_utils.py:27-28 | the name comprehension succeeds exactly when every path has a base name; it keeps length and order, and otherwise fails with the first failing path |
| `Pairing.Pair` | dji_utils.py:27-39 | on success both path lists come back unchanged, and a warning names a non-empty set |
| `Pairing.GetDngJpg` | dji_utils.py:18-39 | on success both path lists are ascending |
| `Pairing.PairOutcome` | dji_utils.py:18-39 | `get_dng_jpg` fails exactly when some path lacks '/', with JPG names computed first; on success both path lists come back unchanged |
| `Pairing.PairBranches` | dji_utils.py:29-39 | a warning fires exactly when the name sets differ; DNG-only names take precedence and select the DNG name list; otherwise the JPG name list is returned; the warned set is non-empty and holds names in one list only |
| `Pairing.PairNamesFollowPaths` | dji_utils.py:27-39 | the returned names are, position by position, the base names of one of the two path lists |
| `Pairing.PairOneMatchedFile` | dji_utils.py:18-39 | one DNG and one JPG of the same name give that name, both paths and no warning |
| `Pairing.PairNoWarningUnequalLengths` | dji_utils.py:29-39 | no warning does not imply equal lengths: two JPG files with the same base name give two names for one DNG path |
| `Pairing.PairWarningMisaligns` | dji_utils.py:31-33 | after a DNG-side warning the name list and the JPG paths are not re-aligned: name `b` is paired with the JPG file of `c` |
| `Metadata.WhitelistLayout` | dji_utils.py:83-105 | `keep_columns` is one `@xmp:` key followed by 15 `@drone-dji:` keys over distinct plain names, and `float_columns` is all of it but the first |
| `Metadata.CreateDateNotFloat` | dji_utils.py:83-105 | the creation date is not a float column |
| `Metadata.Filter` | dji_utils.py:95-96 | every kept key is whitelisted and present in the record, holding its value as text |
| `Metadata.FilterSpec` | dji_utils.py:95-96 | the filter keeps exactly the whitelisted keys present in the record, with their values untouched |
| `Metadata.CoerceColumnsErrors` | dji_utils.py:107-108 | the conversion loop fails only with a `KeyError` or a `ValueError` |
| `Metadata.CoerceColumnsSpec` | dji_utils.py:107-108 | the conversion loop succeeds exactly when every listed column is present and converts; it then converts those columns and changes nothing else; otherwise it raises the error of the first failing column |
| `Metadata.StripDjiKey` | dji_utils.py:111-112 | a `@drone-dji:` key survives the `@xmp:` pass and loses its prefix in the second pass |
| `Metadata.StripXmpKey` | dji_utils.py:111-112 | an `@xmp:` key loses its prefix in the first pass, and the bare name survives the second |
| `Metadata.RenameKeys` | dji_utils.py:111 | the renamed dict has exactly the renamed keys, each holding the value of its source key |
| `Metadata.RenamePreservesSize` | dji_utils.py:111-112 | a renaming that merges no two keys keeps the number of entries |
| `Metadata.InjectiveImageSize` | dji_utils.py:111-112 | an injective map sends a finite set onto a set of the same size |
| `Metadata.RenameTwice` | dji_utils.py:111-112 | two passes that together send a whitelist one-to-one onto distinct names merge no keys, and rename the record position by position while keeping its size |
| `Metadata.RenameWhitelisted` | dji_utils.py:110-112 | on a record with whitelisted keys, the two passes send the i-th kept column to the i-th bare name, with no collisions and the same number of entries |
| `Metadata.NormalizeOutcome` | dji_utils.py:93-113 | normalisation succeeds exactly when all 15 float columns are present and parse; otherwise the first failing column in list order gives a `KeyError` when absent and a `ValueError` when unparsable |
| `Metadata.OutcomeFromCoercion` | dji_utils.py:107-108 | the outcome of the conversion loop after the filter, restated in terms of the raw record |
| `Metadata.FilteredFloats` | dji_utils.py:95-108 | after the filter, a float column converts exactly when the raw record has it and its text parses |
| `Metadata.NormalizeFields` | dji_utils.py:93-113 | a successful result holds the 15 bare float names, plus `CreateDate` exactly when `@xmp:CreateDate` was present; each float name holds its parsed number, `CreateDate` keeps its text, and the entry count equals that of the filtered record |
| `Metadata.DjiMetadata` | dji_utils.py:78-113 | `get_dji_metadata` fails only when the record cannot be read, a float column is missing, or its text is not numeric |
| `Metadata.MetadataNeverCountMismatch` | dji_utils.py:78-113 | metadata reading never raises the count-mismatch exception of `get_imgs` |
| `Metadata.GetDjiMetadata` | dji_utils.py:78-113 | the imperative read, filter, in-place conversion loop and two renames return exactly the specified result |
| `Images.Assemble` | dji_utils.py:53-58 | a successful loop returns one record per triple, the i-th holding the i-th name and paths |
| `Images.AssembleSpec` | dji_utils.py:53-58 | the loop over `zip` succeeds exactly when every DNG file's metadata can be read; it then returns one record per triple, the i-th built from the i-th name, DNG path, JPG path and that file's metadata; otherwise it raises the error of the first failing DNG file |
| `Images.FirstFailure` | dji_utils.py:54-55 | when the i-th DNG file is the first whose metadata fails, the loop raises that error |
| `Images.AssembleStops` | dji_utils.py:53-58 | once the i-th DNG file's metadata fails after a successful prefix, the whole loop raises that error |
| `Images.AssembleExtend` | dji_utils.py:53-58 | one more loop iteration over a successful prefix appends the record of the next triple |
| `Images.AssembleSnoc` | dji_utils.py:54-57 | appending a triple whose metadata reads to a successful loop appends its record |
| `Images.ImgsOf` | dji_utils.py:49-58 | a successful `get_imgs` returns one record per DNG and per JPG path, the i-th holding the i-th paths of the two listings |
| `Images.Imgs` | dji_utils.py:48-58 | a successful `get_imgs` returns as many records as there are DNG files and as JPG files in the directory |
| `Images.ImgsSpec` | dji_utils.py:48-58 | a pairing failure propagates; the count exception is raised exactly when the name list and a path list differ in length; when the lengths agree the result is exactly that of the `zip` loop over the pairing's three lists; on success each record is the i-th name with the i-th DNG and JPG paths and the DNG file's metadata |
| `Images.ImgsCountCheck` | dji_utils.py:48-51 | for a directory, the count exception is raised exactly when `get_dng_jpg` succeeds and its name list differs in length from one of the two sorted path lists |
| `Images.GetImgs` | dji_utils.py:48-58 | the imperative `get_imgs` returns exactly the specified result for the directory |
| `Images.CollectImgs` | dji_utils.py:53-58 | the appending loop returns exactly the records of the `zip` loop, or the first metadata error |
| `MatchedPairs.CandidatesPermutation` | dji_utils.py:13-14 | the filtered list depends on the listing order only through the order of its entries: reordering the files permutes the result |
| `MatchedPairs.FormatList` | dji_utils.py:23-28 | in a directory of one file per shot and format, the listing of one format has one path per shot, holds every shot's file, and its names are exactly the shot names |
| `MatchedPairs.MatchedDirectory` | dji_utils.py:18-39 | for one DNG and one JPG file per shot, `get_dng_jpg` succeeds without a warning, returns three lists as long as the number of shots, names every shot, and lists each shot's DNG and JPG paths |
| `MatchedPairs.TwoShotListing` | dji_utils.py:8-16 | for two shots the listing of one format is their two paths in ascending order |
| `MatchedPairs.MisalignedWithoutWarning` | dji_utils.py:18-39 | for shots `a` and `a.E` the pairing succeeds without a warning, yet the DNG list is `[a, a.E]` and the JPG list `[a.E, a]`, so index 0 pairs the DNG of `a` with the JPG of `a.E` |
| `AlignedPairs.Align` | dji_utils.py:27-39 | the aligned lists have equal lengths, no longer than the JPG list, and carry no warning |
| `AlignedPairs.AlignSpec` | dji_utils.py:27-39 | each aligned DNG and JPG path is taken from its listing and has the name at its index; the aligned names are exactly the names common to both listings |
| `AlignedPairs.AlignedPair` | dji_utils.py:27-39 | the corrected pairing fails exactly when `get_dng_jpg` fails, with the same error and the same warning, and returns three lists of equal length |
| `AlignedPairs.AlignedPairSpec` | dji_utils.py:27-39 | in the corrected pairing the i-th DNG and JPG paths both have the i-th name and come from the listings; the names are those common to both formats, and without a warning they are the names `get_dng_jpg` returns |
| `AlignedPairs.AlignedImgsMatch` | dji_utils.py:48-58 | with the corrected pairing every record's DNG and JPG paths have the record's name as base name |

## Findings

| source | as written | input that shows it | evidently intended | confidence | as-written member | corrected member |
|---|---|---|---|---|---|---|
| dji_utils.py:27-39 | the name list follows the sorted JPG list, while the DNG and JPG path lists are sorted on their own; `get_imgs` (line 54) zips the three lists by index | a directory with `a.DNG`, `a.E.DNG`, `a.JPG`, `a.E.JPG`: `.` sorts before `E` and `D` < `E` < `J`, so the DNG list is `[a.DNG, a.E.DNG]` and the JPG list `[a.E.JPG, a.JPG]`; there is no warning, and the record named `a.E` gets the DNG file of `a` | each record joins the DNG and JPG files of one shot | not executed | `MatchedPairs.MisalignedWithoutWarning` | `AlignedPairs.AlignedPairSpec` |

## Left out

- Reading the file system: `listdir` and `isfile` are replaced by the list `files` of regular-file names, given in listing order.
- `get_raw_dji_metadata` (lines 61-76) is not part of this model. Reading the TIFF tags and parsing the XMP XML are the input `readRaw`. `None` stands for any exception raised while reading.
- Floating point: `float()` is the input `parse`, whose `real` result stands for the float produced. Rounding, `inf`/`nan` spellings and whitespace handling are not modelled.
- The `print` calls of `get_dng_jpg`: the model records only the set of names the warning would print.
- Dictionary order: Python dicts keep insertion order, and a Dafny `map` has none. The model says nothing about the order of metadata keys.
- `Metadata.RenameKeys`: this requires that keys merged by the renaming carry equal values. The order-dependent last-wins result of a Python comprehension on colliding keys is not modelled. The whitelisted records the code builds never collide, as `Metadata.RenameWhitelisted` proves.
- `Metadata.CoerceColumn`: a value that is already a number is left alone. The filter only ever yields text, so in the real code this branch is never reached.
- `Images.ImgsOf` keeps the pairing as written, so that `get_imgs` is modelled as the code behaves; the corrected pairing is used by `AlignedPairs.AlignedImgsOf`.
- The `dataclass` and PIL machinery (`Image` is imported but unused): `DJIImage` is a plain datatype.
