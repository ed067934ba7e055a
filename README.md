# Koe dataset parser, modelled in Dafny

auDeep's `KoeParser` reads a dataset laid out as one flat directory of
`.wav` files beside a tab-separated `metadata.tsv`. It validates the
dataset once, memoising the answer. The table must exist and have the header
`id, filename, label, label_enum, fold`, and the set of wave files on disk
must equal the set of `filename` values. When validation succeeds, the parser
caches three things: the rows in table order, a label vocabulary (the code
of the first row that uses each label) and the fold count (largest fold plus
one). `num_instances`, `num_folds` and `label_map` read those caches.
`parse` turns each cached row into an instance record whose split vector
is `VALID` at the row's own fold and `TRAIN` everywhere else. When
validation fails, each of these raises `IOError`.

The model contains:

- `wrappers.dfy` (module `Wrappers`): `Option` and `Result`.
- `koe_data.dfy` (module `KoeData`): the inputs. These are the directory
  listing as a sequence of `Entry(name, isFile)` and the table as a header
  plus typed `Row`s. Together they form a `Disk` snapshot, whose table is
  `None` when `metadata.tsv` is absent. The module also holds the pure
  definitions the methods are proved against: `IsWav`, `WavFileNames`,
  `Check`, `LabelMapOf`, `MaxFold`/`NumFoldsOf`, `SplitVector`, `Join`,
  `Record` and `Manifest`. Lemmas about these definitions sit beside them.
- `koe_parser.dfy` (module `Koe`): class `KoeParser`. Its mutable caches
  are `status` (unvalidated, or validated with an answer), `metadata`,
  `data`, `labelMap` and `numFolds`. Python's `None` becomes `Option.None`.
  The module also holds the loops of the Python parser as methods: `ScanRows`
  (the scan in `can_parse`), `NewSplitVector` (the list overwritten in
  place) and `BuildRecords` (the append loop of `parse`).

The disk is a parameter of `CanParse` and of every accessor. Memoisation
can therefore be stated directly: once the status is set, the disk passed
in is ignored and nothing changes (`CanParseStep`, `ParseTwice`).

## Model

| member | source | states |
|---|---|---|
| `Koe.KoeParser.constructor` | audeep/backend/parsers/koe.py:37-51 | A new parser is unvalidated and every cache is unset. |
| `Koe.KoeParser.CanParse` | audeep/backend/parsers/koe.py:53-109 | After a previous answer, it returns that answer and leaves every field unchanged, whatever the disk holds. On the first call, it answers `Check(disk) == Accepted` and records the answer. It keeps the table it read. On success it caches the table's rows in order, with `LabelMapOf` and `NumFoldsOf` of those rows. On failure the derived caches stay unset. |
| `Koe.KoeParser.NumInstances` | audeep/backend/parsers/koe.py:111-129 | It validates as `CanParse` does. It fails with the parse error naming the base directory if and only if validation fails. Otherwise it returns the number of cached rows. |
| `Koe.KoeParser.NumFolds` | audeep/backend/parsers/koe.py:131-149 | It validates as `CanParse` does. It fails with the parse error if and only if validation fails. Otherwise it returns the fold count of the cached rows. |
| `Koe.KoeParser.LabelMap` | audeep/backend/parsers/koe.py:151-173 | It validates as `CanParse` does. It fails with the parse error if and only if validation fails. Otherwise it returns the first-seen label vocabulary of the cached rows. |
| `Koe.KoeParser.Parse` | audeep/backend/parsers/koe.py:175-210 | It validates as `CanParse` does. It fails with the parse error if and only if validation fails. Otherwise every fold is a valid index below the fold count, and the result is the manifest of the cached rows. |
| `Koe.ScanRows` | audeep/backend/parsers/koe.py:90-103 | The loop keeps the rows in table order. It builds the first-seen label vocabulary and returns the running maximum of the folds (from 0) plus one. |
| `Koe.NewSplitVector` | audeep/backend/parsers/koe.py:199-200 | The vector has `n` slots. It is `Valid` at `fold` and `Train` at every other slot. |
| `Koe.BuildRecords` | audeep/backend/parsers/koe.py:195-210 | The loop emits exactly the manifest: one record per row, in row order. |
| `Koe.ParseTwice` | audeep/backend/parsers/koe.py:62-62 | On one parser, a second `Parse` against a changed disk returns the same result as the first. The first succeeds exactly when the original disk is accepted. |
| `Koe.ExampleTwoInstances` | audeep/backend/parsers/koe.py:126-129 | A new parser over disk files `a.wav` and `b.wav` with a matching two-row table reports two instances. |
| `Koe.ExampleRejectedNegativeFold` | audeep/backend/parsers/koe.py:192-193 | A table with a wrong header makes `Parse` raise the parse error, even when a row has a negative fold. |
| `KoeData.ParseError` | audeep/backend/parsers/koe.py:127-127 | The error message ends with the dataset's base directory. |
| `KoeData.IsWavCaseInsensitive` | audeep/backend/parsers/koe.py:63-64 | A name is a wave file name exactly when its last four characters are `.`, `w`/`W`, `a`/`A`, `v`/`V`. |
| `KoeData.WavFileNamesMember` | audeep/backend/parsers/koe.py:63-65 | A name is in the listing's wave names exactly when some regular-file entry with a wave name carries it. Directories and other extensions are excluded. |
| `KoeData.WavNameSetOrderIndependent` | audeep/backend/parsers/koe.py:63-65 | Two listings with the same entries in any order give the same set of wave names. So the sort cannot change the verdict. |
| `KoeData.CheckAccepted` | audeep/backend/parsers/koe.py:66-88 | Acceptance holds exactly when the table exists, its header is the expected one, every wave file has a row, and every row's filename is a wave file on disk. |
| `KoeData.LabelMapKeys` | audeep/backend/parsers/koe.py:91-98 | The vocabulary's keys are exactly the labels used in the rows. |
| `KoeData.LabelMapPrefixStable` | audeep/backend/parsers/koe.py:97-98 | Scanning further rows never removes or changes a label already entered. |
| `KoeData.LabelMapFirstSeen` | audeep/backend/parsers/koe.py:94-98 | Take the first row that uses a label. The vocabulary maps that label to that row's `label_enum`. |
| `KoeData.MaxFoldBounds` | audeep/backend/parsers/koe.py:92-101 | The running maximum is non-negative and at least every fold. It is 0 or it equals some row's fold. |
| `KoeData.NumFoldsBounds` | audeep/backend/parsers/koe.py:100-103 | The fold count is at least 1 and exceeds every fold. It is the least such count: either 1, or one more than some row's fold. |
| `KoeData.Join` | audeep/backend/parsers/koe.py:198-198 | The joined path ends with the file name. |
| `KoeData.SplitVectorOneValid` | audeep/backend/parsers/koe.py:199-200 | A split vector has exactly one `Valid` slot. Its other `n - 1` slots are `Train`. |
| `KoeData.ManifestRecords` | audeep/backend/parsers/koe.py:195-210 | The manifest has one record per row. Each record copies the row's filename, label and label code. Its path is the base directory joined with the filename, and its partition is unset. Its split vector has one slot per fold and is `Valid` exactly at the row's fold. |
| `KoeData.ManifestCoversFiles` | audeep/backend/parsers/koe.py:80-81 | On an accepted dataset, the filenames of the manifest are exactly the wave files on disk. |
| `KoeData.ExampleTwoFilesAccepted` | audeep/backend/parsers/koe.py:74-107 | Disk files `a.wav` and `b.wav` with a matching two-row table are accepted. |
| `KoeData.ExampleMismatchRejected` | audeep/backend/parsers/koe.py:80-88 | Disk files `{a.wav, b.wav}` against table names `{a.wav, c.wav}` are rejected as a mismatch. |
| `KoeData.ExampleReorderedHeaderRejected` | audeep/backend/parsers/koe.py:74-78 | A header with `label` and `filename` swapped is rejected, whatever the files and rows. |
| `KoeData.ExampleDuplicateRowAccepted` | audeep/backend/parsers/koe.py:80-103 | Consider one file `A.WAV`, plus a non-wave file and a non-regular `x.wav`, against three rows all naming `A.WAV`. This is accepted. `dog` keeps its first code 5, not 9. Folds 0, 2 and 1 give 3 folds. |

## Left out

- File system access (`Path.glob`, `is_file`, `os.path.isfile`): the directory listing and the presence of `metadata.tsv` are the `Disk` parameter.
- `pandas.read_csv`: the table arrives already parsed into a header and rows typed (string, string, string, int, int). Type coercion and missing-value handling are not modelled.
- The sort of the wave-file list: the list is used only as a set, so the model keeps listing order. `WavNameSetOrderIndependent` shows that order has no effect.
- `str.lower`: it is modelled for ASCII letters only. Outside ASCII, the Kelvin sign lower-cases to `k`, and U+0130 (`İ`) lower-cases to `i` followed by U+0307; U+0130 is the only character whose lower-casing changes length. No character outside ASCII lower-cases to `.`, `w`, `a` or `v`, and the two-character expansion of U+0130 ends in U+0307. So the `.wav` test gives the same answer.
- Path construction: `os.path.join` is modelled as POSIX join of two components. The normalisation done by `pathlib.Path` is not modelled, and paths are plain strings.
- Koe.KoeParser.Parse: it requires non-negative folds in the rows it will materialise: the cached rows, or the rows of a table validation is about to accept. Python's negative indexing of `cv_folds` is not reproduced. A table that fails validation can still carry negative folds, and then `Parse` raises the parse error.
- Koe.ParseTwice: it requires non-negative folds only when the first disk is accepted, for the same reason as `Parse`.
- Koe.KoeParser.LabelMap: `label_map` returns the cache dict itself, so a caller that mutates it changes what every later `label_map` call returns. The model returns a map value and does not capture this aliasing.
- Logging through `self.log.debug` and `LoggingMixin`: it has no effect on results. The three distinct debug messages are the `Verdict` cases of `Check`.
- `Split`, `Partition` and `_InstanceMetadata` come from modules that are not part of this model. They are modelled as plain datatypes. The values of `Partition` are placeholders, because the parser only ever sets `None`.
- The docstrings of `num_folds`, `label_map` and `parse` describe the behaviour of other datasets (10 or five folds, class directories). The model follows the code: table order, and the fold count derived from the data.
- `setup.py`: it is packaging metadata and CUDA detection through a subprocess. It has no state worth stating.
