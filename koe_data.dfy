/**
 * The values the Koe dataset parser works on, and the pure definitions its
 * methods are proved against: which directory entries count as audio files,
 * when a dataset is accepted, the label vocabulary, the fold count and the
 * per-instance records with their split vectors.
 */
module KoeData {
  import opened Wrappers

  // ----- Inputs: the directory listing and the metadata table -----

  /** One entry of the dataset directory: its name and whether it is a regular file. */
  datatype Entry = Entry(name: string, isFile: bool)

  /** One row of `metadata.tsv`, typed as (id, filename, label, label_enum, fold). */
  datatype Row = Row(id: string, filename: string, labelName: string, labelEnum: int, fold: int)

  /** The metadata table as read from disk: its column names and its rows, in file order. */
  datatype Table = Table(header: seq<string>, rows: seq<Row>)

  /**
   * What the parser can see of its base directory: the entries the directory
   * listing yields and the table read from `metadata.tsv`, or `None` when
   * there is no such file.
   */
  datatype Disk = Disk(entries: seq<Entry>, metadata: Option<Table>)

  /** The only header the parser accepts, column by column. */
  const ExpectedHeader: seq<string> := ["id", "filename", "label", "label_enum", "fold"]

  // ----- Outputs: split markers and instance records -----

  /** Marks, for one fold slot, whether the instance trains or validates when that fold is held out. */
  datatype Split = Train | Valid

  /** The partition an instance belongs to; the parser never assigns one. */
  datatype Partition = TrainPartition | DevelPartition | TestPartition

  /** The record the parser emits for one row of the table. */
  datatype InstanceMetadata = InstanceMetadata(
    path: string,
    filename: string,
    labelNominal: string,
    labelNumeric: int,
    cvFolds: seq<Split>,
    partition: Option<Partition>)

  /** The error every accessor raises on a dataset that cannot be parsed. */
  datatype IOError = IOError(message: string)

  function ParseError(basedir: string): (e: IOError)
    ensures EndsWith(e.message, basedir)
  {
    var prefix := "unable to parse Koe dataset at ";
    assert (prefix + basedir)[|prefix|..] == basedir;
    IOError(prefix + basedir)
  }

  // ----- Recognising audio files -----

  /** ASCII lower-casing of one character. */
  function LowerChar(c: char): char {
    if 'A' <= c <= 'Z' then (c as int + 32) as char else c
  }

  function Lower(s: string): string {
    seq(|s|, i requires 0 <= i < |s| => LowerChar(s[i]))
  }

  predicate EndsWith(s: string, suffix: string) {
    |suffix| <= |s| && s[|s| - |suffix|..] == suffix
  }

  /** A name is a wave file name when, lower-cased, it ends in ".wav". */
  predicate IsWav(name: string) {
    EndsWith(Lower(name), ".wav")
  }

  /** An entry the parser treats as an audio file of the dataset. */
  predicate IsAudioFile(e: Entry) {
    e.isFile && IsWav(e.name)
  }

  /** The names of the audio files among the entries, in listing order. */
  function WavFileNames(entries: seq<Entry>): seq<string> {
    if entries == [] then []
    else (if IsAudioFile(entries[0]) then [entries[0].name] else []) + WavFileNames(entries[1..])
  }

  function WavNameSet(entries: seq<Entry>): set<string> {
    set n | n in WavFileNames(entries)
  }

  /** The `filename` column of the table, in row order. */
  function Filenames(rows: seq<Row>): seq<string> {
    seq(|rows|, i requires 0 <= i < |rows| => rows[i].filename)
  }

  function FilenameSet(rows: seq<Row>): set<string> {
    set n | n in Filenames(rows)
  }

  /** The extension test ignores case in every one of its four characters, and nothing else. */
  lemma IsWavCaseInsensitive(name: string)
    ensures IsWav(name) <==>
      && |name| >= 4
      && name[|name| - 4] == '.'
      && (name[|name| - 3] == 'w' || name[|name| - 3] == 'W')
      && (name[|name| - 2] == 'a' || name[|name| - 2] == 'A')
      && (name[|name| - 1] == 'v' || name[|name| - 1] == 'V')
  {
    var l := Lower(name);
    if |name| >= 4 {
      assert l[|l| - 4..] == [l[|l| - 4], l[|l| - 3], l[|l| - 2], l[|l| - 1]];
    }
  }

  /** A name is listed exactly when some audio-file entry carries it. */
  lemma {:induction false} WavFileNamesMember(entries: seq<Entry>, name: string)
    ensures name in WavFileNames(entries) <==> exists e :: e in entries && IsAudioFile(e) && e.name == name
  {
    if entries != [] {
      WavFileNamesMember(entries[1..], name);
      assert entries == [entries[0]] + entries[1..];
    }
  }

  /**
   * The set of audio names does not depend on the order of the listing; this
   * is why the sort `can_parse` applies to the listing cannot change the verdict.
   */
  lemma WavNameSetOrderIndependent(e1: seq<Entry>, e2: seq<Entry>)
    requires multiset(e1) == multiset(e2)
    ensures WavNameSet(e1) == WavNameSet(e2)
  {
    forall n
      ensures n in WavNameSet(e1) <==> n in WavNameSet(e2)
    {
      WavFileNamesMember(e1, n);
      WavFileNamesMember(e2, n);
      forall e
        ensures e in e1 <==> e in e2
      {
        assert e in e1 <==> e in multiset(e1);
        assert e in e2 <==> e in multiset(e2);
      }
    }
  }

  // ----- Validation -----

  /** Which of the checks a dataset fails first, or that it passes them all. */
  datatype Verdict = MissingMetadata | InvalidHeader | FileMismatch | Accepted

  /** The checks of validation in the order the parser runs them. */
  function Check(disk: Disk): Verdict {
    if disk.metadata.None? then MissingMetadata
    else if disk.metadata.value.header != ExpectedHeader then InvalidHeader
    else if WavNameSet(disk.entries) != FilenameSet(disk.metadata.value.rows) then FileMismatch
    else Accepted
  }

  /**
   * A dataset is accepted exactly when the table exists, has the expected
   * header, every audio file on disk has a row, and every row names an audio
   * file on disk. Duplicate rows are not a reason for rejection.
   */
  lemma CheckAccepted(disk: Disk)
    ensures Check(disk) == Accepted <==>
      && disk.metadata.Some?
      && disk.metadata.value.header == ExpectedHeader
      && (forall e :: e in disk.entries && IsAudioFile(e) ==>
            exists r :: r in disk.metadata.value.rows && r.filename == e.name)
      && (forall r :: r in disk.metadata.value.rows ==>
            exists e :: e in disk.entries && IsAudioFile(e) && e.name == r.filename)
  {
    if disk.metadata.Some? {
      var rows := disk.metadata.value.rows;
      var files := WavNameSet(disk.entries);
      var names := FilenameSet(rows);
      forall n
        ensures n in files <==> exists e :: e in disk.entries && IsAudioFile(e) && e.name == n
      {
        WavFileNamesMember(disk.entries, n);
      }
      forall n
        ensures n in names <==> exists r :: r in rows && r.filename == n
      {
        if n in names {
          var i :| 0 <= i < |rows| && Filenames(rows)[i] == n;
          assert rows[i] in rows;
        }
        if r :| r in rows && r.filename == n {
          var i :| 0 <= i < |rows| && rows[i] == r;
          assert Filenames(rows)[i] == n;
        }
      }
      if files == names {
        forall e | e in disk.entries && IsAudioFile(e)
          ensures exists r :: r in rows && r.filename == e.name
        {
          assert e.name in files;
        }
        forall r | r in rows
          ensures exists e :: e in disk.entries && IsAudioFile(e) && e.name == r.filename
        {
          assert r.filename in names;
        }
      } else {
        var n :| n in files - names || n in names - files;
        if n in files - names {
          var e :| e in disk.entries && IsAudioFile(e) && e.name == n;
          assert !(exists r :: r in rows && r.filename == e.name);
        } else {
          var r :| r in rows && r.filename == n;
          assert !(exists e :: e in disk.entries && IsAudioFile(e) && e.name == r.filename);
        }
      }
    }
  }

  // ----- The label vocabulary and the fold count -----

  /** The labels used by the rows. */
  function Labels(rows: seq<Row>): set<string> {
    set r | r in rows :: r.labelName
  }

  /**
   * The label vocabulary after scanning the rows in order: a label is entered
   * with the code of the row that introduces it and never updated afterwards.
   */
  function LabelMapOf(rows: seq<Row>): map<string, int>
    decreases |rows|
  {
    if rows == [] then map[]
    else
      var m := LabelMapOf(rows[..|rows| - 1]);
      var r := rows[|rows| - 1];
      if r.labelName in m then m else m[r.labelName := r.labelEnum]
  }

  /** The running maximum of the fold column, starting from 0. */
  function MaxFold(rows: seq<Row>): int
    decreases |rows|
  {
    if rows == [] then 0
    else
      var m := MaxFold(rows[..|rows| - 1]);
      var f := rows[|rows| - 1].fold;
      if f > m then f else m
  }

  /** The number of cross-validation folds: one more than the largest fold index (and at least 1). */
  function NumFoldsOf(rows: seq<Row>): int {
    MaxFold(rows) + 1
  }

  /** The vocabulary's keys are exactly the labels of the rows. */
  lemma {:induction false} LabelMapKeys(rows: seq<Row>)
    ensures LabelMapOf(rows).Keys == Labels(rows)
    decreases |rows|
  {
    if rows != [] {
      var p, r := rows[..|rows| - 1], rows[|rows| - 1];
      LabelMapKeys(p);
      assert rows == p + [r];
      assert Labels(rows) == Labels(p) + {r.labelName};
    }
  }

  /** Scanning more rows never changes the code of a label already entered. */
  lemma {:induction false} LabelMapPrefixStable(rows: seq<Row>, k: nat)
    requires k <= |rows|
    ensures forall l :: l in LabelMapOf(rows[..k]) ==>
      l in LabelMapOf(rows) && LabelMapOf(rows)[l] == LabelMapOf(rows[..k])[l]
    decreases |rows| - k
  {
    if k < |rows| {
      LabelMapPrefixStable(rows, k + 1);
      assert rows[..k + 1][..k] == rows[..k];
    } else {
      assert rows[..k] == rows;
    }
  }

  /** First seen wins: the row that introduces a label fixes that label's code. */
  lemma LabelMapFirstSeen(rows: seq<Row>, i: nat)
    requires i < |rows|
    requires forall j :: 0 <= j < i ==> rows[j].labelName != rows[i].labelName
    ensures rows[i].labelName in LabelMapOf(rows)
    ensures LabelMapOf(rows)[rows[i].labelName] == rows[i].labelEnum
  {
    var p := rows[..i];
    LabelMapKeys(p);
    assert rows[i].labelName !in Labels(p);
    assert rows[..i + 1][..i] == p;
    assert LabelMapOf(rows[..i + 1])[rows[i].labelName] == rows[i].labelEnum;
    LabelMapPrefixStable(rows, i + 1);
  }

  lemma {:induction false} MaxFoldBounds(rows: seq<Row>)
    ensures MaxFold(rows) >= 0
    ensures forall i :: 0 <= i < |rows| ==> rows[i].fold <= MaxFold(rows)
    ensures MaxFold(rows) == 0 || exists i :: 0 <= i < |rows| && rows[i].fold == MaxFold(rows)
    decreases |rows|
  {
    if rows != [] {
      var p := rows[..|rows| - 1];
      MaxFoldBounds(p);
      assert forall i :: 0 <= i < |p| ==> rows[i] == p[i];
    }
  }

  /**
   * The fold count is at least 1, exceeds every fold index in the table, and
   * is the least such number: either it is 1 or some row uses fold count - 1.
   */
  lemma NumFoldsBounds(rows: seq<Row>)
    ensures NumFoldsOf(rows) >= 1
    ensures forall i :: 0 <= i < |rows| ==> rows[i].fold < NumFoldsOf(rows)
    ensures NumFoldsOf(rows) == 1 || exists i :: 0 <= i < |rows| && rows[i].fold == NumFoldsOf(rows) - 1
  {
    MaxFoldBounds(rows);
  }

  // ----- Records -----

  /** The folds of the rows are usable as indices into a split vector of length n. */
  predicate FoldsBelow(rows: seq<Row>, n: int) {
    forall i :: 0 <= i < |rows| ==> 0 <= rows[i].fold < n
  }

  predicate FoldsNonNegative(rows: seq<Row>) {
    forall i :: 0 <= i < |rows| ==> rows[i].fold >= 0
  }

  /** A split vector of n slots holding `Valid` at `fold` and `Train` everywhere else. */
  function SplitVector(n: nat, fold: nat): seq<Split>
    requires fold < n
  {
    seq(n, k => if k == fold then Valid else Train)
  }

  /**
   * posixpath.join of two components: an absolute second component replaces
   * the first; otherwise a separator is inserted unless the first is empty or
   * already ends with one.
   */
  function Join(dir: string, name: string): (p: string)
    ensures EndsWith(p, name)
  {
    if |name| > 0 && name[0] == '/' then name
    else if dir == [] || dir[|dir| - 1] == '/' then dir + name
    else dir + "/" + name
  }

  /** The record built from one row, for a dataset with n folds. */
  function Record(basedir: string, r: Row, n: nat): InstanceMetadata
    requires 0 <= r.fold < n
  {
    InstanceMetadata(Join(basedir, r.filename), r.filename, r.labelName, r.labelEnum,
                     SplitVector(n, r.fold), None)
  }

  /** The manifest: one record per row, in row order. */
  function Manifest(basedir: string, rows: seq<Row>, n: nat): seq<InstanceMetadata>
    requires FoldsBelow(rows, n)
  {
    seq(|rows|, i requires 0 <= i < |rows| => Record(basedir, rows[i], n))
  }

  /** Exactly one slot of a split vector is `Valid`. */
  lemma {:induction false} SplitVectorOneValid(n: nat, fold: nat)
    requires fold < n
    ensures multiset(SplitVector(n, fold))[Valid] == 1
    ensures multiset(SplitVector(n, fold))[Train] == n - 1
  {
    var v := SplitVector(n, fold);
    AllTrain(fold);
    AllTrain(n - fold - 1);
    assert v == seq(fold, k => Train) + [Valid] + seq(n - fold - 1, k => Train);
  }

  lemma {:induction false} AllTrain(n: nat)
    ensures multiset(seq(n, k => Train))[Valid] == 0
    ensures multiset(seq(n, k => Train))[Train] == n
  {
    if n > 0 {
      AllTrain(n - 1);
      assert seq(n, k => Train) == seq(n - 1, k => Train) + [Train];
    }
  }

  /**
   * Each record copies its row's filename and labels, joins the filename onto
   * the base directory, leaves the partition unset, and has a split vector of
   * n slots that is `Valid` exactly at the row's own fold.
   */
  lemma ManifestRecords(basedir: string, rows: seq<Row>, n: nat)
    requires FoldsBelow(rows, n)
    ensures |Manifest(basedir, rows, n)| == |rows|
    ensures forall i :: 0 <= i < |rows| ==>
      var m := Manifest(basedir, rows, n)[i];
      && m.filename == rows[i].filename
      && m.labelNominal == rows[i].labelName
      && m.labelNumeric == rows[i].labelEnum
      && m.path == Join(basedir, rows[i].filename)
      && m.partition == None
      && |m.cvFolds| == n
      && (forall k :: 0 <= k < n ==> (m.cvFolds[k] == Valid <==> k == rows[i].fold))
  {
  }

  /**
   * On an accepted dataset, the filenames of the manifest are exactly the
   * names of the audio files on disk.
   */
  lemma ManifestCoversFiles(disk: Disk, basedir: string)
    requires Check(disk) == Accepted
    requires FoldsNonNegative(disk.metadata.value.rows)
    ensures FoldsBelow(disk.metadata.value.rows, NumFoldsOf(disk.metadata.value.rows))
    ensures (set m | m in Manifest(basedir, disk.metadata.value.rows, NumFoldsOf(disk.metadata.value.rows)) :: m.filename)
         == WavNameSet(disk.entries)
  {
    var rows := disk.metadata.value.rows;
    NumFoldsBounds(rows);
    var ms := Manifest(basedir, rows, NumFoldsOf(rows));
    var names := set m | m in ms :: m.filename;
    forall n
      ensures n in names <==> n in FilenameSet(rows)
    {
      if n in names {
        var m :| m in ms && m.filename == n;
        var i :| 0 <= i < |ms| && ms[i] == m;
        assert Filenames(rows)[i] == n;
      }
      if n in FilenameSet(rows) {
        var i :| 0 <= i < |rows| && Filenames(rows)[i] == n;
        assert ms[i] in ms;
      }
    }
  }

  // ----- Worked examples -----

  /** Two audio files and a matching two-row table are accepted. */
  lemma ExampleTwoFilesAccepted()
    ensures
      var rows := [Row("1", "a.wav", "dog", 0, 0), Row("2", "b.wav", "cat", 1, 1)];
      var disk := Disk([Entry("a.wav", true), Entry("b.wav", true), Entry("metadata.tsv", true)],
                       Some(Table(ExpectedHeader, rows)));
      Check(disk) == Accepted
  {
    var entries := [Entry("a.wav", true), Entry("b.wav", true), Entry("metadata.tsv", true)];
    var rows := [Row("1", "a.wav", "dog", 0, 0), Row("2", "b.wav", "cat", 1, 1)];
    assert IsWav("a.wav") && IsWav("b.wav") && !IsWav("metadata.tsv") by {
      IsWavCaseInsensitive("a.wav");
      IsWavCaseInsensitive("b.wav");
      IsWavCaseInsensitive("metadata.tsv");
    }
    assert WavFileNames(entries) == ["a.wav", "b.wav"];
    assert Filenames(rows) == ["a.wav", "b.wav"];
  }

  /** A table naming c.wav where the disk has b.wav is rejected. */
  lemma ExampleMismatchRejected()
    ensures
      var rows := [Row("1", "a.wav", "dog", 0, 0), Row("2", "c.wav", "cat", 1, 1)];
      var disk := Disk([Entry("a.wav", true), Entry("b.wav", true)], Some(Table(ExpectedHeader, rows)));
      Check(disk) == FileMismatch
  {
    var entries := [Entry("a.wav", true), Entry("b.wav", true)];
    var rows := [Row("1", "a.wav", "dog", 0, 0), Row("2", "c.wav", "cat", 1, 1)];
    assert IsWav("a.wav") && IsWav("b.wav") by {
      IsWavCaseInsensitive("a.wav");
      IsWavCaseInsensitive("b.wav");
    }
    assert WavFileNames(entries) == ["a.wav", "b.wav"];
    assert Filenames(rows)[1] == "c.wav";
    assert "c.wav" !in WavNameSet(entries);
  }

  /** A header with two columns swapped is rejected. */
  lemma ExampleReorderedHeaderRejected(entries: seq<Entry>, rows: seq<Row>)
    ensures Check(Disk(entries, Some(Table(["id", "label", "filename", "label_enum", "fold"], rows)))) == InvalidHeader
  {
    assert ["id", "label", "filename", "label_enum", "fold"][1] != ExpectedHeader[1];
  }

  /**
   * A filename listed twice in the table, with one file on disk, still passes
   * validation: the comparison is between sets.
   */
  lemma ExampleDuplicateRowAccepted()
    ensures
      var rows := [Row("1", "A.WAV", "dog", 5, 0), Row("2", "A.WAV", "dog", 9, 2), Row("3", "A.WAV", "cat", 1, 1)];
      var disk := Disk([Entry("A.WAV", true), Entry("notes.txt", true), Entry("x.wav", false)],
                       Some(Table(ExpectedHeader, rows)));
      && Check(disk) == Accepted
      && LabelMapOf(rows) == map["dog" := 5, "cat" := 1]
      && NumFoldsOf(rows) == 3
  {
    var entries := [Entry("A.WAV", true), Entry("notes.txt", true), Entry("x.wav", false)];
    var rows := [Row("1", "A.WAV", "dog", 5, 0), Row("2", "A.WAV", "dog", 9, 2), Row("3", "A.WAV", "cat", 1, 1)];
    assert IsWav("A.WAV") && !IsWav("notes.txt") by {
      IsWavCaseInsensitive("A.WAV");
      IsWavCaseInsensitive("notes.txt");
    }
    assert WavFileNames(entries) == ["A.WAV"];
    assert Filenames(rows) == ["A.WAV", "A.WAV", "A.WAV"];
    assert rows[..1][..0] == [];
    assert LabelMapOf(rows[..1]) == map["dog" := 5];
    assert rows[..2][..1] == rows[..1];
    assert LabelMapOf(rows[..2]) == map["dog" := 5];
    assert rows[..2] == rows[..|rows| - 1];
    assert LabelMapOf(rows) == map["dog" := 5, "cat" := 1];
    assert MaxFold(rows[..1]) == 0;
    assert MaxFold(rows[..2]) == 2;
  }
}
