/**
 * The Koe dataset parser: one object per dataset directory whose first
 * validation fills its caches (rows, label vocabulary, fold count) and whose
 * accessors and record builder are served from those caches afterwards.
 */
module Koe {
  import opened Wrappers
  import opened KoeData

  /** Whether validation has run, and if so what it answered. */
  datatype CacheStatus = Unvalidated | Validated(ok: bool)

  /**
   * The scan over the table after validation succeeds: the rows kept in
   * order, the label vocabulary (first seen wins) and the fold count.
   */
  method ScanRows(rows: seq<Row>) returns (data: seq<Row>, labels: map<string, int>, folds: int)
    ensures data == rows
    ensures labels == LabelMapOf(rows)
    ensures folds == NumFoldsOf(rows)
  {
    data, labels, folds := [], map[], 0;
    for i := 0 to |rows|
      invariant data == rows[..i]
      invariant labels == LabelMapOf(rows[..i])
      invariant folds == MaxFold(rows[..i])
    {
      var r := rows[i];
      assert rows[..i + 1][..i] == rows[..i];
      data := data + [r];
      if r.labelName !in labels {
        labels := labels[r.labelName := r.labelEnum];
      }
      if r.fold > folds {
        folds := r.fold;
      }
    }
    assert rows[..|rows|] == rows;
    folds := folds + 1;
  }

  /** A split vector of n slots filled with `Train`, then overwritten with `Valid` at `fold`. */
  method NewSplitVector(n: nat, fold: nat) returns (cv: seq<Split>)
    requires fold < n
    ensures |cv| == n
    ensures cv[fold] == Valid
    ensures forall k :: 0 <= k < n && k != fold ==> cv[k] == Train
    ensures cv == SplitVector(n, fold)
  {
    var a := new Split[n](_ => Train);
    a[fold] := Valid;
    cv := a[..];
  }

  /** The records for the cached rows, appended one by one in row order. */
  method BuildRecords(basedir: string, rows: seq<Row>, n: nat) returns (metas: seq<InstanceMetadata>)
    requires FoldsBelow(rows, n)
    ensures metas == Manifest(basedir, rows, n)
  {
    metas := [];
    for i := 0 to |rows|
      invariant |metas| == i
      invariant forall j :: 0 <= j < i ==> metas[j] == Record(basedir, rows[j], n)
    {
      var r := rows[i];
      var path := Join(basedir, r.filename);
      var cv := NewSplitVector(n, r.fold);
      metas := metas + [InstanceMetadata(path, r.filename, r.labelName, r.labelEnum, cv, None)];
    }
  }

  class KoeParser {
    const basedir: string
    var status: CacheStatus
    var metadata: Option<Table>
    var data: Option<seq<Row>>
    var labelMap: Option<map<string, int>>
    var numFolds: Option<int>

    /**
     * The caches agree with the status: all unset before validation, the
     * derived caches unset after a failed one, and after a successful one the
     * rows of the table read, with the vocabulary and fold count derived from them.
     */
    ghost predicate Consistent()
      reads this
    {
      match status
      case Unvalidated =>
        metadata.None? && data.None? && labelMap.None? && numFolds.None?
      case Validated(ok) =>
        && (data.Some? <==> ok)
        && (labelMap.Some? <==> ok)
        && (numFolds.Some? <==> ok)
        && (ok ==> && metadata.Some?
                   && data.value == metadata.value.rows
                   && labelMap.value == LabelMapOf(data.value)
                   && numFolds.value == NumFoldsOf(data.value))
    }

    constructor (basedir: string)
      ensures this.basedir == basedir
      ensures status == Unvalidated
      ensures Consistent()
    {
      this.basedir := basedir;
      status := Unvalidated;
      metadata, data, labelMap, numFolds := None, None, None, None;
    }

    /**
     * What one call of `CanParse` does: on a parser that has already
     * validated, it returns the cached answer and changes nothing, whatever
     * the disk now holds; otherwise it runs the checks against `disk`, records
     * the answer, keeps the table it read and, on success, fills the caches.
     */
    twostate predicate CanParseStep(disk: Disk, ok: bool)
      reads this
    {
      && Consistent()
      && status == Validated(ok)
      && if old(status).Validated? then
           && ok == old(status).ok
           && metadata == old(metadata) && data == old(data)
           && labelMap == old(labelMap) && numFolds == old(numFolds)
         else
           && (ok <==> Check(disk) == Accepted)
           && metadata == disk.metadata
           && (ok ==> data == Some(disk.metadata.value.rows))
    }

    /** True when the dataset directory can be parsed; memoised after the first call. */
    method CanParse(disk: Disk) returns (ok: bool)
      requires Consistent()
      modifies this
      ensures CanParseStep(disk, ok)
    {
      if status.Validated? {
        return status.ok;
      }
      var fileNames := WavFileNames(disk.entries);
      if disk.metadata.None? {
        status := Validated(false);
        return false;
      }
      metadata := disk.metadata;
      var table := disk.metadata.value;
      if table.header != ExpectedHeader {
        status := Validated(false);
        return false;
      }
      var metadataFileNames := Filenames(table.rows);
      if (set n | n in fileNames) != (set n | n in metadataFileNames) {
        status := Validated(false);
        return false;
      }
      var rows, labels, folds := ScanRows(table.rows);
      data, labelMap, numFolds := Some(rows), Some(labels), Some(folds);
      status := Validated(true);
      return true;
    }

    /** The number of instances, or the parse error when validation fails. */
    method NumInstances(disk: Disk) returns (r: Result<nat, IOError>)
      requires Consistent()
      modifies this
      ensures CanParseStep(disk, r.Success?)
      ensures r.Failure? ==> r.error == ParseError(basedir)
      ensures r.Success? ==> r.value == |data.value|
    {
      var ok := CanParse(disk);
      if !ok {
        return Failure(ParseError(basedir));
      }
      return Success(|data.value|);
    }

    /** The number of cross-validation folds, or the parse error when validation fails. */
    method NumFolds(disk: Disk) returns (r: Result<int, IOError>)
      requires Consistent()
      modifies this
      ensures CanParseStep(disk, r.Success?)
      ensures r.Failure? ==> r.error == ParseError(basedir)
      ensures r.Success? ==> r.value == NumFoldsOf(data.value)
    {
      var ok := CanParse(disk);
      if !ok {
        return Failure(ParseError(basedir));
      }
      return Success(numFolds.value);
    }

    /** The mapping from nominal to numeric labels, or the parse error when validation fails. */
    method LabelMap(disk: Disk) returns (r: Result<map<string, int>, IOError>)
      requires Consistent()
      modifies this
      ensures CanParseStep(disk, r.Success?)
      ensures r.Failure? ==> r.error == ParseError(basedir)
      ensures r.Success? ==> r.value == LabelMapOf(data.value)
    {
      var ok := CanParse(disk);
      if !ok {
        return Failure(ParseError(basedir));
      }
      return Success(labelMap.value);
    }

    /**
     * The rows `Parse` will materialise: the cached ones, or those of the
     * table it is about to read and accept; none when it will raise instead.
     */
    ghost function PendingRows(disk: Disk): seq<Row>
      reads this
    {
      if data.Some? then data.value
      else if status.Unvalidated? && Check(disk) == Accepted then disk.metadata.value.rows
      else []
    }

    /** One record per cached row, in row order, or the parse error when validation fails. */
    method Parse(disk: Disk) returns (r: Result<seq<InstanceMetadata>, IOError>)
      requires Consistent()
      requires FoldsNonNegative(PendingRows(disk))
      modifies this
      ensures CanParseStep(disk, r.Success?)
      ensures r.Failure? ==> r.error == ParseError(basedir)
      ensures r.Success? ==> FoldsBelow(data.value, NumFoldsOf(data.value))
      ensures r.Success? ==> r.value == Manifest(basedir, data.value, NumFoldsOf(data.value))
    {
      var ok := CanParse(disk);
      if !ok {
        return Failure(ParseError(basedir));
      }
      NumFoldsBounds(data.value);
      var metas := BuildRecords(basedir, data.value, numFolds.value);
      return Success(metas);
    }
  }

  /**
   * Memoisation seen from a caller: once a parser has answered, a second
   * `Parse` returns the same result even if the disk has changed in between.
   */
  method ParseTwice(basedir: string, before: Disk, after: Disk)
    returns (first: Result<seq<InstanceMetadata>, IOError>, second: Result<seq<InstanceMetadata>, IOError>)
    requires Check(before) == Accepted ==> FoldsNonNegative(before.metadata.value.rows)
    ensures first.Success? <==> Check(before) == Accepted
    ensures second == first
  {
    var p := new KoeParser(basedir);
    first := p.Parse(before);
    second := p.Parse(after);
  }

  /**
   * Two wave files with a matching two-row table: a new parser accepts the
   * dataset and reports two instances.
   */
  method ExampleTwoInstances() returns (n: Result<nat, IOError>)
    ensures n == Success(2)
  {
    var rows := [Row("1", "a.wav", "dog", 0, 0), Row("2", "b.wav", "cat", 1, 1)];
    var disk := Disk([Entry("a.wav", true), Entry("b.wav", true), Entry("metadata.tsv", true)],
                     Some(Table(ExpectedHeader, rows)));
    ExampleTwoFilesAccepted();
    var p := new KoeParser("data");
    n := p.NumInstances(disk);
  }

  /**
   * A table with a wrong header and a negative fold: `Parse` raises the parse
   * error before any split vector is built.
   */
  method ExampleRejectedNegativeFold() returns (r: Result<seq<InstanceMetadata>, IOError>)
    ensures r == Failure(ParseError("data"))
  {
    var disk := Disk([], Some(Table(["x"], [Row("1", "a.wav", "dog", 0, -1)])));
    assert ["x"] != ExpectedHeader;
    var p := new KoeParser("data");
    r := p.Parse(disk);
  }
}
