/** The SFTP side of the Salesforce export: listing the CSV files of a
    folder newest first, picking the newest, counting a downloaded file's
    records and rewriting its header through a column mapping. A file's
    contents are modelled as its CSV records, one per line. */
module Sftp {
  import opened Wrappers
  import opened Text

  /** A directory entry as the server reports it. */
  datatype Entry = Entry(filename: string, mtime: int, size: nat)

  /** A listed CSV file. */
  datatype CsvFile = CsvFile(filename: string, fullPath: string, mtime: int, size: nat)

  /** The listing keeps names ending in `.csv` that are not hidden. */
  predicate IsCsvName(name: string) {
    EndsWith(name, ".csv") && !StartsWith(name, ".")
  }

  function Describe(folder: string, e: Entry): (f: CsvFile)
    ensures f.filename == e.filename && f.mtime == e.mtime && f.size == e.size
    ensures f.fullPath == folder + "/" + e.filename
  {
    CsvFile(e.filename, folder + "/" + e.filename, e.mtime, e.size)
  }

  /** The comprehension of `list_csv_files`, before sorting. */
  function CsvEntries(folder: string, es: seq<Entry>): (fs: seq<CsvFile>)
    ensures |fs| <= |es|
    ensures fs == [] <==> forall e :: e in es ==> !IsCsvName(e.filename)
    ensures forall f :: f in fs <==> exists e :: e in es && IsCsvName(e.filename) && f == Describe(folder, e)
  {
    if es == [] then []
    else
      var rest := CsvEntries(folder, es[1..]);
      assert forall e :: e in es <==> e == es[0] || e in es[1..];
      if IsCsvName(es[0].filename) then [Describe(folder, es[0])] + rest else rest
  }

  // ---------------------------------------------------------------------------
  // Stable sort, newest first
  // ---------------------------------------------------------------------------

  predicate NewestFirst(fs: seq<CsvFile>) {
    forall i, j :: 0 <= i < j < |fs| ==> fs[i].mtime >= fs[j].mtime
  }

  /** The files modified at time `t`, in list order. */
  function WithTime(fs: seq<CsvFile>, t: int): (r: seq<CsvFile>)
    ensures forall f :: f in r <==> f in fs && f.mtime == t
  {
    if fs == [] then []
    else
      assert forall f :: f in fs <==> f == fs[0] || f in fs[1..];
      if fs[0].mtime == t then [fs[0]] + WithTime(fs[1..], t) else WithTime(fs[1..], t)
  }

  /** Places `x` before the first file no newer than it. */
  function Insert(x: CsvFile, fs: seq<CsvFile>): (r: seq<CsvFile>)
    ensures multiset(r) == multiset(fs) + multiset{x}
    ensures forall y :: y in r <==> y == x || y in fs
  {
    if fs == [] || x.mtime >= fs[0].mtime then [x] + fs
    else
      assert fs == [fs[0]] + fs[1..];
      [fs[0]] + Insert(x, fs[1..])
  }

  /** `sort(key=mtime, reverse=True)`: Python's sort is stable, and reversing
      keeps equal keys in their original order. */
  function SortNewestFirst(fs: seq<CsvFile>): (r: seq<CsvFile>)
    ensures multiset(r) == multiset(fs)
  {
    if fs == [] then []
    else
      assert fs == [fs[0]] + fs[1..];
      Insert(fs[0], SortNewestFirst(fs[1..]))
  }

  /** Inserting into a newest-first list keeps it newest first. */
  lemma {:induction false} InsertKeepsOrder(x: CsvFile, fs: seq<CsvFile>)
    requires NewestFirst(fs)
    ensures NewestFirst(Insert(x, fs))
  {
    if fs != [] && x.mtime < fs[0].mtime {
      InsertKeepsOrder(x, fs[1..]);
      var r := Insert(x, fs[1..]);
      forall k | 0 <= k < |r| ensures fs[0].mtime >= r[k].mtime {
        assert r[k] in r;
        if r[k] != x {
          var j :| 0 <= j < |fs[1..]| && fs[1..][j] == r[k];
          assert fs[j + 1] == r[k];
        }
      }
      var u := [fs[0]] + r;
      forall i, j | 0 <= i < j < |u| ensures u[i].mtime >= u[j].mtime {
        if i > 0 {
          assert u[i] == r[i - 1] && u[j] == r[j - 1];
        } else {
          assert u[j] == r[j - 1];
        }
      }
    }
  }

  /** Inserting `x` puts it ahead of every file of the same time and leaves
      the other times' order alone. */
  lemma {:induction false} InsertIsStable(x: CsvFile, fs: seq<CsvFile>, t: int)
    requires NewestFirst(fs)
    ensures WithTime(Insert(x, fs), t) == if x.mtime == t then [x] + WithTime(fs, t) else WithTime(fs, t)
  {
    if fs == [] {
    } else if x.mtime >= fs[0].mtime {
      assert ([x] + fs)[1..] == fs;
    } else {
      InsertIsStable(x, fs[1..], t);
      var r := [fs[0]] + Insert(x, fs[1..]);
      assert r[1..] == Insert(x, fs[1..]);
      if fs[0].mtime == t {
        assert x.mtime != t;
      }
    }
  }

  /** The sort orders newest first. */
  lemma {:induction false} SortIsOrdered(fs: seq<CsvFile>)
    ensures NewestFirst(SortNewestFirst(fs))
  {
    if fs != [] {
      SortIsOrdered(fs[1..]);
      InsertKeepsOrder(fs[0], SortNewestFirst(fs[1..]));
    }
  }

  /** The sort is stable: the files of any one time keep their order. */
  lemma {:induction false} SortIsStable(fs: seq<CsvFile>, t: int)
    ensures WithTime(SortNewestFirst(fs), t) == WithTime(fs, t)
  {
    if fs != [] {
      SortIsStable(fs[1..], t);
      SortIsOrdered(fs[1..]);
      InsertIsStable(fs[0], SortNewestFirst(fs[1..]), t);
    }
  }

  /** `list_csv_files`: the CSV files of the folder, newest first. */
  function ListCsvFiles(folder: string, es: seq<Entry>): (fs: seq<CsvFile>)
    ensures NewestFirst(fs)
    ensures multiset(fs) == multiset(CsvEntries(folder, es))
    ensures forall t :: WithTime(fs, t) == WithTime(CsvEntries(folder, es), t)
  {
    var fs := SortNewestFirst(CsvEntries(folder, es));
    SortIsOrdered(CsvEntries(folder, es));
    forall t ensures WithTime(fs, t) == WithTime(CsvEntries(folder, es), t) {
      SortIsStable(CsvEntries(folder, es), t);
    }
    fs
  }

  /** `get_latest_file`: nothing for a folder without CSV files, otherwise
      the newest one, and among equally new ones the first listed. */
  function LatestFile(folder: string, es: seq<Entry>): (r: Option<CsvFile>)
    ensures r.None? <==> forall e :: e in es ==> !IsCsvName(e.filename)
    ensures r.Some? ==> r.value in CsvEntries(folder, es)
    ensures r.Some? ==> forall f :: f in CsvEntries(folder, es) ==> f.mtime <= r.value.mtime
    ensures r.Some? ==> r.value == WithTime(CsvEntries(folder, es), r.value.mtime)[0]
  {
    var fs := ListCsvFiles(folder, es);
    if fs == [] then
      assert |CsvEntries(folder, es)| == |multiset(CsvEntries(folder, es))| == 0;
      None
    else
      NewestHead(fs, CsvEntries(folder, es));
      Some(fs[0])
  }

  /** The head of a newest-first ordering of some files is one of them, no
      older than any, and the first of those as new as it. */
  lemma NewestHead(fs: seq<CsvFile>, cs: seq<CsvFile>)
    requires fs != [] && NewestFirst(fs)
    requires multiset(fs) == multiset(cs)
    requires forall t :: WithTime(fs, t) == WithTime(cs, t)
    ensures fs[0] in cs
    ensures forall f :: f in cs ==> f.mtime <= fs[0].mtime
    ensures WithTime(cs, fs[0].mtime) != [] && WithTime(cs, fs[0].mtime)[0] == fs[0]
  {
    assert fs[0] in multiset(cs);
    forall f | f in cs ensures f.mtime <= fs[0].mtime {
      assert f in multiset(fs);
    }
    assert WithTime(fs, fs[0].mtime)[0] == fs[0];
  }

  // ---------------------------------------------------------------------------
  // Downloaded file: record count and header rewrite
  // ---------------------------------------------------------------------------

  /** A CSV record: its cells. */
  type Record = seq<string>

  /** `num_records` as the download computes it: the line count minus one
      for the header. An empty file gives -1. */
  function NumRecordsAsWritten(lines: seq<Record>): (n: int)
    ensures n + 1 == |lines|
  {
    |lines| - 1
  }

  /** The record count the header comment describes: the lines after the
      header, none for an empty file. */
  function NumRecords(lines: seq<Record>): (n: nat)
    ensures n == 0 <==> |lines| <= 1
    ensures lines != [] ==> n == |lines[1..]|
  {
    if lines == [] then 0 else |lines| - 1
  }

  /** `normalize_csv_header`: the header cells go through the mapping
      (unmapped ones stay), the data records are copied unchanged. Reading
      the header of an empty file raises. */
  function RemapHeader(lines: seq<Record>, mapping: map<string, string>): (r: Result<seq<Record>, string>)
    ensures r.Failure? <==> lines == []
    ensures r.Success? ==> |r.value| == |lines| && r.value[1..] == lines[1..]
    ensures r.Success? ==> |r.value[0]| == |lines[0]|
    ensures r.Success? ==> forall i :: 0 <= i < |lines[0]| ==>
      r.value[0][i] == (if lines[0][i] in mapping then mapping[lines[0][i]] else lines[0][i])
  {
    if lines == [] then Failure("StopIteration")
    else
      var header := seq(|lines[0]|, i requires 0 <= i < |lines[0]| => MapCell(mapping, lines[0][i]));
      Success([header] + lines[1..])
  }

  /** `mapping.get(col, col)`. */
  function MapCell(mapping: map<string, string>, col: string): string {
    if col in mapping then mapping[col] else col
  }

  /** A mapping that names no header cell leaves the file as it was. */
  lemma RemapUnmappedIsIdentity(lines: seq<Record>, mapping: map<string, string>)
    requires lines != []
    requires forall i :: 0 <= i < |lines[0]| ==> lines[0][i] !in mapping
    ensures RemapHeader(lines, mapping) == Success(lines)
  {
    var r := RemapHeader(lines, mapping).value;
    assert r[0] == lines[0];
    assert r == [r[0]] + r[1..] && lines == [lines[0]] + lines[1..];
  }

  /** Remapping twice with a mapping whose targets are not keys again is
      remapping once. */
  lemma RemapIdempotent(lines: seq<Record>, mapping: map<string, string>)
    requires lines != []
    requires forall k :: k in mapping ==> mapping[k] !in mapping
    ensures RemapHeader(RemapHeader(lines, mapping).value, mapping) == RemapHeader(lines, mapping)
  {
    var once := RemapHeader(lines, mapping).value;
    var twice := RemapHeader(once, mapping).value;
    forall i | 0 <= i < |once[0]| ensures twice[0][i] == once[0][i] {
      var c := lines[0][i];
      if c in mapping {
        assert once[0][i] == mapping[c] && mapping[c] !in mapping;
      }
    }
    assert twice[0] == once[0];
    assert twice == [twice[0]] + twice[1..];
    assert once == [once[0]] + once[1..];
  }

  // ---------------------------------------------------------------------------
  // What a stream load does with the newest file
  // ---------------------------------------------------------------------------

  /** How a Salesforce stream's load ends before the warehouse is touched:
      no file, an empty file, a header that cannot be read, or a file to
      load. */
  datatype StreamStart = NoData | EmptyFile | HeaderUnreadable | Proceed(header: Record)

  /** The stream's decision as written: it reports an empty file only when
      the record count is exactly zero, then reads the header. */
  function StartAsWritten(latest: Option<CsvFile>, lines: seq<Record>): (r: StreamStart)
    ensures latest.None? <==> r.NoData?
    ensures r.EmptyFile? <==> latest.Some? && |lines| == 1
    ensures r.HeaderUnreadable? <==> latest.Some? && lines == []
  {
    if latest.None? then NoData
    else if NumRecordsAsWritten(lines) == 0 then EmptyFile
    else if lines == [] then HeaderUnreadable
    else Proceed(lines[0])
  }

  /** A zero-line file slips past the empty-file test and fails on its
      header. */
  lemma EmptyFileSlipsThrough(f: CsvFile)
    ensures NumRecordsAsWritten([]) == -1
    ensures StartAsWritten(Some(f), []) == HeaderUnreadable
  {
  }

  /** The decision with the record count floored at zero: every file
      without a data record is reported empty, and the header is read only
      when there is one. */
  function Start(latest: Option<CsvFile>, lines: seq<Record>): (r: StreamStart)
    ensures latest.None? <==> r.NoData?
    ensures r.EmptyFile? <==> latest.Some? && |lines| <= 1
    ensures !r.HeaderUnreadable?
    ensures r.Proceed? ==> |lines| >= 2 && r.header == lines[0]
  {
    if latest.None? then NoData
    else if NumRecords(lines) == 0 then EmptyFile
    else Proceed(lines[0])
  }

  /** The two decisions differ exactly on a file with no line at all. */
  lemma StartAgreesOffEmpty(latest: Option<CsvFile>, lines: seq<Record>)
    ensures StartAsWritten(latest, lines) != Start(latest, lines) <==> latest.Some? && lines == []
  {
  }
}
