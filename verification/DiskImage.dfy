/** What is on disk as bytes: log files of write batches, and a manifest of version edits.  Recovery reads them back,
    cut as a crash may have left them. */
module DiskImage {
  import opened InternalKeys
  import opened Varints
  import opened Coding
  import opened VersionSet
  import opened Store
  import opened Builders
  import opened LogBatches
  import opened Octet
  import opened Manifest
  import WriteBatch
  import VersionEdits
  import LogFile

  // ---------------------------------------------------------------- log records

  /** The user keys of the store are integers here; on disk they are strings. */
  ghost predicate Names(nameOf: int -> Bytes, keyOf: Bytes -> int) { forall k :: keyOf(nameOf(k)) == k }

  function UpdateOf(nameOf: int -> Bytes, op: (int, Op)): WriteBatch.Update {
    match op.1
    case Put(v) => WriteBatch.Value(nameOf(op.0), v)
    case Delete => WriteBatch.Deletion(nameOf(op.0))
  }

  function UpdatesOf(nameOf: int -> Bytes, ops: seq<(int, Op)>): (r: seq<WriteBatch.Update>)
    ensures |r| == |ops| && forall i :: 0 <= i < |ops| ==> r[i] == UpdateOf(nameOf, ops[i])
  {
    seq(|ops|, i requires 0 <= i < |ops| => UpdateOf(nameOf, ops[i]))
  }

  function OpOf(u: WriteBatch.Update): Op { if u.Value? then Put(u.value) else Delete }

  ghost predicate BatchFits(nameOf: int -> Bytes, b: Batch) {
    1 <= b.first && b.first + |b.ops| <= MAX_SEQUENCE_NUMBER && |b.ops| < TWO_TO_32 &&
    forall i :: 0 <= i < |b.ops| ==> WriteBatch.Encodable(UpdateOf(nameOf, b.ops[i]))
  }

  function BatchRecord(nameOf: int -> Bytes, b: Batch): LogFile.Bytes {
    Octets(WriteBatch.BatchBytes(b.first, UpdatesOf(nameOf, b.ops)))
  }

  function BatchRecords(nameOf: int -> Bytes, bs: seq<Batch>): (r: seq<LogFile.Bytes>)
    ensures |r| == |bs| && forall i :: 0 <= i < |bs| ==> r[i] == BatchRecord(nameOf, bs[i])
  {
    seq(|bs|, i requires 0 <= i < |bs| => BatchRecord(nameOf, bs[i]))
  }

  /** A batch is read back as it was written. */
  lemma BatchIsReadBack(nameOf: int -> Bytes, b: Batch)
    requires BatchFits(nameOf, b)
    ensures var rep := FromOctets(BatchRecord(nameOf, b));
            |rep| >= WriteBatch.HEADER && WriteBatch.Sequence(rep) == b.first && WriteBatch.Count(rep) == |b.ops| &&
            WriteBatch.Iterated(rep[WriteBatch.HEADER..]) == (UpdatesOf(nameOf, b.ops), true)
  {
    hide WriteBatch.Encodable, WriteBatch.Iterated, WriteBatch.UpdatesBytes, Octets, FromOctets;
    var us := UpdatesOf(nameOf, b.ops);
    OctetsAreReadBack(WriteBatch.BatchBytes(b.first, us));
    WriteBatch.BatchParts(b.first, us);
    WriteBatch.UpdatesAreReadBack(us);
  }

  /** What RecoverLogFile does with a record: its operations take consecutive numbers from the header's on. */
  method DecodeBatch(record: LogFile.Bytes, keyOf: Bytes -> int, ghost nameOf: int -> Bytes, ghost b: Batch)
    returns (es: seq<Entry>, last: SequenceNumber)
    requires Names(nameOf, keyOf) && BatchFits(nameOf, b) && record == BatchRecord(nameOf, b)
    ensures BatchIs(b, es) && last == b.first + |b.ops| - 1
  {
    hide WriteBatch.Iterated, WriteBatch.Sequence, WriteBatch.Count, BatchRecord, WriteBatch.Encodable;
    BatchIsReadBack(nameOf, b);
    var rep := FromOctets(record);
    var handled, ok := WriteBatch.Iterate(rep);
    es := [];
    var sequence: nat := WriteBatch.Sequence(rep);
    var i := 0;
    while i < |handled|
      invariant i <= |handled| == |b.ops| && sequence == b.first + i && es == BatchEntries(b.ops, b.first)[..i]
    {
      es := es + [Entry(keyOf(handled[i].key), sequence, OpOf(handled[i]))];
      i, sequence := i + 1, sequence + 1;
    }
    last := WriteBatch.Sequence(rep) + WriteBatch.Count(rep) - 1;
  }

  /** A log file, cut anywhere, gives the batches that are completely in it. */
  method ReadBatches(file: LogFile.Bytes, keyOf: Bytes -> int, ghost nameOf: int -> Bytes, ghost bs: seq<Batch>,
                     ghost log: seq<seq<Entry>>)
    returns (entries: seq<seq<Entry>>, lasts: seq<SequenceNumber>)
    requires Names(nameOf, keyOf) && LogIs(bs, log) && forall i :: 0 <= i < |bs| ==> BatchFits(nameOf, bs[i])
    requires file <= LogFile.Log(BatchRecords(nameOf, bs), 0)
    ensures var m := LogFile.Whole(BatchRecords(nameOf, bs), 0, |file|);
            m <= |log| && m <= |bs| && entries == log[..m] && LastsAre(lasts, bs[..m])
  {
    hide BatchFits, BatchRecord, LogFile.Log, LogFile.Whole, BatchIs;
    ghost var m := LogFile.Whole(BatchRecords(nameOf, bs), 0, |file|);
    assert file == LogFile.Log(BatchRecords(nameOf, bs), 0)[..|file|];
    var records := LogFile.ReadLog(file, BatchRecords(nameOf, bs));
    entries, lasts := [], [];
    var i := 0;
    while i < |records|
      invariant i <= |records| == m && entries == log[..i] && LastsAre(lasts, bs[..i])
    {
      var es, last := DecodeBatch(records[i], keyOf, nameOf, bs[i]);
      SameBatch(bs[i], es, log[i]);
      entries, lasts, i := entries + [es], lasts + [last], i + 1;
    }
  }

  lemma SameBatch(b: Batch, es: seq<Entry>, es': seq<Entry>)
    requires BatchIs(b, es) && BatchIs(b, es')
    ensures es == es'
  {
  }

  // ---------------------------------------------------------------- manifest records

  function InternalKeyBytes(nameOf: int -> Bytes, e: Entry): Bytes {
    nameOf(e.key) + Fixed64(e.sn * 256 + if e.op.Put? then 1 else 0)
  }

  function MetaOf(nameOf: int -> Bytes, f: File): VersionEdits.Meta {
    VersionEdits.Meta(f.number, f.size, InternalKeyBytes(nameOf, f.Smallest()), InternalKeyBytes(nameOf, f.Largest()))
  }

  /** The record says what the edit says.  It may also name the comparator and carry compaction pointers. */
  ghost predicate StandsFor(nameOf: int -> Bytes, name: Bytes, v: VersionEdits.VersionEdit, e: Edit) {
    (v.comparator.Some? ==> v.comparator.value == name) && v.logNumber == e.logNumber && v.nextFile == e.nextFile &&
    v.lastSequence == e.lastSeq && v.deleted == e.deleted && |v.newFiles| == |e.added| &&
    forall i :: 0 <= i < |e.added| ==> v.newFiles[i] == (e.added[i].0, MetaOf(nameOf, e.added[i].1))
  }

  /** Files are known by their numbers. */
  function FilesOf(newFiles: seq<(nat, VersionEdits.Meta)>, tables: map<nat, File>): Option<seq<(nat, File)>> {
    if |newFiles| == 0 then Some([])
    else
      var rest, last := FilesOf(newFiles[..|newFiles| - 1], tables), newFiles[|newFiles| - 1];
      if rest.None? || last.1.number !in tables then None else Some(rest.value + [(last.0, tables[last.1.number])])
  }

  /** One record of the manifest; or an error, also if it was written for another comparator. */
  function EditOf(record: LogFile.Bytes, tables: map<nat, File>, name: Bytes): Option<Edit> {
    var v := VersionEdits.Decoded(FromOctets(record), VersionEdits.EMPTY);
    if v.None? || (v.value.comparator.Some? && v.value.comparator.value != name) then None
    else
      var added := FilesOf(v.value.newFiles, tables);
      if added.None? then None
      else Some(Edit(v.value.logNumber, v.value.nextFile, v.value.lastSequence, v.value.deleted, added.value))
  }

  function EditsOf(records: seq<LogFile.Bytes>, tables: map<nat, File>, name: Bytes): Option<seq<Edit>> {
    if |records| == 0 then Some([])
    else
      var rest, last := EditsOf(records[..|records| - 1], tables, name), EditOf(records[|records| - 1], tables, name);
      if rest.None? || last.None? then None else Some(rest.value + [last.value])
  }

  function EditRecord(v: VersionEdits.VersionEdit): LogFile.Bytes { Octets(VersionEdits.EditBytes(v)) }

  function EditRecords(vs: seq<VersionEdits.VersionEdit>): (r: seq<LogFile.Bytes>)
    ensures |r| == |vs| && forall i :: 0 <= i < |vs| ==> r[i] == EditRecord(vs[i])
  {
    seq(|vs|, i requires 0 <= i < |vs| => EditRecord(vs[i]))
  }

  /** All files that the edits name. */
  ghost predicate Known(e: Edit, tables: map<nat, File>) {
    forall i :: 0 <= i < |e.added| ==> e.added[i].1.number in tables && tables[e.added[i].1.number] == e.added[i].1
  }

  lemma {:induction false} FilesAreKnown(nameOf: int -> Bytes, newFiles: seq<(nat, VersionEdits.Meta)>,
                                         added: seq<(nat, File)>, tables: map<nat, File>)
    requires |newFiles| == |added|
    requires forall i :: 0 <= i < |added| ==> newFiles[i] == (added[i].0, MetaOf(nameOf, added[i].1))
    requires forall i :: 0 <= i < |added| ==> added[i].1.number in tables && tables[added[i].1.number] == added[i].1
    ensures FilesOf(newFiles, tables) == Some(added)
  {
    if |added| == 0 {
    } else {
      var n := |added| - 1;
      FilesAreKnown(nameOf, newFiles[..n], added[..n], tables);
      assert added == added[..n] + [added[n]];
    }
  }

  lemma EditIsReadBack(nameOf: int -> Bytes, name: Bytes, v: VersionEdits.VersionEdit, e: Edit, tables: map<nat, File>)
    requires VersionEdits.EditFits(v) && StandsFor(nameOf, name, v, e) && Known(e, tables)
    ensures EditOf(EditRecord(v), tables, name) == Some(e)
  {
    hide VersionEdits.EditFits, VersionEdits.EditBytes, VersionEdits.Decoded, FilesOf, MetaOf;
    OctetsAreReadBack(VersionEdits.EditBytes(v));
    VersionEdits.EditIsReadBack(v);
    FilesAreKnown(nameOf, v.newFiles, e.added, tables);
  }

  ghost predicate RecordsOf(nameOf: int -> Bytes, name: Bytes, vs: seq<VersionEdits.VersionEdit>, edits: seq<Edit>,
                            tables: map<nat, File>)
  {
    |vs| == |edits| &&
    forall i :: 0 <= i < |vs| ==>
        VersionEdits.EditFits(vs[i]) && StandsFor(nameOf, name, vs[i], edits[i]) && Known(edits[i], tables)
  }

  lemma {:induction false} EditsAreReadBack(nameOf: int -> Bytes, name: Bytes, vs: seq<VersionEdits.VersionEdit>,
                                            edits: seq<Edit>, tables: map<nat, File>)
    requires RecordsOf(nameOf, name, vs, edits, tables)
    ensures EditsOf(EditRecords(vs), tables, name) == Some(edits)
  {
    hide VersionEdits.EditFits, StandsFor, Known, EditOf, EditRecord;
    if |vs| == 0 {
    } else {
      var n := |vs| - 1;
      EditsAreReadBack(nameOf, name, vs[..n], edits[..n], tables);
      EditIsReadBack(nameOf, name, vs[n], edits[n], tables);
      assert EditRecords(vs)[..n] == EditRecords(vs[..n]);
      assert edits == edits[..n] + [edits[n]];
    }
  }

  method DecodeEdit(record: LogFile.Bytes, tables: map<nat, File>, name: Bytes) returns (r: Option<Edit>)
    ensures r == EditOf(record, tables, name)
  {
    hide FilesOf, FromOctets, VersionEdits.Decoded;
    var v := VersionEdits.DecodeFrom(FromOctets(record));
    if v.None? { return None; }
    if v.value.comparator.Some? && v.value.comparator.value != name { return None; }
    var added := FilesOf(v.value.newFiles, tables);
    if added.None? { return None; }
    r := Some(Edit(v.value.logNumber, v.value.nextFile, v.value.lastSequence, v.value.deleted, added.value));
  }

  method DecodeEdits(records: seq<LogFile.Bytes>, tables: map<nat, File>, name: Bytes) returns (r: Option<seq<Edit>>)
    ensures r == EditsOf(records, tables, name)
  {
    hide EditOf;
    var edits: seq<Edit> := [];
    var i := 0;
    while i < |records|
      invariant i <= |records| && EditsOf(records[..i], tables, name) == Some(edits)
    {
      assert records[..i + 1][..i] == records[..i];
      var e := DecodeEdit(records[i], tables, name);
      if e.None? {
        EditsStop(records, tables, name, i + 1);
        return None;
      }
      edits := edits + [e.value];
      i := i + 1;
    }
    assert records[..i] == records;
    r := Some(edits);
  }

  /** After the first bad record nothing is any good. */
  lemma {:induction false} EditsStop(records: seq<LogFile.Bytes>, tables: map<nat, File>, name: Bytes, i: nat)
    requires i <= |records| && EditsOf(records[..i], tables, name).None?
    ensures EditsOf(records, tables, name).None?
    decreases |records| - i
  {
    hide EditOf;
    if i == |records| {
      assert records[..i] == records;
    } else {
      assert records[..i + 1][..i] == records[..i];
      EditsStop(records, tables, name, i + 1);
    }
  }

  /** The manifest holds every edit that has been installed and, cut off somewhere, perhaps one more: recovery sees
      those that were installed. */
  method ReadManifest(file: LogFile.Bytes, tables: map<nat, File>, name: Bytes, ghost nameOf: int -> Bytes,
                      ghost vs: seq<VersionEdits.VersionEdit>, ghost inFlight: VersionEdits.VersionEdit,
                        ghost edits: seq<Edit>)
    returns (r: Option<seq<Edit>>)
    requires RecordsOf(nameOf, name, vs, edits, tables) && InManifest(file, vs, inFlight)
    ensures r == Some(edits)
  {
    hide RecordsOf, EditsOf;
    InstalledAreWhole(file, vs, inFlight);
    EditsAreReadBack(nameOf, name, vs, edits, tables);
    var records := LogFile.ReadLog(file, EditRecords(vs + [inFlight]));
    assert EditRecords(vs + [inFlight])[..|vs|] == EditRecords(vs);
    r := DecodeEdits(records, tables, name);
  }

  ghost predicate InManifest(file: LogFile.Bytes, vs: seq<VersionEdits.VersionEdit>,
                             inFlight: VersionEdits.VersionEdit) {
    file < LogFile.Log(EditRecords(vs + [inFlight]), 0) && |LogFile.Log(EditRecords(vs), 0)| <= |file|
  }

  lemma InstalledAreWhole(file: LogFile.Bytes, vs: seq<VersionEdits.VersionEdit>, inFlight: VersionEdits.VersionEdit)
    requires InManifest(file, vs, inFlight)
    ensures LogFile.Whole(EditRecords(vs + [inFlight]), 0, |file|) == |vs|
    ensures file == LogFile.Log(EditRecords(vs + [inFlight]), 0)[..|file|]
  {
    hide LogFile.Log, LogFile.Whole, EditRecord;
    var all := EditRecords(vs + [inFlight]);
    var n := |vs|;
    assert all[..n] == EditRecords(vs) && all[..n + 1] == all;
    LogFile.WholeMeansInside(all, 0, |file|, n);
    if n > 0 {
      LogFile.WholeMeansInside(all, 0, |file|, n - 1);
      assert all[..n - 1 + 1] == all[..n];
    }
  }

  // ---------------------------------------------------------------- the whole disk

  /** The files that matter to recovery.  names lists the log files as the directory does, in any order; tables gives
      the contents of every table that the manifest names. */
  datatype Image = Image(manifest: LogFile.Bytes, names: seq<nat>, logs: map<nat, LogFile.Bytes>,
                         tables: map<nat, File>)

  /** A log that is still needed is there in full, but for the newest one, which may break off anywhere. */
  ghost predicate LogOnDisk(image: Image, nameOf: int -> Bytes, batches: map<nat, seq<Batch>>, st: State, n: nat) {
    n in image.logs && n in batches && (forall i :: 0 <= i < |batches[n]| ==> BatchFits(nameOf, batches[n][i])) &&
    var all := LogFile.Log(BatchRecords(nameOf, batches[n]), 0);
    if n == st.curLog then image.logs[n] <= all else image.logs[n] == all
  }

  ghost predicate LogsOnDisk(image: Image, nameOf: int -> Bytes, batches: map<nat, seq<Batch>>, st: State) {
    image.logs.Keys == st.logs.Keys && (forall n :: n in image.names <==> n in image.logs) && Claims(batches, st) &&
    forall n: nat :: n in st.logs && n >= st.logNumber ==> LogOnDisk(image, nameOf, batches, st, n)
  }

  /** The disk as a crash leaves it in state st: the manifest has the installed edits and perhaps a part of one more. */
  ghost predicate Holds(image: Image, nameOf: int -> Bytes, name: Bytes, st: State, edits: seq<Edit>,
                        vs: seq<VersionEdits.VersionEdit>, inFlight: VersionEdits.VersionEdit,
                          batches: map<nat, seq<Batch>>)
  {
    Described(edits, st) && RecordsOf(nameOf, name, vs, edits, image.tables) &&
    InManifest(image.manifest, vs, inFlight) &&
    LogsOnDisk(image, nameOf, batches, st)
  }

  /** How many batches are completely in what is left of the newest log. */
  ghost function WholeBatches(image: Image, nameOf: int -> Bytes, batches: map<nat, seq<Batch>>, n: nat): (m: nat)
    requires n in image.logs && n in batches
    ensures m <= |batches[n]|
  {
    LogFile.Whole(BatchRecords(nameOf, batches[n]), 0, |image.logs[n]|)
  }

  /** What has been decoded of the logs from one number up to another. */
  ghost predicate DecodedUpTo(logs: map<nat, seq<seq<Entry>>>, lasts: map<nat, seq<SequenceNumber>>, st: State,
                              batches: map<nat, seq<Batch>>, m: nat, to: nat)
  {
    lasts.Keys == logs.Keys && (forall n: nat :: n in logs <==> n in st.logs && st.logNumber <= n < to) &&
    forall n: nat :: n in logs ==> LogDecoded(logs[n], lasts[n], st, batches, m, n)
  }

  ghost predicate LogDecoded(log: seq<seq<Entry>>, lasts: seq<SequenceNumber>, st: State,
                             batches: map<nat, seq<Batch>>, m: nat, n: nat)
  {
    n in st.logs && n in batches &&
    if n == st.curLog then
      m <= |st.logs[n]| && m <= |batches[n]| && log == st.logs[n][..m] && LastsAre(lasts, batches[n][..m])
    else log == st.logs[n] && LastsAre(lasts, batches[n])
  }

  method DecodeLog(image: Image, keyOf: Bytes -> int, n: nat, ghost nameOf: int -> Bytes,
                   ghost batches: map<nat, seq<Batch>>, ghost st: State)
    returns (log: seq<seq<Entry>>, lasts: seq<SequenceNumber>)
    requires Names(nameOf, keyOf) && LogsOnDisk(image, nameOf, batches, st) && n in image.logs && st.logNumber <= n
    requires st.curLog in image.logs && st.curLog in batches
    ensures LogDecoded(log, lasts, st, batches, WholeBatches(image, nameOf, batches, st.curLog), n)
  {
    hide BatchFits, BatchRecord, LogFile.Log, LogFile.Whole, BatchIs, Behind, LogIs;
    assert LogOnDisk(image, nameOf, batches, st, n);
    assert LogIs(batches[n], st.logs[n]);
    LogLength(batches[n], st.logs[n]);
    log, lasts := ReadBatches(image.logs[n], keyOf, nameOf, batches[n], st.logs[n]);
    ghost var m := LogFile.Whole(BatchRecords(nameOf, batches[n]), 0, |image.logs[n]|);
    if n != st.curLog {
      LogFile.AllAreWhole(BatchRecords(nameOf, batches[n]), 0);
      assert st.logs[n][..m] == st.logs[n] && batches[n][..m] == batches[n];
    }
  }

  lemma OneMoreLog(logs: map<nat, seq<seq<Entry>>>, lasts: map<nat, seq<SequenceNumber>>, st: State,
                   batches: map<nat, seq<Batch>>, m: nat, n: nat, log: seq<seq<Entry>>, last: seq<SequenceNumber>)
    requires DecodedUpTo(logs, lasts, st, batches, m, n) && n in st.logs && st.logNumber <= n
    requires LogDecoded(log, last, st, batches, m, n)
    ensures DecodedUpTo(logs[n := log], lasts[n := last], st, batches, m, n + 1)
  {
    hide LogDecoded;
  }

  lemma NoSuchLog(logs: map<nat, seq<seq<Entry>>>, lasts: map<nat, seq<SequenceNumber>>, st: State,
                  batches: map<nat, seq<Batch>>, m: nat, n: nat)
    requires DecodedUpTo(logs, lasts, st, batches, m, n) && n !in st.logs
    ensures DecodedUpTo(logs, lasts, st, batches, m, n + 1)
  {
    hide LogDecoded;
  }

  /** Reads the logs that are still needed. */
  method DecodeLogs(image: Image, keyOf: Bytes -> int, from: nat, newest: nat, ghost nameOf: int -> Bytes,
                    ghost batches: map<nat, seq<Batch>>, ghost st: State)
    returns (logs: map<nat, seq<seq<Entry>>>, lasts: map<nat, seq<SequenceNumber>>)
    requires Names(nameOf, keyOf) && LogsOnDisk(image, nameOf, batches, st)
    requires from == st.logNumber <= newest == st.curLog && st.curLog in image.logs && st.curLog in batches
    ensures DecodedUpTo(logs, lasts, st, batches, WholeBatches(image, nameOf, batches, st.curLog), newest + 1)
  {
    hide LogDecoded, LogOnDisk, Claims, Names, WholeBatches, DecodedUpTo;
    ghost var m := WholeBatches(image, nameOf, batches, st.curLog);
    logs, lasts := map[], map[];
    NothingDecoded(st, batches, m, from);
    var n := from;
    while n <= newest
      invariant from <= n <= newest + 1
      invariant DecodedUpTo(logs, lasts, st, batches, m, n)
    {
      if n in image.logs {
        var log, last := DecodeLog(image, keyOf, n, nameOf, batches, st);
        OneMoreLog(logs, lasts, st, batches, m, n, log, last);
        logs, lasts := logs[n := log], lasts[n := last];
      } else {
        NoSuchLog(logs, lasts, st, batches, m, n);
      }
      n := n + 1;
    }
  }

  lemma NothingDecoded(st: State, batches: map<nat, seq<Batch>>, m: nat, from: nat)
    requires from == st.logNumber
    ensures DecodedUpTo(map[], map[], st, batches, m, from)
  {
  }

  /** The newest of the log files. */
  method NewestLog(names: seq<nat>) returns (newest: nat)
    requires |names| > 0
    ensures newest in names && forall n :: n in names ==> n <= newest
  {
    newest := names[0];
    var i := 1;
    while i < |names|
      invariant 1 <= i <= |names| && newest in names && forall j :: 0 <= j < i ==> names[j] <= newest
    {
      if names[i] > newest { newest := names[i]; }
      i := i + 1;
    }
  }
}
