/** Reading a table: one search of the index, one look at the filter and one search of a data block find what a search
    of all entries would (table/table.cc). */
module Tables {
  import opened InternalKeys
  import opened Varints
  import opened Coding
  import opened Comparators
  import opened Block
  import opened BlockIter
  import opened FilterBlocks
  import opened TableFormat
  import opened TableBuilders
  import Bloom

  // ---------------------------------------------------------------- searching the index first

  lemma InternalOrder()
    ensures Transitive(InternalLess)
  {
    forall a, b, c | InternalLess(a, b) && InternalLess(b, c) ensures InternalLess(a, c) {
      InternalLessIsTransitive(a, b, c);
    }
  }

  lemma {:induction false} LowerBoundSplits(lt: Order, entries: seq<Pair>, target: Bytes)
    ensures var k := LowerBound(lt, entries, target);
            (forall i :: 0 <= i < k ==> lt(entries[i].key, target)) && (k < |entries| ==> !lt(entries[k].key, target))
  {
    if |entries| == 0 || !lt(entries[0].key, target) {
    } else {
      LowerBoundSplits(lt, entries[1..], target);
      var k := LowerBound(lt, entries[1..], target);
      forall i | 0 <= i < k + 1 ensures lt(entries[i].key, target) {
        if i > 0 { assert entries[i] == entries[1..][i - 1]; }
      }
    }
  }

  /** The index key of a chunk is not below its last key, and it is below the first key of the next chunk. */
  lemma IndexKeySeparates(index: seq<Pair>, all: seq<Pair>, chunks: seq<Chunk>, i: nat)
    requires IndexEntry(index, all, chunks, i) && AllInternal(all) && Ascending(InternalLess, all)
    ensures var to := chunks[i].to;
            !InternalLess(index[i].key, all[to - 1].key) && (to < |all| ==> InternalLess(index[i].key, all[to].key))
  {
    hide InternalLess, InternalSeparator, InternalSuccessor, IsInternal, HandleBytes;
    var to := chunks[i].to;
    if to < |all| {
      InternalSeparatorSeparates(all[to - 1].key, all[to].key);
    } else {
      InternalSuccessorIsNotBelow(all[to - 1].key);
    }
  }

  lemma {:induction false} ChunksAscend(file: Bytes, all: seq<Pair>, chunks: seq<Chunk>, end: nat, i: nat, j: nat)
    requires Chunked(file, all, chunks, end) && i < j < |chunks|
    ensures chunks[i].to <= chunks[j].from && chunks[j].from < chunks[j].to <= |all|
  {
    hide EntriesAt;
    assert ChunkAt(file, all, chunks[j]);
    if i == j - 1 {
    } else {
      ChunksAscend(file, all, chunks, end, i, j - 1);
    }
  }

  lemma IndexAscends(file: Bytes, index: seq<Pair>, all: seq<Pair>, chunks: seq<Chunk>)
    requires Chunked(file, all, chunks, |all|) && FullyIndexed(index, all, chunks)
    requires AllInternal(all) && Ascending(InternalLess, all)
    ensures Ascending(InternalLess, index)
  {
    hide InternalLess, ChunkAt, IndexEntry, AllInternal;
    forall i, j | 0 <= i < j < |index| ensures InternalLess(index[i].key, index[j].key) {
      IndexPairAscends(file, index, all, chunks, i, j);
    }
  }

  lemma IndexPairAscends(file: Bytes, index: seq<Pair>, all: seq<Pair>, chunks: seq<Chunk>, i: nat, j: nat)
    requires Chunked(file, all, chunks, |all|) && FullyIndexed(index, all, chunks) && i < j < |index|
    requires AllInternal(all) && Ascending(InternalLess, all)
    ensures InternalLess(index[i].key, index[j].key)
  {
    hide InternalLess, Chunked, IsInternal, IndexKey, HandleBytes;
    assert IndexEntry(index, all, chunks, i) && IndexEntry(index, all, chunks, j);
    IndexKeySeparates(index, all, chunks, i);
    IndexKeySeparates(index, all, chunks, j);
    ChunksAscend(file, all, chunks, |all|, i, j);
    var first, last := all[chunks[i].to].key, all[chunks[j].to - 1].key;
    assert first == last || InternalLess(first, last);
    if first != last { InternalLessIsTransitive(index[i].key, first, last); }
    BelowThenNotAbove(index[i].key, last, index[j].key);
  }

  /** Every chunk before the one that the index finds lies below the target. */
  lemma EarlierChunksAreBelow(file: Bytes, index: seq<Pair>, all: seq<Pair>, chunks: seq<Chunk>, target: Bytes, i: nat)
    requires Chunked(file, all, chunks, |all|) && FullyIndexed(index, all, chunks) && 0 < i <= |index|
    requires AllInternal(all) && Ascending(InternalLess, all) && InternalLess(index[i - 1].key, target)
    ensures chunks[i - 1].to <= |all| && forall m :: 0 <= m < chunks[i - 1].to ==> InternalLess(all[m].key, target)
  {
    hide InternalLess, Chunked, IsInternal, IndexKey, HandleBytes, Transitive;
    assert IndexEntry(index, all, chunks, i - 1);
    IndexKeySeparates(index, all, chunks, i - 1);
    var last := chunks[i - 1].to - 1;
    NotAboveThenBelow(all[last].key, index[i - 1].key, target);
    InternalOrder();
    EarlierAreBelow(InternalLess, all, target, last);
  }

  /** What a search for target has to give: the first entry that is not below it, or nothing if that is not an entry of
      the user key. */
  ghost predicate IsAnswer(all: seq<Pair>, target: Bytes, r: Option<Pair>) {
    var p := LowerBound(InternalLess, all, target);
    if r.Some? then p < |all| && r.value == all[p]
    else p == |all| || ExtractUserKey(all[p].key) != ExtractUserKey(target)
  }

  lemma NoChunkLeft(file: Bytes, index: seq<Pair>, all: seq<Pair>, chunks: seq<Chunk>, target: Bytes)
    requires Chunked(file, all, chunks, |all|) && FullyIndexed(index, all, chunks)
    requires AllInternal(all) && Ascending(InternalLess, all) && LowerBound(InternalLess, index, target) == |index|
    ensures IsAnswer(all, target, None)
  {
    hide InternalLess, IsInternal, IndexKey, HandleBytes, ChunkAt, LowerBound;
    LowerBoundSplits(InternalLess, index, target);
    if |index| > 0 { EarlierChunksAreBelow(file, index, all, chunks, target, |index|); }
    LowerBoundIs(InternalLess, all, target, |all|);
  }

  lemma ChunkBounds(file: Bytes, all: seq<Pair>, chunks: seq<Chunk>, i: nat)
    requires Chunked(file, all, chunks, |all|) && i < |chunks|
    ensures chunks[i].from < chunks[i].to <= |all| && chunks[i].from == if i > 0 then chunks[i - 1].to else 0
  {
    hide EntriesAt;
    assert ChunkAt(file, all, chunks[i]);
  }

  /** Where the search in the chunk that the index has found ends. */
  lemma ChunkIsSearched(file: Bytes, index: seq<Pair>, all: seq<Pair>, chunks: seq<Chunk>, target: Bytes, i: nat)
    requires Chunked(file, all, chunks, |all|) && FullyIndexed(index, all, chunks) && i < |index|
    requires AllInternal(all) && Ascending(InternalLess, all) && LowerBound(InternalLess, index, target) == i
    requires |chunks| == |index|
    ensures var c := chunks[i];
            c.from < c.to <= |all| &&
            var j := LowerBound(InternalLess, all[c.from..c.to], target);
            LowerBound(InternalLess, all, target) == c.from + j && (j == c.to - c.from ==> IsAnswer(all, target, None))
  {
    hide InternalLess, IsInternal, LowerBound, FullyIndexed, AllInternal, Ascending, Chunked;
    var c := chunks[i];
    ChunkBounds(file, all, chunks, i);
    LowerBoundSplits(InternalLess, index, target);
    if i > 0 { EarlierChunksAreBelow(file, index, all, chunks, target, i); }
    var part := all[c.from..c.to];
    var j := LowerBound(InternalLess, part, target);
    LowerBoundSplits(InternalLess, part, target);
    forall m | 0 <= m < c.from + j ensures InternalLess(all[m].key, target) {
      if m >= c.from { assert all[m] == part[m - c.from]; }
    }
    if j < |part| {
      assert all[c.from + j] == part[j];
    } else {
      assert all[c.to - 1] == part[j - 1];
      if c.to < |all| { NextChunkIsAbove(index, all, chunks, target, i); }
    }
    LowerBoundIs(InternalLess, all, target, c.from + j);
  }

  lemma NextChunkIsAbove(index: seq<Pair>, all: seq<Pair>, chunks: seq<Chunk>, target: Bytes, i: nat)
    requires FullyIndexed(index, all, chunks) && i < |index| && AllInternal(all) && Ascending(InternalLess, all)
    requires 0 < chunks[i].to < |all| && InternalLess(all[chunks[i].to - 1].key, target) &&
             !InternalLess(index[i].key, target)
    ensures !InternalLess(all[chunks[i].to].key, target)
    ensures ExtractUserKey(all[chunks[i].to].key) != ExtractUserKey(target)
  {
    hide InternalLess, IsInternal, HandleBytes, InternalSeparator, InternalSuccessor;
    assert IndexEntry(index, all, chunks, i);
    IndexKeySeparates(index, all, chunks, i);
    var start, limit := all[chunks[i].to - 1].key, all[chunks[i].to].key;
    if InternalLess(limit, target) { InternalLessIsTransitive(index[i].key, limit, target); }
    InternalLessIsStrict(limit, limit);
    NothingIsMissed(start, limit, target, limit);
  }

  // ---------------------------------------------------------------- asking the filter first

  lemma OnlyUserKeyMatters(contents: Bytes, blockOffset: nat, a: Bytes, b: Bytes)
    requires ExtractUserKey(a) == ExtractUserKey(b)
    ensures BlockMayMatch(contents, blockOffset, a) == BlockMayMatch(contents, blockOffset, b)
  {
    hide Bloom.MayMatch, DecodeFixed32, IndexOf, GroupOf;
  }

  /** If the filter rejects the target, no entry of the chunk has its user key. */
  lemma RejectedIsAbsent(data: Bytes, f: FilterShape, all: seq<Pair>, c: Chunk, target: Bytes)
    requires IsFilterBlock(data, f.ends, f.groups, f.k) && f.k <= 30
    requires FilteredAt(f.groups, all, c.from, c.to, c.handle.offset) && !BlockMayMatch(data, c.handle.offset, target)
    ensures forall m :: c.from <= m < c.to ==> ExtractUserKey(all[m].key) != ExtractUserKey(target)
  {
    hide IsFilterBlock, BlockMayMatch, ExtractUserKey;
    forall m | c.from <= m < c.to ensures ExtractUserKey(all[m].key) != ExtractUserKey(target) {
      AddedKeysMatch(data, f.ends, f.groups, f.k, c.handle.offset, all[m].key);
      if ExtractUserKey(all[m].key) == ExtractUserKey(target) {
        OnlyUserKeyMatters(data, c.handle.offset, all[m].key, target);
      }
    }
  }

  // ---------------------------------------------------------------- the table

  /** In all blocks the entries, or the filters, end within 32 bits. */
  ghost predicate Fits(t: TableShape) {
    Limit(t.indexLayout) < TWO_TO_32 && Limit(t.metaLayout) < TWO_TO_32 &&
    (t.filter.Some? ==> var f := t.filter.value; |f.ends| == |f.groups| + 1 && f.ends[|f.groups|] < TWO_TO_32) &&
    forall i :: 0 <= i < |t.chunks| ==> Limit(t.chunks[i].layout) < TWO_TO_32
  }

  function Extent(file: Bytes, h: BlockHandle): Bytes
    requires h.offset + h.size <= |file|
  {
    file[h.offset..h.offset + h.size]
  }

  ghost predicate IsFilterOfTable(data: Bytes, f: FilterShape) {
    f.k <= 30 && IsFilterBlock(data, f.ends, f.groups, f.k)
  }

  class Table {
    const file: Bytes
    const indexBlock: Bytes
    const filter: FilterBlockReader?
    ghost const all: seq<Pair>
    ghost const shape: TableShape

    ghost predicate Valid() {
      |file| < TWO_TO_64 && IsTable(file, all, shape) && Fits(shape) &&
      IsBlock(indexBlock, shape.index, shape.indexLayout) &&
      (filter != null ==> filter.Valid() && shape.filter.Some? && IsFilterOfTable(filter.data, shape.filter.value))
    }

    constructor (file: Bytes, indexBlock: Bytes, filter: FilterBlockReader?, ghost all: seq<Pair>,
                 ghost shape: TableShape)
      ensures this.file == file && this.indexBlock == indexBlock && this.filter == filter
      ensures this.all == all && this.shape == shape
    {
      this.file, this.indexBlock, this.filter, this.all, this.shape := file, indexBlock, filter, all, shape;
    }

    /** Finds the first entry that is not below k, or at least that there is no entry of its user key behind it. */
    method InternalGet(verifyChecksums: bool, k: Bytes) returns (r: Option<Pair>)
      requires Valid()
      ensures IsAnswer(all, k, r)
    {
      hide IsTable, IsBlock, Fits, IsFilterOfTable, IsAnswer, InternalLess, BlockMayMatch, Transitive, Ascending,
           LowerBound;
      hide Iter.Ok, Iter.AtEntry, Iter.AtEnd, DecodeHandle, BlockAt;
      IndexIsOrdered(file, all, shape);
      var iiter := NewIterator(InternalLess, indexBlock, shape.index, shape.indexLayout);
      IterIsOk(iiter);
      iiter.Seek(k);
      iiter.ShowsEntry();
      ghost var i := iiter.at;
      if !iiter.IsValid() {
        NotInIndex(file, all, shape, k);
        return None;
      }
      ChunkOfIndex(file, all, shape, i);
      ghost var c := shape.chunks[i];
      var handle := DecodeHandle(iiter.Value()).value.0;
      if filter != null {
        var may := filter.KeyMayMatch(handle.offset, k);
        if !may {
          RejectedByFilter(file, all, shape, filter.data, k, i);
          return None;
        }
      }
      var block := ReadBlock(file, verifyChecksums, handle);
      ChunkIsRead(file, all, shape, verifyChecksums, i);
      var blockIter := NewIterator(InternalLess, block.data, all[c.from..c.to], c.layout);
      IterIsOk(blockIter);
      blockIter.Seek(k);
      blockIter.ShowsEntry();
      FoundInChunk(file, all, shape, k, i);
      if blockIter.IsValid() { r := Some(Pair(blockIter.key, blockIter.Value())); } else { r := None; }
    }
  }

  lemma IterIsOk(it: Iter)
    requires it.Valid() || it.AtEnd()
    ensures it.Ok() && it.Valid()
  {
  }

  lemma IndexIsOrdered(file: Bytes, all: seq<Pair>, t: TableShape)
    requires IsTable(file, all, t)
    ensures Transitive(InternalLess) && Ascending(InternalLess, t.index)
  {
    hide Chunked, FullyIndexed, AllInternal, Ascending, InternalLess, EntriesAt, FooterBytes, Transitive, FilterBlockAt,
         Filtered;
    InternalOrder();
    IndexAscends(file, t.index, all, t.chunks);
  }

  lemma NotInIndex(file: Bytes, all: seq<Pair>, t: TableShape, k: Bytes)
    requires IsTable(file, all, t) && LowerBound(InternalLess, t.index, k) == |t.index|
    ensures IsAnswer(all, k, None)
  {
    hide Chunked, FullyIndexed, AllInternal, Ascending, InternalLess, EntriesAt, FooterBytes, IsAnswer, FilterBlockAt,
         Filtered;
    NoChunkLeft(file, t.index, all, t.chunks, k);
  }

  /** The value of an index entry leads to its chunk. */
  lemma ChunkOfIndex(file: Bytes, all: seq<Pair>, t: TableShape, i: nat)
    requires IsTable(file, all, t) && |file| < TWO_TO_64 && i < |t.index|
    ensures |t.chunks| == |t.index| && t.chunks[i].from < t.chunks[i].to <= |all|
    ensures DecodeHandle(t.index[i].value) == Some((t.chunks[i].handle, []))
  {
    hide AllInternal, Ascending, InternalLess, EntriesAt, FooterBytes, FilterBlockAt, Filtered, IndexKey, HandleBytes,
         DecodeHandle;
    var c := t.chunks[i];
    assert IndexEntry(t.index, all, t.chunks, i) && ChunkAt(file, all, c);
    HandleFits(file, c.handle, all[c.from..c.to], c.layout);
    HandleIsReadBack(c.handle, []);
    assert HandleBytes(c.handle) + [] == HandleBytes(c.handle);
  }

  lemma HandleFits(file: Bytes, h: BlockHandle, entries: seq<Pair>, l: Layout)
    requires EntriesAt(file, h, entries, l) && |file| < TWO_TO_64
    ensures Encodable(h)
  {
  }

  lemma ChunkIsRead(file: Bytes, all: seq<Pair>, t: TableShape, verifyChecksums: bool, i: nat)
    requires IsTable(file, all, t) && Fits(t) && i < |t.chunks|
    ensures var c := t.chunks[i];
            c.from < c.to <= |all| && BlockAt(file, verifyChecksums, c.handle).Contents? &&
            IsBlock(BlockAt(file, verifyChecksums, c.handle).data, all[c.from..c.to], c.layout) &&
            Ascending(InternalLess, all[c.from..c.to])
  {
    hide AllInternal, InternalLess, FooterBytes, FilterBlockAt, Filtered, FullyIndexed, EntriesAt, BlockAt;
    var c := t.chunks[i];
    assert ChunkAt(file, all, c);
    EntriesAreRead(file, verifyChecksums, c.handle, all[c.from..c.to], c.layout);
  }

  lemma EntriesAreRead(file: Bytes, verifyChecksums: bool, h: BlockHandle, entries: seq<Pair>, l: Layout)
    requires EntriesAt(file, h, entries, l) && Limit(l) < TWO_TO_32
    ensures BlockAt(file, verifyChecksums, h).Contents? && IsBlock(BlockAt(file, verifyChecksums, h).data, entries, l)
  {
    hide IsFinished, WrittenAt, BlockAt;
    WrittenIsRead(file, verifyChecksums, h, Extent(file, h));
  }

  lemma FoundInChunk(file: Bytes, all: seq<Pair>, t: TableShape, k: Bytes, i: nat)
    requires IsTable(file, all, t) && i < |t.index| == |t.chunks| && LowerBound(InternalLess, t.index, k) == i
    ensures var c := t.chunks[i];
            c.from < c.to <= |all| &&
            var part := all[c.from..c.to];
            var j := LowerBound(InternalLess, part, k);
            IsAnswer(all, k, if j < |part| then Some(part[j]) else None)
  {
    hide Chunked, FullyIndexed, AllInternal, Ascending, InternalLess, EntriesAt, FooterBytes, FilterBlockAt, Filtered,
         LowerBound;
    ChunkIsSearched(file, t.index, all, t.chunks, k, i);
  }

  lemma RejectedByFilter(file: Bytes, all: seq<Pair>, t: TableShape, data: Bytes, k: Bytes, i: nat)
    requires IsTable(file, all, t) && i < |t.index| == |t.chunks| && LowerBound(InternalLess, t.index, k) == i
    requires t.filter.Some? && IsFilterOfTable(data, t.filter.value)
    requires !BlockMayMatch(data, t.chunks[i].handle.offset, k)
    ensures IsAnswer(all, k, None)
  {
    hide Chunked, FullyIndexed, AllInternal, Ascending, InternalLess, EntriesAt, FooterBytes, FilterBlockAt, LowerBound;
    hide IsFilterBlock, BlockMayMatch, FilteredAt, ExtractUserKey;
    var c := t.chunks[i];
    ChunkIsSearched(file, t.index, all, t.chunks, k, i);
    RejectedIsAbsent(data, t.filter.value, all, c, k);
  }

  // ---------------------------------------------------------------- opening

  /** What the end of a file says, if it is long enough and has the magic number. */
  function FooterOf(file: Bytes): Option<Footer> {
    if |file| < FOOTER_LENGTH then None else DecodeFooter(file[|file| - FOOTER_LENGTH..])
  }

  /** The file ends in a footer, and the index block that this names can be read. */
  predicate Readable(file: Bytes, verifyChecksums: bool) {
    var f := FooterOf(file);
    f.Some? && BlockAt(file, verifyChecksums, f.value.index).Contents?
  }

  /** Fails for files without a footer or with a damaged index block.  Any other file is taken to be a table. */
  method Open(file: Bytes, policy: Bloom.BloomFilterPolicy?, paranoidChecks: bool, ghost all: seq<Pair>,
              ghost shape: TableShape)
    returns (r: Table?)
    requires Readable(file, paranoidChecks) ==> |file| < TWO_TO_64 && IsTable(file, all, shape) && Fits(shape)
    ensures r != null <==> Readable(file, paranoidChecks)
    ensures r != null ==> fresh(r) && r.Valid() && r.file == file && r.all == all && r.shape == shape &&
                          (r.filter != null <==> policy != null && shape.filter.Some?)
  {
    hide IsTable, Fits, IsBlock, IsFilterBlock, BlockAt, DecodeFooter;
    if |file| < FOOTER_LENGTH { return null; }
    var f := DecodeFooter(file[|file| - FOOTER_LENGTH..]);
    if f.None? { return null; }
    var contents := ReadBlock(file, paranoidChecks, f.value.index);
    if !contents.Contents? { return null; }
    FooterIsFooter(file, all, shape);
    IndexIsRead(file, all, shape, paranoidChecks);
    var filter: FilterBlockReader? := null;
    if policy != null { filter := ReadMeta(file, policy, paranoidChecks, f.value, all, shape); }
    r := new Table(file, contents.data, filter, all, shape);
  }

  /** Finds the filter block through the metaindex block. */
  method ReadMeta(file: Bytes, policy: Bloom.BloomFilterPolicy, paranoidChecks: bool, footer: Footer,
                  ghost all: seq<Pair>, ghost shape: TableShape)
    returns (r: FilterBlockReader?)
    requires |file| < TWO_TO_64 && IsTable(file, all, shape) && Fits(shape) && footer == shape.footer
    ensures r != null <==> shape.filter.Some?
    ensures r != null ==> fresh(r) && r.Valid() && IsFilterOfTable(r.data, shape.filter.value)
  {
    hide IsTable, Fits, IsBlock, IsFilterOfTable, BlockAt, Less, LowerBound, Transitive, HandleBytes, DecodeHandle,
         FILTER_KEY;
    hide Iter.Ok, Iter.AtEntry, Iter.AtEnd;
    MetaIsRead(file, all, shape, paranoidChecks);
    var meta := ReadBlock(file, paranoidChecks, footer.metaindex);
    var iter := NewIterator(Less, meta.data, shape.meta, shape.metaLayout);
    IterIsOk(iter);
    MetaIsFound(shape.filter);
    iter.Seek(FILTER_KEY);
    iter.ShowsEntry();
    if iter.IsValid() && iter.key == FILTER_KEY {
      FilterIsRead(file, all, shape, paranoidChecks);
      var handle := DecodeHandle(iter.Value()).value.0;
      var block := ReadBlock(file, paranoidChecks, handle);
      r := new FilterBlockReader(policy, block.data);
    } else {
      r := null;
    }
  }

  lemma FooterIsFooter(file: Bytes, all: seq<Pair>, t: TableShape)
    requires IsTable(file, all, t) && |file| < TWO_TO_64
    ensures |file| >= FOOTER_LENGTH && DecodeFooter(file[|file| - FOOTER_LENGTH..]) == Some(t.footer)
  {
    hide Chunked, FullyIndexed, AllInternal, Ascending, InternalLess, EntriesAt, FooterBytes, FilterBlockAt, Filtered,
         DecodeFooter;
    HandleFits(file, t.footer.index, t.index, t.indexLayout);
    HandleFits(file, t.footer.metaindex, t.meta, t.metaLayout);
    FooterIsReadBack(t.footer);
  }

  lemma IndexIsRead(file: Bytes, all: seq<Pair>, t: TableShape, verifyChecksums: bool)
    requires IsTable(file, all, t) && Fits(t)
    ensures BlockAt(file, verifyChecksums, t.footer.index).Contents?
    ensures IsBlock(BlockAt(file, verifyChecksums, t.footer.index).data, t.index, t.indexLayout)
  {
    hide Chunked, FullyIndexed, AllInternal, Ascending, InternalLess, EntriesAt, FooterBytes, FilterBlockAt, Filtered,
         BlockAt, IsBlock;
    EntriesAreRead(file, verifyChecksums, t.footer.index, t.index, t.indexLayout);
  }

  lemma MetaIsRead(file: Bytes, all: seq<Pair>, t: TableShape, verifyChecksums: bool)
    requires IsTable(file, all, t) && Fits(t)
    ensures BlockAt(file, verifyChecksums, t.footer.metaindex).Contents? && t.meta == MetaEntries(t.filter)
    ensures IsBlock(BlockAt(file, verifyChecksums, t.footer.metaindex).data, t.meta, t.metaLayout)
  {
    hide Chunked, FullyIndexed, AllInternal, Ascending, InternalLess, EntriesAt, FooterBytes, FilterBlockAt, Filtered,
         BlockAt, IsBlock;
    hide MetaEntries;
    EntriesAreRead(file, verifyChecksums, t.footer.metaindex, t.meta, t.metaLayout);
  }

  lemma MetaIsFound(filter: Option<FilterShape>)
    ensures Transitive(Less) && Ascending(Less, MetaEntries(filter))
    ensures var m := MetaEntries(filter);
            (filter.Some? ==> |m| == 1 && m[0].key == FILTER_KEY && LowerBound(Less, m, FILTER_KEY) == 0) &&
            (filter.None? ==> |m| == 0)
  {
    hide Less, HandleBytes, FILTER_KEY;
    forall a, b, c | Less(a, b) && Less(b, c) ensures Less(a, c) { LessIsTransitive(a, b, c); }
    LessIsTotal(FILTER_KEY, FILTER_KEY);
  }

  lemma FilterIsRead(file: Bytes, all: seq<Pair>, t: TableShape, verifyChecksums: bool)
    requires IsTable(file, all, t) && Fits(t) && |file| < TWO_TO_64 && t.filter.Some?
    ensures |t.meta| == 1 && DecodeHandle(t.meta[0].value) == Some((t.filter.value.handle, []))
    ensures var r := BlockAt(file, verifyChecksums, t.filter.value.handle);
            r.Contents? && IsFilterOfTable(r.data, t.filter.value)
  {
    hide Chunked, FullyIndexed, AllInternal, Ascending, InternalLess, EntriesAt, FooterBytes, Filtered, BlockAt,
         IsBlock;
    hide IsFinishedFilter, HandleBytes, DecodeHandle, WrittenAt;
    var h := t.filter.value.handle;
    FilterHandleFits(file, t.filter.value);
    HandleIsReadBack(h, []);
    assert HandleBytes(h) + [] == HandleBytes(h);
    WrittenIsRead(file, verifyChecksums, h, Extent(file, h));
  }

  lemma FilterHandleFits(file: Bytes, f: FilterShape)
    requires FilterBlockAt(file, f) && |file| < TWO_TO_64
    ensures Encodable(f.handle)
  {
  }

  // ---------------------------------------------------------------- a table of versions

  /** The bytes of user keys, in the order of the keys. */
  ghost predicate OrderedNames(nameOf: int -> Bytes) { forall a, b :: a < b ==> Less(nameOf(a), nameOf(b)) }

  function KindOf(op: Op): nat { if op.Delete? then 0 else 1 }

  function VersionKey(nameOf: int -> Bytes, e: Entry): Bytes { WithTag(nameOf(e.key), e.sn * 256 + KindOf(e.op)) }

  function VersionPair(nameOf: int -> Bytes, e: Entry): Pair {
    Pair(VersionKey(nameOf, e), if e.op.Put? then e.op.value else [])
  }

  /** The entries of a sorted run as a table holds them. */
  function VersionPairs(nameOf: int -> Bytes, es: seq<Entry>): (r: seq<Pair>)
    ensures |r| == |es|
  {
    seq(|es|, i requires 0 <= i < |es| => VersionPair(nameOf, es[i]))
  }

  function LookupKey(nameOf: int -> Bytes, k: int, s: SequenceNumber): Bytes { WithTag(nameOf(k), s * 256 + 1) }

  lemma VersionParts(nameOf: int -> Bytes, e: Entry)
    ensures ExtractUserKey(VersionKey(nameOf, e)) == nameOf(e.key)
    ensures Tag(VersionKey(nameOf, e)) == e.sn * 256 + KindOf(e.op)
  {
    TaggedKey(nameOf(e.key), e.sn * 256 + KindOf(e.op));
  }

  lemma NamesDecide(nameOf: int -> Bytes, a: int, b: int)
    requires OrderedNames(nameOf)
    ensures (Less(nameOf(a), nameOf(b)) <==> a < b) && (nameOf(a) == nameOf(b) <==> a == b)
  {
    hide Less;
    LessIsTotal(nameOf(a), nameOf(b));
  }

  /** The order of internal keys is that of versions. */
  lemma VersionOrder(nameOf: int -> Bytes, a: Entry, b: Entry)
    requires OrderedNames(nameOf) && (a.key != b.key || a.sn != b.sn)
    ensures InternalLess(VersionKey(nameOf, a), VersionKey(nameOf, b)) <==> Before(a, b)
  {
    hide Less, ExtractUserKey, Tag, VersionKey, OrderedNames;
    VersionParts(nameOf, a);
    VersionParts(nameOf, b);
    NamesDecide(nameOf, a.key, b.key);
  }

  lemma LookupOrder(nameOf: int -> Bytes, e: Entry, k: int, s: SequenceNumber)
    requires OrderedNames(nameOf)
    ensures InternalLess(VersionKey(nameOf, e), LookupKey(nameOf, k, s)) <==> !AtOrAfter(e, k, s)
    ensures ExtractUserKey(VersionKey(nameOf, e)) == ExtractUserKey(LookupKey(nameOf, k, s)) <==> e.key == k
  {
    hide Less, ExtractUserKey, Tag, VersionKey, OrderedNames, WithTag;
    VersionParts(nameOf, e);
    TaggedKey(nameOf(k), s * 256 + 1);
    NamesDecide(nameOf, e.key, k);
  }

  /** A sorted run may be added to a table in its order. */
  lemma RunIsOrdered(nameOf: int -> Bytes, es: seq<Entry>)
    requires OrderedNames(nameOf) && Sorted(es)
    ensures AllInternal(VersionPairs(nameOf, es)) && Ascending(InternalLess, VersionPairs(nameOf, es))
  {
    hide InternalLess, VersionKey, OrderedNames;
    var all := VersionPairs(nameOf, es);
    forall i, j | 0 <= i < j < |es| ensures InternalLess(all[i].key, all[j].key) {
      assert Before(es[i], es[j]);
      VersionOrder(nameOf, es[i], es[j]);
    }
    forall i | 0 <= i < |es| ensures IsInternal(all[i].key) { IsVersion(nameOf, es[i]); }
  }

  lemma IsVersion(nameOf: int -> Bytes, e: Entry)
    ensures IsInternal(VersionKey(nameOf, e))
  {
  }

  lemma SearchIsLookup(nameOf: int -> Bytes, es: seq<Entry>, k: int, s: SequenceNumber)
    requires OrderedNames(nameOf)
    ensures LowerBound(InternalLess, VersionPairs(nameOf, es), LookupKey(nameOf, k, s)) == Lookup(es, k, s)
  {
    hide InternalLess, VersionKey, OrderedNames, LookupKey, LowerBound, Lookup;
    var i, all := Lookup(es, k, s), VersionPairs(nameOf, es);
    forall j | 0 <= j < |es|
      ensures InternalLess(all[j].key, LookupKey(nameOf, k, s)) <==> !AtOrAfter(es[j], k, s)
    {
      LookupOrder(nameOf, es[j], k, s);
    }
    LowerBoundIs(InternalLess, all, LookupKey(nameOf, k, s), i);
  }

  /** So what a table of a sorted run answers to a lookup key is the newest version that the reader may see, or shows
      that there is none. */
  lemma AnswerIsNewest(nameOf: int -> Bytes, es: seq<Entry>, k: int, s: SequenceNumber, r: Option<Pair>)
    requires OrderedNames(nameOf) && Sorted(es) && IsAnswer(VersionPairs(nameOf, es), LookupKey(nameOf, k, s), r)
    ensures if r.Some? && ExtractUserKey(r.value.key) == nameOf(k) then
              exists e :: NewestIn(es, k, s, e) && r.value == VersionPair(nameOf, e)
            else forall x :: x in es && x.key == k ==> x.sn > s
  {
    hide InternalLess, LowerBound, Lookup, OrderedNames, ExtractUserKey, VersionKey, LookupKey, Before;
    SearchIsLookup(nameOf, es, k, s);
    LookupIsNewest(es, k, s);
    var i := Lookup(es, k, s);
    LookupUser(nameOf, k, s);
    if i < |es| {
      LookupOrder(nameOf, es[i], k, s);
      if es[i].key == k { assert NewestIn(es, k, s, es[i]); }
    }
  }

  lemma LookupUser(nameOf: int -> Bytes, k: int, s: SequenceNumber)
    ensures ExtractUserKey(LookupKey(nameOf, k, s)) == nameOf(k)
  {
    TaggedKey(nameOf(k), s * 256 + 1);
  }
}
