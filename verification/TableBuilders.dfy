/** Writing a table: data blocks, a filter block, and an index whose keys are shortened (table/table_builder.cc). */
module TableBuilders {
  import opened InternalKeys
  import opened Varints
  import opened Coding
  import opened Comparators
  import opened Block
  import opened FilterBlocks
  import opened TableFormat
  import BlockIter
  import Bloom
  import Crc32c
  import Octet

  /** A finished data block: where it is, and which of the entries it holds. */
  datatype Chunk = Chunk(handle: BlockHandle, from: nat, to: nat, layout: Layout)

  // ---------------------------------------------------------------- what has been written

  /** A block of entries lies at h. */
  ghost predicate EntriesAt(file: Bytes, h: BlockHandle, entries: seq<Pair>, l: Layout) {
    h.offset + h.size + BLOCK_TRAILER_SIZE <= |file| &&
    WrittenAt(file, h, file[h.offset..h.offset + h.size]) &&
    IsFinished(file[h.offset..h.offset + h.size], entries, l)
  }

  ghost predicate ChunkAt(file: Bytes, all: seq<Pair>, c: Chunk) {
    c.from < c.to <= |all| && EntriesAt(file, c.handle, all[c.from..c.to], c.layout)
  }

  /** The chunks hold the first entries up to end, without gaps. */
  ghost predicate Chunked(file: Bytes, all: seq<Pair>, chunks: seq<Chunk>, end: nat) {
    (forall i :: 0 <= i < |chunks| ==> ChunkAt(file, all, chunks[i])) &&
    (forall i :: 0 < i < |chunks| ==> chunks[i].from == chunks[i - 1].to) &&
    if |chunks| == 0 then end == 0 else chunks[0].from == 0 && chunks[|chunks| - 1].to == end
  }

  /** A block with the entries from position from on has been appended: size bytes and the 5 of its trailer.  Every
      interval-th of its keys is whole, and the others share as much as they can. */
  ghost predicate OneBlockMore(file: Bytes, file': Bytes, chunks: seq<Chunk>, chunks': seq<Chunk>, all: seq<Pair>,
                               from: int, size: int, interval: nat)
  {
    0 <= from <= |all| && size >= 0 && file <= file' && |file'| == |file| + size + 5 &&
    exists l :: Spaced(l, interval) && Compressed(all[from..], l) &&
      chunks' == chunks + [Chunk(BlockHandle(|file|, size), from, |all|, l)]
  }

  /** The index entry of a chunk that is not the last one. */
  ghost predicate IndexedAt(index: seq<Pair>, all: seq<Pair>, chunks: seq<Chunk>, i: nat) {
    i < |index| && i < |chunks| && 0 < chunks[i].to < |all| &&
    index[i] == Pair(InternalSeparator(all[chunks[i].to - 1].key, all[chunks[i].to].key), HandleBytes(chunks[i].handle))
  }

  ghost predicate Indexed(index: seq<Pair>, all: seq<Pair>, chunks: seq<Chunk>) {
    forall i: nat :: i < |index| ==> IndexedAt(index, all, chunks, i)
  }

  ghost predicate AllInternal(all: seq<Pair>) { forall i :: 0 <= i < |all| ==> IsInternal(all[i].key) }

  /** The keys of a chunk have been added to the filter for its offset. */
  ghost predicate FilteredAt(groups: seq<seq<Bytes>>, all: seq<Pair>, from: nat, to: nat, offset: nat) {
    to <= |all| && offset / FILTER_BASE < |groups| &&
    forall m :: from <= m < to ==> all[m].key in groups[offset / FILTER_BASE]
  }

  ghost predicate Filtered(groups: seq<seq<Bytes>>, all: seq<Pair>, chunks: seq<Chunk>) {
    forall i :: 0 <= i < |chunks| ==> FilteredAt(groups, all, chunks[i].from, chunks[i].to, chunks[i].handle.offset)
  }

  // ---------------------------------------------------------------- nothing of this changes when more is written

  lemma EntriesStay(file: Bytes, more: Bytes, h: BlockHandle, entries: seq<Pair>, l: Layout)
    requires EntriesAt(file, h, entries, l)
    ensures EntriesAt(file + more, h, entries, l)
  {
    hide IsFinished, WrittenAt;
    assert (file + more)[h.offset..h.offset + h.size] == file[h.offset..h.offset + h.size];
    StillWritten(file, more, h, file[h.offset..h.offset + h.size]);
  }

  lemma ChunksStay(file: Bytes, more: Bytes, all: seq<Pair>, moreAll: seq<Pair>, chunks: seq<Chunk>, end: nat)
    requires Chunked(file, all, chunks, end)
    ensures Chunked(file + more, all + moreAll, chunks, end)
  {
    hide EntriesAt;
    forall i | 0 <= i < |chunks| ensures ChunkAt(file + more, all + moreAll, chunks[i]) {
      assert ChunkAt(file, all, chunks[i]);
      var c := chunks[i];
      assert (all + moreAll)[c.from..c.to] == all[c.from..c.to];
      EntriesStay(file, more, c.handle, all[c.from..c.to], c.layout);
    }
  }

  lemma OneMoreChunk(file: Bytes, all: seq<Pair>, chunks: seq<Chunk>, end: nat, c: Chunk)
    requires Chunked(file, all, chunks, end) && c.from == end && ChunkAt(file, all, c)
    ensures Chunked(file, all, chunks + [c], c.to)
  {
    hide ChunkAt, EntriesAt;
  }

  lemma IndexStays(index: seq<Pair>, all: seq<Pair>, moreAll: seq<Pair>, chunks: seq<Chunk>, moreChunks: seq<Chunk>)
    requires Indexed(index, all, chunks)
    ensures Indexed(index, all + moreAll, chunks + moreChunks)
  {
    hide InternalSeparator, HandleBytes;
    forall i: nat | i < |index| ensures IndexedAt(index, all + moreAll, chunks + moreChunks, i) {
      assert IndexedAt(index, all, chunks, i);
    }
  }

  lemma OneMoreIndexEntry(index: seq<Pair>, all: seq<Pair>, chunks: seq<Chunk>, p: Pair)
    requires Indexed(index, all, chunks) && IndexedAt(index + [p], all, chunks, |index|)
    ensures Indexed(index + [p], all, chunks)
  {
    hide InternalSeparator, HandleBytes;
    forall i: nat | i < |index| + 1 ensures IndexedAt(index + [p], all, chunks, i) {
      if i < |index| { assert IndexedAt(index, all, chunks, i); }
    }
  }

  /** Every key that was in a group still is. */
  ghost predicate GroupsKept(groups: seq<seq<Bytes>>, groups': seq<seq<Bytes>>) {
    forall g :: 0 <= g < |groups| ==> forall k :: k in groups[g] ==> g < |groups'| && k in groups'[g]
  }

  lemma FilteredStays(groups: seq<seq<Bytes>>, groups': seq<seq<Bytes>>, all: seq<Pair>, more: seq<Pair>,
                      chunks: seq<Chunk>)
    requires Filtered(groups, all, chunks) && GroupsKept(groups, groups')
    requires forall i :: 0 <= i < |chunks| ==> chunks[i].from < chunks[i].to
    ensures Filtered(groups', all + more, chunks)
  {
    forall i | 0 <= i < |chunks|
      ensures FilteredAt(groups', all + more, chunks[i].from, chunks[i].to, chunks[i].handle.offset)
    {
      var c := chunks[i];
      assert FilteredAt(groups, all, c.from, c.to, c.handle.offset);
      RangeStays(groups, groups', all, more, c.from, c.to, c.handle.offset);
    }
  }

  lemma RangeStays(groups: seq<seq<Bytes>>, groups': seq<seq<Bytes>>, all: seq<Pair>, more: seq<Pair>, from: nat,
                   to: nat, offset: nat)
    requires FilteredAt(groups, all, from, to, offset) && GroupsKept(groups, groups')
    requires from < to || offset / FILTER_BASE < |groups'|
    ensures FilteredAt(groups', all + more, from, to, offset)
  {
    var g := offset / FILTER_BASE;
    if from < to { assert all[from].key in groups[g]; }
    forall m | from <= m < to ensures (all + more)[m].key in groups'[g] { assert all[m].key in groups[g]; }
  }

  // ---------------------------------------------------------------- a finished table

  const FILTER_KEY: Bytes := Ascii("filter.leveldb.BuiltinBloomFilter2")

  function Ascii(s: string): Bytes { seq(|s|, i requires 0 <= i < |s| => s[i] as int % 256) }

  /** The filter block: where it is, where its filters end, and the keys they are made of. */
  datatype FilterShape = FilterShape(handle: BlockHandle, ends: seq<nat>, groups: seq<seq<Bytes>>, k: nat)

  datatype TableShape = TableShape(chunks: seq<Chunk>, index: seq<Pair>, indexLayout: Layout, meta: seq<Pair>,
                                   metaLayout: Layout, footer: Footer, filter: Option<FilterShape>)

  /** The index key of a chunk that ends where the entry at position to starts. */
  function IndexKey(all: seq<Pair>, to: nat): Bytes
    requires 0 < to <= |all|
  {
    if to < |all| then InternalSeparator(all[to - 1].key, all[to].key) else InternalSuccessor(all[to - 1].key)
  }

  ghost predicate IndexEntry(index: seq<Pair>, all: seq<Pair>, chunks: seq<Chunk>, i: nat) {
    i < |index| && i < |chunks| && 0 < chunks[i].to <= |all| &&
    index[i] == Pair(IndexKey(all, chunks[i].to), HandleBytes(chunks[i].handle))
  }

  /** Every chunk has its index entry. */
  ghost predicate FullyIndexed(index: seq<Pair>, all: seq<Pair>, chunks: seq<Chunk>) {
    |index| == |chunks| && forall i: nat :: i < |chunks| ==> IndexEntry(index, all, chunks, i)
  }

  ghost predicate FilterBlockAt(file: Bytes, f: FilterShape) {
    f.handle.offset + f.handle.size <= |file| && f.k <= 30 &&
    WrittenAt(file, f.handle, file[f.handle.offset..f.handle.offset + f.handle.size]) &&
    IsFinishedFilter(file[f.handle.offset..f.handle.offset + f.handle.size], f.ends, f.groups, f.k)
  }

  function MetaEntries(filter: Option<FilterShape>): seq<Pair> {
    if filter.Some? then [Pair(FILTER_KEY, HandleBytes(filter.value.handle))] else []
  }

  /** The bytes of a table with these entries. */
  ghost predicate IsTable(file: Bytes, all: seq<Pair>, t: TableShape) {
    |file| >= FOOTER_LENGTH && file[|file| - FOOTER_LENGTH..] == FooterBytes(t.footer) &&
    AllInternal(all) && Ascending(InternalLess, all) && Chunked(file, all, t.chunks, |all|) &&
    FullyIndexed(t.index, all, t.chunks) && EntriesAt(file, t.footer.index, t.index, t.indexLayout) &&
    t.meta == MetaEntries(t.filter) && EntriesAt(file, t.footer.metaindex, t.meta, t.metaLayout) &&
    (t.filter.Some? ==> FilterBlockAt(file, t.filter.value) && Filtered(t.filter.value.groups, all, t.chunks))
  }

  // ---------------------------------------------------------------- the builder

  class TableBuilder {
    const blockSize: nat
    const restartInterval: nat
    const dataBlock: BlockBuilder
    const indexBlock: BlockBuilder
    const filterBlock: FilterBlockBuilder?
    var file: Bytes
    var offset: nat
    var lastKey: Bytes
    var numEntries: nat
    var closed: bool
    var pendingIndexEntry: bool
    var pendingHandle: BlockHandle
    ghost var all: seq<Pair>
    ghost var chunks: seq<Chunk>

    /** How many entries the finished blocks hold. */
    ghost function Flushed(): int
      reads this, dataBlock
    {
      |all| - |dataBlock.entries|
    }

    ghost predicate BlocksOk()
      reads this, dataBlock, indexBlock
    {
      dataBlock != indexBlock && dataBlock.Valid() && indexBlock.Valid() && offset == |file| &&
      0 <= Flushed() && dataBlock.entries == all[Flushed()..] && Chunked(file, all, chunks, Flushed())
    }

    ghost predicate IndexOk()
      reads this, dataBlock, indexBlock
    {
      Indexed(indexBlock.entries, all, chunks) &&
      if pendingIndexEntry then
        |indexBlock.entries| + 1 == |chunks| && |dataBlock.entries| == 0 && pendingHandle == chunks[|chunks| - 1].handle
      else |indexBlock.entries| == |chunks| && (|chunks| > 0 ==> |dataBlock.entries| > 0)
    }

    ghost predicate FilterOk()
      reads this, dataBlock, filterBlock
    {
      filterBlock != null ==>
        filterBlock.Valid() && |filterBlock.done| == offset / FILTER_BASE &&
        Filtered(filterBlock.Groups(), all, chunks) &&
        0 <= Flushed() && FilteredAt(filterBlock.Groups(), all, Flushed(), |all|, offset)
    }

    ghost predicate KeysOk()
      reads this
    {
      numEntries == |all| && (|all| > 0 ==> lastKey == all[|all| - 1].key) && AllInternal(all) &&
      Ascending(InternalLess, all)
    }

    ghost predicate Valid()
      reads this, dataBlock, indexBlock, filterBlock
    {
      !closed && restartInterval >= 1 && BlocksOk() && IndexOk() && FilterOk() && KeysOk()
    }

    constructor (blockSize: nat, restartInterval: nat, policy: Bloom.BloomFilterPolicy?)
      requires restartInterval >= 1 && (policy != null ==> policy.Valid())
      ensures Valid() && all == [] && fresh(dataBlock) && fresh(indexBlock)
      ensures this.blockSize == blockSize && dataBlock.interval == restartInterval && indexBlock.interval == 1
      ensures (filterBlock == null <==> policy == null) &&
              (filterBlock != null ==> fresh(filterBlock) && filterBlock.policy == policy)
    {
      this.blockSize, this.restartInterval := blockSize, restartInterval;
      dataBlock := new BlockBuilder(restartInterval);
      indexBlock := new BlockBuilder(1);
      file, offset, lastKey, numEntries, closed, pendingIndexEntry := [], 0, [], 0, false, false;
      pendingHandle := BlockHandle(0, 0);
      all, chunks := [], [];
      if policy == null {
        filterBlock := null;
      } else {
        var f := new FilterBlockBuilder(policy);
        f.StartBlock(0);
        filterBlock := f;
      }
    }

    /** The index entry of the last block waits for the first key behind it. */
    method AddIndexEntry(key: Bytes)
      requires indexBlock.Valid()
      modifies this`lastKey, this`pendingIndexEntry, indexBlock
      ensures indexBlock.Valid() && !pendingIndexEntry
      ensures indexBlock.entries == old(indexBlock.entries) +
                [Pair(InternalSeparator(old(lastKey), key), HandleBytes(pendingHandle))]
    {
      hide BlockBuilder.Valid, InternalSeparator, HandleBytes;
      lastKey := FindShortestInternalSeparator(lastKey, key);
      indexBlock.Add(lastKey, HandleBytes(pendingHandle));
      pendingIndexEntry := false;
    }

    /** Afterwards the index entries know of the new entry. */
    method AddPending(key: Bytes, ghost p: Pair)
      requires BlocksOk() && IndexOk() && FilterOk() && (|all| > 0 ==> lastKey == all[|all| - 1].key) && p.key == key
      modifies this`lastKey, this`pendingIndexEntry, indexBlock
      ensures BlocksOk() && FilterOk() && !pendingIndexEntry && |indexBlock.entries| == |chunks|
      ensures Indexed(indexBlock.entries, all + [p], chunks) && dataBlock.entries == old(dataBlock.entries)
    {
      hide BlockBuilder.Valid, FilterBlockBuilder.Valid, InternalSeparator, HandleBytes, Chunked, Indexed, Filtered;
      hide FilteredAt;
      assert chunks + [] == chunks;
      IndexStays(indexBlock.entries, all, [p], chunks, []);
      if pendingIndexEntry {
        PendingEntry(file, indexBlock.entries, all, chunks, p);
        AddIndexEntry(key);
      }
    }

    method AddToFilter(key: Bytes, ghost p: Pair)
      requires BlocksOk() && filterBlock != null && FilterOk() && p.key == key
      modifies filterBlock
      ensures filterBlock.Valid() && |filterBlock.done| == offset / FILTER_BASE
      ensures Filtered(filterBlock.Groups(), all + [p], chunks)
      ensures FilteredAt(filterBlock.Groups(), all + [p], Flushed(), |all| + 1, offset)
    {
      hide BlockBuilder.Valid, FilterBlockBuilder.Valid, Chunked, Filtered, FilteredAt;
      ghost var groups := filterBlock.Groups();
      filterBlock.AddKey(key);
      KeyIsFiltered(file, groups, filterBlock.Groups(), all, p, chunks, Flushed(), offset);
    }

    method AddEntry(key: Bytes, value: Bytes)
      requires Valid() && IsInternal(key) && (|all| > 0 ==> InternalLess(lastKey, key))
      modifies this, dataBlock, indexBlock, filterBlock
      ensures Valid() && all == old(all) + [Pair(key, value)] && file == old(file) && chunks == old(chunks)
      ensures dataBlock.entries == old(dataBlock.entries) + [Pair(key, value)]
    {
      hide BlocksOk, IndexOk, FilterOk, FilterReady, Indexed, AllInternal, Ascending, InternalLess, IsInternal;
      ghost var p := Pair(key, value);
      KeysMore(all, p);
      AddPending(key, p);
      FilterEntry(key, p);
      AddToData(key, value, p);
    }

    /** The filter knows of the new entry already. */
    ghost predicate FilterReady(p: Pair)
      reads this, dataBlock, filterBlock
    {
      filterBlock != null ==>
        filterBlock.Valid() && |filterBlock.done| == offset / FILTER_BASE &&
        Filtered(filterBlock.Groups(), all + [p], chunks) &&
        0 <= Flushed() && FilteredAt(filterBlock.Groups(), all + [p], Flushed(), |all| + 1, offset)
    }

    method FilterEntry(key: Bytes, ghost p: Pair)
      requires BlocksOk() && FilterOk() && p.key == key
      modifies filterBlock
      ensures BlocksOk() && FilterReady(p)
    {
      hide BlockBuilder.Valid, FilterBlockBuilder.Valid, Chunked, Filtered, FilteredAt;
      if filterBlock != null { AddToFilter(key, p); }
    }

    method AddToData(key: Bytes, value: Bytes, ghost p: Pair)
      requires BlocksOk() && FilterReady(p) && p == Pair(key, value)
      requires Indexed(indexBlock.entries, all + [p], chunks) && |indexBlock.entries| == |chunks| && !pendingIndexEntry
      requires AllInternal(all + [p]) && Ascending(InternalLess, all + [p]) && numEntries == |all|
      requires !closed && restartInterval >= 1
      modifies this`lastKey, this`numEntries, this`all, dataBlock
      ensures Valid() && all == old(all) + [p] && dataBlock.entries == old(dataBlock.entries) + [p]
    {
      hide BlockBuilder.Valid, FilterBlockBuilder.Valid, Chunked, Indexed, Filtered, FilteredAt, AllInternal, Ascending;
      ChunksKnowMore(file, all, p, chunks, Flushed());
      TailMore(all, p, Flushed());
      lastKey := key;
      numEntries := numEntries + 1;
      dataBlock.Add(key, value);
      all := all + [p];
    }

    method WriteRawBlock(contents: Bytes, kind: Byte) returns (handle: BlockHandle)
      requires offset == |file|
      modifies this`file, this`offset
      ensures file == old(file) + (contents + Trailer(contents, kind)) && offset == |file|
      ensures handle == BlockHandle(old(offset), |contents|)
    {
      hide Octet.Octets, Octet.FromOctets, Octet.Pattern, Crc32c.Extended, Crc32c.Mask;
      handle := BlockHandle(offset, |contents|);
      file := file + contents;
      var crc := Crc32c.Extend(0, Octet.Octets(contents), 0);
      crc := Crc32c.Extend(crc, [Octet.Pattern(kind)], 0);
      var trailer := [kind] + Octet.FromOctets(Crc32c.EncodeFixed32(Crc32c.Mask(crc)));
      assert trailer == Trailer(contents, kind);
      file := file + trailer;
      offset := offset + |contents| + BLOCK_TRAILER_SIZE;
    }

    method WriteBlock(block: BlockBuilder) returns (handle: BlockHandle)
      requires block.Valid() && offset == |file|
      modifies this`file, this`offset, block
      ensures block.Valid() && block.entries == [] && offset == |file| && old(file) <= file
      ensures handle.offset == old(offset) && EntriesAt(file, handle, old(block.entries), old(block.layout))
      ensures |file| == |old(file)| + handle.size + 5
      ensures handle.size == |old(block.buffer)| + 4 * |old(block.restarts)| + 4
      ensures Spaced(old(block.layout), block.interval) && Compressed(old(block.entries), old(block.layout))
    {
      hide IsFinished, Spaced, Compressed, Laid, Started, Trailer;
      ghost var entries, layout, before := block.entries, block.layout, file;
      var raw := block.Finish();
      handle := WriteRawBlock(raw, NO_COMPRESSION);
      BlockIsWritten(before, raw);
      block.Reset();
    }

    /** The filter goes on with the block that starts behind chunk c. */
    method StartFilterBlock(ghost before: Bytes, ghost c: Chunk)
      requires filterBlock != null && filterBlock.Valid() && Filtered(filterBlock.Groups(), all, chunks)
      requires FilteredAt(filterBlock.Groups(), all, c.from, c.to, c.handle.offset) && c.from < c.to == |all|
      requires |filterBlock.done| == c.handle.offset / FILTER_BASE && c.handle.offset <= offset
      requires Chunked(before, all, chunks, c.from)
      modifies filterBlock
      ensures filterBlock.Valid() && |filterBlock.done| == offset / FILTER_BASE
      ensures Filtered(filterBlock.Groups(), all, chunks + [c])
      ensures FilteredAt(filterBlock.Groups(), all, |all|, |all|, offset)
    {
      hide FilterBlockBuilder.Valid, Chunked, Filtered, FilteredAt;
      ghost var groups := filterBlock.Groups();
      filterBlock.StartBlock(offset);
      ChunkIsFiltered(before, groups, filterBlock.Groups(), all, chunks, c, offset);
    }

    method Flush()
      requires Valid()
      modifies this, dataBlock, indexBlock, filterBlock
      ensures Valid() && all == old(all) && |dataBlock.entries| == 0
      ensures if old(dataBlock.entries) == [] then file == old(file) && chunks == old(chunks)
              else OneBlockMore(old(file), file, old(chunks), chunks, all, old(Flushed()),
                                |old(dataBlock.buffer)| + 4 * |old(dataBlock.restarts)| + 4, dataBlock.interval)
    {
      hide BlockBuilder.Valid, FilterBlockBuilder.Valid, Chunked, Indexed, Filtered, FilteredAt, EntriesAt, IsInternal;
      hide InternalLess, Ascending, AllInternal;
      EmptyMeansNoEntries(dataBlock);
      if dataBlock.Empty() { return; }
      ghost var from, layout, before := Flushed(), dataBlock.layout, file;
      pendingHandle := WriteBlock(dataBlock);
      pendingIndexEntry := true;
      ghost var c := Chunk(pendingHandle, from, |all|, layout);
      ChunkIsAdded(before, file, all, chunks, c);
      IndexStays(indexBlock.entries, all, [], chunks, [c]);
      assert all + [] == all;
      if filterBlock != null { StartFilterBlock(before, c); }
      chunks := chunks + [c];
    }

    /** Keys have to come in ascending order.  The data block is written out as soon as it has the block size, and a
        block that stays open is smaller. */
    method Add(key: Bytes, value: Bytes)
      requires Valid() && IsInternal(key) && (|all| > 0 ==> InternalLess(lastKey, key))
      modifies this, dataBlock, indexBlock, filterBlock
      ensures Valid() && all == old(all) + [Pair(key, value)]
      ensures if |dataBlock.entries| == 0 then
                exists size ::
                  size >= blockSize &&
                  OneBlockMore(old(file), file, old(chunks), chunks, all, old(Flushed()), size, dataBlock.interval)
              else
                file == old(file) && chunks == old(chunks) &&
                dataBlock.entries == old(dataBlock.entries) + [Pair(key, value)] &&
                |dataBlock.buffer| + 4 * |dataBlock.restarts| + 4 < blockSize
    {
      AddEntry(key, value);
      if dataBlock.CurrentSizeEstimate() >= blockSize { Flush(); }
    }

    // -------------------------------------------------------------- finishing

    method WriteFilter() returns (handle: BlockHandle, ghost f: Option<FilterShape>)
      requires BlocksOk() && FilterOk() && |dataBlock.entries| == 0
      modifies this`file, this`offset, filterBlock
      ensures old(file) <= file && offset == |file| && (f.Some? <==> filterBlock != null)
      ensures f.Some? ==>
                f.value.handle == handle && FilterBlockAt(file, f.value) && Filtered(f.value.groups, all, chunks)
    {
      hide BlockBuilder.Valid, FilterBlockBuilder.Valid, Indexed, Filtered, FilteredAt, EntriesAt, IsInternal, Trailer;
      hide InternalLess, Ascending, AllInternal, IsFinishedFilter;
      handle, f := BlockHandle(0, 0), None;
      if filterBlock != null {
        ghost var groups, before, pending := filterBlock.Groups(), file, filterBlock.pending;
        PolicyIsValid(filterBlock);
        ghost var ends;
        var contents;
        contents, ends := filterBlock.Finish();
        handle := WriteRawBlock(contents, NO_COMPRESSION);
        BlockIsWritten(before, contents);
        f := Some(FilterShape(handle, ends, filterBlock.done, filterBlock.policy.k));
        FilterIsFinished(before, groups, filterBlock.done, all, chunks);
      }
    }

    method WriteMeta(filterHandle: BlockHandle, ghost f: Option<FilterShape>)
      returns (handle: BlockHandle, ghost l: Layout)
      requires offset == |file| && restartInterval >= 1 && (f.Some? <==> filterBlock != null)
      requires f.Some? ==> f.value.handle == filterHandle
      modifies this`file, this`offset
      ensures old(file) <= file && offset == |file| && EntriesAt(file, handle, MetaEntries(f), l)
    {
      hide BlockBuilder.Valid, EntriesAt, HandleBytes;
      var metaIndexBlock := new BlockBuilder(restartInterval);
      if filterBlock != null { metaIndexBlock.Add(FILTER_KEY, HandleBytes(filterHandle)); }
      assert metaIndexBlock.entries == MetaEntries(f);
      l := metaIndexBlock.layout;
      handle := WriteBlock(metaIndexBlock);
    }

    method WriteIndex(ghost data: Bytes) returns (handle: BlockHandle, ghost index: seq<Pair>, ghost l: Layout)
      requires dataBlock != indexBlock && indexBlock.Valid() && offset == |file| && KeysOk() &&
               Indexed(indexBlock.entries, all, chunks)
      requires Chunked(data, all, chunks, |all|)
      requires if pendingIndexEntry then |indexBlock.entries| + 1 == |chunks| &&
               pendingHandle == chunks[|chunks| - 1].handle
               else |indexBlock.entries| == |chunks| == 0
      modifies this`file, this`offset, this`lastKey, this`pendingIndexEntry, indexBlock
      ensures old(file) <= file && offset == |file| && FullyIndexed(index, all, chunks) &&
              EntriesAt(file, handle, index, l)
    {
      hide BlockBuilder.Valid, EntriesAt, HandleBytes, Indexed, FullyIndexed, Ascending, AllInternal, InternalSuccessor,
           Chunked;
      ghost var some := indexBlock.entries;
      if pendingIndexEntry {
        LastEntry(data, some, all, chunks);
        lastKey := FindShortInternalSuccessor(lastKey);
        indexBlock.Add(lastKey, HandleBytes(pendingHandle));
        pendingIndexEntry := false;
      } else {
        NoEntries(some, all, chunks);
      }
      index, l := indexBlock.entries, indexBlock.layout;
      handle := WriteBlock(indexBlock);
    }

    /** Writes what is left, and behind it the filter block, the metaindex block, the index block and the footer. */
    method Finish() returns (ghost t: TableShape)
      requires Valid()
      modifies this, dataBlock, indexBlock, filterBlock
      ensures closed && all == old(all) && IsTable(file, all, t) && (t.filter.Some? <==> filterBlock != null)
    {
      hide BlockBuilder.Valid, FilterBlockBuilder.Valid, Indexed, Filtered, FilteredAt, EntriesAt, IsInternal,
           InternalLess;
      hide Ascending, AllInternal, FullyIndexed, FilterBlockAt, MetaEntries, Chunked, FooterBytes;
      Flush();
      closed := true;
      ghost var f0 := file;
      var filterHandle, metaHandle, indexHandle;
      ghost var f, ml, index, il;
      filterHandle, f := WriteFilter();
      ghost var f1 := file;
      metaHandle, ml := WriteMeta(filterHandle, f);
      ghost var f2 := file;
      indexHandle, index, il := WriteIndex(f0);
      ghost var f3 := file;
      var footer := Footer(metaHandle, indexHandle);
      file := file + FooterBytes(footer);
      offset := offset + FOOTER_LENGTH;
      t := TableShape(chunks, index, il, MetaEntries(f), ml, footer, f);
      TableIsWritten(f0, f1, f2, f3, all, t);
    }
  }

  lemma PolicyIsValid(b: FilterBlockBuilder)
    requires b.Valid()
    ensures b.policy.k <= 30
  {
    hide Flattened, FiltersOf;
  }

  lemma FilterIsFinished(file: Bytes, groups: seq<seq<Bytes>>, done: seq<seq<Bytes>>, all: seq<Pair>,
                         chunks: seq<Chunk>)
    requires Filtered(groups, all, chunks) && Chunked(file, all, chunks, |all|) && |groups| > 0
    requires var n := |groups| - 1; done == groups[..n] + if |groups[n]| == 0 then [] else [groups[n]]
    ensures Filtered(done, all, chunks)
  {
    hide FilteredAt, EntriesAt;
    assert GroupsKept(groups, done) && all + [] == all;
    forall i | 0 <= i < |chunks| ensures chunks[i].from < chunks[i].to { assert ChunkAt(file, all, chunks[i]); }
    FilteredStays(groups, done, all, [], chunks);
  }

  lemma LastEntry(file: Bytes, index: seq<Pair>, all: seq<Pair>, chunks: seq<Chunk>)
    requires Indexed(index, all, chunks) && |index| + 1 == |chunks| && Chunked(file, all, chunks, |all|)
    ensures |all| > 0
    ensures var c := chunks[|chunks| - 1];
            FullyIndexed(index + [Pair(InternalSuccessor(all[|all| - 1].key), HandleBytes(c.handle))], all, chunks)
  {
    hide InternalSuccessor, InternalSeparator, HandleBytes, EntriesAt;
    var n := |chunks| - 1;
    var c := chunks[n];
    assert ChunkAt(file, all, c) && c.to == |all|;
    var index' := index + [Pair(InternalSuccessor(all[|all| - 1].key), HandleBytes(c.handle))];
    forall i: nat | i < |chunks| ensures IndexEntry(index', all, chunks, i) {
      if i < n { assert IndexedAt(index, all, chunks, i); }
    }
  }

  lemma NoEntries(index: seq<Pair>, all: seq<Pair>, chunks: seq<Chunk>)
    requires |index| == |chunks| == 0
    ensures FullyIndexed(index, all, chunks)
  {
  }

  /** What has been written first is not touched by what is written behind it. */
  lemma TableIsWritten(f0: Bytes, f1: Bytes, f2: Bytes, f3: Bytes, all: seq<Pair>, t: TableShape)
    requires f0 <= f1 <= f2 <= f3 && AllInternal(all) && Ascending(InternalLess, all) &&
             Chunked(f0, all, t.chunks, |all|)
    requires t.filter.Some? ==> FilterBlockAt(f1, t.filter.value) && Filtered(t.filter.value.groups, all, t.chunks)
    requires t.meta == MetaEntries(t.filter) && EntriesAt(f2, t.footer.metaindex, t.meta, t.metaLayout)
    requires FullyIndexed(t.index, all, t.chunks) && EntriesAt(f3, t.footer.index, t.index, t.indexLayout)
    ensures IsTable(f3 + FooterBytes(t.footer), all, t)
  {
    hide AllInternal, Ascending, Chunked, FilterBlockAt, Filtered, EntriesAt, FullyIndexed, MetaEntries, FooterBytes;
    var footer := FooterBytes(t.footer);
    var file := f3 + footer;
    assert f0 + file[|f0|..] == file && f1 + file[|f1|..] == file && f2 + file[|f2|..] == file && all + [] == all;
    ChunksStay(f0, file[|f0|..], all, [], t.chunks, |all|);
    if t.filter.Some? { FilterStays(f1, file[|f1|..], t.filter.value); }
    EntriesStay(f2, file[|f2|..], t.footer.metaindex, t.meta, t.metaLayout);
    EntriesStay(f3, footer, t.footer.index, t.index, t.indexLayout);
  }

  lemma FilterStays(file: Bytes, more: Bytes, f: FilterShape)
    requires FilterBlockAt(file, f)
    ensures FilterBlockAt(file + more, f)
  {
    hide WrittenAt, IsFinishedFilter;
    var h := f.handle;
    assert (file + more)[h.offset..h.offset + h.size] == file[h.offset..h.offset + h.size];
    StillWritten(file, more, h, file[h.offset..h.offset + h.size]);
  }

  lemma BlockIsWritten(before: Bytes, raw: Bytes)
    ensures var file, h := before + (raw + Trailer(raw, NO_COMPRESSION)), BlockHandle(|before|, |raw|);
            h.offset + h.size + BLOCK_TRAILER_SIZE <= |file| && file[h.offset..h.offset + h.size] == raw &&
            WrittenAt(file, h, raw)
  {
    hide StoredChecksum;
  }

  lemma EmptyMeansNoEntries(b: BlockBuilder)
    requires b.Valid()
    ensures b.Empty() <==> |b.entries| == 0
  {
    hide Started, Spaced, Compressed, EntryAt;
    BlockIter.OffsetsAscend(b.buffer, b.entries, b.layout, 0, |b.entries|);
  }

  lemma ChunkIsAdded(before: Bytes, file: Bytes, all: seq<Pair>, chunks: seq<Chunk>, c: Chunk)
    requires Chunked(before, all, chunks, c.from) && before <= file && c.from < c.to == |all|
    requires EntriesAt(file, c.handle, all[c.from..], c.layout)
    ensures Chunked(file, all, chunks + [c], |all|)
  {
    hide EntriesAt, Chunked;
    assert before + file[|before|..] == file && all + [] == all && all[c.from..c.to] == all[c.from..];
    ChunksStay(before, file[|before|..], all, [], chunks, c.from);
    OneMoreChunk(file, all, chunks, c.from, c);
  }

  lemma ChunkIsFiltered(file: Bytes, groups: seq<seq<Bytes>>, groups': seq<seq<Bytes>>, all: seq<Pair>,
                        chunks: seq<Chunk>, c: Chunk, offset: nat)
    requires Filtered(groups, all, chunks) && Chunked(file, all, chunks, c.from) && groups <= groups'
    requires FilteredAt(groups, all, c.from, c.to, c.handle.offset) && c.from < c.to == |all| &&
             |groups'| == offset / FILTER_BASE + 1
    ensures Filtered(groups', all, chunks + [c]) && FilteredAt(groups', all, |all|, |all|, offset)
  {
    hide FilteredAt, EntriesAt;
    assert GroupsKept(groups, groups') && all + [] == all;
    forall i | 0 <= i < |chunks| ensures chunks[i].from < chunks[i].to { assert ChunkAt(file, all, chunks[i]); }
    FilteredStays(groups, groups', all, [], chunks);
    RangeStays(groups, groups', all, [], c.from, c.to, c.handle.offset);
    NothingToFilter(groups', all, offset);
  }

  lemma NothingToFilter(groups: seq<seq<Bytes>>, all: seq<Pair>, offset: nat)
    requires offset / FILTER_BASE < |groups|
    ensures FilteredAt(groups, all, |all|, |all|, offset)
  {
  }

  lemma ChunksKnowMore(file: Bytes, all: seq<Pair>, p: Pair, chunks: seq<Chunk>, end: nat)
    requires Chunked(file, all, chunks, end)
    ensures Chunked(file, all + [p], chunks, end)
  {
    hide Chunked;
    ChunksStay(file, [], all, [p], chunks, end);
    assert file + [] == file;
  }

  lemma TailMore(all: seq<Pair>, p: Pair, k: nat)
    requires k <= |all|
    ensures (all + [p])[k..] == all[k..] + [p]
  {
  }

  lemma KeysMore(all: seq<Pair>, p: Pair)
    requires AllInternal(all) && Ascending(InternalLess, all) && IsInternal(p.key)
    requires |all| > 0 ==> InternalLess(all[|all| - 1].key, p.key)
    ensures AllInternal(all + [p]) && Ascending(InternalLess, all + [p])
  {
    hide InternalLess, IsInternal;
    var n := |all|;
    forall i, j | 0 <= i < j < n + 1 ensures InternalLess((all + [p])[i].key, (all + [p])[j].key) {
      if j == n && i < n - 1 { InternalLessIsTransitive(all[i].key, all[n - 1].key, p.key); }
    }
  }

  lemma PendingEntry(file: Bytes, index: seq<Pair>, all: seq<Pair>, chunks: seq<Chunk>, p: Pair)
    requires Indexed(index, all + [p], chunks) && |index| + 1 == |chunks| && Chunked(file, all, chunks, |all|)
    ensures |all| > 0
    ensures var c := chunks[|chunks| - 1];
            var e := Pair(InternalSeparator(all[|all| - 1].key, p.key), HandleBytes(c.handle));
            Indexed(index + [e], all + [p], chunks)
  {
    hide InternalSeparator, HandleBytes, EntriesAt;
    var c := chunks[|chunks| - 1];
    assert ChunkAt(file, all, c) && c.to == |all|;
    var e := Pair(InternalSeparator(all[|all| - 1].key, p.key), HandleBytes(c.handle));
    OneMoreIndexEntry(index, all + [p], chunks, e);
  }

  lemma KeyIsFiltered(file: Bytes, groups: seq<seq<Bytes>>, groups': seq<seq<Bytes>>, all: seq<Pair>, p: Pair,
                      chunks: seq<Chunk>, from: nat, offset: nat)
    requires Filtered(groups, all, chunks) && FilteredAt(groups, all, from, |all|, offset) &&
             Chunked(file, all, chunks, from)
    requires |groups| > 0 && offset / FILTER_BASE == |groups| - 1
    requires groups' == groups[|groups| - 1 := groups[|groups| - 1] + [p.key]]
    ensures Filtered(groups', all + [p], chunks) && FilteredAt(groups', all + [p], from, |all| + 1, offset)
  {
    hide Filtered, EntriesAt;
    assert GroupsKept(groups, groups');
    forall i | 0 <= i < |chunks| ensures chunks[i].from < chunks[i].to { assert ChunkAt(file, all, chunks[i]); }
    FilteredStays(groups, groups', all, [p], chunks);
    var g := groups'[|groups| - 1];
    assert p.key == g[|g| - 1];
    forall m | from <= m < |all| + 1 ensures (all + [p])[m].key in g {
      if m < |all| { assert all[m].key in groups[|groups| - 1]; }
    }
  }
}
