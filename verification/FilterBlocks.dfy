/** The filter block of a table: one filter for the keys of all data blocks that start in the same two kilobytes
    (table/filter_block.cc, and InternalFilterPolicy of db/dbformat.cc). */
module FilterBlocks {
  import opened Varints
  import opened Coding
  import opened Comparators
  import opened Bloom
  import Block

  const FILTER_BASE_LG: nat := 11

  const FILTER_BASE: nat := 2048

  // ---------------------------------------------------------------- what a filter block holds

  /** Filters are about user keys. */
  function UserKeys(keys: seq<Bytes>): (r: seq<Bytes>)
    ensures |r| == |keys|
  {
    seq(|keys|, i requires 0 <= i < |keys| => ExtractUserKey(keys[i]))
  }

  /** No filter is written for no keys. */
  ghost predicate IsFilterOf(filter: Bytes, keys: seq<Bytes>, k: nat) {
    if |keys| == 0 then filter == [] else IsFilter(filter, UserKeys(keys), k)
  }

  ghost predicate FilterAt(filters: Bytes, ends: seq<nat>, groups: seq<seq<Bytes>>, k: nat, i: nat) {
    i < |groups| && i + 1 < |ends| && ends[i] <= ends[i + 1] <= |filters| &&
    IsFilterOf(filters[ends[i]..ends[i + 1]], groups[i], k)
  }

  /** The filters of all groups one after the other; ends says where each starts, and at last where the last
      one ends. */
  ghost predicate FiltersOf(filters: Bytes, ends: seq<nat>, groups: seq<seq<Bytes>>, k: nat) {
    |ends| == |groups| + 1 && ends[|groups|] == |filters| &&
    forall i: nat :: i < |groups| ==> FilterAt(filters, ends, groups, k, i)
  }

  /** The bytes of a finished filter block, of any size. */
  ghost predicate IsFinishedFilter(data: Bytes, ends: seq<nat>, groups: seq<seq<Bytes>>, k: nat) {
    |ends| == |groups| + 1 && ends[|groups|] <= |data| && FiltersOf(data[..ends[|groups|]], ends, groups, k) &&
    data[ends[|groups|]..] == Block.Words(ends) + [FILTER_BASE_LG]
  }

  /** One whose filters end within 32 bits; see OpensExactlyWhen. */
  ghost predicate IsFilterBlock(data: Bytes, ends: seq<nat>, groups: seq<seq<Bytes>>, k: nat) {
    IsFinishedFilter(data, ends, groups, k) && ends[|groups|] < TWO_TO_32
  }

  // ---------------------------------------------------------------- building

  /** Where key i ends in the flattened keys. */
  function EndOf(keys: Bytes, start: seq<nat>, i: nat): nat { if i + 1 < |start| then start[i + 1] else |keys| }

  ghost predicate KeyAt(keys: Bytes, start: seq<nat>, list: seq<Bytes>, i: nat) {
    i < |start| && i < |list| && start[i] <= EndOf(keys, start, i) <= |keys| &&
    keys[start[i]..EndOf(keys, start, i)] == list[i]
  }

  ghost predicate Flattened(keys: Bytes, start: seq<nat>, list: seq<Bytes>) {
    |start| == |list| && (|list| == 0 ==> keys == []) && forall i: nat :: i < |list| ==> KeyAt(keys, start, list, i)
  }

  class FilterBlockBuilder {
    const policy: BloomFilterPolicy
    var keys: Bytes
    var start: seq<nat>
    var result: Bytes
    var filterOffsets: seq<nat>
    ghost var done: seq<seq<Bytes>>
    ghost var pending: seq<Bytes>

    ghost predicate Valid()
      reads this
    {
      policy.Valid() && Flattened(keys, start, pending) && FiltersOf(result, filterOffsets + [|result|], done, policy.k)
    }

    /** The keys that have been added for data blocks of each two kilobytes so far. */
    ghost function Groups(): (g: seq<seq<Bytes>>)
      reads this
      ensures |g| == |done| + 1
    {
      done + [pending]
    }

    constructor (policy: BloomFilterPolicy)
      requires policy.Valid()
      ensures Valid() && this.policy == policy && Groups() == [[]]
    {
      this.policy := policy;
      keys, start, result, filterOffsets := [], [], [], [];
      done, pending := [], [];
    }

    /** Puts the keys that follow into the group of the block that starts at blockOffset; what has been added stays
        where it is. */
    method StartBlock(blockOffset: nat)
      requires Valid() && blockOffset / FILTER_BASE >= |done|
      modifies this
      ensures Valid() && |done| == blockOffset / FILTER_BASE && old(Groups()) <= Groups()
    {
      hide Flattened, FiltersOf, BloomFilterPolicy.Valid;
      OffsetsCount(result, filterOffsets, done, policy.k);
      var filterIndex := blockOffset / FILTER_BASE;
      while filterIndex > |filterOffsets|
        invariant Valid() && |filterOffsets| == |done| <= filterIndex && old(Groups()) <= Groups()
        decreases filterIndex - |filterOffsets|
      {
        GenerateFilter();
        OffsetsCount(result, filterOffsets, done, policy.k);
      }
    }

    method AddKey(key: Bytes)
      requires Valid()
      modifies this`keys, this`start, this`pending
      ensures Valid() && pending == old(pending) + [key] && done == old(done)
    {
      hide FiltersOf, BloomFilterPolicy.Valid, Flattened;
      FlattenMore(keys, start, pending, key);
      start := start + [|keys|];
      keys := keys + key;
      pending := pending + [key];
    }

    method GenerateFilter()
      requires Valid()
      modifies this
      ensures Valid() && done == old(done) + [old(pending)] && pending == [] &&
              |filterOffsets| == old(|filterOffsets|) + 1
    {
      hide IsFilter, FiltersOf, KeyAt;
      var numKeys := |start|;
      if numKeys == 0 {
        MoreFilters(result, filterOffsets, done, policy.k, [], []);
        assert result + [] == result && pending == [];
        filterOffsets := filterOffsets + [|result|];
        done := done + [[]];
        return;
      }
      var userKeys := UserKeysOf();
      filterOffsets := filterOffsets + [|result|];
      var r := policy.CreateFilter(userKeys, result);
      MoreFilters(result, old(filterOffsets), done, policy.k, pending, r[|result|..]);
      assert result + r[|result|..] == r;
      result := r;
      keys, start := [], [];
      done, pending := done + [pending], [];
    }

    /** The list of keys, made from their flattened form, and cut down to user keys. */
    method UserKeysOf() returns (r: seq<Bytes>)
      requires Valid()
      ensures r == UserKeys(pending)
    {
      hide FiltersOf, BloomFilterPolicy.Valid;
      var ends := start + [|keys|];
      r := [];
      for i := 0 to |start|
        invariant |r| == i && forall j :: 0 <= j < i ==> r[j] == ExtractUserKey(pending[j])
      {
        assert KeyAt(keys, start, pending, i);
        assert ends[i + 1] == EndOf(keys, start, i);
        r := r + [ExtractUserKey(keys[ends[i]..ends[i + 1]])];
      }
    }

    /** Appends where each filter starts, where the filters end, and the size of the groups. */
    method Finish() returns (contents: Bytes, ghost ends: seq<nat>)
      requires Valid()
      modifies this
      ensures IsFinishedFilter(contents, ends, done, policy.k)
      ensures done == old(done) + if |old(pending)| == 0 then [] else [old(pending)]
    {
      hide Flattened, FiltersOf, BloomFilterPolicy.Valid;
      NothingPending(keys, start, pending);
      if |start| > 0 { GenerateFilter(); }
      ghost var groups := done;
      OffsetsCount(result, filterOffsets, done, policy.k);
      var arrayOffset, filters := |result|, result;
      ends := filterOffsets + [arrayOffset];
      var i := 0;
      while i < |filterOffsets|
        invariant i <= |filterOffsets| && result == filters + Block.Words(filterOffsets[..i])
        invariant ends == filterOffsets + [arrayOffset] && done == groups
      {
        assert filterOffsets[..i + 1][..i] == filterOffsets[..i];
        result := result + Fixed32(filterOffsets[i]);
        i := i + 1;
      }
      assert filterOffsets[..i] == filterOffsets && ends[..|ends| - 1] == filterOffsets;
      result := result + Fixed32(arrayOffset);
      result := result + [FILTER_BASE_LG];
      contents := result;
      FiltersAndTail(filters, Block.Words(filterOffsets), Fixed32(arrayOffset), [FILTER_BASE_LG]);
    }
  }

  lemma FiltersAndTail(filters: Bytes, offsets: Bytes, count: Bytes, last: Bytes)
    ensures var r := filters + offsets + count + last;
            r[..|filters|] == filters && r[|filters|..] == (offsets + count) + last
  {
  }

  lemma OffsetsCount(filters: Bytes, offsets: seq<nat>, groups: seq<seq<Bytes>>, k: nat)
    requires FiltersOf(filters, offsets + [|filters|], groups, k)
    ensures |offsets| == |groups|
  {
  }

  lemma NothingPending(keys: Bytes, start: seq<nat>, list: seq<Bytes>)
    requires Flattened(keys, start, list)
    ensures |start| == |list|
  {
  }

  lemma FlattenMore(keys: Bytes, start: seq<nat>, list: seq<Bytes>, key: Bytes)
    requires Flattened(keys, start, list)
    ensures Flattened(keys + key, start + [|keys|], list + [key])
  {
    var keys', start', list' := keys + key, start + [|keys|], list + [key];
    forall i: nat | i < |list'| ensures KeyAt(keys', start', list', i) {
      if i < |list| {
        assert KeyAt(keys, start, list, i) && EndOf(keys', start', i) == EndOf(keys, start, i);
        assert keys'[start[i]..EndOf(keys, start, i)] == keys[start[i]..EndOf(keys, start, i)];
      }
    }
  }

  lemma MoreFilters(filters: Bytes, offsets: seq<nat>, groups: seq<seq<Bytes>>, k: nat, keys: seq<Bytes>, filter: Bytes)
    requires FiltersOf(filters, offsets + [|filters|], groups, k) && IsFilterOf(filter, keys, k)
    ensures var filters' := filters + filter;
            FiltersOf(filters', offsets + [|filters|] + [|filters'|], groups + [keys], k)
  {
    hide IsFilterOf;
    var filters', ends, ends' := filters + filter, offsets + [|filters|], offsets + [|filters|] + [|filters + filter|];
    forall i: nat | i < |groups| + 1 ensures FilterAt(filters', ends', groups + [keys], k, i) {
      if i < |groups| {
        assert FilterAt(filters, ends, groups, k, i);
        assert filters'[ends[i]..ends[i + 1]] == filters[ends[i]..ends[i + 1]];
      } else {
        assert filters'[|filters|..|filters'|] == filter;
      }
    }
  }

  // ---------------------------------------------------------------- reading

  /** Where the offsets start, how many there are, and the logarithm of the group size; contents that are too short or
      do not fit together have no offsets. */
  datatype Index = Index(offset: nat, num: nat, baseLg: nat)

  function IndexOf(contents: Bytes): (r: Index)
    ensures r.num > 0 ==> r.offset + 4 * r.num + 5 <= |contents|
  {
    var n := |contents|;
    if n < 5 then Index(0, 0, 0)
    else
      var lastWord := DecodeFixed32(contents[n - 5..n - 1]);
      if lastWord > n - 5 then Index(0, 0, contents[n - 1])
      else Index(lastWord, (n - 5 - lastWord) / 4, contents[n - 1])
  }

  /** Which group a block at blockOffset belongs to. */
  function GroupOf(blockOffset: nat, baseLg: nat): nat {
    Pow2Positive(baseLg);
    Quotient(blockOffset, Pow2(baseLg))
  }

  function Quotient(a: nat, b: nat): nat
    requires b > 0
  {
    a / b
  }

  lemma Pow2Positive(n: nat)
    ensures Pow2(n) > 0
  {
  }

  /** What the filter says whose bounds are at position at.  Errors count as matches. */
  ghost predicate FilterMayMatch(contents: Bytes, offset: nat, at: nat, key: Bytes)
    requires at + 8 <= |contents| && offset <= |contents|
  {
    var start, limit := DecodeFixed32(contents[at..at + 4]), DecodeFixed32(contents[at + 4..at + 8]);
    if start <= limit && limit <= offset then MayMatch(ExtractUserKey(key), contents[start..limit]) else start != limit
  }

  /** What a filter block says about a key of the data block at blockOffset. */
  ghost predicate BlockMayMatch(contents: Bytes, blockOffset: nat, key: Bytes) {
    var x := IndexOf(contents);
    var i := GroupOf(blockOffset, x.baseLg);
    i < x.num ==> FilterMayMatch(contents, x.offset, x.offset + 4 * i, key)
  }

  class FilterBlockReader {
    const policy: BloomFilterPolicy
    const data: Bytes
    const offset: nat
    const num: nat
    const baseLg: nat

    ghost predicate Valid() { IndexOf(data) == Index(offset, num, baseLg) }

    constructor (policy: BloomFilterPolicy, contents: Bytes)
      ensures Valid() && this.policy == policy && data == contents
    {
      var x := IndexOf(contents);
      this.policy, data := policy, contents;
      offset, num, baseLg := x.offset, x.num, x.baseLg;
    }

    method KeyMayMatch(blockOffset: nat, key: Bytes) returns (r: bool)
      requires Valid()
      ensures r == BlockMayMatch(data, blockOffset, key)
    {
      hide MayMatch, DecodeFixed32, IndexOf, GroupOf;
      var index := GroupOf(blockOffset, baseLg);
      if index < num {
        var at := offset + 4 * index;
        var start, limit := DecodeFixed32(data[at..at + 4]), DecodeFixed32(data[at + 4..at + 8]);
        if start <= limit && limit <= offset {
          r := policy.KeyMayMatch(ExtractUserKey(key), data[start..limit]);
          return;
        } else if start == limit {
          return false;
        }
      }
      return true;
    }
  }

  /** The block is opened as it was built. */
  lemma IndexIsReadBack(data: Bytes, ends: seq<nat>, groups: seq<seq<Bytes>>, k: nat)
    requires IsFilterBlock(data, ends, groups, k)
    ensures IndexOf(data) == Index(ends[|groups|], |groups|, FILTER_BASE_LG)
  {
    hide FiltersOf;
    var n, tail := |data|, data[ends[|groups|]..];
    assert data[n - 5..n - 1] == tail[|tail| - 5..|tail| - 1] == Fixed32(ends[|groups|]);
    assert data[n - 1] == tail[|tail| - 1];
    Fixed32IsReadBack(ends[|groups|]);
  }

  lemma EndIsReadBack(data: Bytes, ends: seq<nat>, groups: seq<seq<Bytes>>, k: nat, i: nat)
    requires IsFilterBlock(data, ends, groups, k) && i <= |groups|
    ensures var at := ends[|groups|] + 4 * i;
            at + 4 <= |data| && DecodeFixed32(data[at..at + 4]) == ends[i] <= ends[|groups|]
  {
    hide FiltersOf;
    var p, tail := ends[|groups|], data[ends[|groups|]..];
    Block.WordAt(ends, i);
    assert data[p + 4 * i..p + 4 * i + 4] == tail[4 * i..4 * i + 4] == Block.Words(ends)[4 * i..4 * i + 4];
    EndsAscend(data[..p], ends, groups, k, i);
    Fixed32IsReadBack(ends[i]);
  }

  /** A reader finds where the filters end and where each of them starts. */
  ghost predicate Opens(data: Bytes, ends: seq<nat>, groups: seq<seq<Bytes>>) {
    |ends| == |groups| + 1 && IndexOf(data) == Index(ends[|groups|], |groups|, FILTER_BASE_LG) &&
    forall i: nat :: i <= |groups| ==> EndFound(data, ends, i)
  }

  ghost predicate EndFound(data: Bytes, ends: seq<nat>, i: nat) {
    |ends| > 0 && i < |ends| && var at := ends[|ends| - 1] + 4 * i;
    at + 4 <= |data| && DecodeFixed32(data[at..at + 4]) == ends[i]
  }

  /** A finished filter block opens right if and only if its filters end within 32 bits. */
  lemma OpensExactlyWhen(data: Bytes, ends: seq<nat>, groups: seq<seq<Bytes>>, k: nat)
    requires IsFinishedFilter(data, ends, groups, k)
    ensures Opens(data, ends, groups) <==> ends[|groups|] < TWO_TO_32
  {
    hide FiltersOf;
    if ends[|groups|] < TWO_TO_32 {
      hide IsFinishedFilter;
      IndexIsReadBack(data, ends, groups, k);
      forall i: nat | i <= |groups| ensures EndFound(data, ends, i) { EndIsReadBack(data, ends, groups, k, i); }
    } else {
      IndexIsShort(data);
    }
  }

  /** The reader has read 32 bits. */
  lemma IndexIsShort(data: Bytes)
    ensures IndexOf(data).offset < TWO_TO_32
  {
    hide DecodeFixed32;
    if |data| >= 5 { WordIsShort(data[|data| - 5..|data| - 1]); }
  }

  lemma WordIsShort(s: Bytes)
    requires |s| == 4
    ensures DecodeFixed32(s) < TWO_TO_32
  {
    assert FromLittle(s[1..]) == s[1] + 256 * FromLittle(s[2..]);
    assert FromLittle(s[2..]) == s[2] + 256 * FromLittle(s[3..]);
    assert FromLittle(s[3..]) == s[3] + 256 * FromLittle(s[4..]);
  }

  lemma {:induction false} EndsAscend(filters: Bytes, ends: seq<nat>, groups: seq<seq<Bytes>>, k: nat, i: nat)
    requires FiltersOf(filters, ends, groups, k) && i <= |groups|
    ensures ends[i] <= |filters|
    decreases |groups| - i
  {
    if i == |groups| {
    } else {
      assert FilterAt(filters, ends, groups, k, i);
    }
  }

  /** A filter block never rejects a key of the data block that it was added for. */
  lemma AddedKeysMatch(data: Bytes, ends: seq<nat>, groups: seq<seq<Bytes>>, k: nat, blockOffset: nat, key: Bytes)
    requires IsFilterBlock(data, ends, groups, k) && k <= 30
    requires blockOffset / FILTER_BASE < |groups| && key in groups[blockOffset / FILTER_BASE]
    ensures BlockMayMatch(data, blockOffset, key)
  {
    hide IndexOf, MayMatch, IsFilter, DecodeFixed32, FiltersOf, Pow2, GroupOf;
    var i := blockOffset / FILTER_BASE;
    IndexIsReadBack(data, ends, groups, k);
    assert GroupOf(blockOffset, FILTER_BASE_LG) == i by { BaseIsPower(); }
    EndIsReadBack(data, ends, groups, k, i);
    EndIsReadBack(data, ends, groups, k, i + 1);
    GroupFilter(data[..ends[|groups|]], ends, groups, k, i);
    assert data[..ends[|groups|]][ends[i]..ends[i + 1]] == data[ends[i]..ends[i + 1]];
    var m :| 0 <= m < |groups[i]| && groups[i][m] == key;
    assert UserKeys(groups[i])[m] == ExtractUserKey(key);
    StoredKeysMatch(data[ends[i]..ends[i + 1]], UserKeys(groups[i]), k, ExtractUserKey(key));
  }

  lemma BaseIsPower()
    ensures Pow2(FILTER_BASE_LG) == FILTER_BASE && forall o: nat :: GroupOf(o, FILTER_BASE_LG) == o / FILTER_BASE
  {
    assert Pow2(8) == 256;
  }

  lemma GroupFilter(filters: Bytes, ends: seq<nat>, groups: seq<seq<Bytes>>, k: nat, i: nat)
    requires FiltersOf(filters, ends, groups, k) && i < |groups| && |groups[i]| > 0
    ensures ends[i] <= ends[i + 1] <= |filters| && IsFilter(filters[ends[i]..ends[i + 1]], UserKeys(groups[i]), k)
  {
    assert FilterAt(filters, ends, groups, k, i);
  }
}
