/** The records of the manifest (db/version_edit.cc). */
module VersionEdits {
  import opened InternalKeys
  import opened Varints
  import opened Coding

  const NUM_LEVELS: nat := 7

  datatype Meta = Meta(number: nat, size: nat, smallest: Bytes, largest: Bytes)

  /** Deleted files are kept in a set, which is walked in ascending order. */
  datatype VersionEdit = VersionEdit(
    comparator: Option<Bytes>,
    logNumber: Option<nat>,
    prevLogNumber: Option<nat>,
    nextFile: Option<nat>,
    lastSequence: Option<nat>,
    compactPointers: seq<(nat, Bytes)>,
    deleted: seq<(nat, nat)>,
    newFiles: seq<(nat, Meta)>)

  const EMPTY: VersionEdit := VersionEdit(None, None, None, None, None, [], [], [])

  // ---------------------------------------------------------------- one tagged item

  datatype Item =
    | Comparator(name: Bytes)
    | LogNumber(n: nat)
    | PrevLogNumber(n: nat)
    | NextFileNumber(n: nat)
    | LastSequence(n: nat)
    | CompactPointer(level: nat, key: Bytes)
    | DeletedFile(level: nat, n: nat)
    | NewFile(level: nat, meta: Meta)

  function TagOf(item: Item): nat {
    match item
    case Comparator(_) => 1
    case LogNumber(_) => 2
    case NextFileNumber(_) => 3
    case LastSequence(_) => 4
    case CompactPointer(_, _) => 5
    case DeletedFile(_, _) => 6
    case NewFile(_, _) => 7
    case PrevLogNumber(_) => 9
  }

  function Payload(item: Item): Bytes {
    match item
    case Comparator(name) => LengthPrefixed(name)
    case LogNumber(n) => Varint(n)
    case PrevLogNumber(n) => Varint(n)
    case NextFileNumber(n) => Varint(n)
    case LastSequence(n) => Varint(n)
    case CompactPointer(level, key) => Varint(level) + LengthPrefixed(key)
    case DeletedFile(level, n) => Varint(level) + Varint(n)
    case NewFile(level, f) =>
      Varint(level) + (Varint(f.number) + (Varint(f.size) + (LengthPrefixed(f.smallest) + LengthPrefixed(f.largest))))
  }

  function ItemBytes(item: Item): (r: Bytes)
    ensures |r| > 0
  {
    Varint(TagOf(item)) + Payload(item)
  }

  function GetLevel(s: Bytes): (r: Option<(nat, Bytes)>)
    ensures r.Some? ==> |r.value.1| < |s|
  {
    var v := GetVarint32(s);
    if v.None? || v.value.0 >= NUM_LEVELS then None else v
  }

  function GetNewFile(level: nat, s: Bytes): (r: Option<(Item, Bytes)>)
    ensures r.Some? ==> |r.value.1| < |s|
  {
    var number := GetVarint64(s);
    if number.None? then None
    else
      var size := GetVarint64(number.value.1);
      if size.None? then None
      else
        var smallest := GetLengthPrefixed(size.value.1);
        if smallest.None? then None
        else
          var largest := GetLengthPrefixed(smallest.value.1);
          if largest.None? then None
          else Some((NewFile(level, Meta(number.value.0, size.value.0, smallest.value.0, largest.value.0)),
            largest.value.1))
  }

  /** The items that are one number. */
  function NumberItem(tag: nat, n: nat): (item: Item)
    ensures tag in {2, 3, 4, 9} ==> TagOf(item) == tag && item.n == n && Payload(item) == Varint(n)
  {
    if tag == 2 then LogNumber(n)
    else if tag == 9 then PrevLogNumber(n)
    else if tag == 3 then NextFileNumber(n)
    else LastSequence(n)
  }

  function GetNumber(tag: nat, s: Bytes): (r: Option<(Item, Bytes)>)
    ensures r.Some? ==> |r.value.1| < |s|
  {
    var n := GetVarint64(s);
    if n.None? then None else Some((NumberItem(tag, n.value.0), n.value.1))
  }

  function GetDeletedFile(level: nat, s: Bytes): (r: Option<(Item, Bytes)>)
    ensures r.Some? ==> |r.value.1| < |s|
  {
    var n := GetVarint64(s);
    if n.None? then None else Some((DeletedFile(level, n.value.0), n.value.1))
  }

  /** What follows a tag. */
  function GetPayload(tag: nat, s: Bytes): (r: Option<(Item, Bytes)>)
    ensures r.Some? ==> |r.value.1| < |s|
  {
    if tag == 1 then
      var name := GetLengthPrefixed(s);
      if name.None? then None else Some((Comparator(name.value.0), name.value.1))
    else if tag == 2 || tag == 3 || tag == 4 || tag == 9 then GetNumber(tag, s)
    else if tag == 5 || tag == 6 || tag == 7 then
      var level := GetLevel(s);
      if level.None? then None
      else if tag == 6 then GetDeletedFile(level.value.0, level.value.1)
      else if tag == 7 then GetNewFile(level.value.0, level.value.1)
      else
        var key := GetLengthPrefixed(level.value.1);
        if key.None? then None else Some((CompactPointer(level.value.0, key.value.0), key.value.1))
    else None
  }

  /** Numbers fit into 64 bits, strings have 32-bit lengths, and levels exist. */
  predicate Fits(item: Item) {
    match item
    case Comparator(name) => |name| < TWO_TO_32
    case CompactPointer(level, key) => level < NUM_LEVELS && |key| < TWO_TO_32
    case DeletedFile(level, n) => level < NUM_LEVELS && n < TWO_TO_64
    case NewFile(level, f) =>
      level < NUM_LEVELS && f.number < TWO_TO_64 && f.size < TWO_TO_64 && |f.smallest| < TWO_TO_32 &&
      |f.largest| < TWO_TO_32
    case _ => item.n < TWO_TO_64
  }

  lemma NumberIsReadBack(tag: nat, n: nat, rest: Bytes)
    requires n < TWO_TO_64
    ensures GetNumber(tag, Varint(n) + rest) == Some((NumberItem(tag, n), rest))
  {
    Varint64IsReadBack(n, rest);
  }

  lemma DeletedIsReadBack(level: nat, n: nat, rest: Bytes)
    requires n < TWO_TO_64
    ensures GetDeletedFile(level, Varint(n) + rest) == Some((DeletedFile(level, n), rest))
  {
    Varint64IsReadBack(n, rest);
  }

  lemma LevelIsReadBack(level: nat, rest: Bytes)
    requires level < NUM_LEVELS
    ensures GetLevel(Varint(level) + rest) == Some((level, rest))
  {
    Varint32IsReadBack(level, rest);
  }

  lemma NewFileIsReadBack(level: nat, f: Meta, rest: Bytes)
    requires Fits(NewFile(level, f))
    ensures GetNewFile(level, Varint(f.number) +
            (Varint(f.size) + (LengthPrefixed(f.smallest) + LengthPrefixed(f.largest))) + rest)
         == Some((NewFile(level, f), rest))
  {
    hide GetVarint64, Varint, LengthPrefixed, GetLengthPrefixed;
    var s3 := LengthPrefixed(f.largest) + rest;
    var s2 := LengthPrefixed(f.smallest) + s3;
    var s1 := Varint(f.size) + s2;
    assert Varint(f.number) + (Varint(f.size) + (LengthPrefixed(f.smallest) + LengthPrefixed(f.largest))) + rest
        == Varint(f.number) + s1;
    Varint64IsReadBack(f.number, s1);
    Varint64IsReadBack(f.size, s2);
    StringIsReadBack(f.smallest, s3);
    StringIsReadBack(f.largest, rest);
  }

  lemma PayloadIsReadBack(item: Item, rest: Bytes)
    requires Fits(item)
    ensures GetPayload(TagOf(item), Payload(item) + rest) == Some((item, rest))
  {
    hide GetVarint64, Varint, LengthPrefixed, GetLengthPrefixed, GetLevel, GetNewFile, GetNumber, GetDeletedFile;
    match item
    case Comparator(name) => StringIsReadBack(name, rest);
    case LogNumber(n) => NumberIsReadBack(2, n, rest);
    case PrevLogNumber(n) => NumberIsReadBack(9, n, rest);
    case NextFileNumber(n) => NumberIsReadBack(3, n, rest);
    case LastSequence(n) => NumberIsReadBack(4, n, rest);
    case CompactPointer(level, key) =>
      assert Payload(item) + rest == Varint(level) + (LengthPrefixed(key) + rest);
      LevelIsReadBack(level, LengthPrefixed(key) + rest);
      StringIsReadBack(key, rest);
    case DeletedFile(level, n) =>
      assert Payload(item) + rest == Varint(level) + (Varint(n) + rest);
      LevelIsReadBack(level, Varint(n) + rest);
      DeletedIsReadBack(level, n, rest);
    case NewFile(level, f) =>
      var more := Varint(f.number) + (Varint(f.size) + (LengthPrefixed(f.smallest) + LengthPrefixed(f.largest)));
      assert Payload(item) + rest == Varint(level) + (more + rest);
      LevelIsReadBack(level, more + rest);
      NewFileIsReadBack(level, f, rest);
  }

  // ---------------------------------------------------------------- building an edit from its items

  predicate Less(a: (nat, nat), b: (nat, nat)) { a.0 < b.0 || (a.0 == b.0 && a.1 < b.1) }

  function InsertDeleted(s: seq<(nat, nat)>, p: (nat, nat)): seq<(nat, nat)> {
    if |s| == 0 then [p]
    else if Less(p, s[0]) then [p] + s
    else if s[0] == p then s
    else [s[0]] + InsertDeleted(s[1..], p)
  }

  function With(e: VersionEdit, item: Item): VersionEdit {
    match item
    case Comparator(name) => e.(comparator := Some(name))
    case LogNumber(n) => e.(logNumber := Some(n))
    case PrevLogNumber(n) => e.(prevLogNumber := Some(n))
    case NextFileNumber(n) => e.(nextFile := Some(n))
    case LastSequence(n) => e.(lastSequence := Some(n))
    case CompactPointer(level, key) => e.(compactPointers := e.compactPointers + [(level, key)])
    case DeletedFile(level, n) => e.(deleted := InsertDeleted(e.deleted, (level, n)))
    case NewFile(level, f) => e.(newFiles := e.newFiles + [(level, f)])
  }

  function WithAll(e: VersionEdit, items: seq<Item>): VersionEdit
    decreases |items|
  {
    if |items| == 0 then e else WithAll(With(e, items[0]), items[1..])
  }

  /** DecodeFrom into a fresh object. */
  function Decoded(s: Bytes, e: VersionEdit): Option<VersionEdit>
    decreases |s|
  {
    var tag := GetVarint32(s);
    if tag.None? then if |s| == 0 then Some(e) else None
    else
      var item := GetPayload(tag.value.0, tag.value.1);
      if item.None? then None else Decoded(item.value.1, With(e, item.value.0))
  }

  method DecodeFrom(src: Bytes) returns (r: Option<VersionEdit>)
    ensures r == Decoded(src, EMPTY)
  {
    hide GetVarint32, GetPayload, With;
    var input, e := src, EMPTY;
    while true
      invariant Decoded(input, e) == Decoded(src, EMPTY)
      decreases |input|
    {
      var tag := GetVarint32Ptr(input);
      if tag.None? { return if |input| == 0 then Some(e) else None; }
      var item := GetPayload(tag.value.0, tag.value.1);
      if item.None? { return None; }
      input, e := item.value.1, With(e, item.value.0);
    }
  }

  function ItemsBytes(items: seq<Item>): Bytes {
    if |items| == 0 then [] else ItemBytes(items[0]) + ItemsBytes(items[1..])
  }

  lemma {:induction false} ItemsJoin(items: seq<Item>, more: seq<Item>)
    ensures ItemsBytes(items + more) == ItemsBytes(items) + ItemsBytes(more)
  {
    if |items| == 0 {
      assert items + more == more;
    } else {
      assert (items + more)[1..] == items[1..] + more;
      ItemsJoin(items[1..], more);
    }
  }

  lemma NoItems()
    ensures ItemsBytes([]) == []
  {
  }

  lemma ItemIsReadBack(item: Item, rest: Bytes, e: VersionEdit)
    requires Fits(item)
    ensures Decoded(ItemBytes(item) + rest, e) == Decoded(rest, With(e, item))
  {
    hide Varint, Payload, GetPayload, GetVarint32, With, Fits;
    assert ItemBytes(item) + rest == Varint(TagOf(item)) + (Payload(item) + rest);
    Varint32IsReadBack(TagOf(item), Payload(item) + rest);
    PayloadIsReadBack(item, rest);
  }

  lemma {:induction false} ItemsAreReadBack(items: seq<Item>, e: VersionEdit)
    requires forall item :: item in items ==> Fits(item)
    ensures Decoded(ItemsBytes(items), e) == Some(WithAll(e, items))
    decreases |items|
  {
    hide ItemBytes, With, Fits, Decoded;
    if |items| == 0 {
      NothingDecoded(e);
    } else {
      ItemIsReadBack(items[0], ItemsBytes(items[1..]), e);
      ItemsAreReadBack(items[1..], With(e, items[0]));
    }
  }

  lemma NothingDecoded(e: VersionEdit)
    ensures Decoded([], e) == Some(e)
  {
  }

  // ---------------------------------------------------------------- writing an edit

  function CompactPointers(ps: seq<(nat, Bytes)>): seq<Item> {
    if |ps| == 0 then [] else CompactPointers(ps[..|ps| - 1]) + [CompactPointer(ps[|ps| - 1].0, ps[|ps| - 1].1)]
  }

  function DeletedFiles(ps: seq<(nat, nat)>): seq<Item> {
    if |ps| == 0 then [] else DeletedFiles(ps[..|ps| - 1]) + [DeletedFile(ps[|ps| - 1].0, ps[|ps| - 1].1)]
  }

  function NewFiles(fs: seq<(nat, Meta)>): seq<Item> {
    if |fs| == 0 then [] else NewFiles(fs[..|fs| - 1]) + [NewFile(fs[|fs| - 1].0, fs[|fs| - 1].1)]
  }

  function Named(name: Option<Bytes>): seq<Item> { if name.Some? then [Comparator(name.value)] else [] }

  function Numbered(n: Option<nat>, tag: nat): seq<Item> { if n.Some? then [NumberItem(tag, n.value)] else [] }

  /** The fields that are there at most once. */
  function Fields(e: VersionEdit): seq<Item> {
    Named(e.comparator) + Numbered(e.logNumber, 2) + Numbered(e.prevLogNumber, 9) + Numbered(e.nextFile, 3)
    + Numbered(e.lastSequence, 4)
  }

  /** The items of an edit, in the order in which they are written. */
  function Items(e: VersionEdit): seq<Item> {
    Fields(e) + CompactPointers(e.compactPointers) + DeletedFiles(e.deleted) + NewFiles(e.newFiles)
  }

  function EditBytes(e: VersionEdit): Bytes { ItemsBytes(Items(e)) }

  predicate EditFits(e: VersionEdit) {
    (forall item :: item in Items(e) ==> Fits(item)) &&
    forall i, j :: 0 <= i < j < |e.deleted| ==> Less(e.deleted[i], e.deleted[j])
  }

  lemma {:induction false} WithAllJoins(e: VersionEdit, items: seq<Item>, more: seq<Item>)
    ensures WithAll(e, items + more) == WithAll(WithAll(e, items), more)
    decreases |items|
  {
    hide With;
    if |items| == 0 {
      assert items + more == more;
    } else {
      assert (items + more)[1..] == items[1..] + more;
      WithAllJoins(With(e, items[0]), items[1..], more);
    }
  }

  lemma WithLast(e: VersionEdit, items: seq<Item>, last: Item)
    ensures WithAll(e, items + [last]) == With(WithAll(e, items), last)
  {
    hide With;
    WithAllJoins(e, items, [last]);
    assert [last][1..] == [];
  }

  lemma {:induction false} WithCompactPointers(e: VersionEdit, ps: seq<(nat, Bytes)>)
    ensures WithAll(e, CompactPointers(ps)) == e.(compactPointers := e.compactPointers + ps)
  {
    if |ps| == 0 {
      assert e.compactPointers + ps == e.compactPointers;
    } else {
      var n := |ps| - 1;
      WithCompactPointers(e, ps[..n]);
      WithLast(e, CompactPointers(ps[..n]), CompactPointer(ps[n].0, ps[n].1));
      assert (e.compactPointers + ps[..n]) + [ps[n]] == e.compactPointers + ps;
    }
  }

  lemma {:induction false} WithNewFiles(e: VersionEdit, fs: seq<(nat, Meta)>)
    ensures WithAll(e, NewFiles(fs)) == e.(newFiles := e.newFiles + fs)
  {
    if |fs| == 0 {
      assert e.newFiles + fs == e.newFiles;
    } else {
      var n := |fs| - 1;
      WithNewFiles(e, fs[..n]);
      WithLast(e, NewFiles(fs[..n]), NewFile(fs[n].0, fs[n].1));
      assert (e.newFiles + fs[..n]) + [fs[n]] == e.newFiles + fs;
    }
  }

  lemma {:induction false} InsertGreatest(s: seq<(nat, nat)>, p: (nat, nat))
    requires forall q :: q in s ==> Less(q, p)
    ensures InsertDeleted(s, p) == s + [p]
  {
    if |s| == 0 {
    } else {
      assert Less(s[0], p);
      forall q | q in s[1..] ensures Less(q, p) { assert q in s; }
      InsertGreatest(s[1..], p);
    }
  }

  lemma {:induction false} WithDeletedFiles(e: VersionEdit, ps: seq<(nat, nat)>)
    requires e.deleted == [] && forall i, j :: 0 <= i < j < |ps| ==> Less(ps[i], ps[j])
    ensures WithAll(e, DeletedFiles(ps)) == e.(deleted := ps)
  {
    if |ps| == 0 {
    } else {
      var n := |ps| - 1;
      WithDeletedFiles(e, ps[..n]);
      WithLast(e, DeletedFiles(ps[..n]), DeletedFile(ps[n].0, ps[n].1));
      InsertGreatest(ps[..n], ps[n]);
      assert ps[..n] + [ps[n]] == ps;
    }
  }

  lemma WithFields(e: VersionEdit)
    ensures WithAll(EMPTY, Fields(e)) == e.(compactPointers := [], deleted := [], newFiles := [])
  {
    var a := Named(e.comparator);
    var b := Numbered(e.logNumber, 2);
    var c := Numbered(e.prevLogNumber, 9);
    var d := Numbered(e.nextFile, 3);
    var f := Numbered(e.lastSequence, 4);
    WithAllJoins(EMPTY, a + b + c + d, f);
    WithAllJoins(EMPTY, a + b + c, d);
    WithAllJoins(EMPTY, a + b, c);
    WithAllJoins(EMPTY, a, b);
    var e1 := EMPTY.(comparator := e.comparator);
    assert WithAll(EMPTY, a) == e1;
    var e2 := e1.(logNumber := e.logNumber);
    assert WithAll(e1, b) == e2;
    var e3 := e2.(prevLogNumber := e.prevLogNumber);
    assert WithAll(e2, c) == e3;
    var e4 := e3.(nextFile := e.nextFile);
    assert WithAll(e3, d) == e4;
    assert WithAll(e4, f) == e4.(lastSequence := e.lastSequence);
  }

  /** Decoding what was encoded, into a fresh object, gives the same edit. */
  lemma EditIsReadBack(e: VersionEdit)
    requires EditFits(e)
    ensures Decoded(EditBytes(e), EMPTY) == Some(e)
  {
    hide Fits, Fields, With, WithAll, CompactPointers, DeletedFiles, NewFiles, ItemsBytes, Decoded;
    ItemsAreReadBack(Items(e), EMPTY);
    WithAllJoins(EMPTY, Fields(e) + CompactPointers(e.compactPointers) + DeletedFiles(e.deleted), NewFiles(e.newFiles));
    WithAllJoins(EMPTY, Fields(e) + CompactPointers(e.compactPointers), DeletedFiles(e.deleted));
    WithAllJoins(EMPTY, Fields(e), CompactPointers(e.compactPointers));
    WithFields(e);
    var e1 := e.(compactPointers := [], deleted := [], newFiles := []);
    WithCompactPointers(e1, e.compactPointers);
    assert [] + e.compactPointers == e.compactPointers && [] + e.newFiles == e.newFiles;
    var e2 := e1.(compactPointers := e.compactPointers);
    WithDeletedFiles(e2, e.deleted);
    WithNewFiles(e2.(deleted := e.deleted), e.newFiles);
  }

  lemma AddItem(dst: Bytes, items: seq<Item>, item: Item)
    requires dst == ItemsBytes(items)
    ensures dst + Varint(TagOf(item)) + Payload(item) == ItemsBytes(items + [item])
  {
    hide Varint, Payload;
    ItemsJoin(items, [item]);
    assert [item][1..] == [];
    assert ItemsBytes([item]) == ItemBytes(item) + ItemsBytes([]);
  }

  /** One tagged item. */
  method PutItem(dst: Bytes, item: Item, ghost items: seq<Item>) returns (r: Bytes)
    requires dst == ItemsBytes(items) && Fits(item)
    ensures r == ItemsBytes(items + [item])
  {
    hide Varint, LengthPrefixed;
    AddItem(dst, items, item);
    var tag := EncodeVarint32(TagOf(item));
    r := dst + tag;
    match item {
      case Comparator(name) => r := r + LengthPrefixed(name);
      case CompactPointer(level, key) =>
        var l := EncodeVarint32(level);
        r := r + (l + LengthPrefixed(key));
      case DeletedFile(level, n) =>
        var l := EncodeVarint32(level);
        var number := EncodeVarint64(n);
        r := r + (l + number);
      case NewFile(level, f) =>
        var l := EncodeVarint32(level);
        var number := EncodeVarint64(f.number);
        var size := EncodeVarint64(f.size);
        r := r + (l + (number + (size + (LengthPrefixed(f.smallest) + LengthPrefixed(f.largest)))));
      case _ =>
        var number := EncodeVarint64(item.n);
        r := r + number;
    }
  }

  method PutPointers(dst: Bytes, ps: seq<(nat, Bytes)>, ghost items: seq<Item>) returns (r: Bytes)
    requires dst == ItemsBytes(items) && forall item :: item in CompactPointers(ps) ==> Fits(item)
    ensures r == ItemsBytes(items + CompactPointers(ps))
  {
    hide ItemsBytes, Fits;
    r := dst;
    assert items + CompactPointers([]) == items;
    var i := 0;
    while i < |ps|
      invariant i <= |ps| && r == ItemsBytes(items + CompactPointers(ps[..i]))
    {
      assert ps[..i + 1][..i] == ps[..i];
      assert (items + CompactPointers(ps[..i])) + [CompactPointer(ps[i].0, ps[i].1)] ==
             items + CompactPointers(ps[..i + 1]);
      CompactPointersPart(ps, i);
      r := PutItem(r, CompactPointer(ps[i].0, ps[i].1), items + CompactPointers(ps[..i]));
      i := i + 1;
    }
    assert ps[..i] == ps;
  }

  lemma {:induction false} CompactPointersPart(ps: seq<(nat, Bytes)>, i: nat)
    requires i < |ps|
    ensures CompactPointer(ps[i].0, ps[i].1) in CompactPointers(ps)
  {
    if i == |ps| - 1 {
    } else {
      CompactPointersPart(ps[..|ps| - 1], i);
    }
  }

  method PutDeleted(dst: Bytes, ps: seq<(nat, nat)>, ghost items: seq<Item>) returns (r: Bytes)
    requires dst == ItemsBytes(items) && forall item :: item in DeletedFiles(ps) ==> Fits(item)
    ensures r == ItemsBytes(items + DeletedFiles(ps))
  {
    hide ItemsBytes, Fits;
    r := dst;
    assert items + DeletedFiles([]) == items;
    var i := 0;
    while i < |ps|
      invariant i <= |ps| && r == ItemsBytes(items + DeletedFiles(ps[..i]))
    {
      assert ps[..i + 1][..i] == ps[..i];
      assert (items + DeletedFiles(ps[..i])) + [DeletedFile(ps[i].0, ps[i].1)] == items + DeletedFiles(ps[..i + 1]);
      DeletedFilesPart(ps, i);
      r := PutItem(r, DeletedFile(ps[i].0, ps[i].1), items + DeletedFiles(ps[..i]));
      i := i + 1;
    }
    assert ps[..i] == ps;
  }

  lemma {:induction false} DeletedFilesPart(ps: seq<(nat, nat)>, i: nat)
    requires i < |ps|
    ensures DeletedFile(ps[i].0, ps[i].1) in DeletedFiles(ps)
  {
    if i == |ps| - 1 {
    } else {
      DeletedFilesPart(ps[..|ps| - 1], i);
    }
  }

  method PutNewFiles(dst: Bytes, ps: seq<(nat, Meta)>, ghost items: seq<Item>) returns (r: Bytes)
    requires dst == ItemsBytes(items) && forall item :: item in NewFiles(ps) ==> Fits(item)
    ensures r == ItemsBytes(items + NewFiles(ps))
  {
    hide ItemsBytes, Fits;
    r := dst;
    assert items + NewFiles([]) == items;
    var i := 0;
    while i < |ps|
      invariant i <= |ps| && r == ItemsBytes(items + NewFiles(ps[..i]))
    {
      assert ps[..i + 1][..i] == ps[..i];
      assert (items + NewFiles(ps[..i])) + [NewFile(ps[i].0, ps[i].1)] == items + NewFiles(ps[..i + 1]);
      NewFilesPart(ps, i);
      r := PutItem(r, NewFile(ps[i].0, ps[i].1), items + NewFiles(ps[..i]));
      i := i + 1;
    }
    assert ps[..i] == ps;
  }

  lemma {:induction false} NewFilesPart(ps: seq<(nat, Meta)>, i: nat)
    requires i < |ps|
    ensures NewFile(ps[i].0, ps[i].1) in NewFiles(ps)
  {
    if i == |ps| - 1 {
    } else {
      NewFilesPart(ps[..|ps| - 1], i);
    }
  }

  method PutNumber(dst: Bytes, n: Option<nat>, tag: nat, ghost items: seq<Item>) returns (r: Bytes)
    requires dst == ItemsBytes(items) && (n.Some? ==> Fits(NumberItem(tag, n.value)))
    ensures r == ItemsBytes(items + Numbered(n, tag))
  {
    hide ItemsBytes, Fits;
    r := dst;
    assert items + [] == items;
    if n.Some? { r := PutItem(r, NumberItem(tag, n.value), items); }
  }

  lemma PartsFit(e: VersionEdit)
    requires EditFits(e)
    ensures e.comparator.Some? ==> Fits(Comparator(e.comparator.value))
    ensures e.logNumber.Some? ==> Fits(NumberItem(2, e.logNumber.value))
    ensures e.prevLogNumber.Some? ==> Fits(NumberItem(9, e.prevLogNumber.value))
    ensures e.nextFile.Some? ==> Fits(NumberItem(3, e.nextFile.value))
    ensures e.lastSequence.Some? ==> Fits(NumberItem(4, e.lastSequence.value))
    ensures forall item :: item in CompactPointers(e.compactPointers) ==> Fits(item)
    ensures forall item :: item in DeletedFiles(e.deleted) ==> Fits(item)
    ensures forall item :: item in NewFiles(e.newFiles) ==> Fits(item)
  {
    hide Fits, NumberItem;
    assert forall item :: item in Fields(e) ==> item in Items(e);
    if e.comparator.Some? { assert Comparator(e.comparator.value) in Fields(e); }
    if e.logNumber.Some? { assert NumberItem(2, e.logNumber.value) in Fields(e); }
    if e.prevLogNumber.Some? { assert NumberItem(9, e.prevLogNumber.value) in Fields(e); }
    if e.nextFile.Some? { assert NumberItem(3, e.nextFile.value) in Fields(e); }
    if e.lastSequence.Some? { assert NumberItem(4, e.lastSequence.value) in Fields(e); }
  }

  method EncodeFields(e: VersionEdit) returns (dst: Bytes)
    requires EditFits(e)
    ensures dst == ItemsBytes(Fields(e))
  {
    hide ItemsBytes, Fits, NumberItem, Numbered;
    PartsFit(e);
    ghost var items: seq<Item> := [];
    dst := [];
    NoItems();
    assert items + [] == items;
    if e.comparator.Some? { dst := PutItem(dst, Comparator(e.comparator.value), items); }
    items := items + Named(e.comparator);
    dst := PutNumber(dst, e.logNumber, 2, items);
    items := items + Numbered(e.logNumber, 2);
    dst := PutNumber(dst, e.prevLogNumber, 9, items);
    items := items + Numbered(e.prevLogNumber, 9);
    dst := PutNumber(dst, e.nextFile, 3, items);
    items := items + Numbered(e.nextFile, 3);
    dst := PutNumber(dst, e.lastSequence, 4, items);
    items := items + Numbered(e.lastSequence, 4);
    assert items == Fields(e);
  }

  method EncodeTo(e: VersionEdit) returns (dst: Bytes)
    requires EditFits(e)
    ensures dst == EditBytes(e)
  {
    hide ItemsBytes, Fits, CompactPointers, DeletedFiles, NewFiles, Fields;
    PartsFit(e);
    dst := EncodeFields(e);
    ghost var items := Fields(e);
    dst := PutPointers(dst, e.compactPointers, items);
    items := items + CompactPointers(e.compactPointers);
    dst := PutDeleted(dst, e.deleted, items);
    items := items + DeletedFiles(e.deleted);
    dst := PutNewFiles(dst, e.newFiles, items);
  }
}
