/** The bytes of batches and edits as a grammar, in the numerals of the format (db/write_batch.cc,
    db/version_edit.cc): exactly the spellings of this grammar are read, and what is written is one of them. */
module Spellings {
  import opened InternalKeys
  import opened Varints
  import opened Numerals
  import opened Coding
  import opened VersionEdits
  import WriteBatch

  // ---------------------------------------------------------------- numbers and strings

  /** Up to five groups; of their number, the low 32 bits count. */
  ghost predicate Spells32(p: Bytes, v: nat) { |p| <= 5 && IsGroups(p) && v == Number(p) % 0x1_0000_0000 }

  /** Up to ten groups; of their number, the low 64 bits count. */
  ghost predicate Spells64(p: Bytes, v: nat) { |p| <= 10 && IsGroups(p) && v == Number(p) % 0x1_0000_0000_0000_0000 }

  /** A length, and that many bytes. */
  ghost predicate SpellsString(p: Bytes, body: Bytes) {
    exists length :: Spells32(length, |body|) && p == length + body
  }

  predicate IsLimit(limit: nat) { limit == 0x1_0000_0000 || limit == 0x1_0000_0000_0000_0000 }

  lemma ModOfSum(a: nat, b: nat, limit: nat)
    requires IsLimit(limit)
    ensures (a % limit + b) % limit == (a + b) % limit
  {
    if limit == 0x1_0000_0000 {
      assert (a % 0x1_0000_0000 + b) % 0x1_0000_0000 == (a + b) % 0x1_0000_0000;
    }
  }

  lemma {:induction false} GroupsAreRead(p: Bytes, rest: Bytes, result: nat, shift: nat, last: nat, limit: nat)
    requires IsLimit(limit) && IsGroups(p) && shift + 7 * (|p| - 1) <= last
    ensures GetVarint(p + rest, result, shift, last, limit)
         == Some(((result + Shifted(Number(p), shift)) % limit, rest))
    decreases |p|
  {
    hide Pow2, GetVarint, Number;
    NextGroups(p, rest);
    var low, high := p[0] % 128, Number(p[1..]);
    ShiftedMore(result, low, high, shift);
    FirstIsTaken(p + rest, result, shift, last, limit);
    if |p| == 1 {
      NoNumber();
      assert p[1..] == [] && [] + rest == rest;
    } else {
      var now := (result + Shifted(low, shift)) % limit;
      GroupsAreRead(p[1..], rest, now, shift + 7, last, limit);
      ModOfSum(result + low * Pow2(shift), high * Pow2(shift + 7), limit);
    }
  }

  lemma FirstIsTaken(s: Bytes, result: nat, shift: nat, last: nat, limit: nat)
    requires limit > 0 && |s| > 0 && shift <= last
    ensures var now := (result + Shifted(s[0] % 128, shift)) % limit;
            GetVarint(s, result, shift, last, limit)
              == if s[0] >= 128 then GetVarint(s[1..], now, shift + 7, last, limit) else Some((now, s[1..]))
  {
    hide Pow2;
  }

  /** Whatever is read is such groups. */
  lemma {:induction false} ReadIsGroups(s: Bytes, result: nat, shift: nat, last: nat, limit: nat) returns (p: Bytes)
    requires limit > 0 && GetVarint(s, result, shift, last, limit).Some?
    ensures IsGroups(p) && shift + 7 * (|p| - 1) <= last && s == p + GetVarint(s, result, shift, last, limit).value.1
    decreases |s|
  {
    hide Pow2;
    var now: nat := (result + Shifted(s[0] % 128, shift)) % limit;
    if s[0] >= 128 {
      var q := ReadIsGroups(s[1..], now, shift + 7, last, limit);
      p := [s[0]] + q;
    } else {
      p := [s[0]];
    }
  }

  /** A 32-bit number is read from the front exactly when it is spelled there. */
  lemma Number32IsRead(s: Bytes, v: nat, rest: Bytes)
    ensures GetVarint32(s) == Some((v, rest)) <==> exists p :: Spells32(p, v) && s == p + rest
  {
    hide GetVarint, Number;
    assert Pow2(0) == 1;
    if GetVarint32(s) == Some((v, rest)) {
      var p := ReadIsGroups(s, 0, 0, 28, 0x1_0000_0000);
      GroupsAreRead(p, rest, 0, 0, 28, 0x1_0000_0000);
      assert Spells32(p, v) && s == p + rest;
    }
    forall p | Spells32(p, v) && s == p + rest ensures GetVarint32(s) == Some((v, rest)) {
      GroupsAreRead(p, rest, 0, 0, 28, 0x1_0000_0000);
    }
  }

  lemma Number64IsRead(s: Bytes, v: nat, rest: Bytes)
    ensures GetVarint64(s) == Some((v, rest)) <==> exists p :: Spells64(p, v) && s == p + rest
  {
    hide GetVarint, Number;
    assert Pow2(0) == 1;
    if GetVarint64(s) == Some((v, rest)) {
      var p := ReadIsGroups(s, 0, 0, 63, 0x1_0000_0000_0000_0000);
      GroupsAreRead(p, rest, 0, 0, 63, 0x1_0000_0000_0000_0000);
      assert Spells64(p, v) && s == p + rest;
    }
    forall p | Spells64(p, v) && s == p + rest ensures GetVarint64(s) == Some((v, rest)) {
      GroupsAreRead(p, rest, 0, 0, 63, 0x1_0000_0000_0000_0000);
    }
  }

  lemma StringIsRead(s: Bytes, body: Bytes, rest: Bytes)
    ensures GetLengthPrefixed(s) == Some((body, rest)) <==> exists p :: SpellsString(p, body) && s == p + rest
  {
    hide GetLengthPrefixed, SpellsString;
    if GetLengthPrefixed(s) == Some((body, rest)) { var p := ReadString(s, body, rest); }
    forall p | SpellsString(p, body) && s == p + rest ensures GetLengthPrefixed(s) == Some((body, rest)) {
      SpelledString(p, body, rest);
    }
  }

  lemma ReadString(s: Bytes, body: Bytes, rest: Bytes) returns (p: Bytes)
    requires GetLengthPrefixed(s) == Some((body, rest))
    ensures SpellsString(p, body) && s == p + rest
  {
    hide GetVarint32, Spells32;
    Number32IsRead(s, |body|, body + rest);
    assert body + rest == GetVarint32(s).value.1;
    var length :| Spells32(length, |body|) && s == length + (body + rest);
    p := length + body;
    assert s == p + rest;
  }

  lemma SpelledString(p: Bytes, body: Bytes, rest: Bytes)
    requires SpellsString(p, body)
    ensures GetLengthPrefixed(p + rest) == Some((body, rest))
  {
    hide GetVarint32, Spells32;
    var length :| Spells32(length, |body|) && p == length + body;
    assert p + rest == length + (body + rest);
    Number32IsRead(p + rest, |body|, body + rest);
    assert (body + rest)[..|body|] == body && (body + rest)[|body|..] == rest;
  }

  // ---------------------------------------------------------------- batches

  /** One byte 1 with a key and a value, or one byte 0 with a key. */
  ghost predicate IsUpdate(p: Bytes, u: WriteBatch.Update) {
    match u
    case Value(key, value) =>
      exists a: Bytes, b: Bytes :: SpellsString(a, key) && SpellsString(b, value) && p == [1] + (a + b)
    case Deletion(key) => exists a: Bytes :: SpellsString(a, key) && p == [0] + a
  }

  ghost predicate AreUpdates(p: Bytes, us: seq<WriteBatch.Update>)
    decreases |us|
  {
    if |us| == 0 then p == []
    else exists a: Bytes, b: Bytes :: IsUpdate(a, us[0]) && AreUpdates(b, us[1..]) && p == a + b
  }

  lemma UpdateIsRead(s: Bytes, u: WriteBatch.Update, rest: Bytes)
    requires |s| > 0
    ensures WriteBatch.FirstUpdate(s) == Some((u, rest)) <==> exists p :: IsUpdate(p, u) && s == p + rest
  {
    if WriteBatch.FirstUpdate(s) == Some((u, rest)) { var p := ReadUpdate(s, u, rest); }
    forall p | IsUpdate(p, u) && s == p + rest ensures WriteBatch.FirstUpdate(s) == Some((u, rest)) {
      SpelledUpdate(p, u, rest);
    }
  }

  lemma ReadUpdate(s: Bytes, u: WriteBatch.Update, rest: Bytes) returns (p: Bytes)
    requires |s| > 0 && WriteBatch.FirstUpdate(s) == Some((u, rest))
    ensures IsUpdate(p, u) && s == p + rest
  {
    hide SpellsString, GetLengthPrefixed;
    var more := GetLengthPrefixed(s[1..]).value.1;
    var a := ReadString(s[1..], u.key, more);
    assert s == [s[0]] + s[1..];
    if u.Value? {
      var b := ReadString(more, u.value, rest);
      p := [1] + (a + b);
    } else {
      p := [0] + a;
    }
  }

  lemma SpelledUpdate(p: Bytes, u: WriteBatch.Update, rest: Bytes)
    requires IsUpdate(p, u)
    ensures |p| > 0 && WriteBatch.FirstUpdate(p + rest) == Some((u, rest))
  {
    hide SpellsString, GetLengthPrefixed;
    match u
    case Value(key, value) =>
      var a: Bytes, b: Bytes :| SpellsString(a, key) && SpellsString(b, value) && p == [1] + (a + b);
      assert (p + rest)[1..] == a + (b + rest);
      StringIsRead(a + (b + rest), key, b + rest);
      StringIsRead(b + rest, value, rest);
    case Deletion(key) =>
      var a: Bytes :| SpellsString(a, key) && p == [0] + a;
      assert (p + rest)[1..] == a + rest;
      StringIsRead(a + rest, key, rest);
  }

  /** Iterating goes through without an error exactly when the bytes are updates, and hands over just these. */
  lemma {:induction false} IteratesExactlyWhen(s: Bytes, us: seq<WriteBatch.Update>)
    ensures WriteBatch.Iterated(s) == (us, true) <==> AreUpdates(s, us)
    decreases |s|
  {
    hide IsUpdate, WriteBatch.FirstUpdate;
    if |us| == 0 {
    } else if |s| == 0 {
      NoUpdateThere(us);
    } else {
      var first := WriteBatch.FirstUpdate(s);
      if first.Some? { IteratesExactlyWhen(first.value.1, us[1..]); }
      if WriteBatch.Iterated(s) == (us, true) {
        UpdateIsRead(s, us[0], first.value.1);
        var p :| IsUpdate(p, us[0]) && s == p + first.value.1;
        assert us[1..] == WriteBatch.Iterated(first.value.1).0;
      }
      forall a, b | IsUpdate(a, us[0]) && AreUpdates(b, us[1..]) && s == a + b
        ensures WriteBatch.Iterated(s) == (us, true)
      {
        UpdateIsRead(s, us[0], b);
        assert us == [us[0]] + us[1..];
      }
    }
  }

  lemma NoUpdateThere(us: seq<WriteBatch.Update>)
    requires |us| > 0
    ensures !AreUpdates([], us)
  {
    forall a, b | IsUpdate(a, us[0]) && [] == a + b ensures false { SpelledUpdate(a, us[0], b); }
  }

  /** When iterating fails, what was handed over are the updates up to bytes that no update starts with. */
  lemma {:induction false} IteratesUpTo(s: Bytes) returns (p: Bytes, bad: Bytes)
    requires !WriteBatch.Iterated(s).1
    ensures s == p + bad && AreUpdates(p, WriteBatch.Iterated(s).0) && |bad| > 0
    ensures forall q, u :: IsUpdate(q, u) ==> !(q <= bad)
    decreases |s|
  {
    hide IsUpdate, WriteBatch.FirstUpdate;
    var first := WriteBatch.FirstUpdate(s);
    if first.None? {
      p, bad := [], s;
      forall q, u | IsUpdate(q, u) ensures !(q <= s) {
        if q <= s {
          assert s == q + s[|q|..];
          UpdateIsRead(s, u, s[|q|..]);
        }
      }
    } else {
      var u, rest := first.value.0, first.value.1;
      UpdateIsRead(s, u, rest);
      var a :| IsUpdate(a, u) && s == a + rest;
      var b;
      b, bad := IteratesUpTo(rest);
      p := a + b;
      assert s == p + bad;
      var us := WriteBatch.Iterated(s).0;
      assert us[0] == u && us[1..] == WriteBatch.Iterated(rest).0;
    }
  }

  /** A batch as it is written: eight bytes of sequence number, four of count, the updates. */
  ghost predicate IsBatch(rep: Bytes, sequence: nat, us: seq<WriteBatch.Update>) {
    |rep| >= 12 && Word(rep[..8]) == sequence && Word(rep[8..12]) == |us| && AreUpdates(rep[12..], us)
  }

  lemma BatchIsSpelled(sequence: nat, us: seq<WriteBatch.Update>)
    requires sequence < 0x1_0000_0000_0000_0000 && |us| < 0x1_0000_0000
    requires forall u :: u in us ==> WriteBatch.Encodable(u)
    ensures IsBatch(WriteBatch.BatchBytes(sequence, us), sequence, us)
  {
    hide Word, Little, AreUpdates, WriteBatch.UpdatesBytes, WriteBatch.Encodable, WriteBatch.Iterated;
    var rep := WriteBatch.BatchBytes(sequence, us);
    assert rep[..8] == Fixed64(sequence) && rep[8..12] == Fixed32(|us|) && rep[12..] == WriteBatch.UpdatesBytes(us);
    WordSizes();
    LittleIsWord(sequence, 8);
    LittleIsWord(|us|, 4);
    WriteBatch.UpdatesAreReadBack(us);
    IteratesExactlyWhen(rep[12..], us);
  }

  // ---------------------------------------------------------------- edits

  /** The numeral of each field, and what comes behind it. */
  ghost predicate SpellsField(key: Bytes, body: Bytes, item: Item) {
    match item
    case Comparator(name) => Spells32(key, 1) && SpellsString(body, name)
    case LogNumber(n) => Spells32(key, 2) && Spells64(body, n)
    case NextFileNumber(n) => Spells32(key, 3) && Spells64(body, n)
    case LastSequence(n) => Spells32(key, 4) && Spells64(body, n)
    case CompactPointer(level, pointer) =>
      Spells32(key, 5) && level < 7 &&
      exists a: Bytes, b: Bytes :: Spells32(a, level) && SpellsString(b, pointer) && body == a + b
    case DeletedFile(level, n) =>
      Spells32(key, 6) && level < 7 &&
      exists a: Bytes, b: Bytes :: Spells32(a, level) && Spells64(b, n) && body == a + b
    case NewFile(level, f) =>
      Spells32(key, 7) && level < 7 &&
      exists a: Bytes, b: Bytes :: Spells32(a, level) && SpellsFile(b, f) && body == a + b
    case PrevLogNumber(n) => Spells32(key, 9) && Spells64(body, n)
  }

  /** File number, size, smallest and largest key. */
  ghost predicate SpellsFile(p: Bytes, f: Meta) {
    exists a: Bytes, b: Bytes, c: Bytes, d: Bytes ::
      Spells64(a, f.number) && Spells64(b, f.size) && SpellsString(c, f.smallest) && SpellsString(d, f.largest) &&
      p == a + (b + (c + d))
  }

  ghost predicate IsField(p: Bytes, item: Item) {
    exists key: Bytes, body: Bytes :: SpellsField(key, body, item) && p == key + body
  }

  ghost predicate AreFields(p: Bytes, items: seq<Item>)
    decreases |items|
  {
    if |items| == 0 then p == []
    else exists a: Bytes, b: Bytes :: IsField(a, items[0]) && AreFields(b, items[1..]) && p == a + b
  }

  lemma Read32(s: Bytes, v: nat, rest: Bytes) returns (p: Bytes)
    requires GetVarint32(s) == Some((v, rest))
    ensures Spells32(p, v) && s == p + rest
  {
    Number32IsRead(s, v, rest);
    p :| Spells32(p, v) && s == p + rest;
  }

  lemma Read64(s: Bytes, v: nat, rest: Bytes) returns (p: Bytes)
    requires GetVarint64(s) == Some((v, rest))
    ensures Spells64(p, v) && s == p + rest
  {
    Number64IsRead(s, v, rest);
    p :| Spells64(p, v) && s == p + rest;
  }

  lemma ReadFile(level: nat, s: Bytes, f: Meta, rest: Bytes) returns (p: Bytes)
    requires GetNewFile(level, s) == Some((NewFile(level, f), rest))
    ensures SpellsFile(p, f) && s == p + rest
  {
    hide GetVarint64, GetLengthPrefixed, Spells64, SpellsString;
    var s1 := GetVarint64(s).value.1;
    var s2 := GetVarint64(s1).value.1;
    var s3 := GetLengthPrefixed(s2).value.1;
    var a := Read64(s, f.number, s1);
    var b := Read64(s1, f.size, s2);
    var c := ReadString(s2, f.smallest, s3);
    var d := ReadString(s3, f.largest, rest);
    p := a + (b + (c + d));
  }

  lemma SpelledFile(level: nat, p: Bytes, f: Meta, rest: Bytes)
    requires SpellsFile(p, f)
    ensures GetNewFile(level, p + rest) == Some((NewFile(level, f), rest))
  {
    hide GetVarint64, GetLengthPrefixed, Spells64, SpellsString;
    var a: Bytes, b: Bytes, c: Bytes, d: Bytes :|
      Spells64(a, f.number) && Spells64(b, f.size) && SpellsString(c, f.smallest) && SpellsString(d, f.largest) &&
      p == a + (b + (c + d));
    assert p + rest == a + (b + (c + (d + rest)));
    Number64IsRead(a + (b + (c + (d + rest))), f.number, b + (c + (d + rest)));
    Number64IsRead(b + (c + (d + rest)), f.size, c + (d + rest));
    StringIsRead(c + (d + rest), f.smallest, d + rest);
    StringIsRead(d + rest, f.largest, rest);
  }

  lemma ReadLevelled(s: Bytes, level: nat, more: Bytes) returns (a: Bytes)
    requires GetLevel(s) == Some((level, more))
    ensures Spells32(a, level) && s == a + more && level < 7
  {
    a := Read32(s, level, more);
  }

  lemma SpelledLevel(a: Bytes, level: nat, more: Bytes)
    requires Spells32(a, level) && level < 7
    ensures GetLevel(a + more) == Some((level, more))
  {
    Number32IsRead(a + more, level, more);
  }

  lemma ReadField(key: Bytes, tag: nat, s: Bytes, item: Item, rest: Bytes) returns (body: Bytes)
    requires Spells32(key, tag) && GetPayload(tag, s) == Some((item, rest))
    ensures SpellsField(key, body, item) && s == body + rest
  {
    hide GetVarint64, GetLengthPrefixed, GetLevel, GetNewFile, Spells32, Spells64, SpellsString, SpellsFile;
    if tag == 1 {
      body := ReadString(s, item.name, rest);
    } else if tag == 2 || tag == 3 || tag == 4 || tag == 9 {
      body := Read64(s, item.n, rest);
    } else {
      var level, more := GetLevel(s).value.0, GetLevel(s).value.1;
      var a := ReadLevelled(s, level, more);
      var b := [];
      if tag == 5 {
        b := ReadString(more, item.key, rest);
      } else if tag == 6 {
        b := Read64(more, item.n, rest);
      } else {
        NewFileLevel(level, more);
        b := ReadFile(level, more, item.meta, rest);
      }
      body := a + b;
    }
  }

  lemma NewFileLevel(level: nat, s: Bytes)
    ensures var r := GetNewFile(level, s); r.Some? ==> r.value.0.NewFile? && r.value.0.level == level
  {
  }

  lemma SpelledField(key: Bytes, body: Bytes, item: Item, rest: Bytes)
    requires SpellsField(key, body, item)
    ensures GetPayload(TagOf(item), body + rest) == Some((item, rest)) && Spells32(key, TagOf(item))
  {
    hide GetVarint64, GetLengthPrefixed, GetLevel, GetNewFile, Spells32, Spells64, SpellsString, SpellsFile;
    match item
    case Comparator(name) => StringIsRead(body + rest, name, rest);
    case CompactPointer(level, pointer) =>
      var a: Bytes, b: Bytes :| Spells32(a, level) && SpellsString(b, pointer) && body == a + b;
      assert body + rest == a + (b + rest);
      SpelledLevel(a, level, b + rest);
      StringIsRead(b + rest, pointer, rest);
    case DeletedFile(level, n) =>
      var a: Bytes, b: Bytes :| Spells32(a, level) && Spells64(b, n) && body == a + b;
      assert body + rest == a + (b + rest);
      SpelledLevel(a, level, b + rest);
      Number64IsRead(b + rest, n, rest);
    case NewFile(level, f) =>
      var a: Bytes, b: Bytes :| Spells32(a, level) && SpellsFile(b, f) && body == a + b;
      assert body + rest == a + (b + rest);
      SpelledLevel(a, level, b + rest);
      SpelledFile(level, b, f, rest);
    case _ => Number64IsRead(body + rest, item.n, rest);
  }

  /** Bytes are decoded exactly when they are fields, and the edit is what these add up to. */
  lemma {:induction false} DecodesExactlyWhen(s: Bytes, e: VersionEdit, r: VersionEdit)
    ensures Decoded(s, e) == Some(r) <==> exists items :: AreFields(s, items) && r == WithAll(e, items)
    decreases |s|
  {
    if Decoded(s, e) == Some(r) { var items := ReadFields(s, e, r); }
    forall items | AreFields(s, items) && r == WithAll(e, items) ensures Decoded(s, e) == Some(r) {
      SpelledFields(s, items, e);
    }
  }

  lemma {:induction false} ReadFields(s: Bytes, e: VersionEdit, r: VersionEdit) returns (items: seq<Item>)
    requires Decoded(s, e) == Some(r)
    ensures AreFields(s, items) && r == WithAll(e, items)
    decreases |s|
  {
    hide GetPayload, GetVarint32, With, SpellsField, Spells32;
    if |s| == 0 {
      NoNumberThere();
      items := [];
    } else {
      var tag, more := GetVarint32(s).value.0, GetVarint32(s).value.1;
      var item, rest := GetPayload(tag, more).value.0, GetPayload(tag, more).value.1;
      var key := Read32(s, tag, more);
      var body := ReadField(key, tag, more, item, rest);
      var others := ReadFields(rest, With(e, item), r);
      items := [item] + others;
      assert IsField(key + body, item) && s == (key + body) + rest && items[1..] == others;
    }
  }

  lemma NoNumberThere()
    ensures GetVarint32([]).None?
  {
  }

  lemma {:induction false} SpelledFields(s: Bytes, items: seq<Item>, e: VersionEdit)
    requires AreFields(s, items)
    ensures Decoded(s, e) == Some(WithAll(e, items))
    decreases |items|
  {
    hide GetPayload, GetVarint32, With, SpellsField, Spells32;
    if |items| == 0 {
      NoNumberThere();
    } else {
      var a: Bytes, b: Bytes :| IsField(a, items[0]) && AreFields(b, items[1..]) && s == a + b;
      var key: Bytes, body: Bytes :| SpellsField(key, body, items[0]) && a == key + body;
      assert s == key + (body + b);
      SpelledField(key, body, items[0], b);
      Number32IsRead(s, TagOf(items[0]), body + b);
      SpelledFields(b, items[1..], With(e, items[0]));
    }
  }

  /** What is written for an edit are its fields, in this order. */
  lemma EditIsSpelled(e: VersionEdit)
    requires forall item :: item in Items(e) ==> Fits(item)
    ensures AreFields(EditBytes(e), Items(e))
  {
    ItemsAreSpelled(Items(e));
  }

  lemma {:induction false} ItemsAreSpelled(items: seq<Item>)
    requires forall item :: item in items ==> Fits(item)
    ensures AreFields(ItemsBytes(items), items)
    decreases |items|
  {
    hide ItemBytes, Fits, IsField;
    if |items| == 0 {
    } else {
      ItemsAreSpelled(items[1..]);
      ItemIsSpelled(items[0]);
    }
  }

  lemma ItemIsSpelled(item: Item)
    requires Fits(item)
    ensures IsField(ItemBytes(item), item)
  {
    hide Varint, Payload, GetPayload, Fits, SpellsField;
    var s := ItemBytes(item);
    var tag := TagOf(item);
    Varint32IsReadBack(tag, Payload(item));
    PayloadIsReadBack(item, []);
    assert Payload(item) + [] == Payload(item);
    var key := Read32(s, tag, Payload(item));
    var body := ReadField(key, tag, Payload(item), item, []);
    assert body + [] == body;
  }

  lemma OneField(item: Item, others: seq<Item>)
    ensures ItemsBytes([item] + others) == ItemBytes(item) + ItemsBytes(others)
  {
    assert ([item] + others)[1..] == others;
  }

  function AnEdit(): VersionEdit {
    VersionEdit(Some([97]), Some(10), Some(0), Some(11), Some(300), [(1, [98])], [(2, 12)],
                [(3, Meta(13, 14, [99], [100]))])
  }

  lemma ItemsOfAnEdit()
    ensures Items(AnEdit())
         == [Comparator([97])] + ([LogNumber(10)] + ([PrevLogNumber(0)] + ([NextFileNumber(11)] + ([LastSequence(300)] +
            ([CompactPointer(1, [98])] + ([DeletedFile(2, 12)] + ([NewFile(3, Meta(13, 14, [99], [100]))] + [])))))))
  {
  }

  lemma BytesOfItems()
    ensures ItemBytes(Comparator([97])) == [1, 1, 97] && ItemBytes(LogNumber(10)) == [2, 10]
    ensures ItemBytes(PrevLogNumber(0)) == [9, 0] && ItemBytes(NextFileNumber(11)) == [3, 11]
    ensures ItemBytes(LastSequence(300)) == [4, 172, 2] && ItemBytes(CompactPointer(1, [98])) == [5, 1, 1, 98]
    ensures ItemBytes(DeletedFile(2, 12)) == [6, 2, 12]
  {
    assert Varint(300) == [172, 2];
  }

  lemma BytesOfNewFile()
    ensures ItemBytes(NewFile(3, Meta(13, 14, [99], [100]))) == [7, 3, 13, 14, 1, 99, 1, 100]
  {
  }

  /** The order of the fields, by an edit that has each of them once. */
  lemma BytesOfAnEdit()
    ensures EditBytes(AnEdit())
         == [1, 1, 97] + ([2, 10] + ([9, 0] + ([3, 11] + ([4, 172, 2] +
            ([5, 1, 1, 98] + ([6, 2, 12] + [7, 3, 13, 14, 1, 99, 1, 100]))))))
  {
    hide ItemBytes, ItemsBytes, Items, AnEdit;
    ItemsOfAnEdit();
    BytesOfItems();
    BytesOfNewFile();
    NoItems();
    var file := NewFile(3, Meta(13, 14, [99], [100]));
    var s1 := [file] + [];
    OneField(file, []);
    var s2 := [DeletedFile(2, 12)] + s1;
    OneField(DeletedFile(2, 12), s1);
    var s3 := [CompactPointer(1, [98])] + s2;
    OneField(CompactPointer(1, [98]), s2);
    var s4 := [LastSequence(300)] + s3;
    OneField(LastSequence(300), s3);
    var s5 := [NextFileNumber(11)] + s4;
    OneField(NextFileNumber(11), s4);
    var s6 := [PrevLogNumber(0)] + s5;
    OneField(PrevLogNumber(0), s5);
    OneField(LogNumber(10), s6);
    OneField(Comparator([97]), [LogNumber(10)] + s6);
    assert [7, 3, 13, 14, 1, 99, 1, 100] + [] == [7, 3, 13, 14, 1, 99, 1, 100];
  }
}
