/** What a factory upload is made of, and what the loop of `OtaInstall` therefore installs: partition
    tables as their writer puts them down, entry by entry, with little-endian numbers. */
module OtaImages {
  import opened Basics
  import opened OtaInstall

  // ----- numbers

  /** A 32-bit number, lowest byte first. */
  function LeBytes(v: nat): (r: seq<Byte>)
    requires v <= SIZE_MAX
    ensures |r| == 4
  {
    var w := v / 256;
    var x := w / 256;
    [v % 256, w % 256, x % 256, x / 256]
  }

  lemma LowByte(a: Byte, w: nat)
    ensures (a as int + 256 * w) % 256 == a as int && (a as int + 256 * w) / 256 == w
  {
  }

  lemma LeUnique(a: Byte, b: Byte, c: Byte, d: Byte, v: nat)
    requires v <= SIZE_MAX
    ensures LeBytes(v) == [a, b, c, d] <==>
            v == a as int + 0x100 * b as int + 0x1_0000 * c as int + 0x100_0000 * d as int
  {
    var x := c as int + 256 * d as int;
    var w := b as int + 256 * x;
    LowByte(a, w);
    LowByte(b, x);
    LowByte(c, d);
  }

  /** What is written at `i` is what is read there. */
  lemma LeReadsBack(data: seq<Byte>, i: nat, v: nat)
    requires i + 4 <= |data| && v <= SIZE_MAX
    ensures data[i..i + 4] == LeBytes(v) <==> Le32(data, i) == v
  {
    var b := data[i..i + 4];
    assert b == [data[i], data[i + 1], data[i + 2], data[i + 3]];
    LeUnique(data[i], data[i + 1], data[i + 2], data[i + 3], v);
    hide LeBytes;
  }

  // ----- tables

  /** One entry of a partition table; `rest` is its label and flags. */
  datatype Entry = Entry(kind: Byte, subtype: Byte, offset: nat, size: nat, rest: seq<Byte>)

  predicate EntryOk(e: Entry) {
    e.offset <= SIZE_MAX && e.size <= SIZE_MAX && |e.rest| == 20
  }

  function EntryBytes(e: Entry): (r: seq<Byte>)
    requires EntryOk(e)
    ensures |r| == ENTRY_SIZE
  {
    [0xaa, 0x50, e.kind, e.subtype] + LeBytes(e.offset) + LeBytes(e.size) + e.rest
  }

  /** `t` starts with entries of other kinds, and then one of an application in this range. */
  ghost predicate Names(t: seq<Byte>, r: Range)
    decreases |t|
  {
    exists e: Entry | EntryOk(e) ::
      && |t| >= ENTRY_SIZE && t[..ENTRY_SIZE] == EntryBytes(e)
      && if e.kind == PARTITION_TYPE_APP then r == Range(e.offset, e.size) && r.offset > 0 && r.size > 0
         else Names(t[ENTRY_SIZE..], r)
  }

  /** The entry that stands at `i`. */
  function EntryAt(t: seq<Byte>, i: nat): (e: Entry)
    requires i + ENTRY_SIZE <= |t|
    ensures EntryOk(e)
  {
    Entry(t[i + 2], t[i + 3], Le32(t, i + 4), Le32(t, i + 8), t[i + 12..i + ENTRY_SIZE])
  }

  /** Bytes with the entry magic are the bytes of one entry and no other. */
  lemma EntryUnique(t: seq<Byte>, i: nat, e: Entry)
    requires i + ENTRY_SIZE <= |t| && EntryOk(e)
    ensures t[i..i + ENTRY_SIZE] == EntryBytes(e) <==> t[i] == 0xaa && t[i + 1] == 0x50 && e == EntryAt(t, i)
  {
    var b, c := t[i..i + ENTRY_SIZE], EntryBytes(e);
    EntryParts(e);
    assert b[0..4] == [t[i], t[i + 1], t[i + 2], t[i + 3]];
    assert b[4..8] == t[i + 4..i + 8] && b[8..12] == t[i + 8..i + 12] && b[12..32] == t[i + 12..i + 32];
    LeReadsBack(t, i + 4, e.offset);
    LeReadsBack(t, i + 8, e.size);
    hide LeBytes, Le32, EntryBytes;
    SameFour(t[i], t[i + 1], t[i + 2], t[i + 3], e);
    FourParts(b, c);
  }

  lemma EntryParts(e: Entry)
    requires EntryOk(e)
    ensures var c := EntryBytes(e);
            && c[0..4] == [0xaa, 0x50, e.kind, e.subtype] && c[4..8] == LeBytes(e.offset)
            && c[8..12] == LeBytes(e.size) && c[12..32] == e.rest
  {
    hide LeBytes;
  }

  lemma SameFour(a: Byte, b: Byte, c: Byte, d: Byte, e: Entry)
    ensures [a, b, c, d] == [0xaa, 0x50, e.kind, e.subtype] <==> a == 0xaa && b == 0x50 && c == e.kind && d == e.subtype
  {
    var s, t := [a, b, c, d], [0xaa, 0x50, e.kind, e.subtype];
    assert s == t ==> s[0] == t[0] && s[1] == t[1] && s[2] == t[2] && s[3] == t[3];
  }

  lemma FourParts(b: seq<Byte>, c: seq<Byte>)
    requires |b| == |c| == 32
    ensures b == c <==> b[0..4] == c[0..4] && b[4..8] == c[4..8] && b[8..12] == c[8..12] && b[12..32] == c[12..32]
  {
    assert b == b[0..4] + b[4..8] + b[8..12] + b[12..32];
    assert c == c[0..4] + c[4..8] + c[8..12] + c[12..32];
  }

  lemma NamesStep(t: seq<Byte>, r: Range, e: Entry)
    requires |t| >= ENTRY_SIZE && e == EntryAt(t, 0)
    ensures Names(t, r) <==>
            && t[0] == 0xaa && t[1] == 0x50
            && (if e.kind == PARTITION_TYPE_APP then r == Range(e.offset, e.size) && r.offset > 0 && r.size > 0
                else Names(t[ENTRY_SIZE..], r))
  {
    assert t[0..ENTRY_SIZE] == t[..ENTRY_SIZE];
    forall d: Entry | EntryOk(d)
      ensures t[..ENTRY_SIZE] == EntryBytes(d) <==> t[0] == 0xaa && t[1] == 0x50 && d == e
    {
      EntryUnique(t, 0, d);
    }
    hide EntryBytes, EntryAt;
  }

  lemma SameNumber(table: seq<Byte>, offset: nat, i: nat)
    requires offset + i + 4 <= |table|
    ensures Le32(table[offset..], i) == Le32(table, offset + i)
  {
  }

  lemma RangeFromStep(table: seq<Byte>, offset: nat)
    requires |table| == TABLE_SIZE && offset % ENTRY_SIZE == 0 && offset + ENTRY_SIZE <= TABLE_SIZE
    ensures var e := EntryAt(table[offset..], 0);
            RangeFrom(table, offset) ==
              if table[offset] != 0xaa || table[offset + 1] != 0x50 then None
              else if e.kind != PARTITION_TYPE_APP then RangeFrom(table, offset + ENTRY_SIZE)
              else if e.offset == 0 || e.size == 0 then None else Some(Range(e.offset, e.size))
  {
    SameNumber(table, offset, 4);
    SameNumber(table, offset, 8);
    hide Le32;
  }

  /** THE TABLE IS READ AS IT IS WRITTEN: the walk finds a range exactly when the table names it. */
  lemma {:induction false} RangeFromIff(table: seq<Byte>, offset: nat, r: Range)
    requires |table| == TABLE_SIZE && offset % ENTRY_SIZE == 0 && offset <= TABLE_SIZE
    ensures RangeFrom(table, offset) == Some(r) <==> Names(table[offset..], r)
    decreases TABLE_SIZE - offset
  {
    var t := table[offset..];
    if offset + ENTRY_SIZE <= TABLE_SIZE {
      RangeFromStep(table, offset);
      NamesStep(t, r, EntryAt(t, 0));
      assert t[ENTRY_SIZE..] == table[offset + ENTRY_SIZE..];
      RangeFromIff(table, offset + ENTRY_SIZE, r);
      hide RangeFrom, Names, EntryAt;
    }
  }

  /** `upload` has a table at 0x8000 that names an application in this range. */
  ghost predicate HasApp(upload: seq<Byte>, r: Range) {
    |upload| >= TABLE_END && Names(upload[TABLE_OFFSET..TABLE_END], r)
  }

  lemma TableAppIff(upload: seq<Byte>, r: Range)
    ensures TableApp(upload) == Some(r) <==> HasApp(upload, r)
  {
    if |upload| >= TABLE_END {
      var table := upload[TABLE_OFFSET..TABLE_END];
      RangeFromIff(table, 0, r);
      assert table[0..] == table;
    }
  }

  /** Entries one after another. */
  function Entries(es: seq<Entry>): seq<Byte>
    requires forall e | e in es :: EntryOk(e)
  {
    if es == [] then [] else EntryBytes(es[0]) + Entries(es[1..])
  }

  lemma {:induction false} WrittenNames(others: seq<Entry>, app: Entry, tail: seq<Byte>)
    requires forall e | e in others :: EntryOk(e) && e.kind != PARTITION_TYPE_APP
    requires EntryOk(app) && app.kind == PARTITION_TYPE_APP && app.offset > 0 && app.size > 0
    ensures Names(Entries(others) + EntryBytes(app) + tail, Range(app.offset, app.size))
    decreases |others|
  {
    var r := Range(app.offset, app.size);
    hide EntryBytes, Names;
    if others == [] {
      NamesCons(app, tail, r);
      assert Entries(others) + EntryBytes(app) + tail == EntryBytes(app) + tail;
    } else {
      var first, rest := others[0], Entries(others[1..]) + EntryBytes(app) + tail;
      assert first in others;
      WrittenNames(others[1..], app, tail);
      NamesCons(first, rest, r);
      assert Entries(others) + EntryBytes(app) + tail == EntryBytes(first) + rest;
    }
  }

  lemma NamesCons(e: Entry, rest: seq<Byte>, r: Range)
    requires EntryOk(e)
    requires if e.kind == PARTITION_TYPE_APP then r == Range(e.offset, e.size) && r.offset > 0 && r.size > 0
             else Names(rest, r)
    ensures Names(EntryBytes(e) + rest, r)
  {
    var t := EntryBytes(e) + rest;
    hide EntryBytes;
    assert t[..ENTRY_SIZE] == EntryBytes(e) && t[ENTRY_SIZE..] == rest;
  }

  /** READING UNDOES WRITING, for every table: any entries of other kinds, and then the application
      anywhere and of any size. */
  lemma TableReadsBack(upload: seq<Byte>, others: seq<Entry>, app: Entry, tail: seq<Byte>)
    requires forall e | e in others :: EntryOk(e) && e.kind != PARTITION_TYPE_APP
    requires EntryOk(app) && app.kind == PARTITION_TYPE_APP && app.offset > 0 && app.size > 0
    requires |upload| >= TABLE_END
    requires upload[TABLE_OFFSET..TABLE_END] == Entries(others) + EntryBytes(app) + tail
    ensures TableApp(upload) == Some(Range(app.offset, app.size))
  {
    WrittenNames(others, app, tail);
    TableAppIff(upload, Range(app.offset, app.size));
    hide Names, Entries, EntryBytes, TableApp;
  }

  /** The application image an upload carries in `r`, as far as it goes. */
  ghost predicate Carries(upload: seq<Byte>, r: Range, image: seq<Byte>) {
    && r.offset < |upload| && |image| == (if r.size < |upload| - r.offset then r.size else |upload| - r.offset)
    && image == upload[r.offset..r.offset + |image|]
  }

  /** WHAT IS INSTALLED, chunks aside: exactly the image its table names, or the whole upload when it
      has no such table, if it starts with the image magic and fits the slot. */
  lemma InstalledIff(upload: seq<Byte>, slot: nat, image: seq<Byte>)
    requires |upload| < SIZE_MAX
    ensures Extract(upload, slot) == Written(image) <==>
            && image != [] && image[0] == IMAGE_MAGIC && |image| <= slot
            && (if exists r :: HasApp(upload, r) then exists r :: HasApp(upload, r) && Carries(upload, r, image)
                else image == upload)
  {
    forall r { TableAppIff(upload, r); }
    hide HasApp;
    var app := TableApp(upload);
    hide TableApp;
    if app.Some? {
      assert HasApp(upload, app.value);
      var r := app.value;
      var end := Min(r.offset + r.size, |upload|);
      if r.offset < end {
        assert Carries(upload, r, upload[r.offset..end]);
      }
      forall other | HasApp(upload, other) ensures other == r {}
    }
  }

  /** AND WHAT IS REFUSED, and as what. */
  lemma RefusedIff(upload: seq<Byte>, slot: nat, r: Range)
    requires |upload| < SIZE_MAX && HasApp(upload, r)
    ensures Extract(upload, slot) == Unsupported <==> r.offset == SIZE_MAX
    ensures Extract(upload, slot) == EmptyImage <==> |upload| <= r.offset < SIZE_MAX
    ensures Extract(upload, slot) == InvalidApp <==> r.offset < |upload| && upload[r.offset] != IMAGE_MAGIC
    ensures Extract(upload, slot) == WriteFailed <==>
              && r.offset < |upload| && upload[r.offset] == IMAGE_MAGIC
              && r.size > slot && |upload| - r.offset > slot
  {
    TableAppIff(upload, r);
    HasAppPositive(upload, r);
    hide HasApp, TableApp;
  }

  lemma HasAppPositive(upload: seq<Byte>, r: Range)
    requires HasApp(upload, r)
    ensures r.offset > 0 && r.size > 0
  {
    TableAppIff(upload, r);
    hide HasApp;
  }

  /** The same for an upload without a table that names an application. */
  lemma RefusedWithoutApp(upload: seq<Byte>, slot: nat)
    requires |upload| < SIZE_MAX && forall r :: !HasApp(upload, r)
    ensures var plain := upload != [] && upload[0] == IMAGE_MAGIC;
            && (Extract(upload, slot) == Unsupported <==> !plain && |upload| >= TABLE_END)
            && (Extract(upload, slot) == EmptyImage <==> !plain && |upload| < TABLE_END)
            && (Extract(upload, slot) == WriteFailed <==> plain && |upload| > slot)
            && Extract(upload, slot) != InvalidApp
  {
    if TableApp(upload).Some? {
      TableAppIff(upload, TableApp(upload).value);
    }
    hide HasApp, TableApp;
  }
}
