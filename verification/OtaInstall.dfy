/** The firmware upload loop of main/wifi_http.c: bytes arrive in arbitrary chunks, an image
    may already be on its way to flash when a partition table turns up inside it, and the
    write then starts over at the table's application. */
module OtaInstall {
  import opened Basics

  type Byte = x: int | 0 <= x < 256

  const TABLE_OFFSET: nat := 0x8000
  const TABLE_SIZE: nat := 0xC00
  const TABLE_END: nat := TABLE_OFFSET + TABLE_SIZE
  const ENTRY_SIZE: nat := 32
  const IMAGE_MAGIC: Byte := 0xE9
  const PARTITION_TYPE_APP: Byte := 0
  const SIZE_MAX: nat := 0xFFFF_FFFF
  const UPLOAD_BUFFER_SIZE: nat := 4096

  datatype Range = Range(offset: nat, size: nat)

  datatype Outcome =
    | Written(image: seq<Byte>)
    | InvalidApp
    | Unsupported
    | WriteFailed
    | EmptyImage
    | BrokenOff

  function Le32(data: seq<Byte>, i: nat): (r: nat)
    requires i + 4 <= |data|
    ensures r <= SIZE_MAX
  {
    data[i] as int + 0x100 * data[i + 1] as int + 0x1_0000 * data[i + 2] as int +
    0x100_0000 * data[i + 3] as int
  }

  // ----- the partition table

  /** What the entries of `table` from `offset` on say about the application. */
  function RangeFrom(table: seq<Byte>, offset: nat): (r: Option<Range>)
    requires |table| == TABLE_SIZE && offset % ENTRY_SIZE == 0
    ensures r.Some? ==> 0 < r.value.offset <= SIZE_MAX && 0 < r.value.size <= SIZE_MAX
    decreases TABLE_SIZE - offset
  {
    if offset + ENTRY_SIZE > TABLE_SIZE then None
    else if table[offset] == 0xff && table[offset + 1] == 0xff then None
    else if table[offset] != 0xaa || table[offset + 1] != 0x50 then None
    else if table[offset + 2] != PARTITION_TYPE_APP then RangeFrom(table, offset + ENTRY_SIZE)
    else
      var r := Range(Le32(table, offset + 4), Le32(table, offset + 8));
      if r.offset == 0 || r.size == 0 then None else Some(r)
  }

  /** `ota_factory_app_range`. */
  method FactoryAppRange(table: array<Byte>) returns (r: Option<Range>)
    requires table.Length == TABLE_SIZE
    ensures r == RangeFrom(table[..], 0)
  {
    var offset := 0;
    while offset + ENTRY_SIZE <= TABLE_SIZE
      invariant offset % ENTRY_SIZE == 0
      invariant RangeFrom(table[..], 0) == RangeFrom(table[..], offset)
    {
      if table[offset] == 0xff && table[offset + 1] == 0xff {
        break;
      }
      if table[offset] != 0xaa || table[offset + 1] != 0x50 {
        return None;
      }
      if table[offset + 2] == PARTITION_TYPE_APP {
        var entry := table[..];
        var app := Range(Le32(entry, offset + 4), Le32(entry, offset + 8));
        if app.offset == 0 || app.size == 0 {
          return None;
        }
        return Some(app);
      }
      offset := offset + ENTRY_SIZE;
    }
    return None;
  }

  // ----- the specification, on the whole upload

  function Min(a: nat, b: nat): nat {
    if a < b then a else b
  }

  function Max(a: nat, b: nat): nat {
    if a > b then a else b
  }

  predicate IsPlainImage(upload: seq<Byte>) {
    upload != [] && upload[0] == IMAGE_MAGIC
  }

  /** The application the upload's partition table names, if it has such a table. */
  function TableApp(upload: seq<Byte>): Option<Range> {
    if |upload| < TABLE_END then None else RangeFrom(upload[TABLE_OFFSET..TABLE_END], 0)
  }

  /** Writing the bytes of `upload` from `start` to `end` into a slot. */
  function Install(upload: seq<Byte>, start: nat, end: nat, slot: nat): Outcome
    requires end <= |upload|
  {
    if start >= end then EmptyImage
    else if upload[start] != IMAGE_MAGIC then InvalidApp
    else if end - start > slot then WriteFailed
    else Written(upload[start..end])
  }

  /** What an upload leads to: the table's application, cut at the upload's end, or the
      whole of a plain image. */
  function Extract(upload: seq<Byte>, slot: nat): Outcome {
    ExtractAt(upload, slot, 0)
  }

  /** The same when the chunk that completed the table started at `seen`: bytes before it
      are gone, and a plain image's first `seen` bytes had already gone to the slot. */
  function ExtractAt(upload: seq<Byte>, slot: nat, seen: nat): Outcome {
    var app := TableApp(upload);
    if app.Some? then
      if IsPlainImage(upload) && seen > slot then WriteFailed
      else if app.value.offset == SIZE_MAX then Unsupported
      else Install(upload, Max(app.value.offset, seen),
                   Min(app.value.offset + app.value.size, |upload|), slot)
    else if IsPlainImage(upload) then Install(upload, 0, |upload|, slot)
    else if |upload| >= TABLE_END then Unsupported
    else EmptyImage
  }

  /** An application placed after its table, and a slot that holds the part of an image
      before the table's end, make the chunks irrelevant. */
  lemma ChunksDoNotMatter(upload: seq<Byte>, slot: nat, seen: nat)
    requires seen < TABLE_END && slot >= TABLE_END
    requires TableApp(upload).Some? ==> TableApp(upload).value.offset >= TABLE_END
    ensures ExtractAt(upload, slot, seen) == Extract(upload, slot)
  {
  }

  /** Whether the application cut at `seen` fares as the whole one does. */
  predicate CutFaresAlike(upload: seq<Byte>, slot: nat, seen: nat)
    requires TableApp(upload).Some?
  {
    var app := TableApp(upload).value;
    var end := Min(app.offset + app.size, |upload|);
    || app.offset >= seen
    || app.offset >= end
    || (seen < end && upload[app.offset] != IMAGE_MAGIC && upload[seen] != IMAGE_MAGIC)
    || (seen < end && upload[app.offset] == IMAGE_MAGIC && upload[seen] == IMAGE_MAGIC && end - seen > slot)
  }

  /** WHEN CHUNKS MATTER: an application that starts before the chunk that completed the table loses
      its head, so the result is the same exactly when it starts no earlier, or there is none of it,
      or both the whole and the cut one are refused alike. */
  lemma ChunksMatterIff(upload: seq<Byte>, slot: nat, seen: nat)
    requires seen < TABLE_END && slot >= TABLE_END
    ensures ExtractAt(upload, slot, seen) == Extract(upload, slot)
            <==> TableApp(upload).None? || CutFaresAlike(upload, slot, seen)
    ensures TableApp(upload).Some? && Extract(upload, slot).Written? ==>
              (ExtractAt(upload, slot, seen) == Extract(upload, slot) <==> TableApp(upload).value.offset >= seen)
  {
    if TableApp(upload).Some? {
      var app := TableApp(upload).value;
      var end := Min(app.offset + app.size, |upload|);
      InstalledLength(upload, app.offset, end, slot);
      InstalledLength(upload, seen, end, slot);
    }
  }

  lemma InstalledLength(upload: seq<Byte>, start: nat, end: nat, slot: nat)
    requires end <= |upload|
    ensures Install(upload, start, end, slot).Written? ==> |Install(upload, start, end, slot).image| == end - start > 0
  {
  }

  // ----- chunks

  /** The bytes of some chunks, given their lengths. */
  function Total(chunks: seq<nat>): nat {
    if chunks == [] then 0 else chunks[0] + Total(chunks[1..])
  }

  predicate ChunksOk(upload: seq<Byte>, chunks: seq<nat>) {
    (forall i | 0 <= i < |chunks| :: 1 <= chunks[i] <= UPLOAD_BUFFER_SIZE) && Total(chunks) <= |upload|
  }

  /** Where the chunk that completes the table starts, the first chunk being at `at`. */
  function CompletingStart(chunks: seq<nat>, at: nat): nat {
    if chunks == [] then 0
    else if at + chunks[0] >= TABLE_END then at
    else CompletingStart(chunks[1..], at + chunks[0])
  }

  /** A full buffer of 4096 bytes keeps that chunk near the table's end. */
  lemma {:induction false} CompletingStartIsLate(chunks: seq<nat>, at: nat)
    requires forall i | 0 <= i < |chunks| :: 1 <= chunks[i] <= UPLOAD_BUFFER_SIZE
    requires at < TABLE_END <= at + Total(chunks)
    ensures at <= CompletingStart(chunks, at)
    ensures TABLE_END - UPLOAD_BUFFER_SIZE <= CompletingStart(chunks, at) < TABLE_END
    decreases |chunks|
  {
    if at + chunks[0] < TABLE_END {
      CompletingStartIsLate(chunks[1..], at + chunks[0]);
    }
  }

  // ----- an upload whose chunks matter

  /** A table whose only entry is an application at 0x7d00, of 0x1000 bytes. */
  function ExampleByte(i: nat): Byte {
    if i == 0x8000 then 0xaa
    else if i == 0x8001 then 0x50
    else if i == 0x8005 then 0x7d
    else if i == 0x8009 then 0x10
    else if i == 0x7d00 then IMAGE_MAGIC
    else 0
  }

  function ExampleUpload(): (r: seq<Byte>)
    ensures |r| == TABLE_END && forall i | 0 <= i < TABLE_END :: r[i] == ExampleByte(i)
  {
    seq(TABLE_END, i requires 0 <= i < TABLE_END => ExampleByte(i))
  }

  lemma ExampleTable()
    ensures TableApp(ExampleUpload()) == Some(Range(0x7d00, 0x1000))
  {
    hide ExampleUpload;
    var table := ExampleUpload()[TABLE_OFFSET..TABLE_END];
    assert forall i | 0 <= i < 12 :: table[i] == ExampleByte(TABLE_OFFSET + i);
  }

  /** A first chunk, seven full ones, and a last. */
  function NineChunks(first: nat, last: nat): seq<nat> {
    [first] + FullThen(7, last)
  }

  function FullThen(n: nat, last: nat): seq<nat> {
    if n == 0 then [last] else [UPLOAD_BUFFER_SIZE] + FullThen(n - 1, last)
  }

  lemma ConsChunks(first: nat, rest: seq<nat>, at: nat)
    ensures Total([first] + rest) == first + Total(rest)
    ensures CompletingStart([first] + rest, at)
         == if at + first >= TABLE_END then at else CompletingStart(rest, at + first)
  {
    assert ([first] + rest)[1..] == rest;
  }

  lemma {:induction false} FullThenIs(n: nat, last: nat, at: nat)
    requires 1 <= last <= UPLOAD_BUFFER_SIZE
    ensures Total(FullThen(n, last)) == UPLOAD_BUFFER_SIZE * n + last
    ensures forall i | 0 <= i < |FullThen(n, last)| :: 1 <= FullThen(n, last)[i] <= UPLOAD_BUFFER_SIZE
    ensures at + UPLOAD_BUFFER_SIZE * n < TABLE_END <= at + UPLOAD_BUFFER_SIZE * n + last ==>
              CompletingStart(FullThen(n, last), at) == at + UPLOAD_BUFFER_SIZE * n
  {
    if n == 0 {
      assert [last] == [last] + [];
      ConsChunks(last, [], at);
    } else {
      FullThenIs(n - 1, last, at + UPLOAD_BUFFER_SIZE);
      ConsChunks(UPLOAD_BUFFER_SIZE, FullThen(n - 1, last), at);
    }
  }

  lemma ExampleChunks()
    ensures var even, late := NineChunks(4096, 3072), NineChunks(3072, 4096);
            && ChunksOk(ExampleUpload(), even) && Total(even) == TABLE_END && CompletingStart(even, 0) == 0x8000
            && ChunksOk(ExampleUpload(), late) && Total(late) == TABLE_END && CompletingStart(late, 0) == 0x7c00
  {
    hide ExampleUpload, FullThen, Total, CompletingStart;
    FullThenIs(7, 3072, 4096);
    ConsChunks(4096, FullThen(7, 3072), 0);
    FullThenIs(7, 4096, 3072);
    ConsChunks(3072, FullThen(7, 4096), 0);
  }

  /** One upload, two ways to arrive: in one the application is installed, in the other its head went
      by before the table was complete. */
  lemma ChunksMatterExample()
    ensures ExtractAt(ExampleUpload(), TABLE_END, CompletingStart(NineChunks(3072, 4096), 0)).Written?
    ensures ExtractAt(ExampleUpload(), TABLE_END, CompletingStart(NineChunks(4096, 3072), 0)) == InvalidApp
  {
    ExampleChunks();
    hide ExampleUpload, CompletingStart, NineChunks;
    ExampleTable();
    hide TableApp;
    assert ExampleUpload()[0x7d00] == IMAGE_MAGIC && ExampleUpload()[0x8000] != IMAGE_MAGIC;
    assert ExampleUpload()[0] != IMAGE_MAGIC;
  }

  // ----- what the loop knows after `r` bytes

  /** Bytes of the table among the first `r` bytes of the upload. */
  function TableSeen(r: nat): nat {
    if r <= TABLE_OFFSET then 0 else Min(r, TABLE_END) - TABLE_OFFSET
  }

  ghost predicate TableState(upload: seq<Byte>, r: nat, table: seq<Byte>, tableBytes: nat, checked: bool) {
    && r <= |upload| && |table| == TABLE_SIZE && tableBytes == TableSeen(r)
    && (checked <==> r >= TABLE_END)
    && forall k | 0 <= k < tableBytes :: table[k] == upload[TABLE_OFFSET + k]
  }

  /** The window of the upload that goes to flash, and nothing but its magic byte decides
      whether it may. */
  ghost predicate FlashHolds(upload: seq<Byte>, slot: nat, r: nat, first: nat, last: nat, started: bool,
                             flash: seq<Byte>)
    requires r <= |upload| && last <= |upload|
  {
    && (started <==> first < Min(r, last))
    && flash == (if started then upload[first..Min(r, last)] else [])
    && |flash| <= slot
    && (started ==> upload[first] == IMAGE_MAGIC)
  }

  ghost predicate WriteState(upload: seq<Byte>, slot: nat, r: nat, checked: bool, seen: nat,
                             image: Range, started: bool, flash: seq<Byte>)
    requires r <= |upload|
  {
    var n := |upload|;
    var app := TableApp(upload);
    if !checked || app.None? then
      && (checked ==> IsPlainImage(upload))
      && image == (if r > 0 && IsPlainImage(upload) then Range(0, n) else Range(SIZE_MAX, 0))
      && (if IsPlainImage(upload) then FlashHolds(upload, slot, r, 0, n, started, flash)
          else !started && flash == [])
    else
      && image == app.value && image.offset != SIZE_MAX
      && !(IsPlainImage(upload) && seen > slot)
      && FlashHolds(upload, slot, r, Max(image.offset, seen), Min(image.offset + image.size, n), started, flash)
  }

  // ----- the loop

  /** Copies the part of the table that a chunk brings. */
  method CopyTable(upload: seq<Byte>, start: nat, end: nat, table: array<Byte>, tableBytes: nat)
    returns (tableBytes': nat)
    requires start < end <= |upload| && table.Length == TABLE_SIZE
    requires TableState(upload, start, table[..], tableBytes, start >= TABLE_END)
    modifies table
    ensures TableState(upload, end, table[..], tableBytes', end >= TABLE_END)
  {
    tableBytes' := tableBytes;
    if end > TABLE_OFFSET && tableBytes < TABLE_SIZE {
      var copyStart := Max(start, TABLE_OFFSET);
      var copyEnd := Min(end, TABLE_END);
      var at := copyStart - TABLE_OFFSET;
      var buf := upload[start..end];
      forall k | 0 <= k < copyEnd - copyStart {
        table[at + k] := buf[copyStart - start + k];
      }
      if at == tableBytes {
        tableBytes' := tableBytes + (copyEnd - copyStart);
      }
    }
  }

  /** What writing the part of a chunk that lies inside the image does. */
  ghost predicate ChunkWritten(upload: seq<Byte>, slot: nat, start: nat, end: nat, image: Range,
                               started: bool, flash: seq<Byte>,
                               failure: Option<Outcome>, started': bool, flash': seq<Byte>)
    requires start < end <= |upload|
  {
    var first, last := Max(start, image.offset), Min(end, Min(image.offset + image.size, |upload|));
    if first >= last then failure.None? && started' == started && flash' == flash
    else if !started && upload[first] != IMAGE_MAGIC then failure == Some(InvalidApp)
    else if |flash| + (last - first) > slot then failure == Some(WriteFailed)
    else failure.None? && started' && flash' == flash + upload[first..last]
  }

  lemma SliceOfSlice(s: seq<Byte>, start: nat, end: nat, at: nat, n: nat)
    requires start + at + n <= end <= |s|
    ensures s[start..end][at..at + n] == s[start + at..start + at + n]
  {
    var inner, outer := s[start..end][at..at + n], s[start + at..start + at + n];
    assert forall k | 0 <= k < n :: inner[k] == outer[k];
  }

  method WriteChunk(upload: seq<Byte>, slot: nat, start: nat, end: nat, image: Range, started: bool,
                    flash: seq<Byte>)
    returns (failure: Option<Outcome>, started': bool, flash': seq<Byte>)
    requires start < end <= |upload| < SIZE_MAX && image.offset < SIZE_MAX
    ensures ChunkWritten(upload, slot, start, end, image, started, flash, failure, started', flash')
  {
    failure, started', flash' := None, started, flash;
    var buf := upload[start..end];
    var imageEnd := if image.size > SIZE_MAX - image.offset then |upload| else image.offset + image.size;
    if imageEnd > |upload| {
      imageEnd := |upload|;
    }
    var writeStart := Max(start, image.offset);
    var writeEnd := Min(end, imageEnd);
    if writeEnd > writeStart {
      var at := writeStart - start;
      if !started {
        if buf[at] != IMAGE_MAGIC {
          return Some(InvalidApp), started, flash;
        }
        started' := true;
      }
      var part := buf[at..at + (writeEnd - writeStart)];
      if |flash| + |part| > slot {
        return Some(WriteFailed), started', flash;
      }
      SliceOfSlice(upload, start, end, at, writeEnd - writeStart);
      flash' := flash + part;
    }
  }

  /** Which image a chunk's bytes belong to, once its header and table bytes have been
      looked at: like `WriteState`, but with the chunk's own bytes not yet written. */
  ghost predicate Planned(upload: seq<Byte>, slot: nat, r: nat, checked: bool, seen: nat,
                          image: Range, started: bool, flash: seq<Byte>)
    requires r <= |upload|
  {
    var n := |upload|;
    var app := TableApp(upload);
    if !checked || app.None? then
      && (checked ==> IsPlainImage(upload))
      && image == (if IsPlainImage(upload) then Range(0, n) else Range(SIZE_MAX, 0))
      && (if IsPlainImage(upload) then FlashHolds(upload, slot, r, 0, n, started, flash)
          else !started && flash == [])
    else
      && image == app.value
      && !(IsPlainImage(upload) && seen > slot)
      && FlashHolds(upload, slot, r, Max(image.offset, seen), Min(image.offset + image.size, n), started, flash)
  }

  lemma GrowFlash(upload: seq<Byte>, slot: nat, start: nat, end: nat, first: nat, last: nat,
                  started: bool, flash: seq<Byte>)
    requires start < end <= |upload| && last <= |upload|
    requires FlashHolds(upload, slot, start, first, last, started, flash)
    ensures var from, to := Max(start, first), Min(end, last);
            && (from >= to ==> FlashHolds(upload, slot, end, first, last, started, flash))
            && (from < to && (started || upload[from] == IMAGE_MAGIC) && |flash| + (to - from) <= slot ==>
                  FlashHolds(upload, slot, end, first, last, true, flash + upload[from..to]))
            && (from < to && !started && upload[from] != IMAGE_MAGIC ==>
                  Install(upload, first, last, slot) == InvalidApp)
            && (from < to && (started || upload[from] == IMAGE_MAGIC) && |flash| + (to - from) > slot ==>
                  Install(upload, first, last, slot) == WriteFailed)
  {
    var from, to := Max(start, first), Min(end, last);
    if from < to {
      if started {
        assert from == start && upload[first..start] + upload[start..to] == upload[first..to];
      } else {
        assert from == first;
      }
    }
  }

  /** Writing a planned chunk gives the next state of the loop, or ends it with the outcome
      the whole upload has. First for bytes of a plain image. */
  lemma PlainWriteStep(upload: seq<Byte>, slot: nat, start: nat, end: nat, checked: bool, seen: nat,
                       image: Range, started: bool, flash: seq<Byte>,
                       failure: Option<Outcome>, started': bool, flash': seq<Byte>)
    requires start < end <= |upload| && image.offset != SIZE_MAX
    requires (checked <==> end >= TABLE_END) && (!checked || TableApp(upload).None?)
    requires Planned(upload, slot, start, checked, seen, image, started, flash)
    requires ChunkWritten(upload, slot, start, end, image, started, flash, failure, started', flash')
    ensures failure.None? ==> WriteState(upload, slot, end, checked, seen, image, started', flash')
    ensures failure.Some? && checked ==> failure.value == ExtractAt(upload, slot, seen)
    ensures failure.Some? && !checked ==> failure.value.WriteFailed? && IsPlainImage(upload) && end > slot
  {
    GrowFlash(upload, slot, start, end, 0, |upload|, started, flash);
  }

  /** A plain image that has overrun the slot fails wherever a table still turns up. */
  lemma OverrunFails(upload: seq<Byte>, slot: nat, end: nat, seen: nat)
    requires IsPlainImage(upload) && slot < end <= |upload|
    requires TableApp(upload).Some? ==> end <= seen
    ensures ExtractAt(upload, slot, seen) == WriteFailed
  {
  }

  /** Then for bytes of a table's application. */
  lemma AppWriteStep(upload: seq<Byte>, slot: nat, start: nat, end: nat, seen: nat,
                     image: Range, started: bool, flash: seq<Byte>,
                     failure: Option<Outcome>, started': bool, flash': seq<Byte>)
    requires start < end <= |upload| && image.offset != SIZE_MAX
    requires TableApp(upload).Some? && seen <= start
    requires Planned(upload, slot, start, true, seen, image, started, flash)
    requires ChunkWritten(upload, slot, start, end, image, started, flash, failure, started', flash')
    ensures failure.None? ==> WriteState(upload, slot, end, true, seen, image, started', flash')
    ensures failure.Some? ==> failure.value == ExtractAt(upload, slot, seen)
  {
    var first, last := Max(image.offset, seen), Min(image.offset + image.size, |upload|);
    GrowFlash(upload, slot, start, end, first, last, started, flash);
    assert Max(start, image.offset) == Max(start, first);
    assert ExtractAt(upload, slot, seen) == Install(upload, first, last, slot);
  }

  /** Header and table bytes of a chunk settle which image it belongs to; a table that turns
      up aborts what was written so far. */
  method Recognise(upload: seq<Byte>, slot: nat, start: nat, end: nat, table: array<Byte>, tableBytes: nat,
                   checked: bool, ghost seen: nat, image: Range, started: bool, flash: seq<Byte>)
    returns (tableBytes': nat, checked': bool, ghost seen': nat, image': Range, started': bool,
             flash': seq<Byte>, unsupported: bool)
    requires start < end <= |upload| < SIZE_MAX && table.Length == TABLE_SIZE && seen < TABLE_END
    requires TableState(upload, start, table[..], tableBytes, checked) && (checked ==> seen <= start)
    requires WriteState(upload, slot, start, checked, seen, image, started, flash)
    modifies table
    ensures TableState(upload, end, table[..], tableBytes', checked')
    ensures seen' < TABLE_END && (checked' ==> seen' <= start)
    ensures checked' <==> end >= TABLE_END
    ensures seen' == if !checked && end >= TABLE_END then start else seen
    ensures unsupported ==> checked'
    ensures unsupported ==> ExtractAt(upload, slot, seen') == Unsupported
    ensures !unsupported ==> Planned(upload, slot, start, checked', seen', image', started', flash')
  {
    tableBytes', checked', seen', image', started', flash' := tableBytes, checked, seen, image, started, flash;
    unsupported := false;
    if image'.offset == SIZE_MAX && start == 0 && upload[0] == IMAGE_MAGIC {
      image' := Range(0, |upload|);
    }
    if !checked {
      tableBytes' := CopyTable(upload, start, end, table, tableBytes);
      if tableBytes' >= TABLE_SIZE {
        checked', seen' := true, start;
        var app := FactoryAppRange(table);
        assert table[..] == upload[TABLE_OFFSET..TABLE_END];
        if app.Some? {
          started', flash' := false, [];
          image' := app.value;
        } else if image'.offset == SIZE_MAX {
          unsupported := true;
        }
      }
    }
  }

  /** The write stage of one pass: the next state of the loop, or the upload's outcome. */
  method WritePlanned(upload: seq<Byte>, slot: nat, start: nat, end: nat, ghost checked: bool, ghost seen: nat,
                      image: Range, started: bool, flash: seq<Byte>)
    returns (failure: Option<Outcome>, started': bool, flash': seq<Byte>)
    requires start < end <= |upload| < SIZE_MAX && image.offset < SIZE_MAX
    requires (checked <==> end >= TABLE_END) && (checked ==> seen <= start)
    requires Planned(upload, slot, start, checked, seen, image, started, flash)
    ensures failure.None? ==> WriteState(upload, slot, end, checked, seen, image, started', flash')
    ensures failure.Some? && checked ==> failure.value == ExtractAt(upload, slot, seen)
    ensures failure.Some? && !checked ==> failure.value.WriteFailed? && IsPlainImage(upload) && end > slot
    ensures failure.Some? ==> !failure.value.Written?
  {
    failure, started', flash' := WriteChunk(upload, slot, start, end, image, started, flash);
    if !checked || TableApp(upload).None? {
      PlainWriteStep(upload, slot, start, end, checked, seen, image, started, flash, failure, started', flash');
    } else {
      AppWriteStep(upload, slot, start, end, seen, image, started, flash, failure, started', flash');
    }
  }

  lemma LoopStarts(upload: seq<Byte>, slot: nat, table: seq<Byte>)
    requires |table| == TABLE_SIZE
    ensures TableState(upload, 0, table, 0, false)
    ensures WriteState(upload, slot, 0, false, 0, Range(SIZE_MAX, 0), false, [])
  {
  }

  /** A chunk of no known image: refused once the table's place has passed, skipped before. */
  lemma NoImageStep(upload: seq<Byte>, slot: nat, start: nat, end: nat, checked: bool, seen: nat,
                    image: Range, started: bool, flash: seq<Byte>)
    requires start < end <= |upload| < SIZE_MAX && image.offset == SIZE_MAX
    requires Planned(upload, slot, start, checked, seen, image, started, flash)
    ensures checked ==> ExtractAt(upload, slot, seen) == Unsupported
    ensures !checked ==> WriteState(upload, slot, end, checked, seen, image, started, flash)
  {
  }

  lemma LoopEnds(upload: seq<Byte>, slot: nat, table: seq<Byte>, tableBytes: nat, checked: bool, seen: nat,
                 image: Range, started: bool, flash: seq<Byte>)
    requires 0 < |upload|
    requires TableState(upload, |upload|, table, tableBytes, checked)
    requires WriteState(upload, slot, |upload|, checked, seen, image, started, flash)
    ensures ExtractAt(upload, slot, seen) == if !started || |flash| == 0 then EmptyImage else Written(flash)
  {
  }

  /** `ota_install_handler` for an upload that arrives in these chunks. When they bring all of it the
      outcome is the table's application from the chunk that completed the table on, or the plain
      image; for an application behind its table the chunks do not matter. An upload that breaks off
      is never installed. */
  method InstallHandler(upload: seq<Byte>, slot: nat, chunks: seq<nat>) returns (outcome: Outcome)
    requires 0 < |upload| < SIZE_MAX && ChunksOk(upload, chunks)
    ensures Total(chunks) == |upload| ==> outcome == ExtractAt(upload, slot, CompletingStart(chunks, 0))
    ensures Total(chunks) == |upload| && slot >= TABLE_END &&
            (TableApp(upload).Some? ==> TableApp(upload).value.offset >= TABLE_END)
            ==> outcome == Extract(upload, slot)
    ensures Total(chunks) < |upload| ==> !outcome.Written?
  {
    outcome := UploadLoop(upload, slot, chunks);
    if Total(chunks) == |upload| >= TABLE_END {
      CompletingStartIsLate(chunks, 0);
      if slot >= TABLE_END && (TableApp(upload).Some? ==> TableApp(upload).value.offset >= TABLE_END) {
        ChunksDoNotMatter(upload, slot, CompletingStart(chunks, 0));
      }
    }
  }

  /** Where the loop stands after the first `i` chunks. */
  ghost predicate Follows(chunks: seq<nat>, i: nat, received: nat, checked: bool, seen: nat)
    requires i <= |chunks|
  {
    && received + Total(chunks[i..]) == Total(chunks)
    && (checked <==> received >= TABLE_END)
    && (checked ==> seen == CompletingStart(chunks, 0))
    && (!checked ==> CompletingStart(chunks, 0) == CompletingStart(chunks[i..], received))
  }

  lemma FollowsNext(chunks: seq<nat>, i: nat, received: nat, checked: bool, seen: nat)
    requires i < |chunks| && Follows(chunks, i, received, checked, seen)
    ensures var end := received + chunks[i];
            Follows(chunks, i + 1, end, end >= TABLE_END, if !checked && end >= TABLE_END then received else seen)
  {
    assert chunks[i..][1..] == chunks[i + 1..] && chunks[i..][0] == chunks[i];
  }

  /** An overrun before the table's end is the outcome of the whole upload too. */
  lemma EarlyOverrun(upload: seq<Byte>, slot: nat, chunks: seq<nat>, i: nat, end: nat, seen: nat)
    requires ChunksOk(upload, chunks) && i <= |chunks| && Follows(chunks, i, end, false, seen)
    requires IsPlainImage(upload) && slot < end <= |upload| && Total(chunks) == |upload|
    ensures ExtractAt(upload, slot, CompletingStart(chunks, 0)) == WriteFailed
  {
    if |upload| >= TABLE_END {
      CompletingStartIsLate(chunks[i..], end);
    }
    OverrunFails(upload, slot, end, CompletingStart(chunks, 0));
  }

  /** Without a table's worth of bytes it does not matter what was seen. */
  lemma TooShortForTable(upload: seq<Byte>, slot: nat, seen: nat, other: nat)
    requires |upload| < TABLE_END
    ensures ExtractAt(upload, slot, seen) == ExtractAt(upload, slot, other)
  {
  }

  method UploadLoop(upload: seq<Byte>, slot: nat, chunks: seq<nat>) returns (outcome: Outcome)
    requires 0 < |upload| < SIZE_MAX && ChunksOk(upload, chunks)
    ensures Total(chunks) == |upload| ==> outcome == ExtractAt(upload, slot, CompletingStart(chunks, 0))
    ensures Total(chunks) < |upload| ==> !outcome.Written?
  {
    hide WriteState, Planned, ExtractAt, Follows, IsPlainImage;
    ghost var seen: nat := 0;
    var contentLen := |upload|;
    var table := new Byte[TABLE_SIZE](_ => 0);
    var tableBytes: nat := 0;
    var image := Range(SIZE_MAX, 0);
    var received: nat, started, checked := 0, false, false;
    var flash: seq<Byte> := [];
    var i := 0;
    LoopStarts(upload, slot, table[..]);
    NothingFollowed(chunks);
    while received < contentLen
      invariant i <= |chunks| && received <= contentLen && seen < TABLE_END && (checked ==> seen <= received)
      invariant Follows(chunks, i, received, checked, seen)
      invariant TableState(upload, received, table[..], tableBytes, checked)
      invariant WriteState(upload, slot, received, checked, seen, image, started, flash)
      decreases |chunks| - i
    {
      if i == |chunks| {
        NothingLeft(chunks, received, checked, seen);
        return BrokenOff;
      }
      FollowsNext(chunks, i, received, checked, seen);
      FollowsBound(chunks, i, received, checked, seen);
      var end := received + chunks[i];
      i := i + 1;
      var unsupported;
      tableBytes, checked, seen, image, started, flash, unsupported :=
        Recognise(upload, slot, received, end, table, tableBytes, checked, seen, image, started, flash);
      if unsupported {
        FollowsSeen(chunks, i, end, checked, seen);
        return Unsupported;
      }
      if image.offset < SIZE_MAX {
        var failure;
        failure, started, flash :=
          WritePlanned(upload, slot, received, end, checked, seen, image, started, flash);
        if failure.Some? {
          if checked {
            FollowsSeen(chunks, i, end, checked, seen);
          } else if Total(chunks) == |upload| {
            EarlyOverrun(upload, slot, chunks, i, end, seen);
          }
          return failure.value;
        }
      } else {
        ImageInRange(upload, slot, received, checked, seen, image, started, flash);
        NoImageStep(upload, slot, received, end, checked, seen, image, started, flash);
        if end >= TABLE_END {
          FollowsSeen(chunks, i, end, checked, seen);
          return Unsupported;
        }
      }
      received := end;
    }
    LoopEnds(upload, slot, table[..], tableBytes, checked, seen, image, started, flash);
    if checked {
      FollowsSeen(chunks, i, received, checked, seen);
    } else {
      TooShortForTable(upload, slot, seen, CompletingStart(chunks, 0));
    }
    FollowsBound(chunks, i, received, checked, seen);
    outcome := if !started || |flash| == 0 then EmptyImage else Written(flash);
  }

  lemma NothingFollowed(chunks: seq<nat>)
    ensures Follows(chunks, 0, 0, false, 0)
  {
    assert chunks[0..] == chunks;
  }

  lemma NothingLeft(chunks: seq<nat>, received: nat, checked: bool, seen: nat)
    requires Follows(chunks, |chunks|, received, checked, seen)
    ensures received == Total(chunks)
  {
    assert chunks[|chunks|..] == [];
  }

  lemma FollowsBound(chunks: seq<nat>, i: nat, received: nat, checked: bool, seen: nat)
    requires i <= |chunks| && Follows(chunks, i, received, checked, seen)
    ensures received <= Total(chunks) && (i < |chunks| ==> received + chunks[i] <= Total(chunks))
  {
    if i < |chunks| {
      assert chunks[i..][0] == chunks[i];
    }
  }

  lemma FollowsSeen(chunks: seq<nat>, i: nat, received: nat, checked: bool, seen: nat)
    requires i <= |chunks| && Follows(chunks, i, received, checked, seen) && checked
    ensures seen == CompletingStart(chunks, 0)
  {
  }

  lemma ImageInRange(upload: seq<Byte>, slot: nat, r: nat, checked: bool, seen: nat,
                     image: Range, started: bool, flash: seq<Byte>)
    requires r <= |upload|
    requires Planned(upload, slot, r, checked, seen, image, started, flash)
    ensures image.offset <= SIZE_MAX
  {
  }
}
