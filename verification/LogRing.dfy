/** The log ring of main/m45_log_buffer.c: a 16384-cell ring that is written with wraparound copies
    and read by sequence number, against the plain byte stream it stands for. */
module LogRing {

  const SIZE: nat := 16384
  const U64: nat := 0x1_0000_0000_0000_0000

  // ----- the stream

  /** The part of an append that is kept: its tail when it is longer than the ring. */
  function Kept(data: seq<char>): (r: seq<char>)
    ensures |r| <= SIZE && (|data| <= SIZE ==> r == data)
    ensures |data| > SIZE ==> |r| == SIZE && r == data[|data| - SIZE..]
  {
    if |data| > SIZE then data[|data| - SIZE..] else data
  }

  function Cell(k: nat): (r: nat)
    ensures r < SIZE
  {
    k % SIZE
  }

  function Wrap(k: nat): nat {
    k % U64
  }

  /** Cell k mod 16384 holds stream byte k, for the last 16384 bytes. */
  ghost predicate Holds(cells: seq<char>, stream: seq<char>) {
    && |cells| == SIZE
    && forall k: nat :: k < |stream| <= k + SIZE ==> cells[Cell(k)] == stream[k]
  }

  /** Where cell numbers go after `base`: straight up, then on from zero. */
  lemma CellFrom(base: nat, d: nat)
    requires d < SIZE
    ensures Cell(base + d) == if Cell(base) + d < SIZE then Cell(base) + d else Cell(base) + d - SIZE
  {
  }

  lemma CellOfWrapped(k: nat)
    ensures Cell(Wrap(k)) == Cell(k)
  {
    var q := k / U64;
    assert k == Wrap(k) + SIZE * (q * (U64 / SIZE));
    CellPeriod(Wrap(k), q * (U64 / SIZE));
  }

  lemma {:induction false} CellPeriod(k: nat, n: nat)
    ensures Cell(k + SIZE * n) == Cell(k)
  {
    if n > 0 {
      CellPeriod(k, n - 1);
      assert k + SIZE * n == k + SIZE * (n - 1) + SIZE;
    }
  }

  lemma WrapFits(k: nat)
    ensures Wrap(k) < U64 && Wrap(k) <= k && (k < U64 ==> Wrap(k) == k)
  {
  }

  lemma WrapBack(k: nat, n: nat)
    requires n <= Wrap(k)
    ensures n <= k && Wrap(k - n) == Wrap(k) - n
  {
    WrapFits(k);
    WrapUnique(k / U64, Wrap(k) - n);
  }

  lemma WrapUnique(q: nat, r: nat)
    requires r < U64
    ensures Wrap(U64 * q + r) == r
  {
  }

  lemma WrapSum(k: nat, n: nat)
    ensures Wrap(Wrap(k) + n) == Wrap(k + n)
  {
  }

  /** What a copy in two pieces to cell `at` leaves in the ring. */
  ghost predicate Written(before: seq<char>, after: seq<char>, at: nat, data: seq<char>) {
    && |before| == SIZE && |after| == SIZE && |data| <= SIZE && at < SIZE
    && (forall i: nat :: i < SIZE - at && i < |data| ==> after[at + i] == data[i])
    && (forall i: nat :: SIZE - at <= i < |data| ==> after[i - (SIZE - at)] == data[i])
    && (forall c: nat :: c < SIZE && !(at <= c < at + |data|) && c + SIZE >= at + |data| ==> after[c] == before[c])
  }

  /** The two copies into the ring. */
  method CopyIn(cells: array<char>, at: nat, data: seq<char>)
    requires cells.Length == SIZE && at < SIZE && |data| <= SIZE
    modifies cells
    ensures Written(old(cells[..]), cells[..], at, data)
  {
    var first := if |data| < SIZE - at then |data| else SIZE - at;
    forall i | 0 <= i < first {
      cells[at + i] := data[i];
    }
    forall i | 0 <= i < |data| - first {
      cells[i] := data[first + i];
    }
  }

  /** The two copies out of the ring. */
  method CopyOut(cells: array<char>, at: nat, len: nat, dst: array<char>)
    requires cells.Length == SIZE && at < SIZE && len <= SIZE && len < dst.Length && dst != cells
    modifies dst
    ensures forall i: nat :: i < SIZE - at && i < len ==> dst[i] == cells[at + i]
    ensures forall i: nat :: SIZE - at <= i < len ==> dst[i] == cells[i - (SIZE - at)]
  {
    var first := if len < SIZE - at then len else SIZE - at;
    forall i | 0 <= i < first {
      dst[i] := cells[at + i];
    }
    forall i | 0 <= i < len - first {
      dst[first + i] := cells[i];
    }
  }

  lemma WrittenHolds(before: seq<char>, after: seq<char>, stream: seq<char>, data: seq<char>)
    requires data != [] && Holds(before, stream) && Written(before, after, Cell(|stream|), data)
    ensures Holds(after, stream + data)
  {
    hide Cell;
    var base := |stream|;
    forall k: nat | k < base + |data| <= k + SIZE ensures after[Cell(k)] == (stream + data)[k] {
      if k >= base {
        CellFrom(base, k - base);
        assert k == base + (k - base);
        assert after[Cell(k)] == data[k - base];
      } else {
        CellFrom(k, base - k);
        assert base == k + (base - k);
        assert before[Cell(k)] == stream[k];
      }
    }
  }

  // ----- reading

  function Smaller(a: nat, b: nat): nat {
    if a < b then a else b
  }

  /** What one read hands out. */
  datatype Copy = Copy(text: seq<char>, next: nat, truncated: bool)

  /** The sum `since + 16384` wraps. */
  predicate FellOut(since: nat, end: nat) {
    Wrap(since + SIZE) < end
  }

  function Start(since: nat, end: nat): (r: nat)
    ensures r <= end <= r + SIZE || (r == since && r <= end)
  {
    if since == 0 || FellOut(since, end) then (if end > SIZE then end - SIZE else 0)
    else if since > end then end
    else since
  }

  /** The end of the stream, as much as there is behind `since` and room for. */
  function Copied(stream: seq<char>, since: nat, room: nat): Copy
    requires room > 0
  {
    WrapFits(|stream|);
    var end := Wrap(|stream|);
    var available := end - Start(since, end);
    Copy(stream[|stream| - Smaller(available, room - 1)..], end,
         available >= room || (since != 0 && FellOut(since, end)))
  }

  /** A read hands out a suffix of the stream, never more than the ring or the room holds. */
  lemma CopiedIsSuffix(stream: seq<char>, since: nat, room: nat)
    requires room > 0 && since < U64
    ensures var c := Copied(stream, since, room);
            && |c.text| <= |stream| && |c.text| <= SIZE && |c.text| < room
            && c.text == stream[|stream| - |c.text|..]
            && c.next == Wrap(|stream|)
  {
    WrapFits(|stream|);
    StartInRing(since, Wrap(|stream|));
  }

  lemma StartInRing(since: nat, end: nat)
    requires since < U64 && end < U64
    ensures Start(since, end) <= end <= Start(since, end) + SIZE
  {
    if since + SIZE < U64 {
      assert Wrap(since + SIZE) == since + SIZE;
    }
  }

  /** For a position the stream has passed, the flag says exactly that bytes are missing, and
      without it the read is everything from that position on. */
  lemma TruncatedIff(stream: seq<char>, since: nat, room: nat)
    requires room > 0 && 0 < since <= |stream| && |stream| + SIZE < U64
    ensures var c := Copied(stream, since, room);
            && (c.truncated <==> |stream| - since > Smaller(SIZE, room - 1))
            && (c.truncated <==> c.text != stream[since..])
            && (!c.truncated ==> c.text == stream[since..])
            && (c.truncated ==> |c.text| == Smaller(SIZE, room - 1))
  {
    assert Wrap(since + SIZE) == since + SIZE;
    var c := Copied(stream, since, room);
    if c.truncated {
      assert |c.text| < |stream[since..]|;
    }
  }

  /** From zero, what the ring has lost is never flagged: the flag tells of the room alone. */
  lemma ZeroNeverFlagsTheRing(stream: seq<char>, room: nat)
    requires room > 0
    ensures var c := Copied(stream, 0, room);
            && (c.truncated <==> Smaller(Wrap(|stream|), SIZE) >= room)
            && (!c.truncated ==> (c.text == stream <==> |stream| <= SIZE))
  {
    WrapFits(|stream|);
    var c := Copied(stream, 0, room);
    if !c.truncated && |stream| > SIZE {
      assert |c.text| <= SIZE;
    }
  }

  /** The log page's first read: as much room as the ring holds and a terminator. */
  lemma FirstPageIsNotFlagged(stream: seq<char>)
    requires |stream| > SIZE
    ensures var c := Copied(stream, 0, SIZE + 1);
            && !c.truncated && c.text != stream
            && (|stream| < U64 ==> c.text == stream[|stream| - SIZE..])
  {
    ZeroNeverFlagsTheRing(stream, SIZE + 1);
    WrapFits(|stream|);
  }

  /** A position the stream has not reached yet (one from before a release, say) gets nothing and
      no flag, unless adding the ring size wraps it. */
  lemma AheadGetsNothing(stream: seq<char>, since: nat, room: nat)
    requires room > 0 && |stream| < since && since + SIZE < U64
    ensures Copied(stream, since, room) == Copy([], |stream|, false)
  {
    assert Wrap(since + SIZE) == since + SIZE;
  }

  // ----- chains of reads

  datatype Event = Append(data: seq<char>) | Read(room: nat)

  function Grown(stream: seq<char>, events: seq<Event>): (r: seq<char>)
    ensures |stream| <= |r| && r[..|stream|] == stream
    decreases |events|
  {
    if events == [] then stream
    else Grown(if events[0].Append? then stream + Kept(events[0].data) else stream, events[1..])
  }

  /** Reads chained through `next`: all texts joined, the last position, and whether any was flagged. */
  function Chained(stream: seq<char>, since: nat, events: seq<Event>): Copy
    requires forall e :: e in events && e.Read? ==> e.room > 0
    decreases |events|
  {
    if events == [] then Copy([], since, false)
    else match events[0]
      case Append(data) => Chained(stream + Kept(data), since, events[1..])
      case Read(room) =>
        var c := Copied(stream, since, room);
        var rest := Chained(stream, c.next, events[1..]);
        Copy(c.text + rest.text, rest.next, c.truncated || rest.truncated)
  }

  lemma ReadToTheEnd(stream: seq<char>, since: nat, room: nat)
    requires room > 0 && 0 < since <= |stream| && |stream| + SIZE < U64
    ensures var c := Copied(stream, since, room);
            !c.truncated ==> c == Copy(stream[since..], |stream|, false)
  {
    TruncatedIff(stream, since, room);
    WrapFits(|stream|);
  }

  lemma Joined(stream: seq<char>, all: seq<char>, since: nat, last: nat)
    requires since <= |stream| <= last <= |all| && all[..|stream|] == stream
    ensures all[since..last] == stream[since..] + all[|stream|..last]
  {
    assert stream[since..] == all[since..|stream|];
  }

  /** NO GAP, NO REPEAT: chained reads without a flag join to the stream from where the chain began
      up to the last read, however appends and reads alternate. */
  lemma {:induction false} ChainedReadsJoin(stream: seq<char>, since: nat, events: seq<Event>)
    requires forall e :: e in events && e.Read? ==> e.room > 0
    requires 0 < since <= |stream|
    requires |Grown(stream, events)| + SIZE < U64
    requires !Chained(stream, since, events).truncated
    ensures var c := Chained(stream, since, events);
            && since <= c.next <= |Grown(stream, events)|
            && c.text == Grown(stream, events)[since..c.next]
    decreases |events|
  {
    if events != [] {
      var rest := events[1..];
      match events[0]
      case Append(data) => ChainedReadsJoin(stream + Kept(data), since, rest);
      case Read(room) =>
        assert events[0] in events && events[0].Read?;
        var all := Grown(stream, rest);
        hide Copied, Grown, Kept;
        ReadToTheEnd(stream, since, room);
        ChainedReadsJoin(stream, |stream|, rest);
        Joined(stream, all, since, Chained(stream, |stream|, rest).next);
    }
  }

  /** One append longer than the ring loses its head without a flag. */
  lemma LongAppendIsNotFlagged(stream: seq<char>, data: seq<char>)
    requires 0 < |stream| && |data| > SIZE && |stream| + 2 * SIZE < U64
    ensures var c := Copied(stream + Kept(data), |stream|, SIZE + 1);
            !c.truncated && c.text == data[|data| - SIZE..]
  {
    TruncatedIff(stream + Kept(data), |stream|, SIZE + 1);
  }

  // ----- the ring

  class LogBuffer {
    var cells: array?<char>
    var seqNo: nat
    var until: int
    ghost var stream: seq<char>

    ghost predicate Valid()
      reads this, cells
    {
      && seqNo == Wrap(|stream|)
      && (cells == null ==> stream == [])
      && (cells != null ==> cells.Length == SIZE && Holds(cells[..], stream))
    }

    constructor ()
      ensures Valid() && cells == null && stream == []
    {
      cells := null;
      seqNo, until, stream := 0, 0, [];
    }

    /** `m45_log_buffer_keep_active`; `memory` says whether a ring can be had. */
    method KeepActive(memory: bool, now: int, timeout: nat)
      requires Valid()
      modifies this
      ensures Valid() && stream == old(stream)
      ensures old(cells) != null ==> cells == old(cells)
      ensures old(cells) == null ==> (cells != null <==> memory) && (cells != null ==> fresh(cells))
      ensures until == if old(cells) == null && !memory then old(until) else now + timeout
    {
      if cells == null {
        if !memory {
          return;
        }
        cells := new char[SIZE];
        seqNo := 0;
      }
      until := now + timeout;
    }

    /** `release_log_buffer`: nothing is released before its time. */
    method Release(now: int)
      requires Valid()
      modifies this
      ensures Valid()
      ensures old(until) > now ==> cells == old(cells) && stream == old(stream) && until == old(until)
      ensures old(until) <= now ==> cells == null && stream == [] && seqNo == 0
    {
      if until > now {
        return;
      }
      cells := null;
      seqNo, until, stream := 0, 0, [];
    }

    /** `append_log_bytes`. */
    method AppendBytes(text: seq<char>)
      requires Valid()
      modifies this, cells
      ensures Valid() && cells == old(cells) && until == old(until)
      ensures stream == if cells == null then [] else old(stream) + Kept(text)
    {
      if cells == null || text == [] {
        return;
      }
      AppendKept(if |text| > SIZE then text[|text| - SIZE..] else text);
    }

    /** The part of an append that is kept goes into the ring. */
    method AppendKept(data: seq<char>)
      requires Valid() && cells != null && 0 < |data| <= SIZE
      modifies this`seqNo, this`stream, cells
      ensures Valid() && stream == old(stream) + data
    {
      hide Cell, Wrap, Holds, Written;
      CellOfWrapped(|stream|);
      CopyIn(cells, Cell(seqNo), data);
      WrittenHolds(old(cells[..]), cells[..], stream, data);
      WrapSum(|stream|, |data|);
      seqNo := Wrap(seqNo + |data|);
      stream := stream + data;
    }

    /** `m45_log_buffer_copy_since`: the room is the length of `dst`, a missing `dst` has none. */
    method CopySince(since: nat, dst: array<char>) returns (len: nat, next: nat, truncated: bool)
      requires Valid() && since < U64 && dst != cells
      modifies dst
      ensures Valid()
      ensures dst.Length == 0 || cells == null ==> len == 0 && next == 0 && !truncated
      ensures dst.Length > 0 ==> len < dst.Length && dst[len] == '\0'
      ensures dst.Length > 0 && cells != null ==>
                Copy(dst[..len], next, truncated) == Copied(stream, since, dst.Length)
    {
      len, next, truncated := 0, 0, false;
      if dst.Length == 0 {
        return;
      }
      if cells == null {
        dst[0] := '\0';
        return;
      }
      hide Wrap, Holds, Copied, Start, FellOut, Smaller;
      WrapFits(|stream|);
      var start;
      start, len, truncated := Window(since, seqNo, dst.Length);
      next := seqNo;
      CopyEnd(start, len, dst);
      CopiedIs(stream, since, dst.Length, len);
    }

    /** The copies out of the ring and the terminator. */
    method CopyEnd(start: nat, len: nat, dst: array<char>)
      requires Valid() && cells != null && dst != cells
      requires start + len == seqNo && len <= SIZE && len < dst.Length
      modifies dst
      ensures Valid() && dst[len] == '\0'
      ensures len <= |stream| && dst[..len] == stream[|stream| - len..]
    {
      hide Cell, Wrap, Holds;
      ghost var ring := cells[..];
      CopyOut(cells, Cell(start), len, dst);
      dst[len] := '\0';
      assert cells[..] == ring;
      ReadIs(ring, stream, start, len, dst[..len]);
    }
  }

  /** Where a read starts, how much it takes, and its flag. */
  method Window(since: nat, end: nat, room: nat) returns (start: nat, len: nat, truncated: bool)
    requires since < U64 && end < U64 && room > 0
    ensures start + len == end && len < room && len <= SIZE
    ensures len == Smaller(end - Start(since, end), room - 1)
    ensures truncated <==> end - Start(since, end) >= room || (since != 0 && FellOut(since, end))
  {
    start, truncated := since, false;
    if start == 0 || Wrap(start + SIZE) < end {
      start := if end > SIZE then end - SIZE else 0;
      truncated := since != 0;
    } else if start > end {
      start := end;
    }
    StartInRing(since, end);
    var available := end - start;
    len := if available < room - 1 then available else room - 1;
    if len < available {
      start := end - len;
      truncated := true;
    }
  }

  lemma CopiedIs(stream: seq<char>, since: nat, room: nat, len: nat)
    requires room > 0 && Wrap(|stream|) <= |stream|
    requires len == Smaller(Wrap(|stream|) - Start(since, Wrap(|stream|)), room - 1)
    ensures len <= |stream|
    ensures var end := Wrap(|stream|);
            var flag := end - Start(since, end) >= room || (since != 0 && FellOut(since, end));
            Copied(stream, since, room) == Copy(stream[|stream| - len..], end, flag)
  {
    hide Start, FellOut, Wrap;
  }

  /** What two copies out of the ring bring back. */
  lemma ReadIs(cells: seq<char>, stream: seq<char>, start: nat, len: nat, text: seq<char>)
    requires Holds(cells, stream) && start + len == Wrap(|stream|) && len <= SIZE && |text| == len
    requires forall i: nat :: i < SIZE - Cell(start) && i < len ==> text[i] == cells[Cell(start) + i]
    requires forall i: nat :: SIZE - Cell(start) <= i < len ==> text[i] == cells[i - (SIZE - Cell(start))]
    ensures len <= |stream| && text == stream[|stream| - len..]
  {
    WrapBack(|stream|, len);
    hide Cell, Wrap;
    var from := |stream| - len;
    CellOfWrapped(from);
    forall i: nat | i < len ensures text[i] == stream[from + i] {
      CellFrom(from, i);
      assert cells[Cell(from + i)] == stream[from + i];
    }
  }
}
