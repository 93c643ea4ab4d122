/** How main/stratum_minimal.c cuts what a pool sends into lines: a buffer that grows, a search for
    the newline, a terminator written in place, and a move of what is left. */
module LineFraming {
  import opened Basics

  const STEP: nat := 1024
  const MAX_LINE: nat := 16384

  // ----- lines of a byte stream

  /** Where the first newline stands; the length when there is none. */
  function Newline(s: seq<char>): (p: nat)
    ensures p <= |s| && '\n' !in s[..p] && (p < |s| ==> s[p] == '\n')
  {
    if s == [] then 0
    else if s[0] == '\n' then 0
    else
      var q := Newline(s[1..]);
      assert s[..q + 1] == [s[0]] + s[1..][..q];
      q + 1
  }

  lemma {:induction false} NewlineUnique(s: seq<char>, p: nat)
    requires p <= |s| && '\n' !in s[..p] && (p < |s| ==> s[p] == '\n')
    ensures Newline(s) == p
  {
    if p > 0 {
      assert s[0] in s[..p];
      assert s[1..][..p - 1] == s[..p][1..];
      NewlineUnique(s[1..], p - 1);
    }
  }

  /** Without one trailing carriage return. */
  function Trimmed(line: seq<char>): seq<char> {
    if line != [] && line[|line| - 1] == '\r' then line[..|line| - 1] else line
  }

  function Lines(s: seq<char>): seq<seq<char>>
    decreases |s|
  {
    var p := Newline(s);
    if p == |s| then [] else [Trimmed(s[..p])] + Lines(s[p + 1..])
  }

  /** What stands behind the last newline. */
  function Rest(s: seq<char>): (r: seq<char>)
    ensures |r| <= |s|
    decreases |s|
  {
    var p := Newline(s);
    if p == |s| then s else Rest(s[p + 1..])
  }

  lemma Regroup<T>(a: seq<T>, b: seq<T>, c: seq<T>)
    ensures (a + b) + c == a + (b + c)
  {
  }

  /** What stands behind the first `n` lines. */
  function Behind(s: seq<char>, n: nat): (r: seq<char>)
    ensures |r| <= |s|
    decreases n
  {
    var p := Newline(s);
    if n == 0 || p == |s| then s else Behind(s[p + 1..], n - 1)
  }

  lemma {:induction false} RestHasNoNewline(s: seq<char>)
    ensures Newline(Rest(s)) == |Rest(s)|
    decreases |s|
  {
    if Newline(s) < |s| {
      RestHasNoNewline(s[Newline(s) + 1..]);
    }
  }

  /** CHUNKS DO NOT MATTER: cutting a first part and going on from its rest cuts the whole. */
  lemma {:induction false} LinesOfBoth(a: seq<char>, b: seq<char>)
    ensures Lines(a + b) == Lines(a) + Lines(Rest(a) + b)
    ensures Rest(a + b) == Rest(Rest(a) + b)
    decreases |a|
  {
    var p := Newline(a);
    hide Newline, Trimmed, Lines, Rest;
    if p < |a| {
      LineInFront(a, b);
      LinesOfBoth(a[p + 1..], b);
      FirstLine(a);
      FirstLine(a + b);
      Regroup([Trimmed(a[..p])], Lines(a[p + 1..]), Lines(Rest(a) + b));
    } else {
      NoLine(a);
      assert [] + Lines(a + b) == Lines(a + b);
    }
  }

  lemma LineInFront(a: seq<char>, b: seq<char>)
    requires Newline(a) < |a|
    ensures var p := Newline(a);
            Newline(a + b) == p && (a + b)[..p] == a[..p] && (a + b)[p + 1..] == a[p + 1..] + b
  {
    var p := Newline(a);
    assert (a + b)[..p] == a[..p];
    NewlineUnique(a + b, p);
    assert (a + b)[p + 1..] == a[p + 1..] + b;
  }

  lemma NoLine(s: seq<char>)
    requires Newline(s) == |s|
    ensures Lines(s) == [] && Rest(s) == s
  {
  }

  /** WHAT A REMAINDER DOES to the lines of the next connection: nothing exactly when there is none,
      when neither it nor what follows has a newline, or when it is a lone carriage return in front
      of an empty line. Complete lines in it are handed out again. */
  lemma StaleRemainderIff(rest: seq<char>, s: seq<char>)
    ensures Lines(rest + s) == Lines(s) <==>
              || rest == []
              || (Newline(rest) == |rest| && Newline(s) == |s|)
              || (rest == ['\r'] && s != [] && s[0] == '\n')
  {
    if Newline(rest) < |rest| {
      LinesOfBoth(rest, s);
      RestHasNoNewline(rest);
      SameCount(Rest(rest), s);
    } else if Newline(s) < |s| {
      StaleInFront(rest, s);
    } else {
      NoNewlineBoth(rest, s);
    }
  }

  lemma NoNewlineBoth(a: seq<char>, b: seq<char>)
    requires Newline(a) == |a| && Newline(b) == |b|
    ensures Newline(a + b) == |a + b|
  {
    assert a[..|a|] == a && b[..|b|] == b && (a + b)[..|a + b|] == a + b;
    NewlineUnique(a + b, |a + b|);
  }

  /** Bytes without a newline in front do not change the number of lines. */
  lemma SameCount(rest: seq<char>, s: seq<char>)
    requires Newline(rest) == |rest|
    ensures |Lines(rest + s)| == |Lines(s)|
  {
    if Newline(s) < |s| {
      FirstOfBoth(rest, s);
      FirstLine(s);
    } else {
      NoNewlineBoth(rest, s);
    }
  }

  lemma StaleInFront(rest: seq<char>, s: seq<char>)
    requires Newline(rest) == |rest| && Newline(s) < |s|
    ensures Lines(rest + s) == Lines(s) <==> rest == [] || (rest == ['\r'] && s[0] == '\n')
  {
    var p := Newline(s);
    FirstOfBoth(rest, s);
    FirstLine(s);
    StartsWithNewline(s);
    hide Lines, Newline, Trimmed;
    assert Lines(rest + s)[0] == Trimmed(rest + s[..p]) && Lines(s)[0] == Trimmed(s[..p]);
    TrimmedPrefix(rest, s[..p]);
  }

  lemma StartsWithNewline(s: seq<char>)
    requires Newline(s) < |s|
    ensures s[0] == '\n' <==> Newline(s) == 0
  {
  }

  lemma FirstOfBoth(rest: seq<char>, s: seq<char>)
    requires Newline(rest) == |rest| && Newline(s) < |s|
    ensures Lines(rest + s) == [Trimmed(rest + s[..Newline(s)])] + Lines(s[Newline(s) + 1..])
  {
    var p := Newline(s);
    var both := rest + s;
    hide Lines, Newline, Trimmed;
    assert rest[..|rest|] == rest;
    assert both[..|rest| + p] == rest + s[..p];
    NewlineUnique(both, |rest| + p);
    assert both[|rest| + p + 1..] == s[p + 1..];
    FirstLine(both);
  }

  /** Something in front of a line shows, unless it is a carriage return that is trimmed. */
  lemma TrimmedPrefix(rest: seq<char>, line: seq<char>)
    ensures Trimmed(rest + line) == Trimmed(line) <==> rest == [] || (rest == ['\r'] && line == [])
  {
    if rest == [] {
      assert rest + line == line;
    } else if line != [] {
      assert (rest + line)[|rest| + |line| - 1] == line[|line| - 1];
      assert |Trimmed(rest + line)| > |Trimmed(line)|;
    } else {
      assert rest + line == rest;
    }
  }

  // ----- what a connection brings

  /** One return of the transport read. `memory` says whether the buffer can still grow. */
  datatype Event =
    | Data(bytes: seq<char>, memory: bool)
    | Quiet
    | Leave
    | Timeout
    | Failed

  predicate EventOk(e: Event) {
    e.Data? ==> 1 <= |e.bytes| <= STEP
  }

  predicate EventsOk(events: seq<Event>) {
    forall e :: e in events ==> EventOk(e)
  }

  function Received(events: seq<Event>): seq<char> {
    if events == [] then []
    else
      var last := events[|events| - 1];
      Received(events[..|events| - 1]) + if last.Data? then last.bytes else []
  }

  /** None of these ends a receive. */
  ghost predicate GoesOn(events: seq<Event>) {
    forall e :: e in events ==> e.Data? || e.Quiet?
  }

  lemma GoesOnOneMore(events: seq<Event>, i: nat)
    requires i < |events| && GoesOn(events[..i]) && (events[i].Data? || events[i].Quiet?)
    ensures GoesOn(events[..i + 1])
  {
    assert events[..i + 1] == events[..i] + [events[i]];
  }

  lemma GoesOnFrom(events: seq<Event>, used: nat, n: nat)
    requires used + n <= |events| && GoesOn(events[..used]) && GoesOn(events[used..][..n])
    ensures GoesOn(events[..used + n])
  {
    assert events[..used + n] == events[..used] + events[used..][..n];
  }

  lemma ReceivedOneMore(events: seq<Event>, i: nat)
    requires i < |events|
    ensures Received(events[..i + 1]) == Received(events[..i]) + if events[i].Data? then events[i].bytes else []
  {
    assert events[..i + 1][..i] == events[..i];
  }

  lemma {:induction false} ReceivedBoth(a: seq<Event>, b: seq<Event>)
    ensures Received(a + b) == Received(a) + Received(b)
    decreases |b|
  {
    if b == [] {
      assert a + b == a;
    } else {
      assert (a + b)[..|a + b| - 1] == a + b[..|b| - 1];
      ReceivedBoth(a, b[..|b| - 1]);
    }
  }

  datatype Status = Ok | NoMemory | InvalidSize

  datatype Outcome =
    | Line(len: nat, consumed: nat)  // a line stands at the front of the buffer
    | Dropped                        // read error, idle timeout or buffer error: the buffer is emptied
    | Left                           // switched away, or no network, inside a receive: the buffer is kept
    | Stopped                        // the same between two lines: the buffer is kept
    | NoBuffer                       // the first buffer could not be had
    | Waiting                        // nothing more has come yet

  /** How many of the events used went by before the one that ended it, if one did. */
  function Passed(outcome: Outcome, used: nat): (n: nat)
    ensures n <= used
  {
    if (outcome.Left? || outcome.Dropped?) && used > 0 then used - 1 else used
  }

  /** A chunk that does not fit: the bytes, the chunk and the terminator are over the limit. */
  predicate TooMuch(pending: nat, chunk: nat) {
    pending + chunk + 1 > MAX_LINE + 1
  }

  /** With this much pending, the event costs the buffer. */
  predicate Drops(pending: nat, event: Event) {
    match event
    case Data(bytes, memory) => TooMuch(pending, |bytes|) || !memory
    case Timeout => true
    case Failed => true
    case _ => false
  }

  lemma NothingYet(s: seq<char>, events: seq<Event>)
    ensures Received(events[..0]) == [] && s + Received(events[..0]) == s && GoesOn(events[..0])
  {
  }

  // ----- the buffer

  class LineBuffer {
    var data: array<char>
    var len: nat

    ghost predicate Valid()
      reads this
    {
      && data.Length % STEP == 0 && data.Length <= MAX_LINE + STEP
      && (data.Length == 0 ==> len == 0)
      && (data.Length > 0 ==> len < data.Length) && len <= MAX_LINE
    }

    ghost function Contents(): seq<char>
      reads this, data
      requires Valid()
    {
      data[..len]
    }

    constructor ()
      ensures Valid() && fresh(data) && Contents() == []
    {
      data := new char[0];
      len := 0;
    }

    /** `rx_buffer_reserve`. */
    method Reserve(needed: nat, memory: bool) returns (status: Status)
      requires Valid()
      modifies this`data
      ensures Valid() && Contents() == old(Contents())
      ensures data == old(data) || fresh(data)
      ensures status.InvalidSize? <==> needed > MAX_LINE + 1
      ensures status.NoMemory? <==> old(data.Length) < needed <= MAX_LINE + 1 && !memory
      ensures status.Ok? ==> needed <= data.Length
      ensures needed <= old(data.Length) || !status.Ok? ==> data == old(data)
    {
      if needed > MAX_LINE + 1 {
        return InvalidSize;
      }
      if needed <= data.Length {
        return Ok;
      }
      var size := if data.Length == 0 then STEP else data.Length;
      while size < needed
        invariant size % STEP == 0 && data.Length <= size <= MAX_LINE + STEP && size > 0
      {
        size := size + STEP;
      }
      if !memory {
        return NoMemory;
      }
      var grown := new char[size];
      forall i | 0 <= i < len {
        grown[i] := data[i];
      }
      data := grown;
      status := Ok;
    }

    /** The copy of a chunk behind what is there, and the terminator behind it. */
    method Append(chunk: seq<char>)
      requires Valid() && len + |chunk| < data.Length && len + |chunk| <= MAX_LINE
      modifies this`len, data
      ensures Valid() && Contents() == old(Contents()) + chunk && data[len] == '\0'
    {
      forall i | 0 <= i < |chunk| {
        data[len + i] := chunk[i];
      }
      len := len + |chunk|;
      data[len] := '\0';
    }

    /** A chunk is added, or costs the buffer. */
    method AddChunk(chunk: seq<char>, memory: bool) returns (ok: bool)
      requires Valid() && data.Length > 0 && 1 <= |chunk| <= STEP
      modifies this, data
      ensures Valid() && data.Length > 0 && (data == old(data) || fresh(data))
      ensures ok ==> Contents() == old(Contents()) + chunk && data[len] == '\0'
      ensures !ok ==> Contents() == [] && Drops(old(len), Data(chunk, memory))
    {
      var status := Reserve(len + |chunk| + 1, memory);
      ok := status.Ok?;
      if ok {
        Append(chunk);
      } else {
        len := 0;
      }
    }

    /** One return of the transport read: the outcome, if it ends the receive. */
    method TakeEvent(event: Event) returns (ended: Option<Outcome>)
      requires Valid() && data.Length > 0 && EventOk(event)
      modifies this, data
      ensures Valid() && data.Length > 0 && (data == old(data) || fresh(data))
      ensures ended.None? ==>
                && (event.Data? || event.Quiet?)
                && Contents() == old(Contents()) + if event.Data? then event.bytes else []
      ensures ended.Some? ==> ended.value.Left? || ended.value.Dropped?
      ensures ended == Some(Left) ==> event.Leave? && Contents() == old(Contents())
      ensures ended == Some(Dropped) ==> Contents() == [] && Drops(old(len), event)
    {
      match event
      case Failed =>
        len := 0;
        return Some(Dropped);
      case Leave =>
        return Some(Left);
      case Timeout =>
        len := 0;
        return Some(Dropped);
      case Quiet =>
        assert Contents() == Contents() + [];
        return None;
      case Data(bytes, more) =>
        hide Drops;
        var fits := AddChunk(bytes, more);
        return if fits then None else Some(Dropped);
    }

    /** `receive_jsonrpc_line`: reads until a newline is there. A line is handed out at the front of
        the buffer, terminated in place; everything behind its newline is untouched. */
    method Receive(events: seq<Event>, memory: bool) returns (outcome: Outcome, used: nat)
      requires Valid() && EventsOk(events)
      modifies this, data
      ensures Valid() && used <= |events| && (data == old(data) || fresh(data))
      ensures !outcome.Stopped?
      ensures outcome.NoBuffer? <==> old(data.Length) == 0 && !memory
      ensures outcome.NoBuffer? ==> used == 0 && Contents() == old(Contents())
      ensures !outcome.NoBuffer? ==> data.Length > 0
      ensures outcome.Line? ==> HandsOut(outcome, old(Contents()) + Received(events[..used]))
      ensures outcome.Waiting? || outcome.Left? ==>
                && Contents() == old(Contents()) + Received(events[..used])
                && Newline(Contents()) == |Contents()|
      ensures GoesOn(events[..Passed(outcome, used)])
      ensures outcome.Waiting? ==> used == |events|
      ensures outcome.Left? ==> used > 0 && events[used - 1].Leave?
      ensures outcome.Dropped? ==>
                && Contents() == [] && used > 0
                && var before := old(Contents()) + Received(events[..used - 1]);
                   Newline(before) == |before| && Drops(|before|, events[used - 1])
    {
      hide Received, HandsOut, Newline, Drops, TooMuch, GoesOn;
      used := 0;
      NothingYet(Contents(), events);
      var status := Reserve(STEP, memory);
      if !status.Ok? {
        return NoBuffer, used;
      }
      while Newline(data[..len]) == len
        invariant Valid() && used <= |events| && data.Length > 0 && (data == old(data) || fresh(data))
        invariant Contents() == old(Contents()) + Received(events[..used])
        invariant GoesOn(events[..used])
        decreases |events| - used
      {
        if used == |events| {
          return Waiting, used;
        }
        ReceivedOneMore(events, used);
        var event := events[used];
        assert EventOk(event);
        used := used + 1;
        var ended := TakeEvent(event);
        if ended.Some? {
          return ended.value, used;
        }
        GoesOnOneMore(events, used - 1);
        Regroup(old(Contents()), Received(events[..used - 1]), if event.Data? then event.bytes else []);
      }
      outcome := Terminate();
    }

    /** The carriage return is left out and the terminator is written in place. */
    method Terminate() returns (outcome: Outcome)
      requires Valid() && Newline(Contents()) < len
      modifies data
      ensures Valid() && outcome.Line? && HandsOut(outcome, old(Contents()))
    {
      var newline := Newline(data[..len]);
      var end := newline;
      if end > 0 && data[end - 1] == '\r' {
        end := end - 1;
      }
      data[end] := '\0';
      outcome := Line(end, newline + 1);
    }

    /** The first line of `all` stands at the front, terminated; what is behind its newline is
        still what it was. */
    ghost predicate HandsOut(outcome: Outcome, all: seq<char>)
      reads this, data
      requires Valid() && outcome.Line?
    {
      && Newline(all) < |all| == len
      && outcome.consumed == Newline(all) + 1
      && outcome.len < data.Length && data[outcome.len] == '\0'
      && data[..outcome.len] == Trimmed(all[..Newline(all)])
      && data[outcome.consumed..len] == all[outcome.consumed..]
    }

    /** `consume_jsonrpc_line`. */
    method Consume(consumed: nat)
      requires Valid()
      modifies this`len, data
      ensures Valid() && data == old(data)
      ensures data.Length == 0 || consumed == 0 ==> Contents() == old(Contents())
      ensures data.Length > 0 && 0 < consumed <= old(len) ==> Contents() == old(Contents())[consumed..]
      ensures data.Length > 0 && consumed > old(len) ==> Contents() == []
      ensures data.Length > 0 && consumed > 0 ==> data[len] == '\0'
    {
      if data.Length == 0 || consumed == 0 {
        return;
      }
      if consumed > len {
        len := 0;
        data[0] := '\0';
        return;
      }
      var remaining := len - consumed;
      forall i | 0 <= i < remaining {
        data[i] := data[consumed + i];
      }
      len := remaining;
      data[len] := '\0';
    }

    /** A line is received, handled and consumed. */
    method TakeLine(events: seq<Event>, memory: bool) returns (line: seq<char>, outcome: Outcome, used: nat)
      requires Valid() && EventsOk(events)
      modifies this, data
      ensures Valid() && used <= |events| && (data == old(data) || fresh(data))
      ensures !outcome.Stopped?
      ensures outcome.NoBuffer? <==> old(data.Length) == 0 && !memory
      ensures outcome.NoBuffer? ==> used == 0 && Contents() == old(Contents())
      ensures !outcome.NoBuffer? ==> data.Length > 0
      ensures outcome.Line? ==> Takes(line, Contents(), old(Contents()) + Received(events[..used]))
      ensures outcome.Waiting? || outcome.Left? ==>
                && Contents() == old(Contents()) + Received(events[..used])
                && Newline(Contents()) == |Contents()|
      ensures GoesOn(events[..Passed(outcome, used)])
      ensures outcome.Waiting? ==> used == |events|
      ensures outcome.Left? ==> used > 0 && events[used - 1].Leave?
      ensures outcome.Dropped? ==>
                && Contents() == [] && used > 0
                && var before := old(Contents()) + Received(events[..used - 1]);
                   Newline(before) == |before| && Drops(|before|, events[used - 1])
    {
      hide Received, Newline, Drops, TooMuch, Trimmed, GoesOn;
      line := [];
      outcome, used := Receive(events, memory);
      if outcome.Line? {
        line := data[..outcome.len];
        ghost var all := old(Contents()) + Received(events[..used]);
        assert Contents()[outcome.consumed..] == all[outcome.consumed..];
        Consume(outcome.consumed);
      }
    }

    /** One connection: lines are taken, handled and consumed in turn until no more has come or the
        connection ends; `stop` is the number of lines after which the loop finds the network gone
        or a switch requested.

        THE LINES ARE THE NEWLINE SPLIT of what was buffered before and what was received since,
        and the buffer is what stands behind them, whatever the chunks were. A connection that ends
        between two lines leaves complete lines behind, which the next one hands out. */
    method Connection(events: seq<Event>, memory: bool, stop: Option<nat>)
      returns (lines: seq<seq<char>>, outcome: Outcome, used: nat)
      requires Valid() && EventsOk(events)
      modifies this, data
      ensures Valid() && used <= |events| && !outcome.Line? && (data == old(data) || fresh(data))
      ensures outcome.NoBuffer? <==> old(data.Length) == 0 && !memory && stop != Some(0)
      ensures outcome.NoBuffer? ==> used == 0 && lines == [] && Contents() == old(Contents())
      ensures outcome.Stopped? ==>
                && stop == Some(|lines|)
                && lines <= Lines(old(Contents()) + Received(events[..used]))
                && Contents() == Behind(old(Contents()) + Received(events[..used]), |lines|)
      ensures outcome.Waiting? || outcome.Left? ==>
                && lines == Lines(old(Contents()) + Received(events[..used]))
                && Contents() == Rest(old(Contents()) + Received(events[..used]))
      ensures GoesOn(events[..Passed(outcome, used)])
      ensures outcome.Waiting? ==> used == |events|
      ensures outcome.Left? ==> used > 0 && events[used - 1].Leave?
      ensures outcome.Dropped? ==>
                && used > 0 && Contents() == []
                && lines == Lines(old(Contents()) + Received(events[..used - 1]))
                && Drops(|Rest(old(Contents()) + Received(events[..used - 1]))|, events[used - 1])
      ensures stop.Some? ==> |lines| <= stop.value && (|lines| == stop.value ==> outcome.Stopped?)
    {
      hide Lines, Rest, Newline, Trimmed, Received, Drops, Takes, Joins, Behind, GoesOn;
      lines, used := [], 0;
      ghost var start := Contents();
      NothingReceived(start, events);
      NothingYet(start, events);
      while stop.None? || |lines| < stop.value
        invariant Valid() && used <= |events| && (data == old(data) || fresh(data))
        invariant stop.Some? ==> |lines| <= stop.value
        invariant data.Length == 0 ==> old(data.Length) == 0 && used == 0 && lines == [] && Contents() == start
        invariant old(data.Length) == 0 && !memory ==> data.Length == 0
        invariant Joins(lines, Contents(), start + Received(events[..used]))
        invariant GoesOn(events[..used])
        decreases |events| - used, len
      {
        ghost var before := Contents();
        var n, line;
        line, outcome, n := TakeLine(events[used..], memory);
        MoreReceived(start, events, used, n, before, lines);
        if n > 0 {
          MoreReceived(start, events, used, n - 1, before, lines);
        } else {
          NothingYet(before, events[used..]);
        }
        GoesOnFrom(events, used, Passed(outcome, n));
        used := used + n;
        if !outcome.Line? {
          if outcome.Dropped? {
            AllHandedOut(lines, before + Received(events[used - n..][..n - 1]), start + Received(events[..used - 1]));
          } else if !outcome.NoBuffer? {
            AllHandedOut(lines, Contents(), start + Received(events[..used]));
          }
          return;
        }
        OneLineMore(before + Received(events[used - n..][..n]), line, Contents(), lines,
                    start + Received(events[..used]));
        lines := lines + [line];
      }
      outcome := Stopped;
      SomeHandedOut(lines, Contents(), start + Received(events[..used]));
    }
  }

  /** `line` is the first line of `all`, and `left` is what is behind it. */
  ghost predicate Takes(line: seq<char>, left: seq<char>, all: seq<char>) {
    && Newline(all) < |all|
    && line == Trimmed(all[..Newline(all)])
    && left == all[Newline(all) + 1..]
  }

  /** The lines handed out so far and those still buffered are the lines of everything. */
  ghost predicate Joins(lines: seq<seq<char>>, buffered: seq<char>, all: seq<char>) {
    && lines + Lines(buffered) == Lines(all) && Rest(buffered) == Rest(all)
    && buffered == Behind(all, |lines|)
  }

  lemma SomeHandedOut(lines: seq<seq<char>>, buffered: seq<char>, all: seq<char>)
    requires Joins(lines, buffered, all)
    ensures lines <= Lines(all) && buffered == Behind(all, |lines|)
  {
    hide Lines, Rest, Behind;
  }

  lemma {:induction false} BehindOne(s: seq<char>, n: nat)
    requires Newline(Behind(s, n)) < |Behind(s, n)|
    ensures Behind(s, n + 1) == Behind(s, n)[Newline(Behind(s, n)) + 1..]
    decreases n
  {
    hide Newline;
    var p := Newline(s);
    if n == 0 {
      assert Behind(s[p + 1..], 0) == s[p + 1..];
    } else {
      BehindOne(s[p + 1..], n - 1);
    }
  }

  lemma BehindNext(s: seq<char>, n: nat)
    ensures Behind(s, 0) == s
    ensures n > 0 && Newline(s) < |s| ==> Behind(s, n) == Behind(s[Newline(s) + 1..], n - 1)
  {
    hide Newline;
  }

  /** More bytes behind do not move the first newline. */
  lemma SameNewline(a: seq<char>, b: seq<char>)
    requires Newline(a) < |a|
    ensures Newline(a + b) == Newline(a) && (a + b)[Newline(a) + 1..] == a[Newline(a) + 1..] + b
  {
    hide Newline;
    assert (a + b)[..Newline(a)] == a[..Newline(a)];
    NewlineUnique(a + b, Newline(a));
  }

  lemma {:induction false} BehindMore(a: seq<char>, b: seq<char>, n: nat)
    requires n <= |Lines(a)|
    ensures Behind(a + b, n) == Behind(a, n) + b
    decreases n
  {
    hide Newline, Trimmed, Lines, Behind;
    BehindNext(a, n);
    BehindNext(a + b, n);
    if n > 0 {
      if Newline(a) == |a| {
        NoLines(a);
      }
      SameNewline(a, b);
      FirstLine(a);
      BehindMore(a[Newline(a) + 1..], b, n - 1);
    }
  }

  lemma NothingReceived(start: seq<char>, events: seq<Event>)
    ensures Joins([], start, start + Received(events[..0]))
  {
    assert start + [] == start;
    assert Received(events[..0]) == [];
    hide Lines, Rest;
    assert Behind(start, 0) == start;
  }

  lemma AllHandedOut(lines: seq<seq<char>>, buffered: seq<char>, all: seq<char>)
    requires Newline(buffered) == |buffered| && Joins(lines, buffered, all)
    ensures lines == Lines(all) && buffered == Rest(all)
  {
    assert Lines(buffered) == [] && lines + [] == lines;
  }

  lemma OneLineMore(buffered: seq<char>, line: seq<char>, left: seq<char>, lines: seq<seq<char>>, all: seq<char>)
    requires Takes(line, left, buffered) && Joins(lines, buffered, all)
    ensures Joins(lines + [line], left, all) && |left| < |buffered|
  {
    hide Lines, Rest, Newline, Trimmed, Behind;
    FirstLine(buffered);
    BehindOne(all, |lines|);
    Regroup(lines, [line], Lines(left));
  }

  lemma FirstLine(s: seq<char>)
    requires Newline(s) < |s|
    ensures Lines(s) == [Trimmed(s[..Newline(s)])] + Lines(s[Newline(s) + 1..])
    ensures Rest(s) == Rest(s[Newline(s) + 1..])
  {
  }

  /** More chunks go on from what is buffered. */
  lemma MoreReceived(start: seq<char>, events: seq<Event>, used: nat, n: nat, buffered: seq<char>,
                     lines: seq<seq<char>>)
    requires used + n <= |events|
    requires Joins(lines, buffered, start + Received(events[..used]))
    ensures Joins(lines, buffered + Received(events[used..][..n]), start + Received(events[..used + n]))
  {
    hide Lines, Rest, Received, Joins;
    assert events[..used + n] == events[..used] + events[used..][..n];
    ReceivedBoth(events[..used], events[used..][..n]);
    JoinMore(lines, buffered, start + Received(events[..used]), Received(events[used..][..n]));
    Regroup(start, Received(events[..used]), Received(events[used..][..n]));
  }

  lemma JoinMore(lines: seq<seq<char>>, buffered: seq<char>, all: seq<char>, more: seq<char>)
    requires Joins(lines, buffered, all)
    ensures Joins(lines, buffered + more, all + more)
  {
    hide Lines, Rest, Behind;
    LinesOfBoth(all, more);
    LinesOfBoth(buffered, more);
    PrefixShorter(lines, Lines(buffered));
    BehindMore(all, more, |lines|);
    Regroup(lines, Lines(buffered), Lines(Rest(all) + more));
  }

  lemma PrefixShorter(a: seq<seq<char>>, b: seq<seq<char>>)
    ensures |a| <= |a + b|
  {
  }

  /** A newline anywhere within `limit` bytes of every place. */
  ghost predicate ShortLines(s: seq<char>, limit: nat) {
    forall i, j :: 0 <= i <= j <= |s| && '\n' !in s[i..j] ==> j - i < limit
  }

  lemma {:induction false} RestIsSuffix(s: seq<char>)
    ensures s[|s| - |Rest(s)|..] == Rest(s)
    decreases |s|
  {
    hide Newline, Rest;
    var p := Newline(s);
    if p < |s| {
      FirstLine(s);
      RestIsSuffix(s[p + 1..]);
      SuffixOfSuffix(s, p + 1, |s| - |Rest(s)|);
    } else {
      NoLines(s);
    }
  }

  lemma NoLines(s: seq<char>)
    requires Newline(s) == |s|
    ensures Lines(s) == [] && Rest(s) == s
  {
  }

  lemma SuffixOfSuffix(s: seq<char>, i: nat, j: nat)
    requires i <= j <= |s|
    ensures s[i..][j - i..] == s[j..]
  {
  }

  /** Lines of at most 15361 bytes with their newline never overrun the buffer, whatever the chunks;
      a longer line can, or cannot, depending on where the chunks fall. */
  lemma ShortLinesFit(s: seq<char>, chunk: nat)
    requires ShortLines(s, MAX_LINE - STEP + 1) && chunk <= STEP
    ensures !TooMuch(|Rest(s)|, chunk)
  {
    RestIsSuffix(s);
    RestHasNoNewline(s);
    var i := |s| - |Rest(s)|;
    assert Rest(s) == s[i..|s|];
    assert Rest(s)[..|Rest(s)|] == Rest(s);
  }

  // ----- what one connection leaves to the next

  lemma OneChunk(bytes: seq<char>, events: seq<Event>)
    requires events == [Data(bytes, true)] || events == [Data(bytes, true), Leave]
    requires 1 <= |bytes| <= STEP
    ensures EventsOk(events) && Received(events[..0]) == [] && Received(events[..1]) == bytes
    ensures Received(events[..|events|]) == bytes
    ensures |events| == 2 ==> !GoesOn(events[..2])
  {
    assert events[..1][..0] == [] && events[..|events|] == events;
    if |events| == 2 {
      assert events[..2][..1] == events[..1];
      assert bytes + [] == bytes;
      assert Leave in events[..2];
    }
  }

  /** A first connection brings some bytes and ends: inside a receive, or after `stop` lines. */
  method FirstConnection(buffer: LineBuffer, bytes: seq<char>, stop: Option<nat>) returns (handled: seq<seq<char>>)
    requires buffer.Valid() && buffer.Contents() == [] && 1 <= |bytes| <= STEP
    requires stop.Some? ==> 0 < stop.value <= |Lines(bytes)|
    modifies buffer, buffer.data
    ensures buffer.Valid() && (buffer.data == old(buffer.data) || fresh(buffer.data))
    ensures stop.None? ==> handled == Lines(bytes) && buffer.Contents() == Rest(bytes)
    ensures stop.Some? ==> handled == Lines(bytes)[..stop.value] && buffer.Contents() == Behind(bytes, stop.value)
  {
    hide Lines, Rest, Behind, Received, GoesOn, Newline;
    var events := [Data(bytes, true), Leave];
    OneChunk(bytes, events);
    NothingAtAll();
    var outcome, used;
    handled, outcome, used := buffer.Connection(events, true, stop);
    ChunkFits(0, bytes);
    var none: seq<char> := [];
    assert none + bytes == bytes && none + none == none;
    assert !outcome.Waiting? && !outcome.Dropped?;
    assert used == 1 || used == 2;
  }

  /** TWO CONNECTIONS over one buffer: the second hands out the lines of what the first left behind
      and of what it received itself. */
  method TwoConnections(bytes: seq<char>, stop: Option<nat>, more: seq<char>)
    returns (first: seq<seq<char>>, second: seq<seq<char>>)
    requires 1 <= |bytes| <= STEP && 1 <= |more| <= STEP
    requires stop.Some? ==> 0 < stop.value <= |Lines(bytes)|
    ensures stop.None? ==> first == Lines(bytes) && second == Lines(Rest(bytes) + more)
    ensures stop.Some? ==> first == Lines(bytes)[..stop.value] && second == Lines(Behind(bytes, stop.value) + more)
  {
    hide Lines, Rest, Behind, Received, GoesOn, Newline;
    var buffer := new LineBuffer();
    first := FirstConnection(buffer, bytes, stop);
    ghost var left := buffer.Contents();
    var events := [Data(more, true), Leave];
    OneChunk(more, events);
    var outcome, used;
    second, outcome, used := buffer.Connection(events, true, None);
    ChunkFits(|Rest(left)|, more);
    ChunkFits(|Rest(left + Received(events[..0]))|, more);
    NothingBehind(left);
    assert !outcome.Waiting? && !outcome.Dropped?;
    assert used == 1 || used == 2;
  }

  lemma NothingBehind(left: seq<char>)
    ensures left + [] == left
  {
  }

  /** One remainder without a newline and one complete line, as the second connection sees them. */
  lemma StaleExamples()
    ensures Rest("ab") == "ab" && Lines("ab" + "c\n") == ["abc"] && Lines("c\n") == ["c"]
    ensures |Lines("x\ny\n")| == 2 && Behind("x\ny\n", 1) == "y\n" && Lines("y\n" + "c\n") == ["y", "c"]
  {
    assert "ab" + "c\n" == "abc\n" && "y\n" + "c\n" == "y\nc\n";
    NewlineUnique("ab", 2);
    NewlineUnique("abc\n", 3);
    NewlineUnique("c\n", 1);
    NewlineUnique("y\n", 1);
    NewlineUnique("x\ny\n", 1);
    NewlineUnique("y\nc\n", 1);
    assert "abc\n"[..3] == "abc" && "abc\n"[4..] == "";
    assert "c\n"[..1] == "c" && "c\n"[2..] == "";
    assert "y\n"[..1] == "y" && "y\n"[2..] == "";
    assert "x\ny\n"[..1] == "x" && "x\ny\n"[2..] == "y\n";
    assert "y\nc\n"[..1] == "y" && "y\nc\n"[2..] == "c\n";
  }

  lemma NothingAtAll()
    ensures Lines([]) == [] && Rest([]) == []
  {
  }

  lemma ChunkFits(pending: nat, bytes: seq<char>)
    ensures pending + |bytes| <= MAX_LINE ==> !Drops(pending, Data(bytes, true))
    ensures !Drops(pending, Leave)
  {
  }
}
