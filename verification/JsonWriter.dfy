/** The JSON string writers of main/stratum_minimal.c, the fast one and the escaping one, and the
    span reader that takes unescaped strings back. */
module JsonWriter {
  import opened Basics

  // ----- what is written

  function Code(ch: char): nat {
    ch as nat
  }

  predicate NeedsEscape(ch: char) {
    Code(ch) < 0x20 || ch == '"' || ch == '\\'
  }

  function Hex(n: nat): char
    requires n < 16
  {
    "0123456789abcdef"[n]
  }

  function Escape(ch: char): (r: seq<char>)
    ensures r != [] && (!NeedsEscape(ch) ==> r == [ch]) && (NeedsEscape(ch) ==> |r| >= 2 && r[0] == '\\')
  {
    match Code(ch)
    case 34 => "\\\""
    case 92 => "\\\\"
    case 8 => "\\b"
    case 12 => "\\f"
    case 10 => "\\n"
    case 13 => "\\r"
    case 9 => "\\t"
    case c => if c < 0x20 then ['\\', 'u', '0', '0', Hex(c / 16), Hex(c % 16)] else [ch]
  }

  function Escapes(text: seq<char>): (r: seq<seq<char>>)
    ensures |r| == |text|
  {
    if text == [] then [] else [Escape(text[0])] + Escapes(text[1..])
  }

  /** The pieces the escaping writer appends one by one. */
  function SlowPieces(text: seq<char>): seq<seq<char>> {
    ["\""] + (Escapes(text) + ["\""])
  }

  /** The pieces the fast writer appends. */
  function FastPieces(text: seq<char>): seq<seq<char>> {
    if Plain(text) then ["\""] + ([text] + ["\""]) else SlowPieces(text)
  }

  predicate Plain(text: seq<char>) {
    forall i :: 0 <= i < |text| ==> !NeedsEscape(text[i])
  }

  function Flat(pieces: seq<seq<char>>): seq<char> {
    if pieces == [] then [] else pieces[0] + Flat(pieces[1..])
  }

  /** The JSON form of a text. */
  function Quoted(text: seq<char>): seq<char> {
    Flat(SlowPieces(text))
  }

  /** What gets into `room` cells: whole pieces, as long as a cell is left for the terminator. */
  function Taken(pieces: seq<seq<char>>, room: nat): seq<char>
    decreases |pieces|
  {
    if pieces == [] || |pieces[0]| >= room then []
    else pieces[0] + Taken(pieces[1..], room - |pieces[0]|)
  }

  /** Whether all pieces get in. */
  function AllFit(pieces: seq<seq<char>>, room: nat): bool
    decreases |pieces|
  {
    pieces == [] || (|pieces[0]| < room && AllFit(pieces[1..], room - |pieces[0]|))
  }

  lemma {:induction false} AllFitIff(pieces: seq<seq<char>>, room: nat)
    requires pieces != []
    ensures AllFit(pieces, room) <==> |Flat(pieces)| < room
    ensures AllFit(pieces, room) ==> Taken(pieces, room) == Flat(pieces)
    decreases |pieces|
  {
    if |pieces| == 1 {
      assert pieces[1..] == [];
      assert Flat(pieces) == pieces[0] + [];
    } else if |pieces[0]| < room {
      AllFitIff(pieces[1..], room - |pieces[0]|);
    }
  }

  lemma {:induction false} FlatConcat(a: seq<seq<char>>, b: seq<seq<char>>)
    ensures Flat(a + b) == Flat(a) + Flat(b)
    decreases |a|
  {
    if a == [] {
      assert a + b == b;
    } else {
      assert (a + b)[1..] == a[1..] + b;
      FlatConcat(a[1..], b);
    }
  }

  lemma {:induction false} PlainEscapes(text: seq<char>)
    requires Plain(text)
    ensures Flat(Escapes(text)) == text
    decreases |text|
  {
    if text != [] {
      PlainEscapes(text[1..]);
      assert Escape(text[0]) == [text[0]];
      assert Escapes(text)[1..] == Escapes(text[1..]);
      assert text == [text[0]] + text[1..];
    }
  }

  lemma FlatOne(piece: seq<char>)
    ensures Flat([piece]) == piece
  {
    assert [piece][1..] == [];
    assert piece + [] == piece;
  }

  lemma FlatThree(a: seq<char>, middle: seq<seq<char>>, b: seq<char>)
    ensures Flat([a] + (middle + [b])) == a + (Flat(middle) + b)
  {
    FlatConcat([a], middle + [b]);
    FlatConcat(middle, [b]);
    FlatOne(a);
    FlatOne(b);
  }

  /** Both writers would write the same text. */
  lemma SameFlat(text: seq<char>)
    ensures Flat(FastPieces(text)) == Quoted(text)
    ensures Quoted(text) == "\"" + (Flat(Escapes(text)) + "\"")
  {
    FlatThree("\"", Escapes(text), "\"");
    if Plain(text) {
      FlatThree("\"", [text], "\"");
      FlatOne(text);
      PlainEscapes(text);
    }
  }

  /** ON SUCCESS THE WRITERS AGREE, and they succeed together: exactly when the JSON form and its
      terminator fit. */
  lemma WritersAgree(text: seq<char>, room: nat)
    ensures AllFit(FastPieces(text), room) <==> |Quoted(text)| < room
    ensures AllFit(SlowPieces(text), room) <==> |Quoted(text)| < room
    ensures |Quoted(text)| < room ==> Taken(FastPieces(text), room) == Taken(SlowPieces(text), room) == Quoted(text)
  {
    SameFlat(text);
    AllFitIff(FastPieces(text), room);
    AllFitIff(SlowPieces(text), room);
  }

  lemma {:induction false} TakenPlain(text: seq<char>, room: nat)
    requires Plain(text)
    ensures Taken(Escapes(text) + ["\""], room)
         == if |text| + 1 < room then text + "\"" else if |text| < room then text
            else text[..if room == 0 then 0 else room - 1]
    decreases |text|
  {
    var pieces := Escapes(text) + ["\""];
    if text == [] {
      assert pieces == ["\""];
      assert pieces[1..] == [];
    } else {
      assert pieces[0] == Escape(text[0]) == [text[0]];
      assert pieces[1..] == Escapes(text[1..]) + ["\""];
      assert text == [text[0]] + text[1..];
      if room > 1 {
        TakenPlain(text[1..], room - 1);
        if |text| >= room {
          assert text[..room - 1] == [text[0]] + text[1..][..room - 2];
        }
      }
    }
  }

  /** ON FAILURE they leave different text behind exactly when nothing needs an escape, the opening
      quote and one more character fit, and the text does not: the fast writer has then put down
      the quote alone, the other one as many characters as fit. */
  lemma FailuresDifferIff(text: seq<char>, room: nat)
    ensures Taken(FastPieces(text), room) != Taken(SlowPieces(text), room)
       <==> Plain(text) && room >= 3 && |text| >= room - 1
  {
    if Plain(text) && room >= 2 {
      FastLeaves(text, room);
      SlowLeaves(text, room);
      hide Taken, Plain;
      assert |"\"" + text| == 1 + |text|;
    } else {
      TakenStep("\"", [text] + ["\""], room);
      TakenStep("\"", Escapes(text) + ["\""], room);
    }
  }

  /** Two characters and room for three cells: the quote alone, or the quote and one character. */
  lemma FailureExample()
    ensures Taken(FastPieces("ab"), 3) == "\"" && Taken(SlowPieces("ab"), 3) == "\"a"
  {
    FastLeaves("ab", 3);
    SlowLeaves("ab", 3);
    assert "ab"[..1] == "a" && "\"" + "a" == "\"a";
  }

  lemma FastLeaves(text: seq<char>, room: nat)
    requires Plain(text) && room >= 2
    ensures Taken(FastPieces(text), room)
         == if |text| + 2 < room then "\"" + (text + "\"") else if |text| + 1 < room then "\"" + text else "\""
  {
    TakenStep("\"", [text] + ["\""], room);
    TakenStep(text, ["\""], room - 1);
    if |text| < room - 1 {
      TakenStep("\"", [], room - 1 - |text|);
      assert text + [] == text;
    }
    hide Taken;
    assert "\"" + [] == "\"";
  }

  lemma SlowLeaves(text: seq<char>, room: nat)
    requires Plain(text) && room >= 2
    ensures Taken(SlowPieces(text), room)
         == if |text| + 2 < room then "\"" + (text + "\"") else if |text| + 1 < room then "\"" + text
            else "\"" + text[..room - 2]
  {
    TakenStep("\"", Escapes(text) + ["\""], room);
    TakenPlain(text, room - 1);
    hide Taken, Escapes;
  }

  lemma TakenStep(piece: seq<char>, rest: seq<seq<char>>, room: nat)
    ensures Taken([piece] + rest, room) == if |piece| < room then piece + Taken(rest, room - |piece|) else []
    ensures Taken([], room) == []
    ensures rest == [] ==> [piece] + rest == [piece]
  {
    assert ([piece] + rest)[1..] == rest;
  }

  // ----- reading it back

  function HexValue(ch: char): Option<nat> {
    if '0' <= ch <= '9' then Some(Code(ch) - 48)
    else if 'a' <= ch <= 'f' then Some(Code(ch) - 87)
    else if 'A' <= ch <= 'F' then Some(Code(ch) - 55)
    else None
  }

  /** A string body up to its closing quote, unescaped (section 7 of RFC 8259), and what follows. */
  datatype Body = Body(text: seq<char>, rest: seq<char>)

  function ReadHex(s: seq<char>): Option<nat> {
    if |s| < 4 || HexValue(s[0]).None? || HexValue(s[1]).None? || HexValue(s[2]).None? || HexValue(s[3]).None? then None
    else Some(4096 * HexValue(s[0]).value + 256 * HexValue(s[1]).value +
              16 * HexValue(s[2]).value + HexValue(s[3]).value)
  }

  /** The character an escape stands for and the length of the escape. */
  datatype Escaped = Escaped(ch: char, len: nat)

  function ReadEscape(s: seq<char>): (r: Option<Escaped>)
    requires s != [] && s[0] == '\\'
    ensures r.Some? ==> 2 <= r.value.len <= |s|
  {
    if |s| < 2 then None
    else if s[1] == '"' || s[1] == '\\' || s[1] == '/' then Some(Escaped(s[1], 2))
    else if s[1] == 'b' then Some(Escaped(8 as char, 2))
    else if s[1] == 'f' then Some(Escaped(12 as char, 2))
    else if s[1] == 'n' then Some(Escaped(10 as char, 2))
    else if s[1] == 'r' then Some(Escaped(13 as char, 2))
    else if s[1] == 't' then Some(Escaped(9 as char, 2))
    else if s[1] == 'u' && ReadHex(s[2..]).Some? && ReadHex(s[2..]).value < 0xd800
    then Some(Escaped(ReadHex(s[2..]).value as char, 6))
    else None
  }

  function ReadBody(s: seq<char>): Option<Body>
    decreases |s|
  {
    if s == [] || Code(s[0]) < 0x20 then None
    else if s[0] == '"' then Some(Body([], s[1..]))
    else if s[0] == '\\' then
      var escape := ReadEscape(s);
      if escape.None? then None
      else
        var body := ReadBody(s[escape.value.len..]);
        if body.None? then None else Some(Body([escape.value.ch] + body.value.text, body.value.rest))
    else
      var body := ReadBody(s[1..]);
      if body.None? then None else Some(Body([s[0]] + body.value.text, body.value.rest))
  }

  function Unquoted(s: seq<char>): Option<Body> {
    if s == [] || s[0] != '"' then None else ReadBody(s[1..])
  }

  lemma HexReadsBack(n: nat)
    requires n < 16
    ensures HexValue(Hex(n)) == Some(n)
  {
  }

  lemma ControlReadsBack(ch: char, rest: seq<char>)
    requires Code(ch) < 0x20
    ensures ReadHex(['0', '0', Hex(Code(ch) / 16), Hex(Code(ch) % 16)] + rest) == Some(Code(ch))
  {
    HexReadsBack(0);
    HexReadsBack(Code(ch) / 16);
    HexReadsBack(Code(ch) % 16);
    hide Hex;
  }

  lemma EscapeReadsBack(ch: char, rest: seq<char>)
    requires NeedsEscape(ch)
    ensures ReadEscape(Escape(ch) + rest) == Some(Escaped(ch, |Escape(ch)|))
  {
    if Code(ch) < 0x20 && |Escape(ch)| == 6 {
      ControlEscape(ch, rest);
    } else {
      ShortEscape(ch, rest);
    }
  }

  /** NO ESCAPE IS LONGER THAN IT HAS TO BE: whatever is read as the same character is as long. */
  lemma EscapeIsShortest(ch: char, s: seq<char>)
    requires NeedsEscape(ch) && s != [] && s[0] == '\\' && ReadEscape(s).Some? && ReadEscape(s).value.ch == ch
    ensures |Escape(ch)| <= ReadEscape(s).value.len
  {
    hide Hex;
  }

  /** The escapes of two characters. */
  lemma ShortEscape(ch: char, rest: seq<char>)
    requires NeedsEscape(ch) && |Escape(ch)| == 2
    ensures ReadEscape(Escape(ch) + rest) == Some(Escaped(ch, 2))
  {
    hide Hex, ReadHex;
    var s := Escape(ch) + rest;
    assert s[0] == Escape(ch)[0] && s[1] == Escape(ch)[1];
  }

  lemma ControlEscape(ch: char, rest: seq<char>)
    requires Code(ch) < 0x20 && |Escape(ch)| == 6
    ensures ReadEscape(Escape(ch) + rest) == Some(Escaped(ch, 6))
  {
    ControlReadsBack(ch, rest);
    hide Hex, ReadHex;
    var s := Escape(ch) + rest;
    assert s[2..] == ['0', '0', Hex(Code(ch) / 16), Hex(Code(ch) % 16)] + rest;
  }

  lemma {:induction false} BodyReadsBack(text: seq<char>, rest: seq<char>)
    ensures ReadBody(Flat(Escapes(text)) + ("\"" + rest)) == Some(Body(text, rest))
    decreases |text|
  {
    var tail := "\"" + rest;
    if text == [] {
      assert Flat(Escapes(text)) + tail == tail;
      assert tail[1..] == rest;
    } else {
      var more := Flat(Escapes(text[1..])) + tail;
      BodyReadsBack(text[1..], rest);
      assert Escapes(text)[1..] == Escapes(text[1..]);
      assert Flat(Escapes(text)) + tail == Escape(text[0]) + more;
      OneReadsBack(text[0], more);
      assert text == [text[0]] + text[1..];
    }
  }

  lemma OneReadsBack(ch: char, more: seq<char>)
    requires ReadBody(more).Some?
    ensures ReadBody(Escape(ch) + more) == Some(Body([ch] + ReadBody(more).value.text, ReadBody(more).value.rest))
  {
    var s := Escape(ch) + more;
    if NeedsEscape(ch) {
      EscapeReadsBack(ch, more);
      hide Escape, ReadEscape;
      assert s[|Escape(ch)|..] == more;
    } else {
      hide Escape, ReadEscape;
      assert s[1..] == more;
    }
  }

  /** UNESCAPING UNDOES THE WRITERS, for every text, and takes exactly what was written. */
  lemma QuotedReadsBack(text: seq<char>, rest: seq<char>)
    ensures Unquoted(Quoted(text) + rest) == Some(Body(text, rest))
  {
    SameFlat(text);
    BodyReadsBack(text, rest);
    hide Flat, Escapes, ReadBody, Quoted;
    assert (Quoted(text) + rest)[1..] == Flat(Escapes(text)) + ("\"" + rest);
  }

  // ----- the span reader

  predicate Blank(ch: char) {
    ch == ' ' || ch == '\t' || ch == '\r' || ch == '\n'
  }

  function Skipped(s: seq<char>, at: nat): (r: nat)
    requires at <= |s|
    ensures at <= r <= |s|
    decreases |s| - at
  {
    if at < |s| && Blank(s[at]) then Skipped(s, at + 1) else at
  }

  /** Where a body without escapes ends; None when an escape, a control character or the end of the
      line comes first. */
  function SpanEnd(s: seq<char>, at: nat): (r: Option<nat>)
    requires at <= |s|
    ensures r.Some? ==> at <= r.value < |s| && s[r.value] == '"' && Plain(s[at..r.value])
    decreases |s| - at
  {
    if at == |s| then None
    else if s[at] == '"' then Some(at)
    else if s[at] == '\\' || Code(s[at]) < 0x20 then None
    else
      var r := SpanEnd(s, at + 1);
      assert r.Some? ==> s[at..r.value] == [s[at]] + s[at + 1..r.value];
      r
  }

  /** `fast_json_parse_string_span` on a line from a cursor: the span, and the cursor behind it. */
  method ParseStringSpan(s: seq<char>, at: nat) returns (span: Option<seq<char>>, next: nat)
    requires at <= |s|
    ensures at <= next <= |s|
    ensures var start := Skipped(s, at);
            && (span.Some? <==> start < |s| && s[start] == '"' && SpanEnd(s, start + 1).Some?)
            && (span.Some? ==> span.value == s[start + 1..SpanEnd(s, start + 1).value]
                               && next == SpanEnd(s, start + 1).value + 1)
  {
    next := at;
    while next < |s| && Blank(s[next])
      invariant at <= next <= |s| && Skipped(s, next) == Skipped(s, at)
    {
      next := next + 1;
    }
    if next == |s| || s[next] != '"' {
      return None, next;
    }
    next := next + 1;
    var start := next;
    while next < |s|
      invariant start <= next <= |s| && SpanEnd(s, next) == SpanEnd(s, start)
    {
      if s[next] == '"' {
        return Some(s[start..next]), next + 1;
      }
      if s[next] == '\\' || Code(s[next]) < 0x20 {
        return None, next;
      }
      next := next + 1;
    }
    span := None;
  }

  lemma {:induction false} SpanEndIs(s: seq<char>, at: nat, end: nat)
    requires at <= end < |s| && (forall i :: at <= i < end ==> !NeedsEscape(s[i]))
    ensures s[end] == '"' ==> SpanEnd(s, at) == Some(end)
    ensures s[end] == '\\' ==> SpanEnd(s, at) == None
    decreases end - at
  {
    if at < end {
      SpanEndIs(s, at + 1, end);
    }
  }

  /** The first character that needs an escape. */
  function FirstEscape(text: seq<char>): (r: nat)
    ensures r <= |text| && (forall i :: 0 <= i < r ==> !NeedsEscape(text[i])) && (r < |text| ==> NeedsEscape(text[r]))
  {
    if text == [] || NeedsEscape(text[0]) then 0 else 1 + FirstEscape(text[1..])
  }

  lemma {:induction false} EscapesFrom(text: seq<char>)
    ensures var n := FirstEscape(text);
            && n <= |Flat(Escapes(text))| && Flat(Escapes(text))[..n] == text[..n]
            && (n < |text| ==> n < |Flat(Escapes(text))| && Flat(Escapes(text))[n] == '\\')
            && (n == |text| ==> Flat(Escapes(text)) == text)
    decreases |text|
  {
    if text != [] {
      assert Escapes(text)[1..] == Escapes(text[1..]);
      var flat := Flat(Escapes(text[1..]));
      assert Flat(Escapes(text)) == Escape(text[0]) + flat;
      if !NeedsEscape(text[0]) {
        EscapesFrom(text[1..]);
        var n := FirstEscape(text[1..]);
        assert Escape(text[0]) == [text[0]] && FirstEscape(text) == n + 1;
        assert Flat(Escapes(text)) == [text[0]] + flat;
        hide Flat, Escapes, Escape, FirstEscape;
        assert text == [text[0]] + text[1..];
        SamePrefix(text[0], flat, text[1..], n);
      }
    }
  }

  lemma SamePrefix(ch: char, a: seq<char>, b: seq<char>, n: nat)
    requires n <= |a| && n <= |b| && a[..n] == b[..n]
    ensures ([ch] + a)[..n + 1] == ([ch] + b)[..n + 1]
    ensures n < |a| ==> ([ch] + a)[n + 1] == a[n]
  {
    assert ([ch] + a)[..n + 1] == [ch] + a[..n];
    assert ([ch] + b)[..n + 1] == [ch] + b[..n];
  }

  /** THE SPAN READER takes back what was written exactly when nothing in it was escaped, and then
      the span is the text. */
  lemma SpanReadsBackIff(text: seq<char>, rest: seq<char>)
    ensures var s := Quoted(text) + rest;
            && Skipped(s, 0) == 0 && |s| >= 2 && s[0] == '"'
            && (SpanEnd(s, 1).Some? <==> Plain(text))
            && (Plain(text) ==> SpanEnd(s, 1).value == 1 + |text| && s[1..1 + |text|] == text)
  {
    SameFlat(text);
    EscapesFrom(text);
    var s, body, n := Quoted(text) + rest, Flat(Escapes(text)), FirstEscape(text);
    hide Flat, Escapes, Quoted, FirstEscape, SpanEnd;
    assert s[1..1 + |body|] == body;
    assert forall i :: 1 <= i < 1 + n ==> s[i] == body[..n][i - 1] == text[i - 1];
    if n < |text| {
      assert s[1 + n] == body[n];
    } else {
      assert s[1 + n] == '"';
    }
    SpanEndIs(s, 1, 1 + n);
  }

  /** White space, as section 2 of RFC 8259 has it: space, tab, line feed and carriage return. */
  predicate WhiteSpace(ch: char) {
    Code(ch) in {0x20, 0x09, 0x0a, 0x0d}
  }

  /** THE READER SKIPS WHITE SPACE in front of a string, all of it and nothing else. */
  lemma {:induction false} SkipsWhiteSpace(s: seq<char>, at: nat)
    requires at <= |s|
    ensures var r := Skipped(s, at);
            && (forall i | at <= i < r :: WhiteSpace(s[i])) && (r < |s| ==> !WhiteSpace(s[r]))
    decreases |s| - at
  {
    if at < |s| {
      assert Blank(s[at]) <==> WhiteSpace(s[at]);
      if Blank(s[at]) {
        SkipsWhiteSpace(s, at + 1);
      }
    }
  }

  // ----- the writers

  /** A destination with `t` and a terminator put down at `at`. */
  ghost predicate Put(before: seq<char>, after: seq<char>, at: nat, t: seq<char>) {
    && |after| == |before|
    && (t == [] ==> after == before)
    && (t != [] ==> at + |t| < |before| && after == before[..at] + t + ['\0'] + before[at + |t| + 1..])
  }

  lemma PutAgain(b: seq<char>, c: seq<char>, d: seq<char>, at: nat, s: seq<char>, t: seq<char>)
    requires Put(b, c, at, s) && Put(c, d, at + |s|, t)
    ensures Put(b, d, at, s + t)
  {
    if s == [] {
      assert s + t == t;
    } else if t == [] {
      assert s + t == s;
    } else {
      assert c[..at + |s|] == b[..at] + s;
      assert c[at + |s| + |t| + 1..] == b[at + |s| + |t| + 1..];
    }
  }

  class JsonWriter {
    const dest: array<char>
    var offset: nat

    constructor (dest: array<char>, offset: nat)
      ensures this.dest == dest && this.offset == offset
    {
      this.dest, this.offset := dest, offset;
    }

    ghost function Room(): nat
      reads this`offset
    {
      if offset >= dest.Length then 0 else dest.Length - offset
    }

    /** `stratum_append_text` and `stratum_append_raw`. */
    method Append(text: seq<char>) returns (ok: bool)
      modifies this, dest
      ensures ok <==> |text| < old(Room())
      ensures !ok ==> offset == old(offset) && dest[..] == old(dest[..])
      ensures ok ==> offset == old(offset) + |text| && (text != [] ==> Put(old(dest[..]), dest[..], old(offset), text))
      ensures ok && text == [] ==> dest[..] == old(dest[..])[offset := '\0']
    {
      if offset >= dest.Length || |text| >= dest.Length - offset {
        return false;
      }
      forall i | 0 <= i < |text| {
        dest[offset + i] := text[i];
      }
      offset := offset + |text|;
      dest[offset] := '\0';
      ok := true;
    }

    /** How far a writer is: `sent` is down, the pieces from `i` on are still to come. */
    ghost predicate Going(before: seq<char>, at: nat, room: nat, pieces: seq<seq<char>>, i: nat, sent: seq<char>)
      reads this, dest
      requires i <= |pieces|
    {
      && offset == at + |sent|
      && Put(before, dest[..], at, sent)
      && Taken(pieces, room) == sent + Taken(pieces[i..], Room())
      && AllFit(pieces, room) == AllFit(pieces[i..], Room())
    }

    /** The next piece; the writer stops when it does not fit. */
    method AppendPiece(ghost before: seq<char>, ghost at: nat, ghost room: nat, ghost pieces: seq<seq<char>>,
                       ghost i: nat, ghost sent: seq<char>, piece: seq<char>)
      returns (ok: bool)
      requires i < |pieces| && piece == pieces[i] && (piece == [] ==> i > 0 && sent != [])
      requires Going(before, at, room, pieces, i, sent)
      modifies this, dest
      ensures ok ==> Going(before, at, room, pieces, i + 1, sent + piece)
      ensures !ok ==> Done(before, at, room, pieces) && !AllFit(pieces, room)
    {
      assert pieces[i..][0] == piece && pieces[i..][1..] == pieces[i + 1..];
      ghost var now, here := dest[..], offset;
      ok := Append(piece);
      if !ok {
        assert sent + [] == sent;
      } else {
        if piece == [] {
          assert sent + piece == sent;
          assert now[offset] == '\0';
          assert dest[..] == now;
        } else {
          PutAgain(before, now, dest[..], at, sent, piece);
        }
        assert sent + (piece + Taken(pieces[i + 1..], Room())) == (sent + piece) + Taken(pieces[i + 1..], Room());
      }
    }

    /** What is down is what fits of the pieces. */
    ghost predicate Done(before: seq<char>, at: nat, room: nat, pieces: seq<seq<char>>)
      reads this, dest
    {
      offset == at + |Taken(pieces, room)| && Put(before, dest[..], at, Taken(pieces, room))
    }

    /** `stratum_append_json_string`. */
    method AppendJsonString(text: seq<char>) returns (ok: bool)
      modifies this, dest
      ensures ok <==> AllFit(SlowPieces(text), old(Room()))
      ensures Done(old(dest[..]), old(offset), old(Room()), SlowPieces(text))
    {
      hide Escape, Escapes, Put, Taken, AllFit;
      ghost var before, at, room, pieces := dest[..], offset, Room(), SlowPieces(text);
      ghost var sent: seq<char> := [];
      PutNothing(dest[..], pieces, offset, room);
      ok := AppendPiece(before, at, room, pieces, 0, sent, "\"");
      if !ok {
        return;
      }
      sent := sent + "\"";
      var i := 0;
      while i < |text|
        invariant 0 <= i <= |text| && |pieces| == |text| + 2
        invariant Going(before, at, room, pieces, i + 1, sent)
      {
        EscapesAt(text, i);
        ok := AppendPiece(before, at, room, pieces, i + 1, sent, Escape(text[i]));
        if !ok {
          return;
        }
        sent := sent + Escape(text[i]);
        i := i + 1;
      }
      ok := AppendPiece(before, at, room, pieces, |text| + 1, sent, "\"");
      if ok {
        AllSent(pieces, room, sent + "\"", Room());
      }
    }

    /** `stratum_append_json_string_fast`. */
    method AppendJsonStringFast(text: seq<char>) returns (ok: bool)
      modifies this, dest
      ensures ok <==> AllFit(FastPieces(text), old(Room()))
      ensures Done(old(dest[..]), old(offset), old(Room()), FastPieces(text))
    {
      hide Escape, Escapes, Put, Taken, AllFit;
      for cursor := 0 to |text|
        invariant Plain(text[..cursor])
      {
        if NeedsEscape(text[cursor]) {
          ok := AppendJsonString(text);
          return;
        }
      }
      assert text[..|text|] == text;
      ghost var before, at, room, pieces := dest[..], offset, Room(), FastPieces(text);
      PutNothing(dest[..], pieces, offset, room);
      ok := AppendPiece(before, at, room, pieces, 0, [], "\"");
      if !ok {
        return;
      }
      assert [] + "\"" == "\"" && pieces[1] == text;
      ok := AppendPiece(before, at, room, pieces, 1, "\"", text);
      if !ok {
        return;
      }
      ok := AppendPiece(before, at, room, pieces, 2, "\"" + text, "\"");
      if ok {
        AllSent(pieces, room, "\"" + text + "\"", Room());
      }
    }
  }

  lemma AllSent(pieces: seq<seq<char>>, room: nat, sent: seq<char>, left: nat)
    requires Taken(pieces, room) == sent + Taken(pieces[|pieces|..], left)
    requires AllFit(pieces, room) == AllFit(pieces[|pieces|..], left)
    ensures Taken(pieces, room) == sent && AllFit(pieces, room)
  {
    assert pieces[|pieces|..] == [];
    assert sent + [] == sent;
  }

  lemma PutNothing(s: seq<char>, pieces: seq<seq<char>>, at: nat, room: nat)
    ensures Put(s, s, at, [])
    ensures pieces[0..] == pieces && Taken(pieces, room) == [] + Taken(pieces[0..], room)
  {
  }

  lemma {:induction false} EscapesAt(text: seq<char>, i: nat)
    requires i < |text|
    ensures Escapes(text)[i] == Escape(text[i])
  {
    if i > 0 {
      EscapesAt(text[1..], i - 1);
    }
  }

}
