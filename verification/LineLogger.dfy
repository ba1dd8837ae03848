/**
 Turning the growing output file of an elevated PowerShell script into log lines
 (pkg/provision/provision_windows_local_helpers.go).  Text is a Go string: one character per
 byte.  A logged line is recorded without its prefix.
 */
module LineLogger {
  import opened GoStrings
  import opened Wrappers

  // ----- The lines of a text

  predicate EndsLine(c: char) { c == '\n' || c == '\r' }

  /** A trimmed segment is logged unless nothing is left of it. */
  function Logged(segment: string): seq<string> {
    var line := TrimSpace(segment);
    if line == "" then [] else [line]
  }

  /** The lines of all segments that a CR or LF ends; `pending` is the part of the current segment already read. */
  function CompleteLines(text: string, pending: string := ""): seq<string>
    decreases |text|
  {
    if text == "" then []
    else if EndsLine(text[0]) then Logged(pending) + CompleteLines(text[1..])
    else CompleteLines(text[1..], pending + [text[0]])
  }

  /** What follows the last CR or LF. */
  function Rest(text: string, pending: string := ""): string
    decreases |text|
  {
    if text == "" then pending
    else if EndsLine(text[0]) then Rest(text[1..])
    else Rest(text[1..], pending + [text[0]])
  }

  /** The trimmed non-empty lines of a whole text. */
  function Lines(text: string): seq<string> {
    CompleteLines(text) + Logged(Rest(text))
  }

  lemma {:induction false} LinesConcat(a: string, b: string, pending: string)
    ensures CompleteLines(a + b, pending) == CompleteLines(a, pending) + CompleteLines(b, Rest(a, pending))
    ensures Rest(a + b, pending) == Rest(b, Rest(a, pending))
    decreases |a|
  {
    if a == "" {
      assert a + b == b;
    } else {
      assert (a + b)[1..] == a[1..] + b;
      LinesConcat(a[1..], b, if EndsLine(a[0]) then "" else pending + [a[0]]);
    }
  }

  predicate OneSegment(s: string) { forall c :: c in s ==> !EndsLine(c) }

  lemma {:induction false} PendingIsPrefix(pending: string, text: string, seen: string)
    requires OneSegment(pending)
    ensures CompleteLines(pending + text, seen) == CompleteLines(text, seen + pending)
    ensures Rest(pending + text, seen) == Rest(text, seen + pending)
    decreases |pending|
  {
    if pending == "" {
      assert pending + text == text && seen + pending == seen;
    } else {
      assert pending[0] in pending;
      assert (pending + text)[1..] == pending[1..] + text;
      assert seen + [pending[0]] + pending[1..] == seen + pending;
      assert OneSegment(pending[1..]) by {
        forall c | c in pending[1..] ensures !EndsLine(c) { assert c in pending; }
      }
      PendingIsPrefix(pending[1..], text, seen + [pending[0]]);
    }
  }

  lemma {:induction false} RestIsOneSegment(text: string, pending: string)
    requires OneSegment(pending)
    ensures OneSegment(Rest(text, pending))
    decreases |text|
  {
    if text != "" {
      RestIsOneSegment(text[1..], if EndsLine(text[0]) then "" else pending + [text[0]]);
    }
  }

  // ----- Replacing line ends

  /** strings.ReplaceAll(s, "\r\n", "\n"). */
  function CollapseCRLF(s: string): string
    decreases |s|
  {
    if s == "" then ""
    else if |s| >= 2 && s[0] == '\r' && s[1] == '\n' then "\n" + CollapseCRLF(s[2..])
    else [s[0]] + CollapseCRLF(s[1..])
  }

  /** strings.ReplaceAll(s, "\r", "\n"). */
  function UnifyLineEnds(s: string): string
    decreases |s|
  {
    if s == "" then "" else [if s[0] == '\r' then '\n' else s[0]] + UnifyLineEnds(s[1..])
  }

  lemma EmptyLogsNothing()
    ensures Logged("") == []
  {
    assert TrimSpace("") == "";
  }

  /** A CR LF pair ends one segment and leaves an empty one: collapsing it loses nothing. */
  lemma {:induction false} CollapseKeepsLines(s: string, pending: string)
    ensures CompleteLines(CollapseCRLF(s), pending) == CompleteLines(s, pending)
    ensures Rest(CollapseCRLF(s), pending) == Rest(s, pending)
    decreases |s|
  {
    if s == "" {
    } else if |s| >= 2 && s[0] == '\r' && s[1] == '\n' {
      EmptyLogsNothing();
      CollapseKeepsLines(s[2..], "");
      assert ("\n" + CollapseCRLF(s[2..]))[1..] == CollapseCRLF(s[2..]);
      assert s[1..][1..] == s[2..];
      assert CompleteLines(s[1..]) == Logged("") + CompleteLines(s[2..]);
    } else {
      CollapseKeepsLines(s[1..], if EndsLine(s[0]) then "" else pending + [s[0]]);
      assert ([s[0]] + CollapseCRLF(s[1..]))[1..] == CollapseCRLF(s[1..]);
    }
  }

  lemma {:induction false} UnifyKeepsLines(s: string, pending: string)
    ensures CompleteLines(UnifyLineEnds(s), pending) == CompleteLines(s, pending)
    ensures Rest(UnifyLineEnds(s), pending) == Rest(s, pending)
    decreases |s|
  {
    if s != "" {
      UnifyKeepsLines(s[1..], if EndsLine(s[0]) then "" else pending + [s[0]]);
    }
  }

  lemma {:induction false} UnifyRemovesCR(s: string)
    ensures '\r' !in UnifyLineEnds(s)
    decreases |s|
  {
    if s != "" {
      UnifyRemovesCR(s[1..]);
    }
  }

  // ----- One chunk

  /** strings.IndexByte(s, '\n'), or nothing. */
  method IndexNewline(s: string) returns (index: Option<nat>)
    ensures index.None? <==> '\n' !in s
    ensures index.Some? ==> index.value < |s| && s[index.value] == '\n' && '\n' !in s[..index.value]
  {
    for k := 0 to |s|
      invariant '\n' !in s[..k]
    {
      if s[k] == '\n' {
        return Some(k);
      }
    }
    assert s[..|s|] == s;
    return None;
  }

  lemma CutLine(s: string, index: nat)
    requires index < |s| && s[index] == '\n' && OneSegment(s[..index])
    ensures CompleteLines(s) == Logged(s[..index]) + CompleteLines(s[index + 1..])
    ensures Rest(s) == Rest(s[index + 1..])
  {
    assert s == s[..index] + s[index..];
    PendingIsPrefix(s[..index], s[index..], "");
    assert "" + s[..index] == s[..index];
    assert s[index..][1..] == s[index + 1..];
  }

  /** The text after both replacements has the lines of the pending text followed by the chunk. */
  lemma NormalizedKeepsLines(pendingLine: string, chunk: string)
    ensures var text := UnifyLineEnds(pendingLine + CollapseCRLF(chunk));
            && '\r' !in text
            && CompleteLines(text) == CompleteLines(pendingLine + chunk)
            && Rest(text) == Rest(pendingLine + chunk)
  {
    var joined := pendingLine + CollapseCRLF(chunk);
    UnifyKeepsLines(joined, "");
    UnifyRemovesCR(joined);
    LinesConcat(pendingLine, CollapseCRLF(chunk), "");
    LinesConcat(pendingLine, chunk, "");
    CollapseKeepsLines(chunk, Rest(pendingLine));
  }

  /** Cuts off and logs one line after the other. */
  method LogLines(text: string) returns (pending: string, logged: seq<string>)
    requires '\r' !in text
    ensures logged == CompleteLines(text) && pending == Rest(text)
  {
    pending, logged := text, [];
    while true
      invariant '\r' !in pending
      invariant logged + CompleteLines(pending) == CompleteLines(text)
      invariant Rest(pending) == Rest(text)
      decreases |pending|
    {
      var newline := IndexNewline(pending);
      if newline.None? {
        break;
      }
      var index := newline.value;
      CutLine(pending, index);
      var line := TrimSpace(pending[..index]);
      if line != "" {
        logged := logged + [line];
      }
      pending := pending[index + 1..];
    }
    NoLineEnd(pending);
  }

  /**
   Logs every line the chunk completes and returns what is still pending.  The contract does
   not mention where the chunk was cut: only the text so far counts.
   */
  method LogChunk(chunk: string, pendingLine: string, flushPartial: bool) returns (pending: string, logged: seq<string>)
    ensures !flushPartial ==> logged == CompleteLines(pendingLine + chunk) && pending == Rest(pendingLine + chunk)
    ensures flushPartial ==> logged == Lines(pendingLine + chunk) && pending == ""
  {
    NormalizedKeepsLines(pendingLine, chunk);
    pending := pendingLine + CollapseCRLF(chunk);
    pending := UnifyLineEnds(pending);
    pending, logged := LogLines(pending);
    if flushPartial {
      var line := TrimSpace(pending);
      if line != "" {
        logged := logged + [line];
      }
      pending := "";
    }
  }

  lemma NoLineEnd(s: string)
    requires '\r' !in s && '\n' !in s
    ensures OneSegment(s) && CompleteLines(s) == [] && Rest(s) == s
  {
    PendingIsPrefix(s, "", "");
    assert s + "" == s && "" + s == s;
  }

  function Concat(chunks: seq<string>): string {
    if chunks == [] then "" else Concat(chunks[..|chunks| - 1]) + chunks[|chunks| - 1]
  }

  /** Text fed to the logger after text so far: its pending part is all that has to be remembered. */
  lemma RestCarriesOn(sofar: string, chunk: string)
    ensures CompleteLines(sofar + chunk) == CompleteLines(sofar) + CompleteLines(Rest(sofar) + chunk)
    ensures Rest(sofar + chunk) == Rest(Rest(sofar) + chunk)
  {
    LinesConcat(sofar, chunk, "");
    RestIsOneSegment(sofar, "");
    PendingIsPrefix(Rest(sofar), chunk, "");
    assert "" + Rest(sofar) == Rest(sofar);
  }

  /** Chunk invariance: however a text is cut, also between CR and LF, the logged lines are those of the whole text. */
  method LogChunks(chunks: seq<string>) returns (logged: seq<string>)
    ensures logged == Lines(Concat(chunks))
  {
    var pendingLine := "";
    logged := [];
    for k := 0 to |chunks|
      invariant logged == CompleteLines(Concat(chunks[..k])) && pendingLine == Rest(Concat(chunks[..k]))
    {
      assert chunks[..k + 1][..k] == chunks[..k];
      RestCarriesOn(Concat(chunks[..k]), chunks[k]);
      var pending, lines := LogChunk(chunks[k], pendingLine, false);
      pendingLine, logged := pending, logged + lines;
    }
    assert chunks[..|chunks|] == chunks;
    logged := FlushPending(logged, pendingLine, Concat(chunks));
  }

  method FlushPending(logged: seq<string>, pendingLine: string, ghost text: string) returns (all: seq<string>)
    requires logged == CompleteLines(text) && pendingLine == Rest(text)
    ensures all == Lines(text)
  {
    RestCarriesOn(text, "");
    assert text + "" == text && pendingLine + "" == pendingLine;
    var _, lines := LogChunk("", pendingLine, true);
    all := logged + lines;
  }

  // ----- Decoding

  /** A file's bytes, one character below 256 each. */
  type Bytes = string

  function Ch(n: int): char
    requires 0 <= n < 256
  {
    n as char
  }

  predicate Surrogate(unit: nat) { 0xD800 <= unit < 0xE000 }

  /** The UTF-8 form of one UTF-16 unit taken as a rune; half a surrogate pair becomes U+FFFD. */
  function Utf8(unit: nat): (s: Bytes)
    requires unit < 0x1_0000
    ensures |s| >= 1 && s[0] != '\U{FF}' && s[0] != '\U{FE}'
  {
    if unit < 0x80 then [Ch(unit)]
    else if unit < 0x800 then [Ch(0xC0 + unit / 64), Ch(0x80 + unit % 64)]
    else if Surrogate(unit) then "\U{EF}\U{BF}\U{BD}"
    else [Ch(0xE0 + unit / 4096), Ch(0x80 + unit / 64 % 64), Ch(0x80 + unit % 64)]
  }

  function Utf8All(units: seq<nat>): Bytes
    requires forall i :: 0 <= i < |units| ==> units[i] < 0x1_0000
  {
    if units == [] then "" else Utf8All(units[..|units| - 1]) + Utf8(units[|units| - 1])
  }

  function ByteAt(content: Bytes, i: nat): (n: nat)
    requires i < |content|
    ensures n < 256
  {
    content[i] as int % 256
  }

  function Unit(content: Bytes, i: nat, bigEndian: bool): (n: nat)
    requires i + 1 < |content|
    ensures n < 0x1_0000
  {
    if bigEndian then 256 * ByteAt(content, i) + ByteAt(content, i + 1)
    else ByteAt(content, i) + 256 * ByteAt(content, i + 1)
  }

  /** The whole units of the content; an odd last byte is not one. */
  function Units(content: Bytes, bigEndian: bool): (units: seq<nat>)
    ensures |units| == |content| / 2
    ensures forall i :: 0 <= i < |units| ==> units[i] < 0x1_0000
  {
    seq(|content| / 2, i requires 0 <= i < |content| / 2 => Unit(content, 2 * i, bigEndian))
  }

  method DecodeUTF16(content: Bytes, bigEndian: bool) returns (text: Bytes)
    ensures text == Utf8All(Units(content, bigEndian))
  {
    var even := if |content| % 2 != 0 then content[..|content| - 1] else content;
    var runes: seq<nat> := [];
    var index := 0;
    while index + 1 < |even|
      invariant index == 2 * |runes| && index <= |even|
      invariant runes == Units(content, bigEndian)[..|runes|]
    {
      runes := runes + [Unit(even, index, bigEndian)];
      index := index + 2;
    }
    assert runes == Units(content, bigEndian);
    return Utf8All(runes);
  }

  /** The two bytes of a unit in file order. */
  function Stored(unit: nat, bigEndian: bool): Bytes
    requires unit < 0x1_0000
  {
    if bigEndian then [Ch(unit / 256), Ch(unit % 256)] else [Ch(unit % 256), Ch(unit / 256)]
  }

  function StoredAll(units: seq<nat>, bigEndian: bool): (s: Bytes)
    requires forall i :: 0 <= i < |units| ==> units[i] < 0x1_0000
    ensures |s| == 2 * |units|
  {
    if units == [] then "" else StoredAll(units[..|units| - 1], bigEndian) + Stored(units[|units| - 1], bigEndian)
  }

  lemma StoredUnit(s: Bytes, i: nat, unit: nat, bigEndian: bool)
    requires unit < 0x1_0000 && i + 2 <= |s| && s[i..i + 2] == Stored(unit, bigEndian)
    ensures Unit(s, i, bigEndian) == unit
  {
    assert s[i] == s[i..i + 2][0] && s[i + 1] == s[i..i + 2][1];
  }

  lemma {:induction false} StoredAt(units: seq<nat>, bigEndian: bool, i: nat)
    requires i < |units| && forall k :: 0 <= k < |units| ==> units[k] < 0x1_0000
    ensures StoredAll(units, bigEndian)[2 * i..2 * i + 2] == Stored(units[i], bigEndian)
    decreases |units|
  {
    var n := |units| - 1;
    if i < n {
      StoredAt(units[..n], bigEndian, i);
      assert units[..n][i] == units[i];
      var front, last := StoredAll(units[..n], bigEndian), Stored(units[n], bigEndian);
      assert (front + last)[2 * i..2 * i + 2] == front[2 * i..2 * i + 2];
    }
  }

  /** Decoding gives back the units that were stored, in either byte order. */
  lemma StoredUnitsDecode(units: seq<nat>, bigEndian: bool)
    requires forall i :: 0 <= i < |units| ==> units[i] < 0x1_0000
    ensures Units(StoredAll(units, bigEndian), bigEndian) == units
  {
    forall i | 0 <= i < |units|
      ensures Units(StoredAll(units, bigEndian), bigEndian)[i] == units[i]
    {
      StoredAt(units, bigEndian, i);
      StoredUnit(StoredAll(units, bigEndian), 2 * i, units[i], bigEndian);
    }
  }

  /** Reads UTF-8 forms of up to three bytes. */
  function Runes(s: Bytes): seq<int>
    decreases |s|
  {
    if s == "" then []
    else if ByteAt(s, 0) < 0x80 then [ByteAt(s, 0)] + Runes(s[1..])
    else if ByteAt(s, 0) < 0xE0 && |s| >= 2 then
      [64 * (ByteAt(s, 0) - 0xC0) + (ByteAt(s, 1) - 0x80)] + Runes(s[2..])
    else if |s| >= 3 then
      [4096 * (ByteAt(s, 0) - 0xE0) + 64 * (ByteAt(s, 1) - 0x80) + (ByteAt(s, 2) - 0x80)] + Runes(s[3..])
    else []
  }

  lemma OneByte(a: nat, rest: Bytes)
    requires a < 0x80
    ensures Runes([Ch(a)] + rest) == [a] + Runes(rest)
  {
    assert ([Ch(a)] + rest)[1..] == rest;
  }

  lemma TwoBytes(a: nat, b: nat, rest: Bytes)
    requires 0xC0 <= a < 0xE0 && b < 256
    ensures Runes([Ch(a), Ch(b)] + rest) == [64 * (a - 0xC0) + (b - 0x80)] + Runes(rest)
  {
    assert ([Ch(a), Ch(b)] + rest)[2..] == rest;
  }

  lemma ThreeBytes(a: nat, b: nat, c: nat, rest: Bytes)
    requires 0xE0 <= a < 256 && b < 256 && c < 256
    ensures Runes([Ch(a), Ch(b), Ch(c)] + rest) == [4096 * (a - 0xE0) + 64 * (b - 0x80) + (c - 0x80)] + Runes(rest)
  {
    assert ([Ch(a), Ch(b), Ch(c)] + rest)[3..] == rest;
  }

  lemma Utf8Reads(unit: nat, rest: Bytes)
    requires unit < 0x1_0000 && !Surrogate(unit)
    ensures Runes(Utf8(unit) + rest) == [unit] + Runes(rest)
  {
    if unit < 0x80 {
      OneByte(unit, rest);
    } else if unit < 0x800 {
      TwoBytes(0xC0 + unit / 64, 0x80 + unit % 64, rest);
    } else {
      ThreeByteReads(unit, rest);
    }
  }

  lemma ThreeByteReads(unit: nat, rest: Bytes)
    requires 0x800 <= unit < 0x1_0000 && !Surrogate(unit)
    ensures Runes(Utf8(unit) + rest) == [unit] + Runes(rest)
  {
    var a, b, c := unit / 4096, unit / 64 % 64, unit % 64;
    assert unit == 4096 * a + 64 * b + c;
    ThreeBytes(0xE0 + a, 0x80 + b, 0x80 + c, rest);
  }

  /** Half of a surrogate pair reads as the replacement character. */
  lemma HalvesReplaced(unit: nat)
    requires unit < 0x1_0000 && Surrogate(unit)
    ensures Runes(Utf8(unit)) == [0xFFFD]
  {
    ThreeBytes(0xEF, 0xBF, 0xBD, "");
    assert [Ch(0xEF), Ch(0xBF), Ch(0xBD)] + "" == Utf8(unit);
  }

  /** White space means the same for bytes and for characters. */
  lemma SpaceTablesAgree(unit: nat)
    requires unit < 0x1_0000 && !Surrogate(unit)
    ensures IsSpace(unit as char) <==> SpaceAt(Utf8(unit), 0, |Utf8(unit)|)
  {
  }

  lemma {:induction false} Utf8AllReads(units: seq<nat>, rest: Bytes)
    requires forall i :: 0 <= i < |units| ==> units[i] < 0x1_0000 && !Surrogate(units[i])
    ensures Runes(Utf8All(units) + rest) == units + Runes(rest)
    decreases |units|
  {
    if units == [] {
      assert "" + rest == rest;
    } else {
      var n := |units| - 1;
      var x, y := Utf8All(units[..n]), Utf8(units[n]);
      Utf8AllReads(units[..n], y + rest);
      Utf8Reads(units[n], rest);
      assert (x + y) + rest == x + (y + rest);
      Regroup(units, rest);
    }
  }

  lemma Regroup(units: seq<nat>, rest: Bytes)
    requires units != []
    ensures units[..|units| - 1] + ([units[|units| - 1]] + Runes(rest)) == units + Runes(rest)
  {
    var n := |units| - 1;
    assert units == units[..n] + [units[n]];
  }

  lemma MarkDetected(body: Bytes, bigEndian: bool)
    ensures var content := Stored(0xFEFF, bigEndian) + body;
            Detect(content) == Utf16(2, bigEndian) && content[2..] == body
  {
  }

  /** A text of non-surrogate characters written as UTF-16 behind its mark comes back unchanged, as UTF-8. */
  lemma MarkedTextRoundTrips(units: seq<nat>, bigEndian: bool)
    requires forall i :: 0 <= i < |units| ==> units[i] < 0x1_0000 && !Surrogate(units[i])
    ensures Runes(Decode(Stored(0xFEFF, bigEndian) + StoredAll(units, bigEndian))) == units
  {
    var body := StoredAll(units, bigEndian);
    MarkDetected(body, bigEndian);
    StoredUnitsDecode(units, bigEndian);
    assert Decode(Stored(0xFEFF, bigEndian) + body) == Utf8All(units);
    Utf8AllReads(units, "");
    assert Utf8All(units) + "" == Utf8All(units) && units + [] == units;
  }

  /** More bytes give the same text and more. */
  lemma {:induction false} Utf8Prefix(units: seq<nat>, n: nat)
    requires n <= |units| && forall i :: 0 <= i < |units| ==> units[i] < 0x1_0000
    ensures Utf8All(units[..n]) <= Utf8All(units)
    decreases |units|
  {
    if n == |units| {
      assert units[..n] == units;
    } else {
      var m := |units| - 1;
      assert units[..m][..n] == units[..n];
      Utf8Prefix(units[..m], n);
    }
  }

  lemma UnitsPrefix(short: Bytes, long: Bytes, bigEndian: bool)
    requires short <= long
    ensures Utf8All(Units(short, bigEndian)) <= Utf8All(Units(long, bigEndian))
  {
    var n := |short| / 2;
    assert forall i :: 0 <= i < |short| ==> short[i] == long[i];
    assert Units(long, bigEndian)[..n] == Units(short, bigEndian);
    Utf8Prefix(Units(long, bigEndian), n);
  }

  // ----- Which encoding a file is taken for

  /** `skip` bytes of byte order mark come first. */
  datatype Encoding = Raw(skip: nat) | Utf16(skip: nat, bigEndian: bool)

  /** How many of the first n bytes at the positions from, from + 2, ... are zero. */
  function ZeroCount(content: Bytes, from: nat, n: nat): nat
    requires n > 0 ==> from + 2 * (n - 1) < |content|
  {
    if n == 0 then 0
    else ZeroCount(content, from, n - 1) + if ByteAt(content, from + 2 * (n - 1)) == 0 then 1 else 0
  }

  function SampleCount(content: Bytes): nat { if |content| / 2 < 16 then |content| / 2 else 16 }

  /** At least half of the sampled high bytes are zero. */
  predicate LooksLikeUTF16(content: Bytes, bigEndian: bool) {
    && |content| >= 4 && |content| % 2 == 0
    && 2 * ZeroCount(content, if bigEndian then 0 else 1, SampleCount(content)) >= SampleCount(content)
  }

  method SampleLooksLikeUTF16(content: Bytes, bigEndian: bool) returns (looks: bool)
    ensures looks <==> LooksLikeUTF16(content, bigEndian)
  {
    if |content| < 4 || |content| % 2 != 0 {
      return false;
    }
    var first := if bigEndian then 0 else 1;
    var index, sampleCount, zeroCount := first, 0, 0;
    while index < |content| && sampleCount < 16
      invariant index == first + 2 * sampleCount && sampleCount <= SampleCount(content)
      invariant zeroCount == ZeroCount(content, first, sampleCount)
    {
      sampleCount := sampleCount + 1;
      if ByteAt(content, index) == 0 {
        zeroCount := zeroCount + 1;
      }
      index := index + 2;
    }
    return sampleCount > 0 && zeroCount * 2 >= sampleCount;
  }

  function Detect(content: Bytes): (e: Encoding)
    ensures e.skip <= |content|
  {
    if |content| >= 2 && content[0] == '\U{FF}' && content[1] == '\U{FE}' then Utf16(2, false)
    else if |content| >= 2 && content[0] == '\U{FE}' && content[1] == '\U{FF}' then Utf16(2, true)
    else if |content| >= 3 && content[..3] == "\U{EF}\U{BB}\U{BF}" then Raw(3)
    else if LooksLikeUTF16(content, false) then Utf16(0, false)
    else if LooksLikeUTF16(content, true) then Utf16(0, true)
    else Raw(0)
  }

  function Decode(content: Bytes): Bytes {
    var e := Detect(content);
    var body := content[e.skip..];
    if e.Raw? then body else Utf8All(Units(body, e.bigEndian))
  }

  lemma {:induction false} NoZeros(content: Bytes, from: nat, n: nat)
    requires n > 0 ==> from + 2 * (n - 1) < |content|
    requires forall k :: 0 <= k < n ==> ByteAt(content, from + 2 * k) != 0
    ensures ZeroCount(content, from, n) == 0
  {
    if n > 0 {
      NoZeros(content, from, n - 1);
    }
  }

  lemma {:induction false} OnlyZeros(content: Bytes, from: nat, n: nat)
    requires n > 0 ==> from + 2 * (n - 1) < |content|
    requires forall k :: 0 <= k < n ==> ByteAt(content, from + 2 * k) == 0
    ensures ZeroCount(content, from, n) == n
  {
    if n > 0 {
      OnlyZeros(content, from, n - 1);
    }
  }

  predicate Unmarked(content: Bytes) {
    !(Stored(0xFEFF, false) <= content) && !(Stored(0xFEFF, true) <= content)
    && !("\U{EF}\U{BB}\U{BF}" <= content)
  }

  lemma UnmarkedGuessed(content: Bytes)
    requires Unmarked(content)
    ensures Detect(content) ==
            if LooksLikeUTF16(content, false) then Utf16(0, false)
            else if LooksLikeUTF16(content, true) then Utf16(0, true)
            else Raw(0)
  {
    if |content| >= 2 {
      assert content[..2] == [content[0], content[1]];
    }
  }

  /** Text without a mark and without a zero byte is taken as it is. */
  lemma PlainTextUnchanged(content: Bytes)
    requires Unmarked(content)
    requires forall i :: 0 <= i < |content| ==> 0 < content[i] as int < 256
    ensures Decode(content) == content
  {
    UnmarkedGuessed(content);
    var n := SampleCount(content);
    if |content| >= 4 {
      NoZeros(content, 0, n);
      NoZeros(content, 1, n);
    }
    assert content[0..] == content;
  }

  /** UTF-16 without a mark is recognised, in either byte order, when all its characters are Latin-1. */
  lemma LatinGuessed(units: seq<nat>, bigEndian: bool)
    requires |units| >= 2 && forall i :: 0 <= i < |units| ==> 0 < units[i] < 256
    ensures Decode(StoredAll(units, bigEndian)) == Utf8All(units)
  {
    var content := StoredAll(units, bigEndian);
    LatinBytes(units, bigEndian);
    UnmarkedGuessed(content);
    var n := SampleCount(content);
    OnlyZeros(content, if bigEndian then 0 else 1, n);
    NoZeros(content, if bigEndian then 1 else 0, n);
    StoredUnitsDecode(units, bigEndian);
    assert content[0..] == content;
  }

  lemma LatinBytes(units: seq<nat>, bigEndian: bool)
    requires |units| >= 2 && forall i :: 0 <= i < |units| ==> 0 < units[i] < 256
    ensures var content := StoredAll(units, bigEndian);
            && Unmarked(content)
            && forall k :: 0 <= k < |units| ==>
                 && ByteAt(content, (if bigEndian then 0 else 1) + 2 * k) == 0
                 && ByteAt(content, (if bigEndian then 1 else 0) + 2 * k) != 0
  {
    var content := StoredAll(units, bigEndian);
    forall k | 0 <= k < |units|
      ensures ByteAt(content, (if bigEndian then 0 else 1) + 2 * k) == 0
      ensures ByteAt(content, (if bigEndian then 1 else 0) + 2 * k) != 0
    {
      LatinPair(units, bigEndian, k);
    }
    LatinPair(units, bigEndian, 0);
  }

  lemma LatinPair(units: seq<nat>, bigEndian: bool, k: nat)
    requires k < |units| && forall i :: 0 <= i < |units| ==> 0 < units[i] < 256
    ensures var content := StoredAll(units, bigEndian);
            && content[2 * k] == (if bigEndian then Ch(0) else Ch(units[k]))
            && content[2 * k + 1] == (if bigEndian then Ch(units[k]) else Ch(0))
  {
    var content := StoredAll(units, bigEndian);
    StoredAt(units, bigEndian, k);
    var pair := content[2 * k..2 * k + 2];
    assert content[2 * k] == pair[0] && content[2 * k + 1] == pair[1];
  }

  method DecodeOutput(content: Bytes) returns (text: Bytes)
    ensures text == Decode(content)
  {
    if |content| == 0 {
      return "";
    }
    if |content| >= 2 {
      if content[0] == '\U{FF}' && content[1] == '\U{FE}' {
        text := DecodeUTF16(content[2..], false);
        return;
      }
      if content[0] == '\U{FE}' && content[1] == '\U{FF}' {
        text := DecodeUTF16(content[2..], true);
        return;
      }
    }
    if |content| >= 3 && content[..3] == "\U{EF}\U{BB}\U{BF}" {
      return content[3..];
    }
    var little := SampleLooksLikeUTF16(content, false);
    if little {
      text := DecodeUTF16(content, false);
      return;
    }
    var big := SampleLooksLikeUTF16(content, true);
    if big {
      text := DecodeUTF16(content, true);
      return;
    }
    return content;
  }

  /** A shorter content taken for the same encoding decodes to a prefix. */
  lemma SameEncodingPrefix(short: Bytes, long: Bytes)
    requires short <= long && (short == "" || Detect(short) == Detect(long))
    ensures Decode(short) <= Decode(long)
  {
    if short != "" {
      var e := Detect(long);
      assert short[e.skip..] <= long[e.skip..];
      if e.Utf16? {
        UnitsPrefix(short[e.skip..], long[e.skip..], e.bigEndian);
      }
    }
  }

  // ----- Polling a growing file

  /** The decoded text handed to the logger after one more poll. */
  function Feed(fed: string, decoded: string): string {
    if |decoded| <= |fed| then fed else fed + decoded[|fed|..]
  }

  /** The text handed over by a sequence of polls; an unreadable file is None. */
  function FedBy(polls: seq<Option<Bytes>>): string {
    if polls == [] then ""
    else
      var before := FedBy(polls[..|polls| - 1]);
      var last := polls[|polls| - 1];
      if last.None? then before else Feed(before, Decode(last.value))
  }

  /** The polling loop; the last poll is the one after the script has stopped. */
  method StreamOutput(polls: seq<Option<Bytes>>) returns (logged: seq<string>)
    ensures logged == Lines(FedBy(polls))
  {
    var printedLength := 0;
    var pendingLine := "";
    logged := [];
    for k := 0 to |polls|
      invariant printedLength == |FedBy(polls[..k])|
      invariant logged == CompleteLines(FedBy(polls[..k])) && pendingLine == Rest(FedBy(polls[..k]))
    {
      assert polls[..k + 1][..k] == polls[..k];
      if polls[k].Some? {
        var decoded := DecodeOutput(polls[k].value);
        if |decoded| > printedLength {
          RestCarriesOn(FedBy(polls[..k]), decoded[printedLength..]);
          var pending, lines := LogChunk(decoded[printedLength..], pendingLine, false);
          pendingLine, logged := pending, logged + lines;
          printedLength := |decoded|;
        }
      }
    }
    assert polls[..|polls|] == polls;
    logged := FlushPending(logged, pendingLine, FedBy(polls));
  }

  /** The length of the longest text a poll decoded to. */
  function LongestDecoded(polls: seq<Option<Bytes>>): nat {
    if polls == [] then 0
    else
      var before, last := LongestDecoded(polls[..|polls| - 1]), polls[|polls| - 1];
      if last.Some? && |Decode(last.value)| > before then |Decode(last.value)| else before
  }

  /** What has been handed over reaches as far as the longest decoded poll, whatever the file does. */
  lemma {:induction false} FedReaches(polls: seq<Option<Bytes>>)
    ensures |FedBy(polls)| == LongestDecoded(polls)
  {
    if polls != [] {
      FedReaches(polls[..|polls| - 1]);
    }
  }

  /** And it is never taken back. */
  lemma FedStays(polls: seq<Option<Bytes>>)
    requires polls != []
    ensures FedBy(polls[..|polls| - 1]) <= FedBy(polls)
  {
  }

  /** Every readable poll saw a beginning of the final content and took it for the same encoding. */
  ghost predicate SteadyGrowth(polls: seq<Option<Bytes>>, final: Bytes) {
    forall k :: 0 <= k < |polls| && polls[k].Some? ==>
      polls[k].value <= final && (polls[k].value == "" || Detect(polls[k].value) == Detect(final))
  }

  lemma FeedPrefix(fed: string, decoded: string, whole: string)
    requires fed <= whole && decoded <= whole
    ensures Feed(fed, decoded) <= whole
    ensures decoded == whole || fed == whole ==> Feed(fed, decoded) == whole
  {
    if |decoded| > |fed| {
      assert fed == decoded[..|fed|];
      assert Feed(fed, decoded) == decoded;
    }
  }

  lemma SteadyFront(polls: seq<Option<Bytes>>, final: Bytes)
    requires polls != [] && SteadyGrowth(polls, final)
    ensures SteadyGrowth(polls[..|polls| - 1], final)
  {
    var front := polls[..|polls| - 1];
    forall k | 0 <= k < |front| && front[k].Some?
      ensures front[k].value <= final && (front[k].value == "" || Detect(front[k].value) == Detect(final))
    {
      assert polls[k] == front[k];
    }
  }

  lemma {:induction false} SteadyFeeds(polls: seq<Option<Bytes>>, final: Bytes)
    requires SteadyGrowth(polls, final)
    ensures FedBy(polls) <= Decode(final)
    ensures Some(final) in polls ==> FedBy(polls) == Decode(final)
  {
    if polls != [] {
      var n := |polls| - 1;
      SteadyFront(polls, final);
      SteadyFeeds(polls[..n], final);
      assert polls == polls[..n] + [polls[n]];
      if polls[n].Some? {
        SameEncodingPrefix(polls[n].value, final);
        FeedPrefix(FedBy(polls[..n]), Decode(polls[n].value), Decode(final));
      }
    }
  }

  /** Polling a growing file whose detected encoding stays fixed logs exactly the lines of its final decoding. */
  lemma SteadyPollingLogsFinalText(polls: seq<Option<Bytes>>, final: Bytes)
    requires SteadyGrowth(polls, final) && Some(final) in polls
    ensures Lines(FedBy(polls)) == Lines(Decode(final))
  {
    SteadyFeeds(polls, final);
  }

  // ----- A byte order mark read in parts

  const UTF8_MARK := "\U{EF}\U{BB}\U{BF}"

  predicate IsMark(mark: Bytes) {
    mark == Stored(0xFEFF, false) || mark == Stored(0xFEFF, true) || mark == UTF8_MARK
  }

  ghost predicate Growing(polls: seq<Option<Bytes>>, final: Bytes) {
    && (forall k :: 0 <= k < |polls| && polls[k].Some? ==> polls[k].value <= final)
    && (forall j, k :: 0 <= j < k < |polls| && polls[j].Some? && polls[k].Some? ==> polls[j].value <= polls[k].value)
  }

  /** Some poll saw a part of the mark, but not all of it. */
  ghost predicate SawPartOf(polls: seq<Option<Bytes>>, mark: Bytes) {
    exists k :: 0 <= k < |polls| && polls[k].Some? && 0 < |polls[k].value| < |mark|
  }

  /** What the last readable poll shorter than the mark saw; "" if there was none. */
  function PartSeen(polls: seq<Option<Bytes>>, mark: Bytes): Bytes {
    if polls == [] then ""
    else
      var last := polls[|polls| - 1];
      if last.Some? && |last.value| < |mark| then last.value else PartSeen(polls[..|polls| - 1], mark)
  }

  /** The last readable poll that saw the whole mark, decoded; "" if there was none. */
  function LastDecoded(polls: seq<Option<Bytes>>, mark: Bytes): Bytes {
    if polls == [] then ""
    else
      var last := polls[|polls| - 1];
      if last.Some? && |last.value| >= |mark| then Decode(last.value) else LastDecoded(polls[..|polls| - 1], mark)
  }

  lemma GrowingFront(polls: seq<Option<Bytes>>, final: Bytes)
    requires polls != [] && Growing(polls, final)
    ensures Growing(polls[..|polls| - 1], final)
  {
    var front := polls[..|polls| - 1];
    forall k | 0 <= k < |front| && front[k].Some? ensures front[k].value <= final {
      assert polls[k].Some?;
    }
    forall j, k | 0 <= j < k < |front| && front[j].Some? && front[k].Some? ensures front[j].value <= front[k].value {
      assert polls[j].value <= polls[k].value;
    }
  }

  /** Less than the mark is taken for text. */
  lemma PartIsText(content: Bytes, mark: Bytes)
    requires IsMark(mark) && content <= mark && content != mark
    ensures Decode(content) == content
  {
    assert |content| < |mark| <= 3;
    assert content == mark[..|content|];
    assert Detect(content) == Raw(0);
    assert content[0..] == content;
  }

  /** With the whole mark in view the encoding is settled. */
  lemma MarkSettles(content: Bytes, final: Bytes, mark: Bytes)
    requires IsMark(mark) && mark <= content <= final
    ensures Detect(content) == Detect(final) && Detect(final).skip == |mark|
  {
    assert content[0] == mark[0] == final[0] && content[1] == mark[1] == final[1];
    if mark == UTF8_MARK {
      assert content[..3] == mark == final[..3];
    }
  }

  lemma FeedTwice(part: string, short: string, long: string)
    requires short <= long
    ensures Feed(Feed(part, short), long) == Feed(part, long)
  {
    if |short| > |part| {
      assert short == long[..|short|];
      assert Feed(part, short) == part + short[|part|..];
      if |long| > |short| {
        assert long[|part|..] == short[|part|..] + long[|short|..];
      }
    }
  }

  /** Every readable poll was at most as long as the given content. */
  ghost predicate SeenWithin(polls: seq<Option<Bytes>>, content: Bytes) {
    forall k :: 0 <= k < |polls| && polls[k].Some? ==> polls[k].value <= content
  }

  lemma {:induction false} SeenDecodes(polls: seq<Option<Bytes>>, mark: Bytes, content: Bytes)
    requires IsMark(mark) && SeenWithin(polls, content)
    ensures mark <= content ==> LastDecoded(polls, mark) <= Decode(content)
    ensures |content| < |mark| ==> LastDecoded(polls, mark) == ""
    ensures PartSeen(polls, mark) <= content && |PartSeen(polls, mark)| < |mark|
  {
    if polls != [] {
      var front, last := polls[..|polls| - 1], polls[|polls| - 1];
      assert SeenWithin(front, content) by {
        forall k | 0 <= k < |front| && front[k].Some? ensures front[k].value <= content { assert polls[k] == front[k]; }
      }
      SeenDecodes(front, mark, content);
      if last.Some? && |last.value| >= |mark| && mark <= content {
        assert mark == content[..|mark|] == last.value[..|mark|];
        MarkSettles(last.value, content, mark);
        SameEncodingPrefix(last.value, content);
      }
    }
  }

  /** What polls of a growing marked file hand over: the part of the mark seen, overlaid by the decoded text. */
  lemma {:induction false} PartOverlaid(polls: seq<Option<Bytes>>, final: Bytes, mark: Bytes)
    requires IsMark(mark) && mark <= final && Growing(polls, final)
    ensures FedBy(polls) == Feed(PartSeen(polls, mark), LastDecoded(polls, mark))
  {
    if polls != [] {
      var n := |polls| - 1;
      var front, last := polls[..n], polls[n];
      GrowingFront(polls, final);
      PartOverlaid(front, final, mark);
      if last.Some? {
        assert SeenWithin(front, last.value) by {
          forall k | 0 <= k < |front| && front[k].Some? ensures front[k].value <= last.value { assert polls[k] == front[k]; }
        }
        if |last.value| < |mark| {
          ShortPoll(front, last.value, final, mark);
        } else {
          LongPoll(front, last.value, final, mark);
        }
      }
    }
  }

  lemma ShortPoll(front: seq<Option<Bytes>>, content: Bytes, final: Bytes, mark: Bytes)
    requires IsMark(mark) && mark <= final && content <= final && |content| < |mark| && SeenWithin(front, content)
    requires FedBy(front) == Feed(PartSeen(front, mark), LastDecoded(front, mark))
    ensures Feed(FedBy(front), Decode(content)) == Feed(content, LastDecoded(front, mark))
  {
    SeenDecodes(front, mark, content);
    assert content == final[..|content|] == mark[..|content|];
    PartIsText(content, mark);
    FeedPrefix(PartSeen(front, mark), content, content);
  }

  lemma LongPoll(front: seq<Option<Bytes>>, content: Bytes, final: Bytes, mark: Bytes)
    requires IsMark(mark) && mark <= final && content <= final && |content| >= |mark| && SeenWithin(front, content)
    requires FedBy(front) == Feed(PartSeen(front, mark), LastDecoded(front, mark))
    ensures Feed(FedBy(front), Decode(content)) == Feed(PartSeen(front, mark), Decode(content))
  {
    SeenDecodes(front, mark, content);
    assert mark == final[..|mark|] == content[..|mark|];
    FeedTwice(PartSeen(front, mark), LastDecoded(front, mark), Decode(content));
  }

  lemma {:induction false} FinalDecodedLast(polls: seq<Option<Bytes>>, final: Bytes, mark: Bytes)
    requires IsMark(mark) && mark <= final && Growing(polls, final) && Some(final) in polls
    ensures LastDecoded(polls, mark) == Decode(final)
  {
    var n := |polls| - 1;
    var front, last := polls[..n], polls[n];
    if last.Some? {
      LastReadableIsFinal(polls, final);
    } else {
      assert polls == front + [last];
      GrowingFront(polls, final);
      FinalDecodedLast(front, final, mark);
    }
  }

  lemma LastReadableIsFinal(polls: seq<Option<Bytes>>, final: Bytes)
    requires Growing(polls, final) && Some(final) in polls && polls[|polls| - 1].Some?
    ensures polls[|polls| - 1].value == final
  {
    var n := |polls| - 1;
    var k :| 0 <= k <= n && polls[k] == Some(final);
    assert polls[k].value <= polls[n].value <= final;
    assert |polls[n].value| == |final|;
  }

  lemma {:induction false} PartSeenMeansSaw(polls: seq<Option<Bytes>>, final: Bytes, mark: Bytes)
    requires Growing(polls, final)
    ensures PartSeen(polls, mark) != "" <==> SawPartOf(polls, mark)
  {
    if polls != [] {
      var n := |polls| - 1;
      var front, last := polls[..n], polls[n];
      GrowingFront(polls, final);
      PartSeenMeansSaw(front, final, mark);
      if SawPartOf(front, mark) {
        var k :| 0 <= k < |front| && front[k].Some? && 0 < |front[k].value| < |mark|;
        assert polls[k] == front[k] && k < n;
        assert last.Some? ==> polls[k].value <= last.value;
      }
      if SawPartOf(polls, mark) && !(last.Some? && 0 < |last.value| < |mark|) {
        var k :| 0 <= k < |polls| && polls[k].Some? && 0 < |polls[k].value| < |mark|;
        assert front[k] == polls[k];
        assert last.Some? ==> polls[k].value <= last.value;
      }
    }
  }

  // ----- Bytes that no trimming and no cutting removes

  /** Bytes that occur in the UTF-8 form of some white space, line ends included. */
  predicate SpaceByte(c: char) {
    || '\t' <= c <= '\r' || c == ' ' || '\U{80}' <= c <= '\U{8A}'
    || c in {'\U{9A}', '\U{9F}', '\U{A0}', '\U{A8}', '\U{A9}', '\U{AF}', '\U{C2}', '\U{E1}', '\U{E2}', '\U{E3}'}
  }

  /** All others, among them every printing ASCII character and the bytes of every part of a mark. */
  predicate Solid(c: char) { !SpaceByte(c) }

  function Solids(s: string): (t: string)
    ensures |t| <= |s|
  {
    if s == "" then "" else (if Solid(s[0]) then [s[0]] else "") + Solids(s[1..])
  }

  lemma {:induction false} SolidsConcat(a: string, b: string)
    ensures Solids(a + b) == Solids(a) + Solids(b)
  {
    if a == "" {
      assert a + b == b;
    } else {
      var first := if Solid(a[0]) then [a[0]] else "";
      assert (a + b)[0] == a[0] && (a + b)[1..] == a[1..] + b;
      SolidsConcat(a[1..], b);
      assert first + (Solids(a[1..]) + Solids(b)) == first + Solids(a[1..]) + Solids(b);
    }
  }

  lemma {:induction false} AllSolid(s: string)
    ensures |Solids(s)| == |s| ==> Solids(s) == s
    ensures (forall c :: c in s ==> Solid(c)) ==> Solids(s) == s
  {
    if s != "" {
      AllSolid(s[1..]);
      assert s == [s[0]] + s[1..];
    }
  }

  lemma SpaceNotSolid(s: string, i: nat, n: nat)
    requires SpaceAt(s, i, n)
    ensures Solids(s[i..i + n]) == ""
  {
    forall k | i <= k < i + n ensures !Solid(s[k]) {
    }
    NoneSolid(s[i..i + n]);
  }

  lemma {:induction false} NoneSolid(s: string)
    requires forall k :: 0 <= k < |s| ==> !Solid(s[k])
    ensures Solids(s) == ""
  {
    if s != "" {
      NoneSolid(s[1..]);
    }
  }

  lemma {:induction false} BlankNotSolid(s: string, i: nat, j: nat)
    requires i <= j <= |s| && Blank(s, i, j)
    ensures Solids(s[i..j]) == ""
    decreases j - i
  {
    if i < j {
      var n := SpaceFrom(s, i, j);
      SpaceNotSolid(s, i, n);
      BlankNotSolid(s, i + n, j);
      assert s[i..j] == s[i..i + n] + s[i + n..j];
      SolidsConcat(s[i..i + n], s[i + n..j]);
    }
  }

  lemma TrimKeepsSolids(s: string)
    ensures Solids(TrimSpace(s)) == Solids(s)
  {
    var x, y, z := TrimParts(s);
    MiddleSolids(x, y, z);
  }

  lemma TrimParts(s: string) returns (x: string, y: string, z: string)
    ensures s == x + y + z && TrimSpace(s) == y
    ensures Solids(x) == "" && Solids(z) == ""
  {
    var i, j := TrimSpaceCuts(s);
    BlankNotSolid(s, 0, i);
    BlankNotSolid(s, j, |s|);
    x, y, z := s[0..i], s[i..j], s[j..|s|];
    TwoCuts(s, i, j);
  }

  lemma TwoCuts(s: string, i: nat, j: nat)
    requires i <= j <= |s|
    ensures s == s[0..i] + s[i..j] + s[j..|s|]
  {
    assert s[0..i] + s[i..j] == s[0..j];
  }

  lemma MiddleSolids(x: string, y: string, z: string)
    requires Solids(x) == "" && Solids(z) == ""
    ensures Solids(x + y + z) == Solids(y)
  {
    SolidsConcat(x, y);
    SolidsConcat(x + y, z);
    assert "" + Solids(y) + "" == Solids(y);
  }

  /** The solid bytes of all lines together. */
  function LineSolids(lines: seq<string>): string {
    if lines == [] then "" else Solids(lines[0]) + LineSolids(lines[1..])
  }

  lemma {:induction false} LineSolidsConcat(a: seq<string>, b: seq<string>)
    ensures LineSolids(a + b) == LineSolids(a) + LineSolids(b)
  {
    if a == [] {
      assert a + b == b;
    } else {
      assert (a + b)[1..] == a[1..] + b;
      LineSolidsConcat(a[1..], b);
    }
  }

  lemma LoggedKeepsSolids(segment: string)
    ensures LineSolids(Logged(segment)) == Solids(segment)
  {
    TrimKeepsSolids(segment);
    var line := TrimSpace(segment);
    if line != "" {
      assert [line][1..] == [];
    }
  }

  lemma SolidsStep(c: char, rest: string)
    ensures Solids([c] + rest) == Solids([c]) + Solids(rest)
    ensures EndsLine(c) ==> Solids([c]) == ""
  {
    SolidsConcat([c], rest);
    assert EndsLine(c) ==> !Solid(c);
  }

  lemma Associates(a: string, b: string, c: string)
    ensures a + b + c == a + (b + c)
    ensures "" + c == c
  {
  }

  lemma {:induction false} CuttingKeepsSolids(text: string, pending: string)
    ensures LineSolids(CompleteLines(text, pending)) + Solids(Rest(text, pending)) == Solids(pending) + Solids(text)
    decreases |text|
  {
    if text != "" {
      if EndsLine(text[0]) {
        LoggedKeepsSolids(pending);
        CuttingKeepsSolids(text[1..], "");
        LineSolidsConcat(Logged(pending), CompleteLines(text[1..]));
        SolidsStep(text[0], text[1..]);
        Associates(Solids(pending), LineSolids(CompleteLines(text[1..])), Solids(Rest(text[1..])));
      } else {
        CuttingKeepsSolids(text[1..], pending + [text[0]]);
        SolidsConcat(pending, [text[0]]);
        SolidsStep(text[0], text[1..]);
        Associates(Solids(pending), Solids([text[0]]), Solids(text[1..]));
      }
      assert text == [text[0]] + text[1..];
    }
  }

  /** The lines of a text hold its solid bytes in order. */
  lemma LinesKeepSolids(text: string)
    ensures LineSolids(Lines(text)) == Solids(text)
  {
    CuttingKeepsSolids(text, "");
    LoggedKeepsSolids(Rest(text));
    LineSolidsConcat(CompleteLines(text), Logged(Rest(text)));
  }

  /** A CR or LF separates: the lines of a text are those of its two sides. */
  lemma LinesSplit(a: string, c: char, b: string)
    requires c == '\n' || c == '\r'
    ensures Lines(a + [c] + b) == Lines(a) + Lines(b)
  {
    LinesConcat(a, [c] + b, "");
    SegmentEnds(c, b, Rest(a));
    assert a + [c] + b == a + ([c] + b);
    FourParts(CompleteLines(a), Logged(Rest(a)), CompleteLines(b), Logged(Rest(b)));
  }

  lemma SegmentEnds(c: char, b: string, pending: string)
    requires EndsLine(c)
    ensures CompleteLines([c] + b, pending) == Logged(pending) + CompleteLines(b)
    ensures Rest([c] + b, pending) == Rest(b)
  {
    assert ([c] + b)[1..] == b;
  }

  lemma FourParts(w: seq<string>, x: seq<string>, y: seq<string>, z: seq<string>)
    ensures w + (x + y) + z == w + x + (y + z)
  {
  }

  /** Without one, the whole text is one line, trimmed, unless nothing is left of it. */
  lemma LinesOfOne(s: string)
    requires '\n' !in s && '\r' !in s
    ensures Lines(s) == if TrimSpace(s) == "" then [] else [TrimSpace(s)]
  {
    NoLineEnd(s);
  }

  /** Text laid over the beginning of another leaves the lines as they are exactly when it was there already. */
  lemma OverlayShows(part: string, text: string)
    requires forall c :: c in part ==> Solid(c)
    ensures Lines(Feed(part, text)) == Lines(text) <==> part <= text
    ensures Feed(part, text) == text <==> part <= text
  {
    if part <= text {
      FeedPrefix(part, text, text);
    } else if Lines(Feed(part, text)) == Lines(text) {
      LinesKeepSolids(Feed(part, text));
      LinesKeepSolids(text);
      SolidOverlay(part, text);
      assert false;
    }
  }

  lemma SolidOverlay(part: string, text: string)
    requires forall c :: c in part ==> Solid(c)
    requires Solids(Feed(part, text)) == Solids(text)
    ensures part <= text
  {
    AllSolid(part);
    if |text| <= |part| {
      AllSolid(text);
    } else {
      var front, rest := text[..|part|], text[|part|..];
      assert text == front + rest;
      SolidsConcat(part, rest);
      SolidsConcat(front, rest);
      SameFront(part, Solids(front), Solids(rest));
      AllSolid(front);
    }
  }

  lemma SameFront(a: string, b: string, rest: string)
    requires a + rest == b + rest
    ensures a == b
  {
    assert |a + rest| == |b + rest|;
    assert a == (a + rest)[..|a|] && b == (b + rest)[..|b|];
  }

  lemma PartSolid(part: Bytes, mark: Bytes)
    requires IsMark(mark) && part <= mark && part != mark
    ensures forall c :: c in part ==> Solid(c)
  {
    forall i | 0 <= i < |part| ensures Solid(part[i]) {
      assert part[i] == mark[i] && i + 1 < |mark|;
    }
  }

  /**
   A growing file that starts with a byte order mark is logged as the lines of its final text
   exactly when the part of the mark that was read first, if any, happens to begin that text.
   */
  lemma MarkedFilesStreamExactly(polls: seq<Option<Bytes>>, final: Bytes, mark: Bytes)
    requires IsMark(mark) && mark <= final && Growing(polls, final) && Some(final) in polls
    ensures Lines(FedBy(polls)) == Lines(Decode(final)) <==> PartSeen(polls, mark) <= Decode(final)
    ensures FedBy(polls) == Decode(final) <==> PartSeen(polls, mark) <= Decode(final)
    ensures PartSeen(polls, mark) == "" <==> !SawPartOf(polls, mark)
  {
    PartOverlaid(polls, final, mark);
    FinalDecodedLast(polls, final, mark);
    PartSeenMeansSaw(polls, final, mark);
    SeenDecodes(polls, mark, final);
    var part := PartSeen(polls, mark);
    assert part == final[..|part|] == mark[..|part|];
    PartSolid(part, mark);
    OverlayShows(part, Decode(final));
  }

  lemma {:induction false} Utf8AllStart(units: seq<nat>)
    requires forall i :: 0 <= i < |units| ==> units[i] < 0x1_0000
    ensures Utf8All(units) != "" ==> Utf8All(units)[0] != '\U{FF}' && Utf8All(units)[0] != '\U{FE}'
  {
    if |units| > 0 {
      Utf8AllStart(units[..|units| - 1]);
    }
  }

  /** UTF-8 never starts with a byte of the UTF-16 marks, so there the lines are right exactly when no poll caught half of the mark. */
  lemma Utf16FilesStreamExactly(polls: seq<Option<Bytes>>, final: Bytes, bigEndian: bool)
    requires Stored(0xFEFF, bigEndian) <= final && Growing(polls, final) && Some(final) in polls
    ensures Lines(FedBy(polls)) == Lines(Decode(final)) <==> !SawPartOf(polls, Stored(0xFEFF, bigEndian))
    ensures FedBy(polls) == Decode(final) <==> !SawPartOf(polls, Stored(0xFEFF, bigEndian))
  {
    var mark := Stored(0xFEFF, bigEndian);
    MarkedFilesStreamExactly(polls, final, mark);
    SeenDecodes(polls, mark, final);
    HalfNeverBegins(PartSeen(polls, mark), final, bigEndian);
  }

  lemma HalfNeverBegins(part: Bytes, final: Bytes, bigEndian: bool)
    requires Stored(0xFEFF, bigEndian) <= final && part <= final && |part| < 2
    ensures part <= Decode(final) <==> part == ""
  {
    var body := final[2..];
    assert final == Stored(0xFEFF, bigEndian) + body;
    MarkDetected(body, bigEndian);
    Utf8AllStart(Units(body, bigEndian));
    if part != "" {
      assert part[0] == final[0] == Stored(0xFEFF, bigEndian)[0];
    }
  }

  /** The same for UTF-8, where a text may itself begin with the bytes that were caught. */
  lemma Utf8FilesStreamExactly(polls: seq<Option<Bytes>>, final: Bytes)
    requires UTF8_MARK <= final && Growing(polls, final) && Some(final) in polls
    ensures Lines(FedBy(polls)) == Lines(final[3..]) <==>
              !SawPartOf(polls, UTF8_MARK) || PartSeen(polls, UTF8_MARK) <= final[3..]
  {
    MarkedFilesStreamExactly(polls, final, UTF8_MARK);
    assert final[..3] == UTF8_MARK;
    assert Detect(final) == Raw(3);
  }

  /** It happens, with each of the marks: the first poll catches one byte, the second the mark and the letter A. */
  lemma PartOfMarkLogged(mark: Bytes, letter: Bytes)
    requires (mark, letter) in {(Stored(0xFEFF, false), "A\0"), (Stored(0xFEFF, true), "\0A"), (UTF8_MARK, "A")}
    ensures Decode(mark + letter) == "A"
    ensures Lines(FedBy([Some(mark[..1]), Some(mark + letter)])) != Lines("A")
  {
    LetterDecodes(mark, letter);
    CaughtShows(mark, mark + letter);
  }

  lemma CaughtShows(mark: Bytes, final: Bytes)
    requires IsMark(mark) && mark <= final && Decode(final) == "A"
    ensures Lines(FedBy([Some(mark[..1]), Some(final)])) != Lines("A")
  {
    var polls := [Some(mark[..1]), Some(final)];
    FirstByteCaught(mark, final);
    NotTheLetter(mark);
    MarkedFilesStreamExactly(polls, final, mark);
  }

  lemma NotTheLetter(mark: Bytes)
    requires IsMark(mark)
    ensures !(mark[..1] <= "A")
  {
    assert mark[..1][0] == mark[0] != 'A';
  }

  lemma FirstByteCaught(mark: Bytes, final: Bytes)
    requires IsMark(mark) && mark <= final
    ensures var polls := [Some(mark[..1]), Some(final)];
            Growing(polls, final) && Some(final) in polls && PartSeen(polls, mark) == mark[..1]
  {
    var polls := [Some(mark[..1]), Some(final)];
    assert final[..1] == mark[..1] && polls[1] == Some(final);
    assert polls[..1] == [Some(mark[..1])];
  }

  lemma LetterDecodes(mark: Bytes, letter: Bytes)
    requires (mark, letter) in {(Stored(0xFEFF, false), "A\0"), (Stored(0xFEFF, true), "\0A"), (UTF8_MARK, "A")}
    ensures Decode(mark + letter) == "A"
  {
    if mark == UTF8_MARK {
      assert (mark + letter)[..3] == UTF8_MARK && (mark + letter)[3..] == "A";
    } else {
      var bigEndian := mark == Stored(0xFEFF, true);
      MarkDetected(letter, bigEndian);
      assert Units(letter, bigEndian) == [0x41];
      assert [0x41][..0] == [];
      assert Utf8All([0x41]) == "A";
    }
  }
}
