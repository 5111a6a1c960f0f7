/** Byte stuffing and delimiting as a function of the whole byte stream: the reference that both
    decoders are measured against. */
module Framing {
  import opened Bytes
  import opened Format
  import opened Protocol
  import Crc

  /** byte ^ 0x20 */
  function Flip20(b: byte): byte {
    if b / 32 % 2 == 1 then b - 32 else b + 32
  }

  lemma {:induction false} XorZero(n: nat)
    ensures Crc.Xor(n, 0) == n
  {
    if n > 0 {
      XorZero(n / 2);
    }
  }

  lemma XorOne(n: nat)
    ensures Crc.Xor(n, 1) == if n % 2 == 1 then n - 1 else n + 1
  {
    XorZero(n / 2);
  }

  lemma XorTwo(n: nat)
    ensures Crc.Xor(n, 2) == if n / 2 % 2 == 1 then n - 2 else n + 2
  {
    assert Crc.Xor(n, 2) == n % 2 + 2 * Crc.Xor(n / 2, 1);
    hide Crc.Xor;
    XorOne(n / 2);
  }

  lemma XorFour(n: nat)
    ensures Crc.Xor(n, 4) == if n / 4 % 2 == 1 then n - 4 else n + 4
  {
    assert Crc.Xor(n, 4) == n % 2 + 2 * Crc.Xor(n / 2, 2);
    hide Crc.Xor;
    XorTwo(n / 2);
  }

  lemma XorEight(n: nat)
    ensures Crc.Xor(n, 8) == if n / 8 % 2 == 1 then n - 8 else n + 8
  {
    assert Crc.Xor(n, 8) == n % 2 + 2 * Crc.Xor(n / 2, 4);
    hide Crc.Xor;
    XorFour(n / 2);
  }

  lemma XorSixteen(n: nat)
    ensures Crc.Xor(n, 16) == if n / 16 % 2 == 1 then n - 16 else n + 16
  {
    assert Crc.Xor(n, 16) == n % 2 + 2 * Crc.Xor(n / 2, 8);
    hide Crc.Xor;
    XorEight(n / 2);
  }

  /** It is the exclusive or with 0x20, for every byte. */
  lemma Flip20IsXor(b: byte)
    ensures Flip20(b) == Crc.Xor(b, 0x20)
  {
    assert Crc.Xor(b, 0x20) == b % 2 + 2 * Crc.Xor(b / 2, 16);
    hide Crc.Xor;
    XorSixteen(b / 2);
  }

  function EscapeByte(b: byte): seq<byte> {
    if b == SOF || b == ESC then [ESC, Flip20(b)] else [b]
  }

  /** What a body byte becomes on the wire. */
  lemma StuffedBytes(b: byte)
    ensures EscapeByte(b) == if b == 0x7E then [0x7D, 0x5E] else if b == 0x7D then [0x7D, 0x5D] else [b]
    ensures EscapeByte(b) == if b == 0x7E || b == 0x7D then [0x7D, Crc.Xor(b, 0x20)] else [b]
  {
    Flip20IsXor(b);
  }

  function Escape(raw: seq<byte>): seq<byte> {
    if raw == [] then [] else Escape(raw[..|raw| - 1]) + EscapeByte(raw[|raw| - 1])
  }

  function Frame(raw: seq<byte>): seq<byte> {
    [SOF] + Escape(raw) + [SOF]
  }

  /** The batch inverse of Escape, read from the front; None for a malformed escape. */
  function Unescape(s: seq<byte>): Option<seq<byte>> {
    if s == [] then Some([])
    else if s[0] == ESC then
      if |s| >= 2 && (s[1] == Flip20(SOF) || s[1] == Flip20(ESC)) then
        match Unescape(s[2..]) case None => None case Some(rest) => Some([Flip20(s[1])] + rest)
      else None
    else
      match Unescape(s[1..]) case None => None case Some(rest) => Some([s[0]] + rest)
  }

  /** A stream cut at its delimiters: the segments a delimiter has closed, and the open remainder. */
  datatype Parsed = Parsed(closed: seq<seq<byte>>, open: seq<byte>)

  function Cut(s: seq<byte>): Parsed {
    if s == [] then Parsed([], [])
    else
      var before, last := Cut(s[..|s| - 1]), s[|s| - 1];
      if last == SOF then Parsed(before.closed + [before.open], [])
      else Parsed(before.closed, before.open + [last])
  }

  /** What a segment delivers by the batch rule: unescape, length, checksum, header. */
  function BatchDelivers(segment: seq<byte>): Option<SpectrumChunk> {
    match Unescape(segment)
    case None => None
    case Some(body) =>
      match DecodeBody(body)
      case BodyOk(chunk) => Some(chunk)
      case _ => None
  }

  function Delivered(segments: seq<seq<byte>>): seq<SpectrumChunk> {
    if segments == [] then []
    else
      Delivered(segments[..|segments| - 1])
      + match BatchDelivers(segments[|segments| - 1]) case None => [] case Some(chunk) => [chunk]
  }

  /** The chunks a whole stream delivers. */
  function StreamDelivers(s: seq<byte>): seq<SpectrumChunk> {
    Delivered(Cut(s).closed)
  }

  lemma CutAppend(s: seq<byte>, b: byte)
    ensures Cut(s + [b]) == if b == SOF then Parsed(Cut(s).closed + [Cut(s).open], [])
                            else Parsed(Cut(s).closed, Cut(s).open + [b])
  {
    assert (s + [b])[..|s + [b]| - 1] == s;
  }

  lemma {:induction false} CutJoinsPlain(s: seq<byte>, t: seq<byte>)
    requires SOF !in t
    ensures Cut(s + t) == Parsed(Cut(s).closed, Cut(s).open + t)
  {
    hide Cut;
    if t == [] {
      assert s + t == s;
      assert Cut(s).open + t == Cut(s).open;
    } else {
      var rest, b := t[..|t| - 1], t[|t| - 1];
      CutJoinsPlain(s, rest);
      assert s + t == (s + rest) + [b];
      CutAppend(s + rest, b);
      assert Cut(s).open + rest + [b] == Cut(s).open + t;
    }
  }

  lemma {:induction false} EscapeHasNoDelimiter(raw: seq<byte>)
    ensures SOF !in Escape(raw)
  {
    if raw != [] {
      EscapeHasNoDelimiter(raw[..|raw| - 1]);
    }
  }

  lemma EscapeAppend(a: seq<byte>, b: byte)
    ensures Escape(a + [b]) == Escape(a) + EscapeByte(b)
  {
    assert (a + [b])[..|a + [b]| - 1] == a;
  }

  lemma {:induction false} EscapeJoins(a: seq<byte>, b: seq<byte>)
    ensures Escape(a + b) == Escape(a) + Escape(b)
  {
    if b == [] {
      assert a + b == a;
    } else {
      hide Escape, EscapeByte;
      var rest, last := b[..|b| - 1], b[|b| - 1];
      assert a + b == a + rest + [last] && b == rest + [last];
      EscapeJoins(a, rest);
      EscapeAppend(a + rest, last);
      EscapeAppend(rest, last);
      assert Escape(a) + Escape(rest) + EscapeByte(last) == Escape(a) + (Escape(rest) + EscapeByte(last));
    }
  }

  lemma EscapeFirst(raw: seq<byte>)
    requires raw != []
    ensures var e := EscapeByte(raw[0]);
            Escape(raw) == e + Escape(raw[1..]) && Escape(raw)[|e|..] == Escape(raw[1..]) && |e| <= 2
  {
    var e := EscapeByte(raw[0]);
    assert raw == [raw[0]] + raw[1..];
    EscapeJoins([raw[0]], raw[1..]);
    assert Escape([raw[0]]) == e by {
      assert [raw[0]][..0] == [];
    }
  }

  /** A stuffed byte in front is taken off by itself. */
  lemma UnescapeFirst(b: byte, s: seq<byte>)
    ensures Unescape(EscapeByte(b) + s)
         == match Unescape(s) case None => None case Some(rest) => Some([b] + rest)
  {
    var e := EscapeByte(b);
    assert (e + s)[|e|..] == s;
    assert Flip20(Flip20(b)) == b;
  }

  /** Stuffing is undone by the batch inverse. */
  lemma {:induction false} EscapeRoundTrip(raw: seq<byte>)
    ensures Unescape(Escape(raw)) == Some(raw)
    decreases |raw|
  {
    if raw != [] {
      hide Escape, EscapeByte, Unescape;
      EscapeRoundTrip(raw[1..]);
      EscapeFirst(raw);
      UnescapeFirst(raw[0], Escape(raw[1..]));
      assert raw == [raw[0]] + raw[1..];
    } else {
      NothingEscaped(raw);
    }
  }

  lemma NothingEscaped(raw: seq<byte>)
    requires raw == []
    ensures Escape(raw) == [] && Unescape(Escape(raw)) == Some(raw)
  {
  }

  /** A stuffed body is at most twice as long as the body, so a frame never exceeds 474 bytes. */
  lemma {:induction false} EscapeLength(raw: seq<byte>)
    ensures |raw| <= |Escape(raw)| <= 2 * |raw|
  {
    if raw != [] {
      EscapeLength(raw[..|raw| - 1]);
    }
  }

  /** What a cut inside or after the first stuffed byte leaves. */
  lemma CutStuffing(b: byte, rest: seq<byte>, n: nat)
    requires n <= |EscapeByte(b) + rest|
    ensures var e, part := EscapeByte(b), (EscapeByte(b) + rest)[..n];
            if n < |e| then Unescape(part) == None || Unescape(part) == Some([])
            else part == e + rest[..n - |e|]
  {
  }

  /** A proper part of a stuffed body never unescapes to a body of full length. */
  lemma {:induction false} ShortStuffingFails(raw: seq<byte>, n: nat)
    requires n < |Escape(raw)|
    ensures match Unescape(Escape(raw)[..n]) case None => true case Some(body) => |body| < |raw|
    decreases |raw|
  {
    if raw == [] {
      NothingEscaped(raw);
    } else {
      var e, rest := EscapeByte(raw[0]), Escape(raw[1..]);
      hide Escape, EscapeByte, Unescape;
      EscapeFirst(raw);
      CutStuffing(raw[0], rest, n);
      if n >= |e| {
        ShortStuffingFails(raw[1..], n - |e|);
        UnescapeFirst(raw[0], rest[..n - |e|]);
      }
    }
  }

  lemma DeliveredAppend(segments: seq<seq<byte>>, last: seq<byte>)
    ensures Delivered(segments + [last])
         == Delivered(segments) + match BatchDelivers(last) case None => [] case Some(chunk) => [chunk]
  {
    assert (segments + [last])[..|segments + [last]| - 1] == segments;
  }

  lemma FrameCut(noise: seq<byte>, raw: seq<byte>)
    ensures Cut(noise + Frame(raw)) == Parsed(Cut(noise + [SOF]).closed + [Escape(raw)], [])
  {
    hide Cut, Escape;
    var e := Escape(raw);
    EscapeHasNoDelimiter(raw);
    CutAppend(noise, SOF);
    CutJoinsPlain(noise + [SOF], e);
    CutAppend(noise + [SOF] + e, SOF);
    assert noise + Frame(raw) == noise + [SOF] + e + [SOF];
    assert [] + e == e;
  }

  /** Self-synchronisation: after any bytes at all, a frame first closes whatever was open and then
      delivers its own chunk. */
  lemma SelfSynchronises(noise: seq<byte>, raw: seq<byte>)
    ensures StreamDelivers(noise + Frame(raw))
         == StreamDelivers(noise + [SOF])
            + match DecodeBody(raw) case BodyOk(chunk) => [chunk] case _ => []
  {
    hide Cut, Escape, Delivered, Unescape, DecodeBody;
    FrameCut(noise, raw);
    EscapeRoundTrip(raw);
    DeliveredAppend(Cut(noise + [SOF]).closed, Escape(raw));
  }

  /** From a fresh start, an encoded frame delivers one chunk that carries every transmitted field. */
  lemma FrameRoundTrip(sequence: u16, r: SpectrumResult, channel: nat, chunk: nat)
    requires Sized(r) && channel < CHANNELS && chunk < CHUNKS
    ensures var d := StreamDelivers(Frame(RawBody(sequence, r, channel, chunk)));
            |d| == 1 && Carries(d[0], sequence, r, channel, chunk)
  {
    hide Frame, RawBody, Carries, DecodeBody, StreamDelivers;
    var none: seq<byte> := [];
    var raw := RawBody(sequence, r, channel, chunk);
    BodyRoundTrip(sequence, r, channel, chunk);
    SelfSynchronises(none, raw);
    LoneDelimiter(none);
    assert none + Frame(raw) == Frame(raw);
  }

  lemma LoneDelimiter(none: seq<byte>)
    requires none == []
    ensures StreamDelivers(none + [SOF]) == []
  {
    CutAppend(none, SOF);
    assert [] + [[]] == [none];
    DeliveredAppend([], none);
  }
}
