/** The byte-at-a-time scanners of core/telemetry.c and tools/spectrum_monitor.py, as functions of the
    segment read so far, and what they make of a segment when its delimiter arrives. */
module Scanning {
  import opened Bytes
  import opened Format
  import opened Protocol
  import opened Framing

  /** The two decoders differ in one rule: the host does not bound escaped bytes. */
  datatype Decoder = Firmware | Host

  datatype Fault = CrcFault | FormatFault | OverflowFault | EscapeFault

  datatype Scan = Collecting(body: seq<byte>) | Escaping(body: seq<byte>) | Dropping(fault: Fault)

  function Append(d: Decoder, body: seq<byte>, b: byte, wasEscaped: bool): Scan {
    if |body| >= RAW_LENGTH && (d == Firmware || !wasEscaped) then Dropping(OverflowFault)
    else Collecting(body + [b])
  }

  function ScanByte(d: Decoder, scan: Scan, b: byte): Scan {
    match scan
    case Dropping(_) => scan
    case Escaping(body) =>
      if b != Flip20(SOF) && b != Flip20(ESC) then Dropping(EscapeFault)
      else Append(d, body, Flip20(b), true)
    case Collecting(body) =>
      if b == ESC then Escaping(body) else Append(d, body, b, false)
  }

  function ScanAll(d: Decoder, segment: seq<byte>): Scan {
    if segment == [] then Collecting([])
    else ScanByte(d, ScanAll(d, segment[..|segment| - 1]), segment[|segment| - 1])
  }

  datatype Verdict = Silent | Good(chunk: SpectrumChunk) | Bad(fault: Fault)

  /** What the delimiter that closes a segment brings about. */
  function Close(d: Decoder, segment: seq<byte>): Verdict {
    match ScanAll(d, segment)
    case Escaping(_) => Bad(EscapeFault)
    case Dropping(fault) => Bad(fault)
    case Collecting(body) =>
      if body == [] then Silent
      else
        match DecodeBody(body)
        case BodyOk(chunk) => Good(chunk)
        case BadCrc => Bad(CrcFault)
        case BadFormat => Bad(FormatFault)
  }

  function ScanFrom(d: Decoder, scan: Scan, s: seq<byte>): Scan
    decreases |s|
  {
    if s == [] then scan else ScanFrom(d, ScanByte(d, scan, s[0]), s[1..])
  }

  lemma {:induction false} ScanFromAppends(d: Decoder, scan: Scan, s: seq<byte>, b: byte)
    ensures ScanFrom(d, scan, s + [b]) == ScanByte(d, ScanFrom(d, scan, s), b)
    decreases |s|
  {
    if s == [] {
      assert ([] + [b])[1..] == [];
    } else {
      ScanFromAppends(d, ScanByte(d, scan, s[0]), s[1..], b);
      assert (s + [b])[1..] == s[1..] + [b];
    }
  }

  lemma {:induction false} ScanAllIsScanFrom(d: Decoder, s: seq<byte>)
    ensures ScanAll(d, s) == ScanFrom(d, Collecting([]), s)
  {
    if s != [] {
      var rest, b := s[..|s| - 1], s[|s| - 1];
      ScanAllIsScanFrom(d, rest);
      ScanFromAppends(d, Collecting([]), rest, b);
      assert rest + [b] == s;
    }
  }

  lemma {:induction false} DroppingStays(d: Decoder, fault: Fault, s: seq<byte>)
    ensures ScanFrom(d, Dropping(fault), s) == Dropping(fault)
  {
    if s != [] {
      DroppingStays(d, fault, s[1..]);
    }
  }

  lemma {:induction false} ScanMeetsUnescape(d: Decoder, acc: seq<byte>, s: seq<byte>)
    requires SOF !in s
    ensures match Unescape(s)
            case None => !ScanFrom(d, Collecting(acc), s).Collecting?
            case Some(rest) =>
              && (|acc + rest| <= RAW_LENGTH ==> ScanFrom(d, Collecting(acc), s) == Collecting(acc + rest))
              && (ScanFrom(d, Collecting(acc), s).Collecting? ==>
                    ScanFrom(d, Collecting(acc), s) == Collecting(acc + rest))
    decreases |s|
  {
    hide RAW_LENGTH;
    if s == [] {
      assert acc + [] == acc;
    } else if s[0] != ESC {
      var next := ScanByte(d, Collecting(acc), s[0]);
      if next.Dropping? {
        DroppingStays(d, next.fault, s[1..]);
      } else {
        ScanMeetsUnescape(d, acc + [s[0]], s[1..]);
        Reassociate(acc, s[0], s[1..]);
      }
    } else if |s| >= 2 {
      var next := ScanByte(d, Escaping(acc), s[1]);
      assert ScanFrom(d, Collecting(acc), s) == ScanFrom(d, next, s[2..]) by {
        assert s[1..][1..] == s[2..] && s[1..][0] == s[1];
      }
      if next.Dropping? {
        DroppingStays(d, next.fault, s[2..]);
      } else {
        ScanMeetsUnescape(d, acc + [Flip20(s[1])], s[2..]);
        Reassociate(acc, Flip20(s[1]), s[2..]);
      }
    }
  }

  lemma Reassociate(acc: seq<byte>, b: byte, s: seq<byte>)
    ensures forall rest: seq<byte> :: acc + [b] + rest == acc + ([b] + rest)
  {
  }

  /** The firmware never holds more than 236 bytes, and only overflow or a bad escape drops. */
  lemma {:induction false} ScanBounds(d: Decoder, segment: seq<byte>)
    ensures var scan := ScanAll(d, segment);
            if scan.Dropping? then scan.fault == OverflowFault || scan.fault == EscapeFault
            else d == Firmware ==> |scan.body| <= RAW_LENGTH
  {
    if segment != [] {
      ScanBounds(d, segment[..|segment| - 1]);
    }
  }

  /** What a scanner holds is the batch inverse of what it read. */
  lemma HeldBody(d: Decoder, segment: seq<byte>)
    requires SOF !in segment
    ensures match Unescape(segment)
            case None => !ScanAll(d, segment).Collecting?
            case Some(body) =>
              && (|body| <= RAW_LENGTH ==> ScanAll(d, segment) == Collecting(body))
              && (ScanAll(d, segment).Collecting? ==> ScanAll(d, segment) == Collecting(body))
  {
    ScanAllIsScanFrom(d, segment);
    ScanMeetsUnescape(d, [], segment);
    assert forall body: seq<byte> :: [] + body == body;
  }

  lemma OnlyEmptyIsSilent(segment: seq<byte>)
    requires Unescape(segment) == Some([])
    ensures segment == []
  {
  }

  /** Either decoder delivers from a segment exactly what the batch rule delivers, and stays silent
      exactly on an empty segment. */
  lemma CloseRefinesBatch(d: Decoder, segment: seq<byte>)
    requires SOF !in segment
    ensures BatchDelivers(segment) == if Close(d, segment).Good? then Some(Close(d, segment).chunk) else None
    ensures Close(d, segment) == Silent <==> segment == []
  {
    hide Crc.Crc16, HeaderOk, ChunkAt, Unescape;
    HeldBody(d, segment);
    if Unescape(segment) == Some([]) {
      OnlyEmptyIsSilent(segment);
    }
    if segment == [] {
      assert ScanAll(d, segment) == Collecting([]);
    }
  }

  /** Some of the first bytes of s unescape to more than 236 bytes, n others counted in. */
  ghost predicate LongFrom(n: nat, s: seq<byte>) {
    exists j: nat :: LongAt(n, s, j)
  }

  predicate LongAt(n: nat, s: seq<byte>, j: nat) {
    j <= |s| && Unescape(s[..j]).Some? && n + |Unescape(s[..j]).value| > 236
  }

  lemma NothingIsLong(n: nat, s: seq<byte>)
    requires n <= 236
    ensures !LongAt(n, s, 0)
    ensures s != [] && s[0] == ESC ==> !LongAt(n, s, 1)
  {
    assert s[..0] == [];
    if s != [] && s[0] == ESC {
      assert s[..1] == [ESC];
    }
  }

  lemma LongPlain(n: nat, s: seq<byte>)
    requires n <= 236 && s != [] && s[0] != ESC
    ensures LongFrom(n, s) <==> n + 1 > 236 || LongFrom(n + 1, s[1..])
  {
    forall j: nat | 1 <= j <= |s|
      ensures LongAt(n, s, j) <==> LongAt(n + 1, s[1..], j - 1)
    {
      assert s[..j][1..] == s[1..][..j - 1];
    }
    if n + 1 > 236 {
      assert LongAt(n + 1, s[1..], 0) by {
        assert s[1..][..0] == [];
      }
    }
    if LongFrom(n + 1, s[1..]) {
      var j: nat :| LongAt(n + 1, s[1..], j);
      assert LongAt(n, s, j + 1);
    }
    if LongFrom(n, s) {
      var j: nat :| LongAt(n, s, j);
      NothingIsLong(n, s);
      assert LongAt(n + 1, s[1..], j - 1);
    }
  }

  lemma LongPair(n: nat, s: seq<byte>)
    requires n <= 236 && |s| >= 2 && s[0] == ESC && (s[1] == Flip20(SOF) || s[1] == Flip20(ESC))
    ensures LongFrom(n, s) <==> n + 1 > 236 || LongFrom(n + 1, s[2..])
  {
    forall j: nat | 2 <= j <= |s|
      ensures LongAt(n, s, j) <==> LongAt(n + 1, s[2..], j - 2)
    {
      assert s[..j][2..] == s[2..][..j - 2];
    }
    if n + 1 > 236 {
      assert LongAt(n + 1, s[2..], 0) by {
        assert s[2..][..0] == [];
      }
    }
    if LongFrom(n + 1, s[2..]) {
      var j: nat :| LongAt(n + 1, s[2..], j);
      assert LongAt(n, s, j + 2);
    }
    if LongFrom(n, s) {
      var j: nat :| LongAt(n, s, j);
      NothingIsLong(n, s);
      assert LongAt(n + 1, s[2..], j - 2);
    }
  }

  lemma NotLong(n: nat, s: seq<byte>)
    requires n <= 236
    requires s == [] || (s[0] == ESC && (|s| == 1 || (s[1] != Flip20(SOF) && s[1] != Flip20(ESC))))
    ensures !LongFrom(n, s)
  {
    NothingIsLong(n, s);
  }

  /** The firmware's scan overflows exactly if some beginning is too long; otherwise it holds the batch
      inverse, or has met a malformed escape. */
  lemma {:induction false} FirmwareScan(acc: seq<byte>, s: seq<byte>)
    requires |acc| <= RAW_LENGTH
    ensures var f := ScanFrom(Firmware, Collecting(acc), s);
            && (f == Dropping(OverflowFault) <==> LongFrom(|acc|, s))
            && (!LongFrom(|acc|, s) ==>
                  match Unescape(s)
                  case None => f.Escaping? || f == Dropping(EscapeFault)
                  case Some(rest) => f == Collecting(acc + rest))
    decreases |s|
  {
    hide LongFrom;
    if s == [] {
      NotLong(|acc|, s);
      assert acc + [] == acc;
    } else if s[0] != ESC {
      LongPlain(|acc|, s);
      if |acc| == RAW_LENGTH {
        DroppingStays(Firmware, OverflowFault, s[1..]);
      } else {
        FirmwareScan(acc + [s[0]], s[1..]);
        Reassociate(acc, s[0], s[1..]);
      }
    } else if |s| == 1 {
      NotLong(|acc|, s);
      assert s[1..] == [];
    } else {
      var next := ScanByte(Firmware, Escaping(acc), s[1]);
      assert ScanFrom(Firmware, Collecting(acc), s) == ScanFrom(Firmware, next, s[2..]) by {
        assert s[1..][1..] == s[2..] && s[1..][0] == s[1];
      }
      if next == Dropping(EscapeFault) {
        NotLong(|acc|, s);
        DroppingStays(Firmware, EscapeFault, s[2..]);
      } else {
        LongPair(|acc|, s);
        if next.Dropping? {
          DroppingStays(Firmware, OverflowFault, s[2..]);
        } else {
          FirmwareScan(acc + [Flip20(s[1])], s[2..]);
          Reassociate(acc, Flip20(s[1]), s[2..]);
        }
      }
    }
  }

  /** What a batch parser says of a segment, fault and all. */
  ghost function BatchVerdict(segment: seq<byte>): Verdict {
    if LongFrom(0, segment) then Bad(OverflowFault)
    else
      match Unescape(segment)
      case None => Bad(EscapeFault)
      case Some(body) =>
        if body == [] then Silent
        else
          match DecodeBody(body)
          case BodyOk(chunk) => Good(chunk)
          case BadCrc => Bad(CrcFault)
          case BadFormat => Bad(FormatFault)
  }

  /** The firmware's verdict on any segment is the batch parser's, in the fault it reports too. */
  lemma FirmwareVerdict(segment: seq<byte>)
    ensures Close(Firmware, segment) == BatchVerdict(segment)
  {
    hide ScanAll, ScanFrom, Unescape, LongFrom, DecodeBody;
    ScanAllIsScanFrom(Firmware, segment);
    FirmwareScan([], segment);
    assert forall rest: seq<byte> :: [] + rest == rest;
  }

  /** How the open states correspond: equal, or the firmware is dropping while the host is dropping too
      or holds more than 236 bytes. */
  lemma {:induction false} OpenStatesCorrespond(segment: seq<byte>)
    ensures var f, h := ScanAll(Firmware, segment), ScanAll(Host, segment);
            || f == h
            || (f.Dropping? && (h.Dropping? || |h.body| > RAW_LENGTH))
  {
    if segment != [] {
      OpenStatesCorrespond(segment[..|segment| - 1]);
      ScanBounds(Firmware, segment[..|segment| - 1]);
    }
  }

  /** Segment by segment the two decoders agree on silence, on the chunk, and on checksum faults; the
      other faults may be named differently. */
  lemma DecodersAgree(segment: seq<byte>)
    ensures var f, h := Close(Firmware, segment), Close(Host, segment);
            || f == h
            || (f.Bad? && h.Bad? && f.fault != CrcFault && h.fault != CrcFault)
  {
    hide Crc.Crc16, HeaderOk, ChunkAt, ScanAll;
    OpenStatesCorrespond(segment);
    ScanBounds(Firmware, segment);
    ScanBounds(Host, segment);
  }

  /** Nothing but escape pairs, the last one perhaps not complete. */
  predicate OnlyPairs(s: seq<byte>) {
    || s == [] || s == [ESC]
    || (|s| >= 2 && s[0] == ESC && (s[1] == Flip20(SOF) || s[1] == Flip20(ESC)) && OnlyPairs(s[2..]))
  }

  /** The first k bytes unescape to a full body of 236, and what follows them is at least one complete
      escape pair and nothing but pairs. */
  predicate OverlongAt(s: seq<byte>, k: nat) {
    && k + 2 <= |s| && OnlyPairs(s[k..])
    && Unescape(s[..k]).Some? && |Unescape(s[..k]).value| == RAW_LENGTH
  }

  ghost predicate Overlong(s: seq<byte>) {
    exists k: nat :: OverlongAt(s, k)
  }

  /** The host holds more than the firmware's buffer could. */
  predicate HoldsTooMuch(scan: Scan) {
    !scan.Dropping? && |scan.body| > RAW_LENGTH
  }

  /** Once the host's buffer is full, it takes escape pairs without end and drops for anything else. */
  lemma {:induction false} FullBufferTakesPairs(body: seq<byte>, s: seq<byte>)
    requires |body| >= RAW_LENGTH
    ensures var scan := ScanFrom(Host, Collecting(body), s);
            if OnlyPairs(s) then
              && !scan.Dropping? && |scan.body| == |body| + |s| / 2
              && (scan.Escaping? <==> |s| % 2 == 1)
            else scan.Dropping?
    decreases |s|
  {
    hide RAW_LENGTH;
    if s != [] {
      var first := ScanByte(Host, Collecting(body), s[0]);
      if first.Dropping? {
        DroppingStays(Host, first.fault, s[1..]);
      } else if |s| == 1 {
        assert s == [ESC] && s[1..] == [];
      } else {
        var next := ScanByte(Host, first, s[1]);
        assert s[1..][1..] == s[2..] && s[1..][0] == s[1];
        if next.Dropping? {
          DroppingStays(Host, next.fault, s[2..]);
        } else {
          FullBufferTakesPairs(next.body, s[2..]);
        }
      }
    }
  }

  lemma {:induction false} ScanFromJoins(d: Decoder, scan: Scan, a: seq<byte>, b: seq<byte>)
    ensures ScanFrom(d, scan, a + b) == ScanFrom(d, ScanFrom(d, scan, a), b)
    decreases |a|
  {
    if a == [] {
      assert a + b == b;
    } else {
      ScanFromJoins(d, ScanByte(d, scan, a[0]), a[1..], b);
      assert (a + b)[1..] == a[1..] + b;
    }
  }

  lemma ScanAllSplits(d: Decoder, s: seq<byte>, k: nat)
    requires k <= |s|
    ensures ScanAll(d, s) == ScanFrom(d, ScanAll(d, s[..k]), s[k..])
  {
    hide ScanAll, ScanFrom;
    assert s == s[..k] + s[k..];
    ScanAllIsScanFrom(d, s);
    ScanAllIsScanFrom(d, s[..k]);
    ScanFromJoins(d, Collecting([]), s[..k], s[k..]);
  }

  /** Where the host's buffer became full, if it holds more than that now. */
  lemma {:induction false} WhereFull(s: seq<byte>) returns (k: nat)
    requires HoldsTooMuch(ScanAll(Host, s))
    ensures k + 2 <= |s|
    ensures ScanAll(Host, s[..k]).Collecting? && |ScanAll(Host, s[..k]).body| == RAW_LENGTH
  {
    var rest := s[..|s| - 1];
    if HoldsTooMuch(ScanAll(Host, rest)) {
      k := WhereFull(rest);
      assert rest[..k] == s[..k];
    } else {
      k := |s| - 2;
      assert rest[..|rest| - 1] == s[..k];
    }
  }

  /** The host holds more than 236 bytes if and only if a full body is followed by escape pairs alone, and
      then one byte more for each pair. */
  lemma HostOverlong(s: seq<byte>)
    requires SOF !in s
    ensures HoldsTooMuch(ScanAll(Host, s)) <==> Overlong(s)
    ensures forall k: nat :: OverlongAt(s, k) ==>
                               var scan := ScanAll(Host, s);
                               && !scan.Dropping? && |scan.body| == RAW_LENGTH + (|s| - k) / 2
                               && (scan.Escaping? <==> (|s| - k) % 2 == 1)
  {
    hide ScanAll, ScanFrom, Unescape, OnlyPairs;
    if HoldsTooMuch(ScanAll(Host, s)) {
      var k := WhereFull(s);
      HeldBody(Host, s[..k]);
      ScanAllSplits(Host, s, k);
      FullBufferTakesPairs(ScanAll(Host, s[..k]).body, s[k..]);
      assert OverlongAt(s, k);
    }
    forall k: nat | OverlongAt(s, k)
      ensures var scan := ScanAll(Host, s);
              && !scan.Dropping? && |scan.body| == RAW_LENGTH + (|s| - k) / 2
              && (scan.Escaping? <==> (|s| - k) % 2 == 1)
    {
      OverlongHeld(s, k);
    }
  }

  lemma OverlongHeld(s: seq<byte>, k: nat)
    requires SOF !in s && OverlongAt(s, k)
    ensures var scan := ScanAll(Host, s);
            && !scan.Dropping? && |scan.body| == RAW_LENGTH + (|s| - k) / 2
            && (scan.Escaping? <==> (|s| - k) % 2 == 1)
  {
    hide ScanAll, ScanFrom, Unescape, OnlyPairs;
    HeldBody(Host, s[..k]);
    ScanAllSplits(Host, s, k);
    FullBufferTakesPairs(ScanAll(Host, s[..k]).body, s[k..]);
  }

  function Pairs(n: nat): (s: seq<byte>)
    ensures |s| == 2 * n && SOF !in s && OnlyPairs(s)
  {
    if n == 0 then []
    else
      var s := [ESC, Flip20(SOF)] + Pairs(n - 1);
      assert s[2..] == Pairs(n - 1);
      s
  }

  /** So the host's buffer has no bound: any full body followed by n pairs is held as 236 + n bytes. */
  lemma HostIsUnbounded(full: seq<byte>, n: nat)
    requires SOF !in full && Unescape(full).Some? && |Unescape(full).value| == RAW_LENGTH
    ensures ScanAll(Host, full + Pairs(n)).Collecting?
    ensures |ScanAll(Host, full + Pairs(n)).body| == RAW_LENGTH + n
  {
    hide ScanAll, Unescape, OnlyPairs, Pairs;
    var s := full + Pairs(n);
    assert s[..|full|] == full && s[|full|..] == Pairs(n);
    HeldBody(Host, full);
    ScanAllSplits(Host, s, |full|);
    FullBufferTakesPairs(ScanAll(Host, full).body, Pairs(n));
  }

  function Plain(n: nat): (s: seq<byte>)
    ensures |s| == n && SOF !in s && ESC !in s
  {
    seq(n, i => 0)
  }

  lemma {:induction false} PlainUnescapes(s: seq<byte>)
    requires ESC !in s
    ensures Unescape(s) == Some(s)
  {
    if s != [] {
      PlainUnescapes(s[1..]);
      assert [s[0]] + s[1..] == s;
    }
  }

  /** A stream of 236 plain bytes and n pairs, of whatever n, is a witness. */
  lemma HostHoldsAnyLength(n: nat)
    ensures var scan := ScanAll(Host, Plain(RAW_LENGTH) + Pairs(n));
            scan.Collecting? && |scan.body| == RAW_LENGTH + n
  {
    hide ScanAll, Unescape, OnlyPairs, Pairs, Plain;
    PlainUnescapes(Plain(RAW_LENGTH));
    HostIsUnbounded(Plain(RAW_LENGTH), n);
  }

  /** Over-long, and in the middle of an escape pair. */
  ghost predicate OverlongEscaping(s: seq<byte>) {
    exists k: nat :: OverlongAt(s, k) && (|s| - k) % 2 == 1
  }

  /** The host breaks off an over-long body at byte j for an invalid escape. */
  ghost predicate BreaksAt(s: seq<byte>, j: nat) {
    j < |s| && OverlongEscaping(s[..j]) && s[j] != Flip20(SOF) && s[j] != Flip20(ESC)
  }

  /** Over-long to its end, or until an invalid escape. */
  ghost predicate NamedDifferently(s: seq<byte>) {
    Overlong(s) || exists j: nat :: BreaksAt(s, j)
  }

  /** The two scans differ only in this way. */
  ghost predicate Parted(f: Scan, h: Scan) {
    f == Dropping(OverflowFault) && (HoldsTooMuch(h) || h == Dropping(EscapeFault))
  }

  lemma {:induction false} ScansPart(s: seq<byte>)
    ensures var f, h := ScanAll(Firmware, s), ScanAll(Host, s);
            (f == h && !HoldsTooMuch(h)) || Parted(f, h)
  {
    if s != [] {
      ScansPart(s[..|s| - 1]);
    }
  }

  ghost predicate PartedByEscape(s: seq<byte>) {
    ScanAll(Firmware, s) == Dropping(OverflowFault) && ScanAll(Host, s) == Dropping(EscapeFault)
  }

  lemma EarlierBreak(rest: seq<byte>, b: byte)
    ensures forall j: nat :: j < |rest| ==> (BreaksAt(rest + [b], j) <==> BreaksAt(rest, j))
  {
    forall j: nat | j < |rest|
      ensures BreaksAt(rest + [b], j) <==> BreaksAt(rest, j)
    {
      assert (rest + [b])[..j] == rest[..j];
    }
  }

  lemma BreakNow(rest: seq<byte>, b: byte)
    requires SOF !in rest
    ensures BreaksAt(rest + [b], |rest|)
       <==> var h := ScanAll(Host, rest);
            HoldsTooMuch(h) && h.Escaping? && b != Flip20(SOF) && b != Flip20(ESC)
  {
    hide ScanAll, OverlongAt;
    assert (rest + [b])[..|rest|] == rest;
    HostOverlong(rest);
    if HoldsTooMuch(ScanAll(Host, rest)) {
      var k: nat :| OverlongAt(rest, k);
      assert ScanAll(Host, rest).Escaping? <==> OverlongEscaping(rest);
    }
  }

  lemma ScanStep(d: Decoder, rest: seq<byte>, b: byte)
    ensures ScanAll(d, rest + [b]) == ScanByte(d, ScanAll(d, rest), b)
  {
    assert (rest + [b])[..|rest + [b]| - 1] == rest;
  }

  lemma PartingStep(rest: seq<byte>, b: byte)
    requires SOF !in rest && b != SOF
    ensures PartedByEscape(rest + [b]) <==> PartedByEscape(rest) || BreaksAt(rest + [b], |rest|)
  {
    hide ScanAll, BreaksAt;
    ScanStep(Firmware, rest, b);
    ScanStep(Host, rest, b);
    ScansPart(rest);
    BreakNow(rest, b);
  }

  /** When the host's scan ends with an escape fault where the firmware's has overflowed. */
  lemma {:induction false} WhenPartedByEscape(s: seq<byte>)
    requires SOF !in s
    ensures PartedByEscape(s) <==> exists j: nat :: BreaksAt(s, j)
  {
    if s != [] {
      hide PartedByEscape, OverlongEscaping;
      var rest, b := s[..|s| - 1], s[|s| - 1];
      assert s == rest + [b];
      WhenPartedByEscape(rest);
      EarlierBreak(rest, b);
      PartingStep(rest, b);
    }
  }

  /** Exactly when the two decoders name a fault differently: the segment is over-long to its end, or was
      so until an invalid escape. The firmware then reports an overflow, and the host a format or an
      escape fault. */
  lemma FaultNamesDiffer(s: seq<byte>)
    requires SOF !in s
    ensures Close(Firmware, s) != Close(Host, s) <==> NamedDifferently(s)
    ensures NamedDifferently(s) ==>
              && Close(Firmware, s) == Bad(OverflowFault)
              && Close(Host, s) == if ScanAll(Host, s).Collecting? then Bad(FormatFault) else Bad(EscapeFault)
  {
    ScansPart(s);
    HostOverlong(s);
    WhenPartedByEscape(s);
    hide ScanAll, Overlong, BreaksAt, DecodeBody;
    LongBodyIsBad(ScanAll(Host, s));
  }

  lemma LongBodyIsBad(scan: Scan)
    ensures HoldsTooMuch(scan) ==> DecodeBody(scan.body) == BadFormat
  {
  }
}
