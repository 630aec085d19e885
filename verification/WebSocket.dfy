/**
  The stdlib-only WebSocket client of the packaging gate, against sections 5.2 and 5.3 of RFC 6455.
  Payloads are bytes: the UTF-8 decoding of a received text is not modelled.
 */
module WebSocketFrames {
  import opened Outcomes
  import opened Bytes

  const TEXT: byte := 1
  const CLOSE: byte := 8

  /** Exclusive or of two `bits`-wide numbers, bit by bit. */
  function XorBits(a: nat, b: nat, bits: nat): (r: nat) {
    if bits == 0 then 0 else (if a % 2 == b % 2 then 0 else 1) + 2 * XorBits(a / 2, b / 2, bits - 1)
  }

  function Power2(n: nat): nat {
    if n == 0 then 1 else 2 * Power2(n - 1)
  }

  lemma LowBit(bit: nat, rest: nat)
    requires bit < 2
    ensures (bit + 2 * rest) % 2 == bit && (bit + 2 * rest) / 2 == rest
  {
  }

  lemma {:induction false} XorIsBounded(a: nat, b: nat, bits: nat)
    requires a < Power2(bits)
    ensures XorBits(a, b, bits) < Power2(bits)
  {
    if bits > 0 {
      XorIsBounded(a / 2, b / 2, bits - 1);
    }
  }

  function Xor(a: byte, b: byte): byte {
    assert Power2(8) == 256;
    XorIsBounded(a, b, 8);
    XorBits(a, b, 8)
  }

  type MaskKey = k: seq<byte> | |k| == 4 witness [0, 0, 0, 0]

  /** Section 5.3: octet `i` is combined with octet `i % 4` of the key; the same map masks and unmasks. */
  function Masked(payload: seq<byte>, key: MaskKey): (r: seq<byte>)
    ensures |r| == |payload|
  {
    seq(|payload|, i requires 0 <= i < |payload| => Xor(payload[i], key[i % 4]))
  }

  predicate Even(a: nat, b: nat, c: nat) {
    (a + b + c) % 2 == 0
  }

  /** At this binary place an even number of the three have a one: each is the exclusive or of the other two there. */
  predicate Combines(a: nat, b: nat, c: nat, place: nat)
    requires place > 0
  {
    (a / place + b / place + c / place) % 2 == 0
  }

  lemma XorStep(a: nat, b: nat, bits: nat)
    requires bits > 0
    ensures Even(a, b, XorBits(a, b, bits))
    ensures XorBits(a, b, bits) / 2 == XorBits(a / 2, b / 2, bits - 1)
  {
    LowBit(if a % 2 == b % 2 then 0 else 1, XorBits(a / 2, b / 2, bits - 1));
  }

  lemma HalfPlace(n: nat, place: nat)
    requires place in {2, 4, 8, 16, 32, 64, 128}
    ensures place / 2 > 0 && n / place == n / 2 / (place / 2)
  {
    if place == 2 {
    } else if place == 4 {
    } else if place == 8 {
    } else if place == 16 {
    } else if place == 32 {
    } else if place == 64 {
    }
  }

  lemma {:induction false} EvenAt(a: nat, b: nat, bits: nat, place: nat)
    requires place in {1, 2, 4, 8, 16, 32, 64, 128} && place < Power2(bits)
    ensures Even(a / place, b / place, XorBits(a, b, bits) / place)
    decreases place
  {
    XorStep(a, b, bits);
    if place > 1 {
      HalfPlace(a, place);
      HalfPlace(b, place);
      HalfPlace(XorBits(a, b, bits), place);
      EvenAt(a / 2, b / 2, bits - 1, place / 2);
    }
  }

  // ----- Section 5.2, as an independent reader -----

  datatype RfcFrame = RfcFrame(fin: bool, reserved: nat, opcode: byte, key: Option<MaskKey>, payload: seq<byte>)

  /** The binary digits of a number, the highest first, and the number they make. */
  function Digits(n: nat, width: nat): (r: seq<bool>)
    ensures |r| == width
  {
    if width == 0 then [] else Digits(n / 2, width - 1) + [n % 2 == 1]
  }

  function Number(d: seq<bool>): (n: nat)
    ensures n < Power2(|d|)
  {
    if d == [] then 0 else 2 * Number(d[..|d| - 1]) + if d[|d| - 1] then 1 else 0
  }

  function ExclusiveOr(a: seq<bool>, b: seq<bool>): (r: seq<bool>)
    requires |a| == |b|
    ensures |r| == |a|
  {
    seq(|a|, i requires 0 <= i < |a| => a[i] != b[i])
  }

  /** Section 5.3, digit by digit: octet `i` of the payload is octet `i` of the data XOR octet `i % 4` of the key. */
  function RfcUnmasked(raw: seq<byte>, key: MaskKey): (r: seq<byte>)
    ensures |r| == |raw|
  {
    assert Power2(8) == 256;
    seq(|raw|, i requires 0 <= i < |raw| => Number(ExclusiveOr(Digits(raw[i], 8), Digits(key[i % 4], 8))))
  }

  /** A payload length and the number of header bytes up to and including it; only the minimal form is valid. */
  function RfcLength(s: seq<byte>): Option<(nat, nat)> {
    if |s| < 2 then None
    else
      var seven := s[1] % 128;
      if seven < 126 then Some((seven, 2))
      else if seven == 126 then
        if |s| < 4 || FromBigEndian(s[2..4]) < 126 then None else Some((FromBigEndian(s[2..4]), 4))
      else
        if |s| < 10 || !(0x1_0000 <= FromBigEndian(s[2..10]) < 0x8000_0000_0000_0000) then None
        else Some((FromBigEndian(s[2..10]), 10))
  }

  /** The frame at the front of `s` and what follows it, or nothing if there is no complete valid frame. */
  function RfcRead(s: seq<byte>): Option<(RfcFrame, seq<byte>)> {
    match RfcLength(s)
    case None => None
    case Some((length, offset)) =>
      var isMasked := s[1] >= 128;
      var start := if isMasked then offset + 4 else offset;
      if |s| < start + length then None
      else
        var key: Option<MaskKey> := if isMasked then Some(s[offset..offset + 4]) else None;
        var raw := s[start..start + length];
        var payload := if isMasked then RfcUnmasked(raw, key.value) else raw;
        Some((RfcFrame(s[0] >= 128, s[0] / 16 % 8, s[0] % 16, key, payload), s[start + length..]))
  }

  // ----- _websocket_send -----

  lemma Widths()
    ensures Power256(2) == 0x1_0000 && Power256(8) == FIELD_LIMIT
  {
  }

  function SentHeader(length: nat): (r: seq<byte>)
    requires length < FIELD_LIMIT
    ensures |r| >= 2
  {
    Widths();
    if length < 126 then [0x81, 0x80 + length]
    else if length < 65536 then [0x81, 0x80 + 126] + BigEndian(length, 2)
    else [0x81, 0x80 + 127] + BigEndian(length, 8)
  }

  /** The bytes handed to the socket for one payload; longer payloads make `struct.pack` raise. */
  function Sent(payload: seq<byte>, key: MaskKey): seq<byte>
    requires |payload| < FIELD_LIMIT
  {
    SentHeader(|payload|) + key + Masked(payload, key)
  }

  lemma {:induction false} NumberOfDigits(n: nat, width: nat)
    requires n < Power2(width)
    ensures Number(Digits(n, width)) == n
  {
    if width > 0 {
      NumberOfDigits(n / 2, width - 1);
      assert Digits(n, width)[..width - 1] == Digits(n / 2, width - 1);
    }
  }

  lemma {:induction false} DigitsOfXor(a: nat, b: nat, bits: nat)
    ensures ExclusiveOr(Digits(XorBits(a, b, bits), bits), Digits(b, bits)) == Digits(a, bits)
  {
    if bits > 0 {
      XorStep(a, b, bits);
      DigitsOfXor(a / 2, b / 2, bits - 1);
    }
  }

  lemma UnmaskingReadsMasked(payload: seq<byte>, key: MaskKey)
    ensures RfcUnmasked(Masked(payload, key), key) == payload
  {
    assert Power2(8) == 256;
    forall i | 0 <= i < |payload| ensures RfcUnmasked(Masked(payload, key), key)[i] == payload[i] {
      DigitsOfXor(payload[i], key[i % 4], 8);
      NumberOfDigits(payload[i], 8);
    }
  }

  /**
    What goes over the wire for octet `i` of the payload: at each binary place it is the exclusive or of that octet and
    octet `i % 4` of the key, which stands before the masked octets.
   */
  lemma SentOctet(payload: seq<byte>, key: MaskKey, i: nat, place: nat)
    requires |payload| < FIELD_LIMIT && i < |payload| && place in {1, 2, 4, 8, 16, 32, 64, 128}
    ensures var wire, start := Sent(payload, key), |Sent(payload, key)| - |payload|;
            && start >= 4 && wire[start - 4..start] == key
            && Combines(payload[i], key[i % 4], wire[start + i], place)
  {
    SentEnds(payload, key);
    MaskedOctet(payload, key, i, place);
  }

  lemma SentEnds(payload: seq<byte>, key: MaskKey)
    requires |payload| < FIELD_LIMIT
    ensures var wire, start := Sent(payload, key), |Sent(payload, key)| - |payload|;
            && start >= 4 && wire[start - 4..start] == key
            && forall i :: 0 <= i < |payload| ==> wire[start + i] == Masked(payload, key)[i]
  {
    var h, m := SentHeader(|payload|), Masked(payload, key);
    Slices(h, key, m);
    forall i | 0 <= i < |payload| ensures Sent(payload, key)[|h| + 4 + i] == m[i] {
      assert (h + key + m)[|h| + 4..][i] == m[i];
    }
  }

  lemma OctetsCombine(a: nat, b: nat, place: nat)
    requires place in {1, 2, 4, 8, 16, 32, 64, 128}
    ensures Combines(a, b, XorBits(a, b, 8), place)
  {
    assert Power2(8) == 256;
    EvenAt(a, b, 8, place);
  }

  lemma MaskedOctet(payload: seq<byte>, key: MaskKey, i: nat, place: nat)
    requires i < |payload| && place in {1, 2, 4, 8, 16, 32, 64, 128}
    ensures Combines(payload[i], key[i % 4], Masked(payload, key)[i], place)
  {
    OctetsCombine(payload[i], key[i % 4], place);
  }

  lemma SentLength(length: nat, tail: seq<byte>)
    requires length < FIELD_LIMIT
    ensures RfcLength(SentHeader(length) + tail) ==
            if length < 0x8000_0000_0000_0000 then Some((length, |SentHeader(length)|)) else None
  {
    var h := SentHeader(length);
    var s := h + tail;
    Widths();
    if length >= 65536 {
      assert s[2..10] == BigEndian(length, 8);
      BigEndianRoundTrip(length, 8);
    } else if length >= 126 {
      assert s[2..4] == BigEndian(length, 2);
      BigEndianRoundTrip(length, 2);
    }
  }

  /**
    What is sent is one final masked text frame in the minimal length form, whatever follows it on the wire,
    and unmasking gives back the payload, exactly for the lengths section 5.2 can express.
   */
  lemma SentFrameReadsBack(payload: seq<byte>, key: MaskKey, tail: seq<byte>)
    requires |payload| < FIELD_LIMIT
    ensures RfcRead(Sent(payload, key) + tail) ==
            if |payload| < 0x8000_0000_0000_0000
            then Some((RfcFrame(true, 0, TEXT, Some(key), payload), tail))
            else None
  {
    var h, m := SentHeader(|payload|), Masked(payload, key);
    AppendAssociates(h + key, m, tail);
    AppendAssociates(h, key, m + tail);
    SentLength(|payload|, key + (m + tail));
    Slices(h, key, m + tail);
    Slices(h + key, m, tail);
    UnmaskingReadsMasked(payload, key);
    assert h[0] == 0x81 && h[1] >= 128;
  }

  // ----- _websocket_receive_text -----

  /** The payload length and where the payload starts, as the client reads them. */
  function ReadLength(s: seq<byte>): (r: Option<(nat, nat)>)
    ensures r.Some? ==> 2 <= r.value.1 <= |s|
  {
    if |s| < 2 then None
    else
      var seven := s[1] % 128;
      var offset := if seven == 126 then 4 else if seven == 127 then 10 else 2;
      if |s| < offset then None
      else Some((if offset == 2 then seven else FromBigEndian(s[2..offset]), offset))
  }

  /** The next frame as the client cuts it out of the stream: opcode, payload, the rest. The mask bit is ignored. */
  function NextFrame(s: seq<byte>): (r: Option<(byte, seq<byte>, seq<byte>)>)
    ensures r.Some? ==> |r.value.2| < |s|
  {
    match ReadLength(s)
    case None => None
    case Some((length, offset)) =>
      if |s| < offset + length then None
      else Some((s[0] % 16, s[offset..offset + length], s[offset + length..]))
  }

  /** The client raises the same error for a close frame and for a stream that ends early. */
  datatype Reception = Text(payload: seq<byte>, rest: seq<byte>) | Disconnected

  /** What receiving one text amounts to on the whole remaining stream. */
  function FirstText(s: seq<byte>): Reception
    decreases |s|
  {
    match NextFrame(s)
    case None => Disconnected
    case Some((opcode, payload, rest)) =>
      if opcode == CLOSE then Disconnected
      else if opcode == TEXT then Text(payload, rest)
      else FirstText(rest)
  }

  /** On every unmasked frame the client's cutting agrees with the section 5.2 reader. */
  lemma ClientReadsRfcFrames(s: seq<byte>)
    requires RfcRead(s).Some? && RfcRead(s).value.0.key.None?
    ensures NextFrame(s) == Some((RfcRead(s).value.0.opcode, RfcRead(s).value.0.payload, RfcRead(s).value.1))
  {
  }

  /** A frame a server may put on the wire, in any of the three length forms, minimal or not. */
  datatype LengthForm = Short | Extended16 | Extended64
  datatype ServerFrame = ServerFrame(first: byte, form: LengthForm, payload: seq<byte>)

  predicate Expressible(f: ServerFrame) {
    match f.form
    case Short => |f.payload| < 126
    case Extended16 => |f.payload| < 0x1_0000
    case Extended64 => |f.payload| < FIELD_LIMIT
  }

  function WireHeader(f: ServerFrame): (r: seq<byte>)
    requires Expressible(f)
    ensures |r| >= 2
  {
    Widths();
    match f.form
    case Short => [f.first, |f.payload|]
    case Extended16 => [f.first, 126] + BigEndian(|f.payload|, 2)
    case Extended64 => [f.first, 127] + BigEndian(|f.payload|, 8)
  }

  function Wire(f: ServerFrame): (r: seq<byte>)
    requires Expressible(f)
    ensures |r| >= 2 + |f.payload|
  {
    WireHeader(f) + f.payload
  }

  lemma ReadLengthOfWire(f: ServerFrame, tail: seq<byte>)
    requires Expressible(f)
    ensures ReadLength(WireHeader(f) + tail) == Some((|f.payload|, |WireHeader(f)|))
  {
    var s := WireHeader(f) + tail;
    Widths();
    if f.form == Extended16 {
      assert s[2..4] == BigEndian(|f.payload|, 2);
      BigEndianRoundTrip(|f.payload|, 2);
    } else if f.form == Extended64 {
      assert s[2..10] == BigEndian(|f.payload|, 8);
      BigEndianRoundTrip(|f.payload|, 8);
    }
  }

  lemma NextFrameReadsWire(f: ServerFrame, tail: seq<byte>)
    requires Expressible(f)
    ensures NextFrame(Wire(f) + tail) == Some((f.first % 16, f.payload, tail))
  {
    var h := WireHeader(f);
    AppendAssociates(h, f.payload, tail);
    ReadLengthOfWire(f, f.payload + tail);
    Slices(h, f.payload, tail);
    assert (Wire(f) + tail)[0] == f.first;
  }

  /** The header a length and an offset were read from is the header of a frame of that length. */
  lemma ReadLengthIsWireHeader(s: seq<byte>, f: ServerFrame)
    requires ReadLength(s).Some? && s[1] < 128 && f.first == s[0] && |f.payload| == ReadLength(s).value.0
    requires f.form == if s[1] < 126 then Short else if s[1] == 126 then Extended16 else Extended64
    ensures Expressible(f) && WireHeader(f) == s[..ReadLength(s).value.1]
  {
    Widths();
    var offset := ReadLength(s).value.1;
    if s[1] >= 126 {
      FromBigEndianRoundTrip(s[2..offset]);
      assert s[..offset] == s[..2] + s[2..offset];
    }
  }

  lemma CutInThree<T>(s: seq<T>, i: nat, j: nat)
    requires i <= j <= |s|
    ensures s[..i] + s[i..j] + s[j..] == s
  {
  }

  /** Conversely, with the mask bit clear, what the client cuts off is one wire frame and nothing is lost. */
  lemma NextFrameConservesBytes(s: seq<byte>) returns (f: ServerFrame)
    requires NextFrame(s).Some? && s[1] < 128
    ensures Expressible(f) && Wire(f) + NextFrame(s).value.2 == s
    ensures f.first % 16 == NextFrame(s).value.0 && f.payload == NextFrame(s).value.1
  {
    var offset := ReadLength(s).value.1;
    var payload, rest := NextFrame(s).value.1, NextFrame(s).value.2;
    f := ServerFrame(s[0], if s[1] < 126 then Short else if s[1] == 126 then Extended16 else Extended64, payload);
    ReadLengthIsWireHeader(s, f);
    CutInThree(s, offset, offset + |payload|);
  }

  /** A frame that is complete stays the same frame when more bytes arrive. */
  lemma NextFrameIgnoresLaterBytes(s: seq<byte>, x: seq<byte>)
    requires NextFrame(s).Some?
    ensures NextFrame(s + x) == Some((NextFrame(s).value.0, NextFrame(s).value.1, NextFrame(s).value.2 + x))
  {
    var (length, offset) := ReadLength(s).value;
    assert (s + x)[2..offset] == s[2..offset];
    assert ReadLength(s + x) == ReadLength(s);
    var header, payload, rest := s[..offset], s[offset..offset + length], s[offset + length..];
    assert s == header + payload + rest;
    AppendAssociates(header + payload, rest, x);
    Slices(header, payload, rest + x);
  }

  /** Neither a text frame (opcode 1) nor a close frame (opcode 8). */
  predicate IsSkipped(f: ServerFrame) {
    f.first % 16 != 1 && f.first % 16 != 8
  }

  function WireAll(frames: seq<ServerFrame>): seq<byte>
    requires forall i :: 0 <= i < |frames| ==> Expressible(frames[i])
  {
    if frames == [] then [] else Wire(frames[0]) + WireAll(frames[1..])
  }

  lemma {:induction false} OtherFramesAreSkipped(skipped: seq<ServerFrame>, rest: seq<byte>)
    requires forall i :: 0 <= i < |skipped| ==> Expressible(skipped[i]) && IsSkipped(skipped[i])
    ensures FirstText(WireAll(skipped) + rest) == FirstText(rest)
    decreases |skipped|
  {
    if skipped == [] {
      assert [] + rest == rest;
    } else {
      AppendAssociates(Wire(skipped[0]), WireAll(skipped[1..]), rest);
      NextFrameReadsWire(skipped[0], WireAll(skipped[1..]) + rest);
      OtherFramesAreSkipped(skipped[1..], rest);
    }
  }

  /**
    Any number of other frames is skipped, then the first text frame's payload is returned and exactly the
    stream after that frame is left; a close frame in its place disconnects.
   */
  lemma FirstTextIsReturned(skipped: seq<ServerFrame>, f: ServerFrame, tail: seq<byte>)
    requires forall i :: 0 <= i < |skipped| ==> Expressible(skipped[i]) && IsSkipped(skipped[i])
    requires Expressible(f) && !IsSkipped(f)
    ensures FirstText(WireAll(skipped) + (Wire(f) + tail)) ==
            if f.first % 16 == 1 then Text(f.payload, tail) else Disconnected
  {
    OtherFramesAreSkipped(skipped, Wire(f) + tail);
    NextFrameReadsWire(f, tail);
  }

  /** A stream that ends inside a frame disconnects: the torn frame is never mistaken for a shorter one. */
  lemma TornFrameDisconnects(skipped: seq<ServerFrame>, f: ServerFrame, cut: nat)
    requires forall i :: 0 <= i < |skipped| ==> Expressible(skipped[i]) && IsSkipped(skipped[i])
    requires Expressible(f) && cut < |Wire(f)|
    ensures FirstText(WireAll(skipped) + Wire(f)[..cut]) == Disconnected
  {
    OtherFramesAreSkipped(skipped, Wire(f)[..cut]);
    NoFrameInTornFrame(f, cut);
  }

  lemma NoFrameInTornFrame(f: ServerFrame, cut: nat)
    requires Expressible(f) && cut < |Wire(f)|
    ensures NextFrame(Wire(f)[..cut]).None?
  {
    var s, x := Wire(f)[..cut], Wire(f)[cut..];
    assert s + x == Wire(f) + [];
    NextFrameReadsWire(f, []);
    if NextFrame(s).Some? {
      NextFrameIgnoresLaterBytes(s, x);
    }
  }
}

/** The receiving loop over a socket that hands out its bytes in arbitrary chunks. */
module WebSocketClient {
  import opened Bytes
  import opened WebSocketFrames

  class Connection {
    /** What `recv` will still return, chunk by chunk; afterwards it returns nothing. */
    var chunks: seq<seq<byte>>

    constructor (chunks: seq<seq<byte>>)
      ensures this.chunks == chunks
    {
      this.chunks := chunks;
    }

    ghost predicate Valid()
      reads this
    {
      forall i :: 0 <= i < |chunks| ==> chunks[i] != []
    }

    ghost function Unread(): seq<byte>
      reads this
    {
      Flatten(chunks)
    }

    method Recv() returns (chunk: seq<byte>)
      requires Valid()
      modifies this
      ensures Valid() && chunk + Unread() == old(Unread())
      ensures chunk == [] <==> old(Unread()) == []
      ensures |chunks| < |old(chunks)| || chunk == []
    {
      if chunks == [] {
        chunk := [];
      } else {
        chunk := chunks[0];
        chunks := chunks[1..];
      }
    }

    /** `need`: read until `count` bytes are there, or fail because the stream has fewer. */
    method Need(count: nat, data: seq<byte>) returns (enough: bool, more: seq<byte>)
      requires Valid()
      modifies this
      ensures Valid() && more + Unread() == data + old(Unread())
      ensures enough <==> count <= |data + old(Unread())|
      ensures enough ==> count <= |more|
    {
      more := data;
      while |more| < count
        invariant Valid() && more + Unread() == data + old(Unread())
        decreases |chunks|, count - |more|
      {
        var chunk := Recv();
        if chunk == [] {
          return false, more;
        }
        more := more + chunk;
      }
      enough := true;
    }

    /**
      One step of the loop: the next frame, cut out of the buffer. It depends only on the bytes still to come,
      never on how they are cut into chunks, and the bytes not consumed are all still there.
     */
    method ReceiveFrame(data: seq<byte>) returns (ok: bool, opcode: byte, payload: seq<byte>, buffered: seq<byte>)
      requires Valid()
      modifies this
      ensures Valid()
      ensures ok <==> NextFrame(data + old(Unread())).Some?
      ensures ok ==> NextFrame(data + old(Unread())).value == (opcode, payload, buffered + Unread())
    {
      ghost var all := data + Unread();
      opcode, payload := 0, [];
      ok, buffered := Need(2, data);
      if !ok {
        return;
      }
      opcode := buffered[0] % 16;
      assert buffered[0] == all[0] && buffered[1] == all[1];
      var length: nat := buffered[1] % 128;
      var offset := 2;
      if length == 126 {
        ok, buffered := Need(4, buffered);
        if !ok {
          return;
        }
        assert buffered[2..4] == all[2..4];
        length := FromBigEndian(buffered[2..4]);
        offset := 4;
      } else if length == 127 {
        ok, buffered := Need(10, buffered);
        if !ok {
          return;
        }
        assert buffered[2..10] == all[2..10];
        length := FromBigEndian(buffered[2..10]);
        offset := 10;
      }
      ok, buffered := Need(offset + length, buffered);
      if !ok {
        return;
      }
      assert buffered + Unread() == all;
      payload := buffered[offset..offset + length];
      assert payload == all[offset..offset + length];
      ghost var kept := buffered;
      buffered := buffered[offset + length..];
      assert buffered + Unread() == (kept + Unread())[offset + length..];
    }

    /**
      `_websocket_receive_text`: exactly the first text of the stream, for every way of cutting it into chunks;
      the leftover buffer and the unread bytes together are exactly the stream after that frame.
     */
    method ReceiveText(data: seq<byte>) returns (ok: bool, payload: seq<byte>, buffered: seq<byte>)
      requires Valid()
      modifies this
      ensures Valid()
      ensures ok <==> FirstText(data + old(Unread())).Text?
      ensures ok ==> FirstText(data + old(Unread())) == Text(payload, buffered + Unread())
    {
      buffered := data;
      ok := true;
      while true
        invariant Valid()
        invariant FirstText(buffered + Unread()) == FirstText(data + old(Unread()))
        decreases |buffered + Unread()|
      {
        var opcode: byte;
        ok, opcode, payload, buffered := ReceiveFrame(buffered);
        if !ok {
          return;
        }
        if opcode == CLOSE {
          ok := false;
          return;
        }
        if opcode == TEXT {
          return;
        }
      }
    }
  }
}
