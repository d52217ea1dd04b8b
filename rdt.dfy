/** The RDT (Raw Data Transfer) wire format: the 8-byte request a host sends
    to the sensor and the 36-byte record the sensor streams back.  Every
    multi-byte field travels in network byte order (most significant byte
    first), and the force/torque counts are two's-complement 32-bit values.

    Bytes are integers 0..255; the shifts and masks of htons/htonl/ntohl are
    written as division and remainder by powers of 256 (x >> 8 & 0xFF is
    x / 0x100 % 0x100). */
module Rdt {

  newtype byte = x: int | 0 <= x < 0x100
  newtype uint16 = x: int | 0 <= x < 0x1_0000
  newtype uint32 = x: int | 0 <= x < 0x1_0000_0000
  newtype int32 = x: int | -0x8000_0000 <= x < 0x8000_0000

  // Protocol constants of the RDT interface (command_s in the driver header).
  const COMMAND_HEADER: uint16 := 0x1234
  const STOP: uint16 := 0x0000
  const REALTIME: uint16 := 0x0002
  const BUFFERED: uint16 := 0x0003
  const MULTIUNIT: uint16 := 0x0004
  const RESET_THRESHOLD_LATCH: uint16 := 0x0041
  const SET_SOFTWARE_BIAS: uint16 := 0x0042
  const DEFAULT_PORT: uint16 := 49152

  /** sizeof(request_): header, command code and sample count. */
  const REQUEST_SIZE: nat := 8
  /** RDT_RECORD_SIZE: the one datagram length that is a complete record. */
  const RDT_RECORD_SIZE: nat := 36

  /** The three command codes that start a stream (as opposed to STOP and the one-shot codes). */
  predicate IsStreamingMode(code: uint16) {
    code == REALTIME || code == BUFFERED || code == MULTIUNIT
  }

  // ---------------------------------------------------------------- big-endian fields

  function ReadU16(s: seq<byte>, off: nat): uint16
    requires off + 2 <= |s|
  {
    (s[off] as int * 0x100 + s[off + 1] as int) as uint16
  }

  function ReadU32(s: seq<byte>, off: nat): uint32
    requires off + 4 <= |s|
  {
    (s[off] as int * 0x100_0000 + s[off + 1] as int * 0x1_0000 + s[off + 2] as int * 0x100 + s[off + 3] as int) as uint32
  }

  /** htons: the two bytes of x, most significant first. */
  function BeU16(x: uint16): (r: seq<byte>)
    ensures |r| == 2
  {
    [(x / 0x100) as byte, (x % 0x100) as byte]
  }

  /** A field written by htons reads back as itself. */
  lemma ReadBeU16(x: uint16)
    ensures ReadU16(BeU16(x), 0) == x
  {
  }

  /** htonl: the four bytes of x, most significant first. */
  function BeU32(x: uint32): (r: seq<byte>)
    ensures |r| == 4
  {
    var a, b, c, d := x as int / 0x100_0000, x as int / 0x1_0000 % 0x100, x as int / 0x100 % 0x100, x as int % 0x100;
    [a as byte, b as byte, c as byte, d as byte]
  }

  /** A field written by htonl reads back as itself. */
  lemma ReadBeU32(x: uint32)
    ensures ReadU32(BeU32(x), 0) == x
  {
    var a, b, c, d := x as int / 0x100_0000, x as int / 0x1_0000 % 0x100, x as int / 0x100 % 0x100, x as int % 0x100;
    assert x as int / 0x100 == (x as int / 0x1_0000) * 0x100 + c;
    assert x as int / 0x1_0000 == a * 0x100 + b;
    assert x as int == a * 0x100_0000 + b * 0x1_0000 + c * 0x100 + d;
  }

  /** Reading a field back and re-encoding it gives exactly the bytes it was read from. */
  lemma BeU16OfRead(s: seq<byte>, off: nat)
    requires off + 2 <= |s|
    ensures BeU16(ReadU16(s, off)) == s[off..off + 2]
  {
    var a, b := s[off] as int, s[off + 1] as int;
    assert (a * 0x100 + b) / 0x100 == a;
    assert (a * 0x100 + b) % 0x100 == b;
  }

  lemma BeU32OfRead(s: seq<byte>, off: nat)
    requires off + 4 <= |s|
    ensures BeU32(ReadU32(s, off)) == s[off..off + 4]
  {
    var a, b, c, d := s[off] as int, s[off + 1] as int, s[off + 2] as int, s[off + 3] as int;
    var x := a * 0x100_0000 + b * 0x1_0000 + c * 0x100 + d;
    assert x / 0x100_0000 == a;
    assert x / 0x1_0000 == a * 0x100 + b;
    assert x / 0x100 == a * 0x1_0000 + b * 0x100 + c;
    assert (a * 0x100 + b) % 0x100 == b;
    assert (a * 0x1_0000 + b * 0x100 + c) % 0x100 == c;
    assert x % 0x100 == d;
  }

  /** A field placed at offset |p| of a buffer is read back from that offset. */
  lemma ReadU16At(p: seq<byte>, x: uint16, q: seq<byte>)
    ensures ReadU16(p + BeU16(x) + q, |p|) == x
  {
    var s := p + BeU16(x) + q;
    assert s[|p|] == BeU16(x)[0] && s[|p| + 1] == BeU16(x)[1];
    ReadBeU16(x);
  }

  lemma ReadU32At(p: seq<byte>, x: uint32, q: seq<byte>)
    ensures ReadU32(p + BeU32(x) + q, |p|) == x
  {
    var s := p + BeU32(x) + q;
    var e := BeU32(x);
    assert s[|p|] == e[0] && s[|p| + 1] == e[1] && s[|p| + 2] == e[2] && s[|p| + 3] == e[3];
    ReadBeU32(x);
  }

  // ---------------------------------------------------------------- two's complement

  /** static_cast<int32_t> of a 32-bit word: the one int32 congruent to x modulo 2^32. */
  function ToInt32(x: uint32): (r: int32)
    ensures (r < 0) == (x >= 0x8000_0000)
  {
    if x < 0x8000_0000 then x as int as int32 else (x as int - 0x1_0000_0000) as int32
  }

  /** The reinterpretation keeps the value modulo 2^32. */
  lemma ToInt32Congruent(x: uint32)
    ensures (ToInt32(x) as int - x as int) % 0x1_0000_0000 == 0
  {
  }

  /** The 32-bit word whose two's-complement reading is i. */
  function FromInt32(i: int32): (r: uint32)
    ensures ToInt32(r) == i
  {
    if i >= 0 then i as int as uint32 else (i as int + 0x1_0000_0000) as uint32
  }

  /** Any int32 congruent to x modulo 2^32 is ToInt32(x): the reinterpretation is unique. */
  lemma ToInt32Unique(x: uint32, i: int32)
    requires (i as int - x as int) % 0x1_0000_0000 == 0
    ensures ToInt32(x) == i
  {
    var d := i as int - x as int;
    assert d == 0 || d == -0x1_0000_0000 by {
      assert d == (d / 0x1_0000_0000) * 0x1_0000_0000;
    }
  }

  lemma FromToInt32(x: uint32)
    ensures FromInt32(ToInt32(x)) == x
  {
  }

  // ---------------------------------------------------------------- the request

  /** The wire form of command_s: header, command code, sample count. */
  datatype Request = Request(header: uint16, command: uint16, sampleCount: uint32)

  function DecodeRequest(s: seq<byte>): Request
    requires |s| == REQUEST_SIZE
  {
    Request(ReadU16(s, 0), ReadU16(s, 2), ReadU32(s, 4))
  }

  /** The 8 bytes sendCommand writes into request_: every field big-endian, in declaration order. */
  function EncodeRequest(q: Request): (r: seq<byte>)
    ensures |r| == REQUEST_SIZE
  {
    BeU16(q.header) + BeU16(q.command) + BeU32(q.sampleCount)
  }

  /** The fields of an encoded request sit at offsets 0, 2 and 4. */
  lemma EncodeRequestFields(q: Request)
    ensures var r := EncodeRequest(q);
      r[0..2] == BeU16(q.header) && r[2..4] == BeU16(q.command) && r[4..8] == BeU32(q.sampleCount)
  {
  }

  /** Decoding the encoding of any request gives back that request. */
  lemma DecodeEncodeRequest(q: Request)
    ensures DecodeRequest(EncodeRequest(q)) == q
  {
    var h, c, n := BeU16(q.header), BeU16(q.command), BeU32(q.sampleCount);
    ReadU16At([], q.header, c + n);
    assert [] + h + (c + n) == h + c + n;
    ReadU16At(h, q.command, n);
    ReadU32At(h + c, q.sampleCount, []);
    assert h + c + n + [] == h + c + n;
  }

  /** Every 8-byte buffer is the encoding of the request it decodes to. */
  lemma EncodeDecodeRequest(s: seq<byte>)
    requires |s| == REQUEST_SIZE
    ensures EncodeRequest(DecodeRequest(s)) == s
  {
    BeU16OfRead(s, 0);
    BeU16OfRead(s, 2);
    BeU32OfRead(s, 4);
    assert s == s[0..2] + s[2..4] + s[4..8];
  }

  // ---------------------------------------------------------------- the response record

  /** One RDT record: three unsigned counters and six signed force/torque counts. */
  datatype Response = Response(
    rdtSequence: uint32, ftSequence: uint32, status: uint32,
    fx: int32, fy: int32, fz: int32, tx: int32, ty: int32, tz: int32)

  /** The nine field words of a record, in wire order. */
  function Words(r: Response): seq<uint32> {
    [r.rdtSequence, r.ftSequence, r.status,
     FromInt32(r.fx), FromInt32(r.fy), FromInt32(r.fz),
     FromInt32(r.tx), FromInt32(r.ty), FromInt32(r.tz)]
  }

  /** The record with those nine words: the three counters as they are, the six
      force/torque words reinterpreted as int32. */
  function FromWords(ws: seq<uint32>): (r: Response)
    requires |ws| == 9
  {
    Response(ws[0], ws[1], ws[2],
      ToInt32(ws[3]), ToInt32(ws[4]), ToInt32(ws[5]), ToInt32(ws[6]), ToInt32(ws[7]), ToInt32(ws[8]))
  }

  lemma WordsOfFromWords(ws: seq<uint32>)
    requires |ws| == 9
    ensures Words(FromWords(ws)) == ws
  {
    FromToInt32(ws[3]);
    FromToInt32(ws[4]);
    FromToInt32(ws[5]);
    FromToInt32(ws[6]);
    FromToInt32(ws[7]);
    FromToInt32(ws[8]);
  }

  lemma FromWordsOfWords(r: Response)
    ensures FromWords(Words(r)) == r
  {
  }

  /** ntohl over a buffer of whole words: the big-endian word at each multiple of 4. */
  function Read32s(s: seq<byte>): (ws: seq<uint32>)
    requires |s| % 4 == 0
    ensures 4 * |ws| == |s|
    decreases |s|
  {
    if s == [] then [] else [ReadU32(s, 0)] + Read32s(s[4..])
  }

  /** Word k of the reading is the word at offset 4k. */
  lemma {:induction false} Read32sAt(s: seq<byte>, k: nat)
    requires |s| % 4 == 0 && 4 * k + 4 <= |s|
    ensures Read32s(s)[k] == ReadU32(s, 4 * k)
    decreases k
  {
    if k > 0 {
      Read32sAt(s[4..], k - 1);
      assert s[4..][4 * (k - 1)..4 * (k - 1) + 4] == s[4 * k..4 * k + 4];
      ReadU32Slice(s[4..], 4 * (k - 1), s[4 * k..4 * k + 4]);
      ReadU32Slice(s, 4 * k, s[4 * k..4 * k + 4]);
    }
  }

  /** The big-endian words laid end to end. */
  function Concat32(ws: seq<uint32>): (s: seq<byte>)
    ensures |s| == 4 * |ws|
  {
    if ws == [] then [] else BeU32(ws[0]) + Concat32(ws[1..])
  }

  /** Concat32 lays word k at bytes 4k .. 4k+4. */
  lemma {:induction false} Concat32At(ws: seq<uint32>, k: nat)
    requires k < |ws|
    ensures Concat32(ws)[4 * k..4 * k + 4] == BeU32(ws[k])
  {
    var t := Concat32(ws[1..]);
    assert Concat32(ws) == BeU32(ws[0]) + t;
    if k > 0 {
      Concat32At(ws[1..], k - 1);
      assert Concat32(ws)[4 * k..4 * k + 4] == t[4 * (k - 1)..4 * (k - 1) + 4];
    }
  }

  /** Reading the words back from their concatenation gives the words. */
  lemma {:induction false} Read32sOfConcat32(ws: seq<uint32>)
    ensures Read32s(Concat32(ws)) == ws
  {
    if ws != [] {
      var t := Concat32(ws[1..]);
      assert Concat32(ws) == [] + BeU32(ws[0]) + t;
      ReadU32At([], ws[0], t);
      assert Concat32(ws)[4..] == t;
      Read32sOfConcat32(ws[1..]);
    }
  }

  /** Concatenating the words read from a buffer gives back the buffer. */
  lemma {:induction false} Concat32OfRead32s(s: seq<byte>)
    requires |s| % 4 == 0
    ensures Concat32(Read32s(s)) == s
    decreases |s|
  {
    if s != [] {
      BeU32OfRead(s, 0);
      Concat32OfRead32s(s[4..]);
      assert s == s[0..4] + s[4..];
    }
  }

  /** Reading a word only looks at its four bytes. */
  lemma ReadU32Slice(s: seq<byte>, o: nat, blk: seq<byte>)
    requires o + 4 <= |s| && blk == s[o..o + 4]
    ensures ReadU32(s, o) == ReadU32(blk, 0)
  {
    assert blk[0] == s[o] && blk[1] == s[o + 1] && blk[2] == s[o + 2] && blk[3] == s[o + 3];
  }

  /** getResponse's unpacking of response_: the nine big-endian words at offsets 0, 4,
      ..., 32, of which the last six are the force/torque counts as int32. */
  function DecodeResponse(s: seq<byte>): (r: Response)
    requires |s| == RDT_RECORD_SIZE
  {
    FromWords(Read32s(s))
  }

  /** Word k of a decoded record is the big-endian word at offset 4k. */
  lemma DecodeResponseWords(s: seq<byte>, k: nat)
    requires |s| == RDT_RECORD_SIZE && k < 9
    ensures Words(DecodeResponse(s))[k] == ReadU32(s, 4 * k)
  {
    WordsOfFromWords(Read32s(s));
    Read32sAt(s, k);
  }

  /** The sensor side of the exchange: the 36 bytes of a record, word by word. */
  function EncodeResponse(r: Response): (s: seq<byte>)
    ensures |s| == RDT_RECORD_SIZE
  {
    Concat32(Words(r))
  }

  /** Field word k of an encoded record sits at bytes 4k .. 4k+4. */
  lemma EncodeResponseFields(r: Response, k: nat)
    requires k < 9
    ensures EncodeResponse(r)[4 * k..4 * k + 4] == BeU32(Words(r)[k])
  {
    Concat32At(Words(r), k);
  }

  /** Decoding the big-endian encoding of any record gives back that record. */
  lemma DecodeEncodeResponse(r: Response)
    ensures DecodeResponse(EncodeResponse(r)) == r
  {
    Read32sOfConcat32(Words(r));
  }

  /** Every 36-byte buffer is the encoding of the record it decodes to. */
  lemma EncodeDecodeResponse(s: seq<byte>)
    requires |s| == RDT_RECORD_SIZE
    ensures EncodeResponse(DecodeResponse(s)) == s
  {
    WordsOfFromWords(Read32s(s));
    Concat32OfRead32s(s);
  }

  /** Four 0xFF bytes in the Fx slot decode to Fx == -1. */
  lemma AllOnesIsMinusOne(s: seq<byte>)
    requires |s| == RDT_RECORD_SIZE
    requires s[12] == 0xFF && s[13] == 0xFF && s[14] == 0xFF && s[15] == 0xFF
    ensures DecodeResponse(s).fx == -1
  {
    Read32sAt(s, 3);
    assert ReadU32(s, 12) == 0xFFFF_FFFF;
  }

  /** A record of 36 zero bytes has all force/torque counts zero. */
  lemma ZeroRecord(s: seq<byte>)
    requires |s| == RDT_RECORD_SIZE
    requires forall i | 0 <= i < |s| :: s[i] == 0
    ensures var r := DecodeResponse(s);
      r.fx == 0 && r.fy == 0 && r.fz == 0 && r.tx == 0 && r.ty == 0 && r.tz == 0
  {
    Read32sAt(s, 3);
    Read32sAt(s, 4);
    Read32sAt(s, 5);
    Read32sAt(s, 6);
    Read32sAt(s, 7);
    Read32sAt(s, 8);
    assert ReadU32(s, 12) == 0 && ReadU32(s, 16) == 0 && ReadU32(s, 20) == 0;
    assert ReadU32(s, 24) == 0 && ReadU32(s, 28) == 0 && ReadU32(s, 32) == 0;
  }
}
