/**
 The frame format both programs speak, as pure functions: four header bytes holding a
 signed 32-bit big-endian payload length, then the payload.

 `Parse` is the one specification of decoding.  The server's `Unpack` (module ServerWire)
 and the client's `on_readyRead` (module ClientWire) are two quite different decoders, and
 both are proved against it.
 */
module Framing {
  import opened Wrappers


  newtype byte = b: int | 0 <= b < 256

  type Bytes = seq<byte>

  type Int32 = n: int | -0x8000_0000 <= n < 0x8000_0000

  const HEAD: nat := 4

  /** The longest payload whose total length, header included, still fits the sender's int. */
  const MAX_PAYLOAD: nat := 0x7fff_fffb

  function Min(a: int, b: int): int {
    if a < b then a else b
  }

  // ---------------------------------------------------------------- the header

  /** The last `k` base-256 digits of `u`, most significant first. */
  function Digits(u: nat, k: nat): (h: Bytes)
    ensures |h| == k
  {
    if k == 0 then [] else Digits(u / 0x100, k - 1) + [(u % 0x100) as byte]
  }

  function Value(h: Bytes): nat {
    if h == [] then 0 else Value(h[..|h| - 1]) * 0x100 + h[|h| - 1] as nat
  }

  function Power256(k: nat): nat {
    if k == 0 then 1 else Power256(k - 1) * 0x100
  }

  lemma {:induction false} ValueOfDigits(u: nat, k: nat)
    requires u < Power256(k)
    ensures Value(Digits(u, k)) == u
  {
    if k > 0 {
      ValueOfDigits(u / 0x100, k - 1);
      assert Digits(u, k)[..k - 1] == Digits(u / 0x100, k - 1);
    }
  }

  lemma {:induction false} DigitsOfValue(h: Bytes)
    ensures Value(h) < Power256(|h|)
    ensures Digits(Value(h), |h|) == h
  {
    if h != [] {
      DigitsOfValue(h[..|h| - 1]);
      assert h == h[..|h| - 1] + [h[|h| - 1]];
    }
  }

  lemma FourBytes()
    ensures Power256(HEAD) == 0x1_0000_0000
  {
  }

  /** Two's complement, as `htonl` and `ntohl` move it between an int and four bytes. */
  function Header(n: Int32): (h: Bytes)
    ensures |h| == HEAD
  {
    Digits(if n < 0 then n + 0x1_0000_0000 else n, HEAD)
  }

  function Length(bs: Bytes): (n: Int32)
    requires |bs| >= HEAD
  {
    var u := Value(bs[..HEAD]);
    DigitsOfValue(bs[..HEAD]);
    FourBytes();
    if u >= 0x8000_0000 then u - 0x1_0000_0000 else u
  }

  lemma LengthOfHeader(n: Int32, tail: Bytes)
    ensures Length(Header(n) + tail) == n
  {
    FourBytes();
    ValueOfDigits(if n < 0 then n + 0x1_0000_0000 else n, HEAD);
    assert (Header(n) + tail)[..HEAD] == Header(n);
  }

  lemma HeaderOfLength(bs: Bytes)
    requires |bs| >= HEAD
    ensures Header(Length(bs)) == bs[..HEAD]
  {
    DigitsOfValue(bs[..HEAD]);
  }

  /** The length is decided by the first four bytes. */
  lemma LengthOfPrefix(a: Bytes, b: Bytes)
    requires |a| >= HEAD
    ensures Length(a + b) == Length(a)
  {
    assert (a + b)[..HEAD] == a[..HEAD];
  }

  // ---------------------------------------------------------------- frames

  /** Any payload whose length fits the header. */
  ghost predicate Fits(p: Bytes) {
    |p| < 0x8000_0000
  }

  ghost predicate AllFit(ps: seq<Bytes>) {
    forall p | p in ps :: Fits(p)
  }

  ghost predicate NoneEmpty(ps: seq<Bytes>) {
    forall p | p in ps :: 0 < |p|
  }

  function Encode(p: Bytes): (f: Bytes)
    requires Fits(p)
  {
    Header(|p|) + p
  }

  ghost function EncodeAll(ps: seq<Bytes>): (bs: Bytes)
    requires AllFit(ps)
  {
    if ps == [] then [] else Encode(ps[0]) + EncodeAll(ps[1..])
  }

  lemma EncodeAllNil()
    ensures AllFit([]) && NoneEmpty([])
    ensures EncodeAll([]) == []
  {
  }

  lemma EncodeAllCons(p: Bytes, ps: seq<Bytes>)
    requires Fits(p) && AllFit(ps)
    ensures AllFit([p] + ps)
    ensures 0 < |p| && NoneEmpty(ps) ==> NoneEmpty([p] + ps)
    ensures EncodeAll([p] + ps) == Encode(p) + EncodeAll(ps)
  {
    assert ([p] + ps)[1..] == ps;
  }

  lemma {:induction false} EncodeAllAppend(ps: seq<Bytes>, qs: seq<Bytes>)
    requires AllFit(ps)
    requires AllFit(qs)
    ensures AllFit(ps + qs)
    ensures EncodeAll(ps + qs) == EncodeAll(ps) + EncodeAll(qs)
  {
    if ps == [] {
      assert ps + qs == qs;
    } else {
      assert (ps + qs)[1..] == ps[1..] + qs;
      EncodeAllAppend(ps[1..], qs);
      assert Encode(ps[0]) + (EncodeAll(ps[1..]) + EncodeAll(qs)) == EncodeAll(ps) + EncodeAll(qs);
    }
  }

  // ---------------------------------------------------------------- the parser

  /** A whole frame with a positive length stands at the front of `bs`. */
  predicate HasFrame(bs: Bytes) {
    |bs| >= HEAD && 0 < Length(bs) <= |bs| - HEAD
  }

  function Payload(bs: Bytes): (p: Bytes)
    requires HasFrame(bs)
  {
    bs[HEAD..HEAD + Length(bs)]
  }

  function Beyond(bs: Bytes): (tail: Bytes)
    requires HasFrame(bs)
    ensures |tail| < |bs|
  {
    bs[HEAD + Length(bs)..]
  }

  lemma FrameOfEncode(p: Bytes, tail: Bytes)
    requires Fits(p) && 0 < |p|
    ensures HasFrame(Encode(p) + tail)
    ensures Payload(Encode(p) + tail) == p && Beyond(Encode(p) + tail) == tail
  {
    var bs := Encode(p) + tail;
    assert bs == Header(|p|) + (p + tail);
    LengthOfHeader(|p|, p + tail);
  }

  lemma EncodeOfFrame(bs: Bytes)
    requires HasFrame(bs)
    ensures Fits(Payload(bs)) && 0 < |Payload(bs)|
    ensures bs == Encode(Payload(bs)) + Beyond(bs) && |Beyond(bs)| < |bs|
  {
    HeaderOfLength(bs);
  }

  lemma FrameStays(a: Bytes, b: Bytes)
    requires HasFrame(a)
    ensures HasFrame(a + b) && |Beyond(a)| < |a|
    ensures Payload(a + b) == Payload(a) && Beyond(a + b) == Beyond(a) + b
  {
    LengthOfPrefix(a, b);
  }

  datatype Parsed = Parsed(frames: seq<Bytes>, rest: Bytes)

  /** All complete frames at the front of `bs`, and the bytes left over.  A header that
      announces no positive length stops the parser for good. */
  function Parse(bs: Bytes): (r: Parsed) {
    if !HasFrame(bs) then Parsed([], bs)
    else
      var tail := Parse(Beyond(bs));
      Parsed([Payload(bs)] + tail.frames, tail.rest)
  }

  /** The parser has run into a header that announces an empty or negative payload. */
  predicate Stuck(bs: Bytes) {
    var rest := Parse(bs).rest;
    |rest| >= HEAD && Length(rest) <= 0
  }

  /** What the parser leaves over it cannot parse any further. */
  lemma {:induction false} ParseRest(bs: Bytes)
    ensures !HasFrame(Parse(bs).rest)
    ensures Parse(Parse(bs).rest) == Parsed([], Parse(bs).rest)
  {
    if HasFrame(bs) {
      ParseRest(Beyond(bs));
    }
  }

  /** Framing is compositional: parsing may be interrupted anywhere and resumed later from
      the left-over bytes. */
  lemma {:induction false} ParseResumes(a: Bytes, b: Bytes)
    ensures Parse(a + b) == Parsed(Parse(a).frames + Parse(Parse(a).rest + b).frames, Parse(Parse(a).rest + b).rest)
    decreases |a|
  {
    hide HasFrame, Payload, Beyond;
    if HasFrame(a) {
      FrameStays(a, b);
      ParseResumes(Beyond(a), b);
    }
  }

  lemma ParseEncode(p: Bytes, tail: Bytes)
    requires Fits(p) && 0 < |p|
    ensures Parse(Encode(p) + tail) == Parsed([p] + Parse(tail).frames, Parse(tail).rest)
  {
    FrameOfEncode(p, tail);
  }

  /** Decoding undoes encoding, whatever follows on the stream. */
  lemma {:induction false} ParseEncodeAll(ps: seq<Bytes>, tail: Bytes)
    requires AllFit(ps) && NoneEmpty(ps)
    ensures Parse(EncodeAll(ps) + tail) == Parsed(ps + Parse(tail).frames, Parse(tail).rest)
  {
    hide HasFrame, Payload, Beyond, Encode;
    if ps == [] {
      assert EncodeAll(ps) + tail == tail;
    } else {
      assert EncodeAll(ps) + tail == Encode(ps[0]) + (EncodeAll(ps[1..]) + tail);
      ParseEncode(ps[0], EncodeAll(ps[1..]) + tail);
      ParseEncodeAll(ps[1..], tail);
    }
  }

  /** Every complete parse is the parse of an encoding: nothing but frames is recognised. */
  lemma {:induction false} ParseIsEncoding(bs: Bytes)
    ensures AllFit(Parse(bs).frames) && NoneEmpty(Parse(bs).frames)
    ensures bs == EncodeAll(Parse(bs).frames) + Parse(bs).rest
    decreases |bs|
  {
    hide HasFrame, Payload, Beyond, Encode, EncodeAll, AllFit, NoneEmpty, Fits;
    if HasFrame(bs) {
      EncodeOfFrame(bs);
      var p, tail := Payload(bs), Parse(Beyond(bs));
      ParseIsEncoding(Beyond(bs));
      EncodeAllCons(p, tail.frames);
      assert bs == Encode(p) + (EncodeAll(tail.frames) + tail.rest);
      assert bs == (Encode(p) + EncodeAll(tail.frames)) + tail.rest;
    } else {
      EncodeAllNil();
    }
  }

  /** The code is uniquely decodable: no stream is the encoding of two different lists. */
  lemma UniquelyDecodable(ps: seq<Bytes>, qs: seq<Bytes>)
    requires AllFit(ps) && NoneEmpty(ps)
    requires AllFit(qs) && NoneEmpty(qs)
    requires EncodeAll(ps) == EncodeAll(qs)
    ensures ps == qs
  {
    ParseEncodeAll(ps, []);
    ParseEncodeAll(qs, []);
    assert ps + [] == ps && qs + [] == qs;
  }

  lemma FirstNotEmpty(p: Bytes, more: Bytes)
    requires Fits(p) && !Stuck(Encode(p) + more)
    ensures 0 < |p| && !Stuck(more)
  {
    assert Encode(p) + more == Header(|p|) + (p + more);
    LengthOfHeader(|p|, p + more);
    if 0 < |p| {
      ParseEncode(p, more);
    }
  }

  /** Any split of a stream that the parser does not get stuck on into frames and a remainder
      is a split the parser goes along with; in particular none of those frames is empty. */
  lemma {:induction false} SplitAgreesWithParse(ps: seq<Bytes>, tail: Bytes)
    requires AllFit(ps)
    requires !Stuck(EncodeAll(ps) + tail)
    ensures NoneEmpty(ps) && !Stuck(tail)
    ensures Parse(EncodeAll(ps) + tail) == Parsed(ps + Parse(tail).frames, Parse(tail).rest)
  {
    hide HasFrame, Payload, Beyond, Encode, Stuck;
    if ps == [] {
      assert EncodeAll(ps) + tail == tail;
    } else {
      var more := EncodeAll(ps[1..]) + tail;
      assert EncodeAll(ps) + tail == Encode(ps[0]) + more;
      FirstNotEmpty(ps[0], more);
      ParseEncode(ps[0], more);
      SplitAgreesWithParse(ps[1..], tail);
    }
  }

  // ---------------------------------------------------------------- the client's encoder

  /** What `Client::send` puts in a frame: the text and the terminating NUL it counts in. */
  function WithNul(json: Bytes): Bytes {
    json + [0]
  }

  /** The part of some data before its first NUL. */
  function UpToNul(data: Bytes): (s: Bytes)
    ensures 0 !in s && s <= data
    ensures 0 in data ==> |s| < |data| && data[|s|] == 0
    ensures 0 !in data ==> s == data
  {
    if data == [] || data[0] == 0 then [] else [data[0]] + UpToNul(data[1..])
  }

  /** How the server turns a received payload into a string: a C string ends at its first NUL, and
      a payload without one is none; reading it runs on behind the payload. */
  function CString(data: Bytes): Option<Bytes> {
    if 0 in data then Some(UpToNul(data)) else None
  }

  predicate NulFree(text: Bytes) {
    0 !in text
  }

  /** Every payload of the client's makes a string, and the NUL that it adds comes off again exactly
      when the text held none itself; the text alone makes none then. */
  lemma NulComesOff(json: Bytes)
    ensures CString(WithNul(json)).Some?
    ensures CString(WithNul(json)) == Some(json) <==> NulFree(json)
    ensures NulFree(json) <==> CString(json) == None
  {
    var data := WithNul(json);
    assert data[|json|] == 0;
    var text := UpToNul(data);
    if NulFree(json) {
      assert forall i | 0 <= i < |json| :: data[i] == json[i] && json[i] in json;
      assert |text| == |json|;
      assert text == data[..|json|] == json;
    }
  }

  /** What the four bytes of a header say, most significant first, in two's complement. */
  lemma HeaderBytes(n: Int32)
    ensures var h := Header(n);
            var u: int := 0x100_0000 * h[0] as int + 0x1_0000 * h[1] as int + 0x100 * h[2] as int + h[3] as int;
            n == if u < 0x8000_0000 then u else u - 0x1_0000_0000
  {
    hide Digits, Value;
    var h := Header(n);
    LengthOfHeader(n, []);
    assert h + [] == h && h[..HEAD] == h;
    FourDigits(h);
  }

  lemma FourDigits(h: Bytes)
    requires |h| == 4
    ensures Value(h)
         == 0x100_0000 * h[0] as int + 0x1_0000 * h[1] as int + 0x100 * h[2] as int + h[3] as int
  {
    var a, b, c := h[..3], h[..2], h[..1];
    assert a[..2] == b && b[..1] == c && c[..0] == [];
    assert Value(c) == h[0] as int;
    assert Value(b) == 0x100 * Value(c) + h[1] as int;
    assert Value(a) == 0x100 * Value(b) + h[2] as int;
    assert Value(h) == 0x100 * Value(a) + h[3] as int;
  }
}
