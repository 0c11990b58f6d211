/** The QUIC variable-length integers of section 16 of RFC 9000 and the HTTP/3 frame walk of section 7.1
    of RFC 9114, as the http3-get client reads them. */
module Http3 {
  import opened Common
  import opened Bits

  // ---------------------------------------------------------------- variable-length integers

  /** The two-bit length code of a width of 1, 2, 4 or 8 octets. */
  predicate IsWidth(w: nat) {
    w == 1 || w == 2 || w == 4 || w == 8
  }

  function WidthCode(w: nat): nat
    requires IsWidth(w)
  {
    if w == 1 then 0 else if w == 2 then 1 else if w == 4 then 2 else 3
  }

  /** The largest value of a width, plus one. */
  function Limit(w: nat): nat
    requires IsWidth(w)
  {
    if w == 1 then 0x40 else if w == 2 then 0x4000 else if w == 4 then 0x4000_0000 else 0x4000_0000_0000_0000
  }

  /** n octets, most significant first. */
  function BigEndian(v: nat, n: nat): (r: seq<byte>)
    ensures |r| == n
  {
    if n == 0 then [] else BigEndian(v / 256, n - 1) + [v % 256]
  }

  /** The number that octets spell, most significant first. */
  function Number(bs: seq<byte>): nat {
    if bs == [] then 0 else Number(bs[..|bs| - 1]) * 256 + bs[|bs| - 1]
  }

  lemma {:induction false} NumberOfBigEndian(v: nat, n: nat)
    ensures Number(BigEndian(v, n)) == v % Pow256(n)
  {
    if n > 0 {
      var r := BigEndian(v, n);
      assert r[..n - 1] == BigEndian(v / 256, n - 1) && r[n - 1] == v % 256;
      NumberOfBigEndian(v / 256, n - 1);
      DivModPow(v, Pow256(n - 1));
    } else {
      assert Pow256(0) == 1;
    }
  }

  function Pow256(n: nat): (p: nat)
    ensures p >= 1
  {
    if n == 0 then 1 else 256 * Pow256(n - 1)
  }

  lemma DivModPow(v: nat, p: nat)
    requires p >= 1
    ensures (v / 256) % p * 256 + v % 256 == v % (256 * p)
  {
    var q, m := v / 256 / p, (v / 256) % p;
    assert v == (q * p + m) * 256 + v % 256;
    assert v == q * (256 * p) + (m * 256 + v % 256);
    ModIs(v, 256 * p, q, m * 256 + v % 256);
  }

  lemma {:induction false} BigEndianHead(v: nat, n: nat)
    requires n > 0 && v < Pow256(n)
    ensures BigEndian(v, n)[0] == v / Pow256(n - 1)
  {
    assert Pow256(0) == 1;
    if n > 1 {
      assert v / 256 < Pow256(n - 1);
      BigEndianHead(v / 256, n - 1);
      DivDiv(v, 256, Pow256(n - 2));
    } else {
      assert v < 256 && BigEndian(v, 1) == BigEndian(v / 256, 0) + [v % 256];
    }
  }

  /** v in w octets: the length code goes into the top two bits of the first one. */
  function EncodeVarint(v: nat, w: nat): (r: seq<byte>)
    requires IsWidth(w) && v < Limit(w)
    ensures |r| == w
  {
    BigEndian(v + WidthCode(w) * Limit(w), w)
  }

  lemma Limits(w: nat)
    requires IsWidth(w)
    ensures Limit(w) == 64 * Pow256(w - 1) && Pow2(WidthCode(w)) == w
    ensures Pow256(w) == 4 * Limit(w)
  {
    assert Pow256(1) == 256 && Pow256(2) == 0x1_0000 && Pow256(3) == 0x100_0000;
    assert Pow256(4) == 0x1_0000_0000 && Pow256(5) == 0x100_0000_0000;
    assert Pow256(6) == 0x1_0000_0000_0000 && Pow256(7) == 0x100_0000_0000_0000;
    assert Pow2(2) == 4 && Pow2(3) == 8;
  }

  /** How many octets the integer at o takes. */
  function Width(d: seq<byte>, o: nat): (w: nat)
    requires o < |d|
    ensures IsWidth(w) && WidthCode(w) == d[o] / 64
  {
    if d[o] < 64 then 1 else if d[o] < 128 then 2 else if d[o] < 192 then 4 else 8
  }

  /** The integer at o is all there. */
  predicate Complete(d: seq<byte>, o: nat) {
    o < |d| && o + Width(d, o) <= |d|
  }

  /** The value at o: what its octets spell without the two top bits. */
  function Value(d: seq<byte>, o: nat): int
    requires Complete(d, o)
  {
    Number(d[o..o + Width(d, o)]) - WidthCode(Width(d, o)) * Limit(Width(d, o))
  }

  /** The first octet tells the width. */
  lemma HeadTellsWidth(v: nat, w: nat)
    requires IsWidth(w) && v < Limit(w)
    ensures EncodeVarint(v, w)[0] as int / 64 == WidthCode(w)
  {
    hide BigEndian, Pow256, Pow2, Limit;
    Limits(w);
    InRange(v, w);
    BigEndianHead(v + WidthCode(w) * Limit(w), w);
    TopDigits(v, WidthCode(w), Pow256(w - 1));
  }

  lemma TopDigits(v: nat, c: nat, p: nat)
    requires p > 0 && v < 64 * p
    ensures (v + c * (64 * p)) / p / 64 == c
  {
    var q, r := v / p, v % p;
    assert v == q * p + r;
    Magnitude(q - 64, p);
    assert q < 64;
    assert v + c * (64 * p) == (64 * c + q) * p + r;
    ModIs(v + c * (64 * p), p, 64 * c + q, r);
  }

  /** The value and its length code fit in the octets. */
  lemma InRange(v: nat, w: nat)
    requires IsWidth(w) && v < Limit(w)
    ensures WidthCode(w) * Limit(w) + v < Pow256(w)
  {
    hide Pow256;
    Limits(w);
  }

  /** Reading back an encoding, wherever it stands, gives the value and the width. */
  lemma VarintRoundTrip(d: seq<byte>, o: nat, v: nat, w: nat)
    requires IsWidth(w) && v < Limit(w) && o + w <= |d| && d[o..o + w] == EncodeVarint(v, w)
    ensures Complete(d, o) && Width(d, o) == w && Value(d, o) == v
  {
    hide BigEndian, Number, Pow256, Pow2, Limit;
    HeadTellsWidth(v, w);
    assert d[o] == d[o..o + w][0];
    SameCode(Width(d, o), w);
    NumberOfEncoding(v, w);
  }

  lemma SameCode(w: nat, w': nat)
    requires IsWidth(w) && IsWidth(w') && WidthCode(w) == WidthCode(w')
    ensures w == w'
  {
  }

  lemma NumberOfEncoding(v: nat, w: nat)
    requires IsWidth(w) && v < Limit(w)
    ensures Number(EncodeVarint(v, w)) == v + WidthCode(w) * Limit(w)
  {
    hide BigEndian, Number, Pow256, Pow2, Limit;
    InRange(v, w);
    NumberOfBigEndian(v + WidthCode(w) * Limit(w), w);
    Remainder(v + WidthCode(w) * Limit(w), Pow256(w));
  }

  lemma Remainder(x: nat, p: nat)
    requires x < p
    ensures x % p == x
  {
  }

  lemma PowersOf256(n: nat)
    requires n <= 7
    ensures Pow256(n) <= 0x100_0000_0000_0000 && (n <= 6 ==> Pow256(n) <= 0x1_0000_0000_0000)
  {
    assert Pow256(0) == 1 && Pow256(1) == 256 && Pow256(2) == 0x1_0000 && Pow256(3) == 0x100_0000;
    assert Pow256(4) == 0x1_0000_0000 && Pow256(5) == 0x100_0000_0000;
    assert Pow256(6) == 0x1_0000_0000_0000 && Pow256(7) == 0x100_0000_0000_0000;
  }

  /** v is what i octets from o spell, without the two top bits of the first. */
  ghost predicate Accumulated(d: seq<byte>, o: nat, i: nat, v: nat)
    requires 1 <= i && o + i <= |d|
  {
    v == Number(d[o..o + i]) - (d[o] as int / 64) * (64 * Pow256(i - 1)) && v < 64 * Pow256(i - 1)
  }

  lemma AccumulateFirst(d: seq<byte>, o: nat)
    requires o < |d|
    ensures Accumulated(d, o, 1, d[o] as int % 64)
  {
  }

  lemma EightBits()
    ensures Pow2(8) == 256
  {
    assert Pow2(2) == 4 && Pow2(4) == 4 * Pow2(2) && Pow2(6) == 4 * Pow2(4) && Pow2(8) == 4 * Pow2(6);
  }

  lemma ShiftOr(v: nat, b: byte)
    requires v < 64 * 0x1_0000_0000_0000
    ensures BitOr(Shl64(v, 8), b) == v * 256 + b
  {
    hide BitOr, Pow2;
    EightBits();
    Remainder(v * 256, 0x1_0000_0000_0000_0000);
    OrBelow(v, b, 8);
  }

  /** One more octet: shifting cannot overflow, and or adds. */
  lemma AccumulateNext(d: seq<byte>, o: nat, i: nat, v: nat)
    requires 1 <= i <= 7 && o + i < |d| && Accumulated(d, o, i, v)
    ensures BitOr(Shl64(v, 8), d[o + i]) == v * 256 + d[o + i]
    ensures Accumulated(d, o, i + 1, v * 256 + d[o + i])
  {
    hide BitOr, Shl64, Pow2;
    PowersOf256(i - 1);
    ShiftOr(v, d[o + i]);
    assert d[o..o + i + 1][..i] == d[o..o + i];
    Regroup(d[o] as int / 64, Pow256(i - 1));
  }

  lemma Regroup(c: int, p: int)
    ensures 256 * (c * (64 * p)) == c * (64 * (256 * p))
  {
  }

  /** $varint: the value at $_o, which is moved behind it.  No step leaves 62 bits. */
  method Varint(d: seq<byte>, o: nat) returns (v: nat, o': nat)
    requires Complete(d, o)
    ensures o' == o + Width(d, o) && v == Value(d, o) && v < 0x4000_0000_0000_0000
  {
    hide Accumulated, Number, BitOr, BitAnd, Pow2, Pow256;
    TopTwoBits(d[o]);
    var b: nat := d[o];
    FirstOctet(d, o);
    var n := Shl64(1, Shr(b, 6));
    v := BitAnd(b, 0x3f);
    AccumulateFirst(d, o);
    var i := 1;
    while i < n
      invariant 1 <= i <= n == Width(d, o) && Accumulated(d, o, i, v)
    {
      AccumulateNext(d, o, i, v);
      v := BitOr(Shl64(v, 8), d[o + i]);
      i := i + 1;
    }
    AccumulateLast(d, o, v);
    o' := o + n;
  }

  lemma FirstOctet(d: seq<byte>, o: nat)
    requires o < |d|
    ensures Shl64(1, d[o] as int / 64) == Width(d, o)
  {
    Limits(Width(d, o));
  }

  lemma AccumulateLast(d: seq<byte>, o: nat, v: nat)
    requires Complete(d, o) && Accumulated(d, o, Width(d, o), v)
    ensures v == Value(d, o) && v < 0x4000_0000_0000_0000
  {
    Limits(Width(d, o));
    PowersOf256(Width(d, o) - 1);
  }

  lemma OneMoreOctet(x: nat, q: nat, r: byte, bs: seq<byte>)
    requires x == 256 * q + r && BigEndian(q, |bs|) == bs
    ensures BigEndian(x, |bs + [r]|) == bs + [r]
  {
    assert x / 256 == q && x % 256 == r;
  }

  /** The examples of appendix A.1 of RFC 9000. */
  lemma EightOctetExample()
    ensures EncodeVarint(151288809941952652, 8) == [0xc2, 0x19, 0x7c, 0x5e, 0xff, 0x14, 0xe8, 0x8c]
  {
    hide BigEndian;
    NoOctets();
    OneMoreOctet(194, 0, 194, []);
    OneMoreOctet(49689, 194, 25, [0xc2]);
    OneMoreOctet(12720508, 49689, 124, [0xc2, 0x19]);
    OneMoreOctet(3256450142, 12720508, 94, [0xc2, 0x19, 0x7c]);
    OneMoreOctet(833651236607, 3256450142, 255, [0xc2, 0x19, 0x7c, 0x5e]);
    OneMoreOctet(213414716571412, 833651236607, 20, [0xc2, 0x19, 0x7c, 0x5e, 0xff]);
    OneMoreOctet(54634167442281704, 213414716571412, 232, [0xc2, 0x19, 0x7c, 0x5e, 0xff, 0x14]);
    OneMoreOctet(13986346865224116364, 54634167442281704, 140, [0xc2, 0x19, 0x7c, 0x5e, 0xff, 0x14, 0xe8]);
  }

  lemma FourOctetExample()
    ensures EncodeVarint(494878333, 4) == [0x9d, 0x7f, 0x3e, 0x7d] && Value([0x9d, 0x7f, 0x3e, 0x7d], 0) == 494878333
  {
    hide BigEndian, Number;
    NoOctets();
    OneMoreOctet(157, 0, 157, []);
    OneMoreOctet(40319, 157, 127, [0x9d]);
    OneMoreOctet(10321726, 40319, 62, [0x9d, 0x7f]);
    OneMoreOctet(2642361981, 10321726, 125, [0x9d, 0x7f, 0x3e]);
    var d: seq<byte> := [0x9d, 0x7f, 0x3e, 0x7d];
    assert d[0..4] == d;
    VarintRoundTrip(d, 0, 494878333, 4);
  }

  lemma ShortExamples()
    ensures EncodeVarint(15293, 2) == [0x7b, 0xbd] && Value([0x7b, 0xbd], 0) == 15293
    ensures EncodeVarint(37, 1) == [0x25] && EncodeVarint(37, 2) == [0x40, 0x25] && Value([0x25], 0) == 37
  {
    hide BigEndian, Number;
    NoOctets();
    OneMoreOctet(123, 0, 123, []);
    OneMoreOctet(31677, 123, 189, [0x7b]);
    OneMoreOctet(64, 0, 64, []);
    OneMoreOctet(16421, 64, 37, [0x40]);
    OneMoreOctet(37, 0, 37, []);
    var d: seq<byte> := [0x7b, 0xbd];
    var e: seq<byte> := [0x25];
    assert d[0..2] == d && e[0..1] == e;
    VarintRoundTrip(d, 0, 15293, 2);
    VarintRoundTrip(e, 0, 37, 1);
  }

  lemma NoOctets()
    ensures BigEndian(0, 0) == []
  {
  }

  // ---------------------------------------------------------------- frames

  /** An HTTP/3 frame, with the widths its sender chose for the two integers. */
  datatype H3Frame = H3Frame(kind: nat, kindWidth: nat, lengthWidth: nat, payload: seq<byte>)

  predicate Legal(f: H3Frame) {
    && IsWidth(f.kindWidth) && f.kind < Limit(f.kindWidth)
    && IsWidth(f.lengthWidth) && |f.payload| < Limit(f.lengthWidth)
  }

  function Serialize(f: H3Frame): (r: seq<byte>)
    requires Legal(f)
    ensures |r| > 0
  {
    EncodeVarint(f.kind, f.kindWidth) + EncodeVarint(|f.payload|, f.lengthWidth) + f.payload
  }

  function SerializeAll(fs: seq<H3Frame>): seq<byte>
    requires forall f :: f in fs ==> Legal(f)
  {
    if fs == [] then [] else Serialize(fs[0]) + SerializeAll(fs[1..])
  }

  /** The payloads of the DATA frames (type 0), in order. */
  function DataOf(fs: seq<H3Frame>): seq<byte> {
    if fs == [] then [] else (if fs[0].kind == 0 then fs[0].payload else []) + DataOf(fs[1..])
  }

  /** Short frames, octet by octet: type, length, payload; only those of type 0 carry the body. */
  lemma ShortFrame(kind: nat, p: seq<byte>, more: seq<H3Frame>)
    requires kind < 64 && |p| < 64
    ensures var f := H3Frame(kind, 1, 1, p);
      && Legal(f) && Serialize(f) == [kind as byte, |p| as byte] + p
      && (kind == 0 ==> DataOf([f] + more) == p + DataOf(more))
      && (kind != 0 ==> DataOf([f] + more) == DataOf(more))
  {
    OneOctet(kind);
    OneOctet(|p|);
    var f := H3Frame(kind, 1, 1, p);
    assert ([f] + more)[1..] == more;
  }

  lemma OneOctet(v: nat)
    requires v < 64
    ensures EncodeVarint(v, 1) == [v as byte]
  {
    assert BigEndian(v, 1) == BigEndian(v / 256, 0) + [v % 256];
  }

  lemma FourParts(s: seq<byte>, off: nat, a: seq<byte>, b: seq<byte>, c: seq<byte>, rest: seq<byte>)
    requires off <= |s| && s[off..] == a + b + c + rest
    ensures var i := off + |a|; var j := i + |b|; var k := j + |c|;
      k <= |s| && s[off..i] == a && s[i..j] == b && s[j..k] == c && s[k..] == rest
  {
  }

  /** The frame at off: where its payload is and what follows it. */
  lemma FrameAt(resp: seq<byte>, off: nat, f: H3Frame, rest: seq<byte>)
    requires Legal(f) && off <= |resp| && resp[off..] == Serialize(f) + rest
    ensures Complete(resp, off) && Width(resp, off) == f.kindWidth && Value(resp, off) == f.kind
    ensures var o2 := off + f.kindWidth;
      && Complete(resp, o2) && Width(resp, o2) == f.lengthWidth && Value(resp, o2) == |f.payload|
      && o2 + f.lengthWidth + |f.payload| <= |resp|
      && resp[o2 + f.lengthWidth..o2 + f.lengthWidth + |f.payload|] == f.payload
      && resp[o2 + f.lengthWidth + |f.payload|..] == rest
  {
    var t := EncodeVarint(f.kind, f.kindWidth);
    var l := EncodeVarint(|f.payload|, f.lengthWidth);
    var o2, o3 := off + |t|, off + |t| + |l|;
    FourParts(resp, off, t, l, f.payload, rest);
    VarintRoundTrip(resp, off, f.kind, f.kindWidth);
    VarintRoundTrip(resp, o2, |f.payload|, f.lengthWidth);
  }

  /** off stands in front of the k-th frame, and body is what the frames before it carry. */
  ghost predicate InFrontOf(resp: seq<byte>, frames: seq<H3Frame>, off: nat, k: nat, body: seq<byte>)
    requires forall f :: f in frames ==> Legal(f)
  {
    && k <= |frames| && off <= |resp|
    && resp[off..] == SerializeAll(frames[k..])
    && DataOf(frames) == body + DataOf(frames[k..])
  }

  lemma NextFrame(resp: seq<byte>, frames: seq<H3Frame>, off: nat, k: nat, body: seq<byte>)
    requires (forall f :: f in frames ==> Legal(f)) && InFrontOf(resp, frames, off, k, body) && off < |resp|
    ensures k < |frames|
    ensures var f := frames[k];
      && resp[off..] == Serialize(f) + SerializeAll(frames[k + 1..])
      && DataOf(frames) == body + (if f.kind == 0 then f.payload else []) + DataOf(frames[k + 1..])
  {
    hide Serialize, Legal;
    assert |SerializeAll(frames[k..])| > 0;
    FirstApart(frames[k..], frames[k], body);
    assert frames[k..][1..] == frames[k + 1..];
  }

  lemma FirstApart(fs: seq<H3Frame>, f: H3Frame, body: seq<byte>)
    requires (forall f :: f in fs ==> Legal(f)) && fs != [] && f == fs[0]
    ensures SerializeAll(fs) == Serialize(f) + SerializeAll(fs[1..])
    ensures body + DataOf(fs) == body + (if f.kind == 0 then f.payload else []) + DataOf(fs[1..])
  {
    hide Serialize, Legal;
  }

  lemma LastFrame(resp: seq<byte>, frames: seq<H3Frame>, k: nat, body: seq<byte>)
    requires (forall f :: f in frames ==> Legal(f)) && InFrontOf(resp, frames, |resp|, k, body)
    ensures body == DataOf(frames)
  {
    hide Serialize, Legal;
    assert |SerializeAll(frames[k..])| == 0;
    assert frames[k..] == [];
  }

  lemma WidthsArePositive(f: H3Frame)
    requires Legal(f)
    ensures f.kindWidth > 0 && f.lengthWidth > 0
  {
  }

  /** One turn of the loop: past the frame at off, with its payload if it is a DATA frame. */
  method ReadFrame(resp: seq<byte>, at: nat, ghost f: H3Frame, ghost rest: seq<byte>) returns (off: nat, data: seq<byte>)
    requires Legal(f) && at <= |resp| && resp[at..] == Serialize(f) + rest
    ensures at < off <= |resp| && resp[off..] == rest
    ensures data == if f.kind == 0 then f.payload else []
  {
    hide Value, Width, Serialize, Legal, Complete, Limit, IsWidth, WidthCode;
    FrameAt(resp, at, f, rest);
    WidthsArePositive(f);
    var kind, len;
    kind, off := Varint(resp, at);
    len, off := Varint(resp, off);
    data := [];
    if kind == 0 {
      data := resp[off..off + len];
    }
    off := off + len;
  }

  /** The frame loop: the body is the DATA payloads in order, every other frame is skipped whole, and
      the offset ends exactly at the end. */
  method CollectBody(resp: seq<byte>, ghost frames: seq<H3Frame>) returns (body: seq<byte>, off: nat)
    requires (forall f :: f in frames ==> Legal(f)) && resp == SerializeAll(frames)
    ensures body == DataOf(frames) && off == |resp|
  {
    hide Legal, Serialize, SerializeAll, DataOf;
    off, body := 0, [];
    ghost var k := 0;
    assert resp[0..] == resp && frames[0..] == frames;
    assert DataOf(frames) == [] + DataOf(frames);
    while off < |resp|
      invariant InFrontOf(resp, frames, off, k, body)
      decreases |resp| - off
    {
      NextFrame(resp, frames, off, k, body);
      var data;
      off, data := ReadFrame(resp, off, frames[k], SerializeAll(frames[k + 1..]));
      body := body + data;
      k := k + 1;
    }
    LastFrame(resp, frames, k, body);
  }
}
