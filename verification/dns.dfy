/** The DNS messages of the doq-query client: building a name (section 3.1 of RFC 1035), skipping one
    (section 4.1.4) and walking the records of a response (section 4.1). */
module Dns {
  import opened Common
  import opened Bits

  const DOT: byte := 46

  /** The text "0". */
  const ZERO: seq<byte> := [48]

  // ---------------------------------------------------------------- names

  /** What array_filter keeps: every string but "" and "0". */
  predicate Kept(piece: seq<byte>) {
    piece != [] && piece != ZERO
  }

  function Filter(pieces: seq<seq<byte>>): (r: seq<seq<byte>>)
    ensures forall l :: l in r ==> Kept(l) && l in pieces
  {
    if pieces == [] then []
    else (if Kept(pieces[0]) then [pieces[0]] else []) + Filter(pieces[1..])
  }

  /** The labels that dns_name writes. */
  function Labels(name: seq<byte>): (r: seq<seq<byte>>)
    ensures forall l :: l in r ==> Kept(l)
  {
    Filter(Split(name, DOT))
  }

  /** chr(strlen($label)) . $label, for each label */
  function LabelBytes(labels: seq<seq<byte>>): seq<byte> {
    if labels == [] then [] else [|labels[0]| % 256] + labels[0] + LabelBytes(labels[1..])
  }

  /** A name of section 3.1 of RFC 1035, when every label has 1 to 63 octets. */
  function NameBytes(labels: seq<seq<byte>>): seq<byte> {
    LabelBytes(labels) + [0]
  }

  /** A label that the standard allows; a dot in it could not be written in the text of a name. */
  predicate LegalLabel(l: seq<byte>) {
    1 <= |l| <= 63 && DOT !in l
  }

  lemma {:induction false} LabelBytesAppend(ls: seq<seq<byte>>, l: seq<byte>)
    ensures LabelBytes(ls + [l]) == LabelBytes(ls) + ([|l| % 256] + l)
  {
    if ls == [] {
      assert ls + [l] == [l] && [l][1..] == [];
    } else {
      assert (ls + [l])[1..] == ls[1..] + [l];
      LabelBytesAppend(ls[1..], l);
    }
  }

  lemma {:induction false} FilterAppend(ps: seq<seq<byte>>, p: seq<byte>)
    ensures Filter(ps + [p]) == Filter(ps) + (if Kept(p) then [p] else [])
  {
    if ps == [] {
      assert ps + [p] == [p] && [p][1..] == [];
    } else {
      assert (ps + [p])[1..] == ps[1..] + [p];
      FilterAppend(ps[1..], p);
    }
  }

  /** dns_name */
  method DnsName(name: seq<byte>) returns (out: seq<byte>)
    ensures out == NameBytes(Labels(name))
  {
    var pieces := Split(name, DOT);
    out := [];
    assert pieces[..0] == [];
    for i := 0 to |pieces|
      invariant out == LabelBytes(Filter(pieces[..i]))
    {
      var piece := pieces[i];
      assert pieces[..i + 1] == pieces[..i] + [piece];
      FilterAppend(pieces[..i], piece);
      if Kept(piece) {
        LabelBytesAppend(Filter(pieces[..i]), piece);
        out := out + ([|piece| % 256] + piece);
      } else {
        assert Filter(pieces[..i]) + [] == Filter(pieces[..i]);
      }
    }
    assert pieces[..|pieces|] == pieces;
    out := out + [0];
  }

  /** Filtering keeps the encoding exactly when it drops nothing. */
  lemma {:induction false} FilterShortens(ls: seq<seq<byte>>)
    requires [] !in ls
    ensures ZERO !in ls ==> Filter(ls) == ls
    ensures |LabelBytes(Filter(ls))| <= |LabelBytes(ls)|
    ensures ZERO in ls ==> |LabelBytes(Filter(ls))| < |LabelBytes(ls)|
  {
    if ls != [] {
      assert ls == [ls[0]] + ls[1..];
      assert [] !in ls[1..] && (ZERO in ls <==> ls[0] == ZERO || ZERO in ls[1..]);
      FilterShortens(ls[1..]);
      FilterFirst(ls);
    }
  }

  lemma FilterFirst(ls: seq<seq<byte>>)
    requires ls != []
    ensures |LabelBytes(Filter(ls))| == (if Kept(ls[0]) then 1 + |ls[0]| else 0) + |LabelBytes(Filter(ls[1..]))|
  {
    var rest := Filter(ls[1..]);
    if Kept(ls[0]) {
      assert Filter(ls) == [ls[0]] + rest && ([ls[0]] + rest)[1..] == rest;
    } else {
      assert Filter(ls) == rest;
    }
  }

  /** The text of a domain name, with or without the final dot, is encoded as the standard says if and
      only if no label is "0". */
  lemma EncodedRightIff(ls: seq<seq<byte>>, finalDot: bool)
    requires ls != [] && forall l :: l in ls ==> LegalLabel(l)
    ensures NameBytes(Labels(Join(if finalDot then ls + [[]] else ls, DOT))) == NameBytes(ls) <==> ZERO !in ls
  {
    FilterShortens(ls);
    SplitJoin(ls, DOT);
    SplitJoin(ls + [[]], DOT);
    FilterAppend(ls, []);
    assert Filter(ls) + [] == Filter(ls);
    var kept := Labels(Join(if finalDot then ls + [[]] else ls, DOT));
    assert kept == Filter(ls);
    assert |NameBytes(kept)| == |LabelBytes(kept)| + 1;
  }

  /** The name "ab.c" on the wire. */
  lemma NameExample()
    ensures NameBytes(Labels([97, 98, 46, 99])) == [2, 97, 98, 1, 99, 0]
  {
    var a: seq<byte>, c: seq<byte> := [97, 98], [99];
    var ls := [a, c];
    LabelFirst(a, [c]);
    LabelFirst(c, []);
    hide LabelBytes, Filter;
    assert Join(ls, DOT) == [97, 98, 46, 99];
    SplitJoin(ls, DOT);
  }

  /** One label in front of others. */
  lemma LabelFirst(l: seq<byte>, ls: seq<seq<byte>>)
    requires |l| < 256 && l != [] && l != ZERO
    ensures Filter([l] + ls) == [l] + Filter(ls) && LabelBytes([l] + ls) == [|l|] + l + LabelBytes(ls)
    ensures Join([l], DOT) == l && (ls != [] ==> Join([l] + ls, DOT) == l + [DOT] + Join(ls, DOT))
  {
    assert ([l] + ls)[1..] == ls;
  }

  /** The name "0.a" is queried as "a". */
  lemma ZeroLabelIsLost()
    ensures NameBytes(Labels([48, 46, 97])) == NameBytes([[97]]) != NameBytes([ZERO, [97]])
  {
    var ls: seq<seq<byte>> := [ZERO, [97]];
    assert ls[1..] == [[97]] && Join(ls[1..], DOT) == [97];
    assert Join(ls, DOT) == [48, 46, 97];
    SplitJoin(ls, DOT);
    assert Filter(ls[1..]) == [[97]];
    assert Filter(ls) == Filter(ls[1..]);
    assert ls[0] in ls;
    EncodedRightIff(ls, false);
  }

  // ---------------------------------------------------------------- skipping

  /** Where dns_skip gets to; None when it runs off the end. */
  function SkipTo(msg: seq<byte>, off: nat): (r: Option<nat>)
    decreases |msg| - off
  {
    if off >= |msg| then None
    else if msg[off] == 0 then Some(off + 1)
    else if msg[off] >= 0xc0 then Some(off + 2)
    else SkipTo(msg, off + 1 + msg[off])
  }

  /** dns_skip */
  method DnsSkip(msg: seq<byte>, off: nat) returns (r: nat)
    requires SkipTo(msg, off).Some?
    ensures SkipTo(msg, off) == Some(r)
  {
    hide BitAnd;
    r := off;
    while r < |msg| && msg[r] != 0
      invariant SkipTo(msg, r) == SkipTo(msg, off)
      decreases |msg| - r
    {
      TopTwoBits(msg[r]);
      if BitAnd(msg[r], 0xc0) == 0xc0 {
        return r + 2;
      }
      r := r + 1 + msg[r];
    }
    r := r + 1;
  }

  /** A name on the wire, as section 4.1.4 has them: labels, and then a zero octet or a pointer. */
  datatype WireName = WireName(labels: seq<seq<byte>>, pointer: Option<nat>)

  predicate LegalName(n: WireName) {
    && (forall l :: l in n.labels ==> 1 <= |l| <= 63)
    && (n.pointer.Some? ==> n.pointer.value < 0x4000)
  }

  function Pack16(v: nat): seq<byte>
    requires v < 0x1_0000
  {
    [v / 256, v % 256]
  }

  /** unpack('n', ...) at o */
  function Unpack16(d: seq<byte>, o: nat): nat
    requires o + 2 <= |d|
  {
    d[o] as nat * 256 + d[o + 1]
  }

  function NameEnding(p: Option<nat>): seq<byte>
    requires p.Some? ==> p.value < 0x4000
  {
    if p.None? then [0] else Pack16(0xc000 + p.value)
  }

  function SerializeName(n: WireName): (r: seq<byte>)
    requires LegalName(n)
  {
    LabelBytes(n.labels) + NameEnding(n.pointer)
  }

  lemma HeadApart(s: seq<byte>, off: nat, head: byte, l: seq<byte>, rest: seq<byte>)
    requires off <= |s| && s[off..] == [head] + l + rest
    ensures var o := off + 1 + |l|; o <= |s| && s[off] == head && s[o..] == rest
  {
  }

  /** One label further. */
  lemma SkipLabel(msg: seq<byte>, off: nat, ls: seq<seq<byte>>, more: seq<byte>)
    requires ls != [] && 1 <= |ls[0]| < 192 && off <= |msg| && msg[off..] == LabelBytes(ls) + more
    ensures var o := off + 1 + |ls[0]|;
      o <= |msg| && SkipTo(msg, off) == SkipTo(msg, o) && msg[o..] == LabelBytes(ls[1..]) + more
  {
    hide SkipTo, LabelBytes;
    var l, rest := ls[0], LabelBytes(ls[1..]);
    FirstLabel(ls);
    assert [|l| as byte] + l + rest + more == [|l| as byte] + l + (rest + more);
    HeadApart(msg, off, |l|, l, rest + more);
    PlainLength(msg, off);
  }

  lemma PlainLength(msg: seq<byte>, off: nat)
    requires off < |msg| && 0 < msg[off] < 0xc0
    ensures SkipTo(msg, off) == SkipTo(msg, off + 1 + msg[off])
  {
  }

  lemma FirstLabel(ls: seq<seq<byte>>)
    requires ls != []
    ensures LabelBytes(ls) == [|ls[0]| % 256] + ls[0] + LabelBytes(ls[1..])
    ensures |LabelBytes(ls)| == 1 + |ls[0]| + |LabelBytes(ls[1..])|
  {
  }

  lemma EndingHead(msg: seq<byte>, off: nat, p: Option<nat>, rest: seq<byte>)
    requires (p.Some? ==> p.value < 0x4000) && off <= |msg| && msg[off..] == NameEnding(p) + rest
    ensures SkipTo(msg, off) == Some(off + |NameEnding(p)|)
  {
  }

  lemma NameParts(n: WireName, rest: seq<byte>)
    requires LegalName(n)
    ensures SerializeName(n) + rest == LabelBytes(n.labels) + (NameEnding(n.pointer) + rest)
  {
  }

  /** Whatever stands before and after it, a legal name is skipped exactly. */
  lemma {:induction false} SkipInvertsName(msg: seq<byte>, off: nat, n: WireName, rest: seq<byte>)
    requires LegalName(n) && off <= |msg| && msg[off..] == SerializeName(n) + rest
    ensures SkipTo(msg, off) == Some(off + |SerializeName(n)|)
    decreases |n.labels|
  {
    hide SkipTo, NameEnding;
    var e := NameEnding(n.pointer) + rest;
    NameParts(n, rest);
    if n.labels == [] {
      assert LabelBytes([]) + e == e;
      EndingHead(msg, off, n.pointer, rest);
    } else {
      SkipLabel(msg, off, n.labels, e);
      FirstLabel(n.labels);
      var n' := n.(labels := n.labels[1..]);
      NameParts(n', rest);
      SkipInvertsName(msg, off + 1 + |n.labels[0]|, n', rest);
    }
  }

  /** A label whose length octet wraps around to one that dns_skip takes for a plain length. */
  predicate Wraps(l: seq<byte>) {
    |l| >= 256 && 1 <= |l| % 256 < 0xc0
  }

  /** What dns_name builds is skipped exactly, in any context, if and only if no label reaches 192
      octets: the length octet of such a label reads as a pointer or as the end.  Labels of 64 to 191
      octets, though not legal, are skipped too. */
  lemma {:induction false} SkipLandsIff(msg: seq<byte>, off: nat, ls: seq<seq<byte>>, rest: seq<byte>)
    requires (forall l :: l in ls ==> 1 <= |l| && !Wraps(l)) && off <= |msg| && msg[off..] == NameBytes(ls) + rest
    ensures SkipTo(msg, off) == Some(off + |NameBytes(ls)|) <==> forall l :: l in ls ==> |l| < 192
    decreases |ls|
  {
    hide SkipTo, LabelBytes, NameBytes;
    NameBytesParts(ls, rest);
    if ls == [] {
      assert LabelBytes(ls) == [] by { NoLabels(); }
      assert [] + ([0] + rest) == NameEnding(None) + rest;
      EndingHead(msg, off, None, rest);
    } else {
      assert ls == [ls[0]] + ls[1..] && ls[0] in ls;
      FirstLabel(ls);
      NameBytesParts(ls[1..], rest);
      if |ls[0]| < 192 {
        SkipLabel(msg, off, ls, [0] + rest);
        SkipLandsIff(msg, off + 1 + |ls[0]|, ls[1..], rest);
      } else {
        assert msg[off] == msg[off..][0] == |ls[0]| % 256;
        StopsShort(msg, off);
      }
    }
  }

  lemma NameBytesParts(ls: seq<seq<byte>>, rest: seq<byte>)
    ensures NameBytes(ls) + rest == LabelBytes(ls) + ([0] + rest) && |NameBytes(ls)| == |LabelBytes(ls)| + 1
  {
  }

  lemma NoLabels()
    ensures LabelBytes([]) == []
  {
  }

  lemma StopsShort(msg: seq<byte>, off: nat)
    requires off < |msg| && (msg[off] == 0 || msg[off] >= 0xc0)
    ensures SkipTo(msg, off) == Some(off + 1) || SkipTo(msg, off) == Some(off + 2)
  {
  }

  /** dns_skip undoes dns_name. */
  lemma NameThenSkip(name: seq<byte>, before: seq<byte>, after: seq<byte>)
    requires forall l :: l in Labels(name) ==> !Wraps(l)
    ensures SkipTo(before + NameBytes(Labels(name)) + after, |before|) == Some(|before| + |NameBytes(Labels(name))|)
            <==> forall l :: l in Labels(name) ==> |l| < 192
  {
    hide SkipTo, NameBytes, Labels, Wraps;
    var ls := Labels(name);
    assert (before + NameBytes(ls) + after)[|before|..] == NameBytes(ls) + after;
    SkipLandsIff(before + NameBytes(ls) + after, |before|, ls, after);
  }

  /** With a label that wraps, no condition on lengths decides: of two labels of 257 octets one is
      skipped exactly and the other is not. */
  lemma WrappingGoesEitherWay() returns (lucky: seq<byte>, unlucky: seq<byte>)
    ensures |lucky| == |unlucky| == 257 && Wraps(lucky) && Wraps(unlucky)
    ensures SkipTo(NameBytes([lucky]), 0) == Some(|NameBytes([lucky])|)
    ensures SkipTo(NameBytes([unlucky]), 0) != Some(|NameBytes([unlucky])|)
  {
    lucky := seq(257, i => if i == 1 then 191 else if i == 193 then 63 else 97);
    unlucky := seq(257, i => 97);
    var m, n := NameBytes([lucky]), NameBytes([unlucky]);
    OneLabel(lucky);
    OneLabel(unlucky);
    assert m[0] == 1 && m[2] == 191 && m[194] == 63 && m[258] == 0 && |m| == 259;
    assert SkipTo(m, 0) == SkipTo(m, 2) == SkipTo(m, 194);
    assert SkipTo(m, 194) == SkipTo(m, 258) == Some(259);
    assert n[0] == 1 && n[2] == 97 && n[100] == 97 && n[198] == 97 && |n| == 259;
    assert SkipTo(n, 0) == SkipTo(n, 2) == SkipTo(n, 100);
    assert SkipTo(n, 100) == SkipTo(n, 198) == SkipTo(n, 296) == None;
  }

  lemma OneLabel(l: seq<byte>)
    ensures NameBytes([l]) == [|l| % 256] + l + [0]
  {
    var one := [l];
    assert one[1..] == [] && LabelBytes(one[1..]) == [];
    FirstLabel(one);
  }

  // ---------------------------------------------------------------- responses

  datatype Record = Record(name: WireName, kind: nat, class_: nat, ttlHigh: nat, ttlLow: nat, data: seq<byte>)

  /** A resource record; an A record (type 1) holds an address of four octets. */
  predicate LegalRecord(r: Record) {
    && LegalName(r.name) && r.kind < 0x1_0000 && r.class_ < 0x1_0000
    && r.ttlHigh < 0x1_0000 && r.ttlLow < 0x1_0000 && |r.data| < 0x1_0000
    && (r.kind == 1 ==> |r.data| == 4)
  }

  /** The ten octets between the name and the data. */
  function Fixed(r: Record): (s: seq<byte>)
    requires LegalRecord(r)
    ensures |s| == 10 && Unpack16(s, 0) == r.kind && Unpack16(s, 8) == |r.data|
  {
    Pack16(r.kind) + Pack16(r.class_) + (Pack16(r.ttlHigh) + Pack16(r.ttlLow)) + Pack16(|r.data|)
  }

  function SerializeRecord(r: Record): seq<byte>
    requires LegalRecord(r)
  {
    SerializeName(r.name) + Fixed(r) + r.data
  }

  function SerializeRecords(rs: seq<Record>): seq<byte>
    requires forall r :: r in rs ==> LegalRecord(r)
  {
    if rs == [] then [] else SerializeRecord(rs[0]) + SerializeRecords(rs[1..])
  }

  /** A record whose name points to octet 12, for an hour in class IN, as it is on the wire. */
  lemma RecordOctets(kind: nat, v: seq<byte>)
    requires kind < 256 && |v| < 256 && (kind == 1 ==> |v| == 4)
    ensures var r := Record(WireName([], Some(12)), kind, 1, 0, 3600, v);
      && LegalRecord(r)
      && SerializeRecord(r) == [192, 12, 0, kind as byte, 0, 1, 0, 0, 14, 16, 0, |v| as byte] + v
      && Addresses([r]) == if kind == 1 then [v] else []
  {
    PointerOctets();
    hide SerializeName, Fixed, Pack16, NameEnding, Addresses;
    var r := Record(WireName([], Some(12)), kind, 1, 0, 3600, v);
    FixedOctets(r, kind, |v|);
    OneAddress(r);
    hide LegalName;
  }

  lemma OneAddress(r: Record)
    ensures Addresses([r]) == if r.kind == 1 then [r.data] else []
  {
    assert [r][1..] == [];
  }

  lemma PointerOctets()
    ensures SerializeName(WireName([], Some(12))) == [192, 12]
  {
  }

  lemma FixedOctets(r: Record, kind: nat, n: nat)
    requires LegalRecord(r) && kind < 256 && n < 256
    requires r.kind == kind && r.class_ == 1 && r.ttlHigh == 0 && r.ttlLow == 3600 && |r.data| == n
    ensures Fixed(r) == [0, kind as byte, 0, 1, 0, 0, 14, 16, 0, n as byte]
  {
    assert Pack16(kind) == [0, kind as byte] && Pack16(1) == [0, 1] && Pack16(0) == [0, 0];
    assert Pack16(3600) == [14, 16] && Pack16(n) == [0, n as byte];
    hide Pack16;
  }

  /** A response with one question; rest is the authority and additional sections. */
  datatype Response = Response(header: seq<byte>, qname: WireName, question: seq<byte>, answers: seq<Record>, rest: seq<byte>)

  predicate LegalResponse(r: Response) {
    && |r.header| == 12 && LegalName(r.qname) && |r.question| == 4
    && (forall a :: a in r.answers ==> LegalRecord(a))
    && 256 * r.header[6] as nat + r.header[7] as nat == |r.answers|
  }

  function SerializeResponse(r: Response): seq<byte>
    requires LegalResponse(r)
  {
    r.header + (SerializeName(r.qname) + r.question + (SerializeRecords(r.answers) + r.rest))
  }

  /** Where each of the records starts, the first of them at off. */
  function Starts(rs: seq<Record>, off: nat): seq<nat>
    requires forall r :: r in rs ==> LegalRecord(r)
  {
    if rs == [] then [] else [off] + Starts(rs[1..], off + |SerializeRecord(rs[0])|)
  }

  /** The addresses of the A records, in order. */
  function Addresses(rs: seq<Record>): seq<seq<byte>> {
    if rs == [] then [] else (if rs[0].kind == 1 then [rs[0].data] else []) + Addresses(rs[1..])
  }

  /** The record at off: its fixed part, its data and what follows. */
  lemma RecordAt(msg: seq<byte>, off: nat, r: Record, rest: seq<byte>)
    requires LegalRecord(r) && off <= |msg| && msg[off..] == SerializeRecord(r) + rest
    ensures SkipTo(msg, off) == Some(off + |SerializeName(r.name)|)
    ensures var o := off + |SerializeName(r.name)|;
      && o + 10 + |r.data| == off + |SerializeRecord(r)| <= |msg|
      && Unpack16(msg, o) == r.kind && Unpack16(msg, o + 8) == |r.data|
      && msg[o + 10..o + 10 + |r.data|] == r.data
      && msg[o + 10 + |r.data|..] == rest
  {
    hide SkipTo, LegalName, LabelBytes, Fixed, NameEnding;
    var n, f := SerializeName(r.name), Fixed(r);
    assert msg[off..] == n + (f + r.data + rest);
    SkipInvertsName(msg, off, r.name, f + r.data + rest);
    Three(msg, off, n, f, r.data, rest);
    var o := off + |n|;
    assert msg[o] == msg[o..o + 10][0] && msg[o + 1] == msg[o..o + 10][1];
    assert msg[o + 8] == msg[o..o + 10][8] && msg[o + 9] == msg[o..o + 10][9];
  }

  lemma Three(s: seq<byte>, off: nat, a: seq<byte>, b: seq<byte>, c: seq<byte>, rest: seq<byte>)
    requires off <= |s| && s[off..] == a + (b + c + rest)
    ensures var i := off + |a|; var j := i + |b|; var k := j + |c|;
      k <= |s| && s[i..j] == b && s[j..k] == c && s[k..] == rest
  {
  }

  /** The first answer stands behind the question. */
  lemma AnswersAt(msg: seq<byte>, r: Response)
    requires LegalResponse(r) && msg == SerializeResponse(r)
    ensures |msg| >= 12 && Unpack16(msg, 6) == |r.answers| && Unpack16(msg, 2) == Unpack16(r.header, 2)
    ensures SkipTo(msg, 12) == Some(12 + |SerializeName(r.qname)|)
    ensures var o := 12 + |SerializeName(r.qname)| + 4;
      o <= |msg| && msg[o..] == SerializeRecords(r.answers) + r.rest
  {
    hide SkipTo, LegalName, SerializeName, SerializeRecords;
    var n, t := SerializeName(r.qname), SerializeRecords(r.answers) + r.rest;
    assert r.question + [] == r.question;
    var body := n + (r.question + [] + t);
    assert n + r.question + t == body;
    Behind(msg, r.header, body);
    SkipInvertsName(msg, 12, r.qname, r.question + [] + t);
    Three(msg, 12, n, r.question, [], t);
  }

  lemma Behind(s: seq<byte>, header: seq<byte>, body: seq<byte>)
    requires |header| == 12 && s == header + body
    ensures s[12..] == body && Unpack16(s, 6) == Unpack16(header, 6) && Unpack16(s, 2) == Unpack16(header, 2)
  {
  }

  /** off is the start of record i, and everything before it has been walked. */
  ghost predicate Walked(msg: seq<byte>, r: Response, i: nat, first: nat, off: nat, starts: seq<nat>, found: seq<seq<byte>>)
    requires LegalResponse(r)
  {
    && i <= |r.answers| && off <= |msg|
    && msg[off..] == SerializeRecords(r.answers[i..]) + r.rest
    && Starts(r.answers, first) == starts + Starts(r.answers[i..], off)
    && Addresses(r.answers) == found + Addresses(r.answers[i..])
  }

  lemma RecordsFirst(rs: seq<Record>, off: nat)
    requires rs != [] && forall r :: r in rs ==> LegalRecord(r)
    ensures SerializeRecords(rs) == SerializeRecord(rs[0]) + SerializeRecords(rs[1..])
    ensures Starts(rs, off) == [off] + Starts(rs[1..], off + |SerializeRecord(rs[0])|)
    ensures Addresses(rs) == (if rs[0].kind == 1 then [rs[0].data] else []) + Addresses(rs[1..])
  {
  }

  lemma WalkOne(msg: seq<byte>, r: Response, i: nat, first: nat, off: nat, starts: seq<nat>, found: seq<seq<byte>>)
    requires LegalResponse(r) && Walked(msg, r, i, first, off, starts, found) && i < |r.answers|
    ensures var a := r.answers[i];
      && LegalRecord(a) && off <= |msg| && msg[off..] == SerializeRecord(a) + (SerializeRecords(r.answers[i + 1..]) + r.rest)
      && Starts(r.answers, first) == starts + [off] + Starts(r.answers[i + 1..], off + |SerializeRecord(a)|)
      && Addresses(r.answers) == found + (if a.kind == 1 then [a.data] else []) + Addresses(r.answers[i + 1..])
  {
    hide SerializeRecord, LegalRecord, SerializeRecords, Starts, Addresses;
    var rest := r.answers[i..];
    assert rest[1..] == r.answers[i + 1..] && rest[0] == r.answers[i] && r.answers[i] in r.answers;
    RecordsFirst(rest, off);
    var a, more := SerializeRecord(rest[0]), SerializeRecords(rest[1..]);
    assert a + more + r.rest == a + (more + r.rest);
    var o, found1 := [off], if r.answers[i].kind == 1 then [r.answers[i].data] else [];
    assert starts + (o + Starts(rest[1..], off + |a|)) == starts + o + Starts(rest[1..], off + |a|);
    assert found + (found1 + Addresses(rest[1..])) == found + found1 + Addresses(rest[1..]);
  }

  lemma WalkNext(msg: seq<byte>, r: Response, i: nat, first: nat, off: nat, starts: seq<nat>, found: seq<seq<byte>>, next: nat)
    requires LegalResponse(r) && Walked(msg, r, i, first, off, starts, found) && i < |r.answers| && LegalRecord(r.answers[i])
    requires next == off + |SerializeRecord(r.answers[i])| <= |msg|
    requires msg[next..] == SerializeRecords(r.answers[i + 1..]) + r.rest
    ensures var a := r.answers[i];
      Walked(msg, r, i + 1, first, next, starts + [off], found + (if a.kind == 1 then [a.data] else []))
  {
    hide LegalRecord, SerializeRecord, SerializeRecords, Starts, Addresses;
    assert Walked(msg, r, i, first, off, starts, found);
    WalkOne(msg, r, i, first, off, starts, found);
    hide Walked;
    Ahead(msg, r, i + 1, first, next, starts + [off], found + (if r.answers[i].kind == 1 then [r.answers[i].data] else []));
  }

  lemma Ahead(msg: seq<byte>, r: Response, i: nat, first: nat, off: nat, starts: seq<nat>, found: seq<seq<byte>>)
    requires LegalResponse(r) && i <= |r.answers| && off <= |msg|
    requires msg[off..] == SerializeRecords(r.answers[i..]) + r.rest
    requires Starts(r.answers, first) == starts + Starts(r.answers[i..], off)
    requires Addresses(r.answers) == found + Addresses(r.answers[i..])
    ensures Walked(msg, r, i, first, off, starts, found)
  {
    hide LegalRecord, SerializeRecord, SerializeRecords, Starts, Addresses;
  }

  lemma WalkEnd(msg: seq<byte>, r: Response, first: nat, off: nat, starts: seq<nat>, found: seq<seq<byte>>)
    requires LegalResponse(r) && Walked(msg, r, |r.answers|, first, off, starts, found)
    ensures msg[off..] == r.rest && Starts(r.answers, first) == starts && Addresses(r.answers) == found
  {
    assert r.answers[|r.answers|..] == [];
  }

  /** From the reply of the resolver, a length of two octets and the message: the response code and the
      addresses.  starts is where the loop found a record. */
  method Answers(reply: seq<byte>, ghost r: Response) returns (rcode: nat, addresses: seq<seq<byte>>, ghost starts: seq<nat>)
    requires LegalResponse(r) && |reply| >= 2 && reply[2..] == SerializeResponse(r)
    ensures rcode == r.header[3] as nat % 16
    ensures addresses == Addresses(r.answers)
    ensures starts == Starts(r.answers, 12 + |SerializeName(r.qname)| + 4)
  {
    hide SerializeResponse, LegalRecord, SerializeRecord, SerializeName, Starts, Addresses, SkipTo, BitAnd, Unpack16, Walked;
    var resp := reply[2..];
    AnswersAt(resp, r);
    var flags, an := Unpack16(resp, 2), Unpack16(resp, 6);
    rcode := BitAnd(flags, 0x0f);
    LowNibble(flags);
    HeaderNumbers(r.header);
    var off: nat := DnsSkip(resp, 12);
    off := off + 4;
    ghost var first: nat := off;
    addresses, starts := [], [];
    WalkStart(resp, r, first);
    for i := 0 to an
      invariant an == |r.answers| && Walked(resp, r, i, first, off, starts, addresses)
    {
      WalkOne(resp, r, i, first, off, starts, addresses);
      ghost var rest := SerializeRecords(r.answers[i + 1..]) + r.rest;
      var next, found := Answer(resp, off, r.answers[i], rest);
      WalkNext(resp, r, i, first, off, starts, addresses, next);
      starts, addresses, off := starts + [off], addresses + found, next;
    }
    WalkEnd(resp, r, first, off, starts, addresses);
  }

  /** One turn of the answer loop: past the record at off, with its address if it is an A record. */
  method Answer(resp: seq<byte>, at: nat, ghost a: Record, ghost rest: seq<byte>) returns (off: nat, found: seq<seq<byte>>)
    requires LegalRecord(a) && at <= |resp| && resp[at..] == SerializeRecord(a) + rest
    ensures off == at + |SerializeRecord(a)| <= |resp| && resp[off..] == rest
    ensures found == if a.kind == 1 then [a.data] else []
  {
    hide LegalRecord, SerializeRecord, SerializeName, SkipTo;
    RecordAt(resp, at, a, rest);
    AddressIsFour(a);
    off := DnsSkip(resp, at);
    var kind, rdlen := Unpack16(resp, off), Unpack16(resp, off + 8);
    off := off + 10;
    found := [];
    if kind == 1 {
      found := [resp[off..off + 4]];
    }
    off := off + rdlen;
  }

  lemma AddressIsFour(a: Record)
    requires LegalRecord(a)
    ensures a.kind == 1 ==> |a.data| == 4
  {
  }

  lemma HeaderNumbers(h: seq<byte>)
    requires |h| == 12
    ensures Unpack16(h, 2) % 16 == h[3] as nat % 16 && Unpack16(h, 6) == 256 * h[6] as nat + h[7] as nat
  {
  }

  lemma LowNibble(flags: nat)
    ensures BitAnd(flags, 0x0f) == flags % 16
  {
    AndMask(flags, 4);
    assert Pow2(2) == 4 && Pow2(4) == 4 * Pow2(2);
  }

  lemma WalkStart(msg: seq<byte>, r: Response, first: nat)
    requires LegalResponse(r) && first <= |msg| && msg[first..] == SerializeRecords(r.answers) + r.rest
    ensures Walked(msg, r, 0, first, first, [], [])
  {
  }
}
