/** Certificate pinning: hex-encode the digest, compare without regard to case. */
module Fingerprint {
  import opened Common

  const EVP_MAX_MD_SIZE: nat := 64

  /** A message digest algorithm and the size of its digests. */
  datatype Md = Md(name: string, size: nat)

  /** X509_digest of the peer's certificate: a digest for an algorithm, or failure. */
  type Cert = Md -> Option<seq<byte>>

  ghost predicate CertOk(cert: Cert) {
    forall md :: cert(md).Some? ==> |cert(md).value| == md.size && 1 <= md.size <= EVP_MAX_MD_SIZE
  }

  // ---------------------------------------------------------------- hexadecimal

  /** The character of %x for a nibble. */
  function HexDigit(n: int): byte
    requires 0 <= n < 16
  {
    if n < 10 then 48 + n else 87 + n
  }

  function HexEncode(d: seq<byte>): (h: seq<byte>)
    ensures |h| == 2 * |d|
  {
    if d == [] then [] else [HexDigit(d[0] / 16), HexDigit(d[0] % 16)] + HexEncode(d[1..])
  }

  /** The value of a hexadecimal digit of either case. */
  function HexValue(c: byte): Option<int> {
    if 48 <= c <= 57 then Some(c - 48)
    else if 97 <= c <= 102 then Some(c - 87)
    else if 65 <= c <= 70 then Some(c - 55)
    else None
  }

  /** The octets a hexadecimal string spells. */
  function HexDecode(h: seq<byte>): Option<seq<byte>> {
    if h == [] then Some([])
    else if |h| == 1 || HexValue(h[0]).None? || HexValue(h[1]).None? then None
    else match HexDecode(h[2..])
      case None => None
      case Some(rest) => Some([HexByte(h[0], h[1])] + rest)
  }

  function HexByte(hi: byte, lo: byte): byte
    requires HexValue(hi).Some? && HexValue(lo).Some?
  {
    16 * HexValue(hi).value + HexValue(lo).value
  }

  /** tolower */
  function Lower(c: byte): byte {
    if 65 <= c <= 90 then c + 32 else c
  }

  /** strcasecmp(a, b) == 0 on strings without NUL */
  predicate SameIgnoringCase(a: seq<byte>, b: seq<byte>) {
    |a| == |b| && forall i :: 0 <= i < |a| ==> Lower(a[i]) == Lower(b[i])
  }

  /** The C string at the start of s: what comes before the first NUL. */
  function CString(s: seq<byte>): (r: seq<byte>)
    ensures r <= s && 0 !in r && (|r| < |s| ==> s[|r|] == 0)
  {
    if s == [] || s[0] == 0 then [] else [s[0]] + CString(s[1..])
  }

  /** 0 to 9, a to f and A to F are the digits, and the first of two counts for sixteen. */
  lemma DigitsAre(c: byte, d: byte)
    ensures HexValue(c) == (if 48 <= c <= 57 then Some(c - 48) else if 97 <= c <= 102 then Some(c - 87)
                            else if 65 <= c <= 70 then Some(c - 55) else None)
    ensures HexDecode([]) == Some([])
    ensures HexValue(c).Some? && HexValue(d).Some? ==> HexDecode([c, d]) == Some([16 * HexValue(c).value + HexValue(d).value])
    ensures HexEncode([0xa5, 0x0f]) == [97, 53, 48, 102] && HexDecode([65, 53, 48, 102]) == Some([0xa5, 0x0f])
  {
    var octets: seq<byte> := [0xa5, 0x0f];
    assert octets[1..] == [0x0f] && octets[1..][1..] == [];
    assert HexEncode(octets[1..]) == [48, 102];
    var digits: seq<byte> := [65, 53, 48, 102];
    assert digits[2..] == [48, 102] && digits[2..][2..] == [];
    assert HexDecode(digits[2..][2..]) == Some([]) && [HexByte(48, 102)] + [] == [0x0f];
    assert HexDecode(digits[2..]) == Some([0x0f]);
    var pair := [c, d];
    assert pair[2..] == [] && HexDecode(pair[2..]) == Some([]);
    assert [HexByte(65, 53)] + [0x0f] == octets;
    assert HexValue(c).Some? && HexValue(d).Some? ==> [HexByte(c, d)] + [] == [HexByte(c, d)];
  }

  lemma DigitMatches(n: int, c: byte)
    requires 0 <= n < 16
    ensures Lower(HexDigit(n)) == Lower(c) <==> HexValue(c) == Some(n)
  {
  }

  /** A string equals the encoding, but for case, exactly when it spells the digest. */
  lemma {:induction false} MatchIffDecodes(d: seq<byte>, e: seq<byte>)
    ensures SameIgnoringCase(HexEncode(d), e) <==> HexDecode(e) == Some(d)
  {
    if d == [] {
    } else if |e| >= 2 {
      var h := HexEncode(d);
      assert h[0] == HexDigit(d[0] / 16) && h[1] == HexDigit(d[0] % 16) && h[2..] == HexEncode(d[1..]);
      DigitMatches(d[0] / 16, e[0]);
      DigitMatches(d[0] % 16, e[1]);
      MatchIffDecodes(d[1..], e[2..]);
      assert SameIgnoringCase(h, e) <==> Lower(h[0]) == Lower(e[0]) && Lower(h[1]) == Lower(e[1]) && SameIgnoringCase(h[2..], e[2..]) by {
        assert forall i :: 0 <= i < |h| - 2 ==> h[2..][i] == h[i + 2];
        assert |e| == |h| ==> forall i :: 0 <= i < |e| - 2 ==> e[2..][i] == e[i + 2];
        assert forall i :: 2 <= i < |h| ==> h[i] == h[2..][i - 2];
        assert |e| == |h| ==> forall i :: 2 <= i < |e| ==> e[i] == e[2..][i - 2];
      }
      assert HexDecode(e) == Some(d) <==>
        HexValue(e[0]) == Some(d[0] / 16) && HexValue(e[1]) == Some(d[0] % 16) && HexDecode(e[2..]) == Some(d[1..]) by {
        assert d == [d[0]] + d[1..];
        if HexValue(e[0]).Some? && HexValue(e[1]).Some? && HexDecode(e[2..]).Some? {
          assert HexDecode(e).value[0] == HexByte(e[0], e[1]) && HexDecode(e).value[1..] == HexDecode(e[2..]).value;
        }
      }
    }
  }

  lemma {:induction false} HexEncodeAppend(d: seq<byte>, b: byte)
    ensures HexEncode(d + [b]) == HexEncode(d) + [HexDigit(b / 16), HexDigit(b % 16)]
  {
    if d == [] {
      assert d + [b] == [b] && [b][1..] == [];
    } else {
      assert (d + [b])[1..] == d[1..] + [b];
      HexEncodeAppend(d[1..], b);
    }
  }

  lemma {:induction false} HexHasNoNul(d: seq<byte>)
    ensures 0 !in HexEncode(d)
  {
    if d != [] {
      HexHasNoNul(d[1..]);
    }
  }

  // ---------------------------------------------------------------- one digest

  /** php_quic_md_for_hexlen: the digest whose hexadecimal form has this length, from SHA-256 up. */
  function MdForHexlen(n: nat): (md: Option<Md>)
    ensures md.Some? <==> n == 64 || n == 96 || n == 128
    ensures md.Some? ==> 2 * md.value.size == n && md.value.size >= 32
    ensures n == 64 ==> md == Some(Md("SHA256", 32))
    ensures n == 96 ==> md == Some(Md("SHA384", 48))
    ensures n == 128 ==> md == Some(Md("SHA512", 64))
  {
    if n == 64 then Some(Md("SHA256", 32))
    else if n == 96 then Some(Md("SHA384", 48))
    else if n == 128 then Some(Md("SHA512", 64))
    else None
  }

  /** Whether a pin, read as a C string, spells the certificate's digest. */
  predicate Spells(cert: Cert, md: Md, pin: seq<byte>) {
    cert(md).Some? && HexDecode(CString(pin)) == cert(md)
  }

  /** snprintf(hex + at, 3, "%02x", b) */
  method PrintByte(hex: array<byte>, at: nat, b: byte)
    requires at + 3 <= hex.Length
    modifies hex
    ensures hex[..at] == old(hex[..at]) && hex[at] == HexDigit(b / 16) && hex[at + 1] == HexDigit(b % 16) && hex[at + 2] == 0
  {
    hex[at] := HexDigit(b / 16);
    hex[at + 1] := HexDigit(b % 16);
    hex[at + 2] := 0;
  }

  /** php_quic_fp_matches */
  method FpMatches(cert: Cert, md: Md, expected: seq<byte>) returns (matches: bool)
    requires CertOk(cert)
    ensures matches <==> Spells(cert, md, expected)
  {
    var d := cert(md);
    if d.None? {
      return false;
    }
    var digest := d.value;
    var hex := new byte[EVP_MAX_MD_SIZE * 2 + 1];
    assert digest[..0] == [];
    for i := 0 to |digest|
      invariant hex[..2 * i] == HexEncode(digest[..i])
      invariant i > 0 ==> hex[2 * i] == 0
    {
      ghost var sofar := hex[..2 * i];
      PrintByte(hex, 2 * i, digest[i]);
      assert digest[..i + 1] == digest[..i] + [digest[i]];
      HexEncodeAppend(digest[..i], digest[i]);
      assert hex[..2 * i + 2] == sofar + [hex[2 * i], hex[2 * i + 1]];
    }
    assert digest[..|digest|] == digest;
    var printed := CString(hex[..]);
    PrintedIsEncoding(hex[..], digest);
    MatchIffDecodes(digest, CString(expected));
    matches := SameIgnoringCase(printed, CString(expected));
  }

  /** The text printed up to its NUL is the encoding. */
  lemma PrintedIsEncoding(hex: seq<byte>, digest: seq<byte>)
    requires 2 * |digest| < |hex| && hex[..2 * |digest|] == HexEncode(digest) && hex[2 * |digest|] == 0
    ensures CString(hex) == HexEncode(digest)
  {
    HexHasNoNul(digest);
    var c := CString(hex);
    var n := 2 * |digest|;
    assert forall k :: 0 <= k < n ==> hex[k] == hex[..n][k];
    assert forall k :: 0 <= k < |c| ==> c[k] == hex[k];
    assert |c| == n;
  }

  // ---------------------------------------------------------------- the option

  /** An element of the array form; algo is None for an integer key, digest None for a non-string. */
  datatype Entry = Entry(algo: Option<string>, digest: Option<seq<byte>>)

  datatype Spec = Text(s: seq<byte>) | List(entries: seq<Entry>) | NeitherOne

  datatype PinError = NoCertificate | BadLength | Mismatch | NotAMap | UnknownAlgorithm | TooWeak | WrongType

  /** What is wrong with one element, in the order the code looks. */
  function EntryError(cert: Cert, known: string -> Option<Md>, e: Entry): Option<PinError> {
    if e.algo.None? || e.digest.None? then Some(NotAMap)
    else if known(e.algo.value).None? then Some(UnknownAlgorithm)
    else if known(e.algo.value).value.size < 32 then Some(TooWeak)
    else if !Spells(cert, known(e.algo.value).value, e.digest.value) then Some(Mismatch)
    else None
  }

  /** An element that names a known digest of at least 256 bits and spells it. */
  predicate EntryMatches(cert: Cert, known: string -> Option<Md>, e: Entry) {
    && e.algo.Some? && e.digest.Some?
    && known(e.algo.value).Some? && known(e.algo.value).value.size >= 32
    && Spells(cert, known(e.algo.value).value, e.digest.value)
  }

  /** Element i is the first that does not match, for the reason given. */
  ghost predicate FirstError(cert: Cert, known: string -> Option<Md>, entries: seq<Entry>, i: int, error: Option<PinError>) {
    && 0 <= i < |entries| && EntryError(cert, known, entries[i]) == error
    && forall j :: 0 <= j < i ==> EntryMatches(cert, known, entries[j])
  }

  /** What is said about an element: case by case, in the order the code looks. */
  lemma EntryErrors(cert: Cert, known: string -> Option<Md>, algo: string, md: Md, pin: seq<byte>)
    ensures EntryError(cert, known, Entry(None, Some(pin))) == Some(NotAMap)
    ensures EntryError(cert, known, Entry(Some(algo), None)) == EntryError(cert, known, Entry(None, None)) == Some(NotAMap)
    ensures known(algo) == None ==> EntryError(cert, known, Entry(Some(algo), Some(pin))) == Some(UnknownAlgorithm)
    ensures known(algo) == Some(md) && md.size < 32 ==> EntryError(cert, known, Entry(Some(algo), Some(pin))) == Some(TooWeak)
    ensures known(algo) == Some(md) && md.size >= 32 && (cert(md) == None || HexDecode(CString(pin)) != cert(md)) ==>
      EntryError(cert, known, Entry(Some(algo), Some(pin))) == Some(Mismatch)
    ensures known(algo) == Some(md) && md.size >= 32 && cert(md).Some? && HexDecode(CString(pin)) == cert(md) ==>
      EntryError(cert, known, Entry(Some(algo), Some(pin))) == None
  {
  }

  /** The string form pins the digest its length stands for; an embedded NUL never matches. */
  lemma TextAcceptedIff(cert: Cert, s: seq<byte>)
    requires CertOk(cert)
    ensures MdForHexlen(|s|).Some? ==>
      (Spells(cert, MdForHexlen(|s|).value, s) <==>
       cert(MdForHexlen(|s|).value).Some? && HexDecode(s) == cert(MdForHexlen(|s|).value))
  {
    if MdForHexlen(|s|).Some? && cert(MdForHexlen(|s|).value).Some? {
      var d := cert(MdForHexlen(|s|).value).value;
      MatchIffDecodes(d, CString(s));
      MatchIffDecodes(d, s);
      if CString(s) != s {
        HexHasNoNul(d);
        assert Lower(0) == 0 && s[|CString(s)|] == 0;
        assert SameIgnoringCase(HexEncode(d), s) ==> Lower(HexEncode(d)[|CString(s)|]) == 0;
        NotNul(d, |CString(s)|);
      }
    }
  }

  lemma {:induction false} NotNul(d: seq<byte>, i: nat)
    ensures i < 2 * |d| ==> Lower(HexEncode(d)[i]) != 0
  {
    if i < 2 * |d| && i >= 2 {
      NotNul(d[1..], i - 2);
      assert HexEncode(d)[i] == HexEncode(d[1..])[i - 2];
    }
  }

  /** A pin of the array form is judged as a whole: it is accepted exactly when all of it spells the digest. */
  ghost predicate JudgedWhole(cert: Cert, md: Md, pin: seq<byte>) {
    Spells(cert, md, pin) <==> cert(md).Some? && HexDecode(pin) == cert(md)
  }

  /** What decodes has no NUL. */
  lemma {:induction false} DecodableHasNoNul(h: seq<byte>)
    requires HexDecode(h).Some?
    ensures 0 !in h
  {
    if h != [] {
      DecodableHasNoNul(h[2..]);
      assert h == [h[0], h[1]] + h[2..];
    }
  }

  lemma {:induction false} NulFreeIsWhole(s: seq<byte>)
    requires 0 !in s
    ensures CString(s) == s
  {
    if s != [] {
      assert s == [s[0]] + s[1..];
      NulFreeIsWhole(s[1..]);
    }
  }

  /** A pin of the array form is compared up to its first NUL.  It is judged as a whole if and only if it
      has none, or what stands before the first one does not spell the digest. */
  lemma JudgedWholeIff(cert: Cert, md: Md, pin: seq<byte>)
    ensures JudgedWhole(cert, md, pin) <==> 0 !in pin || cert(md).None? || HexDecode(CString(pin)) != cert(md)
  {
    if 0 !in pin {
      NulFreeIsWhole(pin);
    } else if HexDecode(pin).Some? {
      DecodableHasNoNul(pin);
    }
  }

  /** Whatever the certificate is, that is so if and only if the pin has no NUL or what stands before the
      first one is not the hexadecimal form of any digest of the algorithm's size. */
  lemma AlwaysJudgedWholeIff(md: Md, pin: seq<byte>)
    requires 1 <= md.size <= EVP_MAX_MD_SIZE
    ensures (forall cert | CertOk(cert) :: JudgedWhole(cert, md, pin)) <==>
      0 !in pin || HexDecode(CString(pin)).None? || |HexDecode(CString(pin)).value| != md.size
  {
    forall cert | CertOk(cert) {
      JudgedWholeIff(cert, md, pin);
    }
    var d := HexDecode(CString(pin));
    if 0 in pin && d.Some? && |d.value| == md.size {
      var unlucky: Cert := m => if m == md then d else None;
      JudgedWholeIff(unlucky, md, pin);
      assert CertOk(unlucky) && !JudgedWhole(unlucky, md, pin);
    }
  }

  /** The encoding of the digest, a NUL and anything at all: accepted, though it does not spell the digest. */
  lemma NulHidesTheRest(cert: Cert, md: Md, rest: seq<byte>)
    requires cert(md).Some?
    ensures var pin := HexEncode(cert(md).value) + [0] + rest; Spells(cert, md, pin) && HexDecode(pin) != cert(md)
  {
    var d := cert(md).value;
    var pin := HexEncode(d) + [0] + rest;
    assert pin[..2 * |d|] == HexEncode(d);
    PrintedIsEncoding(pin, d);
    MatchIffDecodes(d, HexEncode(d));
    MatchIffDecodes(d, pin);
  }

  class PeerCertificate {
    var refs: nat
    const digests: Option<Cert>

    constructor (digests: Option<Cert>)
      ensures this.digests == digests && refs == 0
    {
      this.digests, refs := digests, 0;
    }

    /** php_quic_check_fingerprint */
    method CheckFingerprint(spec: Spec, known: string -> Option<Md>) returns (error: Option<PinError>)
      requires digests.Some? ==> CertOk(digests.value)
      modifies this
      ensures refs == old(refs)
      ensures digests.None? ==> error == Some(NoCertificate)
      ensures digests.Some? && spec.Text? ==>
        && (error == Some(BadLength) <==> MdForHexlen(|spec.s|).None?)
        && (error.None? <==> MdForHexlen(|spec.s|).Some? && HexDecode(spec.s).Some? && HexDecode(spec.s) == digests.value(MdForHexlen(|spec.s|).value))
        && (error.Some? ==> error.value == BadLength || error.value == Mismatch)
      ensures digests.Some? && spec.List? ==>
        && (error.None? <==> forall e :: e in spec.entries ==> EntryMatches(digests.value, known, e))
        && (error.Some? ==> exists i :: FirstError(digests.value, known, spec.entries, i, error))
      ensures digests.Some? && spec.NeitherOne? ==> error == Some(WrongType)
    {
      if digests.None? {
        return Some(NoCertificate);
      }
      refs := refs + 1;
      var cert := digests.value;
      match spec {
        case Text(s) =>
          TextAcceptedIff(cert, s);
          var md := MdForHexlen(|s|);
          if md.None? {
            error := Some(BadLength);
          } else {
            var ok := FpMatches(cert, md.value, s);
            error := if ok then None else Some(Mismatch);
          }
        case List(entries) =>
          error := None;
          var i := 0;
          while i < |entries| && error.None?
            invariant 0 <= i <= |entries| && refs == old(refs) + 1
            invariant error.None? ==> forall j :: 0 <= j < i ==> EntryMatches(cert, known, entries[j])
            invariant error.Some? ==> i < |entries| && EntryError(cert, known, entries[i]) == error
            invariant error.Some? ==> forall j :: 0 <= j < i ==> EntryMatches(cert, known, entries[j])
            decreases |entries| - i, error.None?
          {
            error := CheckEntry(cert, known, entries[i]);
            if error.None? {
              i := i + 1;
            }
          }
          assert error.Some? ==> entries[i] in entries && FirstError(cert, known, entries, i, error);
        case NeitherOne => error := Some(WrongType);
      }
      refs := refs - 1;
    }

    /** One turn of the loop over the array form. */
    static method CheckEntry(cert: Cert, known: string -> Option<Md>, e: Entry) returns (error: Option<PinError>)
      requires CertOk(cert)
      ensures error == EntryError(cert, known, e)
      ensures error.None? <==> EntryMatches(cert, known, e)
    {
      if e.algo.None? || e.digest.None? {
        return Some(NotAMap);
      }
      var md := known(e.algo.value);
      if md.None? {
        return Some(UnknownAlgorithm);
      }
      if md.value.size < 32 {
        return Some(TooWeak);
      }
      var ok := FpMatches(cert, md.value, e.digest.value);
      if !ok {
        return Some(Mismatch);
      }
      error := None;
    }
  }
}
