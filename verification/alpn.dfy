/** ALPN: from the 'alpn' option to the wire list, and the server's choice on wire bytes. */
module Alpn {
  import opened Common

  const COMMA: byte := 44
  const SPACE: byte := 32
  const TAB: byte := 9

  /** The option as PHP gives it; array entries are taken after their conversion to string. */
  datatype Spec = Text(s: seq<byte>) | List(entries: seq<seq<byte>>) | NeitherOne

  datatype AlpnError = BadLength(n: nat) | EmptyText | EmptyList | WrongType

  // ---------------------------------------------------------------- the meaning of the string form

  predicate Blank(b: byte) {
    b == SPACE || b == TAB
  }

  function TrimLeft(s: seq<byte>): seq<byte> {
    if s != [] && Blank(s[0]) then TrimLeft(s[1..]) else s
  }

  function TrimRight(s: seq<byte>): seq<byte> {
    if s != [] && Blank(s[|s| - 1]) then TrimRight(s[..|s| - 1]) else s
  }

  /** Without the blanks at both ends. */
  function Trim(s: seq<byte>): seq<byte> {
    TrimRight(TrimLeft(s))
  }

  /** The trimmed fields that are not empty. */
  function NonEmpty(fs: seq<seq<byte>>): seq<seq<byte>> {
    if fs == [] then [] else (if Trim(fs[0]) != [] then [Trim(fs[0])] else []) + NonEmpty(fs[1..])
  }

  function Tokens(s: seq<byte>): seq<seq<byte>> {
    NonEmpty(Split(s, COMMA))
  }

  // ---------------------------------------------------------------- the wire list, section 3.1 of RFC 7301

  predicate LengthOk(p: seq<byte>) {
    1 <= |p| <= 255
  }

  function Frame(p: seq<byte>): seq<byte>
    requires LengthOk(p)
  {
    [|p|] + p
  }

  /** The wire list, or the first protocol that cannot be in one. */
  function EncodeList(ps: seq<seq<byte>>): Result<seq<byte>, AlpnError> {
    if ps == [] then Ok([])
    else if !LengthOk(ps[0]) then Err(BadLength(|ps[0]|))
    else match EncodeList(ps[1..]) case Ok(rest) => Ok(Frame(ps[0]) + rest) case Err(e) => Err(e)
  }

  function Encoded(spec: Spec): Result<seq<byte>, AlpnError> {
    match spec
    case Text(s) => if Tokens(s) == [] then Err(EmptyText) else EncodeList(Tokens(s))
    case List(ps) => if ps == [] then Err(EmptyList) else EncodeList(ps)
    case NeitherOne => Err(WrongType)
  }

  /** The protocols of a wire list, as far as it is well formed. */
  function Entries(w: seq<byte>): seq<seq<byte>>
    decreases |w|
  {
    if w == [] then [] else
    var n: nat := w[0];
    if |w| < 1 + n then [] else [w[1..1 + n]] + Entries(w[1 + n..])
  }

  /** Decoding gives back exactly the list that was encoded. */
  lemma {:induction false} EncodeRoundTrip(ps: seq<seq<byte>>)
    requires EncodeList(ps).Ok?
    ensures Entries(EncodeList(ps).value) == ps
  {
    if ps != [] {
      var w := EncodeList(ps).value;
      var rest := EncodeList(ps[1..]).value;
      EncodeRoundTrip(ps[1..]);
      assert w == [|ps[0]|] + ps[0] + rest;
      assert w[1..1 + |ps[0]|] == ps[0] && w[1 + |ps[0]|..] == rest;
    }
  }

  /** Encoding fails exactly on a protocol outside 1 to 255 bytes. */
  lemma {:induction false} EncodeFailsIff(ps: seq<seq<byte>>)
    ensures EncodeList(ps).Err? <==> exists p :: p in ps && (|p| == 0 || |p| > 255)
  {
    if ps != [] {
      EncodeFailsIff(ps[1..]);
      assert forall p :: p in ps <==> p == ps[0] || p in ps[1..];
    }
  }

  lemma {:induction false} NonEmptyTokens(fs: seq<seq<byte>>)
    ensures forall t :: t in NonEmpty(fs) ==> t != []
    ensures forall t :: t in NonEmpty(fs) ==> exists f :: f in fs && t == Trim(f)
  {
    if fs != [] {
      NonEmptyTokens(fs[1..]);
      assert fs[0] in fs && forall f :: f in fs[1..] ==> f in fs;
    }
  }

  /** The string form is the array form on its tokens; it fails exactly when there is none or one is
      longer than 255 bytes. */
  lemma TextIsListOfTokens(s: seq<byte>)
    ensures Tokens(s) != [] ==> Encoded(Text(s)) == Encoded(List(Tokens(s)))
    ensures Encoded(Text(s)).Err? <==> Tokens(s) == [] || exists t :: t in Tokens(s) && |t| > 255
    ensures Encoded(Text(s)).Ok? ==> Entries(Encoded(Text(s)).value) == Tokens(s)
  {
    EncodeFailsIff(Tokens(s));
    NonEmptyTokens(Split(s, COMMA));
    if Encoded(Text(s)).Ok? {
      EncodeRoundTrip(Tokens(s));
    }
  }

  // ---------------------------------------------------------------- the encoder

  lemma {:induction false} EncodeAppend(a: seq<seq<byte>>, b: seq<seq<byte>>)
    requires EncodeList(a).Ok?
    ensures EncodeList(a + b) == match EncodeList(b) case Ok(w) => Ok(EncodeList(a).value + w) case Err(e) => Err(e)
  {
    if a == [] {
      assert a + b == b;
      assert EncodeList(b).Ok? ==> [] + EncodeList(b).value == EncodeList(b).value;
    } else {
      assert (a + b)[1..] == a[1..] + b;
      EncodeAppend(a[1..], b);
      if EncodeList(b).Ok? {
        assert Frame(a[0]) + (EncodeList(a[1..]).value + EncodeList(b).value)
            == Frame(a[0]) + EncodeList(a[1..]).value + EncodeList(b).value;
      }
    }
  }

  /** A bad protocol after good ones decides the outcome, whatever follows it. */
  lemma BadStays(done: seq<seq<byte>>, proto: seq<byte>, more: seq<seq<byte>>)
    requires EncodeList(done).Ok? && !LengthOk(proto)
    ensures EncodeList(done + [proto] + more) == Err(BadLength(|proto|))
  {
    assert done + [proto] + more == done + ([proto] + more);
    EncodeAppend(done, [proto] + more);
  }

  /** php_quic_alpn_append */
  method Append(buf: seq<byte>, proto: seq<byte>, ghost done: seq<seq<byte>>) returns (r: Result<seq<byte>, AlpnError>)
    requires EncodeList(done) == Ok(buf)
    ensures r.Ok? <==> 1 <= |proto| <= 255
    ensures r.Ok? ==> r.value == buf + [|proto|] + proto
    ensures r == EncodeList(done + [proto])
  {
    EncodeAppend(done, [proto]);
    if |proto| == 0 || |proto| > 255 {
      BadStays(done, proto, []);
      assert done + [proto] + [] == done + [proto];
      return Err(BadLength(|proto|));
    }
    assert [proto][1..] == [];
    assert Frame(proto) + [] == Frame(proto);
    assert buf + Frame(proto) == buf + [|proto|] + proto;
    r := Ok(buf + [|proto|] + proto);
  }

  lemma {:induction false} TrimLeftSkips(s: seq<byte>, a: nat)
    requires a <= |s| && forall k :: 0 <= k < a ==> Blank(s[k])
    ensures TrimLeft(s) == TrimLeft(s[a..])
  {
    if a == 0 {
      assert s[0..] == s;
    } else {
      TrimLeftSkips(s[1..], a - 1);
      assert s[1..][a - 1..] == s[a..];
    }
  }

  lemma {:induction false} TrimRightSkips(s: seq<byte>, b: nat)
    requires b <= |s| && forall k :: b <= k < |s| ==> Blank(s[k])
    ensures TrimRight(s) == TrimRight(s[..b])
    decreases |s|
  {
    if b == |s| {
      assert s[..b] == s;
    } else {
      TrimRightSkips(s[..|s| - 1], b);
      assert s[..|s| - 1][..b] == s[..b];
    }
  }

  /** What is left between blanks that ends in no blank is the trimmed field. */
  lemma TrimBetween(s: seq<byte>, start: nat, a: nat, b: nat, end: nat)
    requires start <= a <= b <= end <= |s|
    requires forall k :: start <= k < a ==> Blank(s[k])
    requires forall k :: b <= k < end ==> Blank(s[k])
    requires a < b ==> !Blank(s[a]) && !Blank(s[b - 1])
    ensures s[a..b] == Trim(s[start..end])
  {
    var field := s[start..end];
    var left := if a < b then a else end;
    TrimLeftSkips(field, left - start);
    assert field[left - start..] == s[left..end];
    assert TrimLeft(s[left..end]) == s[left..end];
    if a < b {
      TrimRightSkips(s[a..end], b - a);
      assert s[a..end][..b - a] == s[a..b];
      assert TrimRight(s[a..b]) == s[a..b];
    } else {
      assert s[left..end] == [] == s[a..b];
    }
  }

  /** The two loops that move a and b over blanks. */
  method TrimField(s: seq<byte>, start: nat, end: nat) returns (a: nat, b: nat)
    requires start <= end <= |s|
    ensures start <= a <= b <= end && s[a..b] == Trim(s[start..end])
  {
    a, b := start, end;
    while a < b && Blank(s[a])
      invariant start <= a <= b == end
      invariant forall k :: start <= k < a ==> Blank(s[k])
    {
      a := a + 1;
    }
    while b > a && Blank(s[b - 1])
      invariant a <= b <= end && (a < b ==> !Blank(s[a]))
      invariant forall k :: b <= k < end ==> Blank(s[k])
    {
      b := b - 1;
    }
    TrimBetween(s, start, a, b, end);
  }

  // ---------------------------------------------------------------- what the text may look like

  /** No space or tab at either end, and no comma. */
  predicate IsClean(t: seq<byte>) {
    && t != [] && t[0] != 32 && t[0] != 9 && t[|t| - 1] != 32 && t[|t| - 1] != 9
    && 44 !in t
  }

  lemma {:induction false} TrimLeftIsSuffix(s: seq<byte>) returns (k: nat)
    ensures k <= |s| && TrimLeft(s) == s[k..] && (k < |s| ==> s[k] != 32 && s[k] != 9)
  {
    k := 0;
    if s != [] && Blank(s[0]) {
      var j := TrimLeftIsSuffix(s[1..]);
      k := j + 1;
      assert s[1..][j..] == s[k..];
    }
  }

  lemma {:induction false} TrimRightIsPrefix(s: seq<byte>) returns (k: nat)
    ensures k <= |s| && TrimRight(s) == s[..k] && (k > 0 ==> s[k - 1] != 32 && s[k - 1] != 9)
    decreases |s|
  {
    k := |s|;
    if s != [] && Blank(s[|s| - 1]) {
      k := TrimRightIsPrefix(s[..|s| - 1]);
      assert s[..|s| - 1][..k] == s[..k];
    }
  }

  /** A field without a comma trims to nothing or to a clean token. */
  lemma TrimIsClean(f: seq<byte>)
    requires 44 !in f && Trim(f) != []
    ensures IsClean(Trim(f))
  {
    var a := TrimLeftIsSuffix(f);
    var left := f[a..];
    var b := TrimRightIsPrefix(left);
    hide TrimLeft, TrimRight;
    var t := Trim(f);
    assert t == left[..b] && 0 < b <= |left|;
    assert t[0] == f[a] && t[b - 1] == left[b - 1];
    assert forall i :: 0 <= i < b ==> t[i] == f[a + i];
  }

  /** Whatever the text is, a token has no space or tab at either end and no comma inside. */
  lemma TokensAreClean(s: seq<byte>)
    ensures forall t :: t in Tokens(s) ==> IsClean(t)
  {
    NonEmptyTokens(Split(s, COMMA));
    JoinSplit(s, COMMA);
    hide Trim, IsClean, NonEmpty, Split, Join;
    forall t | t in Tokens(s)
      ensures IsClean(t)
    {
      var f :| f in Split(s, COMMA) && t == Trim(f);
      TrimIsClean(f);
    }
  }

  /** A field of the text: a token, or none, between spaces and tabs. */
  datatype Padded = Padded(left: seq<byte>, token: seq<byte>, right: seq<byte>)

  predicate ProperlyPadded(p: Padded) {
    && (forall b :: b in p.left + p.right ==> b == 32 || b == 9)
    && (p.token == [] || IsClean(p.token))
  }

  function PaddedText(p: Padded): seq<byte> {
    p.left + p.token + p.right
  }

  function Texts(ps: seq<Padded>): (r: seq<seq<byte>>)
    ensures |r| == |ps| && forall i :: 0 <= i < |ps| ==> r[i] == PaddedText(ps[i])
  {
    if ps == [] then [] else [PaddedText(ps[0])] + Texts(ps[1..])
  }

  function PaddedTokens(ps: seq<Padded>): seq<seq<byte>> {
    if ps == [] then [] else (if ps[0].token != [] then [ps[0].token] else []) + PaddedTokens(ps[1..])
  }

  lemma PaddedHasNoComma(p: Padded)
    requires ProperlyPadded(p)
    ensures 44 !in PaddedText(p)
  {
    var s := PaddedText(p);
    assert forall b :: b in p.left || b in p.right ==> b in p.left + p.right;
    assert forall b :: b in s <==> b in p.left || b in p.token || b in p.right;
  }

  lemma PadsAreBlank(p: Padded)
    requires ProperlyPadded(p)
    ensures var s, a, b := PaddedText(p), |p.left|, |p.left| + |p.token|;
      && s[a..b] == p.token && s[0..|s|] == s
      && (forall k :: 0 <= k < a ==> Blank(s[k])) && (forall k :: b <= k < |s| ==> Blank(s[k]))
  {
    var s, a, b := PaddedText(p), |p.left|, |p.left| + |p.token|;
    assert forall k :: 0 <= k < a ==> s[k] == p.left[k] && p.left[k] in p.left + p.right;
    assert forall k :: b <= k < |s| ==> s[k] == p.right[k - b] && p.right[k - b] in p.left + p.right;
  }

  lemma TrimPadded(p: Padded)
    requires ProperlyPadded(p)
    ensures Trim(PaddedText(p)) == p.token && 44 !in PaddedText(p)
  {
    PaddedHasNoComma(p);
    PadsAreBlank(p);
    var s, a, b := PaddedText(p), |p.left|, |p.left| + |p.token|;
    hide Trim, PaddedText;
    if p.token == [] {
      TrimBetween(s, 0, |s|, |s|, |s|);
    } else {
      assert s[a] == p.token[0] && s[b - 1] == p.token[|p.token| - 1];
      TrimBetween(s, 0, a, b, |s|);
    }
  }

  lemma {:induction false} NonEmptyPadded(ps: seq<Padded>)
    requires forall p :: p in ps ==> ProperlyPadded(p)
    ensures NonEmpty(Texts(ps)) == PaddedTokens(ps)
  {
    if ps != [] {
      assert ps[0] in ps && Texts(ps)[1..] == Texts(ps[1..]);
      TrimPadded(ps[0]);
      NonEmptyPadded(ps[1..]);
    }
  }

  /** Tokens with any runs of spaces and tabs around them, joined by commas, and any fields without a token in
      between, are read as exactly those tokens; what is sent decodes to them. */
  lemma PaddedTokensAreRead(ps: seq<Padded>)
    requires ps != [] && forall p :: p in ps ==> ProperlyPadded(p)
    ensures var s := Join(Texts(ps), 44);
      && Tokens(s) == PaddedTokens(ps)
      && (Encoded(Text(s)).Ok? ==> Entries(Encoded(Text(s)).value) == PaddedTokens(ps))
      && (Encoded(Text(s)).Ok? <==> PaddedTokens(ps) != [] && forall t :: t in PaddedTokens(ps) ==> |t| <= 255)
  {
    var fields := Texts(ps);
    forall f | f in fields
      ensures 44 !in f
    {
      var i :| 0 <= i < |fields| && fields[i] == f;
      assert ps[i] in ps;
      TrimPadded(ps[i]);
    }
    SplitJoin(fields, COMMA);
    NonEmptyPadded(ps);
    TextIsListOfTokens(Join(fields, 44));
  }

  /** The wire list, octet by octet: a length and that many octets, for each protocol. */
  lemma WireFormat(p: seq<byte>, ps: seq<seq<byte>>, w: seq<byte>)
    requires 1 <= |p| <= 255
    ensures EncodeList([]) == Ok([]) && Entries([]) == []
    ensures EncodeList(ps).Ok? ==> EncodeList([p] + ps) == Ok([|p| as byte] + p + EncodeList(ps).value)
    ensures Entries([|p| as byte] + p + w) == [p] + Entries(w)
  {
    assert ([p] + ps)[1..] == ps;
    var v := [|p| as byte] + p + w;
    assert v[1..1 + |p|] == p && v[1 + |p|..] == w;
  }

  /** What the option may not be, and what is said about it. */
  lemma Refused(good: seq<seq<byte>>, bad: seq<byte>, more: seq<seq<byte>>)
    requires (forall p :: p in good ==> 1 <= |p| <= 255) && (|bad| == 0 || |bad| > 255)
    ensures Encoded(List([])) == Err(EmptyList) && Encoded(NeitherOne) == Err(WrongType)
    ensures Encoded(List(good + [bad] + more)) == Err(BadLength(|bad|))
    ensures forall s :: Tokens(s) == [] ==> Encoded(Text(s)) == Err(EmptyText)
  {
    EncodeFailsIff(good);
    BadStays(good, bad, more);
  }

  /** The tokenizer loop: done is what it has appended so far. */
  method FromText(s: seq<byte>) returns (r: Result<seq<byte>, AlpnError>)
    ensures r == Encoded(Text(s))
    ensures r.Ok? ==> forall t :: t in Entries(r.value) ==> IsClean(t)
  {
    EntriesAreClean(s);
    hide Encoded, EncodeList, Tokens, Trim, IsClean, Entries;
    NothingEncoded();
    var buf: seq<byte> := [];
    var count, start, i := 0, 0, 0;
    ghost var done: seq<seq<byte>> := [];
    assert s[0..] == s;
    while i <= |s|
      invariant 0 <= start <= i <= |s| + 1 && (start == |s| + 1 <==> i == |s| + 1)
      invariant start <= |s| ==> COMMA !in s[start..i]
      invariant EncodeList(done) == Ok(buf) && count == |done|
      invariant Tokens(s) == done + (if start <= |s| then Tokens(s[start..]) else [])
    {
      if i == |s| || s[i] == COMMA {
        var a, b := TrimField(s, start, i);
        NextField(s, start, i);
        ghost var rest := if i < |s| then Tokens(s[i + 1..]) else [];
        if b > a {
          var tok := s[a..b];
          var next := Append(buf, tok, done);
          assert Tokens(s) == done + [tok] + rest;
          if next.Err? {
            StopsAt(s, done, tok, rest);
            return next;
          }
          buf, done := next.value, done + [tok];
          count := count + 1;
        } else {
          assert Tokens(s) == done + rest;
        }
        start := i + 1;
      } else {
        assert s[start..i + 1] == s[start..i] + [s[i]];
      }
      i := i + 1;
    }
    assert done == Tokens(s);
    Finishes(s);
    if count == 0 {
      return Err(EmptyText);
    }
    r := Ok(buf);
  }

  lemma EntriesAreClean(s: seq<byte>)
    ensures Encoded(Text(s)).Ok? ==> forall t :: t in Entries(Encoded(Text(s)).value) ==> IsClean(t)
  {
    TokensAreClean(s);
    TextIsListOfTokens(s);
  }

  /** The first bad token decides the outcome; the encoder says so of what it was given. */
  lemma StopsAt(s: seq<byte>, done: seq<seq<byte>>, tok: seq<byte>, rest: seq<seq<byte>>)
    requires Tokens(s) == done + [tok] + rest && EncodeList(done).Ok? && EncodeList(done + [tok]).Err?
    ensures Encoded(Text(s)) == EncodeList(done + [tok])
  {
    EncodeAppend(done, [tok]);
    BadStays(done, tok, rest);
    BadStays(done, tok, []);
    assert done + [tok] + [] == done + [tok];
  }

  lemma Finishes(s: seq<byte>)
    ensures Encoded(Text(s)) == if Tokens(s) == [] then Err(EmptyText) else EncodeList(Tokens(s))
  {
  }

  lemma NothingEncoded()
    ensures EncodeList([]) == Ok([])
  {
  }

  /** The field that ends at i is the next token, unless it is blank. */
  lemma NextField(s: seq<byte>, start: nat, i: nat)
    requires start <= i <= |s| && COMMA !in s[start..i] && (i < |s| ==> s[i] == COMMA)
    ensures var t := Trim(s[start..i]);
      Tokens(s[start..]) == (if t != [] then [t] else []) + (if i < |s| then Tokens(s[i + 1..]) else [])
  {
    var field, rest := s[start..i], s[start..];
    if i < |s| {
      assert rest == field + [COMMA] + s[i + 1..];
      SplitPiece(field, s[i + 1..], COMMA);
      assert Split(rest, COMMA)[1..] == Split(s[i + 1..], COMMA);
    } else {
      assert rest == field;
      SplitFree(field, COMMA);
      var last := [field];
      assert last[1..] == [] && NonEmpty(last[1..]) == [];
    }
  }

  /** php_quic_alpn_from_zval */
  method FromZval(spec: Spec) returns (r: Result<seq<byte>, AlpnError>)
    ensures r == Encoded(spec)
  {
    match spec {
      case Text(s) => r := FromText(s);
      case List(entries) =>
        if |entries| == 0 {
          return Err(EmptyList);
        }
        var buf: seq<byte> := [];
        assert entries[..0] == [];
        for i := 0 to |entries|
          invariant EncodeList(entries[..i]) == Ok(buf)
        {
          var next := Append(buf, entries[i], entries[..i]);
          assert entries[..i + 1] == entries[..i] + [entries[i]];
          assert entries == entries[..i] + [entries[i]] + entries[i + 1..];
          if next.Err? {
            BadStays(entries[..i], entries[i], entries[i + 1..]);
            BadStays(entries[..i], entries[i], []);
            assert entries[..i] + [entries[i]] + [] == entries[..i] + [entries[i]];
            return next;
          }
          buf := next.value;
        }
        assert entries[..|entries|] == entries;
        r := Ok(buf);
      case NeitherOne => r := Err(WrongType);
    }
  }

  // ---------------------------------------------------------------- the server's choice, section 3.2 of RFC 7301

  /** Position i of ours is the first that is among theirs. */
  ghost predicate FirstAt(ours: seq<seq<byte>>, theirs: seq<seq<byte>>, i: int) {
    0 <= i < |ours| && ours[i] in theirs && forall j :: 0 <= j < i ==> ours[j] !in theirs
  }

  /** The first of ours that is among theirs. */
  function FirstCommon(ours: seq<seq<byte>>, theirs: seq<seq<byte>>): (p: Option<seq<byte>>)
    ensures p.None? <==> forall q :: q in ours ==> q !in theirs
    ensures p.Some? ==> p.value in theirs && exists i :: FirstAt(ours, theirs, i) && ours[i] == p.value
  {
    if ours == [] then None
    else if ours[0] in theirs then Some(ours[0])
    else
      var p := FirstCommon(ours[1..], theirs);
      assert forall q :: q in ours <==> q == ours[0] || q in ours[1..];
      assert p.Some? ==> exists i :: FirstAt(ours, theirs, i) && ours[i] == p.value by {
        if p.Some? {
          var i :| FirstAt(ours[1..], theirs, i) && ours[1..][i] == p.value;
          assert forall j :: 1 <= j < i + 1 ==> ours[j] == ours[1..][j - 1];
          assert ours[i + 1] == ours[1..][i];
          assert FirstAt(ours, theirs, i + 1);
        }
      }
      p
  }

  datatype Selection = Negotiated(proto: seq<byte>) | NoOverlap

  /** SSL_select_next_proto, the engine's selector, on two wire lists: the outer index walks our
      protocols in order, the inner one theirs. */
  method SelectNextProto(server: seq<byte>, client: seq<byte>) returns (r: Selection)
    ensures r == (match FirstCommon(Entries(server), Entries(client)) case Some(p) => Negotiated(p) case None => NoOverlap)
  {
    var i := 0;
    assert server[0..] == server;
    while i < |server|
      invariant 0 <= i <= |server|
      invariant FirstCommon(Entries(server), Entries(client)) == FirstCommon(Entries(server[i..]), Entries(client))
    {
      var n: nat := server[i];
      if |server| < i + 1 + n {
        break;
      }
      EntryAt(server, i);
      var ours := server[i + 1..i + 1 + n];
      var found := Offers(client, ours);
      if found {
        return Negotiated(ours);
      }
      i := i + 1 + n;
    }
    r := NoOverlap;
  }

  /** The inner loop: whether a wire list has a protocol. */
  method Offers(client: seq<byte>, proto: seq<byte>) returns (found: bool)
    ensures found <==> proto in Entries(client)
  {
    hide Entries;
    var j := 0;
    assert client[0..] == client;
    while j < |client|
      invariant 0 <= j <= |client|
      invariant proto in Entries(client) <==> proto in Entries(client[j..])
    {
      var n: nat := client[j];
      if |client| < j + 1 + n {
        NoEntryAt(client, j);
        return false;
      }
      EntryAt(client, j);
      var theirs := client[j + 1..j + 1 + n];
      if theirs == proto {
        return true;
      }
      j := j + 1 + n;
    }
    NoEntryAt(client, j);
    found := false;
  }

  lemma NoEntryAt(w: seq<byte>, i: nat)
    requires i <= |w| && (i < |w| ==> i + 1 + w[i] as nat > |w|)
    ensures Entries(w[i..]) == []
  {
  }

  lemma EntryAt(w: seq<byte>, i: nat)
    requires i < |w| && i + 1 + w[i] as nat <= |w|
    ensures var n := w[i] as nat; Entries(w[i..]) == [w[i + 1..i + 1 + n]] + Entries(w[i + 1 + n..])
  {
    var n: nat := w[i];
    var v := w[i..];
    assert v[1..1 + n] == w[i + 1..i + 1 + n] && v[1 + n..] == w[i + 1 + n..];
  }

  datatype CallbackResult = SslOk(proto: seq<byte>) | AlertFatal

  /** quic_alpn_select_cb with the listener's list as its argument and the client's offer as in. */
  method SelectCallback(alpn: seq<byte>, offer: seq<byte>) returns (r: CallbackResult)
    ensures r == (match FirstCommon(Entries(alpn), Entries(offer)) case Some(p) => SslOk(p) case None => AlertFatal)
  {
    var selection := SelectNextProto(alpn, offer);
    if selection == NoOverlap {
      return AlertFatal;
    }
    r := SslOk(selection.proto);
  }

  /** The protocols an option stands for. */
  function Protocols(spec: Spec): seq<seq<byte>> {
    match spec case Text(s) => Tokens(s) case List(ps) => ps case NeitherOne => []
  }

  /** Both ends encode their options, the callback works on the bytes: the outcome is the server's
      first protocol that the client offers too, and the alert exactly when there is none. */
  method Negotiate(server: Spec, client: Spec) returns (r: CallbackResult)
    requires Encoded(server).Ok? && Encoded(client).Ok?
    ensures r == (match FirstCommon(Protocols(server), Protocols(client)) case Some(p) => SslOk(p) case None => AlertFatal)
    ensures r == AlertFatal <==> forall p :: p in Protocols(server) ==> p !in Protocols(client)
  {
    var ours := FromZval(server);
    var theirs := FromZval(client);
    EncodeRoundTrip(Protocols(server));
    EncodeRoundTrip(Protocols(client));
    r := SelectCallback(ours.value, theirs.value);
  }
}
