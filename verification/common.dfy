/** Failure-carrying results and small facts about sequences, shared by the other modules. */
module Common {

  datatype Option<+T> = None | Some(value: T)

  datatype Result<+T, +E> = Ok(value: T) | Err(error: E)

  /** An octet. */
  type byte = b: int | 0 <= b < 256

  /** No element occurs twice. */
  predicate Distinct<T(==)>(s: seq<T>) {
    forall i, j :: 0 <= i < j < |s| ==> s[i] != s[j]
  }

  function Min(a: int, b: int): (m: int) {
    if a <= b then a else b
  }

  function Max(a: int, b: int): (m: int) {
    if a <= b then b else a
  }

  function Pow2(n: nat): (p: nat)
    ensures p >= 1
  {
    if n == 0 then 1 else 2 * Pow2(n - 1)
  }

  // ---------------------------------------------------------------- splitting at a separator

  /** The pieces between separators, one more than there are separators. */
  function Split(s: seq<byte>, sep: byte): (r: seq<seq<byte>>)
    ensures r != []
  {
    if s == [] then [[]]
    else
      var rest := Split(s[1..], sep);
      if s[0] == sep then [[]] + rest else [[s[0]] + rest[0]] + rest[1..]
  }

  /** The pieces with separators between them. */
  function Join(pieces: seq<seq<byte>>, sep: byte): seq<byte>
    requires pieces != []
  {
    if |pieces| == 1 then pieces[0] else pieces[0] + [sep] + Join(pieces[1..], sep)
  }

  lemma {:induction false} SplitFree(p: seq<byte>, sep: byte)
    requires sep !in p
    ensures Split(p, sep) == [p]
  {
    if p != [] {
      SplitFree(p[1..], sep);
      assert p == [p[0]] + p[1..];
    }
  }

  /** The first piece and the rest. */
  lemma {:induction false} SplitPiece(p: seq<byte>, t: seq<byte>, sep: byte)
    requires sep !in p
    ensures Split(p + [sep] + t, sep) == [p] + Split(t, sep)
  {
    var s := p + [sep] + t;
    if p == [] {
      assert s[0] == sep && s[1..] == t;
    } else {
      SplitPiece(p[1..], t, sep);
      assert s[0] == p[0] && s[1..] == p[1..] + [sep] + t;
      assert p == [p[0]] + p[1..];
      assert ([p[1..]] + Split(t, sep))[1..] == Split(t, sep);
    }
  }

  /** Splitting undoes joining. */
  lemma {:induction false} SplitJoin(pieces: seq<seq<byte>>, sep: byte)
    requires pieces != [] && forall p :: p in pieces ==> sep !in p
    ensures Split(Join(pieces, sep), sep) == pieces
  {
    if |pieces| == 1 {
      SplitFree(pieces[0], sep);
      assert pieces == [pieces[0]];
    } else {
      SplitJoin(pieces[1..], sep);
      SplitPiece(pieces[0], Join(pieces[1..], sep), sep);
      assert pieces == [pieces[0]] + pieces[1..];
    }
  }

  /** Splitting loses nothing, and leaves no separator in a piece. */
  lemma {:induction false} JoinSplit(s: seq<byte>, sep: byte)
    ensures Join(Split(s, sep), sep) == s
    ensures forall p :: p in Split(s, sep) ==> sep !in p
  {
    if s != [] {
      var rest := Split(s[1..], sep);
      JoinSplit(s[1..], sep);
      assert s == [s[0]] + s[1..];
      if s[0] == sep {
        assert ([[]] + rest)[1..] == rest;
      } else {
        assert rest == [rest[0]] + rest[1..] && rest[0] in rest;
        assert ([[s[0]] + rest[0]] + rest[1..])[1..] == rest[1..];
      }
    }
  }

  /** Two sequences without repetition that have the same elements are permutations of each other. */
  lemma SameElements<T>(a: seq<T>, b: seq<T>)
    requires Distinct(a) && Distinct(b) && (forall x :: x in a <==> x in b)
    ensures multiset(a) == multiset(b) && |a| == |b|
  {
    OnceEach(a);
    OnceEach(b);
    assert forall x :: multiset(a)[x] == multiset(b)[x];
    assert |multiset(a)| == |a| && |multiset(b)| == |b|;
  }

  lemma {:induction false} OnceEach<T>(a: seq<T>)
    requires Distinct(a)
    ensures forall x :: multiset(a)[x] == if x in a then 1 else 0
  {
    if a != [] {
      var rest := a[1..];
      assert a == [a[0]] + rest;
      assert a[0] !in rest;
      OnceEach(rest);
    }
  }

  /** A number above all of a finite set of them: there is always a free one. */
  ghost function Above(ids: set<nat>): (b: nat)
    ensures forall id :: id in ids ==> id < b
  {
    if ids == {} then 0 else
    var x :| x in ids;
    var b := Above(ids - {x});
    assert forall id :: id in ids ==> id == x || id in ids - {x};
    if x < b then b else x + 1
  }

  /** Any subset: which keys poll reports is up to the engine. */
  method SomeOf(keys: set<nat>) returns (some: set<nat>)
    ensures some <= keys
  {
    some := {};
    var rest := keys;
    while rest != {}
      invariant some <= keys && rest <= keys
      decreases |rest|
    {
      var key :| key in rest;
      if * {
        some := some + {key};
      }
      rest := rest - {key};
    }
  }
}
