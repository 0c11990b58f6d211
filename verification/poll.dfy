/** Quic\poll: two passes over an ordered hash around one SSL_poll call on a dense array. */
module Poll {
  import opened Common

  /** A key of a PHP array; a string key is never the decimal form of an integer. */
  datatype Key = IntKey(i: int) | StrKey(s: string)

  /** A slot of the hash: deleted entries leave holes that iteration skips. */
  datatype Bucket = Hole | Slot(key: Key, value: Zval)

  datatype Class = ConnectionClass | ListenerClass | StreamClass | OtherClass

  /** As far as poll looks at values.  A reference wraps a value that is not itself a reference. */
  datatype Zval =
    | Arr(elements: seq<Bucket>)
    | Object(cls: Class, ssl: Option<nat>)
    | Long(n: int)
    | Bool(b: bool)
    | Nil
    | Reference(target: Zval)

  datatype Item = Item(desc: nat, events: int, revents: int)

  datatype PollError = NotAnArray | NotAPair | NotLive(i: nat) | PollFailed

  /** The entries iteration visits, in order. */
  function Entries(ht: seq<Bucket>): (r: seq<Bucket>)
    ensures forall b :: b in r ==> b.Slot? && b in ht
  {
    if ht == [] then [] else (if ht[0].Slot? then [ht[0]] else []) + Entries(ht[1..])
  }

  /** A hash holds a key at most once. */
  ghost predicate DistinctKeys(es: seq<Bucket>)
    requires forall b :: b in es ==> b.Slot?
  {
    forall i, j :: 0 <= i < j < |es| ==> es[i].key != es[j].key
  }

  /** zend_hash_index_find */
  function IndexFind(ht: seq<Bucket>, i: int): Option<Zval> {
    if ht == [] then None
    else if ht[0].Slot? && ht[0].key == IntKey(i) then Some(ht[0].value)
    else IndexFind(ht[1..], i)
  }

  /** ZVAL_DEREF */
  function Deref(z: Zval): Zval {
    if z.Reference? then z.target else z
  }

  /** zval_get_long on the values above */
  function ToLong(z: Zval): int {
    match z
    case Arr(elements) => if Entries(elements) == [] then 0 else 1
    case Object(_, _) => 1
    case Long(n) => n
    case Bool(b) => if b then 1 else 0
    case Nil => 0
    case Reference(t) => ToLong(t)
  }

  /** php_quic_obj_ssl: a reference to an object is not an object here. */
  function ObjSsl(z: Zval): Option<nat> {
    match z
    case Object(ConnectionClass, ssl) => ssl
    case Object(ListenerClass, ssl) => ssl
    case Object(StreamClass, ssl) => ssl
    case _ => None
  }

  // ---------------------------------------------------------------- what the call means

  /** The pair an entry stands for, or what is wrong with it; i is its position. */
  function Checked(value: Zval, i: nat): Result<Item, PollError> {
    var entry := Deref(value);
    if !entry.Arr? then Err(NotAnArray)
    else if IndexFind(entry.elements, 0).None? || IndexFind(entry.elements, 1).None? then Err(NotAPair)
    else if ObjSsl(IndexFind(entry.elements, 0).value).None? then Err(NotLive(i))
    else Ok(Item(ObjSsl(IndexFind(entry.elements, 0).value).value, ToLong(IndexFind(entry.elements, 1).value), 0))
  }

  /** An index is found when its key is in the hash, and the value is the one under it. */
  lemma {:induction false} IndexFindIs(ht: seq<Bucket>, i: int)
    ensures IndexFind(ht, i).None? <==> forall b :: b in ht && b.Slot? ==> b.key != IntKey(i)
    ensures IndexFind(ht, i).Some? ==> Slot(IntKey(i), IndexFind(ht, i).value) in ht
  {
    if ht != [] {
      IndexFindIs(ht[1..], i);
      assert forall b :: b in ht <==> b == ht[0] || b in ht[1..];
    }
  }

  /** A hash holds a key at most once. */
  ghost predicate KeysOnce(ht: seq<Bucket>) {
    forall a, b :: a in ht && b in ht && a.Slot? && b.Slot? && a.key == b.key ==> a == b
  }

  /** [$object, $events], whatever else the array holds and in whatever order, directly or by reference: a
      live Connection, Listener or Stream gives its SSL. */
  lemma GoodPair(elements: seq<Bucket>, cls: Class, d: nat, n: int, i: nat)
    requires KeysOnce(elements)
    requires cls == ConnectionClass || cls == ListenerClass || cls == StreamClass
    requires Slot(IntKey(0), Object(cls, Some(d))) in elements && Slot(IntKey(1), Long(n)) in elements
    ensures Checked(Arr(elements), i) == Ok(Item(d, n, 0))
    ensures Checked(Reference(Arr(elements)), i) == Ok(Item(d, n, 0))
  {
    IndexFindIs(elements, 0);
    IndexFindIs(elements, 1);
  }

  /** What is not such a pair, and what is said about it. */
  lemma BadEntry(elements: seq<Bucket>, n: int, b: bool, o: Class, ssl: Option<nat>, i: nat)
    ensures Checked(Long(n), i) == Checked(Bool(b), i) == Checked(Nil, i) == Checked(Object(o, ssl), i) == Err(NotAnArray)
    ensures Checked(Reference(Long(n)), i) == Checked(Reference(Object(o, ssl)), i) == Err(NotAnArray)
    ensures (forall e :: e in elements && e.Slot? ==> e.key != IntKey(0)) ==> Checked(Arr(elements), i) == Err(NotAPair)
    ensures (forall e :: e in elements && e.Slot? ==> e.key != IntKey(1)) ==> Checked(Arr(elements), i) == Err(NotAPair)
  {
    IndexFindIs(elements, 0);
    IndexFindIs(elements, 1);
  }

  /** A pair whose object is none of the three, has no SSL any more, is given by reference or is no object. */
  lemma NotLivePair(elements: seq<Bucket>, first: Zval, second: Zval, i: nat)
    requires KeysOnce(elements) && Slot(IntKey(0), first) in elements && Slot(IntKey(1), second) in elements
    requires first.Object? ==> first.cls == OtherClass || first.ssl == None
    ensures Checked(Arr(elements), i) == Err(NotLive(i))
  {
    IndexFindIs(elements, 0);
    IndexFindIs(elements, 1);
  }

  /** What the second element counts as. */
  lemma EventsAre(elements: seq<Bucket>, cls: Class, d: nat, events: Zval, i: nat)
    requires KeysOnce(elements) && cls != OtherClass
    requires Slot(IntKey(0), Object(cls, Some(d))) in elements && Slot(IntKey(1), events) in elements
    ensures var r := Checked(Arr(elements), i);
      && r.Ok? && r.value.desc == d && r.value.revents == 0
      && (events == Nil || events == Bool(false) || events == Arr([]) ==> r.value.events == 0)
      && (events == Bool(true) || events.Object? ==> r.value.events == 1)
      && (forall e: Bucket :: e.Slot? && events == Arr([e]) ==> r.value.events == 1)
      && forall n :: events == Long(n) || events == Reference(Long(n)) ==> r.value.events == n
  {
    IndexFindIs(elements, 0);
    IndexFindIs(elements, 1);
    assert ToLong(Arr([])) == 0;
    if events.Reference? {
      assert ToLong(events) == ToLong(events.target);
    }
  }

  /** All entries are well formed. */
  ghost predicate AllGood(es: seq<Bucket>) {
    forall i :: 0 <= i < |es| ==> es[i].Slot? && Checked(es[i].value, i).Ok?
  }

  /** The first entry that is not. */
  ghost predicate FirstBad(es: seq<Bucket>, i: int, e: PollError) {
    && 0 <= i < |es| && es[i].Slot? && Checked(es[i].value, i) == Err(e)
    && forall j :: 0 <= j < i ==> es[j].Slot? && Checked(es[j].value, j).Ok?
  }

  /** Item i is made from entry i. */
  ghost predicate Aligned(items: seq<Item>, es: seq<Bucket>) {
    && |items| == |es|
    && forall i :: 0 <= i < |es| ==> es[i].Slot? && Checked(es[i].value, i) == Ok(items[i].(revents := 0))
  }

  /** The keys of the items that have something, in order, with what they have. */
  function Ready(es: seq<Bucket>, items: seq<Item>): (r: seq<(Key, int)>)
    requires |items| == |es| && forall b :: b in es ==> b.Slot?
  {
    if es == [] then []
    else (if items[0].revents != 0 then [(es[0].key, items[0].revents)] else []) + Ready(es[1..], items[1..])
  }

  /** $result[$key] */
  function Lookup(result: seq<(Key, int)>, key: Key): Option<int> {
    if result == [] then None else if result[0].0 == key then Some(result[0].1) else Lookup(result[1..], key)
  }

  lemma {:induction false} LookupAbsent(es: seq<Bucket>, items: seq<Item>, key: Key)
    requires |items| == |es| && forall b :: b in es ==> b.Slot?
    requires forall i :: 0 <= i < |es| ==> es[i].key != key
    ensures Lookup(Ready(es, items), key) == None
  {
    if es != [] {
      LookupAbsent(es[1..], items[1..], key);
      LookupSkips(es, items, key);
    }
  }

  lemma LookupSkips(es: seq<Bucket>, items: seq<Item>, key: Key)
    requires |items| == |es| > 0 && (forall b :: b in es ==> b.Slot?) && es[0].key != key
    ensures Lookup(Ready(es, items), key) == Lookup(Ready(es[1..], items[1..]), key)
  {
    var rest := Ready(es[1..], items[1..]);
    if items[0].revents != 0 {
      assert Ready(es, items) == [(es[0].key, items[0].revents)] + rest;
      assert Ready(es, items)[1..] == rest;
    } else {
      assert Ready(es, items) == rest;
    }
  }

  /** The result maps the key of every entry to its item's revents, and leaves it out when there are
      none: nothing is shifted to a neighbour's key, whatever holes the hash has. */
  lemma {:induction false} ReadyByKey(es: seq<Bucket>, items: seq<Item>, i: nat)
    requires |items| == |es| && i < |es| && (forall b :: b in es ==> b.Slot?) && DistinctKeys(es)
    ensures Lookup(Ready(es, items), es[i].key) == if items[i].revents != 0 then Some(items[i].revents) else None
  {
    if i == 0 {
      LookupAbsent(es[1..], items[1..], es[0].key);
      if items[0].revents == 0 {
        assert Ready(es, items) == Ready(es[1..], items[1..]);
      }
    } else {
      LookupSkips(es, items, es[i].key);
      ReadyByKey(es[1..], items[1..], i - 1);
    }
  }

  /** And it maps nothing else. */
  lemma {:induction false} ReadyOnlyKeys(es: seq<Bucket>, items: seq<Item>)
    requires |items| == |es| && forall b :: b in es ==> b.Slot?
    ensures forall p :: p in Ready(es, items) ==>
      exists i :: 0 <= i < |es| && es[i].key == p.0 && items[i].revents == p.1 && p.1 != 0
  {
    if es != [] {
      ReadyOnlyKeys(es[1..], items[1..]);
      forall p | p in Ready(es, items)
        ensures exists i :: 0 <= i < |es| && es[i].key == p.0 && items[i].revents == p.1 && p.1 != 0
      {
        if p in Ready(es[1..], items[1..]) {
          var i :| 0 <= i < |es[1..]| && es[1..][i].key == p.0 && items[1..][i].revents == p.1 && p.1 != 0;
          assert es[i + 1].key == p.0 && items[i + 1].revents == p.1;
        }
      }
    }
  }

  lemma {:induction false} EntriesAppend(ht: seq<Bucket>, b: Bucket)
    ensures Entries(ht + [b]) == Entries(ht) + (if b.Slot? then [b] else [])
  {
    if ht == [] {
      assert ht + [b] == [b] && [b][1..] == [];
    } else {
      assert (ht + [b])[1..] == ht[1..] + [b];
      EntriesAppend(ht[1..], b);
    }
  }

  lemma {:induction false} EntriesSplit(ht: seq<Bucket>, p: nat)
    requires p <= |ht|
    ensures Entries(ht) == Entries(ht[..p]) + Entries(ht[p..])
  {
    if p == 0 {
      assert ht[..0] == [] && ht[0..] == ht;
    } else {
      assert ht[..p][1..] == ht[1..][..p - 1] && ht[1..][p - 1..] == ht[p..];
      EntriesSplit(ht[1..], p - 1);
    }
  }

  lemma {:induction false} ReadyAppend(es: seq<Bucket>, items: seq<Item>, b: Bucket, it: Item)
    requires |items| == |es| && (forall e :: e in es ==> e.Slot?) && b.Slot?
    ensures Ready(es + [b], items + [it]) == Ready(es, items) + (if it.revents != 0 then [(b.key, it.revents)] else [])
  {
    if es == [] {
      assert es + [b] == [b] && items + [it] == [it] && [b][1..] == [] && [it][1..] == [];
    } else {
      assert (es + [b])[1..] == es[1..] + [b] && (items + [it])[1..] == items[1..] + [it];
      ReadyAppend(es[1..], items[1..], b, it);
    }
  }

  // ---------------------------------------------------------------- the call

  /** Where the poll buffer lives, and the engine's side of SSL_poll. */
  class Runtime {
    var heapAllocs: nat
    var heapFrees: nat
    var polls: nat
    // the last SSL_poll: what it was given, what it left in the items, and its answer
    ghost var polled: seq<Item>
    ghost var answered: seq<Item>
    ghost var rc: int

    constructor ()
    {
      heapAllocs, heapFrees, polls, polled, answered, rc := 0, 0, 0, [], [], 0;
    }

    /** SSL_poll sets revents and nothing else; 0 is failure. */
    method SslPoll(items: array<Item>, n: nat) returns (rc: int)
      requires n <= items.Length
      modifies this`polls, this`polled, this`answered, this`rc, items
      ensures polls == old(polls) + 1 && polled == old(items[..n]) && answered == items[..n] && this.rc == rc
      ensures forall i :: 0 <= i < items.Length ==> items[i].(revents := 0) == old(items[i]).(revents := 0)
    {
      polled := items[..n];
      polls := polls + 1;
      for i := 0 to n
        invariant polls == old(polls) + 1 && polled == old(items[..n])
        invariant forall k :: 0 <= k < items.Length ==> items[k].(revents := 0) == old(items[k]).(revents := 0)
      {
        var revents: int := *;
        items[i] := items[i].(revents := revents);
      }
      rc := *;
      answered, this.rc := items[..n], rc;
    }

    /** if (poll_items != stackbuf) efree(poll_items) */
    method Discard(onHeap: bool)
      modifies this`heapFrees
      ensures heapFrees == old(heapFrees) + (if onHeap then 1 else 0)
    {
      if onHeap {
        heapFrees := heapFrees + 1;
      }
    }
  }

  /** Entry i of the hash as a poll item. */
  method ReadEntry(value: Zval, i: nat) returns (r: Result<Item, PollError>)
    ensures r == Checked(value, i) && (r.Ok? ==> r.value.revents == 0)
  {
    var entry := Deref(value);
    if !entry.Arr? {
      return Err(NotAnArray);
    }
    var objZv := IndexFind(entry.elements, 0);
    var eventsZv := IndexFind(entry.elements, 1);
    if objZv.None? || eventsZv.None? {
      return Err(NotAPair);
    }
    var ssl := ObjSsl(objZv.value);
    if ssl.None? {
      return Err(NotLive(i));
    }
    r := Ok(Item(ssl.value, ToLong(eventsZv.value), 0));
  }

  /** The first loop: fills the array entry by entry and stops at the first malformed one. */
  method Fill(items: seq<Bucket>, buf: array<Item>) returns (bad: Option<PollError>)
    requires buf.Length >= |Entries(items)|
    modifies buf
    ensures bad.None? ==> Filled(buf[..|Entries(items)|], Entries(items))
    ensures bad.Some? ==> exists k :: FirstBad(Entries(items), k, bad.value)
  {
    hide Checked, Entries, Filled, FirstBad;
    var i := 0;
    ghost var done: seq<Bucket> := [];
    NothingFilled(items);
    for p := 0 to |items|
      invariant done == Entries(items[..p]) && i == |done| <= |Entries(items)|
      invariant Filled(buf[..i], done)
    {
      NextEntry(items, p);
      if items[p].Slot? {
        var item := ReadEntry(items[p].value, i);
        if item.Err? {
          StopsAt(buf[..i], Entries(items), done, item.error);
          return Some(item.error);
        }
        FilledNext(buf[..i], done, items[p], item.value);
        ghost var sofar := buf[..i];
        buf[i] := item.value;
        assert buf[..i + 1] == sofar + [item.value];
        done := done + [items[p]];
        i := i + 1;
      }
    }
    assert items[..|items|] == items;
    bad := None;
  }

  /** As filled by the first loop, before polling. */
  ghost predicate Filled(buf: seq<Item>, es: seq<Bucket>) {
    Aligned(buf, es) && forall k :: 0 <= k < |buf| ==> buf[k].revents == 0
  }

  lemma NothingFilled(items: seq<Bucket>)
    ensures Filled([], []) && Entries(items[..0]) == []
  {
  }

  lemma FilledNext(buf: seq<Item>, es: seq<Bucket>, b: Bucket, item: Item)
    requires Filled(buf, es) && b.Slot? && Checked(b.value, |es|) == Ok(item) && item.revents == 0
    ensures Filled(buf + [item], es + [b])
  {
    hide Checked;
  }

  lemma StopsAt(buf: seq<Item>, es: seq<Bucket>, done: seq<Bucket>, e: PollError)
    requires Filled(buf, done) && done <= es && |done| < |es|
    requires es[|done|].Slot? && Checked(es[|done|].value, |done|) == Err(e)
    ensures FirstBad(es, |done|, e)
  {
    hide Checked;
    assert forall j :: 0 <= j < |done| ==> es[j] == done[j];
  }

  /** Going one bucket further: the entry there, if any, is the next one of the whole hash. */
  lemma NextEntry(items: seq<Bucket>, p: nat)
    requires p < |items|
    ensures Entries(items[..p + 1]) == Entries(items[..p]) + (if items[p].Slot? then [items[p]] else [])
    ensures Entries(items[..p]) <= Entries(items)
    ensures items[p].Slot? ==> |Entries(items[..p])| < |Entries(items)| && Entries(items)[|Entries(items[..p])|] == items[p]
  {
    assert items[..p + 1] == items[..p] + [items[p]];
    EntriesAppend(items[..p], items[p]);
    EntriesSplit(items, p);
    EntriesSplit(items, p + 1);
  }

  /** The second loop: the same hash again, taking the array along. */
  method Collect(items: seq<Bucket>, buf: array<Item>) returns (result: seq<(Key, int)>)
    requires buf.Length >= |Entries(items)|
    ensures result == Ready(Entries(items), buf[..|Entries(items)|])
  {
    var i := 0;
    result := [];
    assert items[..0] == [];
    for p := 0 to |items|
      invariant i == |Entries(items[..p])| <= |Entries(items)|
      invariant result == Ready(Entries(items[..p]), buf[..i])
    {
      NextEntry(items, p);
      ghost var es := Entries(items[..p]);
      assert es + [] == es;
      if items[p].Slot? {
        ReadyAppend(es, buf[..i], items[p], buf[i]);
        assert Entries(items[..p + 1]) == es + [items[p]];
        assert buf[..i + 1] == buf[..i] + [buf[i]];
        if buf[i].revents != 0 {
          result := result + [(items[p].key, buf[i].revents)];
        }
        i := i + 1;
      }
    }
    assert items[..|items|] == items;
  }

  /** Quic\poll */
  method Poll(rt: Runtime, items: seq<Bucket>) returns (r: Result<seq<(Key, int)>, PollError>)
    modifies rt
    // the buffer is freed exactly once if it came from the heap, and not otherwise, on every exit
    ensures rt.heapAllocs - old(rt.heapAllocs) == rt.heapFrees - old(rt.heapFrees) == (if |Entries(items)| > 16 then 1 else 0)
    // nothing to do, or one malformed item: no poll at all
    ensures Entries(items) == [] ==> r == Ok([]) && rt.polls == old(rt.polls)
    ensures !AllGood(Entries(items)) ==>
      r.Err? && rt.polls == old(rt.polls) && exists k :: FirstBad(Entries(items), k, r.error)
    // otherwise one poll on the items in order, and each key gets its own item's events
    ensures AllGood(Entries(items)) && Entries(items) != [] ==>
      && rt.polls == old(rt.polls) + 1 && Aligned(rt.polled, Entries(items))
      && (forall i :: 0 <= i < |rt.polled| ==> rt.polled[i].revents == 0)
      && Aligned(rt.answered, Entries(items))
      && r == if rt.rc == 0 then Err(PollFailed) else Ok(Ready(Entries(items), rt.answered))
  {
    var n := Count(items);
    if n == 0 {
      return Ok([]);
    }
    var onHeap := n > 16;
    var buf := new Item[if onHeap then n else 16](_ => Item(0, 0, 0));
    if onHeap {
      rt.heapAllocs := rt.heapAllocs + 1;
    }
    var bad := Fill(items, buf);
    if bad.Some? {
      rt.Discard(onHeap);
      return Err(bad.value);
    }
    ghost var given := buf[..n];
    var rc := rt.SslPoll(buf, n);
    assert Aligned(buf[..n], Entries(items)) by {
      assert forall i :: 0 <= i < n ==> buf[..n][i].(revents := 0) == given[i].(revents := 0);
    }
    if rc == 0 {
      rt.Discard(onHeap);
      return Err(PollFailed);
    }
    var result := Collect(items, buf);
    rt.Discard(onHeap);
    r := Ok(result);
  }

  /** zend_hash_num_elements */
  method Count(items: seq<Bucket>) returns (n: nat)
    ensures n == |Entries(items)|
  {
    n := 0;
    assert items[..0] == [];
    for p := 0 to |items|
      invariant n == |Entries(items[..p])|
    {
      NextEntry(items, p);
      if items[p].Slot? {
        n := n + 1;
      }
    }
    assert items[..|items|] == items;
  }
}
