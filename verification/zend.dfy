/** The C code that keeps the object store and the ledger: free handlers, releases, and the methods
    that create objects, each proved to take the step the lifetime model gives it. */
module Zend {
  import opened Common
  import opened Ledgers
  import opened Lifetime

  predicate FitsClass(cls: Class, b: Body) {
    match cls
    case ListenerClass => b.ListenerBody?
    case ConnectionClass => b.ConnectionBody?
    case StreamClass => b.StreamBody?
    case ResourceClass => b.ResourceBody?
  }

  /** The references from r on lead down through live objects that have the struct of their class. */
  ghost predicate ChainOk(heap: map<Ref, Obj>, r: Ref)
    decreases Rank(r.cls)
  {
    && r in heap && FitsClass(r.cls, heap[r].body)
    && (heap[r].to.Some? ==> Rank(heap[r].to.value.cls) < Rank(r.cls) && ChainOk(heap, heap[r].to.value))
  }

  lemma {:induction false} WellTypedChain(s: State, r: Ref)
    requires WellTyped(s) && r in s.heap
    ensures ChainOk(s.heap, r)
    decreases Rank(r.cls)
  {
    assert ShapeOk(r, s.heap[r]) && LinkOk(s.heap, s.heap[r], r.cls);
    if s.heap[r].to.Some? {
      WellTypedChain(s, s.heap[r].to.value);
    }
  }

  /** The state when an object has been destroyed and its reference counted down. */
  function AfterDestroy(s: State, r: Ref): State
    requires r in s.heap
  {
    var to := s.heap[r].to;
    if to.Some? && Rank(to.value.cls) < Rank(r.cls) then Lifetime.Release(Destroy(s, r), to.value) else Destroy(s, r)
  }

  /** A chain does not mind what happens to an object above it. */
  lemma {:induction false} ChainBelow(heap: map<Ref, Obj>, heap': map<Ref, Obj>, r: Ref)
    requires ChainOk(heap, r)
    requires forall q: Ref :: Rank(q.cls) <= Rank(r.cls) && q in heap ==> q in heap' && heap'[q] == heap[q]
    ensures ChainOk(heap', r)
    decreases Rank(r.cls)
  {
    if heap[r].to.Some? {
      ChainBelow(heap, heap', heap[r].to.value);
    }
  }

  ghost predicate AgreeBelow(heap: map<Ref, Obj>, heap': map<Ref, Obj>, rank: nat) {
    forall q: Ref :: Rank(q.cls) <= rank ==> (q in heap <==> q in heap') && (q in heap ==> heap[q] == heap'[q])
  }

  /** A release works on its object and below; whatever is above neither matters nor changes. */
  lemma {:induction false} ReleaseBelow(s: State, t: State, r: Ref)
    requires t.ledger == s.ledger && t.vars == s.vars && AgreeBelow(s.heap, t.heap, Rank(r.cls))
    ensures Release(t, r).ledger == Release(s, r).ledger && Release(t, r).vars == Release(s, r).vars
    ensures AgreeBelow(Release(s, r).heap, Release(t, r).heap, Rank(r.cls))
    ensures forall q: Ref :: Rank(q.cls) > Rank(r.cls) ==>
      ((q in Release(t, r).heap <==> q in t.heap) && (q in t.heap ==> Release(t, r).heap[q] == t.heap[q]))
    decreases Rank(r.cls)
  {
    if r in s.heap && s.heap[r].rc <= 1 {
      var o := s.heap[r];
      if o.to.Some? && Rank(o.to.value.cls) < Rank(r.cls) {
        ReleaseBelow(Destroy(s, r), Destroy(t, r), o.to.value);
        ReleaseAbove(Destroy(s, r), o.to.value);
      }
    }
  }

  /** Forgetting a reference after it was counted down comes to the same as before. */
  lemma ReleaseThenForget(s: State, t: State, v: Ref, x: Ref)
    requires v in s.heap && Rank(x.cls) < Rank(v.cls) && t == s.(heap := s.heap[v := s.heap[v].(to := None)])
    ensures v in Lifetime.Release(s, x).heap
    ensures var s' := Lifetime.Release(s, x);
      s'.(heap := s'.heap[v := s'.heap[v].(to := None)]) == Lifetime.Release(t, x)
  {
    ReleaseBelow(s, t, x);
    ReleaseAbove(s, x);
    var s', t' := Lifetime.Release(s, x), Lifetime.Release(t, x);
    var last := s'.heap[v := s'.heap[v].(to := None)];
    assert forall q: Ref :: q in last <==> q in t'.heap;
    assert last == t'.heap;
  }

  /** Removing an object after its reference was counted down comes to the same as before. */
  lemma LateRemoval(s: State, mid: State, r: Ref, q: Ref, last: map<Ref, Obj>)
    requires r in s.heap && s.heap[r].to == Some(q) && Rank(q.cls) < Rank(r.cls)
    requires mid.vars == s.vars && mid.ledger == Destroy(s, r).ledger && mid.heap.Keys == s.heap.Keys
    requires forall p :: p in mid.heap && p != r ==> mid.heap[p] == s.heap[p]
    requires last.Keys == Release(mid, q).heap.Keys - {r}
    requires forall p :: p in last ==> last[p] == Release(mid, q).heap[p]
    ensures AfterDestroy(s, r) == State(last, Release(mid, q).vars, Release(mid, q).ledger)
  {
    var d := Destroy(s, r);
    ReleaseBelow(d, mid, q);
    ReleaseAbove(d, q);
    var after := Release(d, q).heap;
    forall p: Ref
      ensures (p in after <==> p in last) && (p in last ==> after[p] == last[p])
    {
      if Rank(p.cls) > Rank(q.cls) {
        assert p in after <==> p in d.heap;
      }
    }
    assert after == last;
  }

  lemma {:induction false} FreeAllConcat(led: Ledger, a: seq<Handle>, b: seq<Handle>)
    ensures FreeAll(led, a + b) == FreeAll(FreeAll(led, a), b)
    decreases |a|
  {
    if a == [] {
      assert a + b == b;
    } else {
      assert (a + b)[0] == a[0] && (a + b)[1..] == a[1..] + b;
      FreeAllConcat(Free(led, a[0]), a[1..], b);
    }
  }

  function FreeOpt(led: Ledger, o: Option<Handle>): Ledger {
    match o case None => led case Some(h) => Free(led, h)
  }

  lemma FreeAllOpt(led: Ledger, o: Option<Handle>)
    ensures FreeAll(led, Opt(o)) == FreeOpt(led, o)
  {
    if o.Some? {
      assert Opt(o)[1..] == [];
      assert FreeAll(Free(led, o.value), []) == Free(led, o.value);
    }
  }

  /** The callback data goes with the buffer it points to. */
  function FreeCallback(led: Ledger, cb: Option<Callback>): Ledger {
    match cb case None => led case Some(c) => Free(Free(led, c.alpn), c.data)
  }

  /** The order in which a listener's handles go. */
  lemma ListenerOrder(led: Ledger, b: Body)
    requires b.ListenerBody?
    ensures FreeAll(led, Handles(b)) == FreeCallback(FreeOpt(FreeOpt(FreeOpt(led, b.ssl), b.fd), b.ctx), b.callback)
  {
    hide FreeAll, Opt;
    var ssl, fd, ctx, alpn, data := Opt(b.ssl), Opt(b.fd), Opt(b.ctx), Opt(AlpnOf(b.callback)), Opt(DataOf(b.callback));
    var led1 := FreeOpt(led, b.ssl);
    var led2 := FreeOpt(led1, b.fd);
    var led3 := FreeOpt(led2, b.ctx);
    FreeAllOpt(led, b.ssl);
    FreeAllConcat(led, ssl, fd);
    FreeAllOpt(led1, b.fd);
    FreeAllConcat(led, ssl + fd, ctx);
    FreeAllOpt(led2, b.ctx);
    FreeAllConcat(led, ssl + fd + ctx, alpn);
    FreeAllOpt(led3, AlpnOf(b.callback));
    FreeAllConcat(led, ssl + fd + ctx + alpn, data);
    FreeAllOpt(FreeOpt(led3, AlpnOf(b.callback)), DataOf(b.callback));
  }

  lemma ConnectionOrder(led: Ledger, b: Body)
    requires b.ConnectionBody?
    ensures FreeAll(led, Handles(b)) == FreeOpt(FreeOpt(led, b.ssl), if b.ownsFd then b.fd else None)
  {
    FreeAllOpt(led, b.ssl);
    FreeAllConcat(led, Opt(b.ssl), if b.ownsFd then Opt(b.fd) else []);
    FreeAllOpt(FreeOpt(led, b.ssl), if b.ownsFd then b.fd else None);
  }

  /** What happened to one candidate address while a UDP socket was set up. */
  datatype Candidate = Candidate(socketOk: bool, reuseOk: bool, attachOk: bool, nonBlockingOk: bool)

  /** The answers a Connection constructor gets from the system and the engine. */
  datatype ConnectEnv = ConnectEnv(
    port: int, hostHasNul: bool, alpnGiven: bool, alpnEncodes: bool,
    lookupOk: bool, candidates: seq<Candidate>, dupOk: bool,
    ctxOk: bool, configureOk: bool, sslOk: bool, bioOk: bool, alpnSetOk: bool, peerSetOk: bool,
    verifyName: bool, nameSetOk: bool, sniEnabled: bool, sniSetOk: bool,
    handshakeOk: bool, pinGiven: bool, pinOk: bool)

  /** The answers a Listener constructor gets. */
  datatype ListenEnv = ListenEnv(
    port: int, hostHasNul: bool, alpnGiven: bool, alpnEncodes: bool,
    lookupOk: bool, candidates: seq<Candidate>, reusePort: bool,
    ctxOk: bool, configureOk: bool, listenerOk: bool, bioOk: bool, listenOk: bool)

  predicate ClientUsable(c: Candidate) { c.socketOk && c.attachOk && c.nonBlockingOk }

  predicate ServerUsable(c: Candidate, reusePort: bool) {
    c.socketOk && (reusePort ==> c.reuseOk) && c.attachOk && c.nonBlockingOk
  }

  function UsableFor(reusePort: bool): Candidate -> bool {
    c => ServerUsable(c, reusePort)
  }

  /** When the engine part of the constructor gets through. */
  predicate EngineAccepts(env: ConnectEnv) {
    && env.ctxOk && env.configureOk && env.sslOk && env.bioOk && env.alpnSetOk && env.peerSetOk
    && (env.verifyName ==> env.nameSetOk) && (env.sniEnabled ==> env.sniSetOk)
    && env.handshakeOk && (env.pinGiven ==> env.pinOk)
  }

  /** When a socket to the peer can be had. */
  predicate ConnectFinds(env: ConnectEnv) {
    env.lookupOk && env.dupOk && exists c :: c in env.candidates && ClientUsable(c)
  }

  /** When new Quic\Connection(...) does not throw. */
  predicate ConnectSucceeds(env: ConnectEnv) {
    && 1 <= env.port <= 65535 && !env.hostHasNul && env.alpnGiven && env.alpnEncodes
    && ConnectFinds(env) && EngineAccepts(env)
  }

  predicate ListenFinds(env: ListenEnv) {
    env.lookupOk && exists c :: c in env.candidates && ServerUsable(c, env.reusePort)
  }

  predicate ListenerAccepts(env: ListenEnv) {
    env.ctxOk && env.configureOk && env.listenerOk && env.bioOk && env.listenOk
  }

  /** When new Quic\Listener(...) does not throw. */
  predicate ListenSucceeds(env: ListenEnv) {
    && 1 <= env.port <= 65535 && !env.hostHasNul && env.alpnGiven && env.alpnEncodes
    && ListenFinds(env) && ListenerAccepts(env)
  }

  /** How a PHP method call ends. */
  datatype Outcome = Returned(value: Option<Ref>) | Threw

  class ObjectStore {
    var heap: map<Ref, Obj>
    var vars: multiset<Ref>
    var ledger: Ledger

    // where the running constructor started, and what it has to give back or keep
    ghost var start: Ledger
    ghost var locals: set<Handle>
    ghost var fields: map<Handle, Slot>

    ghost function Now(): State
      reads this
    {
      State(heap, vars, ledger)
    }

    constructor ()
      ensures Now() == EMPTY
    {
      heap, vars, ledger := map[], multiset{}, EMPTY_LEDGER;
    }

    // -------------------------------------------------------------- releasing

    /** SSL_free, SSL_CTX_free, BIO_closesocket, zend_string_release: the handle is given back. */
    method NativeFree(h: Handle)
      modifies this`ledger
      ensures ledger == Free(old(ledger), h)
    {
      ledger := Free(ledger, h);
    }

    method NativeAcquire(kind: Kind, slot: Slot) returns (h: Handle)
      modifies this`ledger
      ensures h == |old(ledger).kinds| && ledger == Acquire(old(ledger), kind, slot)
    {
      h := |ledger.kinds|;
      ledger := Acquire(ledger, kind, slot);
    }

    method SetBody(r: Ref, b: Body)
      requires r in heap
      modifies this`heap
      ensures heap == old(heap)[r := old(heap)[r].(body := b)]
    {
      heap := heap[r := heap[r].(body := b)];
    }

    method AddReference(r: Ref)
      requires r in heap
      modifies this`heap
      ensures Now() == AddRef(old(Now()), r)
    {
      heap := heap[r := heap[r].(rc := heap[r].rc + 1)];
    }

    /** if (field) { free(field); field = NULL; } where cleared is the struct with the field cleared */
    method GiveBack(r: Ref, field: Option<Handle>, cleared: Body)
      requires r in heap && (field.None? ==> cleared == heap[r].body)
      modifies this`heap, this`ledger
      ensures heap == old(heap)[r := old(heap)[r].(body := cleared)]
      ensures ledger == FreeOpt(old(ledger), field)
    {
      if field.Some? {
        NativeFree(field.value);
        SetBody(r, cleared);
      }
    }

    /** quic_listener_release */
    method ListenerRelease(l: Ref)
      requires l in heap && heap[l].body.ListenerBody?
      modifies this`heap, this`ledger
      ensures Now() == ReleaseListener(old(Now()), l)
    {
      hide FreeAll, Handles, FreeOpt, FreeCallback;
      var b := heap[l].body;
      ListenerOrder(ledger, b);
      GiveBack(l, b.ssl, ListenerBody(None, b.ctx, b.fd, b.callback));
      GiveBack(l, b.fd, ListenerBody(None, b.ctx, None, b.callback));
      GiveBack(l, b.ctx, ListenerBody(None, None, None, b.callback));
      GiveBackCallback(l, b.callback);
    }

    /** if (obj->alpn_cb_arg != NULL): the buffer and then the data */
    method GiveBackCallback(l: Ref, cb: Option<Callback>)
      requires l in heap && heap[l].body == ListenerBody(None, None, None, cb)
      modifies this`heap, this`ledger
      ensures heap == old(heap)[l := old(heap)[l].(body := NewBody(ListenerClass))]
      ensures ledger == FreeCallback(old(ledger), cb)
    {
      if cb.Some? {
        NativeFree(cb.value.alpn);
        NativeFree(cb.value.data);
        SetBody(l, ListenerBody(None, None, None, None));
      }
    }

    /** quic_connection_free */
    method ConnectionFree(c: Ref)
      requires ChainOk(heap, c) && c.cls.ConnectionClass?
      modifies this`heap, this`ledger
      ensures Now() == AfterDestroy(old(Now()), c)
      decreases Rank(c.cls), 1
    {
      ConnectionOrder(ledger, heap[c].body);
      ghost var s := Now();
      var b := heap[c].body;
      GiveBack(c, b.ssl, ConnectionBody(None, b.fd, b.ownsFd, b.closed));
      if b.ownsFd {
        GiveBack(c, b.fd, ConnectionBody(None, None, b.ownsFd, b.closed));
      }
      ReleaseHeld(c, s);
    }

    /** quic_stream_free */
    method StreamFree(x: Ref)
      requires ChainOk(heap, x) && x.cls.StreamClass?
      modifies this`heap, this`ledger
      ensures Now() == AfterDestroy(old(Now()), x)
      decreases Rank(x.cls), 1
    {
      FreeAllOpt(ledger, heap[x].body.ssl);
      ghost var s := Now();
      GiveBack(x, heap[x].body.ssl, StreamBody(None));
      ReleaseHeld(x, s);
    }

    /** quic_stream_op_close on a resource that goes away */
    method ResourceFree(v: Ref)
      requires ChainOk(heap, v) && v.cls.ResourceClass?
      modifies this`heap, this`ledger
      ensures Now() == AfterDestroy(old(Now()), v)
      decreases Rank(v.cls), 1
    {
      ReleaseHeld(v, Now());
    }

    /** The end of every free handler: give up the reference held, then the object's memory goes. */
    method ReleaseHeld(r: Ref, ghost s: State)
      requires r in s.heap && ChainOk(s.heap, r) && s.vars == vars
      requires ledger == FreeAll(s.ledger, Handles(s.heap[r].body))
      requires heap.Keys == s.heap.Keys && heap[r].to == s.heap[r].to
      requires forall q :: q in heap && q != r ==> heap[q] == s.heap[q]
      modifies this`heap, this`ledger
      ensures Now() == AfterDestroy(s, r)
      decreases Rank(r.cls), 0
    {
      hide Lifetime.Release, FreeAll, Handles;
      var to := heap[r].to;
      if to.Some? {
        var q := to.value;
        ghost var mid := Now();
        ChainBelow(s.heap, heap, q);
        Release(q);
        heap := heap[r := heap[r].(to := None)] by { ReleaseAbove(mid, q); }
        heap := heap - {r};
        LateRemoval(s, mid, r, q, heap);
      } else {
        heap := heap - {r};
        assert heap == Destroy(s, r).heap;
      }
    }

    /** zval_ptr_dtor / OBJ_RELEASE */
    method Release(r: Ref)
      requires ChainOk(heap, r)
      modifies this`heap, this`ledger
      ensures Now() == Lifetime.Release(old(Now()), r)
      decreases Rank(r.cls), 2
    {
      if heap[r].rc > 1 {
        heap := heap[r := heap[r].(rc := heap[r].rc - 1)];
      } else {
        match r.cls
        case ListenerClass =>
          ListenerRelease(r);
          heap := heap - {r};
        case ConnectionClass => ConnectionFree(r);
        case StreamClass => StreamFree(r);
        case ResourceClass => ResourceFree(r);
      }
    }

    // -------------------------------------------------------------- PHP methods

    /** unset($v), or the variable going out of scope */
    method DropVariable(r: Ref)
      requires Inv(Now()) && r in vars
      modifies this
      ensures Now() == Apply(old(Now()), Drop(r))
    {
      WellTypedChain(Now(), r);
      vars := vars - multiset{r};
      Release(r);
    }

    /** Quic\Listener::accept, php_quic_connection_init_object */
    method Accept(l: Ref, c: Ref, got: bool) returns (outcome: Outcome)
      requires Inv(Now()) && Enabled(Now(), Op.Accept(l, c, got))
      modifies this
      ensures Now() == Apply(old(Now()), Op.Accept(l, c, got))
      ensures l in old(heap) && old(heap)[l].body.ListenerBody?
      ensures outcome == Returned(if old(heap)[l].body.ssl.Some? && got then Some(c) else None)
      ensures outcome == Returned(Some(c)) ==> vars == old(vars) + multiset{c} && c in heap && heap[c].to == Some(l)
    {
      AcceptGives(Now(), l, c, got);
      var b := heap[l].body;
      if b.ssl.None? {
        return Returned(None);
      }
      if !got {
        return Returned(None);
      }
      var h := NativeAcquire(ConnectionSsl, Member(c, SslField));
      heap := heap[c := Obj(1, None, ConnectionBody(Some(h), b.fd, false, false))];
      vars := vars + multiset{c};
      AddReference(l);
      heap := heap[c := heap[c].(to := Some(l))];
      assert heap == Apply(old(Now()), Op.Accept(l, c, got)).heap;
      outcome := Returned(Some(c));
    }

    /** Quic\Connection::openStream (throws is true) and acceptStream (throws is false) */
    method OpenStream(c: Ref, x: Ref, got: bool, throws: bool) returns (outcome: Outcome)
      requires Inv(Now()) && Enabled(Now(), Op.OpenStream(c, x, got))
      modifies this
      ensures Now() == Apply(old(Now()), Op.OpenStream(c, x, got))
      ensures c in old(heap) && old(heap)[c].body.ConnectionBody?
      ensures outcome == if old(heap)[c].body.ssl.Some? && got then Returned(Some(x)) else if throws then Threw else Returned(None)
      ensures outcome == Returned(Some(x)) ==>
        && vars == old(vars) + multiset{x} && x in heap && heap[x].rc == 1 && heap[x].to == Some(c)
        && ledger.kinds == old(ledger).kinds + [StreamSsl(old(heap)[c].body.ssl.value)]
        && heap[x].body == StreamBody(Some(|old(ledger).kinds|))
    {
      OpenStreamGives(Now(), c, x, got);
      var ssl := heap[c].body.ssl;
      if ssl.None? {
        return if throws then Threw else Returned(None);
      }
      if !got {
        return if throws then Threw else Returned(None);
      }
      var h := NativeAcquire(StreamSsl(ssl.value), Member(x, SslField));
      heap := heap[x := Obj(1, None, StreamBody(Some(h)))];
      vars := vars + multiset{x};
      AddReference(c);
      heap := heap[x := heap[x].(to := Some(c))];
      assert heap == Apply(old(Now()), Op.OpenStream(c, x, got)).heap;
      outcome := Returned(Some(x));
    }

    /** Quic\Stream::__construct */
    method ConstructStream(x: Ref, c: Ref, got: bool) returns (outcome: Outcome)
      requires Inv(Now()) && Enabled(Now(), Op.ConstructStream(x, c, got))
      modifies this
      ensures Now() == Apply(old(Now()), Op.ConstructStream(x, c, got))
      ensures c in old(heap) && old(heap)[c].body.ConnectionBody? && x in old(heap) && old(heap)[x].body.StreamBody?
      ensures outcome ==
        if old(heap)[x].body.ssl.None? && old(heap)[c].body.ssl.Some? && got then Returned(None) else Threw
      ensures outcome == Returned(None) ==> x in heap && heap[x].to == Some(c) && heap[x].body.StreamBody? && heap[x].body.ssl.Some?
    {
      ConstructStreamGives(Now(), x, c, got);
      if heap[x].body.ssl.Some? {
        return Threw;
      }
      if heap[c].body.ssl.None? {
        return Threw;
      }
      if !got {
        return Threw;
      }
      var h := NativeAcquire(StreamSsl(heap[c].body.ssl.value), Member(x, SslField));
      heap := heap[x := heap[x].(body := StreamBody(Some(h)))];
      AddReference(c);
      heap := heap[x := heap[x].(to := Some(c))];
      assert heap == Apply(old(Now()), Op.ConstructStream(x, c, got)).heap;
      assert heap[x] != old(heap)[x];
      outcome := Returned(None);
    }

    /** Quic\Stream::asStream: the reference is taken first and given back when allocation fails */
    method AsStream(x: Ref, v: Ref, got: bool) returns (outcome: Outcome)
      requires Inv(Now()) && Enabled(Now(), Op.AsStream(x, v, got))
      modifies this
      ensures Now() == Apply(old(Now()), Op.AsStream(x, v, got))
      ensures x in old(heap) && old(heap)[x].body.StreamBody?
      ensures outcome == if old(heap)[x].body.ssl.Some? && got then Returned(Some(v)) else Threw
      ensures outcome == Returned(Some(v)) ==> vars == old(vars) + multiset{v} && v in heap && heap[v].to == Some(x)
    {
      AsStreamGives(Now(), x, v, got);
      if heap[x].body.ssl.None? {
        return Threw;
      }
      AddReference(x);
      if !got {
        heap := heap[x := heap[x].(rc := heap[x].rc - 1)];
        assert heap == old(heap);
        return Threw;
      }
      heap := heap[v := Obj(1, Some(x), ResourceBody)];
      vars := vars + multiset{v};
      outcome := Returned(Some(v));
    }

    /** fclose: quic_stream_op_close releases the Stream, then forgets it */
    method Fclose(v: Ref)
      requires Inv(Now()) && Enabled(Now(), Op.Fclose(v))
      modifies this
      ensures Now() == Apply(old(Now()), Op.Fclose(v))
      ensures v in heap && heap[v].to == None
    {
      FcloseGives(Now(), v);
      WellTypedChain(Now(), v);
      if heap[v].to.Some? {
        var x := heap[v].to.value;
        ghost var s := Now();
        ghost var t := s.(heap := heap[v := heap[v].(to := None)]);
        hide Lifetime.Release, Structure, Counted;
        ReleaseThenForget(s, t, v, x);
        Release(x);
        heap := heap[v := heap[v].(to := None)];
      }
    }

    /** Quic\Connection::close: the engine is told once, the struct only remembers it */
    method CloseConnection(c: Ref) returns (told: bool)
      requires Inv(Now()) && Enabled(Now(), Op.CloseConnection(c))
      modifies this
      ensures Now() == Apply(old(Now()), Op.CloseConnection(c))
      ensures c in old(heap) && old(heap)[c].body.ConnectionBody?
      ensures told <==> old(heap)[c].body.ssl.Some? && !old(heap)[c].body.closed
      ensures c in heap && heap[c].body.ConnectionBody? && (old(heap)[c].body.ssl.Some? ==> heap[c].body.closed)
    {
      CloseConnectionGives(Now(), c);
      var b := heap[c].body;
      told := b.ssl.Some? && !b.closed;
      if told {
        SetBody(c, ConnectionBody(b.ssl, b.fd, b.ownsFd, true));
        assert heap[c].body.closed && !old(heap)[c].body.closed;
      } else if b.ssl.Some? {
        assert heap[c].(body := b.(closed := true)) == heap[c];
        assert heap == heap[c := heap[c]];
      }
    }

    /** Quic\Listener::close */
    method CloseListener(l: Ref)
      requires Inv(Now()) && Enabled(Now(), Op.CloseListener(l))
      modifies this
      ensures Now() == Apply(old(Now()), Op.CloseListener(l))
      ensures l in heap && heap[l].body == ListenerBody(None, None, None, None)
    {
      CloseListenerGives(Now(), l);
      ListenerRelease(l);
    }

    /** Quic\Stream::getConnection */
    method GetConnection(x: Ref) returns (outcome: Outcome)
      requires Inv(Now()) && Enabled(Now(), Op.GetConnection(x))
      modifies this
      ensures Now() == Apply(old(Now()), Op.GetConnection(x))
      ensures outcome == if old(heap)[x].to.None? then Threw else Returned(old(heap)[x].to)
    {
      assert LinkOk(heap, heap[x], x.cls);
      if heap[x].to.None? {
        return Threw;
      }
      outcome := Returned(heap[x].to);
      vars := vars + multiset{heap[x].to.value};
      AddReference(heap[x].to.value);
    }

    // -------------------------------------------------------------- constructors

    /** The constructor running since start answers for exactly its locals and the fields it filled. */
    ghost predicate Owing()
      reads this
    {
      Owes(start, ledger, locals, fields)
    }

    ghost method Begin()
      requires Conserved(ledger)
      modifies this`start, this`locals, this`fields
      ensures Owing() && start == ledger && locals == {} && fields == map[]
    {
      start, locals, fields := ledger, {}, map[];
      OwesNothing(ledger);
    }

    /** A handle for a local variable. */
    method Take(kind: Kind) returns (h: Handle)
      requires Owing() && !kind.StreamSsl?
      modifies this`ledger, this`locals
      ensures Owing() && IsNew(old(ledger), ledger, h, kind) && old(ledger).kinds <= ledger.kinds
      ensures locals == old(locals) + {h} && h !in old(locals)
    {
      OwesTaken(start, ledger, locals, fields, kind);
      h := NativeAcquire(kind, Local);
      locals := locals + {h};
    }

    method Give(h: Handle)
      requires Owing() && h in locals
      modifies this`ledger, this`locals
      ensures Owing() && ledger.kinds == old(ledger).kinds && locals == old(locals) - {h}
    {
      OwesGiven(start, ledger, locals, fields, h);
      NativeFree(h);
      locals := locals - {h};
    }

    /** if (x != NULL) free(x) on a local */
    method GiveOpt(o: Option<Handle>)
      requires Owing() && (o.Some? ==> o.value in locals)
      modifies this`ledger, this`locals
      ensures Owing() && ledger.kinds == old(ledger).kinds && locals == old(locals) - Handled(o)
    {
      if o.Some? {
        Give(o.value);
      }
    }

    /** The handle moves from a local variable into an object's field. */
    method Keep(h: Handle, slot: Slot)
      requires Owing() && h in locals
      modifies this`ledger, this`locals, this`fields
      ensures Owing() && ledger.kinds == old(ledger).kinds
      ensures locals == old(locals) - {h} && fields == old(fields)[h := slot]
    {
      OwesKept(start, ledger, locals, fields, h, slot);
      ledger := Move(ledger, h, slot);
      locals, fields := locals - {h}, fields[h := slot];
    }

    /** One candidate address: a socket, or nothing left behind. */
    method TrySocket(c: Candidate, usable: bool) returns (sock: Option<Handle>)
      requires Owing()
      modifies this`ledger, this`locals
      ensures Owing() && old(ledger).kinds <= ledger.kinds
      ensures sock.Some? <==> c.socketOk && usable
      ensures sock.None? ==> locals == old(locals)
      ensures sock.Some? ==> IsNew(old(ledger), ledger, sock.value, Socket) && sock.value !in old(locals)
      ensures sock.Some? ==> locals == old(locals) + {sock.value}
    {
      hide Owes;
      if !c.socketOk {
        return None;
      }
      var fd := Take(Socket);
      if !usable {
        Give(fd);
        assert locals == old(locals);
        return None;
      }
      sock := Some(fd);
    }

    /** The loop over candidate addresses: a socket for the first usable one, and its position. */
    method FindSocket(candidates: seq<Candidate>, usable: Candidate -> bool) returns (ai: nat, sock: Option<Handle>)
      requires Owing()
      modifies this`ledger, this`locals
      ensures Owing() && old(ledger).kinds <= ledger.kinds
      ensures sock.None? ==> locals == old(locals) && forall c :: c in candidates ==> !(c.socketOk && usable(c))
      ensures sock.Some? ==>
        && IsNew(old(ledger), ledger, sock.value, Socket) && FirstUsable(candidates, usable, ai)
        && sock.value !in old(locals) && locals == old(locals) + {sock.value}
    {
      hide Owes;
      ai, sock := 0, None;
      while ai < |candidates|
        invariant 0 <= ai <= |candidates|
        invariant Owing() && old(ledger).kinds <= ledger.kinds && sock.None? && locals == old(locals)
        invariant forall i :: 0 <= i < ai ==> !(candidates[i].socketOk && usable(candidates[i]))
      {
        sock := TrySocket(candidates[ai], usable(candidates[ai]));
        if sock.Some? {
          return;
        }
        ai := ai + 1;
      }
    }

    /** BIO_ADDR_dup of the chosen candidate's address; without it the socket is closed again. */
    method CopyPeer(fd: Handle, ai: nat, dupOk: bool) returns (peer: Option<Handle>)
      requires Owing() && fd in locals
      modifies this`ledger, this`locals
      ensures Owing() && old(ledger).kinds <= ledger.kinds && peer.Some? == dupOk
      ensures !dupOk ==> locals == old(locals) - {fd}
      ensures dupOk ==>
        && IsNew(old(ledger), ledger, peer.value, PeerAddress(ai))
        && locals == old(locals) + {peer.value} && peer.value !in old(locals)
    {
      hide Owes;
      peer := None;
      if dupOk {
        var p := Take(PeerAddress(ai));
        peer := Some(p);
      } else {
        Give(fd);
      }
    }

    /** A connected socket to the first usable candidate and a copy of that candidate's address. */
    method FindPeer(candidates: seq<Candidate>, dupOk: bool) returns (found: Option<(Handle, Handle)>, ai: nat)
      requires Owing()
      modifies this`ledger, this`locals
      ensures Owing() && old(ledger).kinds <= ledger.kinds
      ensures found.Some? <==> dupOk && exists c :: c in candidates && ClientUsable(c)
      ensures found.None? ==> locals == old(locals)
      ensures found.Some? ==> IsPeer(old(ledger), ledger, found.value, ai) && FirstUsable(candidates, ClientUsable, ai)
      ensures found.Some? ==> locals == old(locals) + {found.value.0, found.value.1}
    {
      hide Owes;
      var sock;
      ai, sock := FindSocket(candidates, ClientUsable);
      if sock.None? {
        return None, ai;
      }
      assert candidates[ai] in candidates;
      var fd := sock.value;
      assert fd < |ledger.kinds| && ledger.kinds[fd] == Socket && fd in locals;
      label found:
      var peer := CopyPeer(fd, ai, dupOk);
      assert ledger.kinds[fd] == old@found(ledger).kinds[fd];
      found := if peer.Some? then Some((fd, peer.value)) else None;
    }

    /** php_quic_udp_client: the first candidate that can be opened, connected and made non-blocking,
        and a copy of its address. */
    method UdpClient(lookupOk: bool, candidates: seq<Candidate>, dupOk: bool)
        returns (found: Option<(Handle, Handle)>, ai: nat)
      requires Owing()
      modifies this`ledger, this`locals
      ensures Owing() && old(ledger).kinds <= ledger.kinds
      ensures found.Some? <==> lookupOk && dupOk && exists c :: c in candidates && ClientUsable(c)
      ensures found.None? ==> locals == old(locals)
      ensures found.Some? ==> IsPeer(old(ledger), ledger, found.value, ai) && FirstUsable(candidates, ClientUsable, ai)
      ensures found.Some? ==> candidates[ai].socketOk && candidates[ai].attachOk && candidates[ai].nonBlockingOk
      ensures found.Some? ==> locals == old(locals) + {found.value.0, found.value.1}
    {
      hide Owes;
      if !lookupOk {
        return None, 0;
      }
      var res := Take(AddressList);
      found, ai := FindPeer(candidates, dupOk);
      Give(res);
    }

    /** php_quic_udp_server: the first candidate that can be opened, shared, bound and made non-blocking. */
    method UdpServer(lookupOk: bool, candidates: seq<Candidate>, reusePort: bool) returns (sock: Option<Handle>, ai: nat)
      requires Owing()
      modifies this`ledger, this`locals
      ensures Owing() && old(ledger).kinds <= ledger.kinds
      ensures sock.Some? <==> lookupOk && exists c :: c in candidates && ServerUsable(c, reusePort)
      ensures sock.None? ==> locals == old(locals)
      ensures sock.Some? ==> IsNew(old(ledger), ledger, sock.value, Socket) && locals == old(locals) + {sock.value}
      ensures sock.Some? ==> FirstUsable(candidates, UsableFor(reusePort), ai)
      ensures sock.Some? ==> var c := candidates[ai];
        c.socketOk && (reusePort ==> c.reuseOk) && c.attachOk && c.nonBlockingOk
    {
      hide Owes;
      sock, ai := None, 0;
      if !lookupOk {
        return;
      }
      var res := Take(AddressList);
      ai, sock := FindSocket(candidates, UsableFor(reusePort));
      assert sock.Some? ==> candidates[ai] in candidates;
      Give(res);
    }

    /** From SSL_CTX_new to the end of the handshake and the pin check.  On failure ctx and ssl are
        the locals that the caller's cleanup still finds set. */
    method EngineSetup(env: ConnectEnv) returns (ctx: Option<Handle>, ssl: Option<Handle>, ok: bool)
      requires Owing()
      modifies this`ledger, this`locals
      ensures Owing() && old(ledger).kinds <= ledger.kinds
      ensures ok <==> EngineAccepts(env)
      ensures ok ==> ssl.Some? && ctx.None?
      ensures ctx.Some? ==> IsNew(old(ledger), ledger, ctx.value, SslCtx) && ssl.None?
      ensures ssl.Some? ==> IsNew(old(ledger), ledger, ssl.value, ConnectionSsl)
      ensures locals == old(locals) + Handled(ctx) + Handled(ssl)
    {
      hide Owes;
      ctx, ssl, ok := None, None, false;
      if !env.ctxOk {
        return;
      }
      var x := Take(SslCtx);
      ctx := Some(x);
      if !env.configureOk {
        return;
      }
      if !env.sslOk {
        return;
      }
      var s := Take(ConnectionSsl);
      ssl := Some(s);
      Give(x);
      ctx := None;
      if !env.bioOk {
        return;
      }
      if !env.alpnSetOk {
        return;
      }
      if !env.peerSetOk {
        return;
      }
      if env.verifyName && !env.nameSetOk {
        return;
      }
      if env.sniEnabled && !env.sniSetOk {
        return;
      }
      if !env.handshakeOk {
        return;
      }
      if env.pinGiven && !env.pinOk {
        return;
      }
      ok := true;
    }

    /** Everything after the ALPN option has been encoded into alpn.  Kept is the SSL and the socket
        that the object will own, or nothing when the constructor throws. */
    method Connect(env: ConnectEnv) returns (kept: Option<(Handle, Handle)>)
      requires Owing() && locals == {}
      modifies this`ledger, this`locals
      ensures Owing() && start == old(start)
      ensures kept.Some? <==> ConnectFinds(env) && EngineAccepts(env)
      ensures kept.None? ==> locals == {}
      ensures kept.Some? ==> locals == {kept.value.0, kept.value.1} && kept.value.0 != kept.value.1
      ensures kept.Some? ==> Acquired(ledger, kept.value.0, ConnectionSsl) && Acquired(ledger, kept.value.1, Socket)
    {
      hide Owes, EngineAccepts;
      var alpn := Take(AlpnBuffer);
      var found, _ := UdpClient(env.lookupOk, env.candidates, env.dupOk);
      if found.None? {
        Give(alpn);
        return None;
      }
      kept := Establish(env, alpn, found.value.0, found.value.1);
    }

    /** From SSL_CTX_new on, with three locals set. */
    method Establish(env: ConnectEnv, alpn: Handle, fd: Handle, peer: Handle) returns (kept: Option<(Handle, Handle)>)
      requires Owing() && locals == {alpn, fd, peer} && alpn != fd && alpn != peer && fd != peer
      requires Acquired(ledger, fd, Socket) && alpn < |ledger.kinds| && peer < |ledger.kinds|
      modifies this`ledger, this`locals
      ensures Owing()
      ensures kept.Some? <==> EngineAccepts(env)
      ensures kept.None? ==> locals == {}
      ensures kept.Some? ==> locals == {kept.value.0, kept.value.1} && kept.value.0 != kept.value.1
      ensures kept.Some? ==> Acquired(ledger, kept.value.0, ConnectionSsl) && Acquired(ledger, kept.value.1, Socket)
    {
      hide Owes, EngineAccepts;
      ghost var led := ledger;
      var ctx, ssl, ok := EngineSetup(env);
      StaysAcquired(led, ledger, fd, Socket);
      if ok {
        Give(alpn);
        Give(peer);
        return Some((ssl.value, fd));
      }
      Give(alpn);
      Give(peer);
      GiveOpt(ssl);
      GiveOpt(ctx);
      Give(fd);
      kept := None;
    }

    /** Quic\Connection::__construct */
    method ConstructConnection(c: Ref, env: ConnectEnv) returns (outcome: Outcome)
      requires Inv(Now()) && Enabled(Now(), Op.ConstructConnection(c))
      modifies this
      ensures Step(old(Now()), Op.ConstructConnection(c), Now())
      ensures c in old(heap) && old(heap)[c].body.ConnectionBody?
      ensures outcome == if old(heap)[c].body.ssl.None? && ConnectSucceeds(env) then Returned(None) else Threw
      ensures env.pinGiven && !env.pinOk ==> outcome == Threw
      ensures outcome == Returned(None) <==> heap != old(heap)
    {
      hide Owes, Structure, Counted, WellTyped, Balanced, ConnectFinds, EngineAccepts;
      HeldShape(Now(), c);
      ConnectSucceedsIff(env);
      if env.port < 1 || env.port > 65535 {
        RefusedConnection(Now(), c);
        return Threw;
      }
      if env.hostHasNul {
        RefusedConnection(Now(), c);
        return Threw;
      }
      if heap[c].body.ssl.Some? {
        return Threw;
      }
      if !env.alpnGiven || !env.alpnEncodes {
        RefusedConnection(Now(), c);
        return Threw;
      }
      Begin();
      ghost var s := Now();
      var kept := Connect(env);
      if kept.None? {
        OwesFields(start, ledger, fields);
        assert ConnectionConstructed(s, c, Now());
        return Threw;
      }
      var ssl, fd := kept.value.0, kept.value.1;
      Keep(ssl, Member(c, SslField));
      Keep(fd, Member(c, FdField));
      assert locals == {};
      OwesFields(start, ledger, fields);
      SetBody(c, ConnectionBody(Some(ssl), Some(fd), true, false));
      assert fields == map[ssl := Member(c, SslField), fd := Member(c, FdField)];
      assert ConnectionFilled(s, c, Now(), ssl, fd);
      assert heap[c].body != s.heap[c].body;
      outcome := Returned(None);
    }

    /** From SSL_CTX_new to SSL_listen, with the buffer in the local alpn.  Once the context is configured
        the callback data takes the buffer over and alpn is NULL; what is set at a failure is what the
        caller's cleanup finds. */
    method ListenSetup(env: ListenEnv, buffer: Handle)
        returns (alpn: Option<Handle>, adata: Option<Callback>, ctx: Option<Handle>, ssl: Option<Handle>, ok: bool)
      requires Owing() && buffer in locals
      modifies this`ledger, this`locals
      ensures Owing() && old(ledger).kinds <= ledger.kinds
      ensures ok <==> ListenerAccepts(env)
      ensures ok ==> ssl.Some? && ctx.Some? && adata.Some?
      // the buffer is in exactly one of the two
      ensures alpn == if env.ctxOk && env.configureOk then None else Some(buffer)
      ensures adata.Some? <==> alpn.None?
      ensures adata.Some? ==> adata.value.alpn == buffer && IsNew(old(ledger), ledger, adata.value.data, CallbackData)
      ensures ctx.Some? ==> IsNew(old(ledger), ledger, ctx.value, SslCtx)
      ensures ssl.Some? ==> IsNew(old(ledger), ledger, ssl.value, ListenerSsl)
      ensures locals == old(locals) + Handled(ctx) + Handled(ssl) + Handled(DataOf(adata))
    {
      hide Owes;
      alpn, adata, ctx, ssl, ok := Some(buffer), None, None, None, false;
      if !env.ctxOk {
        return;
      }
      var x := Take(SslCtx);
      ctx := Some(x);
      if !env.configureOk {
        return;
      }
      var data := Take(CallbackData);
      adata := Some(Callback(data, buffer));
      alpn := None;
      if !env.listenerOk {
        return;
      }
      var s := Take(ListenerSsl);
      ssl := Some(s);
      if !env.bioOk {
        return;
      }
      if !env.listenOk {
        return;
      }
      ok := true;
    }

    /** if (adata != NULL) { zend_string_release(adata->alpn); efree(adata); } */
    method GiveCallback(adata: Option<Callback>)
      requires Owing() && (adata.Some? ==> adata.value.alpn in locals && adata.value.data in locals)
      requires adata.Some? ==> adata.value.alpn != adata.value.data
      modifies this`ledger, this`locals
      ensures Owing() && ledger.kinds == old(ledger).kinds
      ensures locals == old(locals) - Handled(AlpnOf(adata)) - Handled(DataOf(adata))
    {
      if adata.Some? {
        Give(adata.value.alpn);
        Give(adata.value.data);
      }
    }

    /** cleanup_error: each of the five locals that is set is given back, the buffer by whichever of alpn
        and adata has it. */
    method ListenCleanup(alpn: Option<Handle>, adata: Option<Callback>, ssl: Option<Handle>, ctx: Option<Handle>, fd: Handle)
      requires Owing() && (alpn.Some? <==> adata.None?)
      requires locals == Handled(alpn) + Handled(AlpnOf(adata)) + Handled(DataOf(adata)) + Handled(ssl) + Handled(ctx) + {fd}
      requires AllApart(alpn, adata, ssl, ctx, fd)
      modifies this`ledger, this`locals
      ensures Owing() && locals == {}
    {
      hide Owes;
      GiveOpt(alpn);
      GiveCallback(adata);
      GiveOpt(ssl);
      GiveOpt(ctx);
      Give(fd);
    }

    /** Everything after the ALPN option has been encoded: the SSL, CTX, socket, ALPN buffer and callback
        data that the object will own, or nothing when the constructor throws. */
    method Listen(env: ListenEnv) returns (kept: Option<Listening>)
      requires Owing() && locals == {}
      modifies this`ledger, this`locals
      ensures Owing() && start == old(start)
      ensures kept.Some? <==> ListenFinds(env) && ListenerAccepts(env)
      ensures kept.None? ==> locals == {}
      ensures kept.Some? ==> var k := kept.value;
        locals == {k.ssl, k.ctx, k.fd, k.alpn, k.data} && ProperListening(ledger, k)
    {
      hide Owes, ListenerAccepts;
      var buffer := Take(AlpnBuffer);
      ghost var led := ledger;
      var sock, _ := UdpServer(env.lookupOk, env.candidates, env.reusePort);
      StaysAcquired(led, ledger, buffer, AlpnBuffer);
      if sock.None? {
        Give(buffer);
        return None;
      }
      kept := Serve(env, buffer, sock.value);
    }

    /** From SSL_CTX_new on, with two locals set. */
    method Serve(env: ListenEnv, buffer: Handle, fd: Handle) returns (kept: Option<Listening>)
      requires Owing() && locals == {buffer, fd} && buffer != fd
      requires Acquired(ledger, buffer, AlpnBuffer) && Acquired(ledger, fd, Socket)
      modifies this`ledger, this`locals
      ensures Owing()
      ensures kept.Some? <==> ListenerAccepts(env)
      ensures kept.None? ==> locals == {}
      ensures kept.Some? ==> var k := kept.value;
        locals == {k.ssl, k.ctx, k.fd, k.alpn, k.data} && ProperListening(ledger, k)
    {
      hide Owes, ListenerAccepts;
      ghost var led := ledger;
      var alpn, adata, ctx, ssl, ok := ListenSetup(env, buffer);
      StaysAcquired(led, ledger, fd, Socket);
      StaysAcquired(led, ledger, buffer, AlpnBuffer);
      if ok {
        return Some(Listening(ssl.value, ctx.value, fd, adata.value.alpn, adata.value.data));
      }
      ListenCleanup(alpn, adata, ssl, ctx, fd);
      kept := None;
    }

    /** Quic\Listener::__construct */
    method ConstructListener(l: Ref, env: ListenEnv) returns (outcome: Outcome)
      requires Inv(Now()) && Enabled(Now(), Op.ConstructListener(l))
      modifies this
      ensures Step(old(Now()), Op.ConstructListener(l), Now())
      ensures l in old(heap) && old(heap)[l].body.ListenerBody?
      ensures outcome == if old(heap)[l].body.ssl.None? && ListenSucceeds(env) then Returned(None) else Threw
      ensures outcome == Returned(None) <==> heap != old(heap)
    {
      hide Owes, Structure, Counted, WellTyped, Balanced, ListenFinds, ListenerAccepts, ListenerFilled;
      HeldShape(Now(), l);
      if env.port < 1 || env.port > 65535 {
        RefusedListener(Now(), l);
        return Threw;
      }
      if env.hostHasNul {
        RefusedListener(Now(), l);
        return Threw;
      }
      if heap[l].body.ssl.Some? {
        return Threw;
      }
      if !env.alpnGiven || !env.alpnEncodes {
        RefusedListener(Now(), l);
        return Threw;
      }
      Begin();
      ghost var s := Now();
      var kept := Listen(env);
      if kept.None? {
        OwesFields(start, ledger, fields);
        assert ListenerConstructed(s, l, Now());
        return Threw;
      }
      Fill(l, kept.value, s);
      outcome := Returned(None);
    }

    /** obj->ssl = ..., obj->ctx = ..., obj->fd = ..., obj->alpn_cb_arg = adata */
    method Fill(l: Ref, k: Listening, ghost s: State)
      requires Owing() && fields == map[] && start == s.ledger && heap == s.heap && vars == s.vars
      requires l in heap && heap[l].body == NewBody(ListenerClass)
      requires locals == {k.ssl, k.ctx, k.fd, k.alpn, k.data} && ProperListening(ledger, k)
      modifies this
      ensures vars == s.vars && heap != s.heap && ListenerFilled(s, l, Now(), k)
    {
      hide Owes, Balanced;
      KeepAll(l, k);
      OwesFields(start, ledger, fields);
      SetBody(l, ListeningBody(k));
      assert heap[l].body != s.heap[l].body;
    }

    method KeepAll(l: Ref, k: Listening)
      requires Owing() && fields == map[] && locals == {k.ssl, k.ctx, k.fd, k.alpn, k.data} && ProperListening(ledger, k)
      modifies this`ledger, this`locals, this`fields
      ensures Owing() && fields == ListenerSlots(l, k) && locals == {}
      ensures ledger.kinds == old(ledger).kinds
    {
      hide Owes;
      Keep(k.ssl, Member(l, SslField));
      assert locals == {k.ctx, k.fd, k.alpn, k.data};
      Keep(k.ctx, Member(l, CtxField));
      assert locals == {k.fd, k.alpn, k.data};
      Keep(k.fd, Member(l, FdField));
      assert locals == {k.alpn, k.data};
      Keep(k.alpn, Member(l, AlpnField));
      assert locals == {k.data};
      Keep(k.data, Member(l, DataField));
      assert locals == {};
    }

    // -------------------------------------------------------------- whole programs

    /** new C, before its constructor runs */
    method Create(r: Ref)
      requires Inv(Now()) && Enabled(Now(), Op.Create(r))
      modifies this
      ensures Now() == Apply(old(Now()), Op.Create(r))
    {
      heap := heap[r := Obj(1, None, NewBody(r.cls))];
      vars := vars + multiset{r};
    }

    /** $b = $a */
    method CopyVariable(r: Ref)
      requires Inv(Now()) && r in vars
      modifies this
      ensures Now() == Apply(old(Now()), Copy(r))
    {
      vars := vars + multiset{r};
      AddReference(r);
    }

    /** Any operation the program can do next is a step of the lifetime model, so what holds along the
        model's runs holds along the runs of this code. */
    method Perform(op: Op, connect: ConnectEnv, listen: ListenEnv)
      requires Inv(Now()) && Enabled(Now(), op)
      modifies this
      ensures Step(old(Now()), op, Now()) && Inv(Now())
    {
      hide Structure, Counted;
      ghost var s := Now();
      match op {
        case Copy(r) => CopyVariable(r);
        case Drop(r) => DropVariable(r);
        case Create(r) => Create(r);
        case Accept(l, c, got) => var _ := Accept(l, c, got);
        case OpenStream(c, x, got) => var _ := OpenStream(c, x, got, true);
        case ConstructStream(x, c, got) => var _ := ConstructStream(x, c, got);
        case GetConnection(x) => var _ := GetConnection(x);
        case AsStream(x, v, got) => var _ := AsStream(x, v, got);
        case Fclose(v) => Fclose(v);
        case CloseConnection(c) => var _ := CloseConnection(c);
        case CloseListener(l) => CloseListener(l);
        case ConstructConnection(c) => var _ := ConstructConnection(c, connect);
        case ConstructListener(l) => var _ := ConstructListener(l, listen);
      }
      StepKeeps(s, op, Now());
    }
  }

  /** When new Quic\Connection(...) succeeds, said of the answers it gets. */
  lemma ConnectSucceedsIff(env: ConnectEnv)
    ensures ConnectSucceeds(env) <==>
      && 1 <= env.port <= 65535 && !env.hostHasNul && env.alpnGiven && env.alpnEncodes && env.lookupOk && env.dupOk
      && (exists c :: c in env.candidates && c.socketOk && c.attachOk && c.nonBlockingOk)
      && env.ctxOk && env.configureOk && env.sslOk && env.bioOk && env.alpnSetOk && env.peerSetOk
      && (env.verifyName ==> env.nameSetOk) && (env.sniEnabled ==> env.sniSetOk)
      && env.handshakeOk && (env.pinGiven ==> env.pinOk)
  {
    if exists c :: c in env.candidates && c.socketOk && c.attachOk && c.nonBlockingOk {
      var c :| c in env.candidates && c.socketOk && c.attachOk && c.nonBlockingOk;
      assert ClientUsable(c);
    }
  }

  /** When new Quic\Listener(...) does. */
  lemma ListenSucceedsIff(env: ListenEnv)
    ensures ListenSucceeds(env) <==>
      && 1 <= env.port <= 65535 && !env.hostHasNul && env.alpnGiven && env.alpnEncodes && env.lookupOk
      && (exists c :: c in env.candidates && c.socketOk && (env.reusePort ==> c.reuseOk) && c.attachOk && c.nonBlockingOk)
      && env.ctxOk && env.configureOk && env.listenerOk && env.bioOk && env.listenOk
  {
    if exists c :: c in env.candidates && c.socketOk && (env.reusePort ==> c.reuseOk) && c.attachOk && c.nonBlockingOk {
      var c :| c in env.candidates && c.socketOk && (env.reusePort ==> c.reuseOk) && c.attachOk && c.nonBlockingOk;
      assert ServerUsable(c, env.reusePort);
    }
  }

  /** A constructor that throws before it acquires anything. */
  lemma RefusedConnection(s: State, c: Ref)
    requires Inv(s) && c in s.heap && s.heap[c].body.ConnectionBody?
    ensures ConnectionConstructed(s, c, s)
  {
    NothingYet(s.ledger);
  }

  lemma RefusedListener(s: State, l: Ref)
    requires Inv(s) && l in s.heap && s.heap[l].body.ListenerBody?
    ensures ListenerConstructed(s, l, s)
  {
    NothingYet(s.ledger);
  }

  lemma StaysAcquired(led: Ledger, led': Ledger, h: Handle, kind: Kind)
    requires led.kinds <= led'.kinds && Acquired(led, h, kind)
    ensures Acquired(led', h, kind)
  {
    assert led'.kinds[h] == led.kinds[h];
  }

  /** No two of the locals that are set hold the same handle. */
  ghost predicate AllApart(alpn: Option<Handle>, adata: Option<Callback>, ssl: Option<Handle>, ctx: Option<Handle>, fd: Handle) {
    && Handled(alpn) !! Handled(AlpnOf(adata)) !! Handled(DataOf(adata)) !! Handled(ssl) !! Handled(ctx) !! {fd}
  }

  ghost function Handled(o: Option<Handle>): set<Handle> {
    match o case None => {} case Some(h) => {h}
  }

  ghost predicate IsNew(led: Ledger, led': Ledger, h: Handle, kind: Kind) {
    |led.kinds| <= h < |led'.kinds| && led'.kinds[h] == kind
  }

  /** A new socket and a new copy of candidate ai's address. */
  ghost predicate IsPeer(led: Ledger, led': Ledger, found: (Handle, Handle), ai: nat) {
    IsNew(led, led', found.0, Socket) && IsNew(led, led', found.1, PeerAddress(ai)) && found.0 != found.1
  }

  /** i is the first candidate that is usable. */
  ghost predicate FirstUsable(candidates: seq<Candidate>, usable: Candidate -> bool, i: nat) {
    && i < |candidates| && candidates[i].socketOk && usable(candidates[i])
    && forall j :: 0 <= j < i ==> !(candidates[j].socketOk && usable(candidates[j]))
  }
}
