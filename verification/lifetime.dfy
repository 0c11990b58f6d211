/** Lifetime of Quic\Listener, Quic\Connection, Quic\Stream and php_stream resources: a heap of
    reference-counted objects, the variables of the PHP program, and the resource ledger, with
    every user operation as a step.  Whole-run results are at the end of the module. */
module Lifetime {
  import opened Common
  import opened Ledgers

  /** The argument of the ALPN callback: the allocated quic_alpn_data, and the buffer it points to. */
  datatype Callback = Callback(data: Handle, alpn: Handle)

  /** The C struct of each class, without the embedded zend_object. */
  datatype Body =
    | ListenerBody(ssl: Option<Handle>, ctx: Option<Handle>, fd: Option<Handle>, callback: Option<Callback>)
    | ConnectionBody(ssl: Option<Handle>, fd: Option<Handle>, ownsFd: bool, closed: bool)
    | StreamBody(ssl: Option<Handle>)
    | ResourceBody

  /** An object: its reference count, the one reference it holds (stream to connection, accepted
      connection to listener, php_stream resource to stream), and its struct. */
  datatype Obj = Obj(rc: nat, to: Option<Ref>, body: Body)

  datatype State = State(heap: map<Ref, Obj>, vars: multiset<Ref>, ledger: Ledger)

  const EMPTY := State(map[], multiset{}, EMPTY_LEDGER)

  function Rank(cls: Class): nat {
    match cls
    case ListenerClass => 0
    case ConnectionClass => 1
    case StreamClass => 2
    case ResourceClass => 3
  }

  /** What create_object leaves in the struct. */
  function NewBody(cls: Class): Body {
    match cls
    case ListenerClass => ListenerBody(None, None, None, None)
    case ConnectionClass => ConnectionBody(None, None, false, false)
    case StreamClass => StreamBody(None)
    case ResourceClass => ResourceBody
  }

  function Opt(o: Option<Handle>): seq<Handle> {
    match o case None => [] case Some(h) => [h]
  }

  function AlpnOf(cb: Option<Callback>): Option<Handle> {
    match cb case None => None case Some(c) => Some(c.alpn)
  }

  function DataOf(cb: Option<Callback>): Option<Handle> {
    match cb case None => None case Some(c) => Some(c.data)
  }

  /** The handles a struct has to give back, in the order the C code frees them. */
  function Handles(b: Body): seq<Handle> {
    match b
    case ListenerBody(ssl, ctx, fd, cb) => Opt(ssl) + Opt(fd) + Opt(ctx) + Opt(AlpnOf(cb)) + Opt(DataOf(cb))
    case ConnectionBody(ssl, fd, ownsFd, _) => Opt(ssl) + (if ownsFd then Opt(fd) else [])
    case StreamBody(ssl) => Opt(ssl)
    case ResourceBody => []
  }

  /** The handle a field answers for; a borrowed socket is nobody's but the listener's. */
  function FieldOf(b: Body, f: Field): Option<Handle> {
    match (b, f)
    case (ListenerBody(ssl, _, _, _), SslField) => ssl
    case (ListenerBody(_, ctx, _, _), CtxField) => ctx
    case (ListenerBody(_, _, fd, _), FdField) => fd
    case (ListenerBody(_, _, _, cb), AlpnField) => AlpnOf(cb)
    case (ListenerBody(_, _, _, cb), DataField) => DataOf(cb)
    case (ConnectionBody(ssl, _, _, _), SslField) => ssl
    case (ConnectionBody(_, fd, ownsFd, _), FdField) => if ownsFd then fd else None
    case (StreamBody(ssl), SslField) => ssl
    case _ => None
  }

  predicate KindFits(kind: Kind, cls: Class, f: Field) {
    match (cls, f)
    case (ListenerClass, SslField) => kind == ListenerSsl
    case (ListenerClass, CtxField) => kind == SslCtx
    case (ListenerClass, AlpnField) => kind == AlpnBuffer
    case (ListenerClass, DataField) => kind == CallbackData
    case (ConnectionClass, SslField) => kind == ConnectionSsl
    case (StreamClass, SslField) => kind.StreamSsl?
    case (_, FdField) => kind == Socket
    case _ => false
  }

  // ---------------------------------------------------------------- operations

  /** zval_ptr_dtor / OBJ_RELEASE: count down, and at zero free the object and pass on. */
  function Release(s: State, r: Ref): State
    decreases Rank(r.cls)
  {
    if r !in s.heap then s
    else if s.heap[r].rc > 1 then s.(heap := s.heap[r := s.heap[r].(rc := s.heap[r].rc - 1)])
    else
      var o := s.heap[r];
      var s' := s.(heap := s.heap - {r}, ledger := FreeAll(s.ledger, Handles(o.body)));
      if o.to.Some? && Rank(o.to.value.cls) < Rank(r.cls) then Release(s', o.to.value) else s'
  }

  function AddRef(s: State, r: Ref): State {
    if r in s.heap then s.(heap := s.heap[r := s.heap[r].(rc := s.heap[r].rc + 1)]) else s
  }

  /** quic_listener_release: free every handle and clear the fields. */
  function ReleaseListener(s: State, l: Ref): State
    requires l in s.heap
  {
    s.(heap := s.heap[l := s.heap[l].(body := NewBody(ListenerClass))],
       ledger := FreeAll(s.ledger, Handles(s.heap[l].body)))
  }

  /** What a PHP program can do.  got is the engine's answer (false: NULL or an error). */
  datatype Op =
    | Copy(r: Ref)
    | Drop(r: Ref)
    | Create(r: Ref)
    | Accept(l: Ref, c: Ref, got: bool)
    | OpenStream(c: Ref, x: Ref, got: bool)
    | ConstructStream(x: Ref, c: Ref, got: bool)
    | GetConnection(x: Ref)
    | AsStream(x: Ref, v: Ref, got: bool)
    | Fclose(v: Ref)
    | CloseConnection(c: Ref)
    | CloseListener(l: Ref)
    | ConstructConnection(c: Ref)
    | ConstructListener(l: Ref)

  predicate Holds(s: State, r: Ref, cls: Class) {
    r.cls == cls && r in s.vars
  }

  /** The program only reaches objects through its variables; a new object gets a number that no
      live object has. */
  predicate Enabled(s: State, op: Op) {
    match op
    case Copy(r) => r in s.vars
    case Drop(r) => r in s.vars
    case Create(r) => r !in s.heap && !r.cls.ResourceClass?
    case Accept(l, c, _) => Holds(s, l, ListenerClass) && c.cls.ConnectionClass? && c !in s.heap
    case OpenStream(c, x, _) => Holds(s, c, ConnectionClass) && x.cls.StreamClass? && x !in s.heap
    case ConstructStream(x, c, _) => Holds(s, x, StreamClass) && Holds(s, c, ConnectionClass)
    case GetConnection(x) => Holds(s, x, StreamClass)
    case AsStream(x, v, _) => Holds(s, x, StreamClass) && v.cls.ResourceClass? && v !in s.heap
    case Fclose(v) => Holds(s, v, ResourceClass)
    case CloseConnection(c) => Holds(s, c, ConnectionClass)
    case CloseListener(l) => Holds(s, l, ListenerClass)
    case ConstructConnection(c) => Holds(s, c, ConnectionClass)
    case ConstructListener(l) => Holds(s, l, ListenerClass)
  }

  function AcceptOp(s: State, l: Ref, c: Ref, got: bool): State
    requires l in s.heap && s.heap[l].body.ListenerBody?
  {
    if s.heap[l].body.ssl.None? || !got then s else
    var h := |s.ledger.kinds|;
    var conn := Obj(1, Some(l), ConnectionBody(Some(h), s.heap[l].body.fd, false, false));
    var s' := AddRef(s, l);
    State(s'.heap[c := conn], s.vars + multiset{c}, Acquire(s.ledger, ConnectionSsl, Member(c, SslField)))
  }

  function OpenStreamOp(s: State, c: Ref, x: Ref, got: bool): State
    requires c in s.heap && s.heap[c].body.ConnectionBody?
  {
    if s.heap[c].body.ssl.None? || !got then s else
    var h := |s.ledger.kinds|;
    var s' := AddRef(s, c);
    State(s'.heap[x := Obj(1, Some(c), StreamBody(Some(h)))], s.vars + multiset{x},
          Acquire(s.ledger, StreamSsl(s.heap[c].body.ssl.value), Member(x, SslField)))
  }

  function ConstructStreamOp(s: State, x: Ref, c: Ref, got: bool): State
    requires x in s.heap && s.heap[x].body.StreamBody?
    requires c in s.heap && s.heap[c].body.ConnectionBody? && c != x
  {
    if s.heap[x].body.ssl.Some? || s.heap[c].body.ssl.None? || !got then s else
    var h := |s.ledger.kinds|;
    var s' := AddRef(s, c);
    State(s'.heap[x := Obj(s.heap[x].rc, Some(c), StreamBody(Some(h)))], s.vars,
          Acquire(s.ledger, StreamSsl(s.heap[c].body.ssl.value), Member(x, SslField)))
  }

  function AsStreamOp(s: State, x: Ref, v: Ref, got: bool): State
    requires x in s.heap && s.heap[x].body.StreamBody?
  {
    if s.heap[x].body.ssl.None? || !got then s else
    var s' := AddRef(s, x);
    s'.(heap := s'.heap[v := Obj(1, Some(x), ResourceBody)], vars := s.vars + multiset{v})
  }

  function FcloseOp(s: State, v: Ref): State
    requires v in s.heap
  {
    if s.heap[v].to.None? then s else
    Release(s.(heap := s.heap[v := s.heap[v].(to := None)]), s.heap[v].to.value)
  }

  /** The state after an operation other than the two constructors with cleanup paths. */
  function Apply(s: State, op: Op): State
    requires WellTyped(s) && Enabled(s, op)
    requires !op.ConstructConnection? && !op.ConstructListener?
  {
    match op
    case Copy(r) => AddRef(s.(vars := s.vars + multiset{r}), r)
    case Drop(r) => Release(s.(vars := s.vars - multiset{r}), r)
    case Create(r) => s.(heap := s.heap[r := Obj(1, None, NewBody(r.cls))], vars := s.vars + multiset{r})
    case Accept(l, c, got) => assert ShapeOk(l, s.heap[l]); AcceptOp(s, l, c, got)
    case OpenStream(c, x, got) => assert ShapeOk(c, s.heap[c]); OpenStreamOp(s, c, x, got)
    case ConstructStream(x, c, got) =>
      assert ShapeOk(x, s.heap[x]) && ShapeOk(c, s.heap[c]);
      ConstructStreamOp(s, x, c, got)
    case GetConnection(x) =>
      if s.heap[x].to.None? then s
      else AddRef(s.(vars := s.vars + multiset{s.heap[x].to.value}), s.heap[x].to.value)
    case AsStream(x, v, got) => assert ShapeOk(x, s.heap[x]); AsStreamOp(s, x, v, got)
    case Fclose(v) => FcloseOp(s, v)
    case CloseConnection(c) =>
      assert ShapeOk(c, s.heap[c]);
      if s.heap[c].body.ssl.None? then s
      else s.(heap := s.heap[c := s.heap[c].(body := s.heap[c].body.(closed := true))])
    case CloseListener(l) => ReleaseListener(s, l)
  }

  /** Connection::__construct: refused on an established connection; otherwise every resource taken
      on the way is given back, except that success keeps the SSL and its own socket. */
  ghost predicate ConnectionConstructed(s: State, c: Ref, s': State)
    requires c in s.heap && s.heap[c].body.ConnectionBody?
  {
    && s'.vars == s.vars
    && if s.heap[c].body.ssl.Some? then s' == s
       else || (s'.heap == s.heap && Balanced(s.ledger, s'.ledger, map[]))
            || exists ssl: Handle, fd: Handle :: ConnectionFilled(s, c, s', ssl, fd)
  }

  ghost predicate ConnectionFilled(s: State, c: Ref, s': State, ssl: Handle, fd: Handle)
    requires c in s.heap
  {
    && ssl != fd
    && Balanced(s.ledger, s'.ledger, map[ssl := Member(c, SslField), fd := Member(c, FdField)])
    && Acquired(s'.ledger, ssl, ConnectionSsl) && Acquired(s'.ledger, fd, Socket)
    && s'.heap == s.heap[c := s.heap[c].(body := ConnectionBody(Some(ssl), Some(fd), true, false))]
  }

  /** The five resources of a listening Listener. */
  datatype Listening = Listening(ssl: Handle, ctx: Handle, fd: Handle, alpn: Handle, data: Handle)

  function ListeningBody(k: Listening): Body {
    ListenerBody(Some(k.ssl), Some(k.ctx), Some(k.fd), Some(Callback(k.data, k.alpn)))
  }

  function ListenerSlots(l: Ref, k: Listening): map<Handle, Slot> {
    map[k.ssl := Member(l, SslField), k.ctx := Member(l, CtxField), k.fd := Member(l, FdField),
        k.alpn := Member(l, AlpnField), k.data := Member(l, DataField)]
  }

  /** They are five, each of its kind. */
  ghost predicate ProperListening(led: Ledger, k: Listening) {
    && k.ssl != k.ctx && k.ssl != k.fd && k.ssl != k.alpn && k.ssl != k.data && k.ctx != k.fd
    && k.ctx != k.alpn && k.ctx != k.data && k.fd != k.alpn && k.fd != k.data && k.alpn != k.data
    && Acquired(led, k.ssl, ListenerSsl) && Acquired(led, k.ctx, SslCtx) && Acquired(led, k.fd, Socket)
    && Acquired(led, k.alpn, AlpnBuffer) && Acquired(led, k.data, CallbackData)
  }

  /** Listener::__construct: as above; success keeps the SSL, the CTX, the socket and the callback data
      with the ALPN buffer. */
  ghost predicate ListenerConstructed(s: State, l: Ref, s': State)
    requires l in s.heap && s.heap[l].body.ListenerBody?
  {
    && s'.vars == s.vars
    && if s.heap[l].body.ssl.Some? then s' == s
       else || (s'.heap == s.heap && Balanced(s.ledger, s'.ledger, map[]))
            || exists k: Listening :: ListenerFilled(s, l, s', k)
  }

  ghost predicate ListenerFilled(s: State, l: Ref, s': State, k: Listening)
    requires l in s.heap
  {
    && ProperListening(s'.ledger, k) && Balanced(s.ledger, s'.ledger, ListenerSlots(l, k))
    && s'.heap == s.heap[l := s.heap[l].(body := ListeningBody(k))]
  }

  ghost predicate Acquired(led: Ledger, h: Handle, kind: Kind) {
    h < |led.kinds| && led.kinds[h] == kind
  }

  ghost predicate Step(s: State, op: Op, s': State)
    requires WellTyped(s) && Enabled(s, op)
  {
    match op
    case ConstructConnection(c) => assert ShapeOk(c, s.heap[c]); ConnectionConstructed(s, c, s')
    case ConstructListener(l) => assert ShapeOk(l, s.heap[l]); ListenerConstructed(s, l, s')
    case _ => s' == Apply(s, op)
  }

  // ---------------------------------------------------------------- the invariant

  predicate ShapeOk(r: Ref, o: Obj) {
    match o.body
    case ListenerBody(ssl, ctx, fd, cb) =>
      r.cls.ListenerClass? && o.to.None? && ssl.Some? == ctx.Some? == fd.Some? == cb.Some?
    case ConnectionBody(ssl, fd, ownsFd, closed) =>
      && r.cls.ConnectionClass?
      && (ssl.None? ==> o.to.None? && fd.None? && !closed)
      && (ssl.Some? ==> fd.Some?)
      && (ownsFd <==> ssl.Some? && o.to.None?)
    case StreamBody(ssl) => r.cls.StreamClass? && (ssl.Some? <==> o.to.Some?)
    case ResourceBody => r.cls.ResourceClass?
  }

  /** A reference leads to a live object one class down, so no cycle can form. */
  predicate LinkOk(heap: map<Ref, Obj>, o: Obj, cls: Class) {
    o.to.Some? ==> o.to.value in heap && Rank(o.to.value.cls) + 1 == Rank(cls)
  }

  /** Every variable names a live object; every live object has the struct of its class and a proper
      reference.  The triggers keep the verifier from following references from object to object. */
  ghost predicate WellTyped(s: State) {
    && (forall r :: r in s.vars ==> r in s.heap)
    && (forall r {:trigger ShapeOk(r, s.heap[r])} :: r in s.heap ==> ShapeOk(r, s.heap[r]))
    && (forall r {:trigger LinkOk(s.heap, s.heap[r], r.cls)} :: r in s.heap ==> LinkOk(s.heap, s.heap[r], r.cls))
  }

  ghost function Referrers(heap: map<Ref, Obj>, r: Ref): set<Ref> {
    set q | q in heap && heap[q].to == Some(r)
  }

  /** A count is exactly the variables plus the objects that refer to the object; pending is a
      reference that its holder has given up but that has not been counted down yet. */
  ghost predicate CountOk(s: State, pending: Option<Ref>, r: Ref)
    requires r in s.heap
  {
    && s.heap[r].rc >= 1
    && s.heap[r].rc == s.vars[r] + |Referrers(s.heap, r)| + (if pending == Some(r) then 1 else 0)
  }

  ghost predicate Counted(s: State, pending: Option<Ref>) {
    && (pending.Some? ==> pending.value in s.heap)
    && forall r {:trigger CountOk(s, pending, r)} :: r in s.heap ==> CountOk(s, pending, r)
  }

  /** Every held handle is in the field that answers for it. */
  ghost predicate HeldByFields(s: State) {
    forall h :: h in s.ledger.owner ==> AnswersFor(s.heap, s.ledger.owner[h], h)
  }

  predicate AnswersFor(heap: map<Ref, Obj>, slot: Slot, h: Handle) {
    slot.Member? && slot.obj in heap && FieldOf(heap[slot.obj].body, slot.field) == Some(h)
  }

  /** Every handle in a field is held, by that field, and is of the kind the field is for. */
  ghost predicate FieldsHold(s: State) {
    forall r, f :: r in s.heap && FieldOf(s.heap[r].body, f).Some? ==>
      var h := FieldOf(s.heap[r].body, f).value;
      && h in s.ledger.owner && s.ledger.owner[h] == Member(r, f)
      && h < |s.ledger.kinds| && KindFits(s.ledger.kinds[h], r.cls, f)
  }

  /** A stream SSL lives on the SSL of the connection its Stream refers to. */
  predicate ParentOk(heap: map<Ref, Obj>, kinds: seq<Kind>, o: Obj) {
    o.body.StreamBody? && o.body.ssl.Some? ==>
      && o.to.Some? && o.to.value in heap && heap[o.to.value].body.ConnectionBody?
      && o.body.ssl.value < |kinds| && kinds[o.body.ssl.value].StreamSsl?
      && heap[o.to.value].body.ssl == Some(kinds[o.body.ssl.value].parent)
  }

  ghost predicate ParentsOk(s: State) {
    forall r {:trigger ParentOk(s.heap, s.ledger.kinds, s.heap[r])} :: r in s.heap ==>
      ParentOk(s.heap, s.ledger.kinds, s.heap[r])
  }

  /** The socket an accepted connection borrowed is its listener's, while it is open at all. */
  predicate BorrowOk(led: Ledger, o: Obj) {
    o.body.ConnectionBody? && o.body.fd.Some? && o.to.Some? ==>
      var f := o.body.fd.value;
      && f < |led.kinds| && led.kinds[f] == Socket
      && (f in led.owner ==> led.owner[f] == Member(o.to.value, FdField))
  }

  ghost predicate BorrowsOk(s: State) {
    forall r {:trigger BorrowOk(s.ledger, s.heap[r])} :: r in s.heap ==> BorrowOk(s.ledger, s.heap[r])
  }

  ghost predicate Structure(s: State) {
    && WellTyped(s) && HeldByFields(s) && FieldsHold(s) && ParentsOk(s) && BorrowsOk(s)
    && Conserved(s.ledger) && ChildrenFirst(s.ledger)
  }

  ghost predicate Inv(s: State) {
    Structure(s) && Counted(s, None)
  }

  /** The parts of the invariant that the code relies on. */
  lemma Shape(s: State, r: Ref)
    requires Inv(s) && r in s.heap
    ensures ShapeOk(r, s.heap[r]) && WellTyped(s) && Conserved(s.ledger)
  {
  }

  lemma HeldShape(s: State, r: Ref)
    requires Inv(s) && r in s.vars
    ensures r in s.heap && ShapeOk(r, s.heap[r]) && WellTyped(s) && Conserved(s.ledger)
  {
    Shape(s, r);
  }

  // ---------------------------------------------------------------- release keeps the invariant

  lemma BodyHandles(b: Body, h: Handle)
    ensures h in Handles(b) <==> exists f :: FieldOf(b, f) == Some(h)
  {
    if b.ListenerBody? {
      assert Handles(b) == Opt(b.ssl) + Opt(b.fd) + Opt(b.ctx) + Opt(AlpnOf(b.callback)) + Opt(DataOf(b.callback));
      assert FieldOf(b, SslField) == b.ssl && FieldOf(b, CtxField) == b.ctx;
      assert FieldOf(b, FdField) == b.fd && FieldOf(b, AlpnField) == AlpnOf(b.callback);
      assert FieldOf(b, DataField) == DataOf(b.callback);
    } else if b.ConnectionBody? {
      assert FieldOf(b, SslField) == b.ssl;
      assert FieldOf(b, FdField) == if b.ownsFd then b.fd else None;
    } else if b.StreamBody? {
      assert FieldOf(b, SslField) == b.ssl;
    }
  }

  lemma AppendOpt(hs: seq<Handle>, o: Option<Handle>)
    requires Distinct(hs) && (o.Some? ==> o.value !in hs)
    ensures Distinct(hs + Opt(o))
    ensures forall h :: h in hs + Opt(o) <==> h in hs || o == Some(h)
  {
  }

  lemma FiveDistinct(a: Option<Handle>, b: Option<Handle>, c: Option<Handle>, d: Option<Handle>, e: Option<Handle>)
    requires a.Some? ==> a != b && a != c && a != d && a != e
    requires (b.Some? ==> b != c && b != d && b != e) && (c.Some? ==> c != d && c != e) && (d.Some? ==> d != e)
    ensures Distinct(Opt(a) + Opt(b) + Opt(c) + Opt(d) + Opt(e)) && Distinct(Opt(a) + Opt(b))
  {
    AppendOpt([], a);
    assert [] + Opt(a) == Opt(a);
    hide Opt;
    AppendOpt(Opt(a), b);
    AppendOpt(Opt(a) + Opt(b), c);
    AppendOpt(Opt(a) + Opt(b) + Opt(c), d);
    AppendOpt(Opt(a) + Opt(b) + Opt(c) + Opt(d), e);
  }

  lemma BodyHandlesDistinct(b: Body)
    requires forall f, g :: FieldOf(b, f).Some? && FieldOf(b, f) == FieldOf(b, g) ==> f == g
    ensures Distinct(Handles(b))
  {
    FiveDistinct(FieldOf(b, SslField), FieldOf(b, FdField), FieldOf(b, CtxField), FieldOf(b, AlpnField), FieldOf(b, DataField));
    if b.ConnectionBody? {
      assert Handles(b) == Opt(FieldOf(b, SslField)) + Opt(FieldOf(b, FdField));
    }
  }

  /** The handles an object gives back are exactly those the ledger has under its name. */
  lemma HandlesAreHeld(s: State, r: Ref)
    requires FieldsHold(s) && HeldByFields(s) && r in s.heap
    ensures Distinct(Handles(s.heap[r].body))
    ensures forall h :: h in Handles(s.heap[r].body) <==>
      h in s.ledger.owner && s.ledger.owner[h].Member? && s.ledger.owner[h].obj == r
  {
    var b := s.heap[r].body;
    forall f, g | FieldOf(b, f).Some? && FieldOf(b, f) == FieldOf(b, g)
      ensures f == g
    {
      assert Member(r, f) == Member(r, g);
    }
    BodyHandlesDistinct(b);
    forall h
      ensures h in Handles(b) <==> h in s.ledger.owner && s.ledger.owner[h].Member? && s.ledger.owner[h].obj == r
    {
      BodyHandles(b, h);
      if h in s.ledger.owner && s.ledger.owner[h].Member? && s.ledger.owner[h].obj == r {
        assert AnswersFor(s.heap, s.ledger.owner[h], h);
      }
    }
  }

  /** With no object left that refers to it, an object's handles have no held stream SSL on them. */
  lemma UnreferredHasNoChildren(s: State, r: Ref, h: Handle)
    requires Structure(s) && r in s.heap && Referrers(s.heap, r) == {}
    requires h in s.ledger.owner && s.ledger.owner[h].Member? && s.ledger.owner[h].obj == r
    ensures NoChildren(s.ledger, h)
  {
    forall k | k in s.ledger.owner && k < |s.ledger.kinds| && s.ledger.kinds[k].StreamSsl?
      ensures s.ledger.kinds[k].parent != h
    {
      var slot := s.ledger.owner[k];
      assert AnswersFor(s.heap, slot, k);
      var x := slot.obj;
      assert FieldOf(s.heap[x].body, slot.field) == Some(k);
      assert ShapeOk(x, s.heap[x]) && KindFits(s.ledger.kinds[k], x.cls, slot.field);
      assert ParentOk(s.heap, s.ledger.kinds, s.heap[x]);
      var c := s.heap[x].to.value;
      assert FieldOf(s.heap[c].body, SslField) == Some(s.ledger.kinds[k].parent);
      assert x !in Referrers(s.heap, r);
    }
  }

  /** The object is gone and its handles with it; its own reference is still to be counted down. */
  function Destroy(s: State, r: Ref): State
    requires r in s.heap
  {
    s.(heap := s.heap - {r}, ledger := FreeAll(s.ledger, Handles(s.heap[r].body)))
  }

  lemma RemoveReferrer(heap: map<Ref, Obj>, r: Ref, q: Ref)
    requires r in heap
    ensures |Referrers(heap - {r}, q)| + (if heap[r].to == Some(q) then 1 else 0) == |Referrers(heap, q)|
  {
    if heap[r].to == Some(q) {
      assert Referrers(heap, q) == Referrers(heap - {r}, q) + {r};
    } else {
      assert Referrers(heap, q) == Referrers(heap - {r}, q);
    }
  }

  /** The last reference is the pending one, so nothing else leads to the object. */
  lemma LastReference(s: State, r: Ref)
    requires Counted(s, Some(r)) && s.heap[r].rc == 1
    ensures Referrers(s.heap, r) == {} && r !in s.vars
  {
    assert CountOk(s, Some(r), r);
    assert |Referrers(s.heap, r)| == 0;
  }

  lemma DestroyCounts(s: State, r: Ref)
    requires Counted(s, Some(r)) && s.heap[r].rc == 1 && WellTyped(s)
    ensures Counted(Destroy(s, r), s.heap[r].to) && WellTyped(Destroy(s, r))
  {
    LastReference(s, r);
    var s' := Destroy(s, r);
    assert LinkOk(s.heap, s.heap[r], r.cls);
    forall q | q in s'.heap
      ensures LinkOk(s'.heap, s'.heap[q], q.cls) && CountOk(s', s.heap[r].to, q) && ShapeOk(q, s'.heap[q])
    {
      assert ShapeOk(q, s.heap[q]) && LinkOk(s.heap, s.heap[q], q.cls) && CountOk(s, Some(r), q);
      assert q !in Referrers(s.heap, r);
      RemoveReferrer(s.heap, r, q);
    }
  }

  lemma DestroyFields(s: State, r: Ref)
    requires HeldByFields(s) && FieldsHold(s) && r in s.heap
    ensures HeldByFields(Destroy(s, r)) && FieldsHold(Destroy(s, r))
  {
    var hs := Handles(s.heap[r].body);
    var s' := Destroy(s, r);
    HandlesAreHeld(s, r);
    FreeAllEffect(s.ledger, hs);
    forall h | h in s'.ledger.owner
      ensures AnswersFor(s'.heap, s'.ledger.owner[h], h)
    {
      assert h !in hs && AnswersFor(s.heap, s.ledger.owner[h], h);
    }
    forall q, f | q in s'.heap && FieldOf(s'.heap[q].body, f).Some?
      ensures var h := FieldOf(s'.heap[q].body, f).value;
        && h in s'.ledger.owner && s'.ledger.owner[h] == Member(q, f)
        && h < |s'.ledger.kinds| && KindFits(s'.ledger.kinds[h], q.cls, f)
    {
      assert FieldOf(s.heap[q].body, f).value !in hs;
    }
  }

  lemma DestroyLedger(s: State, r: Ref)
    requires Structure(s) && r in s.heap && Referrers(s.heap, r) == {}
    ensures Conserved(Destroy(s, r).ledger) && ChildrenFirst(Destroy(s, r).ledger)
  {
    var hs := Handles(s.heap[r].body);
    HandlesAreHeld(s, r);
    forall h | h in hs ensures NoChildren(s.ledger, h) { UnreferredHasNoChildren(s, r, h); }
    FreeAllKeeps(s.ledger, hs);
  }

  lemma DestroyKeeps(s: State, r: Ref)
    requires Structure(s) && Counted(s, Some(r)) && s.heap[r].rc == 1
    ensures Structure(Destroy(s, r)) && Counted(Destroy(s, r), s.heap[r].to)
  {
    var s' := Destroy(s, r);
    LastReference(s, r);
    DestroyCounts(s, r);
    DestroyFields(s, r);
    DestroyLedger(s, r);
    FreeAllEffect(s.ledger, Handles(s.heap[r].body));
    forall q | q in s'.heap
      ensures ParentOk(s'.heap, s'.ledger.kinds, s'.heap[q]) && BorrowOk(s'.ledger, s'.heap[q])
    {
      assert ParentOk(s.heap, s.ledger.kinds, s.heap[q]) && BorrowOk(s.ledger, s.heap[q]);
      assert q !in Referrers(s.heap, r);
    }
  }

  /** Objects differ in their reference counts only. */
  ghost predicate SameObjects(heap: map<Ref, Obj>, heap': map<Ref, Obj>) {
    heap.Keys == heap'.Keys && forall r :: r in heap ==> heap[r].to == heap'[r].to && heap[r].body == heap'[r].body
  }

  lemma SameObjectsKeep(s: State, s': State)
    requires Structure(s) && SameObjects(s.heap, s'.heap) && s'.ledger == s.ledger
    requires forall r :: r in s'.vars ==> r in s'.heap
    ensures Structure(s') && forall q :: Referrers(s'.heap, q) == Referrers(s.heap, q)
  {
    forall h | h in s'.ledger.owner ensures AnswersFor(s'.heap, s'.ledger.owner[h], h) {
      assert AnswersFor(s.heap, s.ledger.owner[h], h);
    }
    forall r | r in s'.heap
      ensures ShapeOk(r, s'.heap[r]) && LinkOk(s'.heap, s'.heap[r], r.cls)
      ensures ParentOk(s'.heap, s'.ledger.kinds, s'.heap[r]) && BorrowOk(s'.ledger, s'.heap[r])
    {
      assert ShapeOk(r, s.heap[r]) && LinkOk(s.heap, s.heap[r], r.cls);
      assert ParentOk(s.heap, s.ledger.kinds, s.heap[r]) && BorrowOk(s.ledger, s.heap[r]);
    }
    forall q ensures Referrers(s'.heap, q) == Referrers(s.heap, q) {}
  }

  /** The counts of s' are those of s, with the pending reference moved as the heap and variables say. */
  lemma CountsFrom(s: State, pending: Option<Ref>, s': State, pending': Option<Ref>)
    requires Counted(s, pending) && s'.heap.Keys == s.heap.Keys
    requires pending'.Some? ==> pending'.value in s'.heap
    requires forall q :: q in s.heap ==> s'.heap[q].rc >= s.heap[q].rc || s'.heap[q].rc >= 1
    requires forall q :: q in s.heap ==>
      (s'.heap[q].rc - s'.vars[q] - |Referrers(s'.heap, q)| - (if pending' == Some(q) then 1 else 0)
       == s.heap[q].rc - s.vars[q] - |Referrers(s.heap, q)| - (if pending == Some(q) then 1 else 0))
    ensures Counted(s', pending')
  {
    forall q | q in s'.heap ensures CountOk(s', pending', q) {
      assert CountOk(s, pending, q);
    }
  }

  /** Counting down a reference that was given up restores the exact counts, however far it cascades. */
  lemma {:induction false} ReleaseKeeps(s: State, r: Ref)
    requires Structure(s) && Counted(s, Some(r))
    ensures Inv(Release(s, r)) && Release(s, r).vars == s.vars
    decreases Rank(r.cls)
  {
    var o := s.heap[r];
    if o.rc > 1 {
      SameObjectsKeep(s, Release(s, r));
      CountsFrom(s, Some(r), Release(s, r), None);
    } else {
      assert CountOk(s, Some(r), r) && LinkOk(s.heap, o, r.cls);
      DestroyKeeps(s, r);
      assert Destroy(s, r) == s.(heap := s.heap - {r}, ledger := FreeAll(s.ledger, Handles(o.body)));
      if o.to.Some? {
        ReleaseKeeps(Destroy(s, r), o.to.value);
      }
    }
  }

  // ---------------------------------------------------------------- every operation keeps the invariant

  lemma AddRefKeeps(s: State, q: Ref)
    requires Inv(s) && q in s.heap
    ensures Structure(AddRef(s, q)) && Counted(AddRef(s, q), Some(q))
    ensures SameObjects(s.heap, AddRef(s, q).heap)
  {
    SameObjectsKeep(s, AddRef(s, q));
    CountsFrom(s, None, AddRef(s, q), Some(q));
  }

  lemma CopyKeeps(s: State, q: Ref)
    requires Inv(s) && q in s.heap
    ensures Inv(AddRef(s.(vars := s.vars + multiset{q}), q))
  {
    var s' := AddRef(s.(vars := s.vars + multiset{q}), q);
    SameObjectsKeep(s, s');
    CountsFrom(s, None, s', None);
  }

  lemma DropKeeps(s: State, r: Ref)
    requires Inv(s) && r in s.vars
    ensures Inv(Release(s.(vars := s.vars - multiset{r}), r))
    ensures Release(s.(vars := s.vars - multiset{r}), r).vars == s.vars - multiset{r}
  {
    var s' := s.(vars := s.vars - multiset{r});
    SameObjectsKeep(s, s');
    CountsFrom(s, None, s', Some(r));
    ReleaseKeeps(s', r);
  }

  /** A referrer more for the object it refers to. */
  lemma AddReferrer(heap: map<Ref, Obj>, r: Ref, o: Obj, q: Ref)
    requires r in heap ==> heap[r].to.None?
    ensures |Referrers(heap[r := o], q)| == |Referrers(heap, q)| + (if o.to == Some(q) then 1 else 0)
  {
    if o.to == Some(q) {
      assert Referrers(heap[r := o], q) == Referrers(heap, q) + {r};
    } else {
      assert Referrers(heap[r := o], q) == Referrers(heap, q);
    }
  }

  /** Putting an object, new or as yet without a reference of its own, in place: the reference it
      takes settles the pending one. */
  lemma PutCounts(s: State, r: Ref, o: Obj, s': State)
    requires WellTyped(s) && Counted(s, o.to) && ProperObject(s, r, o)
    requires s'.heap == s.heap[r := o]
    requires s'.vars == if r in s.heap then s.vars else s.vars + multiset{r}
    ensures Counted(s', None)
  {
    forall q | q in s'.heap
      ensures CountOk(s', None, q)
    {
      AddReferrer(s.heap, r, o, q);
      if q in s.heap {
        assert CountOk(s, o.to, q);
      } else {
        NoReferrers(s, r);
      }
    }
  }

  lemma NoReferrers(s: State, r: Ref)
    requires WellTyped(s) && r !in s.heap
    ensures Referrers(s.heap, r) == {} && r !in s.vars
  {
    forall q | q in s.heap ensures s.heap[q].to != Some(r) {
      assert LinkOk(s.heap, s.heap[q], q.cls);
    }
  }

  /** An object without handles gets fields that answer for exactly the handles kept. */
  lemma PutFields(s: State, r: Ref, o: Obj, s': State, kept: map<Handle, Slot>)
    requires HeldByFields(s) && FieldsHold(s) && Conserved(s.ledger)
    requires forall f :: r in s.heap ==> FieldOf(s.heap[r].body, f).None?
    requires s'.heap == s.heap[r := o] && s'.ledger.owner == s.ledger.owner + kept
    requires s.ledger.kinds <= s'.ledger.kinds
    requires forall h :: h in kept ==> |s.ledger.kinds| <= h
    requires Installs(s', r, o, kept)
    ensures HeldByFields(s') && FieldsHold(s')
  {
  }

  /** The object put in place is a proper one and leads to a live object one class down. */
  predicate ProperObject(s: State, r: Ref, o: Obj) {
    && ShapeOk(r, o)
    && LinkOk(s.heap, o, r.cls)
    && (r in s.heap ==> o.rc == s.heap[r].rc && s.heap[r].to.None?)
    && (r !in s.heap ==> o.rc == 1)
  }

  lemma PutParents(s: State, r: Ref, o: Obj, s': State)
    requires ParentsOk(s) && s'.heap == s.heap[r := o] && s.ledger.kinds <= s'.ledger.kinds
    requires r in s.heap && s.heap[r].body.ConnectionBody? ==> s.heap[r].body.ssl.None?
    requires r in s.heap ==> s.heap[r].body.ConnectionBody? == o.body.ConnectionBody?
    requires o.to != Some(r) && ParentOk(s.heap, s'.ledger.kinds, o)
    ensures ParentsOk(s')
  {
    forall q | q in s'.heap ensures ParentOk(s'.heap, s'.ledger.kinds, s'.heap[q]) {
      if q != r {
        assert ParentOk(s.heap, s.ledger.kinds, s.heap[q]);
      }
    }
  }

  lemma PutBorrows(s: State, r: Ref, o: Obj, s': State, kept: map<Handle, Slot>)
    requires BorrowsOk(s) && s'.heap == s.heap[r := o] && s.ledger.kinds <= s'.ledger.kinds
    requires s'.ledger.owner == s.ledger.owner + kept && forall h :: h in kept ==> |s.ledger.kinds| <= h
    requires BorrowOk(s.ledger, o) || (o.body.ConnectionBody? && o.to.None?)
    ensures BorrowsOk(s')
  {
    forall q | q in s'.heap ensures BorrowOk(s'.ledger, s'.heap[q]) {
      if q != r {
        assert BorrowOk(s.ledger, s.heap[q]);
      }
    }
  }

  lemma PutTyped(s: State, r: Ref, o: Obj, s': State)
    requires WellTyped(s) && s'.heap == s.heap[r := o] && ProperObject(s, r, o)
    requires forall q :: q in s'.vars ==> q in s'.heap
    ensures WellTyped(s')
  {
    forall q | q in s'.heap ensures ShapeOk(q, s'.heap[q]) && LinkOk(s'.heap, s'.heap[q], q.cls) {
      if q != r {
        assert ShapeOk(q, s.heap[q]) && LinkOk(s.heap, s.heap[q], q.cls);
      }
    }
  }

  /** The answerable fields of o are exactly the handles kept. */
  ghost predicate Installs(s': State, r: Ref, o: Obj, kept: map<Handle, Slot>) {
    && (forall h :: h in kept ==> kept[h].Member? && kept[h].obj == r && FieldOf(o.body, kept[h].field) == Some(h))
    && (forall f :: FieldOf(o.body, f).Some? ==>
         var h := FieldOf(o.body, f).value;
         h in kept && kept[h] == Member(r, f) && h < |s'.ledger.kinds| && KindFits(s'.ledger.kinds[h], r.cls, f))
  }

  /** Acquiring one handle for a field. */
  lemma AcquireKeeps(led: Ledger, kind: Kind, slot: Slot)
    requires Conserved(led) && ChildrenFirst(led)
    requires kind.StreamSsl? ==> kind.parent in led.owner && led.kinds[kind.parent] == ConnectionSsl
    ensures Conserved(Acquire(led, kind, slot)) && ChildrenFirst(Acquire(led, kind, slot))
    ensures Acquire(led, kind, slot).owner == led.owner + map[|led.kinds| := slot]
    ensures led.kinds <= Acquire(led, kind, slot).kinds
  {
  }

  lemma AcceptKeeps(s: State, l: Ref, c: Ref, got: bool)
    requires Inv(s) && Enabled(s, Accept(l, c, got))
    ensures Inv(Apply(s, Accept(l, c, got)))
  {
    var b := s.heap[l].body;
    assert ShapeOk(l, s.heap[l]);
    if b.ssl.Some? && got {
      AddRefKeeps(s, l);
      var s1 := AddRef(s, l);
      var o := Obj(1, Some(l), ConnectionBody(Some(|s.ledger.kinds|), b.fd, false, false));
      var s' := AcceptOp(s, l, c, got);
      PutCounts(s1, c, o, s');
      PutTyped(s1, c, o, s');
      PutAccepted(s1, l, c, o, s');
    }
  }

  /** The new connection SSL among the fields. */
  lemma PutAccepted(s: State, l: Ref, c: Ref, o: Obj, s': State)
    requires Structure(s) && l in s.heap && s.heap[l].body.ListenerBody? && s.heap[l].body.fd.Some?
    requires c.cls.ConnectionClass? && c !in s.heap
    requires o == Obj(1, Some(l), ConnectionBody(Some(|s.ledger.kinds|), s.heap[l].body.fd, false, false))
    requires s'.heap == s.heap[c := o] && s'.ledger == Acquire(s.ledger, ConnectionSsl, Member(c, SslField))
    ensures HeldByFields(s') && FieldsHold(s') && ParentsOk(s') && BorrowsOk(s')
    ensures Conserved(s'.ledger) && ChildrenFirst(s'.ledger)
  {
    hide WellTyped;
    var kept := map[|s.ledger.kinds| := Member(c, SslField)];
    AcquireKeeps(s.ledger, ConnectionSsl, Member(c, SslField));
    PutFields(s, c, o, s', kept);
    PutParents(s, c, o, s');
    assert FieldOf(s.heap[l].body, FdField) == s.heap[l].body.fd;
    PutBorrows(s, c, o, s', kept);
  }

  lemma SslIsHeld(s: State, c: Ref)
    requires Structure(s) && c in s.heap && s.heap[c].body.ConnectionBody? && s.heap[c].body.ssl.Some?
    ensures var h := s.heap[c].body.ssl.value;
      h in s.ledger.owner && h < |s.ledger.kinds| && s.ledger.kinds[h] == ConnectionSsl
  {
    assert ShapeOk(c, s.heap[c]) && FieldOf(s.heap[c].body, SslField) == s.heap[c].body.ssl;
    assert KindFits(s.ledger.kinds[s.heap[c].body.ssl.value], c.cls, SslField);
  }

  /** The new stream SSL among the fields and on its parent. */
  lemma PutStreamFields(s: State, c: Ref, x: Ref, o: Obj, s': State)
    requires Structure(s) && c in s.heap && s.heap[c].body.ConnectionBody? && s.heap[c].body.ssl.Some?
    requires x.cls.StreamClass? && (x in s.heap ==> s.heap[x].body == StreamBody(None))
    requires o.to == Some(c) && o.body == StreamBody(Some(|s.ledger.kinds|)) && s'.heap == s.heap[x := o]
    requires s'.ledger == Acquire(s.ledger, StreamSsl(s.heap[c].body.ssl.value), Member(x, SslField))
    ensures HeldByFields(s') && FieldsHold(s') && ParentsOk(s') && BorrowsOk(s')
    ensures Conserved(s'.ledger) && ChildrenFirst(s'.ledger)
  {
    hide WellTyped, HeldByFields, FieldsHold, ParentsOk, BorrowsOk, Conserved, ChildrenFirst;
    var b := s.heap[c].body;
    SslIsHeld(s, c);
    var kept := map[|s.ledger.kinds| := Member(x, SslField)];
    AcquireKeeps(s.ledger, StreamSsl(b.ssl.value), Member(x, SslField));
    PutFields(s, x, o, s', kept);
    PutParents(s, x, o, s');
    PutBorrows(s, x, o, s', kept);
  }

  /** A new stream SSL on connection c for object x, which takes a reference to c. */
  lemma PutStreamKeeps(s: State, c: Ref, x: Ref, o: Obj, s': State)
    requires Inv(s) && c in s.heap && s.heap[c].body.ConnectionBody? && s.heap[c].body.ssl.Some?
    requires x.cls.StreamClass? && (x in s.heap ==> s.heap[x].body == StreamBody(None))
    requires o == Obj(if x in s.heap then s.heap[x].rc else 1, Some(c), StreamBody(Some(|s.ledger.kinds|)))
    requires s' == State(AddRef(s, c).heap[x := o], if x in s.heap then s.vars else s.vars + multiset{x},
                         Acquire(s.ledger, StreamSsl(s.heap[c].body.ssl.value), Member(x, SslField)))
    ensures Inv(s')
  {
    AddRefKeeps(s, c);
    var s1 := AddRef(s, c);
    assert ShapeOk(c, s1.heap[c]) && (x in s1.heap ==> ShapeOk(x, s1.heap[x]));
    PutStreamFields(s1, c, x, o, s');
    PutCounts(s1, x, o, s');
    PutTyped(s1, x, o, s');
  }

  lemma AsStreamKeeps(s: State, x: Ref, v: Ref, got: bool)
    requires Inv(s) && Enabled(s, AsStream(x, v, got))
    ensures Inv(Apply(s, AsStream(x, v, got)))
  {
    assert ShapeOk(x, s.heap[x]);
    if s.heap[x].body.ssl.Some? && got {
      AddRefKeeps(s, x);
      var s1 := AddRef(s, x);
      PutBareKeeps(s1, v, Obj(1, Some(x), ResourceBody), AsStreamOp(s, x, v, got));
    }
  }

  /** A new object without native handles. */
  lemma PutBareKeeps(s: State, r: Ref, o: Obj, s': State)
    requires Structure(s) && Counted(s, o.to) && r !in s.heap && ProperObject(s, r, o)
    requires o.body == NewBody(r.cls)
    requires s' == s.(heap := s.heap[r := o], vars := s.vars + multiset{r})
    ensures Inv(s')
  {
    assert s'.ledger.owner == s.ledger.owner + map[];
    PutCounts(s, r, o, s');
    PutFields(s, r, o, s', map[]);
    PutTyped(s, r, o, s');
    PutParents(s, r, o, s');
    PutBorrows(s, r, o, s', map[]);
  }

  /** Replacing one object by another with the same answerable fields, seen by the field predicates. */
  lemma SameFieldsKeep(s: State, r: Ref, o: Obj, s': State)
    requires HeldByFields(s) && FieldsHold(s) && r in s.heap
    requires s'.heap == s.heap[r := o] && s'.ledger == s.ledger
    requires forall f :: FieldOf(o.body, f) == FieldOf(s.heap[r].body, f)
    ensures HeldByFields(s') && FieldsHold(s')
  {
  }

  /** Replacing an object's struct or dropping its reference, as far as structure goes. */
  lemma SwapKeeps(s: State, r: Ref, o: Obj, s': State)
    requires Structure(s) && r in s.heap && ShapeOk(r, o) && LinkOk(s.heap, o, r.cls)
    requires s'.heap == s.heap[r := o] && s'.ledger == s.ledger && s'.vars == s.vars
    requires forall f :: FieldOf(o.body, f) == FieldOf(s.heap[r].body, f)
    requires ParentOk(s.heap, s.ledger.kinds, o) && BorrowOk(s.ledger, o)
    requires o.body.ConnectionBody? == s.heap[r].body.ConnectionBody?
    requires o.body.ConnectionBody? ==> o.body.ssl == s.heap[r].body.ssl
    ensures Structure(s')
  {
    SameFieldsKeep(s, r, o, s');
    forall q | q in s'.heap
      ensures ShapeOk(q, s'.heap[q]) && LinkOk(s'.heap, s'.heap[q], q.cls)
      ensures ParentOk(s'.heap, s'.ledger.kinds, s'.heap[q]) && BorrowOk(s'.ledger, s'.heap[q])
    {
      assert ShapeOk(q, s.heap[q]) && LinkOk(s.heap, s.heap[q], q.cls);
      assert ParentOk(s.heap, s.ledger.kinds, s.heap[q]) && BorrowOk(s.ledger, s.heap[q]);
    }
  }

  /** A reference less: its holder gave it up, so it is pending. */
  lemma ForgetReference(s: State, v: Ref)
    requires Inv(s) && v in s.heap && v.cls.ResourceClass?
    ensures var s' := s.(heap := s.heap[v := s.heap[v].(to := None)]);
      Structure(s') && Counted(s', s.heap[v].to)
  {
    var o := s.heap[v].(to := None);
    var s' := s.(heap := s.heap[v := o]);
    assert ShapeOk(v, s.heap[v]) && LinkOk(s.heap, s.heap[v], v.cls);
    SwapKeeps(s, v, o, s');
    forall q | q in s.heap ensures CountOk(s', s.heap[v].to, q) {
      assert CountOk(s, None, q);
      if s.heap[v].to == Some(q) {
        assert Referrers(s.heap, q) == Referrers(s'.heap, q) + {v};
      } else {
        assert Referrers(s.heap, q) == Referrers(s'.heap, q);
      }
    }
  }

  lemma FcloseKeeps(s: State, v: Ref)
    requires Inv(s) && Enabled(s, Fclose(v))
    ensures Inv(Apply(s, Fclose(v)))
  {
    if s.heap[v].to.Some? {
      ForgetReference(s, v);
      ReleaseKeeps(s.(heap := s.heap[v := s.heap[v].(to := None)]), s.heap[v].to.value);
    }
  }

  lemma CloseConnectionKeeps(s: State, c: Ref)
    requires Inv(s) && Enabled(s, CloseConnection(c))
    ensures Inv(Apply(s, CloseConnection(c)))
  {
    var s' := Apply(s, CloseConnection(c));
    assert ShapeOk(c, s.heap[c]) && LinkOk(s.heap, s.heap[c], c.cls) && BorrowOk(s.ledger, s.heap[c]);
    if s.heap[c].body.ssl.Some? {
      SwapKeeps(s, c, s.heap[c].(body := s.heap[c].body.(closed := true)), s');
      forall q | q in s.heap ensures s'.heap[q].rc >= 1 && Referrers(s'.heap, q) == Referrers(s.heap, q) {
        assert CountOk(s, None, q);
      }
      CountsFrom(s, None, s', None);
    }
  }

  /** A listener's handles are not connection SSLs, so no stream lives on them. */
  lemma ListenerHandlesHaveNoChildren(s: State, l: Ref, h: Handle)
    requires Structure(s) && l in s.heap && l.cls.ListenerClass? && h in Handles(s.heap[l].body)
    ensures NoChildren(s.ledger, h)
  {
    BodyHandles(s.heap[l].body, h);
    var f :| FieldOf(s.heap[l].body, f) == Some(h);
    assert KindFits(s.ledger.kinds[h], l.cls, f);
  }

  lemma ClearedHeld(s: State, l: Ref)
    requires HeldByFields(s) && FieldsHold(s) && l in s.heap && s.heap[l].body.ListenerBody?
    ensures HeldByFields(ReleaseListener(s, l))
  {
    hide Handles, KindFits;
    var s' := ReleaseListener(s, l);
    var hs := Handles(s.heap[l].body);
    HandlesAreHeld(s, l);
    FreeAllEffect(s.ledger, hs);
    forall h | h in s'.ledger.owner
      ensures AnswersFor(s'.heap, s'.ledger.owner[h], h)
    {
      assert h !in hs && AnswersFor(s.heap, s.ledger.owner[h], h);
    }
  }

  lemma ClearedFields(s: State, l: Ref)
    requires HeldByFields(s) && FieldsHold(s) && l in s.heap && s.heap[l].body.ListenerBody?
    ensures FieldsHold(ReleaseListener(s, l))
  {
    hide Handles, KindFits, HeldByFields;
    var s' := ReleaseListener(s, l);
    var hs := Handles(s.heap[l].body);
    HandlesAreHeld(s, l);
    FreeAllEffect(s.ledger, hs);
    forall q, f | q in s'.heap && FieldOf(s'.heap[q].body, f).Some?
      ensures var h := FieldOf(s'.heap[q].body, f).value;
        && h in s'.ledger.owner && s'.ledger.owner[h] == Member(q, f)
        && h < |s'.ledger.kinds| && KindFits(s'.ledger.kinds[h], q.cls, f)
    {
      assert q != l && FieldOf(s.heap[q].body, f).value !in hs;
    }
  }

  lemma ReleaseListenerKeeps(s: State, l: Ref)
    requires Inv(s) && l in s.heap && l.cls.ListenerClass?
    ensures Inv(ReleaseListener(s, l))
  {
    assert ShapeOk(l, s.heap[l]);
    var s' := ReleaseListener(s, l);
    var hs := Handles(s.heap[l].body);
    assert Conserved(s'.ledger) && ChildrenFirst(s'.ledger) by {
      HandlesAreHeld(s, l);
      forall h | h in hs ensures NoChildren(s.ledger, h) { ListenerHandlesHaveNoChildren(s, l, h); }
      FreeAllKeeps(s.ledger, hs);
    }
    ClearedHeld(s, l);
    ClearedFields(s, l);
    FreeAllEffect(s.ledger, hs);
    forall q | q in s'.heap
      ensures ShapeOk(q, s'.heap[q]) && LinkOk(s'.heap, s'.heap[q], q.cls)
      ensures ParentOk(s'.heap, s'.ledger.kinds, s'.heap[q]) && BorrowOk(s'.ledger, s'.heap[q])
      ensures s'.heap[q].rc >= 1 && Referrers(s'.heap, q) == Referrers(s.heap, q)
    {
      assert ShapeOk(q, s.heap[q]) && LinkOk(s.heap, s.heap[q], q.cls) && CountOk(s, None, q);
      assert ParentOk(s.heap, s.ledger.kinds, s.heap[q]) && BorrowOk(s.ledger, s.heap[q]);
    }
    CountsFrom(s, None, s', None);
  }

  /** The constructors' success: the struct is filled with exactly the handles kept. */
  lemma FillKeeps(s: State, r: Ref, o: Obj, s': State, kept: map<Handle, Slot>)
    requires Inv(s) && r in s.heap && ProperObject(s, r, o) && o.to.None?
    requires forall f :: FieldOf(s.heap[r].body, f).None?
    requires s.heap[r].body.ConnectionBody? ==> s.heap[r].body.ssl.None?
    requires !o.body.StreamBody? && o.body.ConnectionBody? == s.heap[r].body.ConnectionBody?
    requires s'.heap == s.heap[r := o] && s'.vars == s.vars
    requires Balanced(s.ledger, s'.ledger, kept) && Installs(s', r, o, kept)
    ensures Inv(s')
  {
    BalancedKeeps(s.ledger, s'.ledger, kept);
    PutCounts(s, r, o, s');
    PutFields(s, r, o, s', kept);
    PutTyped(s, r, o, s');
    PutParents(s, r, o, s');
    PutBorrows(s, r, o, s', kept);
  }

  lemma ConnectionInstalls(s': State, c: Ref, o: Obj, ssl: Handle, fd: Handle)
    requires c.cls.ConnectionClass? && o.body == ConnectionBody(Some(ssl), Some(fd), true, false) && ssl != fd
    requires Acquired(s'.ledger, ssl, ConnectionSsl) && Acquired(s'.ledger, fd, Socket)
    ensures Installs(s', c, o, map[ssl := Member(c, SslField), fd := Member(c, FdField)])
  {
  }

  lemma ConnectionFilledKeeps(s: State, c: Ref, s': State, ssl: Handle, fd: Handle)
    requires Inv(s) && c in s.heap && s.heap[c].body.ConnectionBody? && s.heap[c].body.ssl.None?
    requires s'.vars == s.vars && ConnectionFilled(s, c, s', ssl, fd)
    ensures Inv(s')
  {
    hide Inv, Balanced, Installs;
    Shape(s, c);
    ConnectionInstalls(s', c, s'.heap[c], ssl, fd);
    FillKeeps(s, c, s'.heap[c], s', map[ssl := Member(c, SslField), fd := Member(c, FdField)]);
  }

  lemma ConstructConnectionKeeps(s: State, c: Ref, s': State)
    requires Inv(s) && Enabled(s, ConstructConnection(c)) && Step(s, ConstructConnection(c), s')
    ensures Inv(s')
  {
    assert ShapeOk(c, s.heap[c]);
    if s.heap[c].body.ssl.None? {
      if s'.heap == s.heap && Balanced(s.ledger, s'.ledger, map[]) {
        FailedConstructorKeeps(s, s');
      } else {
        var ssl, fd :| ConnectionFilled(s, c, s', ssl, fd);
        ConnectionFilledKeeps(s, c, s', ssl, fd);
      }
    }
  }

  lemma ListenerInstalls(s': State, l: Ref, o: Obj, k: Listening)
    requires l.cls.ListenerClass? && o.body == ListeningBody(k) && ProperListening(s'.ledger, k)
    ensures Installs(s', l, o, ListenerSlots(l, k))
  {
    var kept := ListenerSlots(l, k);
    forall f | FieldOf(o.body, f).Some?
      ensures var h := FieldOf(o.body, f).value;
        h in kept && kept[h] == Member(l, f) && h < |s'.ledger.kinds| && KindFits(s'.ledger.kinds[h], l.cls, f)
    {
      match f
      case SslField => assert kept[k.ssl] == Member(l, SslField);
      case CtxField => assert kept[k.ctx] == Member(l, CtxField);
      case FdField => assert kept[k.fd] == Member(l, FdField);
      case AlpnField => assert kept[k.alpn] == Member(l, AlpnField);
      case DataField => assert kept[k.data] == Member(l, DataField);
    }
  }

  lemma ListenerFilledKeeps(s: State, l: Ref, s': State, k: Listening)
    requires Inv(s) && l in s.heap && s.heap[l].body.ListenerBody? && s.heap[l].body.ssl.None?
    requires s'.vars == s.vars && ListenerFilled(s, l, s', k)
    ensures Inv(s')
  {
    hide Inv, Balanced, Installs, ListenerSlots, ProperListening;
    Shape(s, l);
    ListenerInstalls(s', l, s'.heap[l], k);
    FillKeeps(s, l, s'.heap[l], s', ListenerSlots(l, k));
  }

  lemma ConstructListenerKeeps(s: State, l: Ref, s': State)
    requires Inv(s) && Enabled(s, ConstructListener(l)) && Step(s, ConstructListener(l), s')
    ensures Inv(s')
  {
    assert ShapeOk(l, s.heap[l]);
    if s.heap[l].body.ssl.None? {
      if s'.heap == s.heap && Balanced(s.ledger, s'.ledger, map[]) {
        FailedConstructorKeeps(s, s');
      } else {
        var k :| ListenerFilled(s, l, s', k);
        ListenerFilledKeeps(s, l, s', k);
      }
    }
  }

  lemma FailedConstructorKeeps(s: State, s': State)
    requires Inv(s) && s'.heap == s.heap && s'.vars == s.vars && Balanced(s.ledger, s'.ledger, map[])
    ensures Inv(s')
  {
    BalancedKeeps(s.ledger, s'.ledger, map[]);
    assert s'.ledger.owner == s.ledger.owner;
    forall h | h in s'.ledger.owner ensures AnswersFor(s'.heap, s'.ledger.owner[h], h) {
      assert AnswersFor(s.heap, s.ledger.owner[h], h);
    }
    forall q | q in s'.heap
      ensures ShapeOk(q, s'.heap[q]) && LinkOk(s'.heap, s'.heap[q], q.cls) && s'.heap[q].rc >= 1
      ensures ParentOk(s'.heap, s'.ledger.kinds, s'.heap[q]) && BorrowOk(s'.ledger, s'.heap[q])
    {
      assert ShapeOk(q, s.heap[q]) && LinkOk(s.heap, s.heap[q], q.cls) && CountOk(s, None, q);
      assert ParentOk(s.heap, s.ledger.kinds, s.heap[q]) && BorrowOk(s.ledger, s.heap[q]);
    }
    CountsFrom(s, None, s', None);
  }

  /** Whatever a program does next, the invariant stays. */
  lemma StepKeeps(s: State, op: Op, s': State)
    requires Inv(s) && Enabled(s, op) && Step(s, op, s')
    ensures Inv(s')
  {
    match op
    case Copy(r) => CopyKeeps(s, r);
    case Drop(r) => DropKeeps(s, r);
    case Create(r) => PutBareKeeps(s, r, Obj(1, None, NewBody(r.cls)), s');
    case Accept(l, c, got) => AcceptKeeps(s, l, c, got);
    case OpenStream(c, x, got) =>
      assert ShapeOk(c, s.heap[c]);
      if s.heap[c].body.ssl.Some? && got { PutStreamKeeps(s, c, x, s'.heap[x], s'); }
    case ConstructStream(x, c, got) =>
      assert ShapeOk(c, s.heap[c]) && ShapeOk(x, s.heap[x]);
      if s.heap[x].body.ssl.None? && s.heap[c].body.ssl.Some? && got { PutStreamKeeps(s, c, x, s'.heap[x], s'); }
    case GetConnection(x) =>
      assert LinkOk(s.heap, s.heap[x], x.cls);
      if s.heap[x].to.Some? { CopyKeeps(s, s.heap[x].to.value); }
    case AsStream(x, v, got) => AsStreamKeeps(s, x, v, got);
    case Fclose(v) => FcloseKeeps(s, v);
    case CloseConnection(c) => CloseConnectionKeeps(s, c);
    case CloseListener(l) => ReleaseListenerKeeps(s, l);
    case ConstructConnection(c) => ConstructConnectionKeeps(s, c, s');
    case ConstructListener(l) => ConstructListenerKeeps(s, l, s');
  }

  // ---------------------------------------------------------------- what each operation does

  /** Every object but those in rs is there, or not, and is as it was. */
  ghost predicate OthersStay(s: State, s': State, rs: set<Ref>) {
    forall q :: q !in rs ==> (q in s'.heap <==> q in s.heap) && (q in s.heap ==> s'.heap[q] == s.heap[q])
  }

  /** One new handle, of this kind, that this field of r answers for; none is given back. */
  ghost predicate Acquires(s: State, s': State, kind: Kind, r: Ref, field: Field) {
    && s'.ledger.kinds == s.ledger.kinds + [kind] && s'.ledger.freed == s.ledger.freed
    && s'.ledger.owner == s.ledger.owner[|s.ledger.kinds| := Member(r, field)]
  }

  /** new C: an object with one reference, nothing in its struct. */
  lemma CreateGives(s: State, r: Ref)
    requires Inv(s) && Enabled(s, Create(r))
    ensures var s' := Apply(s, Create(r));
      && s'.vars == s.vars + multiset{r} && s'.ledger == s.ledger && OthersStay(s, s', {r})
      && r in s'.heap && s'.heap[r].rc == 1 && s'.heap[r].to == None
      && (r.cls == ListenerClass ==> s'.heap[r].body == ListenerBody(None, None, None, None))
      && (r.cls == ConnectionClass ==> s'.heap[r].body == ConnectionBody(None, None, false, false))
      && (r.cls == StreamClass ==> s'.heap[r].body == StreamBody(None))
  {
  }

  /** $b = $a: one more variable, one more reference. */
  lemma CopyGives(s: State, r: Ref)
    requires Inv(s) && r in s.vars
    ensures var s' := Apply(s, Copy(r));
      && s'.vars == s.vars + multiset{r} && s'.ledger == s.ledger && OthersStay(s, s', {r})
      && r in s.heap && r in s'.heap && s'.heap[r] == s.heap[r].(rc := s.heap[r].rc + 1)
  {
  }

  /** accept(): a listening Listener and an engine that has a connection give a Connection with a new SSL that
      borrows the socket and refers to the Listener; otherwise nothing happens. */
  lemma AcceptGives(s: State, l: Ref, c: Ref, got: bool)
    requires Inv(s) && Enabled(s, Accept(l, c, got))
    ensures l in s.heap && s.heap[l].body.ListenerBody?
    ensures var s' := Apply(s, Accept(l, c, got));
      if s.heap[l].body.ssl.Some? && got then
        && s'.vars == s.vars + multiset{c} && Acquires(s, s', ConnectionSsl, c, SslField) && OthersStay(s, s', {l, c})
        && l in s'.heap && s'.heap[l] == s.heap[l].(rc := s.heap[l].rc + 1)
        && c in s'.heap && s'.heap[c].rc == 1 && s'.heap[c].to == Some(l)
        && s'.heap[c].body == ConnectionBody(Some(|s.ledger.kinds|), s.heap[l].body.fd, false, false)
      else s' == s
  {
    HeldShape(s, l);
  }

  /** openStream() and acceptStream(): an established connection and an engine that has a stream give a Stream
      with a new SSL on the connection's, which refers to the connection; otherwise nothing happens. */
  lemma OpenStreamGives(s: State, c: Ref, x: Ref, got: bool)
    requires Inv(s) && Enabled(s, OpenStream(c, x, got))
    ensures c in s.heap && s.heap[c].body.ConnectionBody?
    ensures var s' := Apply(s, OpenStream(c, x, got));
      if s.heap[c].body.ssl.Some? && got then
        && s'.vars == s.vars + multiset{x} && OthersStay(s, s', {c, x})
        && Acquires(s, s', StreamSsl(s.heap[c].body.ssl.value), x, SslField)
        && c in s'.heap && s'.heap[c] == s.heap[c].(rc := s.heap[c].rc + 1)
        && x in s'.heap && s'.heap[x] == Obj(1, Some(c), StreamBody(Some(|s.ledger.kinds|)))
      else s' == s
  {
    HeldShape(s, c);
  }

  /** new Quic\Stream($connection): the same for an object that is there already and has no SSL yet. */
  lemma ConstructStreamGives(s: State, x: Ref, c: Ref, got: bool)
    requires Inv(s) && Enabled(s, ConstructStream(x, c, got))
    ensures c in s.heap && s.heap[c].body.ConnectionBody? && x in s.heap && s.heap[x].body.StreamBody?
    ensures var s' := Apply(s, ConstructStream(x, c, got));
      if s.heap[x].body.ssl.None? && s.heap[c].body.ssl.Some? && got then
        && s'.vars == s.vars && OthersStay(s, s', {c, x})
        && Acquires(s, s', StreamSsl(s.heap[c].body.ssl.value), x, SslField)
        && c in s'.heap && s'.heap[c] == s.heap[c].(rc := s.heap[c].rc + 1)
        && x in s'.heap && s'.heap[x] == Obj(s.heap[x].rc, Some(c), StreamBody(Some(|s.ledger.kinds|)))
      else s' == s
  {
    HeldShape(s, c);
    HeldShape(s, x);
  }

  /** asStream(): an open Stream and a successful allocation give a resource that refers to the Stream. */
  lemma AsStreamGives(s: State, x: Ref, v: Ref, got: bool)
    requires Inv(s) && Enabled(s, AsStream(x, v, got))
    ensures x in s.heap && s.heap[x].body.StreamBody?
    ensures var s' := Apply(s, AsStream(x, v, got));
      if s.heap[x].body.ssl.Some? && got then
        && s'.vars == s.vars + multiset{v} && s'.ledger == s.ledger && OthersStay(s, s', {x, v})
        && x in s'.heap && s'.heap[x] == s.heap[x].(rc := s.heap[x].rc + 1)
        && v in s'.heap && s'.heap[v] == Obj(1, Some(x), ResourceBody)
      else s' == s
  {
    HeldShape(s, x);
  }

  /** getConnection(): another variable on the connection that the Stream refers to, if there is one. */
  lemma GetConnectionGives(s: State, x: Ref)
    requires Inv(s) && Enabled(s, GetConnection(x))
    ensures x in s.heap
    ensures var s' := Apply(s, GetConnection(x));
      match s.heap[x].to
      case None => s' == s
      case Some(c) =>
        && s'.vars == s.vars + multiset{c} && s'.ledger == s.ledger && OthersStay(s, s', {c})
        && c in s.heap && c in s'.heap && s'.heap[c] == s.heap[c].(rc := s.heap[c].rc + 1)
  {
    HeldShape(s, x);
    assert LinkOk(s.heap, s.heap[x], x.cls);
  }

  /** fclose(): the resource stays, without its Stream.  The Stream has one reference less; if that was its
      last one it is gone, and its SSL was the next handle to be given back. */
  lemma FcloseGives(s: State, v: Ref)
    requires Inv(s) && Enabled(s, Fclose(v))
    ensures v in s.heap
    ensures var s' := Apply(s, Fclose(v));
      match s.heap[v].to
      case None => s' == s
      case Some(x) =>
        && s'.vars == s.vars && v in s'.heap && s'.heap[v] == s.heap[v].(to := None)
        && x in s.heap && s.heap[x].body.StreamBody?
        && (s.heap[x].rc > 1 ==>
              && x in s'.heap && s'.heap[x] == s.heap[x].(rc := s.heap[x].rc - 1)
              && s'.ledger == s.ledger && OthersStay(s, s', {v, x}))
        && (s.heap[x].rc == 1 ==>
              x !in s'.heap && forall h :: s.heap[x].body.ssl == Some(h) ==>
                s.ledger.freed + [h] <= s'.ledger.freed)
  {
    HeldShape(s, v);
    if s.heap[v].to.Some? {
      var x := s.heap[v].to.value;
      var t := s.(heap := s.heap[v := s.heap[v].(to := None)]);
      assert LinkOk(s.heap, s.heap[v], v.cls);
      Shape(s, x);
      assert CountOk(s, None, x) && LinkOk(s.heap, s.heap[x], x.cls);
      FcloseReleases(t, v, x);
    }
  }

  lemma FcloseReleases(t: State, v: Ref, x: Ref)
    requires x in t.heap && v in t.heap && x.cls.StreamClass? && v.cls.ResourceClass? && t.heap[x].rc >= 1
    requires t.heap[x].body.StreamBody? && WellTypedAt(t, x)
    ensures var s' := Release(t, x);
      && s'.vars == t.vars && v in s'.heap && s'.heap[v] == t.heap[v]
      && (t.heap[x].rc == 1 ==>
            x !in s'.heap && forall h :: t.heap[x].body.ssl == Some(h) ==> t.ledger.freed + [h] <= s'.ledger.freed)
  {
    ReleaseAbove(t, x);
    if t.heap[x].rc == 1 {
      var d := Destroy(t, x);
      FreeAllEffect(t.ledger, Handles(t.heap[x].body));
      if t.heap[x].to.Some? {
        ReleaseAbove(d, t.heap[x].to.value);
      }
    }
  }

  predicate WellTypedAt(s: State, r: Ref)
    requires r in s.heap
  {
    s.heap[r].to.Some? ==> Rank(s.heap[r].to.value.cls) < Rank(r.cls)
  }

  /** A release changes no variable and no object above the one released, and only adds to what was given back. */
  lemma {:induction false} ReleaseAbove(s: State, r: Ref)
    ensures Release(s, r).vars == s.vars && s.ledger.freed <= Release(s, r).ledger.freed
    ensures forall q: Ref :: Rank(q.cls) > Rank(r.cls) ==>
      ((q in Release(s, r).heap <==> q in s.heap) && (q in s.heap ==> Release(s, r).heap[q] == s.heap[q]))
    decreases Rank(r.cls)
  {
    if r in s.heap && s.heap[r].rc <= 1 {
      var o := s.heap[r];
      FreeAllEffect(s.ledger, Handles(o.body));
      if o.to.Some? && Rank(o.to.value.cls) < Rank(r.cls) {
        ReleaseAbove(Destroy(s, r), o.to.value);
      }
    }
  }

  /** close() on a connection: an established one is marked, and nothing else happens. */
  lemma CloseConnectionGives(s: State, c: Ref)
    requires Inv(s) && Enabled(s, CloseConnection(c))
    ensures c in s.heap && s.heap[c].body.ConnectionBody?
    ensures var s' := Apply(s, CloseConnection(c));
      && s'.vars == s.vars && s'.ledger == s.ledger && OthersStay(s, s', {c})
      && c in s'.heap && s'.heap[c].rc == s.heap[c].rc && s'.heap[c].to == s.heap[c].to
      && s'.heap[c].body.ConnectionBody?
      && s'.heap[c].body.ssl == s.heap[c].body.ssl && s'.heap[c].body.fd == s.heap[c].body.fd
      && s'.heap[c].body.ownsFd == s.heap[c].body.ownsFd
      && (s.heap[c].body.ssl.Some? ==> s'.heap[c].body.closed)
      && (s.heap[c].body.ssl.None? ==> s' == s)
  {
    HeldShape(s, c);
  }

  /** close() on a listener: all of its handles are given back, in the order SSL, socket, CTX, ALPN buffer,
      callback data, and its struct is empty. */
  lemma CloseListenerGives(s: State, l: Ref)
    requires Inv(s) && Enabled(s, CloseListener(l))
    ensures l in s.heap && s.heap[l].body.ListenerBody?
    ensures var s' := Apply(s, CloseListener(l));
      && s'.vars == s.vars && s'.ledger.kinds == s.ledger.kinds && OthersStay(s, s', {l})
      && l in s'.heap && s'.heap[l].rc == s.heap[l].rc && s'.heap[l].to == s.heap[l].to
      && s'.heap[l].body == ListenerBody(None, None, None, None)
      && (s.heap[l].body.ssl.None? ==> s'.ledger.freed == s.ledger.freed)
      && (forall ssl, ctx, fd, alpn, data ::
            s.heap[l].body == ListenerBody(Some(ssl), Some(ctx), Some(fd), Some(Callback(data, alpn))) ==>
              s'.ledger.freed == s.ledger.freed + [ssl, fd, ctx, alpn, data])
  {
    HeldShape(s, l);
    FreeAllEffect(s.ledger, Handles(s.heap[l].body));
  }

  /** new Quic\Connection(...): the object is as it was and nothing is kept; or it had no SSL, and owns a new SSL
      and a new socket now, and nothing else is kept. */
  lemma ConstructConnectionGives(s: State, c: Ref, s': State)
    requires Inv(s) && Enabled(s, ConstructConnection(c)) && Step(s, ConstructConnection(c), s')
    ensures c in s.heap && s.heap[c].body.ConnectionBody? && s'.vars == s.vars
    ensures s'.heap == s.heap ==> s'.ledger.owner == s.ledger.owner
    ensures s'.heap != s.heap ==>
      && s.heap[c].body.ssl.None? && c in s'.heap && OthersStay(s, s', {c})
      && s'.heap[c].rc == s.heap[c].rc && s'.heap[c].to == s.heap[c].to
      && exists ssl, fd ::
           && s'.heap[c].body == ConnectionBody(Some(ssl), Some(fd), true, false)
           && IsHeldNew(s, s', ssl, ConnectionSsl, c, SslField) && IsHeldNew(s, s', fd, Socket, c, FdField)
           && s'.ledger.owner.Keys == s.ledger.owner.Keys + {ssl, fd}
  {
    hide Inv, Balanced, IsHeldNew;
    HeldShape(s, c);
    if s'.heap == s.heap {
      assert s.heap[c].body.ssl.None? ==> !exists ssl: Handle, fd: Handle :: ConnectionFilled(s, c, s', ssl, fd) by {
        assert forall ssl: Handle, fd: Handle :: ConnectionFilled(s, c, s', ssl, fd) ==> s'.heap[c].body.ssl == Some(ssl);
      }
      if s.heap[c].body.ssl.None? {
        NothingKept(s.ledger, s'.ledger);
      }
    } else {
      var ssl, fd :| ConnectionFilled(s, c, s', ssl, fd);
      ConnectionFilledGives(s, c, s', ssl, fd);
    }
  }

  lemma ConnectionFilledGives(s: State, c: Ref, s': State, ssl: Handle, fd: Handle)
    requires c in s.heap && ConnectionFilled(s, c, s', ssl, fd)
    ensures IsHeldNew(s, s', ssl, ConnectionSsl, c, SslField) && IsHeldNew(s, s', fd, Socket, c, FdField)
    ensures s'.ledger.owner.Keys == s.ledger.owner.Keys + {ssl, fd}
  {
    var kept := map[ssl := Member(c, SslField), fd := Member(c, FdField)];
    assert ssl in kept && fd in kept && kept.Keys == {ssl, fd};
  }

  /** new Quic\Listener(...): the same, with an SSL, a CTX, a socket and callback data with its buffer. */
  lemma ConstructListenerGives(s: State, l: Ref, s': State)
    requires Inv(s) && Enabled(s, ConstructListener(l)) && Step(s, ConstructListener(l), s')
    ensures l in s.heap && s.heap[l].body.ListenerBody? && s'.vars == s.vars
    ensures s'.heap == s.heap ==> s'.ledger.owner == s.ledger.owner
    ensures s'.heap != s.heap ==>
      && s.heap[l].body.ssl.None? && l in s'.heap && OthersStay(s, s', {l})
      && s'.heap[l].rc == s.heap[l].rc && s'.heap[l].to == s.heap[l].to
      && exists ssl, ctx, fd, alpn, data ::
           && s'.heap[l].body == ListenerBody(Some(ssl), Some(ctx), Some(fd), Some(Callback(data, alpn)))
           && IsHeldNew(s, s', ssl, ListenerSsl, l, SslField) && IsHeldNew(s, s', ctx, SslCtx, l, CtxField)
           && IsHeldNew(s, s', fd, Socket, l, FdField) && IsHeldNew(s, s', alpn, AlpnBuffer, l, AlpnField)
           && IsHeldNew(s, s', data, CallbackData, l, DataField)
           && s'.ledger.owner.Keys == s.ledger.owner.Keys + {ssl, ctx, fd, alpn, data}
  {
    hide Inv, Balanced, ListenerSlots, ProperListening, IsHeldNew;
    HeldShape(s, l);
    if s'.heap == s.heap {
      assert s.heap[l].body.ssl.None? ==> !exists k: Listening :: ListenerFilled(s, l, s', k) by {
        assert forall k: Listening :: ListenerFilled(s, l, s', k) ==> s'.heap[l].body.ssl == Some(k.ssl);
      }
      if s.heap[l].body.ssl.None? {
        NothingKept(s.ledger, s'.ledger);
      }
    } else {
      var k :| ListenerFilled(s, l, s', k);
      ListenerFilledGives(s, l, s', k);
    }
  }

  lemma NothingKept(led: Ledger, led': Ledger)
    requires Balanced(led, led', map[])
    ensures led'.owner == led.owner
  {
    assert led.owner + map[] == led.owner;
  }

  lemma ListenerFilledGives(s: State, l: Ref, s': State, k: Listening)
    requires l in s.heap && ListenerFilled(s, l, s', k)
    ensures IsHeldNew(s, s', k.ssl, ListenerSsl, l, SslField) && IsHeldNew(s, s', k.ctx, SslCtx, l, CtxField)
    ensures IsHeldNew(s, s', k.fd, Socket, l, FdField) && IsHeldNew(s, s', k.alpn, AlpnBuffer, l, AlpnField)
    ensures IsHeldNew(s, s', k.data, CallbackData, l, DataField)
    ensures s'.ledger.owner.Keys == s.ledger.owner.Keys + {k.ssl, k.ctx, k.fd, k.alpn, k.data}
  {
    var kept := ListenerSlots(l, k);
    assert kept.Keys == {k.ssl, k.ctx, k.fd, k.alpn, k.data};
    assert forall h :: h in kept ==> h in s'.ledger.owner && s'.ledger.owner[h] == kept[h];
  }

  /** A handle acquired since s, that this field of r answers for. */
  ghost predicate IsHeldNew(s: State, s': State, h: Handle, kind: Kind, r: Ref, field: Field) {
    && |s.ledger.kinds| <= h < |s'.ledger.kinds| && s'.ledger.kinds[h] == kind
    && h in s'.ledger.owner && s'.ledger.owner[h] == Member(r, field)
  }

  // ---------------------------------------------------------------- whole runs

  /** A run of a PHP program from the start: any enabled operation next, in any order. */
  ghost predicate IsRun(ss: seq<State>, ops: seq<Op>) {
    && |ss| == |ops| + 1 && ss[0] == EMPTY
    && forall i {:trigger ops[i]} :: 0 <= i < |ops| ==>
         Enabled(ss[i], ops[i]) && (WellTyped(ss[i]) ==> Step(ss[i], ops[i], ss[i + 1]))
  }

  lemma {:induction false} RunKeeps(ss: seq<State>, ops: seq<Op>, i: nat)
    requires IsRun(ss, ops) && i < |ss|
    ensures Inv(ss[i])
  {
    if i > 0 {
      RunKeeps(ss, ops, i - 1);
      assert Enabled(ss[i - 1], ops[i - 1]);
      StepKeeps(ss[i - 1], ops[i - 1], ss[i]);
    }
  }

  /** Along every run: a held stream SSL has its connection SSL still held; each handle is freed at
      most once, and a connection SSL only after all its stream SSLs; a Stream's Connection and an
      accepted Connection's Listener are alive. */
  lemma RunLifetimes(ss: seq<State>, ops: seq<Op>, i: nat)
    requires IsRun(ss, ops) && i < |ss|
    ensures var s := ss[i];
      && (forall h :: h in s.ledger.owner && h < |s.ledger.kinds| && s.ledger.kinds[h].StreamSsl? ==>
            s.ledger.kinds[h].parent in s.ledger.owner)
      && Conserved(s.ledger) && ChildrenFirst(s.ledger)
      && (forall r :: r in s.heap && s.heap[r].to.Some? ==>
            s.heap[r].to.value in s.heap && Rank(s.heap[r].to.value.cls) + 1 == Rank(r.cls))
  {
    RunKeeps(ss, ops, i);
    var s := ss[i];
    forall h | h in s.ledger.owner && h < |s.ledger.kinds| && s.ledger.kinds[h].StreamSsl?
      ensures s.ledger.kinds[h].parent in s.ledger.owner
    {
      assert h !in s.ledger.freed;
    }
    forall r | r in s.heap ensures LinkOk(s.heap, s.heap[r], r.cls) {}
  }

  // ---------------------------------------------------------------- counting is exact

  /** A variable leads to r through the references objects hold. */
  ghost predicate Reachable(heap: map<Ref, Obj>, vars: multiset<Ref>, r: Ref)
    decreases 3 - Rank(r.cls)
  {
    r in vars || exists q :: q in Referrers(heap, r) && Rank(q.cls) > Rank(r.cls) && Reachable(heap, vars, q)
  }

  /** No object outlives the last path to it. */
  lemma {:induction false} LiveIsReachable(s: State, r: Ref)
    requires Inv(s) && r in s.heap
    ensures Reachable(s.heap, s.vars, r)
    decreases 3 - Rank(r.cls)
  {
    assert CountOk(s, None, r);
    if r !in s.vars {
      assert |Referrers(s.heap, r)| != 0;
      var q :| q in Referrers(s.heap, r);
      assert LinkOk(s.heap, s.heap[q], q.cls);
      LiveIsReachable(s, q);
    }
  }

  /** Survivors of a release are as they were, but for their counts. */
  lemma {:induction false} ReleaseShrinks(s: State, r: Ref)
    ensures var heap' := Release(s, r).heap;
      forall q :: q in heap' ==> q in s.heap && heap'[q].to == s.heap[q].to && heap'[q].body == s.heap[q].body
    decreases Rank(r.cls)
  {
    if r in s.heap && s.heap[r].rc <= 1 {
      var o := s.heap[r];
      if o.to.Some? && Rank(o.to.value.cls) < Rank(r.cls) {
        ReleaseShrinks(Destroy(s, r), o.to.value);
      }
    }
  }

  lemma {:induction false} ReachableInLarger(heap: map<Ref, Obj>, heap': map<Ref, Obj>, vars: multiset<Ref>, r: Ref)
    requires forall q :: q in heap' ==> q in heap && heap'[q].to == heap[q].to
    requires Reachable(heap', vars, r)
    ensures Reachable(heap, vars, r)
    decreases 3 - Rank(r.cls)
  {
    if r !in vars {
      var q :| q in Referrers(heap', r) && Rank(q.cls) > Rank(r.cls) && Reachable(heap', vars, q);
      ReachableInLarger(heap, heap', vars, q);
      assert q in Referrers(heap, r);
    }
  }

  lemma {:induction false} ReachableSurvives(heap: map<Ref, Obj>, s': State, r: Ref)
    requires Inv(s') && Reachable(heap, s'.vars, r)
    requires forall q :: q in s'.heap ==> q in heap && s'.heap[q].to == heap[q].to
    ensures r in s'.heap
    decreases 3 - Rank(r.cls)
  {
    if r !in s'.vars {
      var q :| q in Referrers(heap, r) && Rank(q.cls) > Rank(r.cls) && Reachable(heap, s'.vars, q);
      ReachableSurvives(heap, s', q);
      assert LinkOk(s'.heap, s'.heap[q], q.cls);
    }
  }

  /** Dropping a variable destroys exactly the objects no remaining variable leads to. */
  lemma DropCollectsExactly(s: State, r: Ref, q: Ref)
    requires Inv(s) && r in s.vars && q in s.heap
    ensures q in Apply(s, Drop(r)).heap <==> Reachable(s.heap, s.vars - multiset{r}, q)
  {
    var s' := Apply(s, Drop(r));
    DropKeeps(s, r);
    ReleaseShrinks(s.(vars := s.vars - multiset{r}), r);
    if q in s'.heap {
      LiveIsReachable(s', q);
      ReachableInLarger(s.heap, s'.heap, s'.vars, q);
    }
    if Reachable(s.heap, s'.vars, q) {
      ReachableSurvives(s.heap, s', q);
    }
  }

  lemma {:induction false} NothingReachable(heap: map<Ref, Obj>, r: Ref)
    ensures !Reachable(heap, multiset{}, r)
    decreases 3 - Rank(r.cls)
  {
    forall q | q in Referrers(heap, r) && Rank(q.cls) > Rank(r.cls) ensures !Reachable(heap, multiset{}, q) {
      NothingReachable(heap, q);
    }
  }

  /** A program without variables left holds nothing: no object, no handle, and every handle ever
      acquired was freed exactly once. */
  lemma NoVariablesNothingHeld(s: State)
    requires Inv(s) && s.vars == multiset{}
    ensures s.heap == map[] && s.ledger.owner == map[]
    ensures Distinct(s.ledger.freed) && forall h: Handle :: h in s.ledger.freed <==> h < |s.ledger.kinds|
  {
    forall r | r in s.heap ensures false {
      LiveIsReachable(s, r);
      NothingReachable(s.heap, r);
    }
    assert s.heap.Keys == {};
    assert forall h :: h in s.ledger.owner ==> !AnswersFor(s.heap, s.ledger.owner[h], h);
    assert s.ledger.owner.Keys == {};
  }

  /** The state after giving up the listed variables one after the other. */
  function DropAll(s: State, rs: seq<Ref>): State
    decreases |rs|
  {
    if rs == [] then s else DropAll(Release(s.(vars := s.vars - multiset{rs[0]}), rs[0]), rs[1..])
  }

  /** Shutdown in any order releases everything exactly once. */
  lemma {:induction false} ShutdownFreesAll(s: State, rs: seq<Ref>)
    requires Inv(s) && multiset(rs) == s.vars
    ensures var s' := DropAll(s, rs);
      && Inv(s') && s'.heap == map[] && s'.ledger.owner == map[]
      && Distinct(s'.ledger.freed) && forall h: Handle :: h in s'.ledger.freed <==> h < |s'.ledger.kinds|
    decreases |rs|
  {
    if rs == [] {
      NoVariablesNothingHeld(s);
    } else {
      assert rs == [rs[0]] + rs[1..] && rs[0] in multiset(rs);
      DropKeeps(s, rs[0]);
      ShutdownFreesAll(Release(s.(vars := s.vars - multiset{rs[0]}), rs[0]), rs[1..]);
    }
  }

  // ---------------------------------------------------------------- borrowed sockets

  /** The socket number an accepted connection keeps is open exactly while its listener still has it. */
  lemma BorrowedSocketOpenIff(s: State, c: Ref)
    requires Inv(s) && c in s.heap && s.heap[c].body.ConnectionBody? && s.heap[c].to.Some?
    ensures s.heap[c].body.fd.Some? && s.heap[c].to.value in s.heap
    ensures s.heap[c].body.fd.value in s.ledger.owner <==>
      FieldOf(s.heap[s.heap[c].to.value].body, FdField) == s.heap[c].body.fd
  {
    assert ShapeOk(c, s.heap[c]) && LinkOk(s.heap, s.heap[c], c.cls) && BorrowOk(s.ledger, s.heap[c]);
    var f := s.heap[c].body.fd.value;
    if f in s.ledger.owner {
      assert AnswersFor(s.heap, s.ledger.owner[f], f);
    }
  }

  lemma LiveSslHeld(s: State, c: Ref)
    requires Inv(s) && c in s.heap && s.heap[c].body.ConnectionBody? && s.heap[c].body.ssl.Some?
    ensures s.heap[c].body.ssl.value in s.ledger.owner
  {
    SslIsHeld(s, c);
  }

  /** Closing the listener leaves its accepted connections alive with a stale socket number. */
  lemma CloseListenerStrandsBorrows(s: State, l: Ref, c: Ref)
    requires Inv(s) && Enabled(s, CloseListener(l)) && c in s.heap && s.heap[c].body.ConnectionBody? && s.heap[c].to == Some(l)
    ensures var s' := Apply(s, CloseListener(l));
      && Inv(s') && s'.heap[c] == s.heap[c] && s.heap[c].body.fd.Some?
      && s.heap[c].body.fd.value !in s'.ledger.owner
      && s.heap[c].body.ssl.Some? && s.heap[c].body.ssl.value in s'.ledger.owner
  {
    hide Structure, Counted, WellTyped;
    HeldShape(s, l);
    Shape(s, c);
    var s' := Apply(s, CloseListener(l));
    ReleaseListenerKeeps(s, l);
    BorrowedSocketOpenIff(s', c);
    LiveSslHeld(s', c);
  }

  /** A socket a client connection owns stays open as long as the connection lives. */
  lemma OwnedSocketOpen(s: State, c: Ref)
    requires Inv(s) && c in s.heap && s.heap[c].body.ConnectionBody? && s.heap[c].body.ownsFd
    ensures s.heap[c].body.fd.Some? && s.heap[c].body.fd.value in s.ledger.owner
    ensures s.ledger.owner[s.heap[c].body.fd.value] == Member(c, FdField)
  {
    assert ShapeOk(c, s.heap[c]);
    assert FieldOf(s.heap[c].body, FdField) == s.heap[c].body.fd;
  }

  lemma ExtendRun(ss: seq<State>, ops: seq<Op>, op: Op, s': State)
    requires IsRun(ss, ops) && Enabled(ss[|ops|], op) && (WellTyped(ss[|ops|]) ==> Step(ss[|ops|], op, s'))
    ensures IsRun(ss + [s'], ops + [op])
  {
  }

  /** The state of a program that has one listening Listener. */
  function OneListener(l: Ref): State {
    State(map[l := Obj(1, None, ListeningBody(Listening(0, 1, 2, 3, 4)))], multiset{l},
          Ledger([ListenerSsl, SslCtx, Socket, AlpnBuffer, CallbackData], ListenerSlots(l, Listening(0, 1, 2, 3, 4)), []))
  }

  lemma OneListenerFilled(l: Ref, s1: State, s2: State)
    requires s1 == State(map[l := Obj(1, None, NewBody(ListenerClass))], multiset{l}, EMPTY_LEDGER) && s2 == OneListener(l)
    ensures ListenerFilled(s1, l, s2, Listening(0, 1, 2, 3, 4))
  {
    var k := Listening(0, 1, 2, 3, 4);
    assert s1.heap[l := s1.heap[l].(body := ListeningBody(k))] == s2.heap;
    assert s2.ledger.freed[|s1.ledger.freed|..] == [];
    assert s2.ledger.owner == s1.ledger.owner + ListenerSlots(l, k);
  }

  lemma ListeningIsReached(l: Ref)
    requires l.cls.ListenerClass?
    ensures IsRun([EMPTY, Apply(EMPTY, Create(l)), OneListener(l)], [Create(l), ConstructListener(l)])
  {
    hide OneListener, ListenerFilled, Balanced, IsRun;
    var s1, s2 := Apply(EMPTY, Create(l)), OneListener(l);
    assert s1.heap == map[l := Obj(1, None, NewBody(ListenerClass))] && s1.vars == multiset{l};
    OneListenerFilled(l, s1, s2);
    SameVars(l);
    NoRun();
    ExtendRun([EMPTY], [], Create(l), s1);
    assert [EMPTY] + [s1] == [EMPTY, s1] && [] + [Create(l)] == [Create(l)];
    ExtendRun([EMPTY, s1], [Create(l)], ConstructListener(l), s2);
    assert [EMPTY, s1] + [s2] == [EMPTY, s1, s2] && [Create(l)] + [ConstructListener(l)] == [Create(l), ConstructListener(l)];
  }

  lemma SameVars(l: Ref)
    ensures OneListener(l).vars == multiset{l}
  {
  }

  lemma NoRun()
    ensures IsRun([EMPTY], [])
  {
  }

  /** Any run that has a listening Listener can go on to a live accepted connection whose socket
      number is closed: accept it, then close the listener. */
  lemma StaleBorrowFollows(ss: seq<State>, ops: seq<Op>, l: Ref, c: Ref)
      returns (ss': seq<State>, ops': seq<Op>)
    requires IsRun(ss, ops) && Enabled(ss[|ops|], Accept(l, c, true))
    requires l in ss[|ops|].heap && ss[|ops|].heap[l].body.ListenerBody? && ss[|ops|].heap[l].body.ssl.Some?
    ensures IsRun(ss', ops') && ops' == ops + [Accept(l, c, true)] + [CloseListener(l)]
    ensures var s := ss'[|ops'|];
      && c in s.vars && c in s.heap && s.heap[c].body.ConnectionBody?
      && s.heap[c].body.fd.Some? && s.heap[c].body.fd.value !in s.ledger.owner
  {
    hide Structure, Counted, WellTyped;
    RunKeeps(ss, ops, |ops|);
    var s := ss[|ops|];
    Shape(s, l);
    var s3 := Apply(s, Accept(l, c, true));
    ExtendRun(ss, ops, Accept(l, c, true), s3);
    AcceptKeeps(s, l, c, true);
    Shape(s3, l);
    CloseListenerStrandsBorrows(s3, l, c);
    ExtendRun(ss + [s3], ops + [Accept(l, c, true)], CloseListener(l), Apply(s3, CloseListener(l)));
    ss', ops' := ss + [s3] + [Apply(s3, CloseListener(l))], ops + [Accept(l, c, true)] + [CloseListener(l)];
  }

  /** So "every stored socket number is open" fails on a run of four operations. */
  lemma StaleBorrowHappens() returns (ss: seq<State>, ops: seq<Op>)
    ensures IsRun(ss, ops) && |ops| == 4
    ensures exists c :: (c in ss[4].heap && ss[4].heap[c].body.ConnectionBody? && ss[4].heap[c].body.fd.Some?
                         && ss[4].heap[c].body.fd.value !in ss[4].ledger.owner)
  {
    var l, c := Ref(ListenerClass, 0), Ref(ConnectionClass, 1);
    ListeningIsReached(l);
    ss, ops := StaleBorrowFollows([EMPTY, Apply(EMPTY, Create(l)), OneListener(l)], [Create(l), ConstructListener(l)], l, c);
    assert c in ss[4].heap;
  }
}
