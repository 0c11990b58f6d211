/** The poll-driven echo server: its tables keyed by object id, one poll batch at a time, with ids that
    are reused as soon as no reference to an object is left. */
module EchoServer {
  import opened Common
  import opened Replies
  import opened StreamRead

  /** A PHP object: number is its identity (===), never used twice; id is spl_object_id, which another
      object may get once this one is gone.  A Stream keeps its Connection alive. */
  datatype Conn = Conn(number: nat, id: nat)
  datatype Strm = Strm(number: nat, id: nat, conn: Conn)
  datatype Obj = L(number: nat, id: nat) | C(c: Conn) | S(s: Strm)

  /** ['s' => Quic\Stream, 'cid' => connId, 'buf' => string] */
  datatype Entry = Entry(s: Strm, cid: nat, buf: seq<byte>)

  /** What comes with a result: how many connections or streams there are to accept, and an error. */
  datatype Event = Event(pending: nat, error: bool)

  /** "echo: " */
  const PREFIX: seq<byte> := [101, 99, 104, 111, 58, 32]

  function Number(o: Obj): nat {
    match o case L(n, _) => n case C(c) => c.number case S(s) => s.number
  }

  function Id(o: Obj): nat {
    match o case L(_, id) => id case C(c) => c.id case S(s) => s.id
  }

  /** Whether some variable of the program still leads to o: $listener, $conns and $streams (where an
      object is under its id), $items, or a Stream in $items that keeps its Connection. */
  ghost predicate IsLive(listener: Obj, conns: map<nat, Conn>, streams: map<nat, Entry>, items: seq<Obj>, o: Obj) {
    || o in items
    || match o
       case L(_, _) => o == listener
       case C(c) => (c.id in conns && conns[c.id] == c) || exists i :: 0 <= i < |items| && items[i].S? && items[i].s.conn == c
       case S(s) => s.id in streams && streams[s.id].s == s
  }

  /** The ids that are taken. */
  function LiveIds(listener: Obj, conns: map<nat, Conn>, streams: map<nat, Entry>, items: seq<Obj>): set<nat> {
    {Id(listener)} + conns.Keys + streams.Keys
    + (set i | 0 <= i < |items| :: Id(items[i]))
    + (set i | 0 <= i < |items| && items[i].S? :: items[i].s.conn.id)
  }

  /** Live objects have ids and numbers of their own. */
  ghost predicate Unique(listener: Obj, conns: map<nat, Conn>, streams: map<nat, Entry>, items: seq<Obj>, next: nat) {
    forall a :: IsLive(listener, conns, streams, items, a) ==>
      && Number(a) < next
      && forall b :: IsLive(listener, conns, streams, items, b) && (Id(a) == Id(b) || Number(a) == Number(b)) ==> a == b
  }

  /** Each key is the id of the object under it, and cid names the stream's own connection, still known. */
  ghost predicate TablesOk(conns: map<nat, Conn>, streams: map<nat, Entry>) {
    && (forall k :: k in conns ==> conns[k].id == k)
    && (forall k :: k in streams ==>
          && streams[k].s.id == k && streams[k].cid == streams[k].s.conn.id
          && streams[k].cid in conns && conns[streams[k].cid] == streams[k].s.conn)
  }

  /** delivered: what read() gave on each stream so far, by number; answers: what was written to it. */
  ghost predicate RecordsOk(streams: map<nat, Entry>, delivered: map<nat, seq<byte>>, answers: map<nat, seq<seq<byte>>>, next: nat) {
    && (forall k :: k in streams ==>
          var n := streams[k].s.number;
          n in delivered && delivered[n] == streams[k].buf && n !in answers)
    && (forall n :: n in answers ==> n in delivered && answers[n] == [PREFIX + delivered[n]])
    && (forall n :: n in delivered ==> n < next)
  }

  // ---------------------------------------------------------------- facts about ids

  /** There is always a free id. */
  lemma FreeIdExists(ids: set<nat>)
    ensures exists id: nat :: id !in ids
  {
    var bound := Above(ids);
    assert bound !in ids;
  }

  /** The table entry under a result's id is the result's own object or there is none: a reference in
      $items keeps the id from being reused within the batch. */
  lemma EntryIsResult(listener: Obj, conns: map<nat, Conn>, streams: map<nat, Entry>, items: seq<Obj>, next: nat, i: nat)
    requires Unique(listener, conns, streams, items, next) && TablesOk(conns, streams)
    requires i < |items| && items[i].S? && items[i].s.id in streams
    ensures streams[items[i].s.id].s == items[i].s
  {
    assert IsLive(listener, conns, streams, items, items[i]);
    assert IsLive(listener, conns, streams, items, S(streams[items[i].s.id].s));
  }

  /** Fewer references leave fewer objects live. */
  lemma UniqueShrinks(listener: Obj, conns: map<nat, Conn>, streams: map<nat, Entry>, items: seq<Obj>, next: nat,
                      conns': map<nat, Conn>, streams': map<nat, Entry>, items': seq<Obj>)
    requires Unique(listener, conns, streams, items, next)
    requires forall o :: IsLive(listener, conns', streams', items', o) ==> IsLive(listener, conns, streams, items, o)
    ensures Unique(listener, conns', streams', items', next)
  {
  }

  /** One new object with a free id and the next number. */
  lemma UniqueGrows(listener: Obj, conns: map<nat, Conn>, streams: map<nat, Entry>, items: seq<Obj>, next: nat,
                    conns': map<nat, Conn>, streams': map<nat, Entry>, new_: Obj)
    requires Unique(listener, conns, streams, items, next) && Number(new_) == next
    requires Id(new_) !in LiveIds(listener, conns, streams, items)
    requires forall o :: IsLive(listener, conns', streams', items, o) ==> o == new_ || IsLive(listener, conns, streams, items, o)
    ensures Unique(listener, conns', streams', items, next + 1)
  {
  }

  /** A new connection takes a place of its own in the table. */
  lemma ConnAdded(listener: Obj, conns: map<nat, Conn>, streams: map<nat, Entry>, items: seq<Obj>, next: nat, c: Conn)
    requires Unique(listener, conns, streams, items, next) && TablesOk(conns, streams) && c.number == next
    requires c.id !in LiveIds(listener, conns, streams, items)
    ensures c.id !in conns && TablesOk(conns[c.id := c], streams)
    ensures Unique(listener, conns[c.id := c], streams, items, next + 1)
  {
    UniqueGrows(listener, conns, streams, items, next, conns[c.id := c], streams, C(c));
  }

  /** A new stream takes a place of its own; its connection was live already. */
  lemma StreamAdded(listener: Obj, conns: map<nat, Conn>, streams: map<nat, Entry>, items: seq<Obj>, next: nat, s: Strm)
    requires Unique(listener, conns, streams, items, next) && TablesOk(conns, streams) && s.number == next
    requires s.id !in LiveIds(listener, conns, streams, items)
    requires s.conn.id in conns && conns[s.conn.id] == s.conn
    ensures s.id !in streams && TablesOk(conns, streams[s.id := Entry(s, s.conn.id, [])])
    ensures Unique(listener, conns, streams[s.id := Entry(s, s.conn.id, [])], items, next + 1)
  {
    UniqueGrows(listener, conns, streams, items, next, conns, streams[s.id := Entry(s, s.conn.id, [])], S(s));
  }

  /** After a connection and its streams have been dropped. */
  lemma DroppedOk(listener: Obj, conns: map<nat, Conn>, streams: map<nat, Entry>, items: seq<Obj>, next: nat,
                  c: Conn, i: nat, streams': map<nat, Entry>)
    requires Unique(listener, conns, streams, items, next) && TablesOk(conns, streams)
    requires i < |items| && items[i] == C(c) && c.id in conns && conns[c.id] == c
    requires streams'.Keys <= streams.Keys && forall k :: k in streams' ==> streams'[k] == streams[k]
    requires forall k :: k in streams ==> (k in streams' <==> streams[k].cid != c.id)
    ensures Unique(listener, conns - {c.id}, streams', items, next) && TablesOk(conns - {c.id}, streams')
    ensures streams' == map k | k in streams && streams[k].s.conn != c :: streams[k]
    ensures forall j :: 0 <= j < |items| && items[j].C? && items[j].c.id == c.id ==> items[j] == items[i]
  {
    UniqueShrinks(listener, conns, streams, items, next, conns - {c.id}, streams', items);
    assert forall k :: k in streams ==> (streams[k].cid == c.id <==> streams[k].s.conn == c);
    forall j | 0 <= j < |items| && items[j].C? && items[j].c.id == c.id
      ensures items[j] == items[i]
    {
      assert IsLive(listener, conns, streams, items, items[j]) && IsLive(listener, conns, streams, items, items[i]);
    }
  }

  /** No other entry is about the same stream. */
  lemma NumberIsOnce(listener: Obj, conns: map<nat, Conn>, streams: map<nat, Entry>, items: seq<Obj>, next: nat, sid: nat)
    requires Unique(listener, conns, streams, items, next) && TablesOk(conns, streams) && sid in streams
    ensures forall k :: k in streams && streams[k].s.number == streams[sid].s.number ==> k == sid
  {
    forall k | k in streams && streams[k].s.number == streams[sid].s.number
      ensures k == sid
    {
      assert IsLive(listener, conns, streams, items, S(streams[k].s));
      assert IsLive(listener, conns, streams, items, S(streams[sid].s));
    }
  }

  lemma UnsetOk(listener: Obj, conns: map<nat, Conn>, streams: map<nat, Entry>, items: seq<Obj>, next: nat, sid: nat)
    requires Unique(listener, conns, streams, items, next) && TablesOk(conns, streams)
    ensures Unique(listener, conns, streams - {sid}, items, next) && TablesOk(conns, streams - {sid})
  {
    UniqueShrinks(listener, conns, streams, items, next, conns, streams - {sid}, items);
  }

  lemma RebufferOk(listener: Obj, conns: map<nat, Conn>, streams: map<nat, Entry>, items: seq<Obj>, next: nat, sid: nat, buf: seq<byte>)
    requires Unique(listener, conns, streams, items, next) && TablesOk(conns, streams) && sid in streams
    ensures var streams' := streams[sid := streams[sid].(buf := buf)];
      Unique(listener, conns, streams', items, next) && TablesOk(conns, streams')
  {
    UniqueShrinks(listener, conns, streams, items, next, conns, streams[sid := streams[sid].(buf := buf)], items);
  }

  /** A list of objects out of the tables, each at most once. */
  ghost predicate Listed(listener: Obj, conns: map<nat, Conn>, streams: map<nat, Entry>, list: seq<Obj>) {
    && Distinct(list)
    && forall o :: o in list ==>
         match o
         case L(_, _) => o == listener
         case C(c) => c.id in conns && conns[c.id] == c
         case S(s) => s.id in streams && streams[s.id].s == s
  }

  lemma ListedMore(listener: Obj, conns: map<nat, Conn>, streams: map<nat, Entry>, list: seq<Obj>, o: Obj)
    requires Listed(listener, conns, streams, list) && o !in list
    requires match o
      case L(_, _) => o == listener
      case C(c) => c.id in conns && conns[c.id] == c
      case S(s) => s.id in streams && streams[s.id].s == s
    ensures Listed(listener, conns, streams, list + [o])
  {
  }

  lemma ItemsOk(listener: Obj, conns: map<nat, Conn>, streams: map<nat, Entry>, items: seq<Obj>, next: nat, list: seq<Obj>)
    requires Unique(listener, conns, streams, items, next) && TablesOk(conns, streams)
    requires Listed(listener, conns, streams, list)
    ensures Unique(listener, conns, streams, list, next)
  {
    forall o | IsLive(listener, conns, streams, list, o)
      ensures IsLive(listener, conns, streams, items, o)
    {
      if o.C? && exists i :: 0 <= i < |list| && list[i].S? && list[i].s.conn == o.c {
        var i :| 0 <= i < |list| && list[i].S? && list[i].s.conn == o.c;
        assert list[i] in list;
      }
    }
    UniqueShrinks(listener, conns, streams, items, next, conns, streams, list);
  }

  /** A connection's event: its pending streams are accepted, and on error it goes with all its streams. */
  ghost predicate ConnectionHandled(c: Conn, ev: Event, conns: map<nat, Conn>, streams: map<nat, Entry>,
                                    conns': map<nat, Conn>, streams': map<nat, Entry>) {
    && (ev.error ==> conns' == conns - {c.id} && forall k :: k in streams' <==> k in streams && streams[k].s.conn != c)
    && (!ev.error ==> conns' == conns && |streams'| == |streams| + ev.pending && streams.Keys <= streams'.Keys)
    && (forall k :: k in streams && k in streams' ==> streams'[k] == streams[k])
  }

  /** A stream's event: nothing if the stream was dropped earlier in the batch; otherwise the chunk is this
      stream's alone, and null has it answered. */
  ghost predicate StreamHandled(s: Strm, chunk: ReadResult,
                                streams: map<nat, Entry>, delivered: map<nat, seq<byte>>, answers: map<nat, seq<seq<byte>>>,
                                streams': map<nat, Entry>, delivered': map<nat, seq<byte>>, answers': map<nat, seq<seq<byte>>>) {
    if s.id !in streams || streams[s.id].s != s then
      streams' == streams && delivered' == delivered && answers' == answers
    else
      && s.number in delivered && s.number !in answers
      && match chunk
         case End => && streams' == streams - {s.id} && delivered' == delivered
                     && answers' == answers[s.number := [PREFIX + delivered[s.number]]]
         case Nothing => streams' == streams && delivered' == delivered && answers' == answers
         case Data(b) => && answers' == answers && delivered' == delivered[s.number := delivered[s.number] + b]
                         && streams' == streams[s.id := streams[s.id].(buf := streams[s.id].buf + b)]
         case Threw => streams' == streams && delivered' == delivered && answers' == answers
  }

  /** Every stream has a native stream and an engine of its own. */
  ghost predicate AllApart(stream: map<nat, Stream>, ssl: map<nat, Engine>, owner: map<object, nat>) {
    && stream.Keys == ssl.Keys
    && forall n :: n in ssl ==>
         && stream[n] in owner && owner[stream[n]] == n
         && ssl[n] in owner && owner[ssl[n]] == n
  }

  lemma OthersApart(stream: map<nat, Stream>, ssl: map<nat, Engine>, owner: map<object, nat>, n: nat)
    requires AllApart(stream, ssl, owner) && n in ssl
    ensures stream.Keys == ssl.Keys
    ensures forall m :: m in ssl && m in stream && m != n ==> stream[m] != stream[n] && ssl[m] != ssl[n]
  {
  }

  lemma OneMoreApart(stream: map<nat, Stream>, ssl: map<nat, Engine>, owner: map<object, nat>, n: nat, s: Stream, e: Engine)
    requires AllApart(stream, ssl, owner) && n !in ssl && s !in owner && e !in owner
    ensures AllApart(stream[n := s], ssl[n := e], owner[s := n][e := n])
  {
  }

  ghost predicate NoneThrew(stream: map<nat, Stream>, repr: set<object>)
    reads repr
  {
    forall n :: n in stream ==> stream[n] in repr && stream[n].last != Threw
  }

  lemma OneMoreCalm(stream: map<nat, Stream>, repr: set<object>, n: nat, s: Stream, repr': set<object>)
    requires NoneThrew(stream, repr) && s.last != Threw && repr <= repr' && s in repr'
    ensures NoneThrew(stream[n := s], repr')
  {
  }

  /** The native side of the Stream objects, by their numbers: what was read of each, and of which read()
      has given null. */
  class Wires {
    var stream: map<nat, Stream>
    ghost var ssl: map<nat, Engine>
    ghost var owner: map<object, nat>
    ghost var text: map<nat, seq<byte>>
    ghost var done: set<nat>
    ghost var readCount: nat
    ghost var repr: set<object>

    /** The text of each stream is what its engine handed out. */
    ghost predicate TextOk()
      reads this`stream, this`ssl, this`text, this`repr, repr
    {
      forall n :: n in text && n in stream && n in ssl ==>
        stream[n] in repr && ssl[n] in repr && Collected(stream[n], ssl[n], text[n])
    }

    ghost predicate DoneOk()
      reads this`ssl, this`done, this`repr, repr
    {
      forall n :: n in done && n in ssl ==> ssl[n] in repr && Finished(ssl[n])
    }

    ghost predicate Valid()
      reads this`stream, this`ssl, this`owner, this`text, this`done, this`repr, repr
    {
      && this !in repr && ssl.Keys == text.Keys && done <= text.Keys
      && AllApart(stream, ssl, owner) && TextOk() && DoneOk()
    }

    /** No read() has thrown. */
    ghost predicate Calm()
      reads this`stream, this`repr, repr
    {
      NoneThrew(stream, repr)
    }

    /** read() on this one has, for a failure that is no end of the stream. */
    ghost predicate Died(n: nat)
      reads this`stream, this`ssl, this`repr, repr
    {
      n in stream && n in ssl && stream[n] in repr && ssl[n] in repr && stream[n].last == Threw && Broken(ssl[n])
    }

    constructor ()
      ensures Valid() && Calm() && text == map[] && done == {} && repr == {}
    {
      stream, ssl, owner, text, done, readCount, repr := map[], map[], map[], map[], {}, 0, {};
    }

    lemma DeathEndsCalm()
      requires exists n :: Died(n)
      ensures !Calm()
    {
    }

    /** A stream that the peer opened, and on which it sends whatever it sends. */
    method Add(n: nat)
      requires Valid() && Calm() && n !in text
      modifies this
      ensures Valid() && Calm() && text == old(text)[n := []] && done == old(done) && fresh(repr - old(repr))
    {
      hide Collected, Finished;
      var peer: seq<byte> := *;
      var steady: bool := *;
      var e := new Engine(peer, steady);
      e.blocking := false;
      var s := new Stream(e);
      NothingRead(s, e);
      Enlist(n, s, e);
    }

    method Enlist(n: nat, s: Stream, ghost e: Engine)
      requires Valid() && Calm() && n !in text && s !in owner && e !in owner && Collected(s, e, []) && s.last != Threw
      modifies this
      ensures Valid() && Calm() && text == old(text)[n := []] && done == old(done) && repr == old(repr) + {s, e}
    {
      hide Collected, Finished, AllApart, NoneThrew, TextOk, DoneOk;
      OneMoreApart(stream, ssl, owner, n, s, e);
      OneMoreCalm(stream, repr, n, s, repr + {s, e});
      PutStream(n, s, e);
      PutText(n);
    }

    method PutStream(n: nat, s: Stream, ghost e: Engine)
      requires this !in repr && done <= text.Keys && n !in text && TextOk() && DoneOk()
      modifies this`stream, this`ssl, this`owner, this`repr
      ensures this !in repr && TextOk() && DoneOk() && repr == old(repr) + {s, e}
      ensures stream == old(stream)[n := s] && ssl == old(ssl)[n := e] && owner == old(owner)[s := n][e := n]
    {
      hide Collected, Finished;
      stream, ssl := stream[n := s], ssl[n := e];
      owner, repr := owner[s := n][e := n], repr + {s, e};
    }

    ghost method PutText(n: nat)
      requires TextOk() && n in stream && n in ssl && stream[n] in repr && ssl[n] in repr && Collected(stream[n], ssl[n], [])
      modifies this`text
      ensures TextOk() && text == old(text)[n := []]
    {
      hide Collected;
      text := text[n := []];
    }

    lemma NothingRead(s: Stream, e: Engine)
      requires s.ssl == e && e.Valid() && e.cursor == 0 && !e.blocking
      ensures Collected(s, e, [])
    {
    }

    /** $stream->read(65535) */
    method Read(n: nat) returns (chunk: ReadResult)
      requires Valid() && Calm() && n in text && n !in done
      modifies this`text, this`done, this`readCount, repr
      ensures (chunk != Threw ==> Calm()) && (chunk == Threw ==> Died(n))
      ensures Valid() && text == old(text)[n := old(text)[n] + BytesOf(chunk)] && readCount == old(readCount) + 1
      ensures done == if chunk == End then old(done) + {n} else old(done)
      ensures ssl[n].calls > old(ssl[n].calls)
    {
      hide Collected, Finished, AllApart, DoneOk, OthersOk, NoneThrew;
      SameKeys();
      chunk := ReadEngine(n);
      Record(n, chunk);
    }

    ghost predicate OthersOk(n: nat)
      reads this`stream, this`ssl, this`text, this`repr, repr
    {
      forall m :: m in text && m in stream && m in ssl && m != n ==>
        stream[m] in repr && ssl[m] in repr && Collected(stream[m], ssl[m], text[m])
    }

    method ReadEngine(n: nat) returns (chunk: ReadResult)
      requires this !in repr && TextOk() && DoneOk() && Calm() && AllApart(stream, ssl, owner) && n in stream && n in ssl && n in text && n !in done
      modifies repr
      ensures (chunk != Threw ==> Calm()) && (chunk == Threw ==> Died(n))
      ensures OthersOk(n) && DoneOk() && ssl[n].calls > old(ssl[n].calls)
      ensures stream[n] in repr && ssl[n] in repr && Collected(stream[n], ssl[n], text[n] + BytesOf(chunk))
      ensures chunk == End ==> Finished(ssl[n])
    {
      hide Collected, Finished, AllApart;
      OthersApart(stream, ssl, owner, n);
      chunk := ReadOne(stream[n], ssl[n], text[n]);
    }

    ghost method Record(n: nat, chunk: ReadResult)
      requires OthersOk(n) && DoneOk() && n in stream && n in ssl && n in text
      requires stream[n] in repr && ssl[n] in repr && Collected(stream[n], ssl[n], text[n] + BytesOf(chunk))
      requires chunk == End ==> Finished(ssl[n])
      modifies this`text, this`done, this`readCount
      ensures TextOk() && DoneOk()
      ensures text == old(text)[n := old(text)[n] + BytesOf(chunk)] && readCount == old(readCount) + 1
      ensures done == if chunk == End then old(done) + {n} else old(done)
    {
      hide Collected, Finished;
      text, readCount := text[n := text[n] + BytesOf(chunk)], readCount + 1;
      if chunk == End {
        done := done + {n};
      }
    }

    /** Poll drives the engine: something may arrive for any stream. */
    method Arrivals()
      requires Valid() && Calm()
      modifies repr
      ensures Valid() && Calm()
    {
      hide AllApart, TextOk, DoneOk;
      var ns := stream.Keys;
      while ns != {}
        invariant Valid() && Calm() && ns <= stream.Keys
        decreases |ns|
      {
        var n :| n in ns;
        ArriveOn(n);
        ns := ns - {n};
      }
    }

    method ArriveOn(n: nat)
      requires Valid() && Calm() && n in stream
      modifies repr
      ensures Valid() && Calm()
    {
      hide AllApart;
      SameKeys();
      OthersApart(stream, ssl, owner, n);
      stream[n].ssl.Arrivals();
    }

    lemma SameKeys()
      requires Valid()
      ensures stream.Keys == ssl.Keys
    {
    }
  }

  /** A new stream has nothing delivered yet. */
  lemma RecordAdded(streams: map<nat, Entry>, delivered: map<nat, seq<byte>>, answers: map<nat, seq<seq<byte>>>, next: nat, s: Strm, cid: nat)
    requires RecordsOk(streams, delivered, answers, next) && s.number == next
    ensures RecordsOk(streams[s.id := Entry(s, cid, [])], delivered[next := []], answers, next + 1)
  {
  }

  /** The records after a stream's event are those of what was read. */
  lemma StreamLinked(s: Strm, chunk: ReadResult,
                     streams: map<nat, Entry>, delivered: map<nat, seq<byte>>, answers: map<nat, seq<seq<byte>>>,
                     streams': map<nat, Entry>, delivered': map<nat, seq<byte>>, answers': map<nat, seq<seq<byte>>>)
    requires StreamHandled(s, chunk, streams, delivered, answers, streams', delivered', answers')
    requires s.id in streams && streams[s.id].s == s && s.number in delivered
    ensures delivered' == delivered[s.number := delivered[s.number] + BytesOf(chunk)]
    ensures answers'.Keys == if chunk == End then answers.Keys + {s.number} else answers.Keys
  {
    assert delivered[s.number] + [] == delivered[s.number];
  }

  lemma Stale(s: Strm, streams: map<nat, Entry>, delivered: map<nat, seq<byte>>, answers: map<nat, seq<seq<byte>>>)
    requires s.id !in streams
    ensures StreamHandled(s, Nothing, streams, delivered, answers, streams, delivered, answers)
  {
  }

  class Server {
    const listener: Obj
    const wires: Wires
    var conns: map<nat, Conn>
    var streams: map<nat, Entry>
    var items: seq<Obj>
    var next: nat                // stands for object identity: the number of the next object
    ghost var reported: set<nat>  // the results of the last poll, and those handled so far
    ghost var handled: set<nat>
    ghost var turns: nat          // turns of the endless loop so far
    ghost var delivered: map<nat, seq<byte>>
    ghost var answers: map<nat, seq<seq<byte>>>

    ghost predicate Valid()
      reads this
    {
      && listener.L?
      && Unique(listener, conns, streams, items, next)
      && TablesOk(conns, streams)
      && RecordsOk(streams, delivered, answers, next)
    }

    /** Each stream's record is what was read of it, and the answered ones are those whose read() gave null. */
    ghost predicate Linked()
      reads this`delivered, this`answers, wires, wires.repr
    {
      this !in wires.repr && wires.Valid() && wires.text == delivered && wires.done == answers.Keys
    }

    /** Inside a batch: a connection whose result is still to come has not been dropped, and no two
        items are the same object. */
    ghost predicate BatchOk(todo: set<nat>)
      reads this`conns, this`items
    {
      && (forall i :: i in todo ==> i < |items|)
      && Distinct(items)
      && forall i :: i in todo && items[i].C? ==> items[i].c.id in conns && conns[items[i].c.id] == items[i].c
    }

    constructor (id: nat)
      ensures Valid() && Linked() && wires.Calm() && conns == map[] && streams == map[] && items == [] && fresh(wires) && wires.repr == {}
    {
      listener := L(0, id);
      wires := new Wires();
      conns, streams, items := map[], map[], [];
      next, delivered, answers, reported, handled, turns := 1, map[], map[], {}, {}, 0;
    }

    /** The id the runtime gives a new object: any that no live object has. */
    method NewId() returns (id: nat)
      ensures id !in LiveIds(listener, conns, streams, items)
    {
      var taken := LiveIds(listener, conns, streams, items);
      FreeIdExists(taken);
      id :| id !in taken;
    }

    /** $listener->accept() until it gives null; pending is how many it has. */
    method AcceptAll(pending: nat, ghost todo: set<nat>)
      requires Valid() && BatchOk(todo)
      modifies this`conns, this`next
      ensures Valid() && BatchOk(todo)
      ensures |conns| == |old(conns)| + pending
      ensures forall k :: k in old(conns) ==> k in conns && conns[k] == old(conns)[k]
    {
      for n := 0 to pending
        invariant Valid() && BatchOk(todo) && |conns| == |old(conns)| + n
        invariant forall k :: k in old(conns) ==> k in conns && conns[k] == old(conns)[k]
      {
        var id := NewId();
        AcceptOne(id, todo);
      }
    }

    /** $conns[spl_object_id($c)] = $c */
    method AcceptOne(id: nat, ghost todo: set<nat>)
      requires Valid() && BatchOk(todo)
      requires id !in LiveIds(listener, conns, streams, items)
      modifies this`conns, this`next
      ensures Valid() && BatchOk(todo) && id !in old(conns)
      ensures conns == old(conns)[id := Conn(old(next), id)] && next == old(next) + 1
    {
      hide LiveIds, Unique;
      var c := Conn(next, id);
      ConnAdded(listener, conns, streams, items, next, c);
      conns := conns[id := c];
      next := next + 1;
    }

    /** $obj->acceptStream() until it gives null */
    method AcceptStreams(c: Conn, cid: nat, pending: nat, ghost todo: set<nat>)
      requires Valid() && BatchOk(todo) && Linked() && wires.Calm() && cid == c.id && cid in conns && conns[cid] == c
      modifies this`streams, this`next, this`delivered, wires
      ensures Valid() && BatchOk(todo) && Linked() && wires.Calm() && fresh(wires.repr - old(wires.repr)) && this !in wires.repr
      ensures |streams| == |old(streams)| + pending
      ensures forall k :: k in old(streams) ==> k in streams && streams[k] == old(streams)[k]
      ensures forall k :: k in streams && k !in old(streams) ==> streams[k] == Entry(streams[k].s, cid, []) && streams[k].s.conn == c
    {
      hide Unique, TablesOk, RecordsOk, BatchOk, Linked;
      Outside();
      for n := 0 to pending
        invariant Valid() && BatchOk(todo) && Linked() && wires.Calm() && |streams| == |old(streams)| + n
        invariant fresh(wires.repr - old(wires.repr)) && this !in wires.repr
        invariant forall k :: k in old(streams) ==> k in streams && streams[k] == old(streams)[k]
        invariant forall k :: k in streams && k !in old(streams) ==> streams[k] == Entry(streams[k].s, cid, []) && streams[k].s.conn == c
      {
        AcceptStream(c, cid, todo);
      }
    }

    lemma Outside()
      requires Linked()
      ensures this !in wires.repr
    {
    }

    /** One of them. */
    method AcceptStream(c: Conn, cid: nat, ghost todo: set<nat>)
      requires Valid() && BatchOk(todo) && Linked() && wires.Calm() && cid == c.id && cid in conns && conns[cid] == c
      modifies this`streams, this`next, this`delivered, wires
      ensures Valid() && BatchOk(todo) && Linked() && wires.Calm() && fresh(wires.repr - old(wires.repr)) && this !in wires.repr
      ensures exists id :: id !in old(streams) && streams == old(streams)[id := Entry(Strm(old(next), id, c), cid, [])]
    {
      hide Unique, TablesOk, RecordsOk, BatchOk, LiveIds, Linked, Wires.Valid, Wires.Calm;
      var id := NewId();
      NextIsNew();
      AddNative();
      AcceptStreamOne(c, cid, id, todo);
      Relinked();
    }

    method AddNative()
      requires Linked() && wires.Calm() && next !in delivered
      modifies wires
      ensures this !in wires.repr && wires.Valid() && wires.Calm() && fresh(wires.repr - old(wires.repr))
      ensures wires.text == delivered[next := []] && wires.done == answers.Keys
    {
      wires.Add(next);
    }

    lemma NextIsNew()
      requires Valid()
      ensures next !in delivered
    {
    }

    /** $streams[spl_object_id($s)] = ['s' => $s, 'cid' => $cid, 'buf' => ''] */
    method AcceptStreamOne(c: Conn, cid: nat, id: nat, ghost todo: set<nat>)
      requires Valid() && BatchOk(todo) && cid == c.id && cid in conns && conns[cid] == c
      requires id !in LiveIds(listener, conns, streams, items)
      modifies this`streams, this`next, this`delivered
      ensures Valid() && BatchOk(todo) && id !in old(streams)
      ensures streams == old(streams)[id := Entry(Strm(old(next), id, c), cid, [])]
      ensures delivered == old(delivered)[old(next) := []]
    {
      hide LiveIds, Unique, TablesOk, RecordsOk, BatchOk;
      var s := Strm(next, id, c);
      StreamAdded(listener, conns, streams, items, next, s);
      RecordAdded(streams, delivered, answers, next, s, cid);
      streams := streams[id := Entry(s, cid, [])];
      delivered := delivered[next := []];
      next := next + 1;
    }

    /** foreach ($streams as $sid => $st): unset those of connection cid */
    method UnsetStreams(cid: nat)
      modifies this`streams
      ensures streams.Keys <= old(streams).Keys
      ensures forall k :: k in old(streams) ==> (k in streams <==> old(streams)[k].cid != cid)
      ensures forall k :: k in streams ==> streams[k] == old(streams)[k]
    {
      var keys := streams.Keys;
      while keys != {}
        invariant keys <= old(streams).Keys && streams.Keys <= old(streams).Keys
        invariant forall k :: k in old(streams) ==> (k in streams <==> k in keys || old(streams)[k].cid != cid)
        invariant forall k :: k in streams ==> streams[k] == old(streams)[k]
        decreases |keys|
      {
        var sid :| sid in keys;
        if streams[sid].cid == cid {
          streams := streams - {sid};
        }
        keys := keys - {sid};
      }
    }

    /** unset($conns[$cid]) and then the connection's streams */
    method DropConnection(i: nat, c: Conn, ghost todo: set<nat>)
      requires Valid() && BatchOk(todo + {i}) && i !in todo && items[i] == C(c)
      modifies this`conns, this`streams
      ensures Valid() && BatchOk(todo)
      ensures conns == old(conns) - {c.id}
      ensures streams == map k | k in old(streams) && old(streams)[k].s.conn != c :: old(streams)[k]
    {
      hide Unique;
      assert i in todo + {i};
      conns := conns - {c.id};
      UnsetStreams(c.id);
      DroppedOk(listener, old(conns), old(streams), items, next, c, i, streams);
      forall j | j in todo && items[j].C?
        ensures items[j].c.id in conns && conns[items[j].c.id] == items[j].c
      {
        assert j in todo + {i} && items[j] != items[i];
      }
    }

    /** What the loop does with a result for a connection. */
    method HandleConnection(i: nat, c: Conn, ev: Event, ghost todo: set<nat>)
      requires Valid() && BatchOk(todo + {i}) && Linked() && wires.Calm() && i !in todo && items[i] == C(c)
      modifies this`conns, this`streams, this`next, this`delivered, wires
      ensures Valid() && BatchOk(todo) && Linked() && wires.Calm() && fresh(wires.repr - old(wires.repr))
      ensures ConnectionHandled(c, ev, old(conns), old(streams), conns, streams)
    {
      hide Linked, Unique, TablesOk, RecordsOk, BatchOk;
      BatchHas(todo, i);
      AcceptStreams(c, c.id, ev.pending, todo + {i});
      ghost var mid := streams;
      if ev.error {
        DropConnection(i, c, todo);
        assert forall k :: k in mid && k !in old(streams) ==> mid[k].s.conn == c;
      }
    }

    /** $obj->write($data, true), recorded under the stream's identity */
    ghost method RecordWrite(n: nat, data: seq<byte>)
      modifies this`answers
      ensures answers == old(answers)[n := (if n in old(answers) then old(answers)[n] else []) + [data]]
    {
      answers := answers[n := (if n in answers then answers[n] else []) + [data]];
    }

    /** What the loop does with a result for a stream; a stream without an entry is left alone. */
    method HandleStream(i: nat, s: Strm, ghost todo: set<nat>) returns (chunk: ReadResult)
      requires Valid() && BatchOk(todo + {i}) && Linked() && wires.Calm() && i !in todo && items[i] == S(s)
      modifies this`streams, this`delivered, this`answers, wires`text, wires`done, wires`readCount, wires.repr
      ensures Valid() && BatchOk(todo) && Linked() && wires.repr == old(wires.repr)
      ensures (chunk != Threw ==> wires.Calm()) && (chunk == Threw ==> wires.Died(s.number))
      ensures StreamHandled(s, chunk, old(streams), old(delivered), old(answers), streams, delivered, answers)
      ensures wires.readCount == old(wires.readCount) + (if s.id in old(streams) then 1 else 0)
      ensures s.id !in old(streams) ==> chunk == Nothing
    {
      hide Unique, TablesOk, RecordsOk, StreamHandled, Linked, BatchOk, Wires.Valid, Wires.Calm, Wires.Died;
      Outside();
      BatchHas(todo, i);
      if s.id !in streams {
        Stale(s, streams, delivered, answers);
        return Nothing;
      }
      EntryIsResult(listener, conns, streams, items, next, i);
      HasRecord(s);
      chunk := ReadNative(s.number);
      TakeChunk(i, s, chunk, todo);
      StreamLinked(s, chunk, old(streams), old(delivered), old(answers), streams, delivered, answers);
      Relinked();
    }

    /** $obj->read(65535), on the native stream. */
    method ReadNative(n: nat) returns (chunk: ReadResult)
      requires Linked() && wires.Calm() && n in delivered && n !in answers
      modifies wires`text, wires`done, wires`readCount, wires.repr
      ensures wires.Valid() && wires.repr == old(wires.repr) && this !in wires.repr
      ensures (chunk != Threw ==> wires.Calm()) && (chunk == Threw ==> wires.Died(n))
      ensures wires.text == delivered[n := delivered[n] + BytesOf(chunk)]
      ensures wires.done == if chunk == End then answers.Keys + {n} else answers.Keys
      ensures wires.readCount == old(wires.readCount) + 1
    {
      chunk := wires.Read(n);
    }

    lemma Relinked()
      requires this !in wires.repr && wires.Valid() && wires.text == delivered && wires.done == answers.Keys
      ensures Linked()
    {
    }

    lemma HasRecord(s: Strm)
      requires Valid() && s.id in streams && streams[s.id].s == s
      ensures s.number in delivered && s.number !in answers
    {
    }

    /** The rest of it: null answers the stream, data goes into its buffer. */
    method TakeChunk(i: nat, s: Strm, chunk: ReadResult, ghost todo: set<nat>)
      requires Valid() && BatchOk(todo + {i}) && i !in todo && items[i] == S(s)
      requires s.id in streams && streams[s.id].s == s
      modifies this`streams, this`delivered, this`answers
      ensures Valid() && BatchOk(todo)
      ensures StreamHandled(s, chunk, old(streams), old(delivered), old(answers), streams, delivered, answers)
    {
      hide Unique;
      var sid := s.id;
      var e := streams[sid];
      NumberIsOnce(listener, conns, streams, items, next, sid);
      match chunk {
        case End =>
          RecordWrite(s.number, PREFIX + e.buf);
          streams := streams - {sid};
          UnsetOk(listener, conns, old(streams), items, next, sid);
        case Nothing =>
        case Data(b) =>
          delivered := delivered[s.number := delivered[s.number] + b];
          streams := streams[sid := e.(buf := e.buf + b)];
          RebufferOk(listener, conns, old(streams), items, next, sid, e.buf + b);
        case Threw =>
      }
    }

    /** foreach ($conns as $c) */
    method ListConns() returns (list: seq<Obj>)
      requires listener.L? && TablesOk(conns, streams)
      ensures Listed(listener, conns, streams, list) && (forall o :: o in list ==> !o.S?)
      ensures |list| == 1 + |conns| && list[0] == listener
      ensures forall k :: k in conns ==> C(conns[k]) in list
    {
      list := [listener];
      var ks := conns.Keys;
      while ks != {}
        invariant ks <= conns.Keys && Listed(listener, conns, streams, list)
        invariant forall k :: k in conns ==> (C(conns[k]) in list <==> k !in ks)
        invariant forall o :: o in list ==> !o.S?
        invariant |list| == 1 + |conns| - |ks| && list[0] == listener
        decreases |ks|
      {
        var k :| k in ks;
        ListedMore(listener, conns, streams, list, C(conns[k]));
        list := list + [C(conns[k])];
        ks := ks - {k};
      }
    }

    /** foreach ($streams as $st) */
    method ListStreams(list0: seq<Obj>) returns (list: seq<Obj>)
      requires TablesOk(conns, streams) && Listed(listener, conns, streams, list0) && forall o :: o in list0 ==> !o.S?
      ensures Listed(listener, conns, streams, list) && list0 <= list && |list| == |list0| + |streams|
      ensures forall k :: k in streams ==> S(streams[k].s) in list
    {
      list := list0;
      var ks := streams.Keys;
      while ks != {}
        invariant ks <= streams.Keys && Listed(listener, conns, streams, list) && list0 <= list
        invariant forall k :: k in streams ==> (S(streams[k].s) in list <==> k !in ks)
        invariant |list| == |list0| + |streams| - |ks|
        decreases |ks|
      {
        var k :| k in ks;
        ListedMore(listener, conns, streams, list, S(streams[k].s));
        list := list + [S(streams[k].s)];
        ks := ks - {k};
      }
    }

    /** The $items of the next poll: the listener, every connection and every stream, each once. */
    method BuildItems()
      requires Valid()
      modifies this`items
      ensures Valid() && Listed(listener, conns, streams, items)
      ensures |items| == 1 + |conns| + |streams| && items[0] == listener
      ensures forall k :: k in conns ==> C(conns[k]) in items
      ensures forall k :: k in streams ==> S(streams[k].s) in items
    {
      hide Unique, Listed, TablesOk, RecordsOk;
      var some := ListConns();
      var list := ListStreams(some);
      ItemsOk(listener, conns, streams, items, next, list);
      items := list;
    }

    /** Poll drives the engine and reports any subset of the items. */
    method Report() returns (todo: set<nat>)
      requires Listed(listener, conns, streams, items) && Linked() && wires.Calm()
      modifies this`reported, wires.repr
      ensures BatchOk(todo) && reported == todo && Linked() && wires.Calm()
      ensures wires.repr == old(wires.repr) && this !in wires.repr
    {
      hide Listed, BatchOk, Wires.Calm, Wires.Valid;
      todo := SomeItems();
      Drive();
      reported := todo;
    }

    method Drive()
      requires Linked() && wires.Calm()
      modifies wires.repr
      ensures Linked() && wires.Calm() && wires.repr == old(wires.repr) && this !in wires.repr
    {
      hide Wires.Calm;
      wires.Arrivals();
    }

    method SomeItems() returns (todo: set<nat>)
      requires Listed(listener, conns, streams, items)
      ensures BatchOk(todo)
    {
      todo := {};
      for i := 0 to |items|
        invariant forall j :: j in todo ==> j < |items|
      {
        if * {
          todo := todo + {i};
        }
      }
      assert forall i :: i in todo ==> items[i] in items;
    }

    /** The body of the loop over poll's results; chunk is what was read, if anything. */
    method HandleResult(i: nat, ev: Event, ghost todo: set<nat>) returns (chunk: ReadResult)
      requires Valid() && BatchOk(todo + {i}) && Linked() && wires.Calm() && i !in todo && i < |items|
      modifies this`conns, this`streams, this`next, this`delivered, this`answers, this`handled, wires, wires.repr
      ensures Valid() && BatchOk(todo) && Linked() && handled == old(handled) + {i} && fresh(wires.repr - old(wires.repr))
      ensures match items[i]
        case L(_, _) =>
          && |conns| == |old(conns)| + ev.pending && streams == old(streams) && answers == old(answers)
          && forall k :: k in old(conns) ==> k in conns && conns[k] == old(conns)[k]
        case C(c) => ConnectionHandled(c, ev, old(conns), old(streams), conns, streams) && answers == old(answers)
        case S(s) =>
          && conns == old(conns)
          && StreamHandled(s, chunk, old(streams), old(delivered), old(answers), streams, delivered, answers)
          && wires.readCount == old(wires.readCount) + (if s.id in old(streams) then 1 else 0)
      ensures !items[i].S? ==> chunk == Nothing
      ensures (chunk != Threw ==> wires.Calm()) && (chunk == Threw ==> exists n :: wires.Died(n))
      ensures forall n :: n in old(answers) ==> n in answers && answers[n] == old(answers)[n]
    {
      hide Unique, TablesOk, RecordsOk, ConnectionHandled, Linked, BatchOk;
      Outside();
      BatchHas(todo, i);
      handled := handled + {i};
      chunk := Nothing;
      match items[i] {
        case L(_, _) =>
          AcceptAll(ev.pending, todo + {i});
          BatchHas(todo, i);
        case C(c) => HandleConnection(i, c, ev, todo);
        case S(s) => chunk := HandleStream(i, s, todo);
      }
    }

    /** One turn of it: what comes with a result is up to the engine; false when read() threw. */
    method HandleNext(i: nat, ghost todo: set<nat>) returns (ok: bool)
      requires Valid() && BatchOk(todo + {i}) && Linked() && wires.Calm() && i !in todo && i < |items|
      modifies this`conns, this`streams, this`next, this`delivered, this`answers, this`handled, wires, wires.repr
      ensures Valid() && BatchOk(todo) && Linked() && this !in wires.repr && handled == old(handled) + {i}
      ensures (ok <==> wires.Calm()) && (!ok ==> exists n :: wires.Died(n))
      ensures fresh(wires.repr - old(wires.repr))
      ensures forall n :: n in old(answers) ==> n in answers && answers[n] == old(answers)[n]
    {
      hide Unique, TablesOk, RecordsOk, BatchOk, ConnectionHandled, StreamHandled;
      var ev: Event := *;
      var chunk := HandleResult(i, ev, todo);
      ok := chunk != Threw;
      if !ok {
        wires.DeathEndsCalm();
      }
    }

    /** The loop over poll's results, in any order, whatever comes with each; false when read() threw. */
    method HandleAll(results: set<nat>) returns (ok: bool)
      requires Valid() && BatchOk(results) && Linked() && wires.Calm()
      modifies this`conns, this`streams, this`next, this`delivered, this`answers, this`handled, wires, wires.repr
      ensures Valid() && Linked() && fresh(wires.repr - old(wires.repr)) && (ok ==> handled == results)
      ensures (ok <==> wires.Calm()) && (!ok ==> exists n :: wires.Died(n))
      ensures forall n :: n in old(answers) ==> n in answers && answers[n] == old(answers)[n]
    {
      hide Unique, TablesOk, RecordsOk, BatchOk, ConnectionHandled, StreamHandled, Linked, Wires.Calm, Wires.Died;
      Outside();
      var todo := results;
      ok, handled := true, {};
      InBatch(results);
      while todo != {}
        invariant Valid() && BatchOk(todo) && Linked() && ok && wires.Calm() && todo <= results && handled == results - todo
        invariant fresh(wires.repr - old(wires.repr)) && this !in wires.repr
        invariant forall i :: i in results ==> i < |items|
        invariant forall n :: n in old(answers) ==> n in answers && answers[n] == old(answers)[n]
        decreases |todo|
      {
        var i :| i in todo;
        assert todo - {i} + {i} == todo;
        todo := todo - {i};
        ok := HandleNext(i, todo);
        if !ok {
          return;
        }
      }
    }

    lemma BatchHas(todo: set<nat>, i: nat)
      requires BatchOk(todo + {i})
      ensures i < |items| && BatchOk(todo)
      ensures items[i].C? ==> items[i].c.id in conns && conns[items[i].c.id] == items[i].c
    {
      assert i in todo + {i};
    }

    lemma InBatch(todo: set<nat>)
      requires BatchOk(todo)
      ensures forall i :: i in todo ==> i < |items|
    {
    }

    /** One turn of the server's loop: every result that poll reports is handled, once. */
    method Round() returns (ok: bool)
      requires Valid() && Linked() && wires.Calm()
      modifies this, wires, wires.repr
      ensures Valid() && Linked() && fresh(wires.repr - old(wires.repr))
      ensures (ok <==> wires.Calm()) && (!ok ==> exists n :: wires.Died(n))
      ensures turns == old(turns) + 1 && (ok ==> handled == reported)
      ensures forall n :: n in old(answers) ==> n in answers && answers[n] == old(answers)[n]
    {
      hide Unique, TablesOk, RecordsOk, BatchOk, Listed, Linked, Wires.Calm, Wires.Died;
      Outside();
      turns := turns + 1;
      BuildItems();
      var results := Report();
      ok := HandleAll(results);
    }

    /** Stream n was answered once: after a clean end with all that the peer sent on it, after a reset or
        when the connection closed with what had come before. */
    ghost predicate AnsweredRight(n: nat)
      requires n in answers && n in wires.ssl
      reads this`answers, wires`ssl, wires.ssl[n]
    {
      var ssl := wires.ssl[n];
      || (ssl.error == ZeroReturn && answers[n] == [[101, 99, 104, 111, 58, 32] + ssl.peer])
      || (ssl.error == Failure && Ended(ssl.state) && ssl.cursor <= |ssl.peer|
          && answers[n] == [[101, 99, 104, 111, 58, 32] + ssl.peer[..ssl.cursor]])
    }

    lemma AnswersAreRight()
      requires Valid() && Linked()
      ensures forall n :: n in answers ==> n in wires.ssl && AnsweredRight(n)
    {
      forall n | n in answers
        ensures n in wires.ssl && AnsweredRight(n)
      {
        var ssl := wires.ssl[n];
        assert ssl.cursor == |ssl.peer| ==> ssl.peer[..ssl.cursor] == ssl.peer;
      }
    }

    /** Any number of turns from the start: the tables stay right, and every answered stream was answered
        once, with what its peer sent. */
    method Run(rounds: nat) returns (ok: bool)
      requires Valid() && Linked() && wires.Calm()
      modifies this, wires, wires.repr
      ensures Valid() && Linked() && (ok ==> turns == old(turns) + rounds)
      ensures (ok <==> wires.Calm()) && (!ok ==> exists n :: wires.Died(n))
      ensures forall n :: n in answers ==> n in wires.ssl && AnsweredRight(n)
    {
      ok := true;
      var r := 0;
      while ok && r < rounds
        invariant (ok <==> wires.Calm()) && (!ok ==> exists n :: wires.Died(n))
        invariant Valid() && Linked() && fresh(wires.repr - old(wires.repr)) && turns == old(turns) + r && r <= rounds
        decreases rounds - r
      {
        ok := Round();
        r := r + 1;
      }
      AnswersAreRight();
    }
  }
}
