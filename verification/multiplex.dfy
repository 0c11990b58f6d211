/** The multiplex client: many streams on one connection, drained as poll reports them. */
module Multiplex {
  import opened Common
  import opened Replies
  import opened StreamRead

  /** An opened stream: the id it got and the engine behind it. */
  datatype Opened = Opened(id: nat, ssl: Engine)

  /** $streams and $buffers have the same keys, each the id of the stream under it. */
  ghost predicate TablesOk(streams: map<nat, Stream>, buffers: map<nat, seq<byte>>, known: map<Stream, Opened>) {
    && streams.Keys == buffers.Keys
    && forall id :: id in streams ==> streams[id] in known && known[streams[id]].id == id
  }

  /** Every stream has an engine of its own. */
  ghost predicate Apart(known: map<Stream, Opened>, owner: map<Engine, Stream>) {
    forall s :: s in known ==> known[s].ssl in owner && owner[known[s].ssl] == s
  }

  /** Each opened stream is either still in $streams or its reply has been printed, once. */
  ghost predicate PrintedOnce(streams: map<nat, Stream>, known: map<Stream, Opened>, authors: seq<Stream>) {
    && Distinct(authors) && (forall s :: s in authors ==> s in known)
    && forall s :: s in known ==> (s in authors <==> known[s].id !in streams || streams[known[s].id] != s)
  }

  lemma OpenedOk(streams: map<nat, Stream>, buffers: map<nat, seq<byte>>, known: map<Stream, Opened>,
                 owner: map<Engine, Stream>, authors: seq<Stream>, id: nat, s: Stream, e: Engine)
    requires TablesOk(streams, buffers, known) && Apart(known, owner) && PrintedOnce(streams, known, authors)
    requires id !in streams && s !in known && e !in owner
    ensures var known' := known[s := Opened(id, e)];
      && TablesOk(streams[id := s], buffers[id := []], known') && Apart(known', owner[e := s])
      && PrintedOnce(streams[id := s], known', authors)
  {
  }

  lemma ClosedOk(streams: map<nat, Stream>, buffers: map<nat, seq<byte>>, known: map<Stream, Opened>,
                 authors: seq<Stream>, id: nat)
    requires TablesOk(streams, buffers, known) && PrintedOnce(streams, known, authors) && id in streams
    ensures TablesOk(streams - {id}, buffers - {id}, known)
    ensures PrintedOnce(streams - {id}, known, authors + [streams[id]])
  {
    assert streams[id] !in authors;
    assert forall x :: x in authors + [streams[id]] <==> x in authors || x == streams[id];
  }

  /** Reading one stream touches neither another one nor one that has been printed. */
  lemma OwnEngine(streams: map<nat, Stream>, buffers: map<nat, seq<byte>>, known: map<Stream, Opened>,
                  owner: map<Engine, Stream>, authors: seq<Stream>, id: nat)
    requires TablesOk(streams, buffers, known) && Apart(known, owner) && PrintedOnce(streams, known, authors)
    requires id in streams
    ensures id in buffers && streams[id] in known
    ensures forall k :: k in streams && streams[k] in known && k != id ==>
      streams[k] != streams[id] && known[streams[k]].ssl != known[streams[id]].ssl
    ensures forall s :: s in authors && s in known ==> s != streams[id]
    ensures forall s :: s in known && s != streams[id] ==> known[s].ssl != known[streams[id]].ssl
  {
  }

  lemma SameKeys(streams: map<nat, Stream>, buffers: map<nat, seq<byte>>, known: map<Stream, Opened>, id: nat, text: seq<byte>)
    requires TablesOk(streams, buffers, known) && id in streams
    ensures TablesOk(streams, buffers[id := text], known)
  {
  }

  /** The opened streams in order; the i-th reads what the peer answers to request i. */
  ghost predicate OrderOk(known: map<Stream, Opened>, order: seq<Stream>, peers: seq<seq<byte>>) {
    && |order| == |peers| && Distinct(order) && (forall s :: s in order ==> s in known) && (forall s :: s in known ==> s in order)
    && forall i :: 0 <= i < |order| ==> known[order[i]].ssl.peer == peers[i]
  }

  lemma OrderMore(known: map<Stream, Opened>, order: seq<Stream>, peers: seq<seq<byte>>, s: Stream, o: Opened)
    requires OrderOk(known, order, peers) && s !in known
    ensures OrderOk(known[s := o], order + [s], peers + [o.ssl.peer])
  {
    assert s !in order;
  }

  class Client {
    var streams: map<nat, Stream>
    var buffers: map<nat, seq<byte>>
    var lines: seq<seq<byte>>              // standard output
    ghost var authors: seq<Stream>         // the stream that each line is the reply of
    ghost var known: map<Stream, Opened>   // every stream that was opened
    ghost var owner: map<Engine, Stream>
    ghost var reported: set<nat>           // the keys of the last poll's result
    ghost var turns: nat                   // turns of the loop so far
    ghost var repr: set<object>

    ghost predicate FrameOk()
      reads this`known, this`repr
    {
      this !in repr && forall s :: s in known ==> s in repr && known[s].ssl in repr
    }

    /** Each buffer is what was read of its own stream. */
    ghost predicate BuffersOk()
      reads this`streams, this`buffers, this`known, this`repr, repr
    {
      FrameOk() && forall id :: id in streams && id in buffers && streams[id] in known ==>
        Collected(streams[id], known[streams[id]].ssl, buffers[id])
    }

    /** Each line is the reply of its own stream. */
    ghost predicate LinesOk()
      reads this`lines, this`authors, this`known, this`repr, repr
    {
      && |lines| == |authors| && FrameOk()
      && forall j :: 0 <= j < |authors| ==> authors[j] in known && Answered(known[authors[j]].ssl, lines[j])
    }

    ghost predicate Valid()
      reads this, repr
    {
      && this !in repr
      && TablesOk(streams, buffers, known) && Apart(known, owner) && PrintedOnce(streams, known, authors)
      && BuffersOk() && LinesOk()
    }

    constructor ()
      ensures Valid() && streams == map[] && known == map[] && repr == {} && lines == []
    {
      streams, buffers, lines := map[], map[], [];
      authors, known, owner, reported, turns, repr := [], map[], map[], {}, 0, {};
    }

    /** No read() has thrown. */
    ghost predicate Calm()
      reads this`known, this`repr, repr
    {
      forall s :: s in known ==> s in repr && s.last != Threw
    }

    /** read() on this one has, for a failure that is no end of the stream. */
    ghost predicate Died(s: Stream)
      requires s in known
      reads this`known, s, known[s].ssl
    {
      s.last == Threw && Broken(known[s].ssl)
    }

    /** openStream(), under its object id: one that no stream in $streams has. */
    method Open(id: nat, peer: seq<byte>, steady: bool) returns (s: Stream)
      requires Valid() && Calm() && id !in streams
      modifies this
      ensures Valid() && Calm() && fresh(repr - old(repr))
      ensures s !in old(known) && s in known && known == old(known)[s := known[s]] && known[s].ssl.peer == peer
      ensures streams == old(streams)[id := s] && lines == old(lines) && turns == old(turns)
    {
      hide Collected, Answered;
      var e := new Engine(peer, steady);
      e.blocking := false;
      s := new Stream(e);
      NothingYet(s, e);
      assert s !in known && e !in owner;
      Enlist(id, s, e);
    }

    lemma NothingYet(s: Stream, e: Engine)
      requires s.ssl == e && e.Valid() && e.cursor == 0 && !e.blocking
      ensures Collected(s, e, [])
    {
    }

    /** $streams[spl_object_id($s)] = $s; $buffers[spl_object_id($s)] = '' */
    method Enlist(id: nat, s: Stream, ghost e: Engine)
      requires Valid() && Calm() && id !in streams && Collected(s, e, [])
      requires s !in known && e !in owner && s.last != Threw
      modifies this
      ensures Valid() && Calm() && repr == old(repr) + {s, e} && lines == old(lines) && turns == old(turns)
      ensures known == old(known)[s := Opened(id, e)] && streams == old(streams)[id := s]
    {
      hide Collected, TablesOk, Apart, PrintedOnce, BuffersOk, LinesOk;
      OpenedOk(streams, buffers, known, owner, authors, id, s, e);
      Register(id, s, e);
      Put(id, s, e);
    }

    ghost method Register(id: nat, s: Stream, e: Engine)
      requires TablesOk(streams, buffers, known) && BuffersOk() && LinesOk() && s !in known
      modifies this`known, this`owner, this`repr
      ensures known == old(known)[s := Opened(id, e)] && owner == old(owner)[e := s] && repr == old(repr) + {s, e}
      ensures BuffersOk() && LinesOk() && this !in repr
    {
      hide Collected, Answered;
      known, owner, repr := known[s := Opened(id, e)], owner[e := s], repr + {s, e};
    }

    method Put(id: nat, s: Stream, ghost e: Engine)
      requires BuffersOk() && s in known && known[s].ssl == e && Collected(s, e, [])
      modifies this`streams, this`buffers
      ensures BuffersOk() && streams == old(streams)[id := s] && buffers == old(buffers)[id := []]
    {
      hide Collected;
      streams, buffers := streams[id := s], buffers[id := []];
    }

    lemma KnownAlready(streams: map<nat, Stream>, buffers: map<nat, seq<byte>>, known: map<Stream, Opened>)
      requires TablesOk(streams, buffers, known)
      ensures forall id :: id in streams ==> id in buffers && streams[id] in known
    {
    }

    /** One read of the inner loop; the chunk goes into the stream's own buffer. */
    method Read(id: nat) returns (chunk: ReadResult)
      requires Valid() && Calm() && id in streams
      modifies this`buffers, repr
      ensures Valid() && streams[id].last == chunk && (chunk != Threw ==> Calm()) && (chunk == Threw ==> Died(streams[id]))
      ensures buffers == old(buffers)[id := old(buffers)[id] + BytesOf(chunk)]
      ensures chunk.Data? ==> |buffers[id]| > |old(buffers)[id]|
      ensures chunk == End ==> Finished(known[streams[id]].ssl)
      ensures chunk == Nothing ==> known[streams[id]].ssl.error == Want
      ensures known[streams[id]].ssl.calls > old(known[streams[id]].ssl.calls)
      ensures forall s :: s in known && s != streams[id] ==> known[s].ssl.calls == old(known[s].ssl.calls)
    {
      hide Finished, TablesOk, Apart, PrintedOnce, BuffersOk, LinesOk, OthersOk;
      OwnEngine(streams, buffers, known, owner, authors, id);
      var text;
      chunk, text := ReadOwn(id);
      SameKeys(streams, buffers, known, id, text);
      SetBuffer(id, text);
    }

    ghost predicate OthersOk(id: nat)
      reads this`streams, this`buffers, this`known, this`repr, repr
    {
      FrameOk() && forall k :: k in streams && k in buffers && streams[k] in known && k != id ==>
        Collected(streams[k], known[streams[k]].ssl, buffers[k])
    }

    method ReadOwn(id: nat) returns (chunk: ReadResult, text: seq<byte>)
      requires this !in repr && BuffersOk() && LinesOk() && Calm() && id in streams && id in buffers && streams[id] in known
      requires forall k :: k in streams && streams[k] in known && k != id ==>
        streams[k] != streams[id] && known[streams[k]].ssl != known[streams[id]].ssl
      requires forall s :: s in authors && s in known ==> s != streams[id]
      requires forall s :: s in known && s != streams[id] ==> known[s].ssl != known[streams[id]].ssl
      modifies repr
      ensures streams[id].last == chunk && (chunk != Threw ==> Calm()) && (chunk == Threw ==> Died(streams[id]))
      ensures OthersOk(id) && LinesOk() && text == buffers[id] + BytesOf(chunk) && (chunk.Data? ==> |text| > |buffers[id]|)
      ensures Collected(streams[id], known[streams[id]].ssl, text)
      ensures chunk == End ==> Finished(known[streams[id]].ssl)
      ensures chunk == Nothing ==> known[streams[id]].ssl.error == Want
      ensures known[streams[id]].ssl.calls > old(known[streams[id]].ssl.calls)
      ensures forall s :: s in known && s != streams[id] ==> known[s].ssl.calls == old(known[s].ssl.calls)
    {
      hide Finished, Collected, Answered;
      chunk, text := ReadMore(streams[id], known[streams[id]].ssl, buffers[id]);
    }

    method SetBuffer(id: nat, text: seq<byte>)
      requires OthersOk(id) && id in streams && streams[id] in known && Collected(streams[id], known[streams[id]].ssl, text)
      modifies this`buffers
      ensures BuffersOk() && buffers == old(buffers)[id := text]
    {
      hide Collected;
      buffers := buffers[id := text];
    }

    /** echo $buffers[$id], "\n"; unset($streams[$id], $buffers[$id]) */
    method Echo(id: nat)
      requires Valid() && id in streams && Finished(known[streams[id]].ssl)
      modifies this`streams, this`buffers, this`lines, this`authors
      ensures Valid() && streams == old(streams) - {id}
      ensures lines == old(lines) + [old(buffers)[id]] && authors == old(authors) + [old(streams)[id]]
    {
      hide TablesOk, Apart, PrintedOnce, Finished, BuffersOk, LinesOk;
      KnownAlready(streams, buffers, known);
      LastLine(id);
      ClosedOk(streams, buffers, known, authors, id);
      PrintLine(id);
      Unset(id);
    }

    method PrintLine(id: nat)
      requires LinesOk() && id in streams && id in buffers && streams[id] in known
      requires Answered(known[streams[id]].ssl, buffers[id])
      modifies this`lines, this`authors
      ensures LinesOk() && lines == old(lines) + [buffers[id]] && authors == old(authors) + [streams[id]]
    {
      hide Answered;
      lines := lines + [buffers[id]];
      authors := authors + [streams[id]];
    }

    method Unset(id: nat)
      requires BuffersOk()
      modifies this`streams, this`buffers
      ensures BuffersOk() && streams == old(streams) - {id} && buffers == old(buffers) - {id}
    {
      hide Collected;
      streams, buffers := streams - {id}, buffers - {id};
    }

    /** The inner loop, for one reported stream: read until "" or null, and print the reply on null; false
        when read() threw. */
    method Drain(id: nat) returns (ok: bool)
      requires Valid() && Calm() && id in streams
      modifies this`streams, this`buffers, this`lines, this`authors, repr
      ensures Valid() && old(lines) <= lines && (ok <==> Calm())
      ensures !ok ==> streams == old(streams) && streams[id] in known && Died(streams[id])
      ensures ok ==> old(streams)[id].last == if id in streams then Nothing else End
      ensures streams == old(streams) || (ok && streams == old(streams) - {id} && |lines| == |old(lines)| + 1)
      // it was read until it gave "" or null
      ensures known[old(streams)[id]].ssl.calls > old(known[streams[id]].ssl.calls)
      ensures ok && id in streams ==> known[streams[id]].ssl.error == Want
      ensures forall s :: s in known && s != old(streams)[id] ==> known[s].ssl.calls == old(known[s].ssl.calls)
    {
      hide TablesOk, Apart, PrintedOnce, BuffersOk, LinesOk;
      BufferFits(id);
      ghost var e := known[streams[id]].ssl;
      while true
        invariant Valid() && Calm() && streams == old(streams) && lines == old(lines)
        invariant id in buffers && |buffers[id]| <= |e.peer| && e.calls >= old(known[streams[id]].ssl.calls)
        invariant forall s :: s in known && s != streams[id] ==> known[s].ssl.calls == old(known[s].ssl.calls)
        decreases |e.peer| - |buffers[id]|
      {
        var chunk := Read(id);
        BufferFits(id);
        match chunk {
          case End =>
            Echo(id);
            return true;
          case Nothing => return true;
          case Data(_) =>
          case Threw => return false;
        }
      }
    }

    /** A buffer never exceeds what the peer sends. */
    lemma BufferFits(id: nat)
      requires Valid() && id in streams
      ensures id in buffers && streams[id] in known && |buffers[id]| <= |known[streams[id]].ssl.peer|
    {
    }

    /** Poll drives the connection: something may arrive for any stream, and any of those asked for may be
        reported. */
    method Poll() returns (ready: set<nat>)
      requires Valid() && Calm()
      modifies this`reported, repr
      ensures Valid() && Calm() && ready <= streams.Keys && reported == ready
      ensures forall s :: s in known ==> known[s].ssl.calls == old(known[s].ssl.calls)
    {
      hide TablesOk, Apart, PrintedOnce, BuffersOk, LinesOk;
      var ids := streams.Keys;
      while ids != {}
        invariant Valid() && Calm() && ids <= streams.Keys
        invariant forall s :: s in known ==> known[s].ssl.calls == old(known[s].ssl.calls)
        decreases |ids|
      {
        var id :| id in ids;
        Arrive(id);
        ids := ids - {id};
      }
      ready := SomeOf(streams.Keys);
      reported := ready;
    }

    method Arrive(id: nat)
      requires Valid() && Calm() && id in streams
      modifies repr
      ensures Valid() && Calm()
      ensures forall s :: s in known ==> known[s].ssl.calls == old(known[s].ssl.calls)
    {
      hide PrintedOnce;
      streams[id].ssl.Arrivals();
    }

    /** The loop over the result of poll, in any order: every reported stream is drained. */
    method DrainAll(ids: set<nat>) returns (ok: bool)
      requires Valid() && Calm() && ids <= streams.Keys && forall id :: id in ids ==> streams[id] in known
      modifies this`streams, this`buffers, this`lines, this`authors, repr
      ensures Valid() && (ok <==> Calm()) && (!ok ==> exists s :: s in known && Died(s))
      ensures old(lines) <= lines && streams.Keys <= old(streams).Keys
      ensures ok ==> forall id :: id in ids ==>
        known[old(streams)[id]].ssl.calls > old(known[streams[id]].ssl.calls)
    {
      hide TablesOk, Apart, PrintedOnce, BuffersOk, LinesOk, Calm, Died;
      var ready := ids;
      ok := true;
      while ready != {}
        invariant Valid() && Calm() && ready <= streams.Keys && ready <= ids && old(lines) <= lines
        invariant streams.Keys <= old(streams).Keys && forall id :: id in streams ==> streams[id] == old(streams)[id]
        invariant forall s :: s in known ==> known[s].ssl.calls >= old(known[s].ssl.calls)
        invariant forall id :: id in ids && id !in ready ==>
          known[old(streams)[id]].ssl.calls > old(known[streams[id]].ssl.calls)
        decreases |ready|
      {
        var id :| id in ready;
        ok := Drain(id);
        if !ok {
          return;
        }
        ready := ready - {id};
      }
    }

    /** One turn of the loop. */
    method Round() returns (ok: bool)
      requires Valid() && Calm()
      modifies this`streams, this`buffers, this`lines, this`authors, this`reported, this`turns, repr
      ensures Valid() && (ok <==> Calm()) && (!ok ==> exists s :: s in known && Died(s))
      ensures old(lines) <= lines && reported <= old(streams).Keys && turns == old(turns) + 1
      ensures forall id :: id in reported ==> old(streams)[id] in known
      ensures ok ==> forall id :: id in reported ==>
        known[old(streams)[id]].ssl.calls > old(known[streams[id]].ssl.calls)
    {
      hide TablesOk, Apart, PrintedOnce, BuffersOk, LinesOk;
      turns := turns + 1;
      KnownAlready(streams, buffers, known);
      var ready := Poll();
      ok := DrainAll(ready);
    }

    /** The whole client over the replies of the peer, for any number of rounds: when no stream is left,
        every stream's reply has been printed once. */
    method Run(peers: seq<seq<byte>>, steady: bool, rounds: nat) returns (ok: bool, ghost order: seq<Stream>)
      requires Valid() && streams == map[] && known == map[] && lines == []
      modifies this, repr
      ensures Valid() && (ok <==> Calm()) && (!ok ==> exists s :: s in known && Died(s))
      ensures ok ==> streams.Keys == {} || turns == old(turns) + rounds
      ensures ok && streams.Keys == {} ==>
        && |order| == |peers| == |lines| && multiset(order) == multiset(authors)
        && forall i :: 0 <= i < |peers| ==> order[i] in known && known[order[i]].ssl.peer == peers[i]
    {
      hide TablesOk, Apart, PrintedOnce, BuffersOk, LinesOk;
      order := OpenAll(peers, steady);
      ok := true;
      var r := 0;
      while streams.Keys != {} && r < rounds
        invariant Valid() && Calm() && fresh(repr - old(repr)) && OrderOk(known, order, peers) && r <= rounds && turns == old(turns) + r
        decreases rounds - r
      {
        ok := Round();
        if !ok {
          break;
        }
        r := r + 1;
      }
      if streams.Keys == {} {
        AllPrinted(order, peers);
      }
    }

    /** The opening loop; the id of a stream is any that no other one has. */
    method OpenAll(peers: seq<seq<byte>>, steady: bool) returns (ghost order: seq<Stream>)
      requires Valid() && streams == map[] && known == map[]
      modifies this
      ensures Valid() && Calm() && fresh(repr - old(repr)) && OrderOk(known, order, peers) && |streams| == |peers| && turns == old(turns)
    {
      hide TablesOk, Apart, PrintedOnce, BuffersOk, LinesOk, OrderOk;
      order := [];
      NoneOpened();
      for i := 0 to |peers|
        invariant Valid() && Calm() && fresh(repr - old(repr)) && OrderOk(known, order, peers[..i]) && |streams| == i && turns == old(turns)
      {
        var id := NewId();
        ghost var before := known;
        var s := Open(id, peers[i], steady);
        OrderMore(before, order, peers[..i], s, known[s]);
        assert peers[..i + 1] == peers[..i] + [peers[i]];
        order := order + [s];
      }
      assert peers[..|peers|] == peers;
    }

    lemma NoneOpened()
      requires known == map[]
      ensures OrderOk(known, [], [])
    {
    }

    method NewId() returns (id: nat)
      ensures id !in streams
    {
      var top := Above(streams.Keys);
      assert top !in streams.Keys;
      id :| id !in streams;
    }

    lemma AllPrinted(order: seq<Stream>, peers: seq<seq<byte>>)
      requires Valid() && streams.Keys == {} && OrderOk(known, order, peers)
      ensures |lines| == |order| && multiset(order) == multiset(authors)
    {
      SameElements(order, authors);
    }

    lemma LastLine(id: nat)
      requires Valid() && id in streams && Finished(known[streams[id]].ssl)
      ensures Answered(known[streams[id]].ssl, buffers[id])
    {
    }
  }
}
