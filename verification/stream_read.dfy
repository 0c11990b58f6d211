/** Quic\Stream::read and the php_stream view over one receiving stream of the engine. */
module StreamRead {
  import opened Common

  /** SSL_get_stream_read_state */
  datatype ReadState = Open | ResetRemote | ResetLocal | ConnClosed | Other

  /** SSL_get_error after a failed read */
  datatype SslError = Want | ZeroReturn | Failure

  /** The first buffer that read() allocates. */
  const FIRST_CAP: nat := 65536

  /** The engine's side of a stream, as far as reading goes: the assumed contract of SSL_read_ex and
      its error queries.  Whatever the bodies leave open, a caller learns only the ensures clauses. */
  class Engine {
    const peer: seq<byte>    // every byte the peer sends on this stream
    const steady: bool       // fills any room it is offered, and nothing arrives during a call
    var arrived: nat         // how many of them have arrived
    var cursor: nat          // how many of them have been handed out
    var fin: bool            // the end of the stream has arrived
    var state: ReadState
    var error: SslError      // what the last failed read reports
    var blocking: bool
    var calls: nat           // reads made so far

    ghost predicate Valid()
      reads this
    {
      cursor <= arrived <= |peer| && (fin ==> arrived == |peer|)
    }

    constructor (peer: seq<byte>, steady: bool)
      ensures Valid() && this.peer == peer && cursor == 0 && state == Open && blocking && this.steady == steady
      ensures error == Want
    {
      this.peer, this.steady := peer, steady;
      arrived, cursor, fin, state, error, blocking, calls := 0, 0, false, Open, Want, true, 0;
    }

    /** More bytes, the end of the stream, or a failure may come in; nothing that arrived is lost. */
    method Arrivals()
      requires Valid()
      modifies this`arrived, this`fin, this`state
      ensures Valid() && old(arrived) <= arrived && (old(fin) ==> fin)
      ensures old(state) != Open ==> state == old(state)
    {
      var more: nat :| arrived <= more <= |peer|;
      arrived := more;
      if * {
        arrived, fin := |peer|, true;
      }
      if state == Open {
        state := *;
      }
    }

    static method CopyOut(buf: array<byte>, off: nat, data: seq<byte>)
      requires off + |data| <= buf.Length
      modifies buf
      ensures buf[off..off + |data|] == data
      ensures forall k :: 0 <= k < off ==> buf[k] == old(buf[k])
    {
      forall k | 0 <= k < |data| {
        buf[off + k] := data[k];
      }
    }

    /** SSL_read_ex into buf[off..off + room] */
    method ReadEx(buf: array<byte>, off: nat, room: nat) returns (rc: int, got: nat)
      requires Valid() && 0 < room && off + room <= buf.Length
      modifies this`arrived, this`cursor, this`fin, this`state, this`error, this`calls, buf
      ensures Valid() && calls == old(calls) + 1 && old(arrived) <= arrived && (old(fin) ==> fin)
      ensures old(state) != Open ==> state == old(state)
      ensures forall k :: 0 <= k < off ==> buf[k] == old(buf[k])
      ensures rc == 1 ==>
        && 1 <= got <= room && cursor == old(cursor) + got
        && buf[off..off + got] == peer[old(cursor)..cursor]
      ensures rc != 1 ==> cursor == old(cursor)
      ensures rc != 1 && error == ZeroReturn ==> fin && cursor == |peer|
      ensures rc != 1 && error == Want ==> !blocking
      ensures steady && old(state) == Open && old(cursor) < old(arrived) ==>
        rc == 1 && got == Min(room, old(arrived) - old(cursor)) && state == Open && arrived == old(arrived)
      ensures steady && !blocking ==> arrived == old(arrived) && state == old(state)
    {
      calls := calls + 1;
      rc, got := 0, 0;
      if !(steady && (!blocking || (state == Open && cursor < arrived))) {
        Arrivals();
      }
      if state == Open && cursor < arrived {
        var n: nat := Min(room, arrived - cursor);
        if !steady {
          n :| 1 <= n <= Min(room, arrived - cursor);
        }
        CopyOut(buf, off, peer[cursor..cursor + n]);
        cursor := cursor + n;
        rc, got := 1, n;
      } else if state == Open && fin {
        error := ZeroReturn;
      } else if state == Open && !blocking {
        error := Want;
      } else {
        error := Failure;
      }
    }
  }

  /** What read() gives back: a string, "", null or an exception. */
  datatype ReadResult = Data(bytes: seq<byte>) | Nothing | End | Threw

  /** The states that end a stream abnormally without an exception. */
  predicate Ended(state: ReadState) {
    state == ResetRemote || state == ResetLocal || state == ConnClosed
  }

  function BytesOf(r: ReadResult): seq<byte> {
    if r.Data? then r.bytes else []
  }

  /** The engine handed out exactly data, the bytes from position from on. */
  ghost predicate Progressed(e: Engine, from: nat, data: seq<byte>, want: nat)
    reads e
  {
    && from <= e.cursor <= |e.peer| && e.cursor == from + |data| && |data| <= want
    && data == e.peer[from..e.cursor]
  }

  /** A clean end is reported only once every byte has been handed out, and nothing is wanted of a
      blocking stream. */
  ghost predicate FailedRead(e: Engine)
    reads e
  {
    (e.error == ZeroReturn ==> e.fin && e.cursor == |e.peer|) && (e.error == Want ==> !e.blocking)
  }

  /** The buffer after n enlargements is min(want, 65536 * 2^n), never more than twice what was read
      (or the first 65536), and it is enlarged only when full. */
  predicate FrugalRead(want: nat, total: nat, cap: nat, n: nat) {
    && cap == Min(want, FIRST_CAP * Pow2(n))
    && cap <= Max(FIRST_CAP, 2 * total)
    && (n > 0 ==> FIRST_CAP * Pow2(n - 1) < want && FIRST_CAP * Pow2(n - 1) <= total)
  }

  lemma FirstBuffer(want: nat)
    requires 0 < want
    ensures FrugalRead(want, 0, if want < FIRST_CAP then want else FIRST_CAP, 0)
  {
    assert Pow2(0) == 1;
  }

  /** Doubling, or stopping at want, is the next size. */
  lemma NextBuffer(want: nat, cap: nat, n: nat)
    requires FrugalRead(want, cap, cap, n) && cap < want
    ensures FrugalRead(want, cap, if cap <= want / 2 then cap * 2 else want, n + 1)
    ensures cap < if cap <= want / 2 then cap * 2 else want
  {
    assert cap == FIRST_CAP * Pow2(n);
    assert Pow2(n + 1) == 2 * Pow2(n);
  }

  lemma MoreRead(want: nat, total: nat, total': nat, cap: nat, n: nat)
    requires FrugalRead(want, total, cap, n) && total <= total'
    ensures FrugalRead(want, total', cap, n)
  {
  }

  lemma MoreProgress(e: Engine, from: nat, data: seq<byte>, more: seq<byte>, want: nat)
    requires from + |data| + |more| == e.cursor <= |e.peer| && |data| + |more| <= want
    requires data == e.peer[from..from + |data|] && more == e.peer[from + |data|..e.cursor]
    ensures Progressed(e, from, data + more, want)
  {
  }

  lemma NoProgress(e: Engine, none: seq<byte>, want: nat)
    requires e.Valid() && none == []
    ensures Progressed(e, e.cursor, none, want)
  {
  }

  lemma ProgressLength(e: Engine, from: nat, data: seq<byte>, want: nat)
    requires Progressed(e, from, data, want)
    ensures e.cursor == from + |data|
  {
  }

  /** What has ended stays ended: the end of the stream, and a failed state. */
  ghost predicate Later(fin: bool, state: ReadState, e: Engine)
    reads e
  {
    (fin ==> e.fin) && (state != Open ==> e.state == state)
  }

  class Stream {
    var ssl: Engine?
    ghost var lastCap: nat       // the largest buffer the last read() used
    ghost var reallocs: nat      // how often the last read() enlarged it
    ghost var last: ReadResult   // what the last read() gave back

    constructor (ssl: Engine?)
      ensures this.ssl == ssl && last == Nothing
    {
      this.ssl, last := ssl, Nothing;
    }

    /** zend_string_realloc: a larger buffer with the first total bytes in place */
    method Enlarge(buf: array<byte>, newcap: nat, total: nat) returns (bigger: array<byte>)
      requires total <= buf.Length && total <= newcap
      ensures fresh(bigger) && bigger.Length == newcap && bigger[..total] == buf[..total]
    {
      bigger := new byte[newcap];
      forall k | 0 <= k < total {
        bigger[k] := buf[k];
      }
    }

    /** The buffer is full: twice the room, or as much as is wanted. */
    method Grow(buf: array<byte>, want: nat) returns (bigger: array<byte>)
      requires buf.Length < want && FrugalRead(want, buf.Length, buf.Length, reallocs)
      modifies this`reallocs
      ensures fresh(bigger) && buf.Length < bigger.Length <= want && bigger[..buf.Length] == buf[..]
      ensures reallocs == old(reallocs) + 1 && FrugalRead(want, buf.Length, bigger.Length, reallocs)
    {
      var cap := buf.Length;
      NextBuffer(want, cap, reallocs);
      var newcap := if cap <= want / 2 then cap * 2 else want;
      bigger := Enlarge(buf, newcap, cap);
      reallocs := reallocs + 1;
    }

    /** One engine read behind the bytes already in the buffer. */
    method ReadBehind(buf: array<byte>, total: nat, ghost from: nat, want: nat) returns (rc: int, got: nat)
      requires ssl != null && ssl.Valid() && total < buf.Length <= want
      requires Progressed(ssl, from, buf[..total], want)
      modifies ssl`arrived, ssl`cursor, ssl`fin, ssl`state, ssl`error, ssl`calls, buf
      ensures ssl.Valid() && Later(old(ssl.fin), old(ssl.state), ssl) && ssl.calls == old(ssl.calls) + 1
      ensures rc != 1 ==> got == 0 && FailedRead(ssl)
      ensures rc == 1 ==> 1 <= got <= buf.Length - total
      ensures total + got <= buf.Length && Progressed(ssl, from, buf[..total + got], want)
      ensures ssl.steady && !ssl.blocking ==> ssl.arrived == old(ssl.arrived) && ssl.state == old(ssl.state)
      ensures ssl.steady && !ssl.blocking && ssl.state == Open ==> got == Min(buf.Length - total, ssl.arrived - old(ssl.cursor))
    {
      ghost var sofar := buf[..total];
      rc, got := ssl.ReadEx(buf, total, buf.Length - total);
      assert buf[..total] == sofar;
      if rc == 1 {
        assert buf[..total + got] == sofar + buf[total..total + got];
        MoreProgress(ssl, from, sofar, buf[total..total + got], want);
      } else {
        got := 0;
      }
    }

    /** The grow-and-drain loop of read(): data is what it read, rc the last engine answer. */
    method Drain(want: nat) returns (data: seq<byte>, rc: int)
      requires ssl != null && ssl.Valid() && 0 < want
      modifies this`lastCap, this`reallocs, ssl`arrived, ssl`cursor, ssl`fin, ssl`state, ssl`error, ssl`calls
      ensures ssl.Valid() && Later(old(ssl.fin), old(ssl.state), ssl) && Progressed(ssl, old(ssl.cursor), data, want)
      ensures data == [] ==> rc != 1 && FailedRead(ssl)
      ensures ssl.calls > old(ssl.calls) && (ssl.blocking ==> ssl.calls == old(ssl.calls) + 1)
      ensures !ssl.blocking && ssl.steady && old(ssl.state) == Open ==>
        |data| == Min(want, old(ssl.arrived) - old(ssl.cursor))
      ensures FrugalRead(want, |data|, lastCap, reallocs)
    {
      hide FrugalRead, Progressed, FailedRead;
      var cap := if want < FIRST_CAP then want else FIRST_CAP;
      var buf := new byte[cap];
      var total := 0;
      var blocking := ssl.blocking;
      rc, reallocs := 0, 0;
      ghost var from, arrived := ssl.cursor, ssl.arrived;
      FirstBuffer(want);
      NoProgress(ssl, buf[..0], want);
      while true
        invariant ssl.Valid() && fresh(buf) && total < cap == buf.Length <= want
        invariant Progressed(ssl, from, buf[..total], want) && ssl.cursor == from + total
        invariant FrugalRead(want, total, cap, reallocs)
        invariant Later(old(ssl.fin), old(ssl.state), ssl)
        invariant ssl.calls >= old(ssl.calls) && (blocking ==> ssl.calls == old(ssl.calls))
        invariant ssl.steady && !blocking ==> ssl.arrived == arrived && ssl.state == old(ssl.state)
        decreases want - total
      {
        var got;
        rc, got := ReadBehind(buf, total, from, want);
        ProgressLength(ssl, from, buf[..total + got], want);
        if rc != 1 {
          break;
        }
        MoreRead(want, total, total + got, cap, reallocs);
        total := total + got;
        if total >= want || blocking {
          break;
        }
        if total == cap {
          ghost var full := buf[..total];
          buf := Grow(buf, want);
          assert buf[..total] == full;
          cap := buf.Length;
        } else {
          break;
        }
      }
      lastCap := cap;
      data := buf[..total];
    }

    /** Quic\Stream::read */
    method Read(length: int) returns (r: ReadResult)
      requires ssl != null ==> ssl.Valid()
      modifies this`lastCap, this`reallocs, this`last, ssl
      ensures last == r
      ensures length <= 0 ==> r == Threw
      ensures length > 0 && ssl == null ==> r == End
      ensures ssl != null ==> ssl.Valid() && ssl.blocking == old(ssl.blocking)
      ensures ssl != null && length <= 0 ==> ssl.cursor == old(ssl.cursor) && ssl.calls == old(ssl.calls)
      // exactly the next bytes, or none
      ensures ssl != null && length > 0 ==> Progressed(ssl, old(ssl.cursor), BytesOf(r), length)
      ensures r.Data? ==> r.bytes != []
      ensures ssl != null && length > 0 && r.Data? ==> r.bytes == ssl.peer[old(ssl.cursor)..ssl.cursor]
      // why there are none: "" only for want of data, null for a clean end, a reset or a closed connection,
      // an exception for any other failure
      ensures ssl != null && length > 0 && !r.Data? ==> FailedRead(ssl)
      ensures ssl != null && length > 0 && !r.Data? && ssl.error == Want ==> r == Nothing
      ensures ssl != null && length > 0 && !r.Data? && ssl.error == ZeroReturn ==> r == End
      ensures ssl != null && length > 0 && !r.Data? && ssl.error == Failure ==>
        && (ssl.state == ResetRemote || ssl.state == ResetLocal || ssl.state == ConnClosed ==> r == End)
        && (ssl.state == Open || ssl.state == Other ==> r == Threw)
      // a stream that had ended stays ended, so an end met after data is reported by the next read
      ensures ssl != null ==> Later(old(ssl.fin), old(ssl.state), ssl)
      // the engine is asked; in blocking mode, once
      ensures ssl != null && length > 0 ==> ssl.calls > old(ssl.calls) && (ssl.blocking ==> ssl.calls == old(ssl.calls) + 1)
      // non-blocking against an engine that fills any room: one big read
      ensures ssl != null && length > 0 && !ssl.blocking && ssl.steady && old(ssl.state) == Open ==>
        |BytesOf(r)| == Min(length, old(ssl.arrived) - old(ssl.cursor))
      // memory
      ensures ssl != null && length > 0 ==> FrugalRead(length, |BytesOf(r)|, lastCap, reallocs)
      ensures ssl != null && length > 0 ==>
        && lastCap <= Max(65536, 2 * |BytesOf(r)|) && (reallocs == 0 ==> lastCap == Min(length, 65536))
    {
      if length <= 0 {
        r := Threw;
      } else if ssl == null {
        r := End;
      } else {
        var data, rc := Drain(length);
        if |data| > 0 {
          r := Data(data);
        } else if ssl.error == Want {
          r := Nothing;
        } else if ssl.error == ZeroReturn {
          r := End;
        } else {
          match ssl.state {
            case ResetRemote => r := End;
            case ResetLocal => r := End;
            case ConnClosed => r := End;
            case _ => r := Threw;
          }
        }
      }
      last := r;
    }
  }

  /** The positions from, from + 1, ... up to to, exclusive. */
  function Range(from: int, to: int): (r: seq<int>)
    requires from <= to
    ensures |r| == to - from
  {
    seq(to - from, i => from + i)
  }

  /** bytes are the peer's bytes at these positions. */
  ghost predicate Genuine(peer: seq<byte>, pos: seq<int>, bytes: seq<byte>) {
    |bytes| == |pos| && forall i :: 0 <= i < |pos| ==> 0 <= pos[i] < |peer| && bytes[i] == peer[pos[i]]
  }

  lemma GenuineSlice(peer: seq<byte>, from: nat, to: nat)
    requires from <= to <= |peer|
    ensures Genuine(peer, Range(from, to), peer[from..to])
  {
  }

  lemma GenuineParts(peer: seq<byte>, pos: seq<int>, bytes: seq<byte>, n: nat)
    requires Genuine(peer, pos, bytes) && n <= |pos|
    ensures Genuine(peer, pos[..n], bytes[..n]) && Genuine(peer, pos[n..], bytes[n..])
  {
  }

  lemma GenuineConcat(peer: seq<byte>, pos: seq<int>, bytes: seq<byte>, pos': seq<int>, bytes': seq<byte>)
    requires Genuine(peer, pos, bytes) && Genuine(peer, pos', bytes')
    ensures Genuine(peer, pos + pos', bytes + bytes')
  {
  }

  /** The php_stream over a Stream: asStream() made it, fclose() empties it.  PHP's stream layer, which is
      not part of the binding, reads ahead: it fetches a whole chunk and keeps what fread() did not ask
      for. */
  class PhpStream {
    var stream: Stream?
    var eof: bool
    var ahead: seq<byte>   // what has been fetched and not been asked for
    var where: seq<int>    // for the record: the positions of these bytes in what the peer sends

    constructor (stream: Stream)
      ensures this.stream == stream && !eof && ahead == [] && where == []
    {
      this.stream, eof, ahead, where := stream, false, [], [];
    }

    /** quic_stream_op_read: at most count bytes into buf; 0 for nothing now or a clean end, -1 for an
        error; eof for every end. */
    method OpRead(buf: array<byte>, count: nat) returns (n: int)
      requires 0 < count <= buf.Length
      requires stream != null && stream.ssl != null ==> stream.ssl.Valid()
      modifies this`eof, buf, if stream == null then null else stream.ssl
      ensures -1 <= n <= count
      ensures stream == null || stream.ssl == null ==> n == -1 && eof == old(eof)
      ensures stream != null && stream.ssl != null ==>
        && stream.ssl.Valid() && Later(old(stream.ssl.fin), old(stream.ssl.state), stream.ssl)
        && stream.ssl.blocking == old(stream.ssl.blocking) && stream.ssl.calls == old(stream.ssl.calls) + 1
        && Progressed(stream.ssl, old(stream.ssl.cursor), buf[..Max(n, 0)], count)
        && (n <= 0 ==> FailedRead(stream.ssl))
        && (n == -1 <==> n <= 0 && stream.ssl.error == Failure)
        && (eof <==> old(eof) || (n <= 0 && stream.ssl.error != Want))
    {
      if stream == null || stream.ssl == null {
        return -1;
      }
      var ssl := stream.ssl;
      var rc, got := ssl.ReadEx(buf, 0, count);
      if rc == 1 {
        return got;
      }
      match ssl.error {
        case Want => return 0;
        case ZeroReturn =>
          eof := true;
          return 0;
        case Failure =>
          eof := true;
          return -1;
      }
    }

    /** One fetch into a chunk with this much room. */
    method Fill(room: nat) returns (n: int)
      requires stream != null && stream.ssl != null && stream.ssl.Valid() && 0 < room && ahead == [] && where == []
      modifies this`eof, this`ahead, this`where, stream.ssl
      ensures stream.ssl.Valid() && stream.ssl.calls == old(stream.ssl.calls) + 1
      ensures stream.ssl.blocking == old(stream.ssl.blocking) && old(stream.ssl.cursor) <= stream.ssl.cursor
      ensures where == Range(old(stream.ssl.cursor), stream.ssl.cursor) && Genuine(stream.ssl.peer, where, ahead)
      ensures ahead == [] ==> FailedRead(stream.ssl)
      ensures n < 0 <==> ahead == [] && stream.ssl.error == Failure
      ensures eof <==> old(eof) || (ahead == [] && stream.ssl.error != Want)
    {
      var buf := new byte[room];
      var at := stream.ssl.cursor;
      n := OpRead(buf, room);
      GenuineSlice(stream.ssl.peer, at, stream.ssl.cursor);
      ahead, where := buf[..Max(n, 0)], Range(at, stream.ssl.cursor);
    }

    /** fread($view, $count): what was read ahead first; only when that is used up, one fetch. */
    method Fread(count: nat, room: nat) returns (bytes: seq<byte>, pos: seq<int>, failed: bool)
      requires stream != null && stream.ssl != null && stream.ssl.Valid() && 0 < count && 0 < room
      requires Genuine(stream.ssl.peer, where, ahead)
      modifies this`eof, this`ahead, this`where, stream.ssl
      ensures stream.ssl.Valid() && stream.ssl.blocking == old(stream.ssl.blocking) && |bytes| <= count
      ensures Genuine(stream.ssl.peer, where, ahead) && Genuine(stream.ssl.peer, pos, bytes)
      ensures old(stream.ssl.cursor) <= stream.ssl.cursor
      // nothing is lost, doubled or moved
      ensures pos + where == old(where) + Range(old(stream.ssl.cursor), stream.ssl.cursor)
      // the engine is asked only when the read-ahead is used up
      ensures stream.ssl.calls == old(stream.ssl.calls) + (if |old(ahead)| < count then 1 else 0)
      ensures |old(ahead)| >= count ==> stream.ssl.cursor == old(stream.ssl.cursor)
      // all there is, up to what was asked for
      ensures |bytes| == Min(count, |old(ahead)| + stream.ssl.cursor - old(stream.ssl.cursor))
      ensures |old(ahead)| < count && stream.ssl.cursor == old(stream.ssl.cursor) ==> FailedRead(stream.ssl) && ahead == []
      // a failure is reported when there is nothing else to give, and every end that a fetch meets is noted
      ensures failed <==> bytes == [] && stream.ssl.error == Failure
      ensures eof <==> old(eof) || (|old(ahead)| < count && stream.ssl.cursor == old(stream.ssl.cursor) && stream.ssl.error != Want)
    {
      hide Genuine;
      SameLength(stream.ssl.peer, where, ahead);
      ghost var at := stream.ssl.cursor;
      bytes, pos := Take(stream.ssl.peer, count);
      failed := false;
      if |bytes| < count {
        assert pos + [] == pos && where == [];
        var n := Fill(room);
        ghost var fetched := where;
        var bytes', pos' := Take(stream.ssl.peer, count - |bytes|);
        GenuineConcat(stream.ssl.peer, pos, bytes, pos', bytes');
        assert pos + pos' + where == pos + fetched;
        failed := n < 0 && bytes == [];
        bytes, pos := bytes + bytes', pos + pos';
      } else {
        assert where + Range(at, at) == where;
      }
    }

    /** memcpy out of the read-ahead */
    method Take(ghost peer: seq<byte>, count: nat) returns (bytes: seq<byte>, pos: seq<int>)
      requires Genuine(peer, where, ahead)
      modifies this`ahead, this`where
      ensures Genuine(peer, where, ahead) && Genuine(peer, pos, bytes)
      ensures pos + where == old(where) && |bytes| == |pos| == Min(count, |old(ahead)|) && |ahead| == |where|
      ensures |old(ahead)| <= count ==> ahead == []
    {
      var n := Min(|ahead|, count);
      GenuineParts(peer, where, ahead, n);
      bytes, pos := ahead[..n], where[..n];
      ahead, where := ahead[n..], where[n..];
    }
  }

  lemma SameLength(peer: seq<byte>, pos: seq<int>, bytes: seq<byte>)
    requires Genuine(peer, pos, bytes)
    ensures |pos| == |bytes|
  {
  }

  // ---------------------------------------------------------------- whole runs over one stream

  datatype Via = OwnRead | ViewRead

  /** What a call gives the program: some bytes, with their positions, or a clean end; and how much the view
      has read ahead after it. */
  datatype Seen = Seen(via: Via, bytes: seq<byte>, pos: seq<int>, end: bool, held: nat)

  /** Where a stream stands: the engine's cursor, and the positions of what the view has read ahead. */
  datatype Place = Place(cursor: nat, ahead: seq<int>)

  /** What one call does; len is how much the peer sends in all. */
  ghost predicate Moves(u: Place, e: Seen, v: Place, len: nat) {
    && u.cursor <= v.cursor <= len && e.held == |v.ahead|
    && match e.via
       case OwnRead =>
         && v.ahead == u.ahead && e.pos == Range(u.cursor, v.cursor)
         && (e.end ==> e.pos == [] && v.cursor == len)
       case ViewRead =>
         && e.pos + v.ahead == u.ahead + Range(u.cursor, v.cursor)
         && (u.cursor < v.cursor ==> |u.ahead| <= |e.pos|)
         && (e.end ==> v.cursor == len && v.ahead == [])
  }

  function Init(log: seq<Seen>): (r: seq<Seen>)
    requires log != []
    ensures |r| == |log| - 1
  {
    log[..|log| - 1]
  }

  function Last(log: seq<Seen>): Seen
    requires log != []
  {
    log[|log| - 1]
  }

  /** The log is one of a stream that stood at from when the view was made, and stands at v now. */
  ghost predicate Leads(from: nat, log: seq<Seen>, v: Place, len: nat)
    decreases |log|
  {
    if log == [] then v == Place(from, []) && from <= len
    else exists u :: Leads(from, Init(log), u, len) && Moves(u, Last(log), v, len)
  }

  lemma LeadsOn(from: nat, log: seq<Seen>, u: Place, e: Seen, v: Place, len: nat)
    requires Leads(from, log, u, len) && Moves(u, e, v, len)
    ensures Leads(from, log + [e], v, len)
  {
    assert Init(log + [e]) == log && Last(log + [e]) == e;
  }

  /** The positions of all bytes seen, in the order in which they were. */
  function Order(log: seq<Seen>): seq<int> {
    if log == [] then [] else Order(Init(log)) + Last(log).pos
  }

  lemma RangeConcat(a: int, b: int, c: int)
    requires a <= b <= c
    ensures Range(a, b) + Range(b, c) == Range(a, c)
  {
  }

  lemma SameBytes(order: seq<int>, ahead: seq<int>, more: seq<int>, pos: seq<int>, ahead': seq<int>, all: seq<int>)
    requires multiset(order) + multiset(ahead) == multiset(all) && |order| + |ahead| == |all|
    requires pos + ahead' == ahead + more || (pos == more && ahead' == ahead)
    ensures multiset(order + pos) + multiset(ahead') == multiset(all + more)
    ensures |order + pos| + |ahead'| == |all + more|
  {
    if pos + ahead' == ahead + more {
      assert multiset(pos) + multiset(ahead') == multiset(pos + ahead') == multiset(ahead + more) == multiset(ahead) + multiset(more);
      assert |pos + ahead'| == |ahead + more|;
      assert multiset(order + pos) + multiset(ahead') == multiset(order) + (multiset(pos) + multiset(ahead'));
      assert multiset(order) + (multiset(ahead) + multiset(more)) == multiset(order) + multiset(ahead) + multiset(more);
    }
  }

  /** What was seen and what is read ahead is together exactly what the engine handed out, each byte once. */
  lemma {:induction false} NothingLost(from: nat, log: seq<Seen>, v: Place, len: nat)
    requires Leads(from, log, v, len)
    ensures from <= v.cursor <= len
    ensures multiset(Order(log)) + multiset(v.ahead) == multiset(Range(from, v.cursor))
    ensures |Order(log)| + |v.ahead| == v.cursor - from
    decreases |log|
  {
    if log != [] {
      var rest, e := Init(log), Last(log);
      var u :| Leads(from, rest, u, len) && Moves(u, e, v, len);
      NothingLost(from, rest, u, len);
      RangeConcat(from, u.cursor, v.cursor);
      SameBytes(Order(rest), u.ahead, Range(u.cursor, v.cursor), e.pos, v.ahead, Range(from, u.cursor));
    } else {
      assert Range(from, from) == [];
    }
  }

  /** The bytes were seen in the peer's order, from the first on and without gap. */
  ghost predicate InOrder(log: seq<Seen>, from: nat) {
    Order(log) == Range(from, from + |Order(log)|)
  }

  /** read() gave bytes only when the view had nothing read ahead. */
  ghost predicate Prompt(log: seq<Seen>) {
    forall i :: 0 <= i < |log| && log[i].via == OwnRead && log[i].pos != [] ==> log[i].held == 0
  }

  lemma PromptInit(log: seq<Seen>)
    requires log != []
    ensures Prompt(log) <==> Prompt(Init(log)) && (Last(log).via == OwnRead && Last(log).pos != [] ==> Last(log).held == 0)
  {
    assert forall i :: 0 <= i < |log| - 1 ==> Init(log)[i] == log[i];
  }

  lemma Straight(order: seq<int>, ahead: seq<int>, more: seq<int>, pos: seq<int>, ahead': seq<int>)
    requires pos + ahead' == ahead + more || (pos == more && ahead' == ahead && (pos == [] || ahead == []))
    ensures order + pos + ahead' == order + ahead + more
  {
    assert order + pos + ahead' == order + (pos + ahead');
    assert order + ahead + more == order + (ahead + more);
  }

  lemma {:induction false} PromptIsStraight(from: nat, log: seq<Seen>, v: Place, len: nat)
    requires Leads(from, log, v, len) && Prompt(log)
    ensures from <= v.cursor && Order(log) + v.ahead == Range(from, v.cursor)
    decreases |log|
  {
    if log != [] {
      var rest, e := Init(log), Last(log);
      var u :| Leads(from, rest, u, len) && Moves(u, e, v, len);
      PromptInit(log);
      PromptIsStraight(from, rest, u, len);
      RangeConcat(from, u.cursor, v.cursor);
      Straight(Order(rest), u.ahead, Range(u.cursor, v.cursor), e.pos, v.ahead);
    }
  }

  lemma InOrderInit(log: seq<Seen>, from: nat)
    requires log != [] && InOrder(log, from)
    ensures InOrder(Init(log), from)
  {
    var n := |Order(Init(log))|;
    assert Order(log)[..n] == Order(Init(log));
    assert Range(from, from + |Order(log)|)[..n] == Range(from, from + n);
  }

  lemma {:induction false} NotPromptNotInOrder(from: nat, log: seq<Seen>, v: Place, len: nat)
    requires Leads(from, log, v, len) && !Prompt(log)
    ensures !InOrder(log, from)
    decreases |log|
  {
    var rest, e := Init(log), Last(log);
    var u :| Leads(from, rest, u, len) && Moves(u, e, v, len);
    var n := |Order(rest)|;
    if Prompt(rest) {
      PromptIsStraight(from, rest, u, len);
      PromptInit(log);
      NothingLost(from, rest, u, len);
      assert Order(log)[n] == e.pos[0] == u.cursor && from + n < u.cursor;
    } else {
      NotPromptNotInOrder(from, rest, u, len);
      if InOrder(log, from) {
        InOrderInit(log, from);
      }
    }
  }

  /** The program sees the peer's bytes in order if and only if it calls read() only when nothing is read
      ahead, or when read() has nothing to give. */
  lemma InOrderIff(from: nat, log: seq<Seen>, v: Place, len: nat)
    requires Leads(from, log, v, len)
    ensures InOrder(log, from) <==> Prompt(log)
  {
    if Prompt(log) {
      PromptIsStraight(from, log, v, len);
      var n := |Order(log)|;
      assert Order(log) == (Order(log) + v.ahead)[..n] == Range(from, v.cursor)[..n];
      assert Range(from, v.cursor)[..n] == Range(from, from + n);
    } else {
      NotPromptNotInOrder(from, log, v, len);
    }
  }

  lemma {:induction false} LeadsPrefix(from: nat, log: seq<Seen>, v: Place, len: nat, i: nat)
    requires Leads(from, log, v, len) && i <= |log|
    ensures exists u :: Leads(from, log[..i], u, len)
    decreases |log|
  {
    if i < |log| {
      var rest := Init(log);
      var u :| Leads(from, rest, u, len) && Moves(u, Last(log), v, len);
      LeadsPrefix(from, rest, u, len, i);
      assert rest[..i] == log[..i];
    } else {
      assert log[..i] == log;
    }
  }

  /** A clean end comes after every byte if and only if the view has nothing read ahead then. */
  lemma EndAfterAllIff(from: nat, log: seq<Seen>, v: Place, len: nat, i: nat)
    requires Leads(from, log, v, len) && i < |log| && log[i].end
    ensures |Order(log[..i + 1])| == len - from <==> log[i].held == 0
  {
    LeadsPrefix(from, log, v, len, i + 1);
    var w :| Leads(from, log[..i + 1], w, len);
    NothingLost(from, log[..i + 1], w, len);
    LastMove(from, log[..i + 1], w, len);
  }

  /** What the last entry says of where the stream stands now. */
  lemma LastMove(from: nat, log: seq<Seen>, v: Place, len: nat)
    requires log != [] && Leads(from, log, v, len)
    ensures var e := Last(log);
      && e.held == |v.ahead| && (e.end ==> v.cursor == len) && (e.end && e.via == ViewRead ==> v.ahead == [])
  {
    var u :| Leads(from, Init(log), u, len) && Moves(u, Last(log), v, len);
  }

  lemma {:induction false} OrderGrows(log: seq<Seen>, i: nat)
    requires i <= |log|
    ensures |Order(log[..i])| <= |Order(log)|
    decreases |log|
  {
    if i < |log| {
      OrderGrows(Init(log), i);
      assert Init(log)[..i] == log[..i];
    } else {
      assert log[..i] == log;
    }
  }

  /** After a clean end with nothing read ahead, no call gives another byte. */
  lemma CleanEndIsFinal(from: nat, log: seq<Seen>, v: Place, len: nat, i: nat, j: nat)
    requires Leads(from, log, v, len) && i < j < |log| && log[i].end && log[i].held == 0
    ensures log[j].pos == []
  {
    EndAfterAllIff(from, log, v, len, i);
    LeadsPrefix(from, log, v, len, j + 1);
    var w :| Leads(from, log[..j + 1], w, len);
    NothingLost(from, log[..j + 1], w, len);
    OrderGrows(log[..j], i + 1);
    assert log[..j][..i + 1] == log[..i + 1] && Init(log[..j + 1]) == log[..j];
  }

  /** In order, and a clean end only after everything. */
  ghost predicate ExactlyOnce(log: seq<Seen>, from: nat, len: nat) {
    InOrder(log, from) && forall i :: 0 <= i < |log| && log[i].end ==> |Order(log[..i + 1])| == len - from
  }

  /** The exact condition: when read() gives bytes or the end, the view has nothing read ahead. */
  lemma ExactlyOnceIff(from: nat, log: seq<Seen>, v: Place, len: nat)
    requires Leads(from, log, v, len)
    ensures ExactlyOnce(log, from, len) <==>
      forall i :: 0 <= i < |log| && log[i].via == OwnRead && (log[i].pos != [] || log[i].end) ==> log[i].held == 0
  {
    InOrderIff(from, log, v, len);
    forall i | 0 <= i < |log| && log[i].end
      ensures |Order(log[..i + 1])| == len - from <==> log[i].held == 0
      ensures log[i].via == ViewRead ==> log[i].held == 0
    {
      EndAfterAllIff(from, log, v, len, i);
      LeadsPrefix(from, log, v, len, i + 1);
      var w :| Leads(from, log[..i + 1], w, len);
      LastMove(from, log[..i + 1], w, len);
    }
  }

  /** The peer sends two bytes and the end: fread() of one byte fetches both, read() reports the end, and
      then fread() gives the second. */
  lemma EndComesEarly()
    ensures var log := [Seen(ViewRead, [97], [0], false, 1), Seen(OwnRead, [], [], true, 1), Seen(ViewRead, [98], [1], false, 0)];
      Leads(0, log, Place(2, []), 2) && !ExactlyOnce(log, 0, 2)
  {
    var first, second, third := Seen(ViewRead, [97], [0], false, 1), Seen(OwnRead, [], [], true, 1), Seen(ViewRead, [98], [1], false, 0);
    assert Range(0, 2) == [0, 1] && Range(2, 2) == [];
    assert [0] + [1] == [0, 1] && [1] + [] == [1];
    var log := [first, second, third];
    assert [] + [first] == [first] && [first] + [second] == [first, second] && [first, second] + [third] == log;
    LeadsOn(0, [], Place(0, []), first, Place(2, [1]), 2);
    LeadsOn(0, [first], Place(2, [1]), second, Place(2, [1]), 2);
    LeadsOn(0, [first, second], Place(2, [1]), third, Place(2, []), 2);
    ExactlyOnceIff(0, log, Place(2, []), 2);
    assert log[1].end && log[1].held == 1;
  }

  /** All bytes seen, in the order in which they were. */
  function SeenBytes(log: seq<Seen>): seq<byte> {
    if log == [] then [] else SeenBytes(Init(log)) + Last(log).bytes
  }

  ghost predicate AllGenuine(peer: seq<byte>, log: seq<Seen>) {
    forall i :: 0 <= i < |log| ==> Genuine(peer, log[i].pos, log[i].bytes)
  }

  lemma {:induction false} SeenIsGenuine(peer: seq<byte>, log: seq<Seen>)
    requires AllGenuine(peer, log)
    ensures Genuine(peer, Order(log), SeenBytes(log))
    decreases |log|
  {
    if log != [] {
      var rest, e := Init(log), Last(log);
      assert AllGenuine(peer, rest) by {
        assert forall i :: 0 <= i < |rest| ==> rest[i] == log[i];
      }
      SeenIsGenuine(peer, rest);
      GenuineConcat(peer, Order(rest), SeenBytes(rest), e.pos, e.bytes);
    }
  }

  /** In order means: what was seen is a prefix of what the peer sent. */
  lemma InOrderIsPrefix(peer: seq<byte>, log: seq<Seen>, from: nat)
    requires AllGenuine(peer, log) && InOrder(log, from) && from + |Order(log)| <= |peer|
    ensures SeenBytes(log) == peer[from..from + |Order(log)|]
  {
    SeenIsGenuine(peer, log);
    GenuineSlice(peer, from, from + |Order(log)|);
  }

  /** What a program may do with one stream, and what the network may do in between. */
  datatype Call = CallRead(length: int) | CallFread(count: nat, room: nat) | CallSetBlocking(blocking: bool) | CallArrivals

  /** Any interleaving of read() and fread() with any lengths and chunks, in either blocking mode, whatever
      the network does meanwhile: nothing is lost or doubled, and the order is the peer's exactly when
      read() is called with nothing read ahead. */
  method Drive(s: Stream, view: PhpStream, script: seq<Call>) returns (log: seq<Seen>)
    requires s.ssl != null && s.ssl.Valid() && view.stream == s && view.ahead == [] && view.where == []
    modifies s`lastCap, s`reallocs, s`last, view`eof, view`ahead, view`where, s.ssl
    ensures s.ssl.Valid() && |log| == |script| && AllGenuine(s.ssl.peer, log)
    ensures Leads(old(s.ssl.cursor), log, Place(s.ssl.cursor, view.where), |s.ssl.peer|)
    ensures old(s.ssl.cursor) <= s.ssl.cursor
    ensures Prompt(log) ==> SeenBytes(log) + view.ahead == s.ssl.peer[old(s.ssl.cursor)..s.ssl.cursor]
  {
    hide Leads, Moves, Genuine, Order, SeenBytes;
    log := [];
    var e := s.ssl;
    ghost var from, len := e.cursor, |e.peer|;
    LeadsFrom(from, len);
    NoneAhead(e.peer);
    for i := 0 to |script|
      invariant from <= e.cursor && e == s.ssl && e.Valid() && view.stream == s && Genuine(e.peer, view.where, view.ahead)
      invariant |log| == i && AllGenuine(e.peer, log) && Leads(from, log, Place(e.cursor, view.where), len)
    {
      ghost var u := Place(e.cursor, view.where);
      var seen := Perform(s, view, script[i]);
      LeadsOn(from, log, u, seen, Place(e.cursor, view.where), len);
      log := log + [seen];
    }
    if Prompt(log) {
      StraightBytes(e.peer, from, log, Place(e.cursor, view.where), view.ahead);
    }
  }

  lemma LeadsFrom(from: nat, len: nat)
    requires from <= len
    ensures Leads(from, [], Place(from, []), len)
  {
  }

  lemma NoneAhead(peer: seq<byte>)
    ensures Genuine(peer, [], [])
  {
  }

  lemma StraightBytes(peer: seq<byte>, from: nat, log: seq<Seen>, v: Place, ahead: seq<byte>)
    requires Leads(from, log, v, |peer|) && Prompt(log) && AllGenuine(peer, log) && Genuine(peer, v.ahead, ahead)
    ensures from <= v.cursor <= |peer| && SeenBytes(log) + ahead == peer[from..v.cursor]
  {
    NothingLost(from, log, v, |peer|);
    PromptIsStraight(from, log, v, |peer|);
    SeenIsGenuine(peer, log);
    GenuineConcat(peer, Order(log), SeenBytes(log), v.ahead, ahead);
    GenuineSlice(peer, from, v.cursor);
  }

  /** The engine has just reported the peer's FIN. */
  ghost predicate CleanEnd(before: nat, e: Engine)
    reads e
  {
    e.cursor == before && e.error == ZeroReturn
  }

  method Perform(s: Stream, view: PhpStream, call: Call) returns (seen: Seen)
    requires s.ssl != null && s.ssl.Valid() && view.stream == s && Genuine(s.ssl.peer, view.where, view.ahead)
    modifies s`lastCap, s`reallocs, s`last, view`eof, view`ahead, view`where, s.ssl
    ensures s.ssl.Valid() && Genuine(s.ssl.peer, view.where, view.ahead) && Genuine(s.ssl.peer, seen.pos, seen.bytes)
    ensures old(s.ssl.cursor) <= s.ssl.cursor
    ensures Moves(Place(old(s.ssl.cursor), old(view.where)), seen, Place(s.ssl.cursor, view.where), |s.ssl.peer|)
    ensures match call
      case CallRead(length) =>
        seen.via == OwnRead && (length > 0 ==> s.ssl.calls > old(s.ssl.calls) && (seen.end <==> CleanEnd(old(s.ssl.cursor), s.ssl)))
      case CallFread(count, room) =>
        && seen.via == ViewRead && |seen.bytes| <= count
        && (room > 0 && |old(view.ahead)| < count ==>
              s.ssl.calls == old(s.ssl.calls) + 1 && (seen.end <==> CleanEnd(old(s.ssl.cursor), s.ssl)))
      case CallSetBlocking(blocking) => s.ssl.blocking == blocking
      case CallArrivals => true
  {
    var at := s.ssl.cursor;
    SameLength(s.ssl.peer, view.where, view.ahead);
    seen := Seen(OwnRead, [], [], false, |view.ahead|);
    match call {
      case CallRead(length) =>
        var r := s.Read(length);
        GenuineSlice(s.ssl.peer, at, s.ssl.cursor);
        seen := Seen(OwnRead, BytesOf(r), Range(at, s.ssl.cursor), r == End && s.ssl.error == ZeroReturn, |view.ahead|);
      case CallFread(count, room) =>
        seen := Seen(ViewRead, [], [], false, |view.ahead|);
        if count > 0 && room > 0 {
          var calls := s.ssl.calls;
          var bytes, pos, _ := view.Fread(count, room);
          SameLength(s.ssl.peer, view.where, view.ahead);
          var end := s.ssl.calls > calls && s.ssl.cursor == at && s.ssl.error == ZeroReturn;
          seen := Seen(ViewRead, bytes, pos, end, |view.ahead|);
        } else {
          assert [] + view.where == view.where + Range(at, at);
        }
      case CallSetBlocking(blocking) => s.ssl.blocking := blocking;
      case CallArrivals => s.ssl.Arrivals();
    }
  }

  /** The loop of the blocking clients: read until null.  After a clean end the answer is everything
      the peer sent; a reset or closed connection leaves a prefix. */
  method ReadAll(s: Stream) returns (resp: seq<byte>, threw: bool)
    requires s.ssl != null && s.ssl.Valid() && s.ssl.blocking
    modifies s`lastCap, s`reallocs, s`last, s.ssl
    ensures s.ssl.Valid() && old(s.ssl.cursor) <= s.ssl.cursor
    ensures resp == s.ssl.peer[old(s.ssl.cursor)..s.ssl.cursor]
    ensures threw <==> s.ssl.error == Failure && !Ended(s.ssl.state)
    ensures s.ssl.error == ZeroReturn ==> resp == s.ssl.peer[old(s.ssl.cursor)..]
    ensures s.ssl.error != Want && s.ssl.calls > old(s.ssl.calls)
    ensures if threw then s.last == Threw else s.last == End
  {
    resp, threw := [], false;
    ghost var from := s.ssl.cursor;
    while true
      invariant s.ssl == old(s.ssl) && s.ssl.Valid() && s.ssl.blocking && from <= s.ssl.cursor && !threw
      invariant resp == s.ssl.peer[from..s.ssl.cursor] && s.ssl.calls >= old(s.ssl.calls)
      decreases |s.ssl.peer| - s.ssl.cursor
    {
      ghost var at := s.ssl.cursor;
      var chunk := s.Read(65535);
      if chunk == Threw {
        threw := true;
        return;
      }
      if chunk == End {
        return;
      }
      assert chunk.Data?;
      assert s.ssl.peer[from..s.ssl.cursor] == s.ssl.peer[from..at] + s.ssl.peer[at..s.ssl.cursor];
      resp := resp + chunk.bytes;
    }
  }
}
