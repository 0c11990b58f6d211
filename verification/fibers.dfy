/** The fibers client: straight-line tasks that suspend when their stream has nothing, and a scheduler
    that polls the streams they wait for. */
module Fibers {
  import opened Common
  import opened Replies
  import opened StreamRead

  datatype Status = Fresh | Suspended | Terminated | Crashed

  /** Standard output; authors says which task echoed which line. */
  class Console {
    var lines: seq<seq<byte>>
    ghost var authors: seq<Fiber>

    constructor ()
      ensures lines == [] && authors == []
    {
      lines, authors := [], [];
    }

    method Echo(text: seq<byte>, ghost who: Fiber)
      modifies this
      ensures lines == old(lines) + [text] && authors == old(authors) + [who]
    {
      lines := lines + [text];
      authors := authors + [who];
    }
  }

  /** A task on its own stream. */
  class Fiber {
    const stream: Stream
    const ssl: Engine
    const console: Console
    var reply: seq<byte>
    var status: Status

    ghost predicate Valid()
      reads this, stream, ssl
    {
      && Collected(stream, ssl, reply)
      && (status == Suspended ==> stream.last == Nothing && ssl.error == Want)
      && (status == Terminated ==> stream.last == End && Answered(ssl, reply))
      && (status == Crashed ==> stream.last == Threw && Broken(ssl))
    }

    /** new Fiber($task), with the stream that openStream() will give it. */
    constructor (console: Console, peer: seq<byte>, steady: bool)
      ensures Valid() && status == Fresh && this.console == console && fresh(stream) && fresh(ssl) && ssl.peer == peer
    {
      var e := new Engine(peer, steady);
      e.blocking := false;
      var s := new Stream(e);
      stream, ssl, this.console, reply, status := s, e, console, [], Fresh;
    }

    /** start() and resume(): the body runs until it suspends in fiber_read(), ends or throws.  The loop
        is that of the body around the one of fiber_read(); a resumed fiber goes on with the read. */
    method Advance()
      requires Valid() && (status == Fresh || status == Suspended)
      modifies this`reply, this`status, stream`lastCap, stream`reallocs, stream`last, ssl, console
      ensures Valid() && (status == Suspended || status == Terminated || status == Crashed)
      ensures old(reply) <= reply && ssl.calls > old(ssl.calls)
      // the line is printed at the end, and not before
      ensures status == Terminated ==>
        console.lines == old(console.lines) + [reply] && console.authors == old(console.authors) + [this]
      ensures status != Terminated ==> console.lines == old(console.lines) && console.authors == old(console.authors)
    {
      while true
        invariant Collected(stream, ssl, reply) && old(reply) <= reply && status != Terminated
        invariant console.lines == old(console.lines) && console.authors == old(console.authors)
        invariant ssl.calls >= old(ssl.calls)
        decreases |ssl.peer| - |reply|
      {
        var chunk;
        chunk, reply := ReadMore(stream, ssl, reply);
        match chunk {
          case Data(_) =>
          case Nothing =>
            status := Suspended;
            return;
          case End =>
            console.Echo(reply, this);
            status := Terminated;
            return;
          case Threw =>
            status := Crashed;
            return;
        }
      }
    }
  }

  /** ['fiber' => $fiber, 'stream' => $stream] */
  datatype Waiting = Waiting(fiber: Fiber, stream: Stream)

  class Scheduler {
    const console: Console
    var waiting: map<nat, Waiting>
    var tasks: seq<Fiber>          // task i is the fiber that was started for $i
    ghost var reported: set<nat>   // the keys of the last poll's result
    ghost var turns: nat           // turns of the scheduler's loop so far
    ghost var repr: set<object>    // all tasks, their streams and engines, and the console

    /** Every task has a stream and an engine of its own. */
    ghost predicate Apart()
      reads this`tasks, this`repr
    {
      && console in repr && this !in repr
      && (forall i :: 0 <= i < |tasks| ==>
            tasks[i] in repr && tasks[i].stream in repr && tasks[i].ssl in repr && tasks[i].console == console)
      && (forall i, j :: 0 <= i < j < |tasks| ==>
            tasks[i] != tasks[j] && tasks[i].stream != tasks[j].stream && tasks[i].ssl != tasks[j].ssl)
    }

    /** $waiting holds exactly the suspended tasks, each with the stream it is suspended on. */
    ghost predicate WaitingOk()
      reads this`waiting, this`tasks, tasks
    {
      && (forall k: nat :: k in waiting <==> k < |tasks| && tasks[k].status == Suspended)
      && (forall k: nat :: k in waiting && k < |tasks| ==> waiting[k] == Waiting(tasks[k], tasks[k].stream))
    }

    /** Every ended task has printed its own reply, once; nothing else is printed. */
    ghost predicate PrintedOk()
      reads this`tasks, console, tasks
    {
      && |console.lines| == |console.authors| && Distinct(console.authors)
      && (forall j :: 0 <= j < |console.authors| ==>
            console.authors[j] in tasks && console.authors[j].status == Terminated && console.lines[j] == console.authors[j].reply)
      && (forall i :: 0 <= i < |tasks| && tasks[i].status == Terminated ==> tasks[i] in console.authors)
    }

    ghost predicate TasksOk()
      reads this`tasks, this`repr, repr
    {
      Apart() && forall i :: 0 <= i < |tasks| ==> tasks[i].Valid()
    }

    /** The read() of some task has thrown. */
    ghost predicate SomeCrashed()
      reads this`tasks, tasks
    {
      exists i :: 0 <= i < |tasks| && tasks[i].status == Crashed
    }

    /** Between the turns of a loop every task is suspended or has ended. */
    ghost predicate Valid()
      reads this, repr
    {
      && this !in repr && TasksOk() && WaitingOk() && PrintedOk()
      && forall i :: 0 <= i < |tasks| ==> tasks[i].status == Suspended || tasks[i].status == Terminated
    }

    constructor (console: Console)
      requires console.lines == [] && console.authors == []
      ensures Valid() && tasks == [] && this.console == console && repr == {console}
    {
      this.console, waiting, tasks, reported, turns, repr := console, map[], [], {}, 0, {console};
    }

    /** Task k runs until it suspends, ends or throws; the others stay as they are. */
    method Advance(k: nat)
      requires TasksOk() && PrintedOk() && k < |tasks| && (tasks[k].status == Fresh || tasks[k].status == Suspended)
      modifies repr
      ensures TasksOk() && PrintedOk()
      ensures tasks[k].status != Fresh && tasks[k].ssl.calls > old(tasks[k].ssl.calls)
      ensures forall i :: 0 <= i < |tasks| && i != k ==>
        tasks[i].status == old(tasks[i].status) && tasks[i].ssl.calls == old(tasks[i].ssl.calls)
    {
      hide Collected, Answered;
      tasks[k].Advance();
    }

    method Add(fiber: Fiber)
      requires Valid() && fiber.Valid() && fiber.status == Fresh && fiber.console == console
      requires fiber !in repr && fiber.stream !in repr && fiber.ssl !in repr
      modifies this`tasks, this`repr
      ensures TasksOk() && WaitingOk() && PrintedOk()
      ensures tasks == old(tasks) + [fiber] && repr == old(repr) + {fiber, fiber.stream, fiber.ssl} && this !in repr
    {
      hide Collected, Answered;
      tasks := tasks + [fiber];
      repr := repr + {fiber, fiber.stream, fiber.ssl};
    }

    /** One turn of the loop that starts fibers; false when this one threw. */
    method Start(peer: seq<byte>, steady: bool) returns (ok: bool)
      requires Valid()
      modifies this, repr
      ensures TasksOk() && PrintedOk() && (ok ==> Valid()) && fresh(repr - old(repr)) && turns == old(turns)
      ensures |tasks| == |old(tasks)| + 1 && tasks[..|old(tasks)|] == old(tasks)
      ensures tasks[|old(tasks)|].ssl.peer == peer && tasks[|old(tasks)|].status != Fresh
      ensures ok <==> tasks[|old(tasks)|].status != Crashed
    {
      hide PrintedOk, TasksOk, Apart, Collected, Answered;
      var i := |tasks|;
      var fiber := new Fiber(console, peer, steady);
      Add(fiber);
      Advance(i);
      if fiber.status != Terminated {
        waiting := waiting[i := Waiting(fiber, fiber.stream)];
      }
      ok := fiber.status != Crashed;
    }

    /** What the loop does with the result for key. */
    method Resume(key: nat) returns (ok: bool)
      requires Valid() && key in waiting
      modifies this`waiting, repr
      ensures TasksOk() && PrintedOk() && (ok ==> Valid())
      ensures ok <==> tasks[key].status != Crashed
      ensures waiting.Keys <= old(waiting).Keys <= waiting.Keys + {key}
      ensures tasks[key].ssl.calls > old(tasks[key].ssl.calls)
      ensures forall i :: 0 <= i < |tasks| && i != key ==> tasks[i].ssl.calls == old(tasks[i].ssl.calls)
    {
      hide PrintedOk, TasksOk, Apart, Collected, Answered;
      var fiber := waiting[key].fiber;
      Advance(key);
      if fiber.status == Terminated {
        waiting := waiting - {key};
      } else {
        waiting := waiting[key := Waiting(fiber, fiber.stream)];
      }
      ok := fiber.status != Crashed;
    }

    /** Poll drives the connection: something may arrive for any task, and any of the waiting streams may be
        reported. */
    method Poll() returns (ready: set<nat>)
      requires Valid()
      modifies this`reported, repr
      ensures Valid() && ready <= waiting.Keys && reported == ready
      ensures forall i :: 0 <= i < |tasks| ==> tasks[i].ssl.calls == old(tasks[i].ssl.calls)
    {
      hide WaitingOk, PrintedOk, TasksOk, Apart, Collected, Answered;
      for i := 0 to |tasks|
        invariant Valid()
        invariant forall i :: 0 <= i < |tasks| ==> tasks[i].ssl.calls == old(tasks[i].ssl.calls)
      {
        Arrive(i);
      }
      ready := SomeOf(waiting.Keys);
      reported := ready;
    }

    method Arrive(i: nat)
      requires Valid() && i < |tasks|
      modifies repr
      ensures Valid()
      ensures forall i :: 0 <= i < |tasks| ==> tasks[i].ssl.calls == old(tasks[i].ssl.calls)
    {
      hide PrintedOk, WaitingOk;
      tasks[i].ssl.Arrivals();
    }

    lemma WaitingAreTasks()
      requires WaitingOk()
      ensures forall k :: k in waiting ==> k < |tasks|
    {
    }

    /** The loop over the result of poll, in any order: every reported task is resumed and reads again. */
    method ResumeAll(keys: set<nat>) returns (ok: bool)
      requires Valid() && keys <= waiting.Keys
      requires forall k :: k in keys ==> k < |tasks|
      modifies this`waiting, repr
      ensures TasksOk() && PrintedOk() && (ok ==> Valid()) && (ok <==> !SomeCrashed())
      ensures ok ==> forall k :: k in keys ==> tasks[k].ssl.calls > old(tasks[k].ssl.calls)
    {
      hide WaitingOk, PrintedOk, TasksOk, Apart, Collected, Answered;
      ok := true;
      var ready := keys;
      while ready != {}
        invariant Valid() && ready <= waiting.Keys && ready <= keys
        invariant forall i :: 0 <= i < |tasks| ==> tasks[i].ssl.calls >= old(tasks[i].ssl.calls)
        invariant forall k :: k in keys && k !in ready ==> tasks[k].ssl.calls > old(tasks[k].ssl.calls)
        decreases |ready|
      {
        var key :| key in ready;
        ok := Resume(key);
        if !ok {
          return;
        }
        ready := ready - {key};
      }
    }

    /** One turn of the scheduler's loop. */
    method Round() returns (ok: bool)
      requires Valid()
      modifies this`waiting, this`reported, this`turns, repr
      ensures TasksOk() && PrintedOk() && (ok ==> Valid()) && (ok <==> !SomeCrashed()) && turns == old(turns) + 1
      ensures reported <= old(waiting).Keys && forall k :: k in reported ==> k < |tasks|
      ensures ok ==> forall k :: k in reported ==> tasks[k].ssl.calls > old(tasks[k].ssl.calls)
    {
      hide WaitingOk, PrintedOk, TasksOk, Apart, Collected, Answered;
      turns := turns + 1;
      var ready := Poll();
      WaitingAreTasks();
      ok := ResumeAll(ready);
    }

    /** The loop that starts one task for each reply the peer has. */
    method StartAll(peers: seq<seq<byte>>, steady: bool) returns (ok: bool)
      requires Valid() && tasks == []
      modifies this, repr
      ensures TasksOk() && PrintedOk() && (ok ==> Valid()) && fresh(repr - old(repr))
      ensures ok <==> !SomeCrashed()
      ensures ok ==> Asked(peers)
      ensures turns == old(turns)
    {
      hide WaitingOk, PrintedOk, TasksOk, Apart, Collected, Answered;
      ok := true;
      for i := 0 to |peers|
        invariant Valid() && Asked(peers[..i]) && fresh(repr - old(repr)) && turns == old(turns)
      {
        ok := Start(peers[i], steady);
        if !ok {
          return;
        }
      }
      assert peers[..|peers|] == peers;
    }

    /** Task i reads what the peer answers to request i. */
    ghost predicate Asked(peers: seq<seq<byte>>)
      reads this`tasks
    {
      |tasks| == |peers| && forall i :: 0 <= i < |tasks| ==> tasks[i].ssl.peer == peers[i]
    }

    /** The whole client over the replies of the peer, for any number of rounds.  Whenever it stops, it has
        printed for each ended task one line, and when no task waits any more there is one line for each:
        all the peer sent to it, unless its stream was reset or the connection closed. */
    method Run(peers: seq<seq<byte>>, steady: bool, rounds: nat) returns (ok: bool)
      requires Valid() && tasks == []
      modifies this, repr
      ensures TasksOk() && PrintedOk() && (ok ==> Valid() && Asked(peers)) && (ok <==> !SomeCrashed())
      ensures ok ==> waiting.Keys == {} || turns == old(turns) + rounds
      ensures ok && waiting.Keys == {} ==>
        && |console.lines| == |peers| && multiset(console.authors) == multiset(tasks)
        && forall i :: 0 <= i < |tasks| ==> Answered(tasks[i].ssl, tasks[i].reply)
    {
      hide WaitingOk, PrintedOk, TasksOk, Apart, Collected, Answered, Asked;
      ok := StartAll(peers, steady);
      var r := 0;
      while ok && waiting.Keys != {} && r < rounds
        invariant TasksOk() && PrintedOk() && (ok ==> Valid() && Asked(peers)) && fresh(repr - old(repr))
        invariant ok <==> !SomeCrashed()
        invariant r <= rounds && turns == old(turns) + r
        decreases rounds - r
      {
        ok := Round();
        r := r + 1;
      }
      if ok && waiting.Keys == {} {
        AllPrinted(peers);
      }
    }

    /** When every task has ended there is one line for each. */
    lemma AllPrinted(peers: seq<seq<byte>>)
      requires Valid() && waiting.Keys == {} && Asked(peers)
      ensures |console.lines| == |peers|
      ensures multiset(console.authors) == multiset(tasks)
      ensures forall i :: 0 <= i < |tasks| ==> Answered(tasks[i].ssl, tasks[i].reply)
    {
      assert forall i: nat :: i < |tasks| ==> i !in waiting.Keys;
      SameElements(console.authors, tasks);
    }
  }
}
