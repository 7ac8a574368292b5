/** The PTY bridge: buffered input that a full terminal cannot lose, and output with one EOF at its end. */
module Terminal {
  import opened Collections

  type Byte = bv8

  /**
   What one `os.write` does to a non-empty buffer: take some first bytes (one more than `extra`, or
   all of a shorter buffer), refuse for now, or fail.
   */
  datatype WriteResult = Progress(extra: nat) | WouldBlock | WriteError

  /** What one `os.read` gives; an empty chunk and an error both mean the child is gone. */
  datatype ReadResult = Chunk(data: seq<Byte>) | NothingYet | ReadError

  datatype Drained = Drained(taken: seq<Byte>, left: seq<Byte>, failed: bool)

  function Accepts(extra: nat, buf: seq<Byte>): nat {
    if extra + 1 <= |buf| then extra + 1 else |buf|
  }

  /** The flush loop against given write results; beyond them the terminal refuses. */
  function Drain(buf: seq<Byte>, results: seq<WriteResult>): Drained
    decreases |results|
  {
    if buf == [] || results == [] then Drained([], buf, false)
    else
      match results[0]
      case WouldBlock => Drained([], buf, false)
      case WriteError => Drained([], [], true)
      case Progress(extra) =>
        var n := Accepts(extra, buf);
        var rest := Drain(buf[n..], results[1..]);
        Drained(buf[..n] + rest.taken, rest.left, rest.failed)
  }

  lemma FirstTaken(buf: seq<Byte>, n: nat, taken: seq<Byte>, left: seq<Byte>)
    requires n <= |buf|
    ensures taken + left == buf[n..] ==> (buf[..n] + taken) + left == buf
    ensures taken <= buf[n..] ==> buf[..n] + taken <= buf
  {
    assert buf[..n] + buf[n..] == buf;
    assert (buf[..n] + taken) + left == buf[..n] + (taken + left);
    if taken <= buf[n..] {
      assert buf[n..] == taken + buf[n..][|taken|..];
      assert buf == (buf[..n] + taken) + buf[n..][|taken|..];
    }
  }

  /** However the writes split up, nothing is lost, repeated or reordered short of an error. */
  lemma {:induction false} DrainConserves(buf: seq<Byte>, results: seq<WriteResult>)
    ensures var d := Drain(buf, results);
            && (!d.failed ==> d.taken + d.left == buf)
            && (d.failed ==> d.left == [] && d.taken <= buf)
    decreases |results|
  {
    if buf != [] && results != [] && results[0].Progress? {
      var n := Accepts(results[0].extra, buf);
      var rest := Drain(buf[n..], results[1..]);
      DrainConserves(buf[n..], results[1..]);
      FirstTaken(buf, n, rest.taken, rest.left);
      assert Drain(buf, results) == Drained(buf[..n] + rest.taken, rest.left, rest.failed);
      hide Drain;
    }
  }

  /** How many writes succeed before the first that does not, and how many bytes those could take. */
  function Successes(results: seq<WriteResult>): (n: nat)
    ensures n <= |results|
  {
    if results == [] || !results[0].Progress? then 0 else 1 + Successes(results[1..])
  }

  function Offered(results: seq<WriteResult>): nat {
    if results == [] || !results[0].Progress? then 0 else results[0].extra + 1 + Offered(results[1..])
  }

  function Min(a: nat, b: nat): nat {
    if a < b then a else b
  }

  /** What is written is as much as the successful writes take; it fails exactly when an error comes before the buffer is empty. */
  lemma {:induction false} DrainAmount(buf: seq<Byte>, results: seq<WriteResult>)
    ensures var d, k := Drain(buf, results), Successes(results);
            && |d.taken| == Min(|buf|, Offered(results))
            && (d.failed <==> Offered(results) < |buf| && k < |results| && results[k] == WriteError)
    decreases |results|
  {
    if buf != [] && results != [] && results[0].Progress? {
      DrainAmount(buf[Accepts(results[0].extra, buf)..], results[1..]);
    }
  }

  /** Draining in two goes, as when the loop calls back later, is draining once. */
  lemma {:induction false} DrainInTwo(buf: seq<Byte>, first: seq<WriteResult>, second: seq<WriteResult>)
    requires forall r :: r in first ==> r.Progress?
    ensures var a, b := Drain(buf, first), Drain(buf, first + second);
            var c := Drain(a.left, second);
            b == Drained(a.taken + c.taken, c.left, c.failed)
    decreases |first|
  {
    if first == [] {
      assert first + second == second;
      assert [] + Drain(buf, second).taken == Drain(buf, second).taken;
    } else if buf != [] {
      assert (first + second)[1..] == first[1..] + second;
      assert first[0].Progress?;
      DrainInTwo(buf[Accepts(first[0].extra, buf)..], first[1..], second);
    }
  }

  /** Chunks in order, then the EOF sentinel once the child is gone. */
  ghost function Output(chunks: seq<seq<Byte>>, ended: bool): seq<Option<seq<Byte>>> {
    seq(|chunks|, i requires 0 <= i < |chunks| => Some(chunks[i])) + if ended then [None] else []
  }

  lemma OneMoreRound(buf: seq<Byte>, results: seq<WriteResult>, i: nat, before: seq<Byte>)
    requires buf != [] && i < |results| && results[i].Progress?
    ensures var n := Accepts(results[i].extra, buf);
            var d, e := Drain(buf, results[i..]), Drain(buf[n..], results[i + 1..]);
            && d.left == e.left && d.failed == e.failed && before + d.taken == (before + buf[..n]) + e.taken
  {
    assert results[i..][1..] == results[i + 1..];
  }

  /** Where the loop stops: nothing left, no more results, a refusal or an error. */
  lemma Stops(buf: seq<Byte>, results: seq<WriteResult>, i: nat)
    requires i <= |results|
    ensures buf == [] || i == |results| || results[i] == WouldBlock ==> Drain(buf, results[i..]) == Drained([], buf, false)
    ensures buf != [] && i < |results| && results[i] == WriteError ==> Drain(buf, results[i..]) == Drained([], [], true)
  {
  }

  class PtyBridge {
    var writeBuf: seq<Byte>
    var readerAttached: bool
    var writerAttached: bool
    var closed: bool
    /** None is the EOF sentinel. */
    var queue: seq<Option<seq<Byte>>>

    /** Input accepted and written to the descriptor since the last write error. */
    ghost var accepted: seq<Byte>
    ghost var written: seq<Byte>
    /** Output chunks in the order they were read. */
    ghost var chunks: seq<seq<Byte>>
    ghost var ended: bool

    ghost predicate Valid()
      reads this
    {
      && accepted == written + writeBuf
      && (!closed ==> (writerAttached <==> writeBuf != []))
      && (closed ==> !writerAttached && !readerAttached)
      && queue == Output(chunks, ended)
      && (ended ==> !readerAttached)
    }

    constructor ()
      ensures Valid() && !closed && readerAttached && queue == [] && accepted == []
    {
      writeBuf, queue := [], [];
      readerAttached, writerAttached, closed := true, false, false;
      accepted, written, chunks, ended := [], [], [], false;
    }

    /** Output callback: only called while the reader is attached. */
    method OnReadable(result: ReadResult)
      requires Valid() && readerAttached
      modifies this
      ensures Valid() && closed == old(closed)
      ensures writeBuf == old(writeBuf) && accepted == old(accepted) && written == old(written)
      ensures match result
              case NothingYet => queue == old(queue) && readerAttached
              case Chunk(data) => if data != [] then queue == old(queue) + [Some(data)] && readerAttached
                                  else queue == old(queue) + [None] && !readerAttached
              case ReadError => queue == old(queue) + [None] && !readerAttached
    {
      var chunk: seq<Byte> := [];
      match result {
        case NothingYet => return;
        case ReadError => chunk := [];
        case Chunk(data) => chunk := data;
      }
      if chunk != [] {
        queue := queue + [Some(chunk)];
        chunks := chunks + [chunk];
      } else {
        DetachReader();
        queue := queue + [None];
        ended := true;
      }
    }

    method DetachReader()
      modifies `readerAttached
      ensures !readerAttached
    {
      if readerAttached {
        readerAttached := false;
      }
    }

    method DetachWriter()
      modifies `writerAttached
      ensures !writerAttached
    {
      if writerAttached {
        writerAttached := false;
      }
    }

    /** Input from the client. */
    method Write(data: seq<Byte>, results: seq<WriteResult>)
      requires Valid()
      modifies this
      ensures Valid() && closed == old(closed) && queue == old(queue) && readerAttached == old(readerAttached)
      ensures closed || data == [] ==> writeBuf == old(writeBuf) && accepted == old(accepted) && written == old(written)
      ensures !closed && data != [] ==>
        var d := Drain(old(writeBuf) + data, results);
        if d.failed then accepted == [] && written == [] && writeBuf == []
        else accepted == old(accepted) + data && written == old(written) + d.taken && writeBuf == d.left
    {
      if closed || data == [] {
        return;
      }
      writeBuf := writeBuf + data;
      accepted := accepted + data;
      Flush(results);
    }

    /** Called by `Write`, and by the event loop while the writer is attached. */
    method Flush(results: seq<WriteResult>)
      requires accepted == written + writeBuf && queue == Output(chunks, ended) && (ended ==> !readerAttached) && !closed
      modifies this
      ensures Valid() && !closed && queue == old(queue) && readerAttached == old(readerAttached) && ended == old(ended)
      ensures var d := Drain(old(writeBuf), results);
              if d.failed then accepted == [] && written == [] && writeBuf == []
              else accepted == old(accepted) && written == old(written) + d.taken && writeBuf == d.left
    {
      hide Drain, Output;
      ghost var d, written0 := Drain(writeBuf, results), written;
      assert results[0..] == results;
      var i := 0;
      while writeBuf != []
        invariant 0 <= i <= |results|
        invariant accepted == old(accepted) == written + writeBuf && queue == old(queue)
        invariant !closed && readerAttached == old(readerAttached) && ended == old(ended) && writerAttached == old(writerAttached)
        invariant chunks == old(chunks)
        invariant var e := Drain(writeBuf, results[i..]);
                  d.left == e.left && d.failed == e.failed && written0 + d.taken == written + e.taken
        decreases |writeBuf|
      {
        Stops(writeBuf, results, i);
        if i == |results| || results[i] == WouldBlock {
          break;
        }
        if results[i] == WriteError {
          writeBuf := [];
          accepted, written := [], [];
          DetachWriter();
          return;
        }
        var n := Accepts(results[i].extra, writeBuf);
        OneMoreRound(writeBuf, results, i, written);
        assert writeBuf == writeBuf[..n] + writeBuf[n..];
        written := written + writeBuf[..n];
        writeBuf := writeBuf[n..];
        i := i + 1;
      }
      Stops(writeBuf, results, i);
      if writeBuf != [] && !writerAttached {
        writerAttached := true;
      } else if writeBuf == [] {
        DetachWriter();
      }
    }

    method CloseNow()
      requires Valid()
      modifies this
      ensures Valid() && closed && queue == old(queue)
      ensures writeBuf == old(writeBuf) && accepted == old(accepted) && written == old(written)
    {
      if closed {
        return;
      }
      closed := true;
      DetachReader();
      DetachWriter();
    }
  }

  datatype Event = Input(data: seq<Byte>, results: seq<WriteResult>) | Writable(results: seq<WriteResult>)
                 | Readable(result: ReadResult) | Close

  ghost predicate NoWriteError(events: seq<Event>) {
    forall e :: e in events ==> (e.Input? || e.Writable?) ==> WriteError !in e.results
  }

  lemma {:induction false} NoErrorNoFailure(buf: seq<Byte>, results: seq<WriteResult>)
    requires WriteError !in results
    ensures !Drain(buf, results).failed
    decreases |results|
  {
    if buf != [] && results != [] && results[0].Progress? {
      NoErrorNoFailure(buf[Accepts(results[0].extra, buf)..], results[1..]);
    }
  }

  /** All input up to a close. */
  function InputOf(events: seq<Event>): seq<Byte>
    decreases |events|
  {
    if events == [] || events[|events| - 1].Close? then (if events == [] then [] else InputOf(events[..|events| - 1]))
    else
      var e, before := events[|events| - 1], events[..|events| - 1];
      InputOf(before) + if e.Input? && Close !in before then e.data else []
  }

  /** Nothing is read after the child is gone or the bridge is closed. */
  predicate EndsReading(e: Event) {
    e.Close? || (e.Readable? && (e.result.ReadError? || e.result == Chunk([])))
  }

  predicate StillReading(events: seq<Event>) {
    forall e :: e in events ==> !EndsReading(e)
  }

  /** What one read adds to the output. */
  function OutputOfRead(result: ReadResult): seq<Option<seq<Byte>>> {
    match result
    case NothingYet => []
    case Chunk(data) => [if data != [] then Some(data) else None]
    case ReadError => [None]
  }

  /** The non-empty chunks that were read, in order, up to the first EOF or close, then the EOF. */
  function OutputOf(events: seq<Event>): seq<Option<seq<Byte>>>
    decreases |events|
  {
    if events == [] then []
    else
      var e, before := events[|events| - 1], events[..|events| - 1];
      OutputOf(before) + if e.Readable? && StillReading(before) then OutputOfRead(e.result) else []
  }

  lemma OneMore(before: seq<Event>, e: Event)
    ensures StillReading(before + [e]) <==> StillReading(before) && !EndsReading(e)
    ensures InputOf(before + [e]) == InputOf(before) + if e.Input? && Close !in before then e.data else []
    ensures OutputOf(before + [e]) == OutputOf(before) + if e.Readable? && StillReading(before) then OutputOfRead(e.result) else []
    ensures Close in before + [e] <==> Close in before || e.Close?
  {
    var events := before + [e];
    assert events[..|before|] == before && events[|before|] == e;
    assert forall x :: x in events <==> x in before || x == e;
  }

  /** An EOF sentinel can only be the last thing in the output; it is there exactly when reading ended by EOF. */
  lemma {:induction false} EofLast(events: seq<Event>)
    ensures forall i :: 0 <= i < |OutputOf(events)| && OutputOf(events)[i].None? ==> i == |OutputOf(events)| - 1
    ensures None in OutputOf(events) ==> !StillReading(events)
    ensures None !in OutputOf(events) && Close !in events ==> StillReading(events)
    decreases |events|
  {
    if events != [] {
      var e, before := events[|events| - 1], events[..|events| - 1];
      assert events == before + [e];
      EofLast(before);
      OneMore(before, e);
    }
  }

  /** How many bytes an event lets through to the descriptor, `pending` waiting before it. */
  function Through(pending: nat, closed: bool, e: Event): nat {
    if closed then 0
    else
      match e
      case Input(data, results) => if data == [] then 0 else Min(pending + |data|, Offered(results))
      case Writable(results) => Min(pending, Offered(results))
      case _ => 0
  }

  /** How many bytes the descriptor has after the events, of `accepted` before them `written` already. */
  function WrittenAfter(accepted: nat, written: nat, events: seq<Event>): (n: nat)
    requires written <= accepted
    ensures n <= accepted + |InputOf(events)|
    decreases |events|
  {
    if events == [] then written
    else
      var e, before := events[|events| - 1], events[..|events| - 1];
      assert events == before + [e];
      OneMore(before, e);
      var n := WrittenAfter(accepted, written, before);
      n + Through(accepted + |InputOf(before)| - n, Close in before, e)
  }

  /**
   Any sequence of callbacks: without a write error, what the descriptor got followed by what is
   buffered is all input accepted so far, and it got as much of that as the writes took; output is
   the chunks in order with at most one EOF, last.
   */
  method AnyUse(bridge: PtyBridge, events: seq<Event>)
    requires bridge.Valid() && !bridge.closed && NoWriteError(events)
    modifies bridge
    ensures bridge.Valid()
    ensures bridge.written + bridge.writeBuf == old(bridge.accepted) + InputOf(events)
    ensures |bridge.written| == WrittenAfter(|old(bridge.accepted)|, |old(bridge.written)|, events)
    ensures bridge.queue == old(bridge.queue) + if old(bridge.readerAttached) then OutputOf(events) else []
    ensures bridge.readerAttached <==> old(bridge.readerAttached) && StillReading(events)
    ensures forall i :: 0 <= i < |bridge.queue| && bridge.queue[i].None? ==> i == |bridge.queue| - 1
    ensures bridge.closed <==> Close in events
  {
    hide InputOf, OutputOf, StillReading, EndsReading, OutputOfRead, Drain, Output, Through, WrittenAfter;
    var i := 0;
    StartOfUse();
    NothingWritten(|bridge.accepted|, |bridge.written|);
    while i < |events|
      invariant 0 <= i <= |events| && bridge.Valid()
      invariant bridge.accepted == old(bridge.accepted) + InputOf(events[..i])
      invariant |bridge.written| == WrittenAfter(|old(bridge.accepted)|, |old(bridge.written)|, events[..i])
      invariant bridge.queue == old(bridge.queue) + if old(bridge.readerAttached) then OutputOf(events[..i]) else []
      invariant bridge.readerAttached <==> old(bridge.readerAttached) && StillReading(events[..i])
      invariant bridge.closed <==> Close in events[..i]
    {
      assert events[..i + 1] == events[..i] + [events[i]];
      OneMore(events[..i], events[i]);
      OneMoreWritten(|old(bridge.accepted)|, |old(bridge.written)|, events[..i], events[i]);
      Handle(bridge, events[i]);
      i := i + 1;
    }
    assert events[..i] == events;
    EofInQueue(bridge);
  }

  lemma NothingWritten(accepted: nat, written: nat)
    requires written <= accepted
    ensures forall events: seq<Event> :: |events| == 0 ==> WrittenAfter(accepted, written, events) == written
  {
  }

  lemma OneMoreWritten(accepted: nat, written: nat, before: seq<Event>, e: Event)
    requires written <= accepted
    ensures var n := WrittenAfter(accepted, written, before);
            WrittenAfter(accepted, written, before + [e])
            == n + Through(accepted + |InputOf(before)| - n, Close in before, e)
  {
    assert (before + [e])[..|before|] == before;
  }

  lemma StartOfUse()
    ensures forall events: seq<Event> :: |events| == 0 ==> InputOf(events) == [] && OutputOf(events) == [] && StillReading(events)
  {
  }

  lemma EofInQueue(bridge: PtyBridge)
    requires bridge.Valid()
    ensures forall i :: 0 <= i < |bridge.queue| && bridge.queue[i].None? ==> i == |bridge.queue| - 1
  {
  }

  /** One event; a callback that is detached does not come. */
  method Handle(bridge: PtyBridge, e: Event)
    requires bridge.Valid() && ((e.Input? || e.Writable?) ==> WriteError !in e.results)
    modifies bridge
    ensures bridge.Valid() && (bridge.closed <==> old(bridge.closed) || e.Close?)
    ensures bridge.accepted == old(bridge.accepted) + if e.Input? && !old(bridge.closed) then e.data else []
    ensures bridge.queue == old(bridge.queue) + if e.Readable? && old(bridge.readerAttached) then OutputOfRead(e.result) else []
    ensures bridge.readerAttached <==> old(bridge.readerAttached) && !EndsReading(e)
    ensures |bridge.written| == |old(bridge.written)| + Through(|old(bridge.writeBuf)|, old(bridge.closed), e)
  {
    hide Drain, Output;
    match e {
      case Input(data, results) =>
        NoErrorNoFailure(bridge.writeBuf + data, results);
        DrainAmount(bridge.writeBuf + data, results);
        bridge.Write(data, results);
      case Writable(results) =>
        if bridge.writerAttached {
          NoErrorNoFailure(bridge.writeBuf, results);
          DrainAmount(bridge.writeBuf, results);
          bridge.Flush(results);
        }
      case Readable(result) =>
        if bridge.readerAttached {
          bridge.OnReadable(result);
        }
      case Close => bridge.CloseNow();
    }
  }
}
