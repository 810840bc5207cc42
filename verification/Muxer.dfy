/** The inbound queue of the two muxers. Their only difference is whether `poll_inbound` polls the connection. */
module Muxers {
  import opened Prelude

  const MAX_BUFFERED_INBOUND_STREAMS: nat := 256

  type Waker = nat

  // yamux queues only what `poll` accepts; muxing's `poll_inbound` also takes streams directly
  datatype Variant = Yamux | Muxing

  datatype Arrival<+S> = Stream(stream: S) | NoStream | ConnectionFailed

  datatype Result<+S> = Pending | Delivered(stream: S) | Error

  datatype Queue<+S> = Queue(buffer: seq<S>, waker: Option<Waker>)

  /** A call, with what the connection has if it asks; the waker is the caller's. */
  datatype Call<+S> = PollInbound(waker: Waker, arrival: Arrival<S>) | Poll(waker: Waker, arrival: Arrival<S>)

  /** `woken` are the wakers woken, in order. */
  datatype Stepped<+S> = Stepped(queue: Queue<S>, result: Result<S>, woken: seq<Waker>)

  function Step<S>(variant: Variant, q: Queue<S>, c: Call<S>): (r: Stepped<S>)
  {
    match c
    case PollInbound(waker, arrival) =>
      if q.buffer != [] then Stepped(q.(buffer := q.buffer[1..]), Delivered(q.buffer[0]), [])
      else if variant.Muxing? && arrival.Stream? then Stepped(q, Delivered(arrival.stream), [])
      else if variant.Muxing? && arrival.ConnectionFailed? then Stepped(q, Error, [])
      else Stepped(q.(waker := Some(waker)), Pending, [])
    case Poll(waker, arrival) =>
      match arrival
      case NoStream => Stepped(q, Pending, [])
      case ConnectionFailed => Stepped(q, Error, [])
      case Stream(stream) =>
        if |q.buffer| >= MAX_BUFFERED_INBOUND_STREAMS then Stepped(q, Pending, [waker])
        else Stepped(Queue(q.buffer + [stream], None), Pending, Waiter(q) + [waker])
  }

  /** The waker of the caller that waits for a stream, if there is one. */
  function Waiter<S>(q: Queue<S>): (wakers: seq<Waker>)
  {
    if q.waker.Some? then [q.waker.value] else []
  }

  datatype Log<+S> = Log(queue: Queue<S>, delivered: seq<S>, errors: nat, woken: seq<Waker>)

  function Run<S>(variant: Variant, calls: seq<Call<S>>): (r: Log<S>)
  {
    if calls == [] then Log(Queue([], None), [], 0, [])
    else
      var before := Run(variant, calls[..|calls| - 1]);
      var s := Step(variant, before.queue, calls[|calls| - 1]);
      Log(s.queue,
        before.delivered + (if s.result.Delivered? then [s.result.stream] else []),
        before.errors + (if s.result.Error? then 1 else 0),
        before.woken + s.woken)
  }

  // ---------------------------------------------------------------------------------------------
  // An account that does not look at the queue: how many streams wait, and which were admitted
  // ---------------------------------------------------------------------------------------------

  function Waiting<S>(calls: seq<Call<S>>): (n: nat)
    ensures n <= MAX_BUFFERED_INBOUND_STREAMS
  {
    if calls == [] then 0
    else
      var n := Waiting(calls[..|calls| - 1]);
      match calls[|calls| - 1]
      case PollInbound(_, _) => if n > 0 then n - 1 else 0
      case Poll(_, arrival) => if arrival.Stream? && n < MAX_BUFFERED_INBOUND_STREAMS then n + 1 else n
  }

  /** Did this call take a stream from the connection? `poll` always asks, `poll_inbound` only if nothing waits. */
  predicate Arrives<S>(variant: Variant, waiting: nat, c: Call<S>)
  {
    c.arrival.Stream? && (c.Poll? || (variant.Muxing? && waiting == 0))
  }

  /** The streams that arrived, in order, minus those that arrived in `poll` on a full buffer. */
  function Admitted<S>(variant: Variant, calls: seq<Call<S>>): (streams: seq<S>)
  {
    if calls == [] then []
    else
      var earlier, c := calls[..|calls| - 1], calls[|calls| - 1];
      var dropped := c.Poll? && Waiting(earlier) == MAX_BUFFERED_INBOUND_STREAMS;
      Admitted(variant, earlier) +
        (if Arrives(variant, Waiting(earlier), c) && !dropped then [c.arrival.stream] else [])
  }

  /** Did this call have the connection's failure reported to it? */
  predicate Fails<S>(variant: Variant, waiting: nat, c: Call<S>)
  {
    c.arrival.ConnectionFailed? && (c.Poll? || (variant.Muxing? && waiting == 0))
  }

  function Failures<S>(variant: Variant, calls: seq<Call<S>>): (n: nat)
  {
    if calls == [] then 0
    else
      var earlier, c := calls[..|calls| - 1], calls[|calls| - 1];
      Failures(variant, earlier) + (if Fails(variant, Waiting(earlier), c) then 1 else 0)
  }

  /** Over all runs: every failure of the connection is returned, to the caller it was reported to. */
  lemma {:induction false} FailuresReturned<S>(variant: Variant, calls: seq<Call<S>>)
    ensures Run(variant, calls).errors == Failures(variant, calls)
    ensures calls != [] ==>
      var earlier, c := calls[..|calls| - 1], calls[|calls| - 1];
      Step(variant, Run(variant, earlier).queue, c).result.Error? <==> Fails(variant, Waiting(earlier), c)
  {
    if calls != [] {
      FailuresReturned(variant, calls[..|calls| - 1]);
      QueueInvariant(variant, calls[..|calls| - 1]);
    }
  }

  /**
   Over all runs: nothing admitted is lost, duplicated or reordered, the buffer is bounded, and a waker
   is stored only while the buffer is empty.
   */
  lemma {:induction false} QueueInvariant<S>(variant: Variant, calls: seq<Call<S>>)
    ensures var r := Run(variant, calls);
      && r.delivered + r.queue.buffer == Admitted(variant, calls)
      && |r.queue.buffer| == Waiting(calls) <= MAX_BUFFERED_INBOUND_STREAMS
      && (r.queue.waker.Some? ==> r.queue.buffer == [])
  {
    if calls != [] {
      var earlier, c := calls[..|calls| - 1], calls[|calls| - 1];
      QueueInvariant(variant, earlier);
      var before := Run(variant, earlier);
      match c
      case PollInbound(_, arrival) =>
        if before.queue.buffer != [] {
          var b := before.queue.buffer;
          assert b == [b[0]] + b[1..];
          Assoc(before.delivered, [b[0]], b[1..]);
        } else {
          assert before.delivered + [] == before.delivered;
          if variant.Muxing? && arrival.Stream? {
            assert (before.delivered + [arrival.stream]) + [] == before.delivered + [arrival.stream];
          }
        }
      case Poll(_, arrival) =>
        assert before.delivered + [] == before.delivered;
        if arrival.Stream? {
          Assoc(before.delivered, before.queue.buffer, [arrival.stream]);
        }
    }
  }

  lemma RunMore<S>(variant: Variant, calls: seq<Call<S>>, c: Call<S>)
    ensures var before := Run(variant, calls);
      var s := Step(variant, before.queue, c);
      && Run(variant, calls + [c]).queue == s.queue
      && Run(variant, calls + [c]).woken == before.woken + s.woken
  {
    assert (calls + [c])[..|calls|] == calls;
  }

  predicate OnlyPolls<S>(calls: seq<Call<S>>)
  {
    calls == [] || (OnlyPolls(calls[..|calls| - 1]) && calls[|calls| - 1].Poll?)
  }

  /**
   The wakers that calls of `poll` wake after `waiter` has been told to wait: each `poll` that takes a
   stream wakes its own caller, to be called again; the first one wakes the waiter before that.
   */
  function Wakes<S>(waiter: Waker, polls: seq<Call<S>>): (woken: seq<Waker>)
    ensures !SomeStream(polls) ==> woken == []
    ensures SomeStream(polls) ==> woken != [] && woken[0] == waiter
  {
    if polls == [] then []
    else
      var init, last := polls[..|polls| - 1], polls[|polls| - 1];
      Wakes(waiter, init) +
        (if !last.arrival.Stream? then [] else if SomeStream(init) then [last.waker] else [waiter, last.waker])
  }

  predicate SomeStream<S>(calls: seq<Call<S>>)
  {
    calls != [] && (SomeStream(calls[..|calls| - 1]) || calls[|calls| - 1].arrival.Stream?)
  }

  /** While a waiter waits the buffer is empty; once woken, something is there for it. */
  predicate WaiterServed<S>(q: Queue<S>, waker: Waker, enqueued: bool)
  {
    if enqueued then q.waker == None && q.buffer != [] else q.waker == Some(waker) && q.buffer == []
  }

  lemma PollServesWaiter<S>(variant: Variant, q: Queue<S>, c: Call<S>, waiter: Waker, enqueued: bool)
    requires WaiterServed(q, waiter, enqueued) && c.Poll?
    ensures WaiterServed(Step(variant, q, c).queue, waiter, enqueued || c.arrival.Stream?)
    ensures Step(variant, q, c).woken ==
      if !c.arrival.Stream? then [] else if enqueued then [c.waker] else [waiter, c.waker]
  {
    assert [waiter] + [c.waker] == [waiter, c.waker];
    assert [] + [c.waker] == [c.waker];
  }

  lemma {:induction false} PollsWake<S>(variant: Variant, sofar: seq<Call<S>>, waiter: Waker, polls: seq<Call<S>>)
    requires WaiterServed(Run(variant, sofar).queue, waiter, false) && OnlyPolls(polls)
    ensures Run(variant, sofar + polls).woken == Run(variant, sofar).woken + Wakes(waiter, polls)
    ensures WaiterServed(Run(variant, sofar + polls).queue, waiter, SomeStream(polls))
    decreases |polls|
  {
    hide Run, Step, WaiterServed;
    if polls == [] {
      assert sofar + polls == sofar;
    } else {
      var init, last := polls[..|polls| - 1], polls[|polls| - 1];
      PollsWake(variant, sofar, waiter, init);
      Assoc(sofar, init, [last]);
      assert init + [last] == polls;
      RunMore(variant, sofar + init, last);
      var q := Run(variant, sofar + init).queue;
      PollServesWaiter(variant, q, last, waiter, SomeStream(init));
      Assoc(Run(variant, sofar).woken, Wakes(waiter, init), Step(variant, q, last).woken);
    }
  }

  /**
   No waiter misses a stream: once `poll_inbound` has returned Pending, the first stream that `poll`
   enqueues wakes that caller, once, and something is buffered for it. Besides that each `poll` that
   took a stream wakes its own caller.
   */
  lemma WaiterIsWoken<S>(variant: Variant, calls: seq<Call<S>>,
        waiter: Waker, arrival: Arrival<S>, polls: seq<Call<S>>)
    requires Step(variant, Run(variant, calls).queue, PollInbound(waiter, arrival)).result.Pending?
    requires OnlyPolls(polls)
    ensures var r := Run(variant, calls + [PollInbound(waiter, arrival)] + polls);
      && r.woken == Run(variant, calls).woken + Wakes(waiter, polls)
      && WaiterServed(r.queue, waiter, SomeStream(polls))
  {
    hide Run, Wakes, SomeStream, OnlyPolls;
    RunMore(variant, calls, PollInbound(waiter, arrival));
    assert Run(variant, calls).woken + [] == Run(variant, calls).woken;
    PollsWake(variant, calls + [PollInbound(waiter, arrival)], waiter, polls);
  }

  // ---------------------------------------------------------------------------------------------
  // The muxers
  // ---------------------------------------------------------------------------------------------

  /** The multiplexed connection: anything may be next. */
  class Connection<S> {
    ghost var polled: seq<Arrival<S>>

    constructor ()
      ensures polled == []
    {
      polled := [];
    }

    method PollNextInbound() returns (r: Arrival<S>)
      modifies this
      ensures polled == old(polled) + [r]
    {
      r := *;
      polled := polled + [r];
    }
  }

  class Muxer<S> {
    const variant: Variant
    const connection: Connection<S>
    var inboundStreamBuffer: seq<S>
    var inboundStreamWaker: Option<Waker>
    ghost var calls: seq<Call<S>>
    ghost var delivered: seq<S>
    ghost var errors: nat
    ghost var woken: seq<Waker>

    function View(): (q: Queue<S>)
      reads this
    {
      Queue(inboundStreamBuffer, inboundStreamWaker)
    }

    /** The fields are those of the run of all calls so far. */
    ghost predicate Valid()
      reads this
    {
      Run(variant, calls) == Log(View(), delivered, errors, woken)
    }

    constructor (variant: Variant, connection: Connection<S>)
      ensures Valid() && calls == [] && this.variant == variant && this.connection == connection
      ensures View() == Queue([], None) && delivered == [] && errors == 0
    {
      this.variant := variant;
      this.connection := connection;
      inboundStreamBuffer := [];
      inboundStreamWaker := None;
      calls, delivered, errors, woken := [], [], 0, [];
    }

    /** Adds a call to the record. */
    ghost method Record(call: Call<S>, before: Queue<S>, result: Result<S>, wakes: seq<Waker>)
      requires Run(variant, calls) == Log(before, delivered, errors, woken)
      requires Step(variant, before, call) == Stepped(View(), result, wakes)
      modifies this`calls, this`delivered, this`errors, this`woken
      ensures Valid() && calls == old(calls) + [call]
      ensures delivered == old(delivered) + (if result.Delivered? then [result.stream] else [])
      ensures errors == old(errors) + (if result.Error? then 1 else 0) && woken == old(woken) + wakes
    {
      assert (calls + [call])[..|calls|] == calls;
      calls := calls + [call];
      delivered := delivered + (if result.Delivered? then [result.stream] else []);
      errors := errors + (if result.Error? then 1 else 0);
      woken := woken + wakes;
    }

    /**
     `poll_inbound`: the stream that has waited longest; with none, muxing takes what the connection has,
     a failure included; otherwise the caller waits.
     */
    method PollInbound(waker: Waker) returns (r: Result<S>, ghost call: Call<S>)
      requires Valid()
      modifies this, connection
      ensures Valid() && calls == old(calls) + [call] && call.PollInbound? && call.waker == waker
      ensures r ==
        if old(inboundStreamBuffer) != [] then Delivered(old(inboundStreamBuffer)[0])
        else if variant.Yamux? then Pending
        else match call.arrival
          case Stream(stream) => Delivered(stream)
          case ConnectionFailed => Error
          case NoStream => Pending
      ensures inboundStreamBuffer == if old(inboundStreamBuffer) != [] then old(inboundStreamBuffer)[1..] else []
      ensures r == Step(variant, old(View()), call).result
      ensures delivered == old(delivered) + (if r.Delivered? then [r.stream] else []) && woken == old(woken)
      ensures inboundStreamWaker == if r.Pending? then Some(waker) else old(inboundStreamWaker)
      ensures if variant.Muxing? && old(inboundStreamBuffer) == []
        then connection.polled == old(connection.polled) + [call.arrival]
        else connection.polled == old(connection.polled)
    {
      ghost var before := View();
      ghost var arrival: Arrival<S> := NoStream;
      if inboundStreamBuffer != [] {
        r := Delivered(inboundStreamBuffer[0]);
        inboundStreamBuffer := inboundStreamBuffer[1..];
      } else {
        r := Pending;
        if variant.Muxing? {
          var polled := connection.PollNextInbound();
          arrival := polled;
          match polled {
            case Stream(stream) => r := Delivered(stream);
            case ConnectionFailed => r := Error;
            case NoStream =>
          }
        }
        if r.Pending? {
          inboundStreamWaker := Some(waker);
        }
      }
      call := Call.PollInbound(waker, arrival);
      Record(call, before, r, []);
      assert woken == old(woken);
    }

    /**
     `poll`, called with `waker`. `wakes` are the wakers it wakes: a waiting `poll_inbound` when a stream
     is enqueued for it, and its own caller whenever it took a stream, enqueued or dropped. It fails
     exactly if the connection does.
     */
    method Poll(waker: Waker) returns (r: Result<S>, wakes: seq<Waker>, ghost call: Call<S>)
      requires Valid()
      modifies this, connection
      ensures Valid() && calls == old(calls) + [call] && call.Poll? && call.waker == waker
      ensures r == if call.arrival.ConnectionFailed? then Error else Pending
      ensures inboundStreamBuffer ==
        if call.arrival.Stream? && |old(inboundStreamBuffer)| < MAX_BUFFERED_INBOUND_STREAMS
        then old(inboundStreamBuffer) + [call.arrival.stream] else old(inboundStreamBuffer)
      ensures delivered == old(delivered) && connection.polled == old(connection.polled) + [call.arrival]
      ensures woken == old(woken) + wakes
      ensures if !call.arrival.Stream? then wakes == []
        else if |old(inboundStreamBuffer)| < MAX_BUFFERED_INBOUND_STREAMS && old(inboundStreamWaker).Some?
          then wakes == [old(inboundStreamWaker).value, waker] && inboundStreamWaker == None
        else wakes == [waker]
    {
      ghost var before := View();
      wakes := [];
      var arrival := connection.PollNextInbound();
      r := Pending;
      match arrival {
        case NoStream =>
        case ConnectionFailed => r := Error;
        case Stream(stream) =>
          if |inboundStreamBuffer| < MAX_BUFFERED_INBOUND_STREAMS {
            inboundStreamBuffer := inboundStreamBuffer + [stream];
            if inboundStreamWaker.Some? {
              wakes := [inboundStreamWaker.value];
              inboundStreamWaker := None;
            }
          }
          wakes := wakes + [waker];
      }
      call := Call.Poll(waker, arrival);
      Record(call, before, r, wakes);
    }
  }
}
