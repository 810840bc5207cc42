/** `RwStreamSink`: a stream and sink of byte items used as a byte stream. */
module MessageStream {
  import opened Prelude
  import opened Frames
  import opened Messages

  datatype ItemPoll = ItemPending | Item(bytes: seq<Byte>) | ItemFailed(error: IoError) | Ended

  datatype SinkPoll = SinkPending | SinkOk | SinkFailed(error: IoError)

  /** A call on the sink half, with its outcome. */
  datatype ItemCall = ReadyPolled(outcome: SinkPoll) | SendStarted(item: seq<Byte>, outcome: SinkPoll)

  /**
   Any stream and sink of items. `queue` holds the items that have arrived, to which a peer may append
   at any time; after them the stream waits, fails or ends. The logs hold what the calls came to.
   */
  class ItemStream {
    var queue: seq<seq<Byte>>
    ghost var polls: seq<ItemPoll>
    ghost var taken: seq<seq<Byte>>
    ghost var calls: seq<ItemCall>
    ghost var sent: seq<seq<Byte>>

    constructor (queue: seq<seq<Byte>>)
      ensures this.queue == queue && polls == [] && taken == [] && calls == [] && sent == []
    {
      this.queue := queue;
      polls, taken, calls, sent := [], [], [], [];
    }

    method TryPollNext() returns (r: ItemPoll)
      modifies this`queue, this`taken, this`polls
      ensures polls == old(polls) + [r]
      ensures r.Item? <==> old(queue) != []
      ensures r.Item? ==> r.bytes == old(queue)[0] && queue == old(queue)[1..] && taken == old(taken) + [r.bytes]
      ensures !r.Item? ==> queue == [] && taken == old(taken)
    {
      if queue != [] {
        r := Item(queue[0]);
        taken := taken + [queue[0]];
        queue := queue[1..];
      } else {
        r := *;
        if !r.ItemFailed? && !r.Ended? {
          r := ItemPending;
        }
      }
      polls := polls + [r];
    }

    method PollReady() returns (r: SinkPoll)
      modifies this`calls
      ensures calls == old(calls) + [ReadyPolled(r)]
    {
      r := *;
      calls := calls + [ReadyPolled(r)];
    }

    method StartSend(item: seq<Byte>) returns (r: SinkPoll)
      modifies this`calls, this`sent
      ensures calls == old(calls) + [SendStarted(item, r)] && !r.SinkPending?
      ensures sent == if r.SinkOk? then old(sent) + [item] else old(sent)
    {
      r := *;
      if r.SinkOk? {
        sent := sent + [item];
      } else if !r.SinkFailed? {
        r := SinkFailed(OtherIo);
      }
      calls := calls + [SendStarted(item, r)];
    }
  }
}

module RwStreamSinks {
  import opened Prelude
  import opened Frames
  import opened Messages
  import opened MessageStream
  import opened FrameDecoder

  datatype Cursor = Cursor(item: seq<Byte>, position: nat)

  datatype IoPoll = NotReady | Ready(n: nat) | IoFailed(error: IoError)

  /** One read from items, the first perhaps begun: what it delivers and what is left. */
  function SinkRead(unread: seq<seq<Byte>>, want: nat): (r: Option<(seq<Byte>, seq<seq<Byte>>)>)
    ensures r.Some? ==> |r.value.0| <= want && r.value.1 != [] && Flatten(unread) == r.value.0 + Flatten(r.value.1)
    ensures r.Some? && want > 0 ==> r.value.0 != []
    ensures r.None? ==> Flatten(unread) == []
  {
    if unread == [] then None
    else if unread[0] == [] then
      FlattenFront(unread);
      SinkRead(unread[1..], want)
    else
      var n := if want <= |unread[0]| then want else |unread[0]|;
      var rest := [unread[0][n..]] + unread[1..];
      FlattenFront(unread);
      FlattenFront(rest);
      assert unread[0] == unread[0][..n] + unread[0][n..];
      assert rest[1..] == unread[1..];
      Assoc(unread[0][..n], unread[0][n..], Flatten(unread[1..]));
      Some((unread[0][..n], rest))
  }

  lemma FirstItemRead(unread: seq<seq<Byte>>, want: nat)
    requires unread != [] && unread[0] != []
    ensures var n := if want <= |unread[0]| then want else |unread[0]|;
      SinkRead(unread, want) == Some((unread[0][..n], [unread[0][n..]] + unread[1..]))
  {
  }

  lemma NothingUnread(unread: seq<seq<Byte>>, want: nat)
    requires |unread| == 1 && unread[0] == []
    ensures SinkRead(unread, want) == None
  {
    assert SinkRead(unread[1..], want) == None;
  }

  lemma FlattenFront(parts: seq<seq<Byte>>)
    requires parts != []
    ensures Flatten(parts) == parts[0] + Flatten(parts[1..])
  {
    assert parts == [parts[0]] + parts[1..];
    FlattenConcat([parts[0]], parts[1..]);
    var one := [parts[0]];
    assert one[..0] == [];
    assert Flatten(one) == Flatten(one[..0]) + one[0];
  }

  /** The polls of the inner stream in one call: every one but the last brought an item. */
  predicate ItemsFirst(polls: seq<ItemPoll>)
  {
    forall i | 0 <= i < |polls| - 1 :: polls[i].Item?
  }

  /** What a call returns if its last poll of the inner stream brought no item. */
  function Stopped(polls: seq<ItemPoll>): (r: Option<IoPoll>)
  {
    if polls == [] then None
    else
      match polls[|polls| - 1]
      case Item(_) => None
      case ItemPending => Some(NotReady)
      case ItemFailed(error) => Some(IoFailed(error))
      case Ended => Some(Ready(0))
  }

  class RwStreamSink {
    const inner: ItemStream
    var currentItem: Option<Cursor>
    ghost var delivered: seq<Byte>

    function Ahead(): (bytes: seq<Byte>)
      reads this
    {
      match currentItem
      case Some(Cursor(item, position)) => if position <= |item| then item[position..] else []
      case None => []
    }

    /** A faithful byte pipe: what was delivered, then the rest of the item, is what the items held. */
    ghost predicate Valid()
      reads this, inner
    {
      && (currentItem.Some? ==> currentItem.value.position <= |currentItem.value.item|)
      && delivered + Ahead() == Flatten(inner.taken)
    }

    function Unread(): (items: seq<seq<Byte>>)
      reads this, inner
    {
      [Ahead()] + inner.queue
    }

    constructor (inner: ItemStream)
      requires inner.taken == []
      ensures Valid() && this.inner == inner && delivered == [] && Unread() == [[]] + inner.queue
    {
      this.inner := inner;
      currentItem := None;
      delivered := [];
    }

    /** Takes items until one has bytes; None when the current item has some. */
    method GrabItem(ghost want: nat) returns (r: Option<IoPoll>, ghost polls: seq<ItemPoll>)
      requires Valid()
      modifies this`currentItem, inner`queue, inner`taken, inner`polls
      ensures Valid() && (r.None? <==> Ahead() != [])
      ensures inner.polls == old(inner.polls) + polls && ItemsFirst(polls) && r == Stopped(polls)
      ensures SinkRead(Unread(), want) == SinkRead(old(Unread()), want)
      ensures r.Some? ==> inner.queue == []
    {
      hide Flatten;
      polls := [];
      while Ahead() == []
        invariant Valid() && SinkRead(Unread(), want) == SinkRead(old(Unread()), want)
        invariant inner.polls == old(inner.polls) + polls
        invariant forall poll | poll in polls :: poll.Item?
        decreases |inner.queue|
      {
        ghost var queue, taken := inner.queue, inner.taken;
        assert Unread()[1..] == queue && Unread()[0] == [];
        assert SinkRead(Unread(), want) == SinkRead(queue, want);
        assert delivered + [] == delivered;
        var polled := inner.TryPollNext();
        polls := polls + [polled];
        match polled {
          case Item(item) =>
            FlattenAppend(taken, item);
            currentItem := Some(Cursor(item, 0));
            assert Unread() == queue;
          case ItemFailed(error) => return Some(IoFailed(error)), polls;
          case Ended => return Some(Ready(0)), polls;
          case ItemPending => return Some(NotReady), polls;
        }
      }
      r := None;
    }

    /** Copies from the current item. */
    method CopyOut(buf: array<Byte>) returns (n: nat)
      requires Valid() && Ahead() != []
      modifies this, buf
      ensures Valid() && n <= buf.Length && (n == 0 ==> buf.Length == 0)
      ensures delivered == old(delivered) + buf[..n] && buf[n..] == old(buf[..])[n..]
      ensures SinkRead(old(Unread()), buf.Length) == Some((buf[..n], Unread()))
    {
      hide Flatten, SinkRead;
      ghost var unread, ahead := Unread(), Ahead();
      FirstItemRead(unread, buf.Length);
      var item, position := currentItem.value.item, currentItem.value.position;
      n := if buf.Length <= |item| - position then buf.Length else |item| - position;
      forall k | 0 <= k < n {
        buf[k] := item[position + k];
      }
      currentItem := Some(Cursor(item, position + n));
      assert buf[..n] == ahead[..n];
      delivered := delivered + ahead[..n];
      assert Ahead() == ahead[n..];
      assert unread[1..] == inner.queue;
      assert ahead == ahead[..n] + ahead[n..];
      Assoc(old(delivered), ahead[..n], ahead[n..]);
    }

    /**
     `poll_read`: fills the front of `buf` from the first item that is not used up. Whatever else it
     returns, end of file included, is what the inner stream's last poll came to.
     */
    method PollRead(buf: array<Byte>) returns (r: IoPoll, ghost polls: seq<ItemPoll>)
      requires Valid()
      modifies this, inner`queue, inner`taken, inner`polls, buf
      ensures Valid()
      ensures inner.polls == old(inner.polls) + polls && ItemsFirst(polls)
      ensures match Stopped(polls)
        case None =>
          && r.Ready? && r.n <= buf.Length
          && SinkRead(old(Unread()), buf.Length) == Some((buf[..r.n], Unread()))
        case Some(stopped) => r == stopped && SinkRead(old(Unread()), buf.Length) == None
      ensures var n := if r.Ready? then r.n else 0;
        n <= buf.Length && delivered == old(delivered) + buf[..n] && buf[n..] == old(buf[..])[n..]
      ensures r == Ready(0) && buf.Length > 0 ==> polls != [] && polls[|polls| - 1].Ended?
    {
      hide Flatten, SinkRead;
      var blocked;
      blocked, polls := GrabItem(buf.Length);
      if blocked.Some? {
        NothingUnread(Unread(), buf.Length);
        return blocked.value, polls;
      }
      var n := CopyOut(buf);
      return Ready(n), polls;
    }

    /** `poll_write`: the whole buffer is sent as one item, or nothing is and the sink is why. */
    method PollWrite(buf: seq<Byte>) returns (r: IoPoll)
      requires Valid()
      modifies inner`sent, inner`calls
      ensures Valid()
      ensures inner.sent == if r.Ready? then old(inner.sent) + [buf] else old(inner.sent)
      ensures match r
        case Ready(n) =>
          n == |buf| && inner.calls == old(inner.calls) + [ReadyPolled(SinkOk), SendStarted(buf, SinkOk)]
        case NotReady => inner.calls == old(inner.calls) + [ReadyPolled(SinkPending)]
        case IoFailed(error) =>
          || inner.calls == old(inner.calls) + [ReadyPolled(SinkFailed(error))]
          || inner.calls == old(inner.calls) + [ReadyPolled(SinkOk), SendStarted(buf, SinkFailed(error))]
    {
      var ready := inner.PollReady();
      if ready.SinkPending? { return NotReady; }
      if ready.SinkFailed? { return IoFailed(ready.error); }
      var sent := inner.StartSend(buf);
      if sent.SinkFailed? { return IoFailed(sent.error); }
      return Ready(|buf|);
    }
  }
}
