/** The ring between the Bluetooth receiver and the reader of the character device. */
module BtRing {
  import opened Bytes

  // QUEUE_SIZE is 500.

  class Ring {
    const queue: array<seq<u8>>
    var front: nat
    var rear: nat

    ghost var accepted: seq<seq<u8>>   // frames taken in since the ring was last cleared
    ghost var returned: seq<u8>        // bytes handed to the reader since then

    /** The queued frames, oldest first; the first may be the remainder of a frame. */
    ghost function Contents(): seq<seq<u8>>
      requires queue.Length == 500 && front < 500 && rear < 500
      reads `front, `rear, queue
    {
      if front <= rear then queue[front..rear] else queue[front..] + queue[..rear]
    }

    /** Lossless: what the reader got, followed by what is queued, is the accepted frames end to end. */
    ghost predicate Valid()
      reads this, queue
    {
      && queue.Length == 500 && front < 500 && rear < 500
      && returned + Flatten(Contents()) == Flatten(accepted)
    }

    constructor ()
      ensures Valid() && fresh(queue) && Contents() == [] && accepted == [] && returned == []
    {
      queue := new seq<u8>[500](_ => []);
      front, rear := 0, 0;
      accepted, returned := [], [];
    }

    /** The indices and the array of an enqueue. */
    method Push(frame: seq<u8>) returns (ret: int)
      requires queue.Length == 500 && front < 500 && rear < 500
      modifies `rear, queue
      ensures rear < 500
      ensures ret == if |old(Contents())| == 499 then -1 else 0
      ensures Contents() == if ret == 0 then old(Contents()) + [frame] else old(Contents())
      ensures |Contents()| <= 499
    {
      NextIndex(rear);
      if front == (rear + 1) % 500 {
        return -1;
      }
      ghost var before := Contents();
      queue[rear] := frame;
      rear := rear + 1;
      rear := rear % 500;
      assert Contents() == before + [frame];
      return 0;
    }

    /** A ring that holds 499 frames is full and drops the newcomer. */
    method Enqueue(frame: seq<u8>) returns (ret: int)
      requires Valid()
      modifies this, queue
      ensures Valid() && |Contents()| <= 499
      ensures ret == if |old(Contents())| == 499 then -1 else 0
      ensures Contents() == if ret == 0 then old(Contents()) + [frame] else old(Contents())
      ensures accepted == if ret == 0 then old(accepted) + [frame] else old(accepted)
      ensures returned == old(returned)
    {
      ret := Push(frame);
      if ret == 0 {
        AcceptOne(returned, old(Contents()), accepted, frame);
        accepted := accepted + [frame];
      }
    }

    /** Takes the oldest frame whole if it fits into `deqLen`; otherwise leaves its tail queued and returns a copy. */
    method DequeueTry(deqLen: nat) returns (skb: Option<seq<u8>>)
      requires Valid()
      modifies `front, queue
      ensures front < 500
      ensures old(Contents()) == [] ==> skb == None && Contents() == []
      ensures old(Contents()) != [] ==>
                skb == Some(old(Contents())[0]) && Contents() == Left(old(Contents()), deqLen)
    {
      if front == rear {
        return None;
      }
      var head := queue[front];
      if deqLen >= |head| {
        Advance();
      } else {
        Shorten(head[deqLen..]);
      }
      return Some(head);
    }

    method Advance()
      requires queue.Length == 500 && front < 500 && rear < 500 && front != rear
      modifies `front
      ensures front < 500 && Contents() == old(Contents())[1..]
    {
      NextIndex(front);
      front := front + 1;
      front := front % 500;
    }

    method Shorten(tail: seq<u8>)
      requires queue.Length == 500 && front < 500 && rear < 500 && front != rear
      modifies queue
      ensures Contents() == [tail] + old(Contents())[1..]
    {
      queue[front] := tail;
    }

    /** Dequeues for a read of `count` bytes and copies no more than that out. */
    method CopyOut(count: nat) returns (bytes: seq<u8>)
      requires Valid()
      modifies `front, queue
      ensures front < 500
      ensures if old(Contents()) == [] then bytes == [] && Contents() == []
              else bytes == Taken(old(Contents()), count) && Contents() == Left(old(Contents()), count)
    {
      bytes := [];
      var skb := DequeueTry(count);
      if skb.Some? {
        var len := if |skb.value| < count then |skb.value| else count;
        bytes := skb.value[..len];
      }
    }

    /** The dequeuing part of a read of `count` bytes, once the ring is known not to be empty. */
    method Read(count: nat) returns (bytes: seq<u8>)
      requires Valid()
      modifies this, queue
      ensures Valid() && accepted == old(accepted)
      ensures returned == old(returned) + bytes
      ensures |bytes| <= count
      ensures old(Contents()) != [] ==>
                var head := |old(Contents())[0]|; |bytes| == if head < count then head else count
      ensures count > 0 && old(Contents()) != [] && old(Contents())[0] != [] ==> bytes != []
    {
      bytes := [];
      if count == 0 {
        return;
      }
      ghost var before := Contents();
      bytes := CopyOut(count);
      if before != [] {
        ReturnSome(returned, before, count);
      } else {
        assert returned + [] == returned;
      }
      returned := returned + bytes;
    }

    method IsQueueEmpty() returns (empty: bool)
      requires Valid()
      ensures empty <==> Contents() == []
    {
      empty := front == rear;
    }

    /** The count is exact across the wrap-around. */
    method QueueCnt() returns (cnt: nat)
      requires Valid()
      ensures cnt == |Contents()| <= 499
    {
      if front == rear {
        cnt := 0;
      } else if rear > front {
        cnt := rear - front;
      } else {
        cnt := rear + 500 - front;
      }
    }

    /** Drops everything that is queued; the accounts start over. */
    method Clear()
      requires Valid()
      modifies this, queue
      ensures Valid() && Contents() == [] && accepted == [] && returned == []
    {
      while front != rear
        invariant front < 500 && rear == old(rear)
        decreases if front <= rear then rear - front else rear + 500 - front
      {
        NextIndex(front);
        queue[front] := [];
        front := front + 1;
        front := front % 500;
      }
      accepted, returned := [], [];
    }
  }

  lemma AcceptOne(returned: seq<u8>, contents: seq<seq<u8>>, accepted: seq<seq<u8>>, frame: seq<u8>)
    requires returned + Flatten(contents) == Flatten(accepted)
    ensures returned + Flatten(contents + [frame]) == Flatten(accepted + [frame])
  {
    FlattenSnoc(contents, frame);
    FlattenSnoc(accepted, frame);
    Assoc(returned, Flatten(contents), frame);
  }

  lemma NextIndex(i: nat)
    requires i < 500
    ensures (i + 1) % 500 == if i == 499 then 0 else i + 1
  {
  }

  /** The bytes a read of `n` takes off the first frame, and the frames it leaves. */
  function Taken(frames: seq<seq<u8>>, n: nat): seq<u8>
    requires frames != []
  {
    if n >= |frames[0]| then frames[0] else frames[0][..n]
  }

  function Left(frames: seq<seq<u8>>, n: nat): seq<seq<u8>>
    requires frames != []
  {
    if n >= |frames[0]| then frames[1..] else [frames[0][n..]] + frames[1..]
  }

  /** Taking up to `n` bytes off the first frame takes them off the front of the byte stream. */
  lemma CutFront(frames: seq<seq<u8>>, n: nat)
    requires frames != []
    ensures Flatten(frames) == Taken(frames, n) + Flatten(Left(frames, n))
  {
    var head, rest := frames[0], frames[1..];
    if n < |head| {
      var tail := head[n..];
      FlattenCons(tail, rest);
      assert head == head[..n] + tail;
      Assoc(head[..n], tail, Flatten(rest));
    }
  }

  lemma ReturnSome(returned: seq<u8>, frames: seq<seq<u8>>, n: nat)
    requires frames != []
    ensures returned + Flatten(frames) == (returned + Taken(frames, n)) + Flatten(Left(frames, n))
  {
    CutFront(frames, n);
    Assoc(returned, Taken(frames, n), Flatten(Left(frames, n)));
  }
}
