/** The priority frame queue shared by the Wi-Fi data path and the firmware loader. */
module FrameQueues {
  import opened Bytes

  const NUM_PRIO: nat := 8

  /** Number of packets in all classes together. */
  function Total<T>(lists: seq<seq<T>>): nat {
    if lists == [] then 0 else |lists[0]| + Total(lists[1..])
  }

  lemma {:induction false} TotalUpdate<T>(lists: seq<seq<T>>, p: nat, x: seq<T>)
    requires p < |lists|
    ensures Total(lists[p := x]) == Total(lists) - |lists[p]| + |x|
    ensures |lists[p]| <= Total(lists)
  {
    if p == 0 {
      assert lists[p := x][1..] == lists[1..];
    } else {
      assert lists[p := x][1..] == lists[1..][p - 1 := x];
      TotalUpdate(lists[1..], p - 1, x);
    }
  }

  lemma {:induction false} TotalSplit<T>(a: seq<seq<T>>, b: seq<seq<T>>)
    ensures Total(a + b) == Total(a) + Total(b)
  {
    if a == [] {
      assert a + b == b;
    } else {
      assert (a + b)[1..] == a[1..] + b;
      TotalSplit(a[1..], b);
    }
  }

  lemma {:induction false} TotalZero<T>(lists: seq<seq<T>>)
    ensures Total(lists) == 0 <==> forall p :: 0 <= p < |lists| ==> lists[p] == []
  {
    if lists != [] {
      TotalZero(lists[1..]);
      if forall p :: 0 <= p < |lists| ==> lists[p] == [] {
        assert lists[0] == [];
        forall p | 0 <= p < |lists| - 1 ensures lists[1..][p] == [] {
          assert lists[p + 1] == [];
        }
      } else if Total(lists) == 0 {
        forall p | 0 <= p < |lists| ensures lists[p] == [] {
          assert p > 0 ==> lists[p] == lists[1..][p - 1];
        }
      }
    }
  }

  lemma OnlyClass<T>(lists: seq<seq<T>>, p: nat)
    requires p < |lists| && |lists[p]| == Total(lists)
    ensures forall q :: 0 <= q < |lists| && q != p ==> lists[q] == []
  {
    TotalUpdate(lists, p, []);
    TotalZero(lists[p := []]);
    assert forall q :: 0 <= q < |lists| && q != p ==> lists[q] == lists[p := []][q];
  }

  lemma HighestNonEmpty<T>(lists: seq<seq<T>>, h: nat)
    requires Total(lists) > 0 && h < |lists| && (h == 0 || lists[h] != [])
    requires forall p :: h < p < |lists| ==> lists[p] == []
    ensures lists[h] != []
  {
    TotalZero(lists);
  }

  /** `p` is the non-empty class with the highest number. */
  ghost predicate IsHighest<T>(lists: seq<seq<T>>, p: int) {
    0 <= p < |lists| && lists[p] != [] && forall q :: p < q < |lists| ==> lists[q] == []
  }

  /** `p` is the non-empty class with the lowest number. */
  ghost predicate IsLowest<T>(lists: seq<seq<T>>, p: int) {
    0 <= p < |lists| && lists[p] != [] && forall q :: 0 <= q < p ==> lists[q] == []
  }

  class FrameQueue<T> {
    var hiPrio: nat
    var qmax: u16
    var qcnt: int
    const lists: array<seq<T>>

    /** The count is exact and nothing lies above the highest class. */
    ghost predicate Kept()
      reads this, lists
    {
      && lists.Length == NUM_PRIO
      && hiPrio < NUM_PRIO
      && (forall p :: hiPrio < p < NUM_PRIO ==> lists[p] == [])
      && qcnt == Total(lists[..])
    }

    ghost predicate Valid()
      reads this, lists
    {
      Kept() && qcnt <= qmax
    }

    constructor (maxLen: u16)
      ensures Valid() && fresh(lists)
      ensures qmax == maxLen && forall p :: 0 <= p < NUM_PRIO ==> lists[p] == []
    {
      hiPrio, qmax, qcnt := 0, maxLen, 0;
      lists := new seq<T>[NUM_PRIO](_ => []);
      new;
      TotalZero(lists[..]);
    }

    /** Appends to one class unless that class alone is full; a queue that as a whole is not full has no such class. */
    method Penq(prio: nat, pkt: T) returns (ok: bool)
      requires Kept() && prio < NUM_PRIO
      modifies this, lists
      ensures Kept() && qmax == old(qmax)
      ensures ok == (|old(lists[prio])| < qmax) && (old(qcnt) < qmax ==> ok)
      ensures qcnt == old(qcnt) + if ok then 1 else 0
      ensures lists[..] == if ok then old(lists[..])[prio := old(lists[prio]) + [pkt]] else old(lists[..])
    {
      TotalUpdate(lists[..], prio, lists[prio] + [pkt]);
      if |lists[prio]| >= qmax {
        return false;
      }
      lists[prio] := lists[prio] + [pkt];
      qcnt := qcnt + 1;
      if hiPrio < prio {
        hiPrio := prio;
      }
      assert lists[..] == old(lists[..])[prio := old(lists[prio]) + [pkt]];
      return true;
    }

    /** The driver's enqueue: the class limit never decides, a full queue refuses and changes nothing. */
    method Enqueue(pkt: T, prio: nat) returns (ok: bool)
      requires Valid() && prio < NUM_PRIO
      modifies this, lists
      ensures Valid() && qmax == old(qmax)
      ensures ok == (old(qcnt) < qmax)
      ensures qcnt == old(qcnt) + if ok then 1 else 0
      ensures lists[..] == if ok then old(lists[..])[prio := old(lists[prio]) + [pkt]] else old(lists[..])
    {
      TotalUpdate(lists[..], prio, lists[prio] + [pkt]);
      if |lists[prio]| < qmax && qcnt < qmax {
        var _ := Penq(prio, pkt);
        return true;
      } else {
        return false;
      }
    }

    /** The unlocked emptiness test sums only the classes up to hiPrio; that agrees with qcnt. */
    method IsEmpty() returns (empty: bool)
      requires Valid()
      ensures empty <==> qcnt == 0
      ensures empty <==> forall p :: 0 <= p < NUM_PRIO ==> lists[p] == []
    {
      var len, prio := 0, 0;
      while prio <= hiPrio
        invariant 0 <= prio <= hiPrio + 1
        invariant len == Total(lists[..prio])
      {
        assert lists[..prio + 1] == lists[..prio] + [lists[prio]];
        TotalSplit(lists[..prio], [lists[prio]]);
        len := len + |lists[prio]|;
        prio := prio + 1;
      }
      assert lists[..] == lists[..prio] + lists[prio..];
      TotalSplit(lists[..prio], lists[prio..]);
      TotalZero(lists[prio..]);
      TotalZero(lists[..]);
      assert forall p :: 0 <= p < NUM_PRIO ==> lists[p] == lists[..][p];
      empty := !(len > 0);
    }

    /** The newest packet of the lowest non-empty class. */
    method PeekTail() returns (pkt: Option<T>, prio: nat)
      requires Valid()
      ensures qcnt == 0 <==> pkt.None?
      ensures pkt.Some? ==> IsLowest(lists[..], prio) && pkt.value == lists[prio][|lists[prio]| - 1]
    {
      TotalZero(lists[..]);
      if qcnt == 0 {
        return None, 0;
      }
      prio := 0;
      while prio < hiPrio && |lists[prio]| == 0
        invariant prio <= hiPrio
        invariant forall q :: 0 <= q < prio ==> lists[q] == []
      {
        prio := prio + 1;
      }
      assert exists p :: 0 <= p < NUM_PRIO && lists[..][p] != [];
      pkt := Some(lists[prio][|lists[prio]| - 1]);
    }

    /** The oldest packet of the highest non-empty class leaves; everything else stays where it was. */
    method Dequeue() returns (pkt: Option<T>, ghost from: nat)
      requires Valid()
      modifies this, lists
      ensures Valid() && qmax == old(qmax)
      ensures old(qcnt) == 0 ==> pkt.None? && lists[..] == old(lists[..]) && qcnt == 0
      ensures old(qcnt) > 0 ==>
                && IsHighest(old(lists[..]), from)
                && pkt == Some(old(lists[from])[0])
                && lists[..] == old(lists[..])[from := old(lists[from])[1..]]
                && qcnt == old(qcnt) - 1
    {
      from := 0;
      if qcnt == 0 {
        return None, 0;
      }
      while hiPrio > 0 && |lists[hiPrio]| == 0
        invariant hiPrio < NUM_PRIO
        invariant forall p :: hiPrio < p < NUM_PRIO ==> lists[p] == []
        invariant lists[..] == old(lists[..])
        invariant qcnt == old(qcnt) && qmax == old(qmax)
        decreases hiPrio
      {
        hiPrio := hiPrio - 1;
      }
      var prio := hiPrio;
      HighestNonEmpty(lists[..], prio);
      from := prio;
      TotalUpdate(lists[..], prio, lists[prio][1..]);
      pkt := Some(lists[prio][0]);
      lists[prio] := lists[prio][1..];
      assert lists[..] == old(lists[..])[prio := old(lists[prio])[1..]];
      qcnt := qcnt - 1;
    }

    /** Takes the newest packet of one class. */
    method DequeueTail(prio: nat) returns (pkt: Option<T>)
      requires Valid() && prio < NUM_PRIO
      modifies this, lists
      ensures Valid() && qmax == old(qmax)
      ensures old(lists[prio]) == [] ==> pkt.None? && lists[..] == old(lists[..]) && qcnt == old(qcnt)
      ensures old(lists[prio]) != [] ==>
                var n := |old(lists[prio])| - 1;
                && pkt == Some(old(lists[prio])[n])
                && lists[..] == old(lists[..])[prio := old(lists[prio])[..n]]
                && qcnt == old(qcnt) - 1
    {
      if |lists[prio]| == 0 {
        return None;
      }
      var n := |lists[prio]| - 1;
      TotalUpdate(lists[..], prio, lists[prio][..n]);
      pkt := Some(lists[prio][n]);
      lists[prio] := lists[prio][..n];
      assert lists[..] == old(lists[..])[prio := old(lists[prio])[..n]];
      qcnt := qcnt - 1;
    }

    /** The loader's enqueue: a full queue admits a packet only in the place of the newest packet of the
        lowest non-empty class, and only if that class is strictly lower. The packet takes over that class. */
    method EnqueueEvicting(pkt: T, prio: nat) returns (ok: bool, evicted: Option<T>, ghost low: nat)
      requires Valid() && prio < NUM_PRIO
      modifies this, lists
      ensures Valid() && qmax == old(qmax)
      ensures old(qcnt) < qmax ==>
                && ok && evicted.None? && qcnt == old(qcnt) + 1
                && lists[..] == old(lists[..])[prio := old(lists[prio]) + [pkt]]
      ensures old(qcnt) == qmax ==> qcnt == qmax
      ensures old(qcnt) == qmax ==>
                (ok <==> exists q :: 0 <= q < prio && old(lists[..])[q] != [])
      ensures old(qcnt) == qmax && !ok ==> evicted.None? && lists[..] == old(lists[..])
      ensures old(qcnt) == qmax && ok ==>
                && IsLowest(old(lists[..]), low) && low < prio
                && var n := |old(lists[low])| - 1;
                && evicted == Some(old(lists[low])[n])
                && lists[..] == old(lists[..])[low := old(lists[low])[..n] + [pkt]]
    {
      low := 0;
      TotalUpdate(lists[..], prio, lists[prio] + [pkt]);
      if |lists[prio]| < qmax && qcnt < qmax {
        var _ := Penq(prio, pkt);
        return true, None, 0;
      }
      if |lists[prio]| >= qmax {
        OnlyClass(lists[..], prio);
        return false, None, 0;
      }
      var tail, prioModified := PeekTail();
      if prioModified > prio {
        return false, None, 0;
      }
      if prioModified == prio {
        return false, None, 0;
      }
      low := prioModified;
      ghost var before := lists[..];
      assert before[prioModified] != [];
      evicted := DequeueTail(prioModified);
      ok := Penq(prioModified, pkt);
      assert lists[..] == before[low := before[low][..|before[low]| - 1] + [pkt]];
    }

    /** Empties every class; hiPrio keeps its value. */
    method Flush()
      requires Valid()
      modifies this, lists
      ensures Valid() && qmax == old(qmax) && qcnt == 0
      ensures forall p :: 0 <= p < NUM_PRIO ==> lists[p] == []
    {
      var prio := 0;
      while prio < NUM_PRIO
        invariant 0 <= prio <= NUM_PRIO && Valid() && qmax == old(qmax)
        invariant forall p :: 0 <= p < prio ==> lists[p] == []
      {
        while |lists[prio]| != 0
          invariant Valid() && qmax == old(qmax)
          invariant forall p :: 0 <= p < prio ==> lists[p] == []
          decreases |lists[prio]|
        {
          ghost var before := lists[..];
          TotalUpdate(before, prio, before[prio][1..]);
          lists[prio] := lists[prio][1..];
          assert lists[..] == before[prio := before[prio][1..]];
          qcnt := qcnt - 1;
        }
        prio := prio + 1;
      }
      TotalZero(lists[..]);
    }
  }
}
