// The message queue's shared memory and the code that runs under its mutex (irc.c):
// the producer's append, the consumer's removal of the head, and the window shift.

module MessageQueue {
  import opened CString
  import opened Throttle

  const MAX_MSG_COUNT := 9

  datatype Msg = Msg(text: Text, target: Text, srv: nat, drop: bool)

  /** Sent unless throttled and droppable. */
  predicate IsSent(m: Msg, throttled: bool) {
    !throttled || !m.drop
  }

  /** msg_list, as long as its last allocation, and msg_count. */
  datatype Memory = Memory(list: seq<Msg>, count: int)

  predicate Tidy(mem: Memory) {
    |mem.list| == mem.count
  }

  function Appended(mem: Memory, m: Msg): (r: Memory)
    requires Tidy(mem)
    ensures Tidy(r)
  {
    Memory(mem.list + [m], mem.count + 1)
  }

  function HeadRemoved(mem: Memory): (r: Memory)
    requires Tidy(mem) && mem.list != []
    ensures Tidy(r)
  {
    Memory(mem.list[1..], mem.count - 1)
  }

  class Queue {
    var msgList: array<Msg>
    var msgCount: int
    // The sixth slot is the word behind the five-slot array: the shift loop starts there.
    const times: array<nat>

    ghost function Mem(): Memory
      reads this, msgList
    {
      Memory(msgList[..], msgCount)
    }

    ghost predicate Valid()
      reads this, msgList
    {
      Tidy(Mem()) && times.Length == HISTORY_SIZE + 1
    }

    constructor ()
      ensures Valid() && Mem() == Memory([], 0) && times[..] == [0, 0, 0, 0, 0, 0]
      ensures fresh(msgList) && fresh(times)
    {
      msgList, msgCount := new Msg[0], 0;
      times := new nat[HISTORY_SIZE + 1](_ => 0);
    }

    /** The producer's critical section: the list grows by one. */
    method Append(m: Msg)
      requires Valid()
      modifies this
      ensures Valid() && fresh(msgList)
      ensures Mem() == Appended(old(Mem()), m)
    {
      var n := msgList.Length;
      var grown := new Msg[n + 1](i requires 0 <= i < n + 1 reads this, msgList
        requires n == msgList.Length => if i < n then msgList[i] else m);
      msgList := grown;
      msgCount := msgCount + 1;
    }

    /**
     * One turn of the consumer, entered holding the mutex with a message queued: decide,
     * send or drop, and move every other message up by one.
     */
    method ProcessHead(now: nat) returns (head: Msg, sent: bool)
      requires Valid() && Mem().list != []
      modifies this, msgList
      ensures Valid() && fresh(msgList)
      ensures head == old(Mem()).list[0] && Mem() == HeadRemoved(old(Mem()))
      ensures sent == IsSent(head, Throttled(now, times[..HISTORY_SIZE]))
      ensures !sent <==>
                head.drop && 5 * now - (times[0] + times[1] + times[2] + times[3] + times[4]) <= 1500000
    {
      var average := 0;
      var i := 0;
      while i < HISTORY_SIZE
        invariant 0 <= i <= HISTORY_SIZE
        invariant average + Sum(times[i..HISTORY_SIZE]) == Sum(times[..HISTORY_SIZE])
      {
        assert times[i..HISTORY_SIZE][1..] == times[i + 1..HISTORY_SIZE];
        average := average + times[i];
        i := i + 1;
      }
      SumOfWindow(times[..HISTORY_SIZE]);
      average := average / HISTORY_SIZE;

      head := msgList[0];
      if now - average <= LIMIT {
        sent := !head.drop;
      } else {
        sent := true;
      }

      msgCount := msgCount - 1;
      i := 0;
      while i < msgCount
        invariant msgList == old(msgList) && msgCount == old(msgCount) - 1
        invariant 0 <= i <= msgCount
        invariant forall k :: 0 <= k < i ==> msgList[k] == old(msgList[k + 1])
        invariant forall k :: i <= k < msgList.Length ==> msgList[k] == old(msgList[k])
      {
        msgList[i] := msgList[i + 1];
        i := i + 1;
      }
      var n := msgCount;
      var shrunk := new Msg[n](k requires 0 <= k < n reads this, msgList
        requires n <= msgList.Length => msgList[k]);
      msgList := shrunk;
    }

    /** The window after a turn: the loop shifts from one slot too high. */
    method RecordTime(now: nat)
      requires times.Length == HISTORY_SIZE + 1
      modifies times
      ensures times[..HISTORY_SIZE] == Shift(old(times[..HISTORY_SIZE]), now)
      ensures times[HISTORY_SIZE] == old(times[HISTORY_SIZE - 1])
    {
      var i := HISTORY_SIZE;
      while i > 0
        invariant 0 <= i <= HISTORY_SIZE
        invariant forall k :: 0 <= k <= i ==> times[k] == old(times[k])
        invariant forall k :: i < k <= HISTORY_SIZE ==> times[k] == old(times[k - 1])
      {
        times[i] := times[i - 1];
        i := i - 1;
      }
      times[0] := now;
    }
  }
}
