/** `queue_t` itself: the fields of `msgqueue.h`, updated in place.

  `MessageQueue` interleaves the calls; here each stretch of code that runs under the mutex
  is a method on the real fields, proved to do to them what the steps of `MessageQueue` say.
 */
module QueueStruct {
  import opened Bytes
  import opened MessageRing

  class Queue {
    const buffer: array2<Byte>
    var head: nat
    var tail: nat
    var count: int
    var full: nat
    var empty: nat
    var dropped: bool

    ghost predicate Valid()
      reads this
    {
      && 0 < buffer.Length0 && buffer.Length1 == MAX_MSG_LEN
      && head < buffer.Length0 && tail < buffer.Length0
    }

    ghost function Row(k: nat): Cell
      requires k < buffer.Length0 && buffer.Length1 == MAX_MSG_LEN
      reads buffer
    {
      seq(MAX_MSG_LEN, j requires 0 <= j < MAX_MSG_LEN reads buffer => buffer[k, j])
    }

    ghost function View(): Ring
      requires Valid()
      reads this, buffer
    {
      RingFields(seq(buffer.Length0, k requires 0 <= k < buffer.Length0 reads buffer => Row(k)), head, tail, count)
    }

    /** `mymsginit`. */
    constructor (size: nat)
      requires 0 < size
      ensures Valid() && fresh(buffer) && buffer.Length0 == size
      ensures head == 0 && tail == 0 && count == 0
      ensures full == 0 && empty == size && !dropped
    {
      buffer := new Byte[size, MAX_MSG_LEN];
      head, tail, count := 0, 0, 0;
      dropped := false;
      full, empty := 0, size;
    }

    /** The critical section of `mymsgput`. */
    method Put(msg: seq<Byte>) returns (ret: nat)
      requires Valid()
      modifies this`tail, this`count, buffer
      ensures Valid()
      ensures old(dropped) ==> ret == 0 && View() == old(View())
      ensures !old(dropped) ==> ret == |Kept(msg)| && View() == Enqueue(old(View()), msg)
    {
      if dropped {
        return 0;
      }
      var len := StrNLen(msg, MAX_MSG_LEN - 1);
      ghost var before := View();
      var row := tail;
      forall i | 0 <= i < len {
        buffer[row, i] := msg[i];
      }
      buffer[row, len] := 0;
      assert Row(row) == Store(before.cells[row], msg);
      ret := len;
      tail := (tail + 1) % buffer.Length0;
      count := count + 1;
      forall k | 0 <= k < buffer.Length0
        ensures View().cells[k] == before.cells[row := Store(before.cells[row], msg)][k]
      {
        assert View().cells[k] == Row(k);
        if k != row {
          assert Row(k) == before.cells[k];
        }
      }
      assert View().cells == before.cells[row := Store(before.cells[row], msg)];
    }

    /** The critical section of `mymsgget`. `buf` is the memory at the caller's pointer and
        `bufsize` the size the caller claims; `overrun` says that the copy and its NUL do not
        fit, after which the code's behaviour is undefined. A claim of at least one byte that is
        true is safe; at 0 the copy is not cut at all. */
    method Get(buf: array<Byte>, bufsize: nat) returns (ret: nat, overrun: bool)
      requires Valid() && bufsize < SIZE_T_RANGE
      modifies this`head, this`count, buf
      ensures Valid()
      ensures old(dropped) ==> ret == 0 && !overrun
      ensures old(dropped) || overrun ==> View() == old(View()) && buf[..] == old(buf[..])
      ensures !old(dropped) ==>
                var text := Front(old(View()), bufsize);
                && (overrun <==> |text| + 1 > buf.Length)
                && (!overrun ==>
                      && View() == Dequeue(old(View()))
                      && ret == |text| && buf[..] == text + [0] + old(buf[..])[ret + 1..])
      ensures 1 <= bufsize <= buf.Length ==> !overrun
      ensures bufsize == 0 && !old(dropped) ==>
                (overrun <==> |Kept(old(View()).cells[old(head)])| + 1 > buf.Length)
    {
      if dropped {
        return 0, false;
      }
      var row := head;
      var data := seq(MAX_MSG_LEN, j requires 0 <= j < MAX_MSG_LEN reads buffer => buffer[row, j]);
      assert data == View().cells[head];
      var len := StrNLen(data, MAX_MSG_LEN - 1);
      var copyLen := CopyLen(len, bufsize);
      CopyFits(len, bufsize);
      if copyLen + 1 > buf.Length {
        return 0, true;
      }
      forall i | 0 <= i < copyLen {
        buf[i] := data[i];
      }
      buf[copyLen] := 0;
      ret, overrun := copyLen, false;
      head := (head + 1) % buffer.Length0;
      count := count - 1;
      assert View().cells == old(View()).cells;
    }

    /** `mymsqdrop` with no other thread running: what its three loops add up to. */
    method Drop()
      requires Valid() && (dropped || empty <= buffer.Length0)
      modifies this`dropped, this`full, this`empty
      ensures Valid() && dropped && View() == old(View())
      ensures old(dropped) ==> full == old(full) && empty == old(empty)
      ensures !old(dropped) ==> empty == 2 * buffer.Length0 && full == 2 * old(full) + buffer.Length0
    {
      if dropped {
        return;
      }
      dropped := true;
      var toPostPut := buffer.Length0 - empty;
      for i := 0 to toPostPut
        invariant dropped && empty == old(empty) + i && full == old(full)
      {
        empty := empty + 1;
      }
      var toPostGet := full;
      for i := 0 to toPostGet
        invariant dropped && full == old(full) + i && empty == buffer.Length0
      {
        full := full + 1;
      }
      for i := 0 to buffer.Length0
        invariant dropped && full == 2 * old(full) + i && empty == buffer.Length0 + i
      {
        full := full + 1;
        empty := empty + 1;
      }
      assert View().cells == old(View()).cells;
    }
  }
}
