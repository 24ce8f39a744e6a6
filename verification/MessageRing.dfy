/** The ring of fixed-size message cells behind the message queue, byte by byte.

  A cell is `char data[MAX_MSG_LEN]`. A C string is the bytes of a memory region up to its
  first NUL; a region without one is read up to its end.
 */
module MessageRing {
  import opened Bytes

  const MAX_MSG_LEN: nat := 81

  /** One more than the largest `size_t`, where `bufsize - 1` wraps. */
  const SIZE_T_RANGE: nat := 0x1_0000_0000_0000_0000

  /** `strnlen(s, n)`. */
  function StrNLen(s: seq<Byte>, n: nat): (len: nat)
    ensures len <= n && len <= |s|
    ensures forall i :: 0 <= i < len ==> s[i] != 0
    ensures len < n && len < |s| ==> s[len] == 0
  {
    if n == 0 || s == [] || s[0] == 0 then 0 else 1 + StrNLen(s[1..], n - 1)
  }

  /** What a put keeps of a message: its first 80 bytes, or all of it when it is shorter. */
  function Kept(msg: seq<Byte>): seq<Byte>
  {
    msg[..StrNLen(msg, MAX_MSG_LEN - 1)]
  }

  type Cell = c: seq<Byte> | |c| == MAX_MSG_LEN
    witness seq(MAX_MSG_LEN, i => 0)

  /** The cell after `strncpy(data, msg, len); data[len] = '\0'`. Bytes past the NUL stay. */
  function Store(cell: Cell, msg: seq<Byte>): Cell
  {
    var len := StrNLen(msg, MAX_MSG_LEN - 1);
    msg[..len] + [0] + cell[len + 1..]
  }

  /** `len < bufsize - 1 ? len : bufsize - 1`, on `size_t`. */
  function CopyLen(len: nat, bufsize: nat): (n: nat)
    ensures n <= len
  {
    var room := (bufsize - 1) % SIZE_T_RANGE;
    if len < room then len else room
  }

  /** Two strings of non-NUL bytes that fit below the bound and end there are equal to what
      strnlen measures. */
  lemma {:induction false} StrNLenUnique(s: seq<Byte>, n: nat, len: nat)
    requires len <= n && len < |s|
    requires forall i :: 0 <= i < len ==> s[i] != 0
    requires len < n ==> s[len] == 0
    ensures StrNLen(s, n) == len
  {
    if len > 0 {
      StrNLenUnique(s[1..], n - 1, len - 1);
    }
  }

  /** The byte-level round trip: whatever the cell held before, reading it after a put gives
      the kept part of the message. */
  lemma StoreThenRead(cell: Cell, msg: seq<Byte>)
    ensures Kept(Store(cell, msg)) == Kept(msg)
  {
    var len := StrNLen(msg, MAX_MSG_LEN - 1);
    StrNLenUnique(Store(cell, msg), MAX_MSG_LEN - 1, len);
  }

  /** The reader's copy and its NUL fit in a buffer of `bufsize` bytes exactly when that
      buffer has at least one byte: at 0, `bufsize - 1` wraps and nothing is cut. */
  lemma CopyFits(len: nat, bufsize: nat)
    requires len < MAX_MSG_LEN && bufsize < SIZE_T_RANGE
    ensures CopyLen(len, bufsize) + 1 <= bufsize <==> bufsize >= 1
    ensures CopyLen(len, bufsize) == if len < bufsize || bufsize == 0 then len else bufsize - 1
  {
    if bufsize == 0 {
      assert (-1) % SIZE_T_RANGE == SIZE_T_RANGE - 1;
    } else {
      assert (bufsize - 1) % SIZE_T_RANGE == bufsize - 1;
    }
  }

  datatype RingFields = RingFields(cells: seq<Cell>, head: nat, tail: nat, count: int)

  /** `buffer`, `head`, `tail` and `count` of `queue_t`. Nothing here keeps `count` in range:
      neither `mymsgput` nor `mymsgget` looks at it. */
  type Ring = r: RingFields | r.head < |r.cells| && r.tail < |r.cells|
    ghost witness RingFields([seq(MAX_MSG_LEN, i => 0)], 0, 0, 0)

  function Capacity(r: Ring): nat { |r.cells| }

  /** The body of `mymsgput`. */
  function Enqueue(r: Ring, msg: seq<Byte>): Ring
  {
    r.(cells := r.cells[r.tail := Store(r.cells[r.tail], msg)],
       tail := (r.tail + 1) % |r.cells|,
       count := r.count + 1)
  }

  /** The body of `mymsgget`: the ring it leaves and the bytes it copies out. */
  function Dequeue(r: Ring): Ring
  {
    r.(head := (r.head + 1) % |r.cells|, count := r.count - 1)
  }

  function Front(r: Ring, bufsize: nat): seq<Byte>
  {
    var text := Kept(r.cells[r.head]);
    text[..CopyLen(|text|, bufsize)]
  }

  /** The place of the `k`-th message held. */
  function Place(r: Ring, k: nat): (p: nat)
    ensures p < |r.cells|
  {
    (r.head + k) % |r.cells|
  }

  /** The ring holds the messages `q`, oldest first. */
  ghost predicate Holds(r: Ring, q: seq<seq<Byte>>)
  {
    && |q| == r.count <= |r.cells|
    && r.tail == Place(r, r.count)
    && forall k :: 0 <= k < |q| ==> Kept(r.cells[Place(r, k)]) == Kept(q[k])
  }

  lemma WrapSmall(x: nat, m: nat)
    requires 0 < m && x < 2 * m
    ensures x % m == if x < m then x else x - m
  {
    if x >= m {
      assert x == m * 1 + (x - m);
    }
  }

  lemma PlacesDiffer(r: Ring, k: nat, l: nat)
    requires k < l < |r.cells|
    ensures Place(r, k) != Place(r, l)
  {
    WrapSmall(r.head + k, |r.cells|);
    WrapSmall(r.head + l, |r.cells|);
  }

  lemma NextPlace(r: Ring, k: nat)
    requires k < |r.cells|
    ensures (Place(r, k) + 1) % |r.cells| == Place(r, k + 1)
  {
    var n := |r.cells|;
    WrapSmall(r.head + k, n);
    WrapSmall(r.head + k + 1, n);
    WrapSmall(Place(r, k) + 1, n);
  }

  /** Taking the oldest message moves the places of the others down by one. */
  lemma PlacesMove(r: Ring, k: nat)
    requires k < |r.cells|
    ensures Place(Dequeue(r), k) == Place(r, k + 1)
  {
    var n := |r.cells|;
    WrapSmall(r.head + 1, n);
    WrapSmall(Dequeue(r).head + k, n);
    WrapSmall(r.head + k + 1, n);
  }

  /** A ring with room takes a message at the back ... */
  lemma EnqueueAppends(r: Ring, q: seq<seq<Byte>>, msg: seq<Byte>)
    requires Holds(r, q) && r.count < |r.cells|
    ensures Holds(Enqueue(r, msg), q + [msg])
  {
    var r' := Enqueue(r, msg);
    StoreThenRead(r.cells[r.tail], msg);
    NextPlace(r, r.count);
    forall k | 0 <= k < |q| + 1
      ensures Kept(r'.cells[Place(r', k)]) == Kept((q + [msg])[k])
    {
      assert Place(r', k) == Place(r, k);
      if k < |q| {
        PlacesDiffer(r, k, r.count);
      }
    }
  }

  /** ... and a ring that is not empty gives up the one at the front. */
  lemma DequeueDropsFirst(r: Ring, q: seq<seq<Byte>>, bufsize: nat)
    requires Holds(r, q) && r.count > 0
    ensures Holds(Dequeue(r), q[1..])
    ensures Front(r, bufsize) == Kept(q[0])[..CopyLen(|Kept(q[0])|, bufsize)]
  {
    var r' := Dequeue(r);
    WrapSmall(r.head, |r.cells|);
    assert Place(r, 0) == r.head;
    PlacesMove(r, r.count - 1);
    forall k | 0 <= k < |q[1..]|
      ensures Kept(r'.cells[Place(r', k)]) == Kept(q[1..][k])
    {
      PlacesMove(r, k);
      assert Kept(r.cells[Place(r, k + 1)]) == Kept(q[k + 1]);
    }
  }
}
