/** `proxy.c`: the table of connections and the bytes in its buffers.

  What `accept`, `read` and `write` return is part of an event. The buffer of a slot is seen as
  the bytes in it; `received` and `sent` list what has been read and written since the slot
  was last taken.
 */
module ProxyTable {
  import opened Bytes
  import opened Runs

  datatype ConnState = Free | ReadingRequest | ConnectingRemote | Relaying | CachedResponse

  datatype Slot = Slot(clientFd: int, remoteFd: int, state: ConnState, data: seq<Byte>,
                       received: seq<Byte>, sent: seq<Byte>)

  const RELAY_ABOVE := 1024

  /** `bufSize` is BUF_SIZE, `|slots|` is MAX_CONNECTIONS. */
  datatype Table = Table(slots: seq<Slot>, maxFd: int, bufSize: nat)

  datatype ReadResult = Bytes(bytes: seq<Byte>) | EndOfFile | ReadWouldBlock | ReadError

  datatype WriteResult = Wrote(n: nat) | WriteWouldBlock | WriteError

  datatype Event =
    | Accept(fd: int, nonblocking: bool)
    | Read(index: nat, got: ReadResult)
    | Write(index: nat, put: WriteResult)
    | Close(index: nat)

  function FreeSlot(received: seq<Byte>, sent: seq<Byte>): Slot
  {
    Slot(-1, -1, Free, [], received, sent)
  }

  /** `init_connections`, with the listening descriptor open. */
  ghost predicate Init(t: Table)
  {
    && 1 <= t.bufSize
    && forall i :: 0 <= i < |t.slots| ==> t.slots[i] == FreeSlot([], [])
  }

  /** `find_free_slot`: the index of the first free slot, or the number of slots. */
  function FirstFree(slots: seq<Slot>): (i: nat)
    ensures i <= |slots|
    ensures i < |slots| ==> slots[i].state == Free
    ensures forall k :: 0 <= k < i ==> slots[k].state != Free
  {
    if slots == [] || slots[0].state == Free then 0 else 1 + FirstFree(slots[1..])
  }

  /** The system does not hand out a descriptor that is still open. */
  predicate InUse(slots: seq<Slot>, fd: int)
  {
    exists i :: 0 <= i < |slots| && slots[i].state != Free && slots[i].clientFd == fd
  }

  function Step(t: Table, e: Event): Option<Table>
  {
    match e
    case Accept(fd, nonblocking) => if InUse(t.slots, fd) then None else Some(Accepted(t, fd, nonblocking))
    case Read(index, got) =>
      if index >= |t.slots| || t.slots[index].state == Free || !CanRead(t, index, got) then None
      else Some(AfterRead(t, index, got))
    case Write(index, put) =>
      if index >= |t.slots| || t.slots[index].state == Free || !CanWrite(t, index, put) then None
      else Some(AfterWrite(t, index, put))
    case Close(index) =>
      if index >= |t.slots| || t.slots[index].state == Free then None else Some(Closed(t, index))
  }

  /** `accept_new_connection`, given what `accept` and `set_nonblocking` return. */
  function Accepted(t: Table, fd: int, nonblocking: bool): Table
  {
    var index := FirstFree(t.slots);
    if fd < 0 || !nonblocking || index == |t.slots| then t
    else
      t.(slots := t.slots[index := t.slots[index].(clientFd := fd, state := ReadingRequest, data := [],
                                                   received := [], sent := [])],
         maxFd := if fd > t.maxFd then fd else t.maxFd)
  }

  function Closed(t: Table, index: nat): Table
    requires index < |t.slots|
  {
    t.(slots := t.slots[index := FreeSlot(t.slots[index].received, t.slots[index].sent)])
  }

  /** `read` returns at most as many bytes as it was asked for, and at least one unless the
      file has ended; asked for none, it returns 0. */
  predicate CanRead(t: Table, index: nat, got: ReadResult)
    requires index < |t.slots|
  {
    got.Bytes? ==> 1 <= |got.bytes| <= t.bufSize - |t.slots[index].data| - 1
  }

  function AfterRead(t: Table, index: nat, got: ReadResult): Table
    requires index < |t.slots|
  {
    match got
    case Bytes(bytes) =>
      var slot := t.slots[index];
      var data := slot.data + bytes;
      var state := if slot.state == ReadingRequest && |data| > RELAY_ABOVE then Relaying else slot.state;
      t.(slots := t.slots[index := slot.(data := data, state := state, received := slot.received + bytes)])
    case EndOfFile => Closed(t, index)
    case ReadWouldBlock => t
    case ReadError => Closed(t, index)
  }

  predicate CanWrite(t: Table, index: nat, put: WriteResult)
    requires index < |t.slots|
  {
    put.Wrote? ==> put.n <= |t.slots[index].data|
  }

  /** The slot after the first `n` bytes of its buffer have gone out. */
  function Sent(slot: Slot, n: nat): Slot
    requires n <= |slot.data|
  {
    slot.(data := slot.data[n..], sent := slot.sent + slot.data[..n])
  }

  function AfterWrite(t: Table, index: nat, put: WriteResult): Table
    requires index < |t.slots| && CanWrite(t, index, put)
  {
    var slot := t.slots[index];
    if slot.data == [] then t
    else
      match put
      case Wrote(n) =>
        if n == 0 then t
        else
          var t' := t.(slots := t.slots[index := Sent(slot, n)]);
          if slot.state == CachedResponse && Sent(slot, n).data == [] then Closed(t', index) else t'
      case WriteWouldBlock => t
      case WriteError => Closed(t, index)
  }

  // ---------------------------------------------------------------- invariant

  ghost predicate SlotOk(t: Table, slot: Slot)
  {
    && |slot.data| <= t.bufSize - 1
    && (slot.state == Free <==> slot.clientFd == -1 && slot.remoteFd == -1)
    && slot.remoteFd == -1 && (slot.state == Free ==> slot.data == [])
    && (slot.state != Free ==> 0 <= slot.clientFd <= t.maxFd && slot.received == slot.sent + slot.data)
  }

  ghost predicate Inv(t: Table)
  {
    && 1 <= t.bufSize
    && (forall i :: 0 <= i < |t.slots| ==> SlotOk(t, t.slots[i]))
    && forall i, j :: 0 <= i < j < |t.slots| && t.slots[i].state != Free && t.slots[j].state != Free ==>
                        t.slots[i].clientFd != t.slots[j].clientFd
  }

  /** A change to one slot that leaves its descriptor alone or frees it. */
  lemma SlotKeepsInv(t: Table, index: nat, slot: Slot)
    requires Inv(t) && index < |t.slots| && SlotOk(t, slot)
    requires slot.state != Free ==> t.slots[index].state != Free && slot.clientFd == t.slots[index].clientFd
    ensures Inv(t.(slots := t.slots[index := slot]))
  {
    var t' := t.(slots := t.slots[index := slot]);
    forall i | 0 <= i < |t'.slots|
      ensures SlotOk(t', t'.slots[i])
    {
      assert SlotOk(t, t'.slots[i]);
    }
  }

  lemma ClosedKeepsInv(t: Table, index: nat)
    requires Inv(t) && index < |t.slots|
    ensures Inv(Closed(t, index))
  {
    SlotKeepsInv(t, index, FreeSlot(t.slots[index].received, t.slots[index].sent));
  }

  lemma ReadKeepsInv(t: Table, index: nat, got: ReadResult)
    requires Inv(t) && index < |t.slots| && t.slots[index].state != Free && CanRead(t, index, got)
    ensures Inv(AfterRead(t, index, got))
  {
    var slot := t.slots[index];
    assert SlotOk(t, slot);
    match got
    case Bytes(bytes) =>
      assert slot.received + bytes == slot.sent + (slot.data + bytes);
      SlotKeepsInv(t, index, AfterRead(t, index, got).slots[index]);
    case ReadWouldBlock =>
    case _ => ClosedKeepsInv(t, index);
  }

  lemma WriteKeepsInv(t: Table, index: nat, put: WriteResult)
    requires Inv(t) && index < |t.slots| && t.slots[index].state != Free && CanWrite(t, index, put)
    ensures Inv(AfterWrite(t, index, put))
  {
    var slot := t.slots[index];
    assert SlotOk(t, slot);
    match put
    case Wrote(n) =>
      var moved := Sent(slot, n);
      assert slot.sent + slot.data == moved.sent + moved.data;
      SlotKeepsInv(t, index, moved);
      ClosedKeepsInv(t.(slots := t.slots[index := moved]), index);
    case WriteWouldBlock =>
    case WriteError => ClosedKeepsInv(t, index);
  }

  lemma StepInv(t: Table, e: Event)
    requires Inv(t) && Step(t, e).Some?
    ensures Inv(Step(t, e).value)
  {
    match e
    case Accept(fd, nonblocking) => AcceptKeepsInv(t, fd, nonblocking);
    case Read(index, got) => ReadKeepsInv(t, index, got);
    case Write(index, put) => WriteKeepsInv(t, index, put);
    case Close(index) => ClosedKeepsInv(t, index);
  }

  lemma AcceptKeepsInv(t: Table, fd: int, nonblocking: bool)
    requires Inv(t) && !InUse(t.slots, fd)
    ensures Inv(Accepted(t, fd, nonblocking))
  {
    var t' := Accepted(t, fd, nonblocking);
    forall i | 0 <= i < |t'.slots|
      ensures SlotOk(t', t'.slots[i])
    {
      assert SlotOk(t, t.slots[i]);
    }
  }

  /** Over any sequence of events: no buffer overruns, the bytes written and those still
      buffered are together the bytes read, in order; a slot is free exactly when it holds no
      descriptor; no two connections share one; and `max_fd` bounds them all. */
  lemma {:induction false} TableStaysSound(t: Table, events: seq<Event>)
    requires Init(t) && Exec(Step, t, events).Some?
    ensures Inv(Exec(Step, t, events).value)
  {
    forall x, e | Inv(x) && Step(x, e).Some?
      ensures Inv(Step(x, e).value)
    {
      StepInv(x, e);
    }
    Invariant(Step, Inv, t, events);
  }

  // ---------------------------------------------------------------- what the calls do

  /** Nothing but one slot changes, and `max_fd` at most rises. */
  ghost predicate OnlySlot(t: Table, index: nat, t': Table)
  {
    && index < |t.slots| == |t'.slots| && t'.bufSize == t.bufSize && t'.maxFd >= t.maxFd
    && forall i :: 0 <= i < |t.slots| && i != index ==> t'.slots[i] == t.slots[i]
  }

  /** A client is taken in whenever the calls succeed and some slot is free: by the first free
      one, with an empty buffer. Otherwise nothing changes. */
  lemma AcceptTakesClient(t: Table, fd: int, nonblocking: bool)
    requires Inv(t) && Step(t, Accept(fd, nonblocking)).Some?
    ensures var t' := Step(t, Accept(fd, nonblocking)).value;
            if fd >= 0 && nonblocking && (exists i :: 0 <= i < |t.slots| && t.slots[i].state == Free) then
              exists i :: 0 <= i < |t.slots| && OnlySlot(t, i, t')
                          && t.slots[i].state == Free && (forall k :: 0 <= k < i ==> t.slots[k].state != Free)
                          && t'.slots[i] == Slot(fd, -1, ReadingRequest, [], [], [])
                          && (t'.maxFd == fd || (t'.maxFd == t.maxFd && fd <= t.maxFd))
            else t' == t
  {
    var index := FirstFree(t.slots);
    if fd >= 0 && nonblocking && index < |t.slots| {
      assert SlotOk(t, t.slots[index]);
      assert OnlySlot(t, index, Accepted(t, fd, nonblocking));
    }
  }

  /** On an open connection `read` may give anything that fits, and `write` take any number of the
      bytes in the buffer, all of them included. */
  lemma AnyAmountMayPass(t: Table, index: nat, bytes: seq<Byte>, n: nat)
    requires index < |t.slots| && t.slots[index].state != Free
    ensures Step(t, Read(index, Bytes(bytes))).Some? <==> 1 <= |bytes| <= Room(t, index)
    ensures Step(t, Write(index, Wrote(n))).Some? <==> n <= |t.slots[index].data|
  {
  }

  /** A read takes in every byte it got, behind those in the buffer, and the request becomes a
      relay when the buffer holds more than 1024 bytes; at the end of the file or on an error
      the slot is freed, and a read that would block changes nothing. */
  lemma ReadTakesEverything(t: Table, index: nat, got: ReadResult)
    requires Inv(t) && Step(t, Read(index, got)).Some?
    ensures var t' := Step(t, Read(index, got)).value;
            && OnlySlot(t, index, t')
            && var before, after := t.slots[index], t'.slots[index];
               && after.sent == before.sent
               && match got
                  case Bytes(bytes) =>
                    && after.data == before.data + bytes && after.received == before.received + bytes
                    && after.clientFd == before.clientFd && after.state != Free
                    && (after.state != before.state <==>
                          before.state == ReadingRequest && after.state == Relaying && |after.data| > 1024)
                    && (before.state == ReadingRequest && |after.data| > 1024 ==> after.state == Relaying)
                  case ReadWouldBlock => t' == t
                  case _ => after.state == Free && after.data == [] && after.received == before.received
  {
  }

  /** A write takes out of the buffer exactly the bytes that `write` took, from the front: each
      goes out once and in order. A cached response frees its slot exactly when all of it is
      out; any other slot stays as it is. An error frees the slot; a write that would block
      changes nothing, and neither does one from an empty buffer. */
  lemma WriteRemovesWhatWasWritten(t: Table, index: nat, put: WriteResult)
    requires Inv(t) && Step(t, Write(index, put)).Some?
    ensures var t' := Step(t, Write(index, put)).value;
            && OnlySlot(t, index, t')
            && var before, after := t.slots[index], t'.slots[index];
               && after.received == before.received
               && if before.data == [] then t' == t
                  else
                    match put
                    case Wrote(n) =>
                      && |after.sent| == |before.sent| + n && before.sent <= after.sent
                      && before.data == after.sent[|before.sent|..] + after.data
                      && (after.state == Free <==> before.state == CachedResponse && n == |before.data|)
                      && (after.state != Free ==>
                            after.state == before.state && after.clientFd == before.clientFd)
                    case WriteWouldBlock => t' == t
                    case WriteError => after.state == Free && after.sent == before.sent
  {
    var slot := t.slots[index];
    if put.Wrote? && slot.data != [] {
      assert SlotOk(t, slot);
      assert slot.data == slot.data[..put.n] + slot.data[put.n..];
      assert (slot.sent + slot.data[..put.n])[|slot.sent|..] == slot.data[..put.n];
    }
  }

  // ---------------------------------------------------------------- full buffers

  function Room(t: Table, index: nat): int
    requires index < |t.slots|
  {
    t.bufSize - 1 - |t.slots[index].data|
  }

  /** What `read` gives when the peer has sent `pending` and has not closed: some of it from
      the front, at least a byte, but never more than there is room for; asked for no bytes it
      returns 0, which is also how it says that the file has ended. */
  ghost predicate ReadGives(pending: seq<Byte>, room: int, got: ReadResult)
  {
    if room == 0 then got == EndOfFile
    else got.Bytes? && 1 <= |got.bytes| <= room && got.bytes <= pending
  }

  /** With bytes waiting, `handle_read` takes some of them in, unless the buffer is full: then,
      and only then, it closes a connection that the peer has not closed, and all that the
      buffer held is lost. */
  lemma FullBufferClosesConnection(t: Table, index: nat, pending: seq<Byte>, got: ReadResult)
    requires Inv(t) && index < |t.slots| && t.slots[index].state != Free
    requires pending != [] && ReadGives(pending, Room(t, index), got)
    ensures Step(t, Read(index, got)).Some?
    ensures var before, after := t.slots[index], Step(t, Read(index, got)).value.slots[index];
            && (after.state == Free <==> |before.data| == t.bufSize - 1)
            && (after.state == Free ==> after.received == after.sent + before.data && after.data == [])
            && (after.state != Free ==>
                  && before.received < after.received <= before.received + pending
                  && after.received == after.sent + after.data)
  {
    var slot := t.slots[index];
    assert SlotOk(t, slot);
    StepInv(t, Read(index, got));
    var after := Step(t, Read(index, got)).value.slots[index];
    assert SlotOk(Step(t, Read(index, got)).value, after);
  }

  /** Such a loss happens: a client that sends as many bytes as a fresh buffer takes, and more,
      is cut off with none of them passed on. */
  lemma {:induction false} FullBufferLosesBytes(t: Table, fd: nat, sent: seq<Byte>, got: ReadResult)
    requires Init(t) && t.slots != [] && 2 <= t.bufSize <= |sent|
    requires ReadGives(sent[t.bufSize - 1..], 0, got)
    ensures ReadGives(sent, t.bufSize - 1, Bytes(sent[..t.bufSize - 1]))
    ensures var end := Exec(Step, t, [Accept(fd, true), Read(0, Bytes(sent[..t.bufSize - 1])), Read(0, got)]);
            && end.Some? && end.value.slots != []
            && end.value.slots[0] == FreeSlot(sent[..t.bufSize - 1], [])
  {
    var chunk := sent[..t.bufSize - 1];
    var events := [Accept(fd, true), Read(0, Bytes(chunk)), Read(0, got)];
    assert !InUse(t.slots, fd);
    var t1 := Step(t, events[0]).value;
    assert t1.slots[0].data == [];
    var t2 := Step(t1, events[1]).value;
    assert t2.slots[0].received == [] + chunk == chunk;
    var t3 := Step(t2, events[2]).value;
    assert Exec(Step, t2, events[2..]) == Some(t3);
    assert events[1..][1..] == events[2..];
    assert Exec(Step, t1, events[1..]) == Some(t3);
  }

  // ---------------------------------------------------------------- the code

  class Connections {
    const clientFd: array<int>
    const remoteFd: array<int>
    const state: array<ConnState>
    const bufLen: array<nat>
    const requestBuf: array2<Byte>
    var maxFd: int
    ghost var received: seq<seq<Byte>>
    ghost var sent: seq<seq<Byte>>

    ghost predicate Shape()
      reads this
    {
      && clientFd != remoteFd && 1 <= requestBuf.Length1
      && clientFd.Length == remoteFd.Length == state.Length == bufLen.Length == requestBuf.Length0
      && |received| == |sent| == clientFd.Length
    }

    /** The table is in shape and no buffer overruns. */
    ghost predicate Valid()
      reads this, bufLen
    {
      Shape() && forall i :: 0 <= i < bufLen.Length ==> bufLen[i] <= requestBuf.Length1 - 1
    }

    ghost function Data(i: nat): seq<Byte>
      requires Valid() && i < clientFd.Length
      reads this, bufLen, requestBuf
    {
      seq(bufLen[i], k requires 0 <= k < bufLen[i] && Valid() reads this, bufLen, requestBuf => requestBuf[i, k])
    }

    ghost function SlotAt(i: nat): Slot
      requires Valid() && i < clientFd.Length
      reads this, clientFd, remoteFd, state, bufLen, requestBuf
    {
      Slot(clientFd[i], remoteFd[i], state[i], Data(i), received[i], sent[i])
    }

    /** `view` is the table as `ProxyTable` sees it. */
    ghost predicate Is(view: Table)
      requires Valid()
      reads this, clientFd, remoteFd, state, bufLen, requestBuf
    {
      && |view.slots| == clientFd.Length && view.maxFd == maxFd && view.bufSize == requestBuf.Length1
      && forall i :: 0 <= i < clientFd.Length ==> SlotAt(i) == view.slots[i]
    }

    constructor (maxConnections: nat, bufSize: nat, listenFd: int)
      requires 1 <= bufSize
      ensures Shape() && clientFd.Length == maxConnections && requestBuf.Length1 == bufSize && maxFd == listenFd
      ensures fresh(clientFd) && fresh(remoteFd) && fresh(state) && fresh(bufLen) && fresh(requestBuf)
    {
      clientFd := new int[maxConnections];
      remoteFd := new int[maxConnections];
      state := new ConnState[maxConnections];
      bufLen := new nat[maxConnections];
      requestBuf := new Byte[maxConnections, bufSize];
      maxFd := listenFd;
      received := seq(maxConnections, _ => []);
      sent := seq(maxConnections, _ => []);
    }

    /** `init_connections`. */
    method InitConnections()
      requires Shape()
      modifies this`received, this`sent, clientFd, remoteFd, state, bufLen
      ensures Valid()
      ensures Is(Table(seq(clientFd.Length, _ => FreeSlot([], [])), maxFd, requestBuf.Length1))
    {
      ghost var nothing: seq<seq<Byte>> := seq(clientFd.Length, _ => []);
      received, sent := nothing, nothing;
      for i := 0 to clientFd.Length
        invariant received == sent == nothing
        invariant forall k :: 0 <= k < i ==>
                    clientFd[k] == -1 && remoteFd[k] == -1 && state[k] == Free && bufLen[k] == 0
      {
        clientFd[i] := -1;
        remoteFd[i] := -1;
        state[i] := Free;
        bufLen[i] := 0;
      }
    }

    /** `find_free_slot`. */
    method FindFreeSlot(ghost view: Table) returns (index: int)
      requires Valid() && Is(view)
      ensures index == if FirstFree(view.slots) < |view.slots| then FirstFree(view.slots) else -1
    {
      for i := 0 to state.Length
        invariant forall k :: 0 <= k < i ==> state[k] != Free
      {
        assert SlotAt(i) == view.slots[i];
        if state[i] == Free {
          FirstFreeIs(view.slots, i);
          return i;
        }
      }
      FirstFreeIs(view.slots, |view.slots|);
      return -1;
    }

    /** The slot of a new connection. */
    method Take(index: nat, fd: int)
      requires Valid() && index < clientFd.Length
      modifies this`received, this`sent, clientFd, state, bufLen
      ensures Valid() && SlotAt(index) == Slot(fd, remoteFd[index], ReadingRequest, [], [], [])
      ensures forall i :: 0 <= i < clientFd.Length && i != index ==> SlotAt(i) == old(SlotAt(i))
    {
      clientFd[index] := fd;
      state[index] := ReadingRequest;
      bufLen[index] := 0;
      received := received[index := []];
      sent := sent[index := []];
      assert Data(index) == [];
    }

    /** `accept_new_connection` after `accept` has returned `fd`. */
    method AcceptNewConnection(fd: int, nonblocking: bool, ghost view: Table)
      requires Valid() && Is(view)
      modifies this, clientFd, state, bufLen
      ensures Valid() && Is(Accepted(view, fd, nonblocking))
    {
      if fd < 0 || !nonblocking {
        return;
      }
      var index := FindFreeSlot(view);
      if index == -1 {
        return;
      }
      assert SlotAt(index) == view.slots[index];
      ghost var after := Accepted(view, fd, nonblocking);
      Take(index, fd);
      forall i | 0 <= i < clientFd.Length
        ensures SlotAt(i) == after.slots[i]
      {
        assert old(SlotAt(i)) == view.slots[i];
      }
      if fd > maxFd {
        maxFd := fd;
      }
    }

    /** `close_connection`. */
    method CloseConnection(index: nat, ghost view: Table)
      requires Valid() && Is(view) && index < clientFd.Length
      modifies clientFd, remoteFd, state, bufLen
      ensures Valid() && Is(Closed(view, index))
    {
      clientFd[index] := -1;
      remoteFd[index] := -1;
      state[index] := Free;
      bufLen[index] := 0;
      assert Data(index) == [];
    }

    /** The bytes `read` has put into the free part of the buffer, and the NUL behind them. */
    method Append(index: nat, bytes: seq<Byte>)
      requires Valid() && index < clientFd.Length && bufLen[index] + |bytes| <= requestBuf.Length1 - 1
      modifies this`received, bufLen, requestBuf
      ensures Valid() && received == old(received)[index := old(received[index]) + bytes]
      ensures Data(index) == old(Data(index)) + bytes
      ensures forall i :: 0 <= i < clientFd.Length && i != index ==> Data(i) == old(Data(i))
    {
      var len := bufLen[index];
      forall k | 0 <= k < |bytes| {
        requestBuf[index, len + k] := bytes[k];
      }
      bufLen[index] := len + |bytes|;
      requestBuf[index, bufLen[index]] := 0;
      received := received[index := received[index] + bytes];
      forall i | 0 <= i < clientFd.Length && i != index
        ensures Data(i) == old(Data(i))
      {
        assert bufLen[i] == old(bufLen[i]);
      }
    }

    /** `handle_read` on what `read` returned into the free part of the buffer. */
    method HandleRead(index: nat, got: ReadResult, ghost view: Table)
      requires Valid() && Is(view) && index < clientFd.Length && CanRead(view, index, got)
      modifies this`received, clientFd, remoteFd, state, bufLen, requestBuf
      ensures Valid() && Is(AfterRead(view, index, got))
    {
      assert SlotAt(index) == view.slots[index];
      match got
      case Bytes(bytes) =>
        Append(index, bytes);
        assert bufLen[index] == |Data(index)|;
        if state[index] == ReadingRequest {
          if bufLen[index] > RELAY_ABOVE {
            state[index] := Relaying;
          }
        }
        ghost var after := AfterRead(view, index, got);
        forall i | 0 <= i < clientFd.Length
          ensures SlotAt(i) == after.slots[i]
        {
          assert old(SlotAt(i)) == view.slots[i];
        }
      case EndOfFile => CloseConnection(index, view);
      case ReadWouldBlock =>
      case ReadError => CloseConnection(index, view);
    }

    /** `handle_write` on what `write` returned. */
    method HandleWrite(index: nat, put: WriteResult, ghost view: Table)
      requires Valid() && Is(view) && index < clientFd.Length && CanWrite(view, index, put)
      modifies this, clientFd, remoteFd, state, bufLen, requestBuf
      ensures Valid() && Is(AfterWrite(view, index, put))
    {
      assert SlotAt(index) == view.slots[index];
      if bufLen[index] == 0 {
        return;
      }
      match put
      case Wrote(n) =>
        if n == 0 {
          return;
        }
        Shift(index, n, view);
        ghost var moved := view.(slots := view.slots[index := Sent(view.slots[index], n)]);
        if state[index] == CachedResponse && bufLen[index] == 0 {
          CloseConnection(index, moved);
        }
      case WriteWouldBlock =>
      case WriteError => CloseConnection(index, view);
    }

    /** The `memmove` to the front of the buffer after `n` bytes have gone out. */
    method Shift(index: nat, n: nat, ghost view: Table)
      requires Valid() && Is(view) && index < clientFd.Length && n <= bufLen[index]
      modifies this, bufLen, requestBuf
      ensures Valid() && state[index] == old(state[index])
      ensures n <= |view.slots[index].data| && Is(view.(slots := view.slots[index := Sent(view.slots[index], n)]))
    {
      assert SlotAt(index) == view.slots[index];
      ghost var before := Data(index);
      var len := bufLen[index] - n;
      sent := sent[index := sent[index] + before[..n]];
      bufLen[index] := len;
      for k := 0 to len
        modifies requestBuf
        invariant forall i, j ::
                    0 <= i < requestBuf.Length0 && 0 <= j < requestBuf.Length1 && (i != index || j >= k) ==>
                      requestBuf[i, j] == old(requestBuf[i, j])
        invariant forall j :: 0 <= j < k ==> requestBuf[index, j] == before[n + j]
      {
        assert old(requestBuf[index, k + n]) == before[n + k];
        requestBuf[index, k] := requestBuf[index, k + n];
      }
      assert Data(index) == before[n..];
    }
  }

  lemma FirstFreeIs(slots: seq<Slot>, i: nat)
    requires i <= |slots| && (i < |slots| ==> slots[i].state == Free)
    requires forall k :: 0 <= k < i ==> slots[k].state != Free
    ensures FirstFree(slots) == i
  {
  }
}
