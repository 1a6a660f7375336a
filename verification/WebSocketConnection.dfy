/** A connection of `websocket.h`: the read states, the handling of frames and the double-buffered writes. */
module WebSocketConnection {
  import opened WebSocketFrames
  import opened WebSocketMessages

  datatype ReadState = MiniHeader | Len16 | Len64 | Mask | Payload

  const NO_STATUS_CODE_PRESENT: nat := 1005

  /** What is put into the write buffers at a time: the answer to the upgrade request, or a frame. */
  datatype Out = Hello(text: seq<byte>) | Data(opcode: nat, payload: seq<byte>)

  function OutBytes(little: bool, out: Out): seq<byte> {
    match out
    case Hello(text) => text
    case Data(opcode, payload) => BuildHeader(little, opcode % 16, |payload|) + payload
  }

  function AllBytes(little: bool, outs: seq<Out>): seq<byte> {
    if outs == [] then [] else OutBytes(little, outs[0]) + AllBytes(little, outs[1..])
  }

  lemma {:induction false} ConcatOf(a: seq<seq<byte>>, b: seq<seq<byte>>)
    ensures Concat(a + b) == Concat(a) + Concat(b)
  {
    if a == [] { assert a + b == b; } else {
      assert (a + b)[1..] == a[1..] + b;
      ConcatOf(a[1..], b);
    }
  }

  lemma {:induction false} AllBytesOf(little: bool, a: seq<Out>, b: seq<Out>)
    ensures AllBytes(little, a + b) == AllBytes(little, a) + AllBytes(little, b)
  {
    if a == [] { assert a + b == b; } else {
      assert (a + b)[1..] == a[1..] + b;
      AllBytesOf(little, a[1..], b);
    }
  }

  lemma FewPieces(little: bool, a: seq<byte>, b: seq<byte>, c: seq<byte>, out: Out)
    ensures Concat([a]) == a && Concat([a, b]) == a + b && Concat([a, b, c]) == a + (b + c)
    ensures Concat([]) == [] && AllBytes(little, []) == [] && AllBytes(little, [out]) == OutBytes(little, out)
  {
    hide OutBytes;
    assert [a, b, c][1..] == [b, c] && [b, c][1..] == [c] && [c][1..] == [];
    assert [a, b][1..] == [b] && [b][1..] == [] && [a][1..] == [];
    assert Concat([c]) == c && Concat([b]) == b && Concat([b, c]) == b + c;
  }

  // ---------------------------------------------------------------- whole runs of the writing side

  /** What can happen next: a call of send_data or close, one of the posted calls, or the end of the write. */
  datatype Event = Send(post: Post) | Posted | Closing(reason: seq<byte>, status: nat) | Written(ok: bool)

  predicate Possible(e: Event) {
    (e.Send? ==> e.post.opcode < 16 && e.post.opcode != 8) && (e.Closing? ==> e.status < 0x1_0000)
  }

  predicate Sendable(posts: seq<Post>) {
    forall x <- posts :: x.opcode < 16 && x.opcode != 8
  }

  function SendsOf(events: seq<Event>): seq<Post> {
    if events == [] then []
    else SendsOf(events[..|events| - 1]) + if events[|events| - 1].Send? then [events[|events| - 1].post] else []
  }

  lemma SendsGrow(events: seq<Event>, i: nat)
    requires i <= |events|
    ensures i < |events| ==> SendsOf(events[..i + 1]) == SendsOf(events[..i]) + if events[i].Send? then [events[i].post] else []
    ensures SendsOf(events[..0]) == []
  {
    if i < |events| { assert events[..i + 1][..i] == events[..i]; }
  }

  /** The frames that were sent by send_data. */
  function Posts(outs: seq<Out>): seq<Post> {
    if outs == [] then []
    else
      var x := outs[|outs| - 1];
      Posts(outs[..|outs| - 1]) + if x.Data? && x.opcode != 8 then [Post(x.opcode, x.payload)] else []
  }

  lemma PostsGrow(outs: seq<Out>, x: Out)
    ensures Posts(outs + [x]) == Posts(outs) + if x.Data? && x.opcode != 8 then [Post(x.opcode, x.payload)] else []
  {
    assert (outs + [x])[..|outs|] == outs;
  }

  // ---------------------------------------------------------------- frames behind a Close frame

  predicate IsClose(x: Out) { x.Data? && x.opcode == 8 }

  predicate HasClose(outs: seq<Out>) { exists x <- outs :: IsClose(x) }

  /** Nothing stands behind a Close frame, as section 5.5.1 of RFC 6455 asks. */
  predicate Orderly(outs: seq<Out>) {
    forall i :: 0 <= i < |outs| - 1 ==> !IsClose(outs[i])
  }

  lemma OneMore(outs: seq<Out>, x: Out)
    ensures HasClose(outs + [x]) <==> HasClose(outs) || IsClose(x)
    ensures Orderly(outs + [x]) <==> !HasClose(outs)
    ensures !HasClose(outs) ==> Orderly(outs)
  {
    var all := outs + [x];
    assert all[|outs|] == x;
    assert forall i :: 0 <= i < |outs| ==> all[i] == outs[i];
    if HasClose(outs) {
      var i :| 0 <= i < |outs| && IsClose(outs[i]);
      assert IsClose(all[i]);
    }
  }

  /** Whether an event enqueues a frame while `n` calls are posted. */
  predicate Builds(e: Event, n: nat) {
    e.Closing? || (e.Posted? && n > 0)
  }

  /** The calls that are still posted after `events`, if `n` were before. */
  function Backlog(n: nat, events: seq<Event>): nat {
    if events == [] then n else BacklogAfter(Backlog(n, events[..|events| - 1]), events[|events| - 1])
  }

  function BacklogAfter(n: nat, e: Event): nat {
    if e.Send? then n + 1 else if e.Posted? && n > 0 then n - 1 else n
  }

  predicate AnyClosing(events: seq<Event>) { exists e <- events :: e.Closing? }

  /** Once a Close frame was sent, before the events or by one of them, nobody closes again and no posted call runs. */
  predicate StopsAtClose(sent: bool, n: nat, events: seq<Event>) {
    forall j :: 0 <= j < |events| && Builds(events[j], Backlog(n, events[..j])) ==> !sent && !AnyClosing(events[..j])
  }

  lemma StopsSplit(sent: bool, n: nat, events: seq<Event>)
    requires events != []
    ensures var i := |events| - 1;
            StopsAtClose(sent, n, events) <==>
              StopsAtClose(sent, n, events[..i]) && (Builds(events[i], Backlog(n, events[..i])) ==> !sent && !AnyClosing(events[..i]))
  {
    hide Backlog, AnyClosing, Builds;
    var i := |events| - 1;
    forall j | 0 <= j < i ensures events[..i][..j] == events[..j] && events[..i][j] == events[j] {}
  }

  lemma StopsGrow(sent: bool, n: nat, events: seq<Event>, i: nat)
    requires i < |events|
    ensures Backlog(n, events[..i + 1]) == BacklogAfter(Backlog(n, events[..i]), events[i])
    ensures AnyClosing(events[..i + 1]) <==> AnyClosing(events[..i]) || events[i].Closing?
    ensures StopsAtClose(sent, n, events[..i + 1]) <==>
              StopsAtClose(sent, n, events[..i])
              && (Builds(events[i], Backlog(n, events[..i])) ==> !sent && !AnyClosing(events[..i]))
  {
    var more, fewer := events[..i + 1], events[..i];
    assert more[..i] == fewer && more[i] == events[i];
    assert more == fewer + [events[i]];
    hide Backlog, BacklogAfter, AnyClosing, Builds;
    forall j | 0 <= j < i ensures more[..j] == fewer[..j] && more[j] == fewer[j] {}
    StopsSplit(sent, n, more);
  }

  // ---------------------------------------------------------------- frames that go out behind a Close frame

  /** What was taken into a write so far: all that was enqueued but for what waits. */
  function StartedOf(enqueued: seq<Out>, waiting: seq<Out>): seq<Out> {
    if |waiting| <= |enqueued| then enqueued[..|enqueued| - |waiting|] else []
  }

  lemma StartedGrow(enqueued: seq<Out>, waiting: seq<Out>, x: Out)
    ensures StartedOf(enqueued, []) == enqueued
    ensures |waiting| <= |enqueued| ==> StartedOf(enqueued + [x], waiting + [x]) == StartedOf(enqueued, waiting)
  {
  }

  lemma OrderlyFront(enqueued: seq<Out>, waiting: seq<Out>)
    ensures Orderly(enqueued) ==> Orderly(StartedOf(enqueued, waiting))
  {
    hide IsClose;
    var front := StartedOf(enqueued, waiting);
    if Orderly(enqueued) {
      forall i | 0 <= i < |front| - 1 ensures !IsClose(front[i]) { assert front[i] == enqueued[i]; }
    }
  }

  /** What was in order when more is enqueued was so before. */
  lemma Grown(before: seq<Out>, after: seq<Out>, waiting: seq<Out>)
    requires before <= after
    ensures Orderly(after) ==> Orderly(before) && Orderly(StartedOf(before, waiting))
  {
    hide IsClose;
    if Orderly(after) {
      forall i | 0 <= i < |before| - 1 ensures !IsClose(before[i]) { assert before[i] == after[i]; }
    }
    OrderlyFront(before, waiting);
  }

  /** What decides when a write starts: whether close was called, how many calls are posted, whether a write is
      outstanding, whether the connection is being closed, and whether anything waits. */
  datatype Line = Line(sent: bool, n: nat, writing: bool, closing: bool, waits: bool)

  /** One more frame is enqueued: it waits if a write is outstanding, and else goes out with all that waits. */
  function LineBuilt(l: Line): Line {
    if l.writing then l.(waits := true) else l.(writing := true, waits := false)
  }

  function LineAfter(l: Line, e: Event): Line {
    match e
    case Send(_) => l.(n := l.n + 1)
    case Posted => if l.n == 0 then l else LineBuilt(l.(n := l.n - 1))
    case Closing(_, _) => LineBuilt(l.(sent := true))
    case Written(ok) =>
      if !l.writing then l
      else if ok && !l.closing then l.(writing := l.waits, waits := false, closing := l.sent)
      else l.(writing := false, closing := true)
  }

  function LineBehind(l: Line, events: seq<Event>): Line {
    if events == [] then l else LineAfter(LineBehind(l, events[..|events| - 1]), events[|events| - 1])
  }

  /** The event starts a write: it enqueues a frame while no write is outstanding, or ends one while something waits. Behind
      the end of a write that failed, or that ended while the connection was being closed, nothing is started. */
  predicate Starts(l: Line, e: Event) {
    if e.Written? then e.ok && l.writing && !l.closing && l.waits else Builds(e, l.n) && !l.writing
  }

  /** Whenever a write starts, all that was enqueued so far is in order: `orderly` before the events, and since then nobody
      has closed again and no posted call has run once a Close frame was sent. */
  predicate StartsInOrder(l: Line, orderly: bool, events: seq<Event>) {
    forall j :: 0 <= j < |events| && Starts(LineBehind(l, events[..j]), events[j]) ==>
                  orderly && StopsAtClose(l.sent, l.n, events[..j + 1])
  }

  lemma StartsSplit(l: Line, orderly: bool, events: seq<Event>)
    requires events != []
    ensures var i := |events| - 1;
            StartsInOrder(l, orderly, events) <==>
              StartsInOrder(l, orderly, events[..i])
              && (Starts(LineBehind(l, events[..i]), events[i]) ==> orderly && StopsAtClose(l.sent, l.n, events))
  {
    hide LineBehind, StopsAtClose, Starts;
    var i := |events| - 1;
    var less := events[..i];
    assert events[..i + 1] == events;
    forall j | 0 <= j < i ensures less[..j] == events[..j] && less[j] == events[j] {
      assert less[..j + 1] == events[..j + 1];
    }
    forall j | 0 < j <= i ensures less[..j] == events[..j] {}
  }

  lemma StartsGrow(l: Line, orderly: bool, events: seq<Event>, i: nat)
    requires i < |events|
    ensures LineBehind(l, events[..i + 1]) == LineAfter(LineBehind(l, events[..i]), events[i])
    ensures StartsInOrder(l, orderly, events[..i + 1]) <==>
              StartsInOrder(l, orderly, events[..i])
              && (Starts(LineBehind(l, events[..i]), events[i]) ==> orderly && StopsAtClose(l.sent, l.n, events[..i + 1]))
  {
    var more := events[..i + 1];
    assert more[..i] == events[..i] && more[i] == events[i];
    hide LineAfter, StopsAtClose, Starts, StartsInOrder;
    StartsSplit(l, orderly, more);
  }

  /** The peer's side of the connection: all the bytes it sends, of which a read gets as many as have come. */
  class Socket {
    var incoming: seq<byte>

    constructor (bytes: seq<byte>)
      ensures incoming == bytes
    {
      incoming := bytes;
    }

    /** async_read: exactly `n` bytes. */
    method Read(n: nat) returns (data: seq<byte>)
      requires n <= |incoming|
      modifies this
      ensures |data| == n && old(incoming) == data + incoming
    {
      data := incoming[..n];
      incoming := incoming[n..];
    }

    /** async_read_some: any number of bytes up to `max`, but at least one unless none was asked for. */
    method ReadSome(max: nat) returns (data: seq<byte>)
      requires max > 0 ==> incoming != []
      modifies this
      ensures |data| <= max && (max > 0 ==> data != []) && old(incoming) == data + incoming
    {
      if max == 0 { return []; }
      var n: nat :| 1 <= n <= max && n <= |incoming|;
      data := incoming[..n];
      incoming := incoming[n..];
    }
  }

  lemma CodeBytes(little: bool, status: nat)
    requires status < 0x1_0000
    ensures Store(little, Swap(little, status, 2), 2) == ToBytes(status, 2)
  {
    PowersKnown();
    StoredSwapped(little, status, 2);
  }

  lemma HelloBytes(little: bool, hello: seq<seq<byte>>)
    ensures OutBytes(little, Hello(Concat(hello))) == Concat(hello)
  {
  }

  lemma ClosePieces(little: bool, code: seq<byte>, reason: seq<byte>)
    requires |code| == 2
    ensures OutBytes(little, Data(8, code + reason)) == BuildHeader(little, 8, |reason| + 2) + (code + reason)
  {
  }

  lemma FirstOut(hello: Out)
    requires hello.Hello?
    ensures !HasClose([]) && !HasClose([hello]) && [] + [hello] == [hello]
  {
  }

  lemma OneMoreClose(outs: seq<Out>, payload: seq<byte>)
    ensures HasClose(outs + [Data(8, payload)]) && (Orderly(outs + [Data(8, payload)]) <==> !HasClose(outs))
    ensures !HasClose(outs) ==> Orderly(outs)
  {
    OneMore(outs, Data(8, payload));
  }

  class Connection {
    const little: bool
    const socket: Socket
    var maxPayload: nat

    // reading
    var state: ReadState
    var miniHeader: nat
    var hasMask: bool
    var mask: seq<byte>
    var remaining: nat
    var fragment: seq<byte>
    var message: seq<byte>
    var isBinary: bool
    var pongReceived: bool

    // what the handlers were called with, and what was posted to be sent
    var handled: seq<Message>
    var closes: seq<(seq<byte>, nat)>
    var posted: seq<Post>

    // writing
    var sendingBuffers: seq<seq<byte>>
    var writeBuffers: seq<seq<byte>>
    var writing: bool
    ghost var wire: seq<byte>
    ghost var written: seq<Out>
    ghost var sending: seq<Out>
    ghost var waiting: seq<Out>
    ghost var enqueued: seq<Out>
    ghost var failed: bool

    // closing
    var hasSentClose: bool
    var hasRecvClose: bool
    var isCloseHandlerCalled: bool
    var closeConnection: bool

    /** Whole frames wait and are being written, one write is outstanding at most, and it is outstanding exactly while
        something is being sent. */
    ghost predicate Queued()
      reads this`sendingBuffers, this`writeBuffers, this`writing, this`sending, this`waiting, this`enqueued,
            this`wire, this`written, this`failed, this`closeConnection
    {
      && |waiting| <= |enqueued| && enqueued == Started() + waiting
      && Concat(sendingBuffers) == AllBytes(little, sending)
      && Concat(writeBuffers) == AllBytes(little, waiting)
      && (writing <==> sendingBuffers != []) && (writing <==> sending != []) && (waiting == [] <==> writeBuffers == [])
      && (!writing && waiting != [] ==> closeConnection)
      && (!failed ==> enqueued == written + sending + waiting && wire == AllBytes(little, written))
    }

    /** What was ever taken into a write. */
    ghost function Started(): seq<Out>
      reads this`enqueued, this`waiting
    {
      StartedOf(enqueued, waiting)
    }

    /** Unless a write failed, that is what was written and what is being sent. */
    lemma StartedIs()
      requires Valid() && !failed
      ensures Started() == written + sending
    {
    }

    ghost function LineNow(): Line
      reads this`hasSentClose, this`posted, this`writing, this`closeConnection, this`waiting
    {
      Line(hasSentClose, |posted|, writing, closeConnection, waiting != [])
    }

    /** What holds between any two steps; `hasSentClose` says whether a Close frame was ever enqueued. */
    ghost predicate Valid()
      reads this`sendingBuffers, this`writeBuffers, this`writing, this`sending, this`waiting, this`enqueued,
            this`wire, this`written, this`failed, this`closeConnection, this`hasSentClose
    {
      Queued() && (hasSentClose <==> HasClose(enqueued))
    }

    constructor (socket: Socket, little: bool, maxPayload: nat, hello: seq<seq<byte>>)
      requires hello != []
      ensures Valid() && this.socket == socket && this.little == little && this.maxPayload == maxPayload
      ensures state == MiniHeader && fragment == [] && message == [] && handled == [] && posted == [] && closes == []
      ensures !hasSentClose && !hasRecvClose && !isCloseHandlerCalled && !closeConnection && !failed
      ensures enqueued == [Hello(Concat(hello))] == sending && writing && waiting == [] && wire == [] && written == []
    {
      this.socket, this.little, this.maxPayload := socket, little, maxPayload;
      new;
      hide *;
      Begin();
      Start(hello);
    }

    /** All the fields as they are declared. */
    method Begin()
      modifies this
      ensures maxPayload == old(maxPayload) && state == MiniHeader && fragment == [] && message == []
      ensures handled == [] && posted == [] && closes == []
      ensures !hasSentClose && !hasRecvClose && !isCloseHandlerCalled && !closeConnection
      ensures Queued() && !failed && !writing && waiting == [] && enqueued == [] && wire == [] && written == []
    {
      hide *;
      NothingRead();
      NothingClosed();
      NothingQueued();
      Nothing();
    }

    method NothingRead()
      modifies this
      ensures maxPayload == old(maxPayload) && state == MiniHeader && fragment == [] && message == []
    {
      state, miniHeader, hasMask, mask, remaining := MiniHeader, 0, false, [0, 0, 0, 0], 0;
      fragment, message, isBinary := [], [], false;
    }

    method NothingClosed()
      modifies this
      ensures maxPayload == old(maxPayload) && state == old(state) && fragment == old(fragment) && message == old(message)
      ensures handled == [] && posted == [] && closes == []
      ensures !hasSentClose && !hasRecvClose && !isCloseHandlerCalled && !closeConnection
    {
      handled, closes, posted, pongReceived := [], [], [], false;
      hasSentClose, hasRecvClose, isCloseHandlerCalled, closeConnection := false, false, false, false;
    }

    method NothingQueued()
      modifies this`sendingBuffers, this`writeBuffers, this`writing, this`sending, this`waiting, this`enqueued, this`wire, this`written,
               this`failed
      ensures !failed && !writing
      ensures sendingBuffers == [] && writeBuffers == [] && sending == [] && waiting == [] && enqueued == [] && wire == [] && written == []
    {
      sendingBuffers, writeBuffers, writing := [], [], false;
      wire, written, sending, waiting, enqueued, failed := [], [], [], [], [], false;
    }

    lemma Nothing()
      requires sendingBuffers == [] && writeBuffers == [] && sending == [] && waiting == [] && enqueued == [] && wire == [] && written == []
      requires !writing
      ensures Queued()
    {
    }

    /** start: the answer to the upgrade request is the first thing sent. */
    method Start(hello: seq<seq<byte>>)
      requires hello != [] && Queued() && enqueued == [] && waiting == [] && !writing && !hasSentClose
      modifies this`sendingBuffers, this`writeBuffers, this`writing, this`sending, this`waiting, this`enqueued
      ensures Valid() && enqueued == [Hello(Concat(hello))] == sending && writing && waiting == []
    {
      hide Concat, OutBytes, HasClose, Orderly, Queued;
      HelloBytes(little, hello);
      FirstOut(Hello(Concat(hello)));
      Enqueue(hello, Hello(Concat(hello)));
    }

    // -------------------------------------------------------------- writing

    /** Starts a write of all that waits, unless one is outstanding. */
    method DoWrite()
      requires Concat(sendingBuffers) == AllBytes(little, sending) && Concat(writeBuffers) == AllBytes(little, waiting)
      requires (writing <==> sendingBuffers != []) && (writing <==> sending != []) && (waiting == [] <==> writeBuffers == [])
      requires writing || waiting != []
      modifies this`sendingBuffers, this`writeBuffers, this`writing, this`sending, this`waiting
      ensures writing && (if old(writing) then sending == old(sending) && waiting == old(waiting)
                          else sending == old(waiting) && waiting == [])
      ensures Concat(sendingBuffers) == AllBytes(little, sending) && Concat(writeBuffers) == AllBytes(little, waiting)
      ensures sendingBuffers != [] && sending != [] && (waiting == [] <==> writeBuffers == [])
      ensures sending + waiting == old(sending + waiting)
    {
      hide AllBytes, Concat;
      if sendingBuffers == [] {
        sendingBuffers, writeBuffers := writeBuffers, sendingBuffers;
        sending, waiting := waiting, sending;
        writing := true;
      }
    }

    /** Puts the pieces of `out` behind all that waits, and starts a write if none is outstanding. */
    method Enqueue(pieces: seq<seq<byte>>, ghost out: Out)
      requires Queued() && pieces != [] && Concat(pieces) == OutBytes(little, out)
      modifies this`sendingBuffers, this`writeBuffers, this`writing, this`sending, this`waiting, this`enqueued
      ensures Queued() && enqueued == old(enqueued) + [out] && writing
      ensures if old(writing) then sending == old(sending) && waiting == old(waiting) + [out]
              else sending == old(waiting) + [out] && waiting == []
    {
      hide AllBytes, Concat, OutBytes, StartedOf, HasClose;
      ConcatOf(writeBuffers, pieces);
      AllBytesOf(little, waiting, [out]);
      FewPieces(little, [], [], [], out);
      StartedGrow(enqueued, waiting, out);
      StartedGrow(enqueued + [out], [], out);
      writeBuffers := writeBuffers + pieces;
      waiting := waiting + [out];
      enqueued := enqueued + [out];
      assert !failed ==> enqueued == written + sending + waiting;
      assert enqueued + [] == enqueued;
      DoWrite();
    }

    /** send_data_impl: a header and its payload. */
    method SendDataImpl(opcode: nat, payload: seq<byte>)
      requires Valid() && opcode < 16 && opcode != 8
      modifies this`sendingBuffers, this`writeBuffers, this`writing, this`sending, this`waiting, this`enqueued
      ensures Valid() && (Orderly(enqueued) <==> old(Orderly(enqueued)) && !hasSentClose)
      ensures enqueued == old(enqueued) + [Data(opcode, payload)] && writing
      ensures if old(writing) then sending == old(sending) && waiting == old(waiting) + [Data(opcode, payload)]
              else sending == old(waiting) + [Data(opcode, payload)] && waiting == []
    {
      var header := BuildHeader(little, opcode, |payload|);
      FewPieces(little, header, payload, [], Data(opcode, payload));
      OneMore(enqueued, Data(opcode, payload));
      Enqueue([header, payload], Data(opcode, payload));
    }

    /** send_data: the frame is built later, when the posted call runs. */
    method SendData(opcode: nat, payload: seq<byte>)
      modifies this`posted
      ensures posted == old(posted) + [Post(opcode, payload)] && Valid() == old(Valid())
    {
      posted := posted + [Post(opcode, payload)];
    }

    /** The first of the posted calls. Its frame may stand behind a Close frame: `send_data` never looks whether one
        was sent. */
    method RunPosted()
      requires Valid() && posted != [] && posted[0].opcode < 16 && posted[0].opcode != 8
      modifies this`sendingBuffers, this`writeBuffers, this`writing, this`sending, this`waiting, this`enqueued, this`posted
      ensures Valid() && (Orderly(enqueued) <==> old(Orderly(enqueued)) && !hasSentClose)
      ensures posted == old(posted)[1..] && enqueued == old(enqueued) + [Data(old(posted)[0].opcode, old(posted)[0].payload)] && writing
      ensures var out := Data(old(posted)[0].opcode, old(posted)[0].payload);
              if old(writing) then sending == old(sending) && waiting == old(waiting) + [out]
              else sending == old(waiting) + [out] && waiting == []
    {
      var x := posted[0];
      posted := posted[1..];
      SendDataImpl(x.opcode, x.payload);
    }

    /** What async_write calls at its end. */
    method WriteCompleted(ok: bool)
      requires Valid() && writing
      modifies this`sendingBuffers, this`writeBuffers, this`writing, this`sending, this`waiting, this`wire, this`written, this`failed,
               this`closeConnection
      ensures Valid() && failed == (old(failed) || !ok)
      ensures ok ==> wire == old(wire) + AllBytes(little, old(sending)) && written == old(written) + old(sending)
      ensures if ok && !old(closeConnection) then sending == old(waiting) && waiting == [] && closeConnection == (old(closeConnection) || hasSentClose)
              else sending == [] && waiting == old(waiting) && closeConnection
    {
      hide AllBytes, Concat, StartedOf, HasClose;
      StartedGrow(enqueued, [], Hello([]));
      assert enqueued + [] == enqueued;
      FinishWrite(ok);
      if ok && !closeConnection {
        if writeBuffers != [] { DoWrite(); }
        if hasSentClose { closeConnection := true; }
      } else {
        closeConnection := true;
      }
      assert !failed ==> enqueued == written + sending + waiting;
    }

    /** What was being sent has been written, or is lost. */
    method FinishWrite(ok: bool)
      requires Valid() && writing
      modifies this`sendingBuffers, this`writing, this`sending, this`wire, this`written, this`failed
      ensures !writing && sendingBuffers == [] && sending == [] && failed == (old(failed) || !ok)
      ensures Concat(sendingBuffers) == AllBytes(little, sending)
      ensures ok ==> wire == old(wire) + AllBytes(little, old(sending)) && written == old(written) + old(sending)
      ensures !failed ==> enqueued == written + waiting && wire == AllBytes(little, written)
    {
      AllBytesOf(little, written, sending);
      FewPieces(little, [], [], [], Data(0, []));
      hide AllBytes, Concat;
      writing, failed := false, failed || !ok;
      if ok {
        wire := wire + Concat(sendingBuffers);
        written := written + sending;
      }
      sendingBuffers, sending := [], [];
    }

    /** close: a Close frame with a status code and a reason. */
    method Close(reason: seq<byte>, status: nat)
      requires Valid() && status < 0x1_0000
      modifies this`sendingBuffers, this`writeBuffers, this`writing, this`sending, this`waiting, this`enqueued,
               this`hasSentClose, this`isCloseHandlerCalled, this`closes
      ensures Valid() && hasSentClose && (Orderly(enqueued) <==> old(Orderly(enqueued)) && !old(hasSentClose))
      ensures enqueued == old(enqueued) + [Data(8, ToBytes(status, 2) + reason)] && writing
      ensures var out := Data(8, ToBytes(status, 2) + reason);
              if old(writing) then sending == old(sending) && waiting == old(waiting) + [out]
              else sending == old(waiting) + [out] && waiting == []
      ensures isCloseHandlerCalled == (old(isCloseHandlerCalled) || hasRecvClose)
      ensures closes == if hasRecvClose && !old(isCloseHandlerCalled) then old(closes) + [(reason, status)] else old(closes)
    {
      hide *;
      OneMoreClose(enqueued, ToBytes(status, 2) + reason);
      ValidIs();
      hasSentClose := true;
      if hasRecvClose && !isCloseHandlerCalled {
        isCloseHandlerCalled := true;
        closes := closes + [(reason, status)];
      }
      var header := BuildHeader(little, 8, |reason| + 2);
      var code := Store(little, Swap(little, status, 2), 2);
      CodeBytes(little, status);
      FewPieces(little, header, code, reason, Data(8, code + reason));
      ClosePieces(little, code, reason);
      Enqueue([header, code, reason], Data(8, code + reason));
      ValidIs();
    }

    lemma ValidIs()
      ensures Valid() <==> Queued() && (hasSentClose <==> HasClose(enqueued))
    {
    }

    /** The bytes on the wire, then what is being sent, then what waits, are all that was ever to be sent. */
    lemma Conserved()
      requires Valid() && !failed
      ensures wire + Concat(sendingBuffers) + Concat(writeBuffers) == AllBytes(little, enqueued)
    {
      AllBytesOf(little, written, sending);
      AllBytesOf(little, written + sending, waiting);
    }

    method Perform(e: Event)
      requires Valid() && Possible(e) && Sendable(posted)
      modifies this
      ensures Valid() && Sendable(posted)
      ensures failed == (old(failed) || (e == Written(false) && old(writing)))
      ensures old(enqueued) <= enqueued
      ensures Posts(enqueued) + posted == old(Posts(enqueued) + posted) + if e.Send? then [e.post] else []
      ensures hasSentClose == (old(hasSentClose) || e.Closing?) && |posted| == BacklogAfter(old(|posted|), e)
      ensures Orderly(enqueued) <==> old(Orderly(enqueued)) && !(old(hasSentClose) && Builds(e, old(|posted|)))
      ensures LineNow() == LineAfter(old(LineNow()), e)
      ensures Started() == if Starts(old(LineNow()), e) then enqueued else old(Started())
    {
      hide AllBytes, Concat, Posts, ToBytes, OutBytes, Valid, Orderly, StartedOf;
      WaitsBehind();
      StartedGrow(enqueued, waiting, if posted == [] then Hello([]) else Data(posted[0].opcode, posted[0].payload));
      match e {
        case Send(post) =>
          SendData(post.opcode, post.payload);
          assert (Posts(enqueued) + old(posted)) + [post] == Posts(enqueued) + posted;
        case Posted =>
          if posted != [] {
            PostsGrow(enqueued, Data(posted[0].opcode, posted[0].payload));
            assert posted == [posted[0]] + posted[1..];
            RunPosted();
          }
        case Closing(reason, status) =>
          PostsGrow(enqueued, Data(8, ToBytes(status, 2) + reason));
          StartedGrow(enqueued, waiting, Data(8, ToBytes(status, 2) + reason));
          Close(reason, status);
        case Written(ok) => if writing { WriteCompleted(ok); }
      }
      WaitsBehind();
      StartedGrow(enqueued, [], Hello([]));
    }

    lemma WaitsBehind()
      requires Valid()
      ensures |waiting| <= |enqueued| && (writing <==> sending != [])
    {
    }

    /** Where the connection is after `events`, which began with a Close frame sent or not, `n` posted calls and a queue
        in order or not. */
    ghost predicate Tracks(sent: bool, n: nat, orderly: bool, events: seq<Event>)
      reads this`hasSentClose, this`posted, this`enqueued
    {
      && hasSentClose == (sent || AnyClosing(events)) && |posted| == Backlog(n, events)
      && (Orderly(enqueued) <==> orderly && StopsAtClose(sent, n, events))
    }

    /** What went out by `events`, which began with `started` taken into writes. */
    ghost predicate TracksWire(l: Line, orderly: bool, started: seq<Out>, events: seq<Event>)
      reads this`hasSentClose, this`posted, this`writing, this`closeConnection, this`waiting, this`enqueued
    {
      LineNow() == LineBehind(l, events) && (Orderly(Started()) <==> Orderly(started) && StartsInOrder(l, orderly, events))
    }

    /** What `events` led to from a state with these frames enqueued and calls posted. */
    ghost predicate Ran(outs: seq<Out>, posts: seq<Post>, sent: bool, lost: bool, events: seq<Event>)
      reads this
    {
      && Valid() && outs <= enqueued && Sendable(posted) && Posts(enqueued) + posted == Posts(outs) + posts + SendsOf(events)
      && (!lost && Written(false) !in events ==> !failed)
      && Tracks(sent, |posts|, Orderly(outs), events)
    }

    /** One event more: a write that starts takes all that is enqueued. */
    method PerformOnWire(ghost l: Line, ghost orderly: bool, ghost started: seq<Out>, events: seq<Event>, i: nat)
      requires i < |events| && Possible(events[i]) && Valid() && Sendable(posted)
      requires TracksWire(l, orderly, started, events[..i]) && Tracks(l.sent, l.n, orderly, events[..i])
      modifies this
      ensures Valid() && Sendable(posted) && old(enqueued) <= enqueued
      ensures failed == (old(failed) || (events[i] == Written(false) && old(writing)))
      ensures Posts(enqueued) + posted == old(Posts(enqueued) + posted) + if events[i].Send? then [events[i].post] else []
      ensures TracksWire(l, orderly, started, events[..i + 1]) && Tracks(l.sent, l.n, orderly, events[..i + 1])
    {
      hide AllBytes, Concat, Posts, Valid, Sendable, Orderly, AnyClosing, StopsAtClose, Backlog, BacklogAfter, Possible, Builds, SendsOf,
        StartedOf, LineBehind, LineAfter, Starts, StartsInOrder, LineNow;
      StopsGrow(l.sent, l.n, events, i);
      StartsGrow(l, orderly, events, i);
      Perform(events[i]);
      Grown(old(enqueued), enqueued, old(waiting));
      OrderlyFront(old(enqueued), old(waiting));
    }

    method PerformNext(ghost outs: seq<Out>, ghost posts: seq<Post>, ghost l: Line, ghost started: seq<Out>, ghost lost: bool,
                       events: seq<Event>, i: nat)
      requires i < |events| && Possible(events[i]) && Ran(outs, posts, l.sent, lost, events[..i]) && l.n == |posts|
      requires TracksWire(l, Orderly(outs), started, events[..i])
      modifies this
      ensures Ran(outs, posts, l.sent, lost, events[..i + 1]) && TracksWire(l, Orderly(outs), started, events[..i + 1])
    {
      hide AllBytes, Concat, Posts, Valid, Sendable, Orderly, Tracks, TracksWire, Possible, Builds, SendsOf;
      SendsGrow(events, i);
      assert events[..i + 1] == events[..i] + [events[i]];
      PerformOnWire(l, Orderly(outs), started, events, i);
    }

    /** Any run of sends, closes and writes: frames are sent in the order of the calls, and as long as no write fails
        no byte is lost, doubled or moved. Nothing is enqueued behind a Close frame exactly if, once one was sent, nobody
        closes again and no posted call runs. Nothing goes out behind a Close frame exactly if that holds up to every
        start of a write: what is enqueued behind it while the connection is being closed may wait forever. */
    method Run(events: seq<Event>)
      requires Valid() && (forall e <- events :: Possible(e)) && Sendable(posted)
      modifies this
      ensures Valid() && old(enqueued) <= enqueued
      ensures Posts(enqueued) + posted == old(Posts(enqueued) + posted) + SendsOf(events)
      ensures !old(failed) && Written(false) !in events ==>
                wire + Concat(sendingBuffers) + Concat(writeBuffers) == AllBytes(little, enqueued) && Started() == written + sending
      ensures hasSentClose == (old(hasSentClose) || AnyClosing(events)) && |posted| == Backlog(old(|posted|), events)
      ensures Orderly(enqueued) <==> old(Orderly(enqueued)) && StopsAtClose(old(hasSentClose), old(|posted|), events)
      ensures Orderly(Started()) <==> old(Orderly(Started())) && StartsInOrder(old(LineNow()), old(Orderly(enqueued)), events)
    {
      hide *;
      ghost var outs, posts, l, started, lost := enqueued, posted, LineNow(), Started(), failed;
      NothingRan();
      var i := 0;
      assert events[..0] == [];
      while i < |events|
        invariant 0 <= i <= |events| && Ran(outs, posts, l.sent, lost, events[..i])
        invariant TracksWire(l, Orderly(outs), started, events[..i])
      {
        assert events[i] in events;
        PerformNext(outs, posts, l, started, lost, events, i);
        i := i + 1;
      }
      assert events[..i] == events;
      WhatRan(outs, posts, l.sent, lost, events);
      WhatWentOut(l, Orderly(outs), started, events);
      if !failed {
        Conserved();
        StartedIs();
      }
    }

    lemma NothingRan()
      requires Valid() && Sendable(posted)
      ensures Ran(enqueued, posted, hasSentClose, failed, []) && LineNow().sent == hasSentClose && LineNow().n == |posted|
      ensures TracksWire(LineNow(), Orderly(enqueued), Started(), [])
    {
      hide Valid, Sendable, Orderly, Posts, StartedOf;
    }

    lemma WhatWentOut(l: Line, orderly: bool, started: seq<Out>, events: seq<Event>)
      requires TracksWire(l, orderly, started, events)
      ensures Orderly(Started()) <==> Orderly(started) && StartsInOrder(l, orderly, events)
    {
      hide Orderly, Started, LineNow, LineBehind, StartsInOrder;
    }

    lemma WhatRan(outs: seq<Out>, posts: seq<Post>, sent: bool, lost: bool, events: seq<Event>)
      requires Ran(outs, posts, sent, lost, events)
      ensures Valid() && outs <= enqueued && Posts(enqueued) + posted == Posts(outs) + posts + SendsOf(events)
      ensures !lost && Written(false) !in events ==> !failed
      ensures hasSentClose == (sent || AnyClosing(events)) && |posted| == Backlog(|posts|, events)
      ensures Orderly(enqueued) <==> Orderly(outs) && StopsAtClose(sent, |posts|, events)
    {
      hide AllBytes, Concat, Posts, SendsOf, Valid, Sendable, Orderly, AnyClosing, StopsAtClose, Backlog;
    }

    /** Once nothing more is sent, two ends of writes at most bring everything onto the wire; but if the connection is being
        closed, only what is being sent, and what waits is never sent. */
    method Drain() returns (writes: nat)
      requires Valid() && !failed
      modifies this
      ensures Valid() && writes <= 2 && !writing && !failed && enqueued == old(enqueued)
      ensures if old(closeConnection) then wire == AllBytes(little, old(Started())) && waiting == old(waiting) && Started() == old(Started())
              else wire == AllBytes(little, enqueued) && waiting == []
    {
      ghost var outs, closing := waiting, closeConnection;
      StartedIs();
      writes := 0;
      while writing
        invariant Valid() && !failed && enqueued == old(enqueued)
        invariant writes <= 2 && (writes == 1 ==> waiting == [] || closing) && (writes == 2 ==> !writing)
        invariant if closing then closeConnection && waiting == outs && (writes >= 1 ==> !writing) else closeConnection ==> waiting == []
        decreases 2 - writes
      {
        WriteCompleted(true);
        writes := writes + 1;
      }
      StartedIs();
      assert written + [] == written;
      StartedGrow(enqueued, [], Hello([]));
    }

    // -------------------------------------------------------------- reading

    function IsFin(): bool
      reads this`miniHeader
    {
      miniHeader / 0x8000 % 2 == 1
    }

    function Opcode(): nat
      reads this`miniHeader
    {
      miniHeader / 0x100 % 0x10
    }

    function Box(): Inbox
      reads this`message, this`isBinary, this`handled, this`posted, this`pongReceived
    {
      Inbox(message, isBinary, handled, posted, pongReceived)
    }

    /** Part of `f` has been read, and the rest of it is what comes next, with `tail` behind. */
    ghost predicate Amid(f: Frame, tail: seq<byte>)
      requires ValidFrame(f)
      reads this, socket
    {
      var size := |f.payload|;
      && !state.MiniHeader? && hasMask == f.masked && IsFin() == f.fin && Opcode() == f.opcode
      && (state.Len16? ==> f.form.Sixteen? && socket.incoming == ToBytes(size, 2) + (f.key + (Body(f) + tail)))
      && (state.Len64? ==> f.form.SixtyFour? && socket.incoming == ToBytes(size, 8) + (f.key + (Body(f) + tail)))
      && (state.Mask? ==> remaining == size && socket.incoming == f.key + (Body(f) + tail))
      && (!state.Payload? ==> fragment == [])
      && (state.Payload? ==> |fragment| + remaining == size <= maxPayload && fragment + socket.incoming == Body(f) + tail && (f.masked ==> mask == f.key))
    }

    method ReadMiniHeader(ghost f: Frame, ghost tail: seq<byte>)
      requires state.MiniHeader? && fragment == [] && ValidFrame(f) && socket.incoming == Wire(f) + tail
      modifies this`state, this`miniHeader, this`hasMask, this`remaining, socket
      ensures Amid(f, tail) && !state.Payload?
    {
      ghost var rest := LengthBytes(f.form, |f.payload|) + (f.key + (Body(f) + tail));
      RestStarts(f, tail);
      HeaderBits(f);
      WireParts(f, tail);
      hide Wire, Body, ToBytes, Load, Swap, Byte0, Byte1, LengthBytes;
      var bytes := socket.Read(2);
      SameFront(bytes, socket.incoming, [Byte0(f), Byte1(f)], rest);
      miniHeader := Swap(little, Load(little, bytes), 2);
      NetworkOrder(little, bytes);
      hasMask := miniHeader / 0x80 % 2 == 1;
      var length := miniHeader % 0x80;
      if length == 127 {
        state := Len64;
      } else if length == 126 {
        state := Len16;
      } else {
        remaining := length;
        state := Mask;
      }
    }

    method ReadLen16(ghost f: Frame, ghost tail: seq<byte>)
      requires ValidFrame(f) && state.Len16? && Amid(f, tail)
      modifies this`state, this`remaining, socket
      ensures Amid(f, tail) && state.Mask?
    {
      hide BigEndian, ToBytes, Swap, Load, Body;
      var bytes := socket.Read(2);
      SameFront(bytes, socket.incoming, ToBytes(|f.payload|, 2), f.key + (Body(f) + tail));
      remaining := Swap(little, Load(little, bytes), 2);
      NetworkOrder(little, bytes);
      LengthReads(f);
      state := Mask;
    }

    method ReadLen64(ghost f: Frame, ghost tail: seq<byte>)
      requires ValidFrame(f) && state.Len64? && Amid(f, tail)
      modifies this`state, this`remaining, socket
      ensures Amid(f, tail) && state.Mask?
    {
      hide BigEndian, ToBytes, Swap64, Load, Body;
      var bytes := socket.Read(8);
      SameFront(bytes, socket.incoming, ToBytes(|f.payload|, 8), f.key + (Body(f) + tail));
      remaining := Swap64(little, Load(little, bytes));
      NetworkOrder64(little, bytes);
      LengthReads(f);
      state := Mask;
    }

    /** Refuses a payload that is too long; otherwise reads the key if there is one. */
    method ReadMask(ghost f: Frame, ghost tail: seq<byte>) returns (ok: bool)
      requires Valid() && ValidFrame(f) && state.Mask? && Amid(f, tail)
      modifies this`state, this`mask, this`closeConnection, socket
      ensures Valid() && ok == (|f.payload| <= maxPayload) && (ok ==> Amid(f, tail) && state.Payload? && closeConnection == old(closeConnection))
      ensures !ok ==> closeConnection
    {
      hide Body, Valid;
      if remaining > maxPayload {
        Shut();
        return false;
      }
      if hasMask {
        mask := socket.Read(4);
        SameFront(mask, socket.incoming, f.key, Body(f) + tail);
      }
      assert !f.masked ==> f.key + (Body(f) + tail) == Body(f) + tail;
      state := Payload;
      return true;
    }

    /** Reads as much of the payload as has come, at most what the buffer holds. */
    method ReadPayload(ghost f: Frame, ghost tail: seq<byte>)
      requires ValidFrame(f) && state.Payload? && Amid(f, tail)
      modifies this`fragment, this`remaining, socket
      ensures Amid(f, tail) && state.Payload? && (remaining < old(remaining) || remaining == 0)
    {
      hide Body;
      var toRead := if remaining < 4096 then remaining else 4096;
      assert |fragment + socket.incoming| == |Body(f) + tail| >= |f.payload|;
      var bytes := socket.ReadSome(toRead);
      assert old(fragment) + (bytes + socket.incoming) == (old(fragment) + bytes) + socket.incoming;
      fragment := fragment + bytes;
      remaining := remaining - |bytes|;
    }

    /** Undoes the masking of the fragment where it is. */
    method Unmask()
      requires |mask| == 4
      modifies this`fragment
      ensures fragment == Masked(old(fragment), mask)
    {
      hide Xor;
      var i := 0;
      while i < |fragment|
        invariant 0 <= i <= |fragment| == |old(fragment)|
        invariant forall k :: 0 <= k < i ==> fragment[k] == Xor(old(fragment)[k], mask[k % 4])
        invariant forall k :: i <= k < |fragment| ==> fragment[k] == old(fragment)[k]
      {
        fragment := fragment[i := Xor(fragment[i], mask[i % 4])];
        i := i + 1;
      }
    }

    /** What the fragment holds once its masking is undone. */
    function Content(): seq<byte>
      reads this`hasMask, this`mask, this`fragment
    {
      if hasMask && |mask| == 4 then Masked(fragment, mask) else fragment
    }

    method AddFragment()
      modifies this`message, this`handled
      ensures Box() == Add(old(Box()), IsFin(), fragment)
    {
      message := message + fragment;
      if IsFin() {
        handled := handled + [Message(isBinary, message)];
        message := [];
      }
    }

    /** A Close frame is answered by one that repeats its status code and reason; 1005 stands for a missing code. */
    method HandleClose() returns (goOn: bool)
      requires Valid()
      modifies this`sendingBuffers, this`writeBuffers, this`writing, this`sending, this`waiting, this`enqueued,
               this`hasSentClose, this`hasRecvClose, this`isCloseHandlerCalled, this`closes, this`closeConnection
      ensures Valid() && hasRecvClose && hasSentClose && isCloseHandlerCalled && goOn == !old(hasSentClose)
      ensures Orderly(enqueued) == old(Orderly(enqueued)) && Orderly(Started()) == old(Orderly(Started()))
      ensures enqueued == old(enqueued) + if old(hasSentClose) then [] else [Data(8, CloseReply(fragment))]
      ensures closes == old(closes) + if old(isCloseHandlerCalled) then [] else [CloseReason(fragment)]
      ensures !goOn ==> closeConnection
      ensures goOn ==> closeConnection == old(closeConnection)
    {
      hide Valid, ToBytes, BigEndian, Orderly, StartedOf;
      if !hasSentClose { InOrderUnlessClosed(); }
      hasRecvClose := true;
      var status, start := NO_STATUS_CODE_PRESENT, 2;
      if |fragment| >= 2 {
        status := Swap(little, Load(little, fragment[..2]), 2);
        NetworkOrder(little, fragment[..2]);
        TwoBytes(fragment[0], fragment[1]);
        ReadBackBytes(fragment[..2]);
        assert fragment[..2] == [fragment[0], fragment[1]];
        assert fragment == fragment[..2] + fragment[2..];
      } else {
        start := 0;
        assert fragment[0..] == fragment;
      }
      if !hasSentClose {
        Close(fragment[start..], status);
        OrderlyFront(enqueued, waiting);
        return true;
      }
      GiveUp(fragment[start..], status);
      return false;
    }

    lemma InOrderUnlessClosed()
      requires Valid() && !hasSentClose
      ensures Orderly(enqueued) && Orderly(Started())
    {
      OneMore(enqueued, Hello([]));
      OrderlyFront(enqueued, waiting);
    }

    method GiveUp(reason: seq<byte>, status: nat)
      requires Valid()
      modifies this`isCloseHandlerCalled, this`closes, this`closeConnection
      ensures Valid() && closeConnection && isCloseHandlerCalled
      ensures closes == old(closes) + if old(isCloseHandlerCalled) then [] else [(reason, status)]
    {
      closeConnection := true;
      if !isCloseHandlerCalled {
        closes := closes + [(reason, status)];
        isCloseHandlerCalled := true;
      }
    }

    /** handle_fragment: the frame is complete. */
    method HandleFragment() returns (goOn: bool)
      requires Valid() && (hasMask ==> |mask| == 4)
      modifies this`fragment, this`message, this`isBinary, this`handled, this`posted, this`pongReceived,
               this`sendingBuffers, this`writeBuffers, this`writing, this`sending, this`waiting, this`enqueued,
               this`hasSentClose, this`hasRecvClose, this`isCloseHandlerCalled, this`closes, this`closeConnection
      ensures Valid() && goOn == (Opcode() != 8 || !old(hasSentClose)) && (goOn ==> fragment == []) && (!goOn ==> closeConnection)
      ensures Box() == Handle(old(Box()), IsFin(), Opcode(), old(Content()))
      ensures Opcode() == 8 ==> hasRecvClose && hasSentClose && isCloseHandlerCalled
      ensures Orderly(enqueued) == old(Orderly(enqueued)) && Orderly(Started()) == old(Orderly(Started()))
      ensures Opcode() == 8 ==> enqueued == old(enqueued) + if old(hasSentClose) then [] else [Data(8, CloseReply(old(Content())))]
      ensures Opcode() == 8 ==> closes == old(closes) + if old(isCloseHandlerCalled) then [] else [CloseReason(old(Content()))]
      ensures Opcode() != 8 ==> enqueued == old(enqueued) && closes == old(closes) && hasSentClose == old(hasSentClose)
      ensures Opcode() != 8 ==> hasRecvClose == old(hasRecvClose) && closeConnection == old(closeConnection)
      ensures Opcode() != 8 ==> isCloseHandlerCalled == old(isCloseHandlerCalled)
    {
      hide Valid, Orderly, StartedOf;
      if hasMask { Unmask(); }
      assert fragment == old(Content());
      hide Content, Masked, Handle, CloseReply, CloseReason;
      goOn := true;
      if Opcode() == 8 {
        IgnoresClose(Box(), IsFin(), fragment);
        goOn := HandleClose();
        if !goOn { return; }
      } else {
        HandleOther();
      }
      fragment := [];
    }

    /** The frames that are not Close. */
    method HandleOther()
      requires Opcode() != 8
      modifies this`message, this`isBinary, this`handled, this`posted, this`pongReceived
      ensures Box() == Handle(old(Box()), IsFin(), Opcode(), fragment)
    {
      var op := Opcode();
      if op == 0 {
        AddFragment();
      } else if op == 1 {
        isBinary := false;
        AddFragment();
      } else if op == 2 {
        isBinary := true;
        AddFragment();
      } else if op == 9 {
        SendData(0xA, fragment);
      } else if op == 0xA {
        pongReceived := true;
      }
    }

    /** How many reads of a frame are still to come, apart from those of its payload. */
    ghost function Reads(): nat
      reads this`state
    {
      match state
      case MiniHeader => 3
      case Len16 => 2
      case Len64 => 2
      case Mask => 1
      case Payload => 0
    }

    /** do_read until a frame is complete or refused, in as many reads of the payload as it takes. Reading enqueues
        nothing behind a Close frame. */
    method ReadFrame(ghost f: Frame, ghost tail: seq<byte>) returns (goOn: bool)
      requires Valid() && ValidFrame(f) && state.MiniHeader? && fragment == [] && socket.incoming == Wire(f) + tail
      modifies this, socket
      ensures Valid() && maxPayload == old(maxPayload)
      ensures if goOn then state.MiniHeader? && fragment == [] && socket.incoming == tail else closeConnection
      ensures |f.payload| > maxPayload ==> !goOn && Box() == old(Box())
      ensures |f.payload| <= maxPayload ==> Box() == Handle(old(Box()), f.fin, f.opcode, f.payload)
      ensures |f.payload| <= maxPayload ==> goOn == (f.opcode != 8 || !old(hasSentClose))
      ensures Closed(f) ==> hasRecvClose && hasSentClose && isCloseHandlerCalled
      ensures Orderly(enqueued) == old(Orderly(enqueued)) && Orderly(Started()) == old(Orderly(Started()))
      ensures Closed(f) ==> enqueued == old(enqueued) + if old(hasSentClose) then [] else [Data(8, CloseReply(f.payload))]
      ensures Closed(f) ==> closes == old(closes) + if old(isCloseHandlerCalled) then [] else [CloseReason(f.payload)]
      ensures !Closed(f) ==> enqueued == old(enqueued) && closes == old(closes) && hasSentClose == old(hasSentClose)
      ensures !Closed(f) ==> hasRecvClose == old(hasRecvClose) && isCloseHandlerCalled == old(isCloseHandlerCalled)
      ensures !Closed(f) && goOn ==> closeConnection == old(closeConnection)
    {
      hide *;
      ClosedIs(f);
      var ok := ReadFragment(f, tail);
      if !ok { return false; }
      goOn := HandleFragment();
      if goOn { state := MiniHeader; }
    }

    /** The reads that bring a frame in. */
    method ReadFragment(ghost f: Frame, ghost tail: seq<byte>) returns (ok: bool)
      requires Valid() && ValidFrame(f) && state.MiniHeader? && fragment == [] && socket.incoming == Wire(f) + tail
      modifies this`state, this`miniHeader, this`hasMask, this`mask, this`remaining, this`fragment, this`closeConnection, socket
      ensures Valid() && ok == (|f.payload| <= maxPayload)
      ensures ok ==> closeConnection == old(closeConnection) && socket.incoming == tail && IsFin() == f.fin && Opcode() == f.opcode
      ensures ok ==> Content() == f.payload && (hasMask ==> |mask| == 4)
      ensures !ok ==> closeConnection
    {
      hide Valid, Wire, Masked;
      while true
        invariant Valid() && closeConnection == old(closeConnection)
        invariant state.MiniHeader? ==> fragment == [] && socket.incoming == Wire(f) + tail
        invariant !state.MiniHeader? ==> Amid(f, tail)
        decreases Reads(), remaining
      {
        match state
        case MiniHeader => ReadMiniHeader(f, tail);
        case Len16 => ReadLen16(f, tail);
        case Len64 => ReadLen64(f, tail);
        case Mask =>
          ok := ReadMask(f, tail);
          if !ok { return; }
        case Payload =>
          ReadPayload(f, tail);
          if remaining == 0 {
            Complete(f, tail);
            return true;
          }
      }
    }

    /** A Close frame that is not too long to be read. */
    ghost predicate Closed(f: Frame)
      reads this`maxPayload
    {
      f.opcode == 8 && |f.payload| <= maxPayload
    }

    lemma ClosedIs(f: Frame)
      ensures Closed(f) <==> f.opcode == 8 && |f.payload| <= maxPayload
    {
    }

    lemma Complete(f: Frame, tail: seq<byte>)
      requires ValidFrame(f) && Amid(f, tail) && state.Payload? && remaining == 0
      ensures Content() == f.payload && socket.incoming == tail && (hasMask ==> |mask| == 4) && |f.payload| <= maxPayload
    {
      hide Masked;
      SameFront(fragment, socket.incoming, Body(f), tail);
      if f.masked { MaskedTwice(f.payload, f.key); }
    }

    /** The connection is closed once Close frames went both ways. */
    method Shut()
      requires Valid()
      modifies this`closeConnection
      ensures Valid() && closeConnection
    {
      closeConnection := true;
    }

    /** Reads all the frames up to a Close frame or one that is too long. */
    method ReadAll(ghost frames: seq<Frame>)
      requires Valid() && AllValid(frames) && state.MiniHeader? && fragment == [] && socket.incoming == AllWire(frames) && !hasRecvClose
      modifies this, socket
      ensures Valid() && maxPayload == old(maxPayload)
      ensures Box() == HandleAll(old(Box()), BeforeStop(frames, maxPayload))
      ensures Orderly(enqueued) == old(Orderly(enqueued)) && Orderly(Started()) == old(Orderly(Started()))
      ensures var n := |BeforeStop(frames, maxPayload)|;
              if n == |frames| then
                && state.MiniHeader? && fragment == [] && socket.incoming == [] && closes == old(closes) && enqueued == old(enqueued)
                && closeConnection == old(closeConnection)
              else if frames[n].opcode == 8 && |frames[n].payload| <= maxPayload then
                && closeConnection && hasRecvClose && hasSentClose
                && closes == old(closes) + (if old(isCloseHandlerCalled) then [] else [CloseReason(frames[n].payload)])
                && enqueued == old(enqueued) + (if old(hasSentClose) then [] else [Data(8, CloseReply(frames[n].payload))])
              else closeConnection && closes == old(closes) && enqueued == old(enqueued)
    {
      hide *;
      Beginning(old(Box()), frames, maxPayload);
      ghost var i := 0;
      ValidFrom(frames, 0);
      while true
        invariant i <= |frames| && Valid() && state.MiniHeader? && fragment == [] && AllValid(frames[i..]) && socket.incoming == AllWire(frames[i..])
        invariant maxPayload == old(maxPayload) && closeConnection == old(closeConnection) && hasSentClose == old(hasSentClose)
        invariant !hasRecvClose && isCloseHandlerCalled == old(isCloseHandlerCalled) && closes == old(closes) && enqueued == old(enqueued)
        invariant BeforeStop(frames, maxPayload) == frames[..i] + BeforeStop(frames[i..], maxPayload)
        invariant Box() == HandleAll(old(Box()), frames[..i]) && Orderly(Started()) == old(Orderly(Started()))
        decreases |frames| - i
      {
        AllWireFrom(frames, i);
        if socket.incoming == [] { return; }
        ValidFrom(frames, i);
        ValidFrom(frames, i + 1);
        ClosedIs(frames[i]);
        BeforeStopFrom(frames, i, maxPayload);
        if frames[i].opcode == 8 { IgnoresClose(Box(), frames[i].fin, frames[i].payload); }
        var goOn := ReadFrame(frames[i], AllWire(frames[i + 1..]));
        if !goOn { return; }
        if hasSentClose && hasRecvClose {
          Shut();
          return;
        }
        HandleAllFrom(old(Box()), frames, i);
        i := i + 1;
      }
    }

    /** Whatever fragments the peer cuts its messages into, whatever control frames it puts between them and however the
        bytes come in, the handler gets the messages in order, and each ping its pong is posted. */
    method Deliver(ghost frames: seq<Frame>, ghost sent: seq<Sent>)
      requires Valid() && AllValid(frames) && state.MiniHeader? && fragment == [] && socket.incoming == AllWire(frames) && !hasRecvClose
      requires message == [] && Carries(frames, sent) && forall f <- frames :: f.opcode != 8 && |f.payload| <= maxPayload
      modifies this, socket
      ensures Valid() && socket.incoming == [] && message == []
      ensures handled == old(handled) + Messages(sent) && posted == old(posted) + Answers(frames)
    {
      hide Valid, AllValid, AllWire, Carries, HandleAll, Messages, Answers, BeforeStop;
      NothingStops(frames, maxPayload);
      Reassembled(Box(), frames, sent);
      ReadAll(frames);
    }
  }

  lemma ValidFrom(frames: seq<Frame>, i: nat)
    requires AllValid(frames) && i <= |frames|
    ensures AllValid(frames[i..]) && (i < |frames| ==> ValidFrame(frames[i]))
  {
    hide ValidFrame;
    if i < |frames| { assert frames[i] in frames; }
  }

  lemma IgnoresClose(s: Inbox, fin: bool, payload: seq<byte>)
    ensures Handle(s, fin, 8, payload) == s
  {
  }

  ghost predicate AllValid(frames: seq<Frame>) {
    forall f <- frames :: ValidFrame(f)
  }

  ghost function AllWire(frames: seq<Frame>): seq<byte>
    requires AllValid(frames)
  {
    if frames == [] then [] else Wire(frames[0]) + AllWire(frames[1..])
  }

  /** The frames that come before a Close frame and before one that is too long. */
  function BeforeStop(frames: seq<Frame>, max: nat): (r: seq<Frame>)
    ensures |r| <= |frames| && r == frames[..|r|]
  {
    if frames == [] || frames[0].opcode == 8 || |frames[0].payload| > max then []
    else [frames[0]] + BeforeStop(frames[1..], max)
  }

  lemma Beginning(s: Inbox, frames: seq<Frame>, max: nat)
    ensures frames[0..] == frames && BeforeStop(frames, max) == frames[..0] + BeforeStop(frames[0..], max)
    ensures HandleAll(s, frames[..0]) == s
    ensures BeforeStop(frames[|frames|..], max) == [] && frames[..|frames|] == frames
  {
  }

  lemma AllWireFrom(frames: seq<Frame>, i: nat)
    requires i <= |frames| && AllValid(frames)
    ensures i < |frames| ==> AllWire(frames[i..]) == Wire(frames[i]) + AllWire(frames[i + 1..])
    ensures AllWire(frames[i..]) == [] <==> i == |frames|
  {
    if i < |frames| {
      assert frames[i..][1..] == frames[i + 1..];
      assert Wire(frames[i])[0] == Byte0(frames[i]);
    }
  }

  lemma BeforeStopFrom(frames: seq<Frame>, i: nat, max: nat)
    requires i < |frames| && BeforeStop(frames, max) == frames[..i] + BeforeStop(frames[i..], max)
    ensures var f := frames[i];
            if f.opcode == 8 || |f.payload| > max then BeforeStop(frames, max) == frames[..i]
            else BeforeStop(frames, max) == frames[..i + 1] + BeforeStop(frames[i + 1..], max)
  {
    hide BeforeStop;
    BeforeStopFirst(frames[i..], max);
    assert frames[i..][1..] == frames[i + 1..];
    MovedOver(frames, i, BeforeStop(frames[i + 1..], max));
  }

  lemma MovedOver(frames: seq<Frame>, i: nat, rest: seq<Frame>)
    requires i < |frames|
    ensures frames[..i] + [] == frames[..i] && frames[..i] + ([frames[i]] + rest) == frames[..i + 1] + rest
  {
  }

  lemma BeforeStopFirst(frames: seq<Frame>, max: nat)
    requires frames != []
    ensures BeforeStop(frames, max) == if frames[0].opcode == 8 || |frames[0].payload| > max then []
                                       else [frames[0]] + BeforeStop(frames[1..], max)
  {
  }

  lemma {:induction false} HandleAllFrom(s: Inbox, frames: seq<Frame>, i: nat)
    requires i < |frames|
    ensures var f := frames[i];
            HandleAll(s, frames[..i + 1]) == Handle(HandleAll(s, frames[..i]), f.fin, f.opcode, f.payload)
    decreases i
  {
    hide Handle;
    if i == 0 {
      assert frames[..1][1..] == [];
    } else {
      var s' := Handle(s, frames[0].fin, frames[0].opcode, frames[0].payload);
      HandleAllFrom(s', frames[1..], i - 1);
      assert frames[..i + 1][1..] == frames[1..][..i] && frames[..i][1..] == frames[1..][..i - 1];
    }
  }

  lemma {:induction false} NothingStops(frames: seq<Frame>, max: nat)
    requires forall f <- frames :: f.opcode != 8 && |f.payload| <= max
    ensures BeforeStop(frames, max) == frames
  {
    if frames != [] {
      NothingStops(frames[1..], max);
      assert frames == [frames[0]] + frames[1..];
    }
  }

  /** The payload of the answer to a Close frame. */
  function CloseReply(payload: seq<byte>): seq<byte> {
    if |payload| >= 2 then payload else ToBytes(NO_STATUS_CODE_PRESENT, 2) + payload
  }

  function CloseReason(payload: seq<byte>): (seq<byte>, nat) {
    if |payload| >= 2 then (payload[2..], payload[0] as int * 256 + payload[1] as int) else (payload, NO_STATUS_CODE_PRESENT)
  }

  lemma SameFront(a: seq<byte>, b: seq<byte>, c: seq<byte>, d: seq<byte>)
    requires a + b == c + d && |a| == |c|
    ensures a == c && b == d
  {
    assert (a + b)[..|a|] == a && (c + d)[..|a|] == c;
    assert (a + b)[|a|..] == b && (c + d)[|a|..] == d;
  }

  lemma LengthReads(f: Frame)
    requires ValidFrame(f)
    ensures f.form.Sixteen? ==> BigEndian(ToBytes(|f.payload|, 2)) == |f.payload|
    ensures f.form.SixtyFour? ==> BigEndian(ToBytes(|f.payload|, 8)) == |f.payload|
  {
    hide BigEndian, ToBytes, Power256;
    PowersKnown();
    if f.form.Sixteen? { BytesReadBack(|f.payload|, 2); }
    if f.form.SixtyFour? { BytesReadBack(|f.payload|, 8); }
  }

  lemma RestStarts(f: Frame, tail: seq<byte>)
    requires ValidFrame(f)
    ensures LengthBytes(f.form, |f.payload|) + (f.key + (Body(f) + tail))
         == (match f.form case Seven => [] case Sixteen => ToBytes(|f.payload|, 2) case SixtyFour => ToBytes(|f.payload|, 8))
            + (f.key + (Body(f) + tail))
    ensures f.form.Seven? ==> [] + (f.key + (Body(f) + tail)) == f.key + (Body(f) + tail)
  {
    hide Body, ToBytes;
  }

  /** What the first two bytes of a frame say. */
  lemma HeaderBits(f: Frame)
    requires ValidFrame(f)
    ensures var h := BigEndian([Byte0(f), Byte1(f)]);
            && (h / 0x8000 % 2 == 1 <==> f.fin) && h / 0x100 % 0x10 == f.opcode && (h / 0x80 % 2 == 1 <==> f.masked)
            && h % 0x80 == Length7(f.form, |f.payload|)
  {
    TwoBytes(Byte0(f), Byte1(f));
    Bits(f.fin, f.opcode, f.masked, Length7(f.form, |f.payload|));
    hide BigEndian;
  }

  lemma Bits(fin: bool, opcode: nat, masked: bool, length: nat)
    requires opcode < 16 && length < 128
    ensures var h := ((if fin then 128 else 0) + opcode) * 256 + ((if masked then 128 else 0) + length);
            (h / 0x8000 % 2 == 1 <==> fin) && h / 0x100 % 0x10 == opcode && (h / 0x80 % 2 == 1 <==> masked) && h % 0x80 == length
  {
  }

  lemma WireParts(f: Frame, tail: seq<byte>)
    requires ValidFrame(f)
    ensures Wire(f) + tail == [Byte0(f), Byte1(f)] + (LengthBytes(f.form, |f.payload|) + (f.key + (Body(f) + tail)))
  {
    hide Body, LengthBytes, Byte0, Byte1;
  }

  lemma TwoBytes(a: byte, b: byte)
    ensures BigEndian([a, b]) == a * 256 + b
  {
    assert [a, b][..1] == [a] && [a][..0] == [];
    assert BigEndian([a]) == a;
  }

  // ---------------------------------------------------------------- what a peer reads

  /** The frames that a connection writes, as a peer sees them. */
  function FrameOf(x: Out): Frame
    requires x.Data?
  {
    Frame(true, x.opcode, Shortest(|x.payload|), false, [], x.payload)
  }

  predicate Frames(outs: seq<Out>) {
    forall x <- outs :: x.Data? && x.opcode < 16 && |x.payload| < 0x1_0000_0000_0000_0000
  }

  function FramesOf(outs: seq<Out>): seq<Frame>
    requires Frames(outs)
  {
    if outs == [] then [] else [FrameOf(outs[0])] + FramesOf(outs[1..])
  }

  /** The messages among the frames of a connection. */
  function SentOf(outs: seq<Out>): seq<Sent>
    requires Frames(outs)
  {
    if outs == [] then []
    else (if 1 <= outs[0].opcode <= 2 then [Sent(outs[0].opcode == 2, [outs[0].payload])] else []) + SentOf(outs[1..])
  }

  lemma WrittenAsFrame(little: bool, x: Out)
    requires Frames([x])
    ensures ValidFrame(FrameOf(x)) && OutBytes(little, x) == Wire(FrameOf(x))
  {
    assert x in [x];
    hide BuildHeader, Wire;
    HeaderIsShortest(little, x.opcode, x.payload);
  }

  lemma {:induction false} WrittenAsFrames(little: bool, outs: seq<Out>)
    requires Frames(outs)
    ensures AllValid(FramesOf(outs)) && AllBytes(little, outs) == AllWire(FramesOf(outs))
    decreases |outs|
  {
    hide Wire, OutBytes, FrameOf, ValidFrame;
    if outs != [] {
      var x, rest := outs[0], outs[1..];
      WrittenAsFrames(little, rest);
      WrittenAsFrame(little, x);
      assert FramesOf(outs)[1..] == FramesOf(rest);
    }
  }

  lemma {:induction false} FramesCarry(outs: seq<Out>)
    requires Frames(outs) && forall x <- outs :: x.opcode != 0
    ensures Carries(FramesOf(outs), SentOf(outs))
    decreases |outs|
  {
    if outs != [] {
      var x, rest := outs[0], outs[1..];
      FramesCarry(rest);
      assert ([FrameOf(x)] + FramesOf(rest))[1..] == FramesOf(rest);
      if 1 <= x.opcode <= 2 {
        var one := Sent(x.opcode == 2, [x.payload]);
        OnePiece(x.opcode, x.payload);
        assert ([one] + SentOf(rest))[1..] == SentOf(rest);
        assert AllPieces(SentOf(outs)) == Pieces(x.opcode, [x.payload]) + AllPieces(SentOf(rest));
      } else {
        assert [] + SentOf(rest) == SentOf(rest);
      }
    }
  }

  lemma OnePiece(opcode: nat, payload: seq<byte>)
    ensures Pieces(opcode, [payload]) == [Piece(true, opcode, payload)]
  {
    assert [payload][1..] == [];
  }

  /** The bytes that a connection writes are frames that carry what it sent, on a host of either byte order; a peer that
      reads them gets the same messages (see Deliver). */
  lemma PeerReads(little: bool, outs: seq<Out>)
    requires Frames(outs) && forall x <- outs :: x.opcode != 0
    ensures AllValid(FramesOf(outs)) && AllBytes(little, outs) == AllWire(FramesOf(outs))
    ensures Carries(FramesOf(outs), SentOf(outs))
  {
    WrittenAsFrames(little, outs);
    FramesCarry(outs);
  }

  /** A text frame that is sent while the Close frame is being written goes out behind it, which section 5.5.1 of
      RFC 6455 rules out; Run says when this happens. */
  method DataBehindClose() returns (c: Connection)
    ensures c.Valid() && !c.failed && c.hasSentClose
    ensures c.written == [Hello([]), Data(8, ToBytes(1000, 2))] && c.sending == [Data(1, [72, 105])] && !Orderly(c.enqueued)
  {
    hide *;
    var socket := new Socket([]);
    FewPieces(true, [], [], [], Hello([]));
    c := new Connection(socket, true, 4096, [[]]);
    c.WriteCompleted(true);
    c.WaitsBehind();
    assert ToBytes(1000, 2) + [] == ToBytes(1000, 2);
    c.Close([], 1000);
    c.SendData(1, [72, 105]);
    c.RunPosted();
    c.WriteCompleted(true);
  }

  lemma CloseLast(first: Out, payload: seq<byte>)
    requires first.Hello?
    ensures Orderly([first, Data(8, payload)])
  {
  }

  /** Sent while the Close frame is being written and the connection is being closed, the same frame stands behind the
      Close frame in the queue, but never goes out. */
  method DataStranded() returns (c: Connection)
    ensures c.Valid() && !c.failed && !c.writing && c.closeConnection
    ensures c.written == [Hello([]), Data(8, ToBytes(1000, 2))] && c.sending == [] && c.waiting == [Data(1, [72, 105])]
    ensures !Orderly(c.enqueued) && Orderly(c.Started())
  {
    hide *;
    var socket := new Socket([]);
    FewPieces(true, [], [], [], Hello([]));
    c := new Connection(socket, true, 4096, [[]]);
    assert ToBytes(1000, 2) + [] == ToBytes(1000, 2);
    c.Close([], 1000);
    c.WriteCompleted(true);
    c.WaitsBehind();
    c.SendData(1, [72, 105]);
    c.RunPosted();
    c.WriteCompleted(true);
    c.WaitsBehind();
    c.StartedIs();
    CloseLast(Hello([]), ToBytes(1000, 2));
    assert c.written + c.sending == [Hello([]), Data(8, ToBytes(1000, 2))];
  }
}
