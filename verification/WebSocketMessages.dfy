/** What the frames of a websocket stand for: messages cut into fragments, with pings and pongs between them. */
module WebSocketMessages {
  import opened WebSocketFrames

  datatype Message = Message(binary: bool, payload: seq<byte>)

  /** A frame that is to be sent. */
  datatype Post = Post(opcode: nat, payload: seq<byte>)

  /** What `handle_fragment` keeps: the message being put together, the messages handed to the handler and the answers
      that were posted. */
  datatype Inbox = Inbox(message: seq<byte>, binary: bool, handled: seq<Message>, posted: seq<Post>, pongReceived: bool)

  function Add(s: Inbox, fin: bool, payload: seq<byte>): Inbox {
    var whole := s.message + payload;
    if fin then s.(message := [], handled := s.handled + [Message(s.binary, whole)]) else s.(message := whole)
  }

  /** handle_fragment for every frame but Close. */
  function Handle(s: Inbox, fin: bool, opcode: nat, payload: seq<byte>): Inbox {
    if opcode == 0 then Add(s, fin, payload)
    else if opcode == 1 then Add(s.(binary := false), fin, payload)
    else if opcode == 2 then Add(s.(binary := true), fin, payload)
    else if opcode == 9 then s.(posted := s.posted + [Post(0xA, payload)])
    else if opcode == 0xA then s.(pongReceived := true)
    else s
  }

  function HandleAll(s: Inbox, frames: seq<Frame>): Inbox
    decreases |frames|
  {
    if frames == [] then s
    else HandleAll(Handle(s, frames[0].fin, frames[0].opcode, frames[0].payload), frames[1..])
  }

  // ---------------------------------------------------------------- what a sender does to its messages

  /** A message and the fragments it is sent in. */
  datatype Sent = Sent(binary: bool, parts: seq<seq<byte>>)

  /** What a data frame carries. */
  datatype Piece = Piece(fin: bool, opcode: nat, payload: seq<byte>)

  function Concat(parts: seq<seq<byte>>): seq<byte> {
    if parts == [] then [] else parts[0] + Concat(parts[1..])
  }

  /** The fragments of a message from `opcode` on: all but the first are continuations, the last is final (section 5.4
      of RFC 6455). */
  function Pieces(opcode: nat, parts: seq<seq<byte>>): seq<Piece> {
    if parts == [] then [] else [Piece(|parts| == 1, opcode, parts[0])] + Pieces(0, parts[1..])
  }

  function AllPieces(sent: seq<Sent>): seq<Piece> {
    if sent == [] then [] else Pieces(if sent[0].binary then 2 else 1, sent[0].parts) + AllPieces(sent[1..])
  }

  predicate Control(opcode: nat) { opcode > 2 }

  /** The data frames among `frames`. */
  function DataPieces(frames: seq<Frame>): (r: seq<Piece>)
    ensures forall p <- r :: !Control(p.opcode)
  {
    if frames == [] then []
    else if Control(frames[0].opcode) then DataPieces(frames[1..])
    else [Piece(frames[0].fin, frames[0].opcode, frames[0].payload)] + DataPieces(frames[1..])
  }

  /** The pongs that answer the pings among `frames`. */
  function Answers(frames: seq<Frame>): seq<Post> {
    if frames == [] then []
    else (if frames[0].opcode == 9 then [Post(0xA, frames[0].payload)] else []) + Answers(frames[1..])
  }

  function Messages(sent: seq<Sent>): seq<Message> {
    if sent == [] then [] else [Message(sent[0].binary, Concat(sent[0].parts))] + Messages(sent[1..])
  }

  /** The frames carry `sent`, in order, cut up as it is there, whatever control frames stand between. */
  predicate Carries(frames: seq<Frame>, sent: seq<Sent>) {
    (forall x <- sent :: x.parts != []) && DataPieces(frames) == AllPieces(sent)
  }

  // ---------------------------------------------------------------- reassembly

  function HandlePieces(s: Inbox, pieces: seq<Piece>): Inbox
    decreases |pieces|
  {
    if pieces == [] then s else HandlePieces(Handle(s, pieces[0].fin, pieces[0].opcode, pieces[0].payload), pieces[1..])
  }

  /** A control frame leaves what is put together alone; a data frame leaves the answers alone. */
  lemma HandleApart(s: Inbox, f: Frame)
    ensures var s' := Handle(s, f.fin, f.opcode, f.payload);
            && s'.posted == s.posted + Answers([f])
            && (Control(f.opcode) ==> s' == s.(posted := s'.posted, pongReceived := s'.pongReceived))
  {
    assert [f][1..] == [];
  }

  lemma AnswersFrom(frames: seq<Frame>)
    requires frames != []
    ensures Answers(frames) == Answers([frames[0]]) + Answers(frames[1..])
  {
    assert [frames[0]][1..] == [];
  }

  /** Control frames between fragments change nothing in what is put together. */
  lemma {:induction false} ControlsBetween(s: Inbox, frames: seq<Frame>)
    ensures var r, d := HandleAll(s, frames), HandlePieces(s, DataPieces(frames));
            r == d.(posted := s.posted + Answers(frames), pongReceived := r.pongReceived)
    decreases |frames|
  {
    hide Handle;
    if frames == [] {
      assert s.posted + Answers(frames) == s.posted;
    } else {
      var f, rest := frames[0], frames[1..];
      var s' := Handle(s, f.fin, f.opcode, f.payload);
      ControlsBetween(s', rest);
      HandleApart(s, f);
      AnswersFrom(frames);
      hide Answers;
      assert s'.posted + Answers(rest) == s.posted + Answers(frames);
      if Control(f.opcode) {
        OnlyPieces(s, s', DataPieces(rest));
      } else {
        assert DataPieces(frames)[1..] == DataPieces(rest);
      }
    }
  }

  /** Data frames see of the inbox only the message that is being put together. */
  lemma {:induction false} OnlyPieces(s: Inbox, s': Inbox, pieces: seq<Piece>)
    requires s' == s.(posted := s'.posted, pongReceived := s'.pongReceived)
    requires forall p <- pieces :: !Control(p.opcode)
    ensures HandlePieces(s', pieces) == HandlePieces(s, pieces).(posted := s'.posted, pongReceived := s'.pongReceived)
    decreases |pieces|
  {
    if pieces != [] {
      var p := pieces[0];
      OnlyPieces(Handle(s, p.fin, p.opcode, p.payload), Handle(s', p.fin, p.opcode, p.payload), pieces[1..]);
    }
  }

  /** All that was missing of a message has come. */
  function Joined(s: Inbox, binary: bool, payload: seq<byte>): Inbox {
    s.(message := [], binary := binary, handled := s.handled + [Message(binary, s.message + payload)])
  }

  lemma {:induction false} PiecesJoin(s: Inbox, opcode: nat, parts: seq<seq<byte>>, rest: seq<Piece>)
    requires parts != [] && !Control(opcode)
    ensures HandlePieces(s, Pieces(opcode, parts) + rest)
         == HandlePieces(Joined(s, if opcode == 0 then s.binary else opcode == 2, Concat(parts)), rest)
    decreases |parts|
  {
    var binary := if opcode == 0 then s.binary else opcode == 2;
    var s' := Handle(s, |parts| == 1, opcode, parts[0]);
    assert |parts| == 1 ==> s' == Joined(s, binary, parts[0]);
    assert |parts| > 1 ==> s' == s.(message := s.message + parts[0], binary := binary);
    hide Handle;
    PiecesFrom(s, opcode, parts, rest);
    if |parts| == 1 {
      assert Concat(parts) == parts[0];
    } else {
      PiecesJoin(s', 0, parts[1..], rest);
      assert s.message + Concat(parts) == s'.message + Concat(parts[1..]);
    }
  }

  lemma PiecesFrom(s: Inbox, opcode: nat, parts: seq<seq<byte>>, rest: seq<Piece>)
    requires parts != []
    ensures HandlePieces(s, Pieces(opcode, parts) + rest)
         == HandlePieces(Handle(s, |parts| == 1, opcode, parts[0]), Pieces(0, parts[1..]) + rest)
    ensures |parts| == 1 ==> Pieces(0, parts[1..]) + rest == rest
  {
    hide Handle;
    assert (Pieces(opcode, parts) + rest)[1..] == Pieces(0, parts[1..]) + rest;
  }

  lemma {:induction false} MessagesJoin(s: Inbox, sent: seq<Sent>)
    requires s.message == [] && forall x <- sent :: x.parts != []
    ensures var r := HandlePieces(s, AllPieces(sent));
            r.handled == s.handled + Messages(sent) && r.message == [] && r.posted == s.posted
    decreases |sent|
  {
    if sent == [] {
      assert Messages(sent) == [] && s.handled + [] == s.handled;
    } else {
      hide *;
      var x := sent[0];
      var t := s.(message := [], binary := x.binary, handled := s.handled + [Message(x.binary, Concat(x.parts))]);
      MessageJoins(s, sent);
      MessagesJoin(t, sent[1..]);
      assert s.handled + ([Message(x.binary, Concat(x.parts))] + Messages(sent[1..])) == t.handled + Messages(sent[1..]);
    }
  }

  lemma MessageJoins(s: Inbox, sent: seq<Sent>)
    requires s.message == [] && sent != [] && sent[0].parts != []
    ensures var x := sent[0];
            HandlePieces(s, AllPieces(sent)) ==
              HandlePieces(s.(message := [], binary := x.binary, handled := s.handled + [Message(x.binary, Concat(x.parts))]), AllPieces(sent[1..]))
    ensures Messages(sent) == [Message(sent[0].binary, Concat(sent[0].parts))] + Messages(sent[1..])
  {
    hide HandlePieces, Pieces, Concat;
    var opcode, x := if sent[0].binary then 2 else 1, sent[0];
    PiecesJoin(s, opcode, x.parts, AllPieces(sent[1..]));
    assert s.message + Concat(x.parts) == Concat(x.parts);
  }

  /** Whatever fragments the messages were cut into and whatever control frames stand between them, the handler gets
      the messages, and every ping its pong. */
  lemma Reassembled(s: Inbox, frames: seq<Frame>, sent: seq<Sent>)
    requires s.message == [] && Carries(frames, sent)
    ensures var r := HandleAll(s, frames);
            r.handled == s.handled + Messages(sent) && r.message == [] && r.posted == s.posted + Answers(frames)
  {
    ControlsBetween(s, frames);
    MessagesJoin(s, sent);
  }
}
