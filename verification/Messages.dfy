/**
  * Reassembly (RFC 6455, sections 5.4 and 5.5): messages cut into fragments, with pings and pongs in
  * between, are read back whole and in order, and every ping is answered.
  */
module Messages {
  import opened Sequences
  import opened Options
  import opened Bytes
  import opened Frames
  import opened FrameLaws
  import opened Reader

  /** How a peer chose to write one frame. */
  datatype Coding = Coding(form: LengthForm, mask: Option<Bytes>)

  datatype Packet = Packet(coding: Coding, frame: Frame)

  /** A ping or a pong between two fragments. */
  datatype Control = Control(coding: Coding, ping: bool, payload: Bytes)

  /** One piece of a message, with the control frames that go before it. */
  datatype Fragment = Fragment(controls: seq<Control>, coding: Coding, payload: Bytes)

  // ----- What a peer may send -----

  predicate CodingOk(c: Coding, len: nat, requireMask: bool) {
    && Holds(c.form, len) && len <= MAX_FRAME_BYTES
    && (c.mask.Some? ==> |c.mask.value| == 4) && (requireMask ==> c.mask.Some?)
  }

  ghost predicate ControlsOk(cs: seq<Control>, requireMask: bool) {
    cs == [] || (&& CodingOk(cs[0].coding, |cs[0].payload|, requireMask)
                 && |cs[0].payload| <= 125 && ControlsOk(cs[1..], requireMask))
  }

  ghost predicate FragmentsOk(fs: seq<Fragment>, requireMask: bool) {
    fs == [] || (&& ControlsOk(fs[0].controls, requireMask)
                 && CodingOk(fs[0].coding, |fs[0].payload|, requireMask)
                 && FragmentsOk(fs[1..], requireMask))
  }

  /** A message has at least one fragment. */
  ghost predicate MessagesOk(ms: seq<seq<Fragment>>, requireMask: bool) {
    ms == [] || (ms[0] != [] && FragmentsOk(ms[0], requireMask) && MessagesOk(ms[1..], requireMask))
  }

  // ----- Its bytes -----

  function PacketBytes(c: Coding, f: Frame): Bytes
    requires Holds(c.form, |f.payload|) && (c.mask.Some? ==> |c.mask.value| == 4)
  {
    Wire(c.form, c.mask, f)
  }

  ghost function ControlBytes(cs: seq<Control>, requireMask: bool): Bytes
    requires ControlsOk(cs, requireMask)
  {
    if cs == [] then []
    else PacketBytes(cs[0].coding, Frame(true, if cs[0].ping then 0x9 else 0xA, cs[0].payload))
         + ControlBytes(cs[1..], requireMask)
  }

  /** The first fragment of a message is a text frame, the others continue it, the last is final. */
  ghost function FragmentBytes(fs: seq<Fragment>, first: bool, requireMask: bool): Bytes
    requires FragmentsOk(fs, requireMask)
  {
    if fs == [] then []
    else ControlBytes(fs[0].controls, requireMask)
         + (PacketBytes(fs[0].coding, FragmentFrame(fs, first))
            + FragmentBytes(fs[1..], false, requireMask))
  }

  function FragmentFrame(fs: seq<Fragment>, first: bool): Frame
    requires fs != []
  {
    Frame(|fs| == 1, if first then 0x1 else 0x0, fs[0].payload)
  }

  ghost function MessageBytes(ms: seq<seq<Fragment>>, requireMask: bool): Bytes
    requires MessagesOk(ms, requireMask)
  {
    if ms == [] then []
    else FragmentBytes(ms[0], true, requireMask) + MessageBytes(ms[1..], requireMask)
  }

  // ----- What it means -----

  function TextOf(fs: seq<Fragment>): Bytes {
    if fs == [] then [] else fs[0].payload + TextOf(fs[1..])
  }

  /** One pong per ping, in order, with the ping's payload. */
  ghost function PongsOf(cs: seq<Control>, requireMask: bool): Bytes
    requires ControlsOk(cs, requireMask)
  {
    if cs == [] then []
    else (if cs[0].ping then PongReply(cs[0].payload) else []) + PongsOf(cs[1..], requireMask)
  }

  ghost function FragmentPongs(fs: seq<Fragment>, requireMask: bool): Bytes
    requires FragmentsOk(fs, requireMask)
  {
    if fs == [] then []
    else PongsOf(fs[0].controls, requireMask) + FragmentPongs(fs[1..], requireMask)
  }

  ghost function MessagePongs(ms: seq<seq<Fragment>>, requireMask: bool): Bytes
    requires MessagesOk(ms, requireMask)
  {
    if ms == [] then []
    else FragmentPongs(ms[0], requireMask) + MessagePongs(ms[1..], requireMask)
  }

  ghost function Texts(ms: seq<seq<Fragment>>): seq<Result> {
    if ms == [] then [] else [Message(TextOf(ms[0]))] + Texts(ms[1..])
  }

  // ----- One packet -----

  lemma {:induction false} ReadPacket(c: Coding, f: Frame, tail: Bytes, a: Assembly,
                                      requireMask: bool)
    requires CodingOk(c, |f.payload|, requireMask) && f.opcode < 16
    requires f.opcode >= 8 ==> f.fin && |f.payload| <= 125
    ensures var act := OnFrame(a, f);
            Read(PacketBytes(c, f) + tail, a, requireMask)
            == match act
               case Return(result, next, sent) => Outcome(result, tail, next, sent)
               case Continue(next, sent) =>
                 var o := Read(tail, next, requireMask);
                 o.(sent := sent + o.sent)
  {
    var w := PacketBytes(c, f);
    DecodeWire(c.form, c.mask, f, tail, requireMask);
    assert (w + tail)[|w|..] == tail;
  }

  /** Adds replies in front of what an outcome sends. */
  function Saying(sent: Bytes, o: Outcome): Outcome {
    o.(sent := sent + o.sent)
  }

  lemma {:induction false} SayingTwice(x: Bytes, y: Bytes, o: Outcome)
    ensures Saying(x, Saying(y, o)) == Saying(x + y, o)
  {
    Assoc(x, y, o.sent);
  }

  // ----- Control frames leave the message under assembly alone -----

  lemma {:induction false} ReadControls(cs: seq<Control>, tail: Bytes, a: Assembly,
                                        requireMask: bool)
    requires ControlsOk(cs, requireMask)
    ensures Read(ControlBytes(cs, requireMask) + tail, a, requireMask)
         == Saying(PongsOf(cs, requireMask), Read(tail, a, requireMask))
    decreases |cs|
  {
    if cs == [] {
      assert [] + tail == tail;
      var o := Read(tail, a, requireMask);
      assert [] + o.sent == o.sent;
    } else {
      var c := cs[0];
      var f := Frame(true, if c.ping then 0x9 else 0xA, c.payload);
      var rest := ControlBytes(cs[1..], requireMask);
      Assoc(PacketBytes(c.coding, f), rest, tail);
      ReadPacket(c.coding, f, rest + tail, a, requireMask);
      ReadControls(cs[1..], tail, a, requireMask);
      SayingTwice(if c.ping then PongReply(c.payload) else [], PongsOf(cs[1..], requireMask),
                  Read(tail, a, requireMask));
    }
  }

  // ----- Fragments accumulate -----

  /** What is under assembly before a fragment: nothing, or a text message begun. */
  function Before(first: bool, text: Bytes): Assembly {
    if first then IDLE else Assembly(0x1, text)
  }

  lemma {:induction false} ReadFragmentHead(fs: seq<Fragment>, first: bool, a: Assembly, tail: Bytes,
                                            requireMask: bool)
    requires fs != [] && FragmentsOk(fs, requireMask)
    ensures var rest := FragmentBytes(fs[1..], false, requireMask) + tail;
            Read(FragmentBytes(fs, first, requireMask) + tail, a, requireMask)
            == Saying(PongsOf(fs[0].controls, requireMask),
                      Read(PacketBytes(fs[0].coding, FragmentFrame(fs, first)) + rest, a, requireMask))
  {
    var packet := PacketBytes(fs[0].coding, FragmentFrame(fs, first));
    var rest := FragmentBytes(fs[1..], false, requireMask);
    Assoc(ControlBytes(fs[0].controls, requireMask), packet + rest, tail);
    Assoc(packet, rest, tail);
    ReadControls(fs[0].controls, packet + (rest + tail), a, requireMask);
  }

  lemma {:induction false} ReadFragmentFrame(fs: seq<Fragment>, first: bool, text: Bytes, rest: Bytes,
                                             requireMask: bool)
    requires fs != [] && FragmentsOk(fs, requireMask) && (first ==> text == [])
    ensures Read(PacketBytes(fs[0].coding, FragmentFrame(fs, first)) + rest, Before(first, text),
                 requireMask)
         == if |fs| == 1 then Outcome(Message(text + fs[0].payload), rest, IDLE, [])
            else Read(rest, Before(false, text + fs[0].payload), requireMask)
  {
    ReadPacket(fs[0].coding, FragmentFrame(fs, first), rest, Before(first, text), requireMask);
    assert first ==> text + fs[0].payload == fs[0].payload;
    var o := Read(rest, Before(false, text + fs[0].payload), requireMask);
    assert [] + o.sent == o.sent;
  }

  lemma {:induction false} ReadFragments(fs: seq<Fragment>, first: bool, text: Bytes, tail: Bytes,
                                         requireMask: bool)
    requires fs != [] && FragmentsOk(fs, requireMask) && (first ==> text == [])
    ensures Read(FragmentBytes(fs, first, requireMask) + tail, Before(first, text), requireMask)
         == Outcome(Message(text + TextOf(fs)), tail, IDLE, FragmentPongs(fs, requireMask))
    decreases |fs|
  {
    var rest := FragmentBytes(fs[1..], false, requireMask) + tail;
    ReadFragmentHead(fs, first, Before(first, text), tail, requireMask);
    ReadFragmentFrame(fs, first, text, rest, requireMask);
    if |fs| == 1 {
      LastFragment(fs, text, tail, requireMask);
    } else {
      Assoc(text, fs[0].payload, TextOf(fs[1..]));
      ReadFragments(fs[1..], false, text + fs[0].payload, tail, requireMask);
    }
  }

  lemma {:induction false} LastFragment(fs: seq<Fragment>, text: Bytes, tail: Bytes,
                                        requireMask: bool)
    requires |fs| == 1 && FragmentsOk(fs, requireMask)
    ensures FragmentBytes(fs[1..], false, requireMask) + tail == tail
    ensures TextOf(fs) == fs[0].payload
    ensures FragmentPongs(fs, requireMask) == PongsOf(fs[0].controls, requireMask) + []
  {
    assert fs[1..] == [];
  }

  /** A whole message, however fragmented, is one `read_text`, which leaves the reader idle. */
  lemma {:induction false} ReadMessage(fs: seq<Fragment>, tail: Bytes, requireMask: bool)
    requires fs != [] && FragmentsOk(fs, requireMask)
    ensures Read(FragmentBytes(fs, true, requireMask) + tail, IDLE, requireMask)
         == Outcome(Message(TextOf(fs)), tail, IDLE, FragmentPongs(fs, requireMask))
  {
    ReadFragments(fs, true, [], tail, requireMask);
    assert [] + TextOf(fs) == TextOf(fs);
  }

  // ----- Successive reads -----

  datatype Session = Session(results: seq<Result>, rest: Bytes, next: Assembly, sent: Bytes)

  /** `n` successive reads of a stream. */
  function ReadMany(stream: Bytes, a: Assembly, n: nat, requireMask: bool): Session
    decreases n
  {
    if n == 0 then Session([], stream, a, [])
    else
      var o := Read(stream, a, requireMask);
      var s := ReadMany(o.rest, o.next, n - 1, requireMask);
      Session([o.result] + s.results, s.rest, s.next, o.sent + s.sent)
  }

  lemma {:induction false} ReadOneMore(fs: seq<Fragment>, rest: Bytes, tail: Bytes, n: nat,
                                       requireMask: bool)
    requires fs != [] && FragmentsOk(fs, requireMask)
    ensures var s := ReadMany(rest + tail, IDLE, n, requireMask);
            ReadMany(FragmentBytes(fs, true, requireMask) + rest + tail, IDLE, n + 1, requireMask)
            == Session([Message(TextOf(fs))] + s.results, s.rest, s.next,
                       FragmentPongs(fs, requireMask) + s.sent)
  {
    Assoc(FragmentBytes(fs, true, requireMask), rest, tail);
    ReadMessage(fs, rest + tail, requireMask);
  }

  /** Successive reads return the messages in order and answer every ping. */
  lemma {:induction false} ReadAllMessages(ms: seq<seq<Fragment>>, n: nat, tail: Bytes,
                                           requireMask: bool)
    requires MessagesOk(ms, requireMask) && n == |ms|
    ensures ReadMany(MessageBytes(ms, requireMask) + tail, IDLE, n, requireMask)
         == Session(Texts(ms), tail, IDLE, MessagePongs(ms, requireMask))
    decreases n
  {
    if ms == [] {
      assert [] + tail == tail;
    } else {
      ReadOneMore(ms[0], MessageBytes(ms[1..], requireMask), tail, n - 1, requireMask);
      ReadAllMessages(ms[1..], n - 1, tail, requireMask);
    }
  }

  /** `n` calls of `read_text`, with the chunks of `net` cut anywhere. */
  method ReadTexts(r: FrameReader, net: Socket, n: nat) returns (results: seq<Result>)
    modifies r, net
    ensures var s := ReadMany(old(r.Pending(net)), old(r.State()), n, r.requireMask);
            && results == s.results && r.Pending(net) == s.rest && r.State() == s.next
            && net.outgoing == old(net.outgoing) + s.sent
  {
    ghost var goal := ReadMany(r.Pending(net), r.State(), n, r.requireMask);
    NothingRead(goal, net.outgoing);
    results := ReadOn(r, net, n, goal, net.outgoing);
  }

  lemma {:induction false} NothingRead(goal: Session, said: Bytes)
    ensures Completes([], said, goal, goal, said)
  {
  }

  method ReadOn(r: FrameReader, net: Socket, n: nat, ghost goal: Session, ghost said: Bytes)
    returns (results: seq<Result>)
    requires Promising(r, net, n, [], goal, said)
    modifies r, net
    ensures results == goal.results && r.Pending(net) == goal.rest && r.State() == goal.next
    ensures net.outgoing == said + goal.sent
  {
    results := [];
    var left := n;
    while left > 0
      invariant left >= 0 && Promising(r, net, left, results, goal, said)
    {
      results := ReadNext(r, net, left, results, goal, said);
      left := left - 1;
    }
    Kept(r, net, results, goal, said);
  }

  /** The reads still to come complete `results` to the whole session `goal`, begun after `said`. */
  ghost predicate Promising(r: FrameReader, net: Socket, n: nat, results: seq<Result>, goal: Session, said: Bytes)
    reads r, net
  {
    Completes(results, net.outgoing, ReadMany(r.Pending(net), r.State(), n, r.requireMask), goal, said)
  }

  method ReadNext(r: FrameReader, net: Socket, ghost n: nat, results: seq<Result>, ghost goal: Session,
                  ghost said: Bytes) returns (more: seq<Result>)
    requires n > 0 && Promising(r, net, n, results, goal, said)
    modifies r, net
    ensures Promising(r, net, n - 1, more, goal, said)
  {
    ghost var stream, a, sent := r.Pending(net), r.State(), net.outgoing;
    var result := r.ReadText(net);
    OneRead(stream, a, n, r.requireMask, results, sent, goal, said);
    more := results + [result];
  }

  lemma {:induction false} Kept(r: FrameReader, net: Socket, results: seq<Result>, goal: Session, said: Bytes)
    requires Promising(r, net, 0, results, goal, said)
    ensures results == goal.results && r.Pending(net) == goal.rest && r.State() == goal.next
    ensures net.outgoing == said + goal.sent
  {
  }

  /**
    * An idle reader with a stream of masked messages before it, each in any fragments, with pings and
    * pongs between them, in any chunks: as many calls as there are messages return exactly the messages,
    * in order, and answer every ping, in order.
    */
  method ReadMessages(r: FrameReader, net: Socket, n: nat, ghost ms: seq<seq<Fragment>>, ghost tail: Bytes)
    returns (results: seq<Result>)
    requires MessagesOk(ms, r.requireMask) && n == |ms|
    requires r.State() == IDLE && r.Pending(net) == MessageBytes(ms, r.requireMask) + tail
    modifies r, net
    ensures results == Texts(ms)
    ensures r.State() == IDLE && r.Pending(net) == tail
    ensures net.outgoing == old(net.outgoing) + MessagePongs(ms, r.requireMask)
  {
    ReadAllMessages(ms, n, tail, r.requireMask);
    results := ReadTexts(r, net, n);
  }

  /** With `results` and `sent` behind it and `t` to come, a session ends as `goal` after `said`. */
  ghost predicate Completes(results: seq<Result>, sent: Bytes, t: Session, goal: Session, said: Bytes) {
    && results + t.results == goal.results && t.rest == goal.rest && t.next == goal.next
    && sent + t.sent == said + goal.sent
  }

  lemma {:induction false} OneRead(stream: Bytes, a: Assembly, n: nat, requireMask: bool,
                                   results: seq<Result>, sent: Bytes, goal: Session, said: Bytes)
    requires n > 0 && Completes(results, sent, ReadMany(stream, a, n, requireMask), goal, said)
    ensures var o := Read(stream, a, requireMask);
            Completes(results + [o.result], sent + o.sent,
                      ReadMany(o.rest, o.next, n - 1, requireMask), goal, said)
  {
    var o := Read(stream, a, requireMask);
    var t := ReadMany(o.rest, o.next, n - 1, requireMask);
    Assoc(sent, o.sent, t.sent);
    Assoc(results, [o.result], t.results);
  }

  // ----- Where the reader departs from the standard -----

  /**
    * A text frame inside an unfinished message breaks section 5.4. The reader notices exactly when
    * that frame is not final; a final one is returned at once and the unfinished message stays.
    */
  lemma {:induction false} InterleavedText(c: Coding, f: Frame, tail: Bytes, a: Assembly,
                                           requireMask: bool)
    requires CodingOk(c, |f.payload|, requireMask) && f.opcode == 0x1 && a.opcode != 0
    ensures var o := Read(PacketBytes(c, f) + tail, a, requireMask);
            && (o.result == Failed(NestedFragments) <==> !f.fin)
            && (f.fin ==> o == Outcome(Message(f.payload), tail, a, []))
  {
    ReadPacket(c, f, tail, a, requireMask);
  }
}
