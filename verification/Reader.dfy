/**
  * The message reader of the debug server: it joins fragments, answers pings and stops at a message,
  * a close or an error. Its result is a function of the bytes alone, not of how they arrive.
  */
module Reader {
  import opened Sequences
  import opened Options
  import opened Bytes
  import opened Frames
  import opened FrameLaws

  datatype ReadError =
    | BadFrame(error: Error)
    | UnexpectedContinuation  // unexpected WebSocket continuation frame
    | NestedFragments         // nested WebSocket fragmented message
    | UnsupportedOpcode       // unsupported WebSocket opcode

  datatype Result = Message(text: Bytes) | Closed | Failed(reason: ReadError)

  /** The message under assembly; opcode 0 means none. */
  datatype Assembly = Assembly(opcode: nat, text: Bytes)

  const IDLE := Assembly(0, [])

  // ----- Replies -----

  predicate Encodable(payload: Bytes) {
    |payload| < 0x8000_0000_0000_0000
  }

  /** A server frame: final, unmasked, shortest length form. */
  function Reply(opcode: nat, payload: Bytes): Bytes
    requires Encodable(payload)
  {
    Wire(MinimalForm(|payload|), None, Frame(true, opcode, payload))
  }

  function PongReply(payload: Bytes): Bytes
    requires Encodable(payload)
  {
    Reply(0xA, payload)
  }

  /** Close code 1000, big-endian, without a reason. */
  function CloseReply(): Bytes {
    Reply(0x8, [3, 232])
  }

  // ----- What one frame does -----

  datatype Action =
    | Continue(next: Assembly, sent: Bytes)
    | Return(result: Result, next: Assembly, sent: Bytes)

  function OnFrame(a: Assembly, f: Frame): Action
    requires Encodable(f.payload)
  {
    match f.opcode
    case 0x0 =>
      if a.opcode == 0 then Return(Failed(UnexpectedContinuation), a, [])
      else if f.fin then Return(Message(a.text + f.payload), IDLE, [])
      else Continue(Assembly(a.opcode, a.text + f.payload), [])
    case 0x1 =>
      if f.fin then Return(Message(f.payload), a, [])
      else if a.opcode != 0 then Return(Failed(NestedFragments), a, [])
      else Continue(Assembly(0x1, f.payload), [])
    case 0x8 => Return(Closed, a, CloseReply())
    case 0x9 => Continue(a, PongReply(f.payload))
    case 0xA => Continue(a, [])
    case _ => Return(Failed(UnsupportedOpcode), a, [])
  }

  // ----- Reading a byte stream that has fully arrived -----

  datatype Outcome = Outcome(result: Result, rest: Bytes, next: Assembly, sent: Bytes)

  lemma {:induction false} DecodedIsEncodable(stream: Bytes, requireMask: bool)
    requires Decode(stream, requireMask).Decoded?
    ensures Encodable(Decode(stream, requireMask).frame.payload)
    ensures 2 <= Decode(stream, requireMask).taken <= |stream|
  {
  }

  function Read(stream: Bytes, a: Assembly, requireMask: bool): Outcome
    decreases |stream|
  {
    match Decode(stream, requireMask)
    case NeedMore => Outcome(Closed, stream, a, [])
    case Rejected(e) => Outcome(Failed(BadFrame(e)), stream, a, [])
    case Decoded(f, n) =>
      DecodedIsEncodable(stream, requireMask);
      match OnFrame(a, f)
      case Return(result, next, sent) => Outcome(result, stream[n..], next, sent)
      case Continue(next, sent) =>
        var o := Read(stream[n..], next, requireMask);
        o.(sent := sent + o.sent)
  }

  // ----- The socket and the reader -----

  function Flatten(chunks: seq<Bytes>): Bytes {
    if chunks == [] then [] else chunks[0] + Flatten(chunks[1..])
  }

  /** What `recv` will deliver, chunk by chunk, and what `send` has been given. */
  class Socket {
    var incoming: seq<Bytes>
    var outgoing: Bytes

    constructor (chunks: seq<Bytes>)
      ensures incoming == chunks && outgoing == []
    {
      incoming, outgoing := chunks, [];
    }

    /** The next chunk; no chunk stands for a closed connection. */
    method Recv() returns (open: bool, chunk: Bytes)
      modifies `incoming
      ensures open <==> old(incoming) != []
      ensures open ==> chunk == old(incoming)[0] && incoming == old(incoming)[1..]
      ensures !open ==> incoming == old(incoming)
    {
      if incoming == [] {
        return false, [];
      }
      open, chunk, incoming := true, incoming[0], incoming[1..];
    }

    method Send(opcode: nat, payload: Bytes)
      requires Encodable(payload)
      modifies `outgoing
      ensures outgoing == old(outgoing) + Reply(opcode, payload)
    {
      var bytes := EncodeFrame(payload, opcode, false, 0x11223344);
      outgoing := outgoing + bytes;
    }
  }

  class FrameReader {
    const requireMask: bool
    var buffer: Bytes
    var fragmented: Bytes
    var fragmentedOpcode: nat

    constructor (requireMask: bool)
      ensures this.requireMask == requireMask && buffer == [] && State() == IDLE
    {
      this.requireMask, buffer, fragmented, fragmentedOpcode := requireMask, [], [], 0;
    }

    function State(): Assembly
      reads this
    {
      Assembly(fragmentedOpcode, fragmented)
    }

    /** All bytes this reader has yet to decode, arrived or not. */
    function Pending(net: Socket): Bytes
      reads this, net
    {
      buffer + Flatten(net.incoming)
    }

    /**
      * One call of `read_text`. Whatever the chunks, it returns what reading the whole pending stream
      * at once returns, leaves the rest of that stream pending, and sends the same replies.
      */
    method ReadText(net: Socket) returns (result: Result)
      modifies this, net
      ensures var o := Read(old(Pending(net)), old(State()), requireMask);
              && result == o.result && Pending(net) == o.rest && State() == o.next
              && net.outgoing == old(net.outgoing) + o.sent
    {
      ghost var goal := Read(Pending(net), State(), requireMask);
      ghost var said := net.outgoing;
      var done := false;
      result := Closed;
      while !done
        invariant if done then Ended(net, result, goal, said) else Underway(net, goal, said)
        decreases !done, |Pending(net)|, |net.incoming|
      {
        done, result := Turn(net, goal, said);
      }
    }

    ghost predicate Underway(net: Socket, goal: Outcome, said: Bytes)
      reads this, net
    {
      Reaches(Read(Pending(net), State(), requireMask), net.outgoing, goal, said)
    }

    ghost predicate Ended(net: Socket, result: Result, goal: Outcome, said: Bytes)
      reads this, net
    {
      && result == goal.result && Pending(net) == goal.rest && State() == goal.next
      && net.outgoing == said + goal.sent
    }

    /** One turn of the loop of `read_text`: a frame, a fault, or more bytes. */
    method Turn(net: Socket, ghost goal: Outcome, ghost said: Bytes) returns (done: bool, result: Result)
      requires Underway(net, goal, said)
      modifies this, net
      ensures done ==> Ended(net, result, goal, said)
      ensures !done ==> Underway(net, goal, said)
      ensures !done ==>
        |Pending(net)| < |old(Pending(net))|
        || (Pending(net) == old(Pending(net)) && |net.incoming| < |old(net.incoming)|)
    {
      ghost var stream := Pending(net);
      var ok, fr, error := TakeFrame(net);
      if ok {
        done, result := OnTaken(net, fr, stream, goal, said);
      } else if error.Some? {
        return true, Failed(BadFrame(error.value));
      } else {
        var open := Receive(net);
        done, result := !open, Closed;
      }
    }

    /** The frame just taken off `stream` is handled. */
    method OnTaken(net: Socket, fr: Frame, ghost stream: Bytes, ghost goal: Outcome, ghost said: Bytes)
      returns (done: bool, result: Result)
      requires Reaches(Read(stream, State(), requireMask), net.outgoing, goal, said)
      requires var v := Decode(stream, requireMask);
        v.Decoded? && v.frame == fr && v.taken <= |stream| && Pending(net) == stream[v.taken..]
      modifies `fragmented, `fragmentedOpcode, net`outgoing
      ensures Pending(net) == old(Pending(net))
      ensures if done then Ended(net, result, goal, said) else Underway(net, goal, said)
    {
      ghost var a, sent := State(), net.outgoing;
      DecodedIsEncodable(stream, requireMask);
      done, result := HandleFrame(net, fr);
      if !done {
        StepReaches(stream, a, requireMask, sent, goal, said);
      }
    }

    /** Decodes from the buffer; a verdict is the verdict on the whole pending stream. */
    method TakeFrame(net: Socket) returns (ok: bool, fr: Frame, error: Option<Error>)
      modifies `buffer
      ensures !ok ==> buffer == old(buffer)
      ensures !ok && error.None? ==> Decode(buffer, requireMask) == NeedMore
      ensures !ok && error.Some? ==> Decode(old(Pending(net)), requireMask) == Rejected(error.value)
      ensures ok ==> var v := Decode(old(Pending(net)), requireMask);
        v.Decoded? && v.frame == fr && v.taken <= |old(Pending(net))|
        && Pending(net) == old(Pending(net))[v.taken..]
    {
      ghost var later := Flatten(net.incoming);
      ghost var before := buffer;
      var rest;
      ok, fr, error, rest := DecodeFrameFromBuffer(buffer, requireMask);
      buffer := rest;
      if ok || error.Some? {
        VerdictStable(before, later, requireMask);
        DropFront(before, later, |before| - |rest|);
      }
    }

    /** Appends one received chunk, which was pending already. */
    method Receive(net: Socket) returns (open: bool)
      modifies `buffer, net`incoming
      ensures Pending(net) == old(Pending(net))
      ensures open ==> |net.incoming| < |old(net.incoming)|
      ensures !open ==> Pending(net) == buffer == old(buffer)
    {
      var chunk;
      open, chunk := net.Recv();
      if open {
        Assoc(buffer, chunk, Flatten(net.incoming));
        buffer := buffer + chunk;
      } else {
        assert Flatten(net.incoming) == [];
      }
    }

    /** The opcode switch: what one frame does to the reader and the socket. */
    method HandleFrame(net: Socket, fr: Frame) returns (done: bool, result: Result)
      requires Encodable(fr.payload)
      modifies `fragmented, `fragmentedOpcode, net`outgoing
      ensures var act := OnFrame(old(State()), fr);
              && done == act.Return? && (done ==> result == act.result)
              && State() == act.next && net.outgoing == old(net.outgoing) + act.sent
    {
      done, result := true, Closed;
      match fr.opcode {
        case 0x0 =>
          if fragmentedOpcode == 0 {
            result := Failed(UnexpectedContinuation);
            return;
          }
          fragmented := fragmented + fr.payload;
          if fr.fin {
            result := Message(fragmented);
            fragmented, fragmentedOpcode := [], 0;
            return;
          }
        case 0x1 =>
          if fr.fin {
            result := Message(fr.payload);
            return;
          }
          if fragmentedOpcode != 0 {
            result := Failed(NestedFragments);
            return;
          }
          fragmentedOpcode, fragmented := fr.opcode, fr.payload;
        case 0x8 =>
          net.Send(0x8, [3, 232]);
          return;
        case 0x9 =>
          net.Send(0xA, fr.payload);
        case 0xA =>
        case _ =>
          result := Failed(UnsupportedOpcode);
          return;
      }
      done := false;
    }
  }

  /** Having sent `sent` and with `o` to come, the call ends as `goal` after `said` would. */
  ghost predicate Reaches(o: Outcome, sent: Bytes, goal: Outcome, said: Bytes) {
    && o.result == goal.result && o.rest == goal.rest && o.next == goal.next
    && sent + o.sent == said + goal.sent
  }

  lemma {:induction false} StepReaches(stream: Bytes, a: Assembly, requireMask: bool, sent: Bytes,
                                       goal: Outcome, said: Bytes)
    requires Reaches(Read(stream, a, requireMask), sent, goal, said)
    requires Decode(stream, requireMask).Decoded?
    requires Encodable(Decode(stream, requireMask).frame.payload)
    requires Decode(stream, requireMask).taken <= |stream|
    requires OnFrame(a, Decode(stream, requireMask).frame).Continue?
    ensures var v := Decode(stream, requireMask);
            var act := OnFrame(a, v.frame);
            Reaches(Read(stream[v.taken..], act.next, requireMask), sent + act.sent, goal, said)
  {
    var v := Decode(stream, requireMask);
    var act := OnFrame(a, v.frame);
    Assoc(sent, act.sent, Read(stream[v.taken..], act.next, requireMask).sent);
  }

  lemma {:induction false} DropFront(x: Bytes, y: Bytes, n: nat)
    requires n <= |x|
    ensures (x + y)[n..] == x[n..] + y
  {
  }
}
