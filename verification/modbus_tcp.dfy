/** A Modbus TCP master: frames out of any fragmentation, and answers matched to their own request. */
module ModbusTcp {
  import opened Common

  /** A reply: transaction, unit, and the function code with its data. */
  datatype Reply = Reply(transaction: nat, unit: byte, body: Bytes)

  function Word(s: Bytes, at: nat): nat
    requires at + 2 <= |s|
  {
    var high: nat := s[at];
    high * 256 + s[at + 1]
  }

  function WordBytes(n: nat): Bytes
    requires n < 65536
  {
    [n / 256, n % 256]
  }

  /** Take a frame off the buffer; a header that cannot be one clears the buffer. */
  function NextFrame(buffer: Bytes): (Option<Reply>, Bytes) {
    if |buffer| < 8 then (None, buffer)
    else
      var length := Word(buffer, 4);
      if length < 2 || length > 254 || buffer[2..4] != [0, 0] then (None, [])
      else if |buffer| < 6 + length then (None, buffer)
      else (Some(Reply(Word(buffer, 0), buffer[6], buffer[7..6 + length])), buffer[6 + length..])
  }

  /**
    Which frame is taken: none while the header or its body is incomplete; none, and everything is dropped, when the
    header names another protocol or an impossible length; otherwise the first, told by its own fields.
   */
  lemma FrameIsTakenExactly(buffer: Bytes)
    ensures var (reply, rest) := NextFrame(buffer);
      if |buffer| < 8 then reply == None && rest == buffer
      else
        var high: nat, low: nat, more: nat, less: nat := buffer[4], buffer[5], buffer[0], buffer[1];
        var length := high * 256 + low;
        if buffer[2] != 0 || buffer[3] != 0 || length < 2 || length > 254 then reply == None && rest == []
        else if |buffer| < 6 + length then reply == None && rest == buffer
        else
          && reply.Some? && reply.value.transaction == more * 256 + less && reply.value.unit == buffer[6]
          && |reply.value.body| == length - 1 && buffer == buffer[..7] + reply.value.body + rest
  {
    if |buffer| >= 8 {
      assert buffer[2..4] == [buffer[2], buffer[3]];
      assert buffer[2] != 0 || buffer[3] != 0 ==> buffer[2..4] != [0, 0];
    }
  }

  function Drain(buffer: Bytes): (seq<Reply>, Bytes)
    decreases |buffer|
  {
    var (reply, rest) := NextFrame(buffer);
    match reply
    case None => ([], rest)
    case Some(r) =>
      var (more, left) := Drain(rest);
      ([r] + more, left)
  }

  /** What the frames of a stream are when it arrives in these pieces. */
  function DrainAll(pieces: seq<Bytes>, buffer: Bytes): (seq<Reply>, Bytes)
    decreases |pieces|
  {
    if pieces == [] then ([], buffer)
    else
      var (first, rest) := Drain(buffer + pieces[0]);
      var (more, left) := DrainAll(pieces[1..], rest);
      (first + more, left)
  }

  predicate ValidReply(r: Reply) { r.transaction < 65536 && 1 <= |r.body| <= 253 }

  ghost predicate AllValid(replies: seq<Reply>) { forall i :: 0 <= i < |replies| ==> ValidReply(replies[i]) }

  function WireReply(r: Reply): Bytes
    requires ValidReply(r)
  {
    WordBytes(r.transaction) + [0, 0] + WordBytes(|r.body| + 1) + [r.unit] + r.body
  }

  function Wire(replies: seq<Reply>): Bytes
    requires AllValid(replies)
  {
    if replies == [] then [] else WireReply(replies[0]) + Wire(replies[1..])
  }

  lemma WireReplyLayout(r: Reply, rest: Bytes)
    requires ValidReply(r)
    ensures var w := WireReply(r);
      && |w| == 7 + |r.body| && w[2..4] == [0, 0] && Word(w, 4) == |r.body| + 1 && Word(w, 0) == r.transaction
      && w[6] == r.unit && w[7..] == r.body
  {
    var w := WireReply(r);
    assert w[0] == r.transaction / 256 && w[1] == r.transaction % 256;
    assert w[4] == (|r.body| + 1) / 256 && w[5] == (|r.body| + 1) % 256;
    assert w[2] == 0 && w[3] == 0;
  }

  /** A whole frame is taken off, whatever follows. */
  lemma FrameTaken(r: Reply, rest: Bytes)
    requires ValidReply(r)
    ensures NextFrame(WireReply(r) + rest) == (Some(r), rest)
  {
    WireReplyLayout(r, rest);
    var w := WireReply(r);
    var s := w + rest;
    assert s[2..4] == w[2..4] && Word(s, 4) == Word(w, 4) && Word(s, 0) == Word(w, 0) && s[6] == w[6];
    assert s[7..6 + |r.body| + 1] == w[7..];
    assert s[6 + |r.body| + 1..] == rest;
  }

  /** A frame that has only partly arrived stays in the buffer. */
  lemma PartKept(r: Reply, part: Bytes)
    requires ValidReply(r) && part < WireReply(r)
    ensures NextFrame(part) == (None, part)
  {
    WireReplyLayout(r, []);
    var w := WireReply(r);
    if |part| >= 8 {
      assert part[2..4] == w[2..4];
      assert Word(part, 4) == Word(w, 4);
    }
  }

  lemma SameFront(front: Bytes, a: Bytes, b: Bytes, whole: Bytes)
    requires front + a + b == front + whole
    ensures a + b == whole
  {
    assert (front + a + b)[|front|..] == a + b;
    assert (front + whole)[|front|..] == whole;
  }

  lemma PrefixSplit(a: Bytes, b: Bytes, x: Bytes)
    requires x <= a + b
    ensures x < a || (a <= x && x[|a|..] <= b)
  {
    if |x| < |a| {
      assert x == (a + b)[..|x|] == a[..|x|];
    } else {
      assert x[..|a|] == (a + b)[..|a|] == a;
      assert x[|a|..] == (a + b)[|a|..|x|] == b[..|x| - |a|];
    }
  }

  ghost predicate Partial(replies: seq<Reply>, buffer: Bytes)
    requires AllValid(replies)
  {
    if replies == [] then buffer == [] else buffer < WireReply(replies[0])
  }

  lemma {:induction false} PartialBuffer(replies: seq<Reply>, buffer: Bytes, more: Bytes)
    requires AllValid(replies) && buffer + more == Wire(replies)
    requires replies != [] ==> !(WireReply(replies[0]) <= buffer)
    ensures Partial(replies, buffer)
    ensures more == [] ==> replies == []
  {
    if replies != [] {
      assert buffer <= WireReply(replies[0]) + Wire(replies[1..]);
      PrefixSplit(WireReply(replies[0]), Wire(replies[1..]), buffer);
    }
  }

  /** Draining what has arrived of a well-formed stream takes its whole frames and keeps the rest. */
  lemma {:induction false} DrainPart(replies: seq<Reply>, arrived: Bytes, later: Bytes) returns (k: nat)
    requires AllValid(replies) && arrived + later == Wire(replies)
    ensures k <= |replies| && Drain(arrived).0 == replies[..k]
    ensures Drain(arrived).1 + later == Wire(replies[k..]) && Partial(replies[k..], Drain(arrived).1)
    decreases |replies|
  {
    if replies != [] && WireReply(replies[0]) <= arrived {
      var r, tail := replies[0], replies[1..];
      var rest := arrived[|WireReply(r)|..];
      assert arrived == WireReply(r) + rest;
      FrameTaken(r, rest);
      SameFront(WireReply(r), rest, later, Wire(tail));
      var n := DrainPart(tail, rest, later);
      k := n + 1;
      assert replies[..k] == [r] + tail[..n];
      assert replies[k..] == tail[n..];
    } else {
      k := 0;
      assert replies[0..] == replies;
      PartialBuffer(replies, arrived, later);
      if replies != [] { PartKept(replies[0], arrived); }
    }
  }

  /** However a well-formed stream is cut into pieces, the same frames come out. */
  lemma {:induction false} FragmentationDoesNotMatter(replies: seq<Reply>, pieces: seq<Bytes>, buffer: Bytes)
    requires AllValid(replies) && buffer + Concat(pieces) == Wire(replies) && Partial(replies, buffer)
    ensures DrainAll(pieces, buffer) == (replies, [])
    decreases |pieces|
  {
    if pieces == [] {
      assert buffer + [] == buffer;
    } else {
      var arrived, rest := buffer + pieces[0], Concat(pieces[1..]);
      assert arrived + rest == Wire(replies);
      var k := DrainPart(replies, arrived, rest);
      FragmentationDoesNotMatter(replies[k..], pieces[1..], Drain(arrived).1);
      assert replies[..k] + replies[k..] == replies;
    }
  }

  // ------------------------------------------------------------------- a request

  datatype Read = Arrives(bytes: Bytes) | TimesOut | Closes

  datatype Answer = Values(registers: seq<nat>) | NoAnswer | Disconnected | Malformed

  function Registers(data: Bytes): seq<nat> {
    if |data| < 2 then [] else [Word(data, 0)] + Registers(data[2..])
  }

  /** A one-byte reply with the right function code has no length to look at: reading it fails. */
  function AnswerOf(body: Bytes, count: nat): Answer {
    if body == [] || (body[0] == 3 && |body| < 2) then Malformed
    else if body[0] != 3 then NoAnswer
    else
      var length: nat := body[1];
      if |body| < 2 + length then NoAnswer
      else
        var values := Registers(body[2..2 + length]);
        Values(values[..Least(count, |values|)])
  }

  lemma FrameShrinks(buffer: Bytes)
    ensures NextFrame(buffer).0.Some? ==> |NextFrame(buffer).1| < |buffer|
  {
  }

  datatype Exchange = Exchange(answer: Answer, buffer: Bytes, incoming: seq<Read>)

  function Await(transaction: nat, unit: byte, count: nat, buffer: Bytes, incoming: seq<Read>): Exchange
    decreases |incoming|, |buffer|
  {
    FrameShrinks(buffer);
    var (reply, rest) := NextFrame(buffer);
    if reply.Some? then
      if reply.value.transaction != transaction || reply.value.unit != unit then
        Await(transaction, unit, count, rest, incoming)
      else Exchange(AnswerOf(reply.value.body, count), rest, incoming)
    else if incoming == [] || incoming[0].TimesOut? then Exchange(NoAnswer, rest, if incoming == [] then [] else incoming[1..])
    else if incoming[0].Closes? || incoming[0].bytes == [] then Exchange(Disconnected, rest, incoming[1..])
    else Await(transaction, unit, count, rest + incoming[0].bytes, incoming[1..])
  }

  class Master {
    var transaction: nat
    var buffer: Bytes
    var incoming: seq<Read>
    var sent: seq<Bytes>

    constructor (incoming: seq<Read>)
      ensures transaction == 0 && buffer == [] && this.incoming == incoming && sent == []
    {
      transaction, buffer, this.incoming, sent := 0, [], incoming, [];
    }

    method TakeFrame() returns (reply: Option<Reply>)
      modifies this`buffer
      ensures (reply, buffer) == NextFrame(old(buffer))
    {
      if |buffer| < 8 { return None; }
      var length := Word(buffer, 4);
      if length < 2 || length > 254 || buffer[2..4] != [0, 0] {
        buffer := [];
        return None;
      }
      if |buffer| < 6 + length { return None; }
      reply := Some(Reply(Word(buffer, 0), buffer[6], buffer[7..6 + length]));
      buffer := buffer[6 + length..];
    }

    /** Ask one unit for registers; each request has the next transaction number. */
    method ReadHolding(unit: byte, address: nat, count: nat) returns (answer: Answer)
      requires address < 65536 && count < 65536 && transaction < 65536
      modifies this
      ensures transaction == (old(transaction) + 1) % 65536
      ensures sent == old(sent) + [
        WordBytes(transaction) + [0, 0] + WordBytes(6) + [unit, 3] + WordBytes(address) + WordBytes(count)]
      ensures Exchange(answer, buffer, incoming) == Await(transaction, unit, count, old(buffer), old(incoming))
    {
      transaction := (transaction + 1) % 65536;
      sent := sent + [
        WordBytes(transaction) + [0, 0] + WordBytes(6) + [unit, 3] + WordBytes(address) + WordBytes(count)];
      while true
        invariant transaction == (old(transaction) + 1) % 65536
        invariant sent == old(sent) + [
          WordBytes(transaction) + [0, 0] + WordBytes(6) + [unit, 3] + WordBytes(address) + WordBytes(count)]
        invariant Await(transaction, unit, count, buffer, incoming) ==
          Await(transaction, unit, count, old(buffer), old(incoming))
        decreases |incoming|, |buffer|
      {
        FrameShrinks(buffer);
        var reply := TakeFrame();
        if reply.Some? {
          if reply.value.transaction == transaction && reply.value.unit == unit {
            answer := AnswerOf(reply.value.body, count);
            return;
          }
        } else {
          if incoming == [] { return NoAnswer; }
          var read := incoming[0];
          incoming := incoming[1..];
          if read.TimesOut? { return NoAnswer; }
          if read.Closes? || read.bytes == [] { return Disconnected; }
          buffer := buffer + read.bytes;
        }
      }
    }
  }

  /** The first reply that carries the request's transaction and unit. */
  function FirstFor(replies: seq<Reply>, transaction: nat, unit: byte): Option<Reply> {
    if replies == [] then None
    else if replies[0].transaction == transaction && replies[0].unit == unit then Some(replies[0])
    else FirstFor(replies[1..], transaction, unit)
  }

  function Arriving(pieces: seq<Bytes>): seq<Read> {
    if pieces == [] then [TimesOut] else [Arrives(pieces[0])] + Arriving(pieces[1..])
  }

  lemma {:induction false} AwaitSkips(
    transaction: nat, unit: byte, count: nat, r: Reply, rest: Bytes, incoming: seq<Read>)
    requires ValidReply(r)
    ensures Await(transaction, unit, count, WireReply(r) + rest, incoming) ==
      if r.transaction == transaction && r.unit == unit then Exchange(AnswerOf(r.body, count), rest, incoming)
      else Await(transaction, unit, count, rest, incoming)
  {
    FrameTaken(r, rest);
  }

  lemma {:induction false} AwaitReads(
    transaction: nat, unit: byte, count: nat, replies: seq<Reply>, buffer: Bytes, incoming: seq<Read>)
    requires AllValid(replies) && Partial(replies, buffer) && incoming != [] && !incoming[0].Closes?
    requires incoming[0].Arrives? ==> incoming[0].bytes != []
    ensures Await(transaction, unit, count, buffer, incoming) ==
      if incoming[0].TimesOut? then Exchange(NoAnswer, buffer, incoming[1..])
      else Await(transaction, unit, count, buffer + incoming[0].bytes, incoming[1..])
  {
    if replies != [] { PartKept(replies[0], buffer); }
  }

  /**
    Whatever the fragmentation, the answer is that of the first reply to this very request; replies to
    earlier requests are passed over, and without one there is no answer.
   */
  lemma {:induction false} AnswerIsOwn(
    transaction: nat, unit: byte, count: nat, replies: seq<Reply>, buffer: Bytes, pieces: seq<Bytes>)
    requires AllValid(replies) && buffer + Concat(pieces) == Wire(replies)
    requires forall i :: 0 <= i < |pieces| ==> pieces[i] != []
    ensures Await(transaction, unit, count, buffer, Arriving(pieces)).answer ==
      match FirstFor(replies, transaction, unit)
      case None => NoAnswer
      case Some(r) => AnswerOf(r.body, count)
    decreases |pieces|, |replies|
  {
    if replies != [] && WireReply(replies[0]) <= buffer {
      var r, rest := replies[0], buffer[|WireReply(replies[0])|..];
      assert buffer == WireReply(r) + rest;
      AwaitSkips(transaction, unit, count, r, rest, Arriving(pieces));
      if !(r.transaction == transaction && r.unit == unit) {
        SameFront(WireReply(r), rest, Concat(pieces), Wire(replies[1..]));
        AnswerIsOwn(transaction, unit, count, replies[1..], rest, pieces);
      }
    } else {
      PartialBuffer(replies, buffer, Concat(pieces));
      AwaitReads(transaction, unit, count, replies, buffer, Arriving(pieces));
      if pieces != [] {
        assert buffer + pieces[0] + Concat(pieces[1..]) == Wire(replies);
        AnswerIsOwn(transaction, unit, count, replies, buffer + pieces[0], pieces[1..]);
      } else {
        assert buffer + [] == buffer;
      }
    }
  }

  /** The first own reply that arrives before the wait ends, on any line, well-formed or not. */
  function OwnReply(transaction: nat, unit: byte, buffer: Bytes, incoming: seq<Read>): Option<Reply>
    decreases |incoming|, |buffer|
  {
    FrameShrinks(buffer);
    var (reply, rest) := NextFrame(buffer);
    if reply.Some? then
      if reply.value.transaction == transaction && reply.value.unit == unit then reply
      else OwnReply(transaction, unit, rest, incoming)
    else if incoming == [] || !incoming[0].Arrives? || incoming[0].bytes == [] then None
    else OwnReply(transaction, unit, rest + incoming[0].bytes, incoming[1..])
  }

  lemma FrameHasBody(buffer: Bytes)
    ensures NextFrame(buffer).0.Some? ==> NextFrame(buffer).0.value.body != []
  {
  }

  /** Reading fails exactly when the first own reply is the single byte 3, whatever else is on the line. */
  lemma {:induction false} MalformedExactly(
    transaction: nat, unit: byte, count: nat, buffer: Bytes, incoming: seq<Read>)
    ensures Await(transaction, unit, count, buffer, incoming).answer == Malformed <==>
      var own := OwnReply(transaction, unit, buffer, incoming); own.Some? && own.value.body == [3]
    decreases |incoming|, |buffer|
  {
    hide NextFrame;
    FrameShrinks(buffer);
    FrameHasBody(buffer);
    var (reply, rest) := NextFrame(buffer);
    if reply.Some? {
      if reply.value.transaction != transaction || reply.value.unit != unit {
        MalformedExactly(transaction, unit, count, rest, incoming);
      } else {
        MalformedBody(reply.value.body, count);
      }
    } else if incoming != [] && incoming[0].Arrives? && incoming[0].bytes != [] {
      MalformedExactly(transaction, unit, count, rest + incoming[0].bytes, incoming[1..]);
    }
  }

  lemma MalformedBody(body: Bytes, count: nat)
    requires body != []
    ensures AnswerOf(body, count) == Malformed <==> body == [3]
  {
  }

  /** In terms of what was sent: of a well-formed stream in any fragmentation, the first own reply decides. */
  lemma {:induction false} MalformedReplyExactly(
    transaction: nat, unit: byte, count: nat, replies: seq<Reply>, pieces: seq<Bytes>)
    requires AllValid(replies) && Concat(pieces) == Wire(replies)
    requires forall i :: 0 <= i < |pieces| ==> pieces[i] != []
    ensures Await(transaction, unit, count, [], Arriving(pieces)).answer == Malformed <==>
      var own := FirstFor(replies, transaction, unit); own.Some? && own.value.body == [3]
  {
    assert [] + Concat(pieces) == Wire(replies);
    AnswerIsOwn(transaction, unit, count, replies, [], pieces);
    OwnIsValid(replies, transaction, unit);
    var own := FirstFor(replies, transaction, unit);
    if own.Some? { MalformedBody(own.value.body, count); }
  }

  lemma {:induction false} OwnIsValid(replies: seq<Reply>, transaction: nat, unit: byte)
    requires AllValid(replies)
    ensures FirstFor(replies, transaction, unit).Some? ==> ValidReply(FirstFor(replies, transaction, unit).value)
  {
    if replies != [] { OwnIsValid(replies[1..], transaction, unit); }
  }

  // ------------------------------------------------------------------ what is read

  predicate Fit(values: seq<nat>) { forall i :: 0 <= i < |values| ==> values[i] < 65536 }

  /** Registers as a unit sends them, high byte first. */
  function Words(values: seq<nat>): Bytes
    requires Fit(values)
  {
    if values == [] then [] else WordBytes(values[0]) + Words(values[1..])
  }

  lemma {:induction false} WordsReadBack(values: seq<nat>)
    requires Fit(values)
    ensures |Words(values)| == 2 * |values| && Registers(Words(values)) == values
  {
    if values != [] {
      var v, rest := values[0], values[1..];
      WordsReadBack(rest);
      var bytes := Words(values);
      assert bytes[2..] == Words(rest) && bytes[0] == WordBytes(v)[0] && bytes[1] == WordBytes(v)[1];
      assert Word(bytes, 0) == v;
      assert values == [v] + rest;
    }
  }

  /** The body of such an answer: the function code, the number of bytes, and the registers. */
  lemma {:induction false} ReadingGivesTheValues(body: Bytes, values: seq<nat>, more: Bytes, count: nat)
    requires Fit(values) && |values| < 128 && |body| >= 2
    requires body[0] == 3 && body[1] as int == 2 * |values| && body[2..] == Words(values) + more
    ensures AnswerOf(body, count) == Values(values[..Least(count, |values|)])
  {
    WordsReadBack(values);
    var n: nat := 2 * |values|;
    assert body[2..2 + n] == body[2..][..n] == Words(values);
    hide Registers;
    hide Words;
  }

  /** Another function code, or fewer bytes than announced, gives none. */
  lemma OtherBodiesGiveNone(body: Bytes, count: nat)
    requires body != [] && (body[0] != 3 || (|body| > 1 && |body| < 2 + (body[1] as int)))
    ensures AnswerOf(body, count) == NoAnswer
  {
  }

  const ONE_BYTE_REPLY: Bytes := [0, 1, 0, 0, 0, 2, 1, 3]

  lemma OneByteFrame()
    ensures NextFrame(ONE_BYTE_REPLY) == (Some(Reply(1, 1, [3])), []) && NextFrame([]) == (None, [])
  {
    var bytes := ONE_BYTE_REPLY;
    assert bytes[2..4] == [0, 0] && bytes[7..8] == [3] && bytes[8..] == [];
  }

  /** The first request ever, answered by one frame with the byte 3 alone. */
  lemma {:induction false} OneByteReplyFails(count: nat)
    ensures Await(1, 1, count, [], [Arrives(ONE_BYTE_REPLY)]).answer == Malformed
  {
    assert ONE_BYTE_REPLY != [] && [] + ONE_BYTE_REPLY == ONE_BYTE_REPLY;
    hide NextFrame;
    hide ONE_BYTE_REPLY;
    OneByteFrame();
    var none: seq<Read> := [];
    assert [Arrives(ONE_BYTE_REPLY)][1..] == none;
    assert Await(1, 1, count, [], [Arrives(ONE_BYTE_REPLY)]) == Await(1, 1, count, ONE_BYTE_REPLY, none);
  }
}
