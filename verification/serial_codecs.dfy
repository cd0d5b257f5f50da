/** The serial gateways' frames: Somfy motors, Yale locks, and Modbus over TCP. */
module SerialCodecs {
  import opened Common
  import opened FrameScan

  // ------------------------------------------------------------------------ Somfy

  const SOMFY_NODE_TYPE: byte := 246
  const SOMFY_MASTER: Bytes := [0, 0, 1]

  function Inverted(b: byte): byte { 255 - b }

  function InvertAll(s: Bytes): (r: Bytes)
    ensures |r| == |s| && forall i :: 0 <= i < |r| ==> r[i] == Inverted(s[i])
  {
    if s == [] then [] else [Inverted(s[0])] + InvertAll(s[1..])
  }

  function Sum(s: Bytes): nat { if s == [] then 0 else Sum(s[..|s| - 1]) + s[|s| - 1] }

  /** The sum of all bytes, in whatever parts it is taken. */
  lemma {:induction false} SumOfParts(a: Bytes, b: Bytes, c: byte)
    ensures Sum(a + b) == Sum(a) + Sum(b) && Sum([]) == 0 && Sum([c]) == c
    decreases |b|
  {
    assert [c][..0] == [];
    if b == [] {
      assert a + b == a;
    } else {
      var n := |b| - 1;
      assert (a + b)[..|a + b| - 1] == a + b[..n] && (a + b)[|a + b| - 1] == b[n];
      SumOfParts(a, b[..n], c);
    }
  }

  function Word(high: byte, low: byte): nat { high * 256 + low }

  function Checksum(s: Bytes): nat { Sum(s) % 65536 }

  /** The length byte with the acknowledge bit, when that is one byte. */
  function LengthByte(length: nat, ack: bool): Option<byte> {
    var value := if ack && (length / 128) % 2 == 0 then length + 128 else length;
    if value < 256 then Some(value) else None
  }

  /** One frame on the wire: every byte inverted, then a 16-bit sum of those. */
  function SomfyFrame(msg: byte, destination: Bytes, data: Bytes, ack: bool): Option<Bytes> {
    match LengthByte(11 + |data|, ack)
    case None => None
    case Some(length) =>
      var raw := InvertAll([msg, length, SOMFY_NODE_TYPE] + SOMFY_MASTER + destination + data);
      Some(raw + [Checksum(raw) / 256, Checksum(raw) % 256])
  }

  /** What is on the wire, inverted: the message, the length with its top bit asking for an acknowledgement, the
      sender, the receiver and the data; then the 16-bit sum of what was sent. */
  lemma SomfyFrameSays(msg: byte, destination: Bytes, data: Bytes, ack: bool)
    requires |destination| == 3 && |data| < 117
    ensures var frame := SomfyFrame(msg, destination, data, ack);
      && frame.Some? && |frame.value| == 11 + |data|
      && frame.value[0] == 255 - msg && 255 - frame.value[1] == 11 + |data| + (if ack then 128 else 0)
      && frame.value[2] == 9 && frame.value[3..6] == [255, 255, 254]
      && (forall i :: 0 <= i < 3 ==> frame.value[6 + i] == 255 - destination[i])
      && (forall i :: 0 <= i < |data| ==> frame.value[9 + i] == 255 - data[i])
      && frame.value[9 + |data|] as nat * 256 + frame.value[10 + |data|] as nat
           == Checksum(frame.value[..9 + |data|])
  {
    var length := LengthByte(11 + |data|, ack).value;
    var plain := [msg, length, SOMFY_NODE_TYPE] + SOMFY_MASTER + destination + data;
    var raw := InvertAll(plain);
    PlainParts(msg, length, destination, data);
    WithSum(raw);
    hide InvertAll;
    hide Checksum;
  }

  lemma {:induction false} PlainParts(msg: byte, length: byte, destination: Bytes, data: Bytes)
    requires |destination| == 3
    ensures var raw := InvertAll([msg, length, SOMFY_NODE_TYPE] + SOMFY_MASTER + destination + data);
      && |raw| == 9 + |data| && raw[0] == 255 - msg && raw[1] == 255 - length && raw[2] == 255 - SOMFY_NODE_TYPE
      && raw[3..6] == [255, 255, 254]
      && (forall i :: 0 <= i < 3 ==> raw[6 + i] == 255 - destination[i])
      && (forall i :: 0 <= i < |data| ==> raw[9 + i] == 255 - data[i])
  {
    var plain := [msg, length, SOMFY_NODE_TYPE] + SOMFY_MASTER + destination + data;
    var raw := InvertAll(plain);
    assert plain[3] == 0 && plain[4] == 0 && plain[5] == 1;
    assert raw[3..6] == [raw[3], raw[4], raw[5]];
    forall i | 0 <= i < 3 ensures raw[6 + i] == 255 - destination[i] { assert plain[6 + i] == destination[i]; }
    forall i | 0 <= i < |data| ensures raw[9 + i] == 255 - data[i] { assert plain[9 + i] == data[i]; }
  }

  lemma WithSum(raw: Bytes)
    requires |raw| >= 9
    ensures var frame := raw + [Checksum(raw) / 256, Checksum(raw) % 256];
      && frame[..|raw|] == raw && (forall i :: 0 <= i < |raw| ==> frame[i] == raw[i])
      && frame[3..6] == raw[3..6]
      && frame[|raw|] as nat * 256 + frame[|raw| + 1] as nat == Checksum(raw)
  {
    hide Checksum;
  }

  /** The length of a checksum-valid frame at the front of a stream. */
  function SomfyMatch(s: Bytes): Option<nat> {
    if |s| < 11 then None
    else
      var length: nat := Inverted(s[1]) % 32;
      if length < 11 || length > |s| then None
      else if Checksum(s[..length - 2]) != Word(s[length - 2], s[length - 1]) then None
      else Some(length)
  }

  /** A frame begins here exactly when its length byte, inverted, says so and its sum is right. */
  lemma SomfyMatchesExactly(s: Bytes, n: nat)
    ensures SomfyMatch(s) == Some(n) <==>
      && 11 <= n <= |s| && (255 - s[1]) % 32 == n
      && Sum(s[..n - 2]) % 65536 == s[n - 2] as nat * 256 + s[n - 1] as nat
  {
  }

  datatype SomfyMessage = SomfyMessage(msg: byte, nodeType: byte, source: Bytes, data: Bytes)

  function Reverse(s: Bytes): Bytes { if s == [] then [] else Reverse(s[1..]) + [s[0]] }

  /** From the last byte to the first. */
  lemma {:induction false} ReversedAt(s: Bytes, i: nat)
    requires i < |s|
    ensures |Reverse(s)| == |s| && Reverse(s)[i] == s[|s| - 1 - i]
    decreases |s|
  {
    if |s| > 1 {
      ReversedAt(s[1..], if i < |s| - 1 then i else 0);
    }
  }

  /** What a frame says: the source is sent least significant byte first. */
  function SomfyDecode(raw: Bytes): SomfyMessage
    requires |raw| >= 11
  {
    var decoded := InvertAll(raw[..|raw| - 2]);
    SomfyMessage(decoded[0], decoded[2] / 16, Reverse(decoded[3..6]), decoded[9..])
  }

  lemma SomfySensible()
    ensures Sensible(SomfyMatch)
  {
  }

  lemma {:induction false} SomfyFrameLength(msg: byte, destination: Bytes, data: Bytes, ack: bool)
    requires |destination| == 3 && |data| <= 20
    ensures SomfyFrame(msg, destination, data, ack).Some?
    ensures var f := SomfyFrame(msg, destination, data, ack).value;
      |f| == 11 + |data| && (Inverted(f[1]) % 32) as nat == |f|
  {
    var length := LengthByte(11 + |data|, ack).value;
    var plain := [msg, length, SOMFY_NODE_TYPE] + SOMFY_MASTER + destination + data;
    assert InvertAll(plain)[1] == Inverted(plain[1]);
    assert plain[1] == length;
  }

  /** A frame is recognized in front of anything. */
  lemma SomfyFrameRecognized(msg: byte, destination: Bytes, data: Bytes, ack: bool)
    requires |destination| == 3 && |data| <= 20
    ensures SelfDelimiting(SomfyMatch, SomfyFrame(msg, destination, data, ack).value)
  {
    SomfyFrameLength(msg, destination, data, ack);
    var f := SomfyFrame(msg, destination, data, ack).value;
    var raw := f[..|f| - 2];
    forall rest ensures SomfyMatch(f + rest) == Some(|f|) {
      var s := f + rest;
      assert s[1] == f[1];
      assert s[..|f| - 2] == raw;
      assert s[|f| - 2] == f[|f| - 2] && s[|f| - 1] == f[|f| - 1];
    }
  }

  /** And read back: the sender is the master, the data what was sent. */
  lemma SomfyReadsBack(msg: byte, destination: Bytes, data: Bytes, ack: bool)
    requires |destination| == 3 && |data| <= 20
    ensures var f := SomfyFrame(msg, destination, data, ack).value;
      |f| >= 11 && SomfyDecode(f) == SomfyMessage(msg, SOMFY_NODE_TYPE / 16, Reverse(SOMFY_MASTER), data)
  {
    SomfyFrameLength(msg, destination, data, ack);
    var f := SomfyFrame(msg, destination, data, ack).value;
    var plain := [msg, LengthByte(11 + |data|, ack).value, SOMFY_NODE_TYPE] + SOMFY_MASTER + destination + data;
    assert f[..|f| - 2] == InvertAll(plain);
    assert InvertAll(InvertAll(plain)) == plain;
    assert plain[3..6] == SOMFY_MASTER && plain[9..] == data;
  }

  datatype SomfyOrder = SomfyOrder(msg: byte, destination: Bytes, data: Bytes, ack: bool)

  predicate ValidOrder(o: SomfyOrder) { |o.destination| == 3 && |o.data| <= 20 }

  function Wire(o: SomfyOrder): Bytes
    requires ValidOrder(o)
  {
    SomfyFrameLength(o.msg, o.destination, o.data, o.ack);
    SomfyFrame(o.msg, o.destination, o.data, o.ack).value
  }

  function Items(orders: seq<SomfyOrder>): (r: seq<Item>)
    requires forall i :: 0 <= i < |orders| ==> ValidOrder(orders[i])
    ensures |r| == |orders| && forall i :: 0 <= i < |r| ==> r[i] == Frame(Wire(orders[i]))
  {
    if orders == [] then [] else [Frame(Wire(orders[0]))] + Items(orders[1..])
  }

  /** Where the frame that starts at `index` ends, if one starts there. */
  method SomfyEnd(buffer: Bytes, index: nat) returns (end: Option<nat>)
    requires index + 11 <= |buffer|
    ensures match SomfyMatch(buffer[index..])
      case None => end == None
      case Some(n) => end == Some(index + n)
  {
    var length: nat := Inverted(buffer[index + 1]) % 32;
    if length < 11 || index + length > |buffer| { return None; }
    var raw := buffer[index..index + length];
    assert buffer[index..][..length - 2] == raw[..|raw| - 2];
    if Checksum(raw[..|raw| - 2]) != Word(raw[|raw| - 2], raw[|raw| - 1]) { return None; }
    end := Some(index + length);
  }

  /** The frames of a stream. */
  function SomfyFrames(buffer: Bytes): seq<Slice> {
    SomfySensible();
    Scan(SomfyMatch, buffer, 0)
  }

  /** Each message is the decoding of its slice. */
  predicate SomfyDecoded(buffer: Bytes, slices: seq<Slice>, messages: seq<SomfyMessage>) {
    && |messages| == |slices|
    && forall i :: 0 <= i < |slices| ==>
         && slices[i].start + 11 <= slices[i].end <= |buffer|
         && messages[i] == SomfyDecode(Cut(buffer, slices[i]))
  }

  method ParseSomfy(buffer: Bytes) returns (slices: seq<Slice>, messages: seq<SomfyMessage>)
    ensures slices == SomfyFrames(buffer) && SomfyDecoded(buffer, slices, messages)
  {
    hide SomfyMatch;
    hide SomfyDecode;
    SomfySensible();
    slices, messages := [], [];
    var index := 0;
    assert buffer[0..] == buffer;
    while index + 11 <= |buffer|
      invariant 0 <= index <= |buffer|
      invariant slices + Scan(SomfyMatch, buffer[index..], index) == Scan(SomfyMatch, buffer, 0)
      invariant SomfyDecoded(buffer, slices, messages)
      decreases |buffer| - index
    {
      var end := SomfyEnd(buffer, index);
      match end
      case None =>
        ScanSkips(SomfyMatch, buffer, index);
        index := index + 1;
      case Some(e) =>
        SomfyAtLeast(buffer[index..]);
        ScanTakes(SomfyMatch, buffer, index, e - index, slices);
        slices := slices + [Slice(index, e)];
        messages := messages + [SomfyDecode(buffer[index..e])];
        index := e;
    }
    SomfyLeast(buffer[index..], index);
    assert slices + [] == slices;
  }

  lemma {:induction false} SomfyLeast(s: Bytes, at: nat)
    requires |s| < 11 && Sensible(SomfyMatch)
    ensures Scan(SomfyMatch, s, at) == []
  {
    TooShort(SomfyMatch, s, at, 11);
  }

  lemma SomfyAtLeast(s: Bytes)
    ensures SomfyMatch(s).Some? ==> 11 <= SomfyMatch(s).value <= |s|
  {
  }

  /** A stream of frames is split into exactly those frames, in order. */
  lemma {:induction false} SomfyStreamSplits(orders: seq<SomfyOrder>)
    requires forall i :: 0 <= i < |orders| ==> ValidOrder(orders[i])
    ensures var s := Flatten(Items(orders));
      var r := SomfyFrames(s);
      && |r| == |orders|
      && forall i :: 0 <= i < |r| ==> r[i].start <= r[i].end <= |s| && Cut(s, r[i]) == Wire(orders[i])
  {
    SomfySensible();
    var items := Items(orders);
    forall i | 0 <= i < |items| ensures Recognizable(SomfyMatch, items[i]) {
      SomfyFrameRecognized(orders[i].msg, orders[i].destination, orders[i].data, orders[i].ack);
    }
    ScanFindsFrames(SomfyMatch, items, 0);
    CutsAreFrames(items, 0, []);
    assert [] + Flatten(items) == Flatten(items);
    AllFramesCounted(items);
  }

  /** What a receiver reads of an order: its message, the master as sender, and the data. */
  function Sent(o: SomfyOrder): SomfyMessage {
    SomfyMessage(o.msg, SOMFY_NODE_TYPE / 16, Reverse(SOMFY_MASTER), o.data)
  }

  /** And each frame of the stream reads back as the order it was built from. */
  lemma {:induction false} SomfyStreamReadsBack(orders: seq<SomfyOrder>)
    requires forall i :: 0 <= i < |orders| ==> ValidOrder(orders[i])
    ensures var s := Flatten(Items(orders));
      var r := SomfyFrames(s);
      && |r| == |orders|
      && forall i :: 0 <= i < |r| ==>
           r[i].start + 11 <= r[i].end <= |s| && SomfyDecode(Cut(s, r[i])) == Sent(orders[i])
  {
    hide SomfyDecode;
    hide SomfyFrames;
    hide Flatten;
    hide Items;
    SomfyStreamSplits(orders);
    var s := Flatten(Items(orders));
    var r := SomfyFrames(s);
    forall i | 0 <= i < |r|
      ensures r[i].start + 11 <= r[i].end && SomfyDecode(Cut(s, r[i])) == Sent(orders[i])
    {
      SomfyReadsBack(orders[i].msg, orders[i].destination, orders[i].data, orders[i].ack);
      assert Cut(s, r[i]) == Wire(orders[i]);
    }
  }

  lemma {:induction false} AllFramesCounted(items: seq<Item>)
    requires forall i :: 0 <= i < |items| ==> items[i].Frame?
    ensures |FramesOf(items)| == |items| && forall i :: 0 <= i < |items| ==> FramesOf(items)[i] == items[i].bytes
  {
    if items != [] { AllFramesCounted(items[1..]); }
  }

  // ------------------------------------------------------------------------- Yale

  const YALE_START: byte := 5
  const YALE_END: byte := 15

  function Xor(a: byte, b: byte): byte { ((a as bv8) ^ (b as bv8)) as int }

  function XorAll(s: Bytes, crc: byte): byte { if s == [] then crc else XorAll(s[1..], Xor(crc, s[0])) }

  function YaleFrame(cmd: byte, data: Bytes, ident: byte): Bytes {
    [YALE_START, ident, cmd] + data + [XorAll(data, Xor(ident, cmd)), YALE_END]
  }

  function YaleMatch(s: Bytes): Option<nat> {
    if |s| < 6 || s[0] != YALE_START then None
    else
      var length: nat := s[3] / 16;
      if !(1 <= length <= 14) || 5 + length > |s| || s[4 + length] != YALE_END then None
      else if XorAll(s[3..3 + length], Xor(s[1], s[2])) != s[3 + length] then None
      else Some(5 + length)
  }

  /** All bytes are added without carry, in turn. */
  lemma {:induction false} XorTakesEach(s: Bytes, b: byte, crc: byte)
    ensures XorAll(s + [b], crc) == Xor(XorAll(s, crc), b) && XorAll([], crc) == crc
    decreases |s|
  {
    if s == [] {
      assert s + [b] == [b] && [b][1..] == [];
    } else {
      assert (s + [b])[1..] == s[1..] + [b];
      XorTakesEach(s[1..], b, Xor(crc, s[0]));
    }
  }

  /** A frame begins here exactly when it starts and ends as one, is as long as its first data byte says, and adds up. */
  lemma YaleMatchesExactly(s: Bytes, n: nat)
    ensures YaleMatch(s) == Some(n) <==>
      && 6 <= n <= 19 && n <= |s| && s[0] == 5 && s[n - 1] == 15 && n == 5 + s[3] as nat / 16
      && XorAll(s[3..n - 2], Xor(s[1], s[2])) == s[n - 2]
  {
  }

  datatype YaleMessage = YaleMessage(ident: byte, cmd: byte, data: Bytes)

  function YaleDecode(frame: Bytes): YaleMessage
    requires |frame| >= 5
  {
    YaleMessage(frame[1], frame[2], frame[3..|frame| - 2])
  }

  lemma YaleSensible()
    ensures Sensible(YaleMatch)
  {
  }

  predicate ValidYale(y: YaleMessage) { 1 <= |y.data| <= 14 && (y.data[0] / 16) as nat == |y.data| }

  function YaleWire(y: YaleMessage): Bytes { YaleFrame(y.cmd, y.data, y.ident) }

  lemma YaleFrameRecognized(y: YaleMessage)
    requires ValidYale(y)
    ensures SelfDelimiting(YaleMatch, YaleWire(y))
    ensures |YaleWire(y)| >= 6 && YaleDecode(YaleWire(y)) == y
  {
    var f := YaleWire(y);
    var n := |y.data|;
    assert |f| == 5 + n && f[3..3 + n] == y.data && f[3] == y.data[0];
    assert f[3 + n] == XorAll(y.data, Xor(y.ident, y.cmd)) && f[4 + n] == YALE_END;
    forall rest ensures YaleMatch(f + rest) == Some(|f|) {
      var s := f + rest;
      assert s[0] == f[0] && s[1] == f[1] && s[2] == f[2] && s[3] == f[3];
      assert s[3..3 + n] == f[3..3 + n];
      assert s[3 + n] == f[3 + n] && s[4 + n] == f[4 + n];
    }
    assert f[3..|f| - 2] == y.data;
  }

  predicate Quiet(n: Bytes) { forall i :: 0 <= i < |n| ==> n[i] != YALE_START }

  lemma QuietIsSilent(n: Bytes)
    requires Quiet(n)
    ensures Silent(YaleMatch, n)
  {
    forall i, rest | 0 <= i < |n| ensures YaleMatch(n[i..] + rest).None? {
      assert (n[i..] + rest)[0] == n[i];
    }
  }

  /** A lock's line: frames with noise between them that never looks like a start. */
  datatype Traffic = Said(message: YaleMessage) | Hiss(noise: Bytes)

  predicate ValidTraffic(t: Traffic) {
    match t
    case Said(message) => ValidYale(message)
    case Hiss(noise) => Quiet(noise)
  }

  function OnLine(traffic: seq<Traffic>): (r: seq<Item>)
    ensures |r| == |traffic|
    ensures forall i :: 0 <= i < |r| ==>
      r[i] == match traffic[i] case Said(y) => Frame(YaleWire(y)) case Hiss(n) => Noise(n)
  {
    if traffic == [] then []
    else [match traffic[0] case Said(y) => Frame(YaleWire(y)) case Hiss(n) => Noise(n)] + OnLine(traffic[1..])
  }

  function Messages(traffic: seq<Traffic>): seq<YaleMessage> {
    if traffic == [] then []
    else (if traffic[0].Said? then [traffic[0].message] else []) + Messages(traffic[1..])
  }

  lemma {:induction false} YaleLeast(s: Bytes, at: nat)
    requires |s| < 6 && Sensible(YaleMatch)
    ensures Scan(YaleMatch, s, at) == []
  {
    TooShort(YaleMatch, s, at, 6);
  }

  lemma YaleAtLeast(s: Bytes)
    ensures YaleMatch(s).Some? ==> 6 <= YaleMatch(s).value <= |s|
  {
  }

  method Crc(ident: byte, cmd: byte, data: Bytes) returns (crc: byte)
    ensures crc == XorAll(data, Xor(ident, cmd))
  {
    crc := Xor(ident, cmd);
    for i := 0 to |data|
      invariant XorAll(data[i..], crc) == XorAll(data, Xor(ident, cmd))
    {
      assert data[i..][1..] == data[i + 1..];
      crc := Xor(crc, data[i]);
    }
    assert data[|data|..] == [];
  }

  /** Where the frame that starts at `index` ends, if one starts there. */
  method YaleEnd(buffer: Bytes, index: nat) returns (end: Option<nat>)
    requires index + 6 <= |buffer|
    ensures match YaleMatch(buffer[index..])
      case None => end == None
      case Some(n) => end == Some(index + n)
  {
    if buffer[index] != YALE_START { return None; }
    var length: nat := buffer[index + 3] / 16;
    var e := index + 5 + length;
    if !(1 <= length <= 14) || e > |buffer| || buffer[e - 1] != YALE_END { return None; }
    var data := buffer[index + 3..index + 3 + length];
    ghost var rest := buffer[index..];
    assert |rest| == |buffer| - index && 3 + length <= |rest|;
    forall k | 0 <= k < length ensures rest[3..3 + length][k] == data[k] { assert rest[3 + k] == buffer[index + 3 + k]; }
    assert rest[3..3 + length] == data;
    var crc := Crc(buffer[index + 1], buffer[index + 2], data);
    if crc != buffer[e - 2] { return None; }
    end := Some(e);
  }

  /** The frames of a stream. */
  function YaleFrames(buffer: Bytes): seq<Slice> {
    YaleSensible();
    Scan(YaleMatch, buffer, 0)
  }

  /** Each message is the decoding of its slice. */
  predicate YaleDecoded(buffer: Bytes, slices: seq<Slice>, messages: seq<YaleMessage>) {
    && |messages| == |slices|
    && forall i :: 0 <= i < |slices| ==>
         && slices[i].start + 6 <= slices[i].end <= |buffer|
         && messages[i] == YaleDecode(Cut(buffer, slices[i]))
  }

  method ParseYale(buffer: Bytes) returns (slices: seq<Slice>, messages: seq<YaleMessage>)
    ensures slices == YaleFrames(buffer) && YaleDecoded(buffer, slices, messages)
  {
    hide YaleMatch;
    hide YaleDecode;
    YaleSensible();
    slices, messages := [], [];
    var index := 0;
    assert buffer[0..] == buffer;
    while index + 6 <= |buffer|
      invariant 0 <= index <= |buffer|
      invariant slices + Scan(YaleMatch, buffer[index..], index) == Scan(YaleMatch, buffer, 0)
      invariant YaleDecoded(buffer, slices, messages)
      decreases |buffer| - index
    {
      var end := YaleEnd(buffer, index);
      match end
      case None =>
        ScanSkips(YaleMatch, buffer, index);
        index := index + 1;
      case Some(e) =>
        YaleAtLeast(buffer[index..]);
        ScanTakes(YaleMatch, buffer, index, e - index, slices);
        slices := slices + [Slice(index, e)];
        messages := messages + [YaleDecode(buffer[index..e])];
        index := e;
    }
    YaleLeast(buffer[index..], index);
    assert slices + [] == slices;
  }

  lemma {:induction false} MessagesAreFrames(traffic: seq<Traffic>)
    ensures |FramesOf(OnLine(traffic))| == |Messages(traffic)|
    ensures forall i :: 0 <= i < |Messages(traffic)| ==> FramesOf(OnLine(traffic))[i] == YaleWire(Messages(traffic)[i])
  {
    hide YaleWire;
    hide OnLine;
    hide FramesOf;
    LineCons(traffic);
    if traffic != [] {
      MessagesAreFrames(traffic[1..]);
      FramesCons(OnLine(traffic));
      MessagesCons(traffic);
    }
  }

  lemma {:induction false} LineCons(traffic: seq<Traffic>)
    ensures traffic == [] ==> FramesOf(OnLine(traffic)) == [] && Messages(traffic) == []
    ensures traffic != [] ==>
      && OnLine(traffic) != [] && OnLine(traffic)[1..] == OnLine(traffic[1..])
      && OnLine(traffic)[0] == match traffic[0] case Said(y) => Frame(YaleWire(y)) case Hiss(n) => Noise(n)
  {
    hide YaleWire;
  }

  lemma {:induction false} MessagesCons(traffic: seq<Traffic>)
    requires traffic != []
    ensures Messages(traffic) ==
      if traffic[0].Said? then [traffic[0].message] + Messages(traffic[1..]) else Messages(traffic[1..])
  {
    var none: seq<YaleMessage> := [];
    assert none + Messages(traffic[1..]) == Messages(traffic[1..]);
  }

  lemma {:induction false} MessagesValid(traffic: seq<Traffic>)
    requires forall i :: 0 <= i < |traffic| ==> ValidTraffic(traffic[i])
    ensures forall i :: 0 <= i < |Messages(traffic)| ==> ValidYale(Messages(traffic)[i])
  {
    if traffic != [] { MessagesValid(traffic[1..]); }
  }

  /** Whatever noise lies between them, exactly the messages sent are read, in order. */
  lemma {:induction false} YaleLineReadsBack(traffic: seq<Traffic>)
    requires forall i :: 0 <= i < |traffic| ==> ValidTraffic(traffic[i])
    ensures var s := Flatten(OnLine(traffic)); YaleDecoded(s, YaleFrames(s), Messages(traffic))
  {
    hide YaleDecoded;
    hide YaleFrames;
    YaleFramesFound(traffic);
    YaleSlicesDecode(traffic);
  }

  ghost predicate YaleLine(items: seq<Item>) { forall i :: 0 <= i < |items| ==> Recognizable(YaleMatch, items[i]) }

  lemma {:induction false} YaleFramesFound(traffic: seq<Traffic>)
    requires forall i :: 0 <= i < |traffic| ==> ValidTraffic(traffic[i])
    ensures YaleFrames(Flatten(OnLine(traffic))) == SlicesOf(OnLine(traffic), 0)
  {
    hide *;
    YaleItemsRecognized(traffic);
    YaleItemsFound(OnLine(traffic));
  }

  lemma {:induction false} YaleItemsFound(items: seq<Item>)
    requires YaleLine(items)
    ensures YaleFrames(Flatten(items)) == SlicesOf(items, 0)
  {
    YaleSensible();
    hide YaleMatch;
    hide Recognizable;
    hide Flatten;
    hide SlicesOf;
    hide Scan;
    ScanFindsFrames(YaleMatch, items, 0);
  }

  lemma {:induction false} YaleSlicesDecode(traffic: seq<Traffic>)
    requires forall i :: 0 <= i < |traffic| ==> ValidTraffic(traffic[i])
    ensures YaleDecoded(Flatten(OnLine(traffic)), SlicesOf(OnLine(traffic), 0), Messages(traffic))
  {
    hide YaleDecode;
    hide YaleWire;
    hide YaleDecoded;
    var items := OnLine(traffic);
    CutsAreFrames(items, 0, []);
    assert [] + Flatten(items) == Flatten(items);
    MessagesAreFrames(traffic);
    MessagesReadBack(traffic);
    DecodedFrames(Flatten(items), SlicesOf(items, 0), FramesOf(items), Messages(traffic));
  }

  lemma DecodedFrames(s: Bytes, slices: seq<Slice>, frames: seq<Bytes>, messages: seq<YaleMessage>)
    requires |slices| == |frames| == |messages|
    requires forall i :: 0 <= i < |slices| ==> slices[i].start <= slices[i].end <= |s| && Cut(s, slices[i]) == frames[i]
    requires forall i :: 0 <= i < |frames| ==>
      frames[i] == YaleWire(messages[i]) && |YaleWire(messages[i])| >= 6
      && YaleDecode(YaleWire(messages[i])) == messages[i]
    ensures YaleDecoded(s, slices, messages)
  {
    hide YaleDecode;
    hide YaleWire;
    forall i | 0 <= i < |slices|
      ensures slices[i].start + 6 <= slices[i].end && messages[i] == YaleDecode(Cut(s, slices[i]))
    {
      assert frames[i] == YaleWire(messages[i]);
      assert |Cut(s, slices[i])| == slices[i].end - slices[i].start;
    }
  }

  lemma {:induction false} MessagesReadBack(traffic: seq<Traffic>)
    requires forall i :: 0 <= i < |traffic| ==> ValidTraffic(traffic[i])
    ensures forall i :: 0 <= i < |Messages(traffic)| ==>
      |YaleWire(Messages(traffic)[i])| >= 6 && YaleDecode(YaleWire(Messages(traffic)[i])) == Messages(traffic)[i]
  {
    hide YaleWire;
    hide YaleDecode;
    MessagesValid(traffic);
    forall i | 0 <= i < |Messages(traffic)|
      ensures |YaleWire(Messages(traffic)[i])| >= 6
      ensures YaleDecode(YaleWire(Messages(traffic)[i])) == Messages(traffic)[i]
    {
      YaleFrameRecognized(Messages(traffic)[i]);
    }
  }

  lemma {:induction false} YaleItemsRecognized(traffic: seq<Traffic>)
    requires forall i :: 0 <= i < |traffic| ==> ValidTraffic(traffic[i])
    ensures YaleLine(OnLine(traffic))
  {
    hide YaleMatch;
    var items := OnLine(traffic);
    forall i | 0 <= i < |items| ensures Recognizable(YaleMatch, items[i]) {
      match traffic[i]
      case Said(y) => YaleFrameRecognized(y);
      case Hiss(n) => QuietIsSilent(n);
    }
  }
}
