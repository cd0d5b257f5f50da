/** What goes into RSA: the padded block (RFC 8017, section 7.2.1) and the camera's key (X.690, section 8.1.3). */
module RsaInput {
  import opened Common

  // ------------------------------------------------------------------------ integers

  /** Big-endian bytes as a number. */
  function FromBytes(s: Bytes): nat { if s == [] then 0 else FromBytes(s[..|s| - 1]) * 256 + s[|s| - 1] }

  /** The shortest big-endian bytes of a number. */
  function ToBytes(n: nat): (r: Bytes)
    ensures r != []
  {
    if n < 256 then [n] else ToBytes(n / 256) + [n % 256]
  }

  function Power(base: nat, e: nat): nat { if e == 0 then 1 else base * Power(base, e - 1) }

  function BitLength(n: nat): nat { if n == 0 then 0 else 1 + BitLength(n / 2) }

  lemma {:induction false} ToBytesReadsBack(n: nat)
    ensures FromBytes(ToBytes(n)) == n
  {
    if n >= 256 {
      ToBytesReadsBack(n / 256);
      assert ToBytes(n)[..|ToBytes(n)| - 1] == ToBytes(n / 256);
    } else {
      assert ToBytes(n)[..0] == [];
    }
  }

  lemma {:induction false} LeadingZero(s: Bytes)
    ensures FromBytes([0] + s) == FromBytes(s)
  {
    if s == [] {
      assert ([0] + s)[..0] == [];
    } else {
      assert ([0] + s)[..|s|] == [0] + s[..|s| - 1];
      LeadingZero(s[..|s| - 1]);
    }
  }

  lemma {:induction false} BytesBelow(s: Bytes)
    ensures FromBytes(s) < Power(256, |s|)
  {
    if s != [] { BytesBelow(s[..|s| - 1]); }
  }

  lemma {:induction false} PowerPositive(base: nat, e: nat)
    requires base > 0
    ensures Power(base, e) > 0
  {
    if e > 0 { PowerPositive(base, e - 1); }
  }

  lemma {:induction false} PowersOfTwo(k: nat)
    ensures Power(2, 8 * k) == Power(256, k)
  {
    if k > 0 {
      PowersOfTwo(k - 1);
      var p := Power(2, 8 * (k - 1));
      assert Power(2, 8 * k) == 2 * (2 * (2 * (2 * (2 * (2 * (2 * (2 * p))))))) by { EightTimes(8 * (k - 1)); }
    }
  }

  lemma EightTimes(e: nat)
    ensures Power(2, e + 8) == 256 * Power(2, e)
  {
    assert Power(2, e + 1) == 2 * Power(2, e);
    assert Power(2, e + 2) == 2 * Power(2, e + 1);
    assert Power(2, e + 3) == 2 * Power(2, e + 2);
    assert Power(2, e + 4) == 2 * Power(2, e + 3);
    assert Power(2, e + 5) == 2 * Power(2, e + 4);
    assert Power(2, e + 6) == 2 * Power(2, e + 5);
    assert Power(2, e + 7) == 2 * Power(2, e + 6);
    assert Power(2, e + 8) == 2 * Power(2, e + 7);
  }

  /** A number of b bits is at least 2 to the b - 1. */
  lemma {:induction false} BitLengthBound(n: nat)
    requires n > 0
    ensures BitLength(n) >= 1 && Power(2, BitLength(n) - 1) <= n
  {
    if n > 1 {
      BitLengthBound(n / 2);
      assert Power(2, BitLength(n) - 1) == 2 * Power(2, BitLength(n / 2) - 1);
    }
  }

  lemma {:induction false} PowerMonotone(a: nat, b: nat)
    requires a <= b
    ensures Power(2, a) <= Power(2, b)
    decreases b - a
  {
    if a < b {
      PowerMonotone(a, b - 1);
      PowerPositive(2, b - 1);
    }
  }

  /** The bytes a number takes. */
  function Size(modulus: nat): nat { (BitLength(modulus) + 7) / 8 }

  lemma ModulusAbove(modulus: nat)
    requires modulus > 0
    ensures Size(modulus) >= 1 && Power(256, Size(modulus) - 1) <= modulus
  {
    BitLengthBound(modulus);
    var k := Size(modulus) - 1;
    assert 8 * k <= BitLength(modulus) - 1;
    PowersOfTwo(k);
    PowerMonotone(8 * k, BitLength(modulus) - 1);
  }

  // ------------------------------------------------------------------------- padding

  predicate AllNonZero(s: Bytes) { forall i :: 0 <= i < |s| ==> s[i] != 0 }

  /** The non-zero bytes of all batches, in order. */
  function Drawn(batches: seq<Bytes>): Bytes { Those(Concat(batches), (b: byte) => b != 0) }

  lemma DrawnMore(batches: seq<Bytes>, k: nat)
    requires k < |batches|
    ensures Drawn(batches[..k + 1]) == Drawn(batches[..k]) + Those(batches[k], (b: byte) => b != 0)
  {
    assert batches[..k + 1] == batches[..k] + [batches[k]];
    ConcatSnoc(batches[..k], batches[k]);
    ThoseConcat(Concat(batches[..k]), batches[k], (b: byte) => b != 0);
  }

  lemma DrawnPrefix(batches: seq<Bytes>, k: nat)
    requires k <= |batches|
    ensures Drawn(batches[..k]) <= Drawn(batches) && AllNonZero(Drawn(batches[..k]))
  {
    assert batches == batches[..k] + batches[k..];
    ConcatAdd(batches[..k], batches[k..]);
    ThoseConcat(Concat(batches[..k]), Concat(batches[k..]), (b: byte) => b != 0);
    var drawn := Drawn(batches[..k]);
    forall i | 0 <= i < |drawn| ensures drawn[i] != 0 { assert drawn[i] in drawn; }
  }

  /** Draw random bytes until there are enough non-zero ones: the first of them; None when the source runs dry. */
  method Padding(batches: seq<Bytes>, need: nat) returns (filler: Option<Bytes>)
    ensures filler == if |Drawn(batches)| < need then None else Some(Drawn(batches)[..need])
    ensures filler.Some? ==> AllNonZero(filler.value)
  {
    var padding: Bytes := [];
    var next := 0;
    while |padding| < need
      invariant 0 <= next <= |batches| && padding == Drawn(batches[..next])
      decreases |batches| - next
    {
      if next == |batches| {
        assert batches[..next] == batches;
        return None;
      }
      DrawnMore(batches, next);
      padding := padding + Those(batches[next], (b: byte) => b != 0);
      next := next + 1;
    }
    DrawnPrefix(batches, next);
    assert padding[..need] == Drawn(batches)[..need];
    filler := Some(padding[..need]);
  }

  function Block(filler: Bytes, message: Bytes): Bytes { [0, 2] + filler + [0] + message }

  datatype Refused = TooLong | NoRandomness

  /** The block a message is encrypted as. */
  method Pad(message: Bytes, modulus: nat, batches: seq<Bytes>) returns (r: Result<Bytes, Refused>)
    requires modulus > 0
    ensures r ==
      if |message| > Size(modulus) - 11 then Failure(TooLong)
      else if |Drawn(batches)| < Size(modulus) - 3 - |message| then Failure(NoRandomness)
      else Success(Block(Drawn(batches)[..Size(modulus) - 3 - |message|], message))
    ensures r.Success? ==> Unpad(r.value) == Some(message) && |r.value| == Size(modulus) && FromBytes(r.value) < modulus
  {
    var size := Size(modulus);
    if |message| > size - 11 { return Failure(TooLong); }
    var filler := Padding(batches, size - 3 - |message|);
    if filler.None? { return Failure(NoRandomness); }
    BlockIsSound(filler.value, message, modulus);
    r := Success(Block(filler.value, message));
  }

  /** The first zero at or after a place. */
  function FindZero(s: Bytes, at: nat): Option<nat>
    decreases |s| - at
  {
    if at >= |s| then None else if s[at] == 0 then Some(at) else FindZero(s, at + 1)
  }

  /** What a recipient takes out of a block: two header bytes, at least eight non-zero bytes, a zero. */
  function Unpad(block: Bytes): Option<Bytes> {
    if |block| < 11 || block[0] != 0 || block[1] != 2 then None
    else
      match FindZero(block, 2)
      case None => None
      case Some(i) => if i < 10 || i >= |block| then None else Some(block[i + 1..])
  }

  lemma {:induction false} FirstZero(s: Bytes, at: nat, zero: nat)
    requires at <= zero < |s| && s[zero] == 0 && forall i :: at <= i < zero ==> s[i] != 0
    ensures FindZero(s, at) == Some(zero)
    decreases zero - at
  {
    if at < zero { FirstZero(s, at + 1, zero); }
  }

  /** Of the modulus length, at least eight non-zero padding bytes, below the modulus, and it gives the message back. */
  lemma BlockIsSound(filler: Bytes, message: Bytes, modulus: nat)
    requires modulus > 0 && |message| <= Size(modulus) - 11
    requires |filler| == Size(modulus) - 3 - |message| && AllNonZero(filler)
    ensures var block := Block(filler, message);
      && |block| == Size(modulus) && |filler| >= 8
      && FromBytes(block) < modulus
      && Unpad(block) == Some(message)
  {
    var block := Block(filler, message);
    var rest := block[1..];
    assert block == [0] + rest;
    LeadingZero(rest);
    BytesBelow(rest);
    ModulusAbove(modulus);
    var zero := 2 + |filler|;
    assert block[zero] == 0;
    forall i | 2 <= i < zero ensures block[i] != 0 {
      assert block[i] == filler[i - 2];
    }
    FirstZero(block, 2, zero);
    assert block[zero + 1..] == message;
  }

  // ---------------------------------------------------------------------------- DER

  datatype Element = Element(tag: byte, start: nat, end: nat)

  /** Python's slice: what is there of it. */
  function SliceOf(data: Bytes, from: nat, to: nat): Bytes {
    var end := if to < |data| then to else |data|;
    if from >= end then [] else data[from..end]
  }

  /** Tag, content start and content end of the element at a place. */
  function ReadElement(data: Bytes, index: nat): Option<Element> {
    if index + 1 >= |data| then None
    else
      var tag, first: nat := data[index], data[index + 1];
      var count := if first >= 128 then first - 128 else 0;
      var start := index + 2 + count;
      var length := if first >= 128 then FromBytes(SliceOf(data, index + 2, index + 2 + count)) else first;
      if start + length > |data| then None else Some(Element(tag, start, start + length))
  }

  const BIT_STRING: byte := 3

  /** Two integers, one after the other. */
  function NumbersAt(data: Bytes, at: nat): Option<(nat, nat)> {
    match ReadElement(data, at)
    case None => None
    case Some(n) =>
      match ReadElement(data, n.end)
      case None => None
      case Some(e) => Some((FromBytes(SliceOf(data, n.start, n.end)), FromBytes(SliceOf(data, e.start, e.end))))
  }

  /** Modulus and exponent out of a SubjectPublicKeyInfo. */
  function PublicKey(data: Bytes): Option<(nat, nat)> {
    var info := ReadElement(data, 0);
    if info.None? then None
    else
      var algorithm := ReadElement(data, info.value.start);
      if algorithm.None? then None
      else
        var bits := ReadElement(data, algorithm.value.end);
        if bits.None? || bits.value.tag != BIT_STRING then None
        else
          var key := ReadElement(data, bits.value.start + 1);
          if key.None? then None
          else
            match NumbersAt(data, key.value.start)
            case None => None
            case Some((n, e)) => if BitLength(n) < 1024 || e < 3 then None else Some((n, e))
  }

  /** A length in the short form, or in the long form with the fewest bytes. */
  function LengthBytes(n: nat): Bytes
    requires |ToBytes(n)| <= 127
  {
    if n < 128 then [n] else [128 + |ToBytes(n)|] + ToBytes(n)
  }

  predicate Encodable(content: Bytes) { |ToBytes(|content|)| <= 127 }

  function Encode(tag: byte, content: Bytes): Bytes
    requires Encodable(content)
  {
    [tag] + LengthBytes(|content|) + content
  }

  /** A non-negative integer never starts with a set high bit. */
  function IntegerBytes(n: nat): Bytes { (if ToBytes(n)[0] >= 128 then [0] else []) + ToBytes(n) }

  lemma IntegerReadsBack(n: nat)
    ensures FromBytes(IntegerBytes(n)) == n
  {
    ToBytesReadsBack(n);
    LeadingZero(ToBytes(n));
    assert [] + ToBytes(n) == ToBytes(n);
  }

  /** These bytes stand at this place of the data. */
  predicate Holds(data: Bytes, at: nat, s: Bytes) { at + |s| <= |data| && data[at..at + |s|] == s }

  lemma HoldsBoth(data: Bytes, at: nat, a: Bytes, b: Bytes)
    requires Holds(data, at, a + b)
    ensures Holds(data, at, a) && Holds(data, at + |a|, b)
  {
    var s := data[at..at + |a + b|];
    assert data[at..at + |a|] == s[..|a|] == a;
    assert data[at + |a|..at + |a| + |b|] == s[|a|..] == b;
  }

  lemma {:induction false} LengthReadsBack(data: Bytes, at: nat, n: nat)
    requires |ToBytes(n)| <= 127 && Holds(data, at, LengthBytes(n))
    ensures at < |data|
    ensures var first: nat := data[at];
      var count := if first >= 128 then first - 128 else 0;
      && 1 + count == |LengthBytes(n)|
      && n == if first >= 128 then FromBytes(SliceOf(data, at + 1, at + 1 + count)) else first
  {
    hide FromBytes;
    hide ToBytes;
    var length := LengthBytes(n);
    assert data[at] == data[at..at + |length|][0] == length[0];
    if n >= 128 {
      HoldsBoth(data, at, [length[0]], ToBytes(n));
      assert SliceOf(data, at + 1, at + 1 + |ToBytes(n)|) == ToBytes(n);
      ToBytesReadsBack(n);
    }
  }

  function Offset(content: Bytes): nat
    requires Encodable(content)
  {
    1 + |LengthBytes(|content|)|
  }

  /** An element is read back wherever it stands, whatever surrounds it. */
  lemma ElementReadsBack(data: Bytes, at: nat, tag: byte, content: Bytes)
    requires Encodable(content) && Holds(data, at, Encode(tag, content))
    ensures var start := at + Offset(content);
      && ReadElement(data, at) == Some(Element(tag, start, start + |content|))
      && Holds(data, start, content) && start + |content| == at + |Encode(tag, content)|
  {
    hide FromBytes;
    hide ToBytes;
    hide SliceOf;
    hide LengthBytes;
    var length := LengthBytes(|content|);
    assert Encode(tag, content) == [tag] + (length + content);
    HoldsBoth(data, at, [tag], length + content);
    HoldsBoth(data, at + 1, length, content);
    LengthReadsBack(data, at + 1, |content|);
    assert |Encode(tag, content)| == 1 + |length| + |content|;
    assert data[at] == data[at..at + 1][0] == tag;
  }

  function KeyContent(n: nat, e: nat): Bytes
    requires Encodable(IntegerBytes(n)) && Encodable(IntegerBytes(e))
  {
    Encode(2, IntegerBytes(n)) + Encode(2, IntegerBytes(e))
  }

  /** The parts of a key's encoding, each short enough for a length. */
  ghost predicate Fits(algorithm: Bytes, n: nat, e: nat) {
    && Encodable(IntegerBytes(n)) && Encodable(IntegerBytes(e)) && Encodable(algorithm)
    && Encodable(KeyContent(n, e)) && Encodable([0] + Encode(48, KeyContent(n, e)))
    && Encodable(Encode(48, algorithm) + Encode(BIT_STRING, [0] + Encode(48, KeyContent(n, e))))
  }

  function EncodeKey(algorithm: Bytes, n: nat, e: nat): Bytes
    requires Fits(algorithm, n, e)
  {
    Encode(48, Encode(48, algorithm) + Encode(BIT_STRING, [0] + Encode(48, KeyContent(n, e))))
  }

  /**
    The key of every encoding is read back, in short and long lengths alike, exactly when it has at least
    1024 bits and an exponent of at least 3.
   */
  lemma {:induction false} PublicKeyReadsBack(algorithm: Bytes, n: nat, e: nat)
    requires Fits(algorithm, n, e)
    ensures PublicKey(EncodeKey(algorithm, n, e)) == if BitLength(n) >= 1024 && e >= 3 then Some((n, e)) else None
  {
    hide ReadElement;
    hide Encode;
    hide ToBytes;
    hide FromBytes;
    hide IntegerBytes;
    hide KeyContent;
    hide BitLength;
    hide NumbersAt;
    hide LengthBytes;
    var key := KeyContent(n, e);
    var bits := [0] + Encode(48, key);
    var algo, text := Encode(48, algorithm), Encode(BIT_STRING, bits);
    var data := EncodeKey(algorithm, n, e);
    assert Holds(data, 0, data);
    ElementReadsBack(data, 0, 48, algo + text);
    var at := Offset(algo + text);
    HoldsBoth(data, at, algo, text);
    ElementReadsBack(data, at, 48, algorithm);
    ElementReadsBack(data, at + |algo|, BIT_STRING, bits);
    var inside := at + |algo| + Offset(bits);
    HoldsBoth(data, inside, [0], Encode(48, key));
    ElementReadsBack(data, inside + 1, 48, key);
    IntegersReadBack(data, inside + 1 + Offset(key), n, e);
  }

  lemma IntegersReadBack(data: Bytes, at: nat, n: nat, e: nat)
    requires Encodable(IntegerBytes(n)) && Encodable(IntegerBytes(e)) && Holds(data, at, KeyContent(n, e))
    ensures NumbersAt(data, at) == Some((n, e))
  {
    hide ReadElement;
    hide Encode;
    hide ToBytes;
    hide FromBytes;
    HoldsBoth(data, at, Encode(2, IntegerBytes(n)), Encode(2, IntegerBytes(e)));
    ElementReadsBack(data, at, 2, IntegerBytes(n));
    ElementReadsBack(data, at + |Encode(2, IntegerBytes(n))|, 2, IntegerBytes(e));
    IntegerReadsBack(n);
    IntegerReadsBack(e);
  }
}
