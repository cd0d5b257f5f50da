/** HTTP response bodies on the tunnel: copying a framed body piece by piece (section 7.1 of RFC 9112). */
module ChunkedBody {
  import opened Common

  const CR: byte := 13
  const LF: byte := 10
  const CRLF: Bytes := [CR, LF]
  const SEMICOLON: byte := 59
  const LIMIT := 65536
  const PIECE := 32768

  datatype Failure = Truncated | TooLarge | BadSize | BadTerminator

  // ----------------------------------------------------------------- reading lines

  function FindCrlf(s: Bytes): Option<nat> {
    if |s| < 2 then None
    else if s[0] == CR && s[1] == LF then Some(0)
    else
      match FindCrlf(s[1..])
      case None => None
      case Some(i) => Some(i + 1)
  }

  /** The reader's own limit is on the bytes before the separator. */
  function ReadLine(s: Bytes): (r: Result<(Bytes, Bytes), Failure>)
    ensures r.Success? ==> |r.value.0| >= 2 && s == r.value.0 + r.value.1
  {
    FindCrlfBound(s);
    match FindCrlf(s)
    case None => Failure(if |s| > LIMIT + 1 then TooLarge else Truncated)
    case Some(i) => if i > LIMIT then Failure(TooLarge) else Success((s[..i + 2], s[i + 2..]))
  }

  lemma {:induction false} FindCrlfBound(s: Bytes)
    ensures FindCrlf(s).Some? ==>
      FindCrlf(s).value + 2 <= |s| && s[FindCrlf(s).value] == CR && s[FindCrlf(s).value + 1] == LF
  {
    if |s| >= 2 && !(s[0] == CR && s[1] == LF) { FindCrlfBound(s[1..]); }
  }

  /** A line ends at the first CR LF; a longer one is too large, and without any the stream is too large or cut off. */
  lemma {:induction false} LineEndsExactly(s: Bytes)
    ensures match ReadLine(s)
      case Success((line, rest)) => exists i: nat :: i <= 65536 && EndsAt(s, i) && line == s[..i + 2] && rest == s[i + 2..]
      case Failure(TooLarge) => (exists i: nat :: i > 65536 && EndsAt(s, i)) || (|s| > 65537 && !Ends(s))
      case Failure(failure) => failure == Truncated && |s| <= 65537 && !Ends(s)
  {
    CrlfFirst(s);
    match FindCrlf(s)
    case Some(i) => assert EndsAt(s, i);
    case None =>
  }

  ghost predicate Ends(s: Bytes) { exists i: nat :: i + 1 < |s| && s[i] == 13 && s[i + 1] == 10 }

  /** The first CR LF is here. */
  ghost predicate EndsAt(s: Bytes, i: nat) {
    && i + 1 < |s| && s[i] == 13 && s[i + 1] == 10
    && forall j: nat :: j < i ==> !(s[j] == 13 && s[j + 1] == 10)
  }

  lemma {:induction false} CrlfFirst(s: Bytes)
    ensures match FindCrlf(s) case Some(i) => EndsAt(s, i) case None => !Ends(s)
  {
    if |s| >= 2 && !(s[0] == CR && s[1] == LF) {
      var rest := s[1..];
      CrlfFirst(rest);
      assert forall j: nat :: 0 < j < |s| ==> s[j] == rest[j - 1];
      match FindCrlf(rest)
      case Some(i) =>
        forall j: nat | j < i + 1 ensures !(s[j] == 13 && s[j + 1] == 10) {
          if j > 0 { assert !(rest[j - 1] == 13 && rest[j] == 10); }
        }
      case None =>
        forall i: nat | i + 1 < |s| ensures !(s[i] == 13 && s[i + 1] == 10) {
          if i > 0 { assert s[i] == rest[i - 1] && s[i + 1] == rest[i]; }
        }
    }
  }

  // --------------------------------------------------------------- the size of a chunk

  predicate IsSpace(b: byte) { b == 32 || 9 <= b <= 13 }

  predicate IsHex(b: byte) { 48 <= b <= 57 || 65 <= b <= 70 || 97 <= b <= 102 }

  function HexOf(b: byte): nat
    requires IsHex(b)
  {
    if b <= 57 then b - 48 else if b <= 70 then b - 55 else b - 87
  }

  /** Both cases of a hexadecimal digit count the same. */
  lemma DigitsCount(d: nat)
    requires d < 16
    ensures d < 10 ==> IsHex(48 + d) && HexOf(48 + d) == d
    ensures d >= 10 ==> IsHex(55 + d) && HexOf(55 + d) == d && IsHex(87 + d) && HexOf(87 + d) == d
  {
  }

  function StripLeft(s: Bytes): Bytes {
    if s != [] && IsSpace(s[0]) then StripLeft(s[1..]) else s
  }

  function StripRight(s: Bytes): Bytes {
    if s != [] && IsSpace(s[|s| - 1]) then StripRight(s[..|s| - 1]) else s
  }

  /** Digits with single underscores between them; `after` says a digit came just before. */
  function Digits(s: Bytes, value: nat, after: bool): Option<nat> {
    if s == [] then if after then Some(value) else None
    else if s[0] == 95 then if after then Digits(s[1..], value, false) else None
    else if IsHex(s[0]) then Digits(s[1..], value * 16 + HexOf(s[0]), true)
    else None
  }

  /** A hexadecimal number may have a 0x prefix, and one underscore after it. */
  function Prefixed(s: Bytes): Option<nat> {
    if |s| >= 2 && s[0] == 48 && (s[1] == 120 || s[1] == 88) then
      Digits(if |s| > 2 && s[2] == 95 then s[3..] else s[2..], 0, false)
    else Digits(s, 0, false)
  }

  /** Python's reading of bytes as a base-16 integer: spaces around, a sign, a prefix, underscores. */
  function ParseHex(text: Bytes): Option<int> {
    var s := StripRight(StripLeft(text));
    var negative := s != [] && s[0] == 45;
    var signed := s != [] && (s[0] == 43 || s[0] == 45);
    match Prefixed(if signed then s[1..] else s)
    case None => None
    case Some(n) =>
      var magnitude: int := n;
      Some(if negative then -magnitude else magnitude)
  }

  /** Between digits single underscores may stand, and nothing else; `after` says a digit came before. */
  ghost predicate Grouped(s: Bytes, after: bool) {
    && (forall i :: 0 <= i < |s| ==> IsHex(s[i]) || s[i] == 95)
    && (forall i :: 0 <= i < |s| - 1 ==> s[i] != 95 || s[i + 1] != 95)
    && (if s == [] then after else s[|s| - 1] != 95 && (s[0] != 95 || after))
  }

  /** The digits count, in base sixteen. */
  function ValueFrom(s: Bytes, value: nat): nat {
    if s == [] then value
    else if IsHex(s[0]) then ValueFrom(s[1..], value * 16 + HexOf(s[0]))
    else ValueFrom(s[1..], value)
  }

  lemma {:induction false} DigitsExactly(s: Bytes, value: nat, after: bool)
    ensures Digits(s, value, after) == if Grouped(s, after) then Some(ValueFrom(s, value)) else None
    decreases |s|
  {
    if s != [] {
      var rest := s[1..];
      assert forall i :: 0 <= i < |rest| ==> rest[i] == s[i + 1];
      if s[0] == 95 && after {
        DigitsExactly(rest, value, false);
        assert Grouped(s, after) <==> Grouped(rest, false) by { GroupedRest(s, after); }
      } else if IsHex(s[0]) {
        DigitsExactly(rest, value * 16 + HexOf(s[0]), true);
        assert Grouped(s, after) <==> Grouped(rest, true) by { GroupedRest(s, after); }
      }
    }
  }

  lemma GroupedRest(s: Bytes, after: bool)
    requires s != []
    ensures s[0] == 95 && after ==> (Grouped(s, after) <==> Grouped(s[1..], false))
    ensures IsHex(s[0]) ==> (Grouped(s, after) <==> Grouped(s[1..], true))
  {
    var rest := s[1..];
    assert forall i :: 0 <= i < |rest| ==> rest[i] == s[i + 1];
    assert forall i :: 0 < i < |s| ==> s[i] == rest[i - 1];
  }

  /** Nothing, or 0x, perhaps with an underscore after it. */
  predicate IsPrefix(prefix: Bytes) {
    || prefix == []
    || (|prefix| == 2 && prefix[0] == 48 && (prefix[1] == 120 || prefix[1] == 88))
    || (|prefix| == 3 && prefix[0] == 48 && (prefix[1] == 120 || prefix[1] == 88) && prefix[2] == 95)
  }

  ghost predicate IsNumber(s: Bytes, prefix: Bytes, digits: Bytes, n: nat) {
    s == prefix + digits && IsPrefix(prefix) && Grouped(digits, false) && n == ValueFrom(digits, 0)
  }

  ghost predicate Spaces(s: Bytes) { forall i :: 0 <= i < |s| ==> s[i] in [9, 10, 11, 12, 13, 32] }

  /** A number with a sign, 0x, and digits in groups; it is not negative. */
  ghost predicate IsSigned(core: Bytes, n: nat) {
    exists sign: Bytes, prefix: Bytes, digits: Bytes ::
      && IsNumber(prefix + digits, prefix, digits, n)
      && core == sign + (prefix + digits)
      && (sign == [] || sign == [43] || (sign == [45] && n == 0))
  }

  /** A chunk size: such a number with white space around it, perhaps an extension after a semicolon. */
  ghost predicate IsSize(text: Bytes, n: nat) {
    exists left: Bytes, core: Bytes, right: Bytes, extension: Bytes ::
      && text == left + core + right + extension && Spaces(left) && Spaces(right) && IsSigned(core, n)
      && (extension == [] || extension[0] == SEMICOLON)
  }

  function BeforeSemicolon(s: Bytes): Bytes {
    if s == [] || s[0] == SEMICOLON then [] else [s[0]] + BeforeSemicolon(s[1..])
  }

  /** The size a chunk header declares: its extension is ignored. */
  function ParseSize(line: Bytes): Result<nat, Failure>
    requires |line| >= 2
  {
    match ParseHex(BeforeSemicolon(line[..|line| - 2]))
    case None => Failure(BadSize)
    case Some(n) => if n < 0 then Failure(BadSize) else Success(n)
  }

  lemma NumberRead(s: Bytes, n: nat) returns (prefix: Bytes, digits: Bytes)
    requires Prefixed(s) == Some(n)
    ensures IsNumber(s, prefix, digits, n)
  {
    var hex := |s| >= 2 && s[0] == 48 && (s[1] == 120 || s[1] == 88);
    var k := if !hex then 0 else if |s| > 2 && s[2] == 95 then 3 else 2;
    prefix, digits := s[..k], s[k..];
    DigitsExactly(digits, 0, false);
  }

  lemma NumberReads(s: Bytes, prefix: Bytes, digits: Bytes, n: nat)
    requires IsNumber(s, prefix, digits, n)
    ensures Prefixed(s) == Some(n) && s != [] && s[0] != 43 && s[0] != 45
  {
    DigitsExactly(digits, 0, false);
    assert digits != [] && IsHex(digits[0]);
    if prefix == [] {
      assert s == digits;
      assert |s| >= 2 ==> IsHex(digits[1]) || digits[1] == 95;
    } else {
      assert s[|prefix|..] == digits && s[0] == prefix[0] && s[1] == prefix[1];
      assert s[2] == if |prefix| == 2 then digits[0] else prefix[2];
    }
    hide Digits;
    hide Grouped;
  }

  lemma SignedIsRead(s: Bytes, n: nat)
    ensures IsSigned(s, n) <==>
      var signed := s != [] && (s[0] == 43 || s[0] == 45);
      var body := if signed then s[1..] else s;
      Prefixed(body) == Some(n) && (s != [] && s[0] == 45 ==> n == 0)
  {
    var signed := s != [] && (s[0] == 43 || s[0] == 45);
    var body := if signed then s[1..] else s;
    var sign := if signed then [s[0]] else [];
    assert s == sign + body;
    hide Prefixed;
    hide IsNumber;
    if Prefixed(body) == Some(n) {
      var prefix, digits := NumberRead(body, n);
      assert body == prefix + digits by { NumberIs(body, prefix, digits, n); }
    }
    if IsSigned(s, n) {
      var plus: Bytes, prefix: Bytes, digits: Bytes :|
        && IsNumber(prefix + digits, prefix, digits, n) && s == plus + (prefix + digits)
        && (plus == [] || plus == [43] || (plus == [45] && n == 0));
      NumberReads(prefix + digits, prefix, digits, n);
      assert plus == sign && body == prefix + digits;
    }
  }

  /** Such a number neither begins nor ends with white space, and has no semicolon. */
  lemma SignedIsDense(s: Bytes, n: nat)
    requires IsSigned(s, n)
    ensures s != [] && s[0] !in [9, 10, 11, 12, 13, 32] && s[|s| - 1] !in [9, 10, 11, 12, 13, 32] && SEMICOLON !in s
  {
    var sign: Bytes, prefix: Bytes, digits: Bytes :|
      && IsNumber(prefix + digits, prefix, digits, n) && s == sign + (prefix + digits)
      && (sign == [] || sign == [43] || (sign == [45] && n == 0));
    assert digits != [] && s[|s| - 1] == digits[|digits| - 1];
    forall i | 0 <= i < |s| ensures s[i] !in [9, 10, 11, 12, 13, 32, SEMICOLON] {
      if i < |sign| { assert s[i] == sign[i]; }
      else if i < |sign| + |prefix| { assert s[i] == prefix[i - |sign|]; }
      else { assert s[i] == digits[i - |sign| - |prefix|]; }
    }
  }

  lemma SpaceIs(b: byte)
    ensures IsSpace(b) <==> b in [9, 10, 11, 12, 13, 32]
  {
  }

  lemma {:induction false} LeftGoes(left: Bytes, rest: Bytes)
    requires Spaces(left) && (rest != [] ==> rest[0] !in [9, 10, 11, 12, 13, 32])
    ensures StripLeft(left + rest) == rest
  {
    if left == [] {
      assert left + rest == rest;
      if rest != [] { SpaceIs(rest[0]); }
    } else {
      SpaceIs(left[0]);
      assert (left + rest)[1..] == left[1..] + rest;
      LeftGoes(left[1..], rest);
    }
  }

  lemma {:induction false} RightGoes(rest: Bytes, right: Bytes)
    requires Spaces(right) && (rest != [] ==> rest[|rest| - 1] !in [9, 10, 11, 12, 13, 32])
    ensures StripRight(rest + right) == rest
  {
    if right == [] {
      assert rest + right == rest;
      if rest != [] { SpaceIs(rest[|rest| - 1]); }
    } else {
      var n := |right| - 1;
      SpaceIs(right[n]);
      assert (rest + right)[..|rest + right| - 1] == rest + right[..n];
      RightGoes(rest, right[..n]);
    }
  }

  lemma {:induction false} LeftSpaces(s: Bytes) returns (left: Bytes)
    ensures s == left + StripLeft(s) && Spaces(left)
  {
    left := [];
    if s != [] && IsSpace(s[0]) {
      SpaceIs(s[0]);
      var more := LeftSpaces(s[1..]);
      left := [s[0]] + more;
    }
  }

  lemma {:induction false} RightSpaces(s: Bytes) returns (right: Bytes)
    ensures s == StripRight(s) + right && Spaces(right)
  {
    right := [];
    if s != [] && IsSpace(s[|s| - 1]) {
      SpaceIs(s[|s| - 1]);
      var more := RightSpaces(s[..|s| - 1]);
      right := more + [s[|s| - 1]];
    }
  }

  lemma {:induction false} ExtensionGoes(before: Bytes, extension: Bytes)
    requires SEMICOLON !in before && (extension == [] || extension[0] == SEMICOLON)
    ensures BeforeSemicolon(before + extension) == before
  {
    if before == [] {
      assert before + extension == extension;
    } else {
      assert before == [before[0]] + before[1..];
      assert (before + extension)[1..] == before[1..] + extension;
      ExtensionGoes(before[1..], extension);
    }
  }

  lemma {:induction false} ExtensionOf(s: Bytes) returns (extension: Bytes)
    ensures s == BeforeSemicolon(s) + extension && (extension == [] || extension[0] == SEMICOLON)
  {
    extension := s;
    if s != [] && s[0] != SEMICOLON { extension := ExtensionOf(s[1..]); }
  }

  lemma {:induction false} SizeReads(text: Bytes, left: Bytes, core: Bytes, right: Bytes, extension: Bytes, n: nat)
    requires text == left + core + right + extension && Spaces(left) && Spaces(right) && IsSigned(core, n)
    requires extension == [] || extension[0] == SEMICOLON
    ensures StripRight(StripLeft(BeforeSemicolon(text))) == core
  {
    SignedIsDense(core, n);
    hide *;
    NoSemicolon(left, core, right);
    ExtensionGoes(left + core + right, extension);
    assert left + core + right == left + (core + right);
    assert (core + right)[0] == core[0];
    LeftGoes(left, core + right);
    RightGoes(core, right);
  }

  lemma NoSemicolon(left: Bytes, core: Bytes, right: Bytes)
    requires Spaces(left) && Spaces(right) && SEMICOLON !in core
    ensures SEMICOLON !in left + core + right
  {
    var before := left + core + right;
    forall i | 0 <= i < |before| ensures before[i] != SEMICOLON {
      if i < |left| { assert before[i] == left[i]; }
      else if i < |left| + |core| { assert before[i] == core[i - |left|] && core[i - |left|] in core; }
      else { assert before[i] == right[i - |left| - |core|]; }
    }
  }

  lemma ReadsSize(text: Bytes) returns (left: Bytes, right: Bytes, extension: Bytes)
    ensures text == left + StripRight(StripLeft(BeforeSemicolon(text))) + right + extension
    ensures Spaces(left) && Spaces(right) && (extension == [] || extension[0] == SEMICOLON)
  {
    hide *;
    extension := ExtensionOf(text);
    var before := BeforeSemicolon(text);
    left := LeftSpaces(before);
    right := RightSpaces(StripLeft(before));
    var core := StripRight(StripLeft(before));
    assert before == left + (core + right);
    assert left + (core + right) == left + core + right;
  }

  /** The size a header line declares, and every other line is refused. */
  lemma SizeIsReadExactly(line: Bytes, n: nat)
    requires |line| >= 2
    ensures ParseSize(line) == Success(n) <==> IsSize(line[..|line| - 2], n)
    ensures ParseSize(line).Failure? ==> ParseSize(line).error == BadSize
  {
    var text := line[..|line| - 2];
    var s := StripRight(StripLeft(BeforeSemicolon(text)));
    SignedIsRead(s, n);
    hide Prefixed;
    hide StripLeft;
    hide StripRight;
    hide BeforeSemicolon;
    hide IsSigned;
    hide Spaces;
    if IsSize(text, n) {
      var left: Bytes, core: Bytes, right: Bytes, extension: Bytes :|
        && text == left + core + right + extension && Spaces(left) && Spaces(right) && IsSigned(core, n)
        && (extension == [] || extension[0] == SEMICOLON);
      SizeReads(text, left, core, right, extension, n);
    }
    if IsSigned(s, n) {
      var left, right, extension := ReadsSize(text);
      assert text == left + s + right + extension;
    }
  }

  lemma NumberIs(s: Bytes, prefix: Bytes, digits: Bytes, n: nat)
    requires IsNumber(s, prefix, digits, n)
    ensures s == prefix + digits
  {
  }

  // --------------------------------------------------------------------- copying

  /** What was delivered, and what the reader holds next or why it stopped. */
  datatype Outcome = Done(payloads: seq<Bytes>, rest: Bytes) | Fails(payloads: seq<Bytes>, failure: Failure)

  function CopyFixed(length: nat, s: Bytes, sent: seq<Bytes>): Outcome
    decreases length
  {
    if length == 0 then Done(sent, s)
    else
      var k := Least(PIECE, length);
      if |s| < k then Fails(sent, Truncated) else CopyFixed(length - k, s[k..], sent + [s[..k]])
  }

  lemma {:induction false} CopyFixedRest(length: nat, s: Bytes, sent: seq<Bytes>)
    ensures CopyFixed(length, s, sent).Done? ==> |CopyFixed(length, s, sent).rest| == |s| - length
    decreases length
  {
    if length > 0 {
      var k := Least(PIECE, length);
      if |s| >= k { CopyFixedRest(length - k, s[k..], sent + [s[..k]]); }
    }
  }

  function SkipTrailers(s: Bytes): Result<Bytes, Failure>
    decreases |s|
  {
    match ReadLine(s)
    case Failure(failure) => Failure(failure)
    case Success((line, rest)) =>
      if line == CRLF then Success(rest)
      else if |line| > LIMIT then Failure(TooLarge)
      else SkipTrailers(rest)
  }

  function Terminated(s: Bytes): Result<Bytes, Failure> {
    if |s| < 2 then Failure(Truncated) else if s[..2] != CRLF then Failure(BadTerminator) else Success(s[2..])
  }

  function CopyChunked(s: Bytes, sent: seq<Bytes>): Outcome
    decreases |s|
  {
    match ReadLine(s)
    case Failure(failure) => Fails(sent, failure)
    case Success((line, rest)) =>
      if |line| > LIMIT then Fails(sent, TooLarge)
      else
        match ParseSize(line)
        case Failure(failure) => Fails(sent, failure)
        case Success(size) =>
          if size == 0 then
            match SkipTrailers(rest)
            case Failure(failure) => Fails(sent, failure)
            case Success(after) => Done(sent, after)
          else
            CopyFixedRest(size, rest, sent);
            match CopyFixed(size, rest, sent)
            case Fails(all, failure) => Fails(all, failure)
            case Done(all, after) =>
              match Terminated(after)
              case Failure(failure) => Fails(all, failure)
              case Success(next) => CopyChunked(next, all)
  }

  // ------------------------------------------------------------------- the loops

  /** The local connection, as far as it has not been read. */
  class StreamReader {
    var unread: Bytes

    constructor (content: Bytes)
      ensures unread == content
    {
      unread := content;
    }

    method ReadUntilCrlf() returns (r: Result<Bytes, Failure>)
      modifies this
      ensures match ReadLine(old(unread))
        case Failure(failure) => r == Failure(failure)
        case Success((line, rest)) => r == Success(line) && unread == rest && |unread| < |old(unread)|
    {
      var read := ReadLine(unread);
      if read.Failure? { return Failure(read.error); }
      unread := read.value.1;
      r := Success(read.value.0);
    }

    method ReadExactly(n: nat) returns (r: Result<Bytes, Failure>)
      modifies this
      ensures if n <= |old(unread)| then r == Success(old(unread)[..n]) && unread == old(unread)[n..]
        else r == Failure(Truncated)
    {
      if |unread| < n { return Failure(Truncated); }
      r := Success(unread[..n]);
      unread := unread[n..];
    }
  }

  /** The stream's side of the tunnel: payloads go out in order, and an empty one is not sent. */
  class StreamCopy {
    var sent: seq<Bytes>

    constructor ()
      ensures sent == []
    {
      sent := [];
    }

    method SendData(data: Bytes)
      modifies this
      ensures sent == if data == [] then old(sent) else old(sent) + [data]
    {
      if data != [] { sent := sent + [data]; }
    }

    /** Copy exactly `length` bytes. */
    method CopyFixedBody(reader: StreamReader, length: nat) returns (failure: Option<Failure>)
      modifies this, reader
      ensures match CopyFixed(length, old(reader.unread), old(sent))
        case Done(payloads, rest) => failure == None && sent == payloads && reader.unread == rest
        case Fails(payloads, why) => failure == Some(why) && sent == payloads
    {
      var remaining: int := length;
      while remaining > 0
        invariant 0 <= remaining <= length
        invariant CopyFixed(remaining, reader.unread, sent) == CopyFixed(length, old(reader.unread), old(sent))
      {
        var data := reader.ReadExactly(Least(PIECE, remaining));
        if data.Failure? { return Some(data.error); }
        remaining := remaining - |data.value|;
        SendData(data.value);
      }
      failure := None;
    }

    /** Copy chunk after chunk, up to and including the line that ends the trailers. */
    method CopyChunkedBody(reader: StreamReader) returns (failure: Option<Failure>)
      modifies this, reader
      ensures match CopyChunked(old(reader.unread), old(sent))
        case Done(payloads, rest) => failure == None && sent == payloads && reader.unread == rest
        case Fails(payloads, why) => failure == Some(why) && sent == payloads
    {
      while true
        invariant CopyChunked(reader.unread, sent) == CopyChunked(old(reader.unread), old(sent))
        decreases |reader.unread|
      {
        var line := reader.ReadUntilCrlf();
        if line.Failure? { return Some(line.error); }
        if |line.value| > LIMIT { return Some(TooLarge); }
        var size := ParseSize(line.value);
        if size.Failure? { return Some(size.error); }
        if size.value == 0 {
          failure := SkipTrailerLines(reader);
          return;
        }
        CopyFixedRest(size.value, reader.unread, sent);
        failure := CopyFixedBody(reader, size.value);
        if failure.Some? { return; }
        var end := reader.ReadExactly(2);
        if end.Failure? { return Some(end.error); }
        if end.value != CRLF { return Some(BadTerminator); }
      }
    }

    method SkipTrailerLines(reader: StreamReader) returns (failure: Option<Failure>)
      modifies reader
      ensures match SkipTrailers(old(reader.unread))
        case Success(rest) => failure == None && reader.unread == rest
        case Failure(why) => failure == Some(why)
    {
      while true
        invariant SkipTrailers(reader.unread) == SkipTrailers(old(reader.unread))
        decreases |reader.unread|
      {
        var line := reader.ReadUntilCrlf();
        if line.Failure? { return Some(line.error); }
        if line.value == CRLF { return None; }
        if |line.value| > LIMIT { return Some(TooLarge); }
      }
    }
  }

  // --------------------------------------------------------------- a body on the wire

  /** One chunk as a server may write it: any digits of its size, padding, an extension. */
  datatype Chunk = Chunk(size: Bytes, padding: Bytes, extension: Bytes, data: Bytes)

  function HexValue(digits: Bytes, value: nat): nat
    requires AllHex(digits)
  {
    if digits == [] then value else HexValue(digits[1..], value * 16 + HexOf(digits[0]))
  }

  predicate AllHex(s: Bytes) { forall i :: 0 <= i < |s| ==> IsHex(s[i]) }

  predicate AllBlank(s: Bytes) { forall i :: 0 <= i < |s| ==> s[i] == 32 || s[i] == 9 }

  function Header(c: Chunk): Bytes { c.size + c.padding + c.extension }

  predicate ValidHeader(c: Chunk) {
    && c.size != [] && AllHex(c.size) && HexValue(c.size, 0) == |c.data|
    && AllBlank(c.padding)
    && (c.extension != [] ==> c.extension[0] == SEMICOLON)
    && FindCrlf(c.extension).None?
    && |Header(c)| + 2 <= LIMIT
  }

  predicate ValidTrailer(t: Bytes) { t != [] && FindCrlf(t).None? && |t| + 2 <= LIMIT }

  ghost predicate ValidBody(chunks: seq<Chunk>, last: Chunk, trailers: seq<Bytes>) {
    && (forall c :: c in chunks ==> ValidHeader(c) && c.data != [])
    && ValidHeader(last) && last.data == []
    && (forall t :: t in trailers ==> ValidTrailer(t))
  }

  function EncodeChunks(chunks: seq<Chunk>): Bytes {
    if chunks == [] then []
    else Header(chunks[0]) + CRLF + chunks[0].data + CRLF + EncodeChunks(chunks[1..])
  }

  function EncodeTrailers(trailers: seq<Bytes>): Bytes {
    if trailers == [] then CRLF else trailers[0] + CRLF + EncodeTrailers(trailers[1..])
  }

  function Encode(chunks: seq<Chunk>, last: Chunk, trailers: seq<Bytes>): Bytes {
    EncodeChunks(chunks) + Header(last) + CRLF + EncodeTrailers(trailers)
  }

  function BodyOf(chunks: seq<Chunk>): Bytes {
    if chunks == [] then [] else chunks[0].data + BodyOf(chunks[1..])
  }

  /** A run of bytes in pieces of the largest size, the last one shorter. */
  function Pieces(data: Bytes): seq<Bytes> {
    if data == [] then []
    else var k := Least(PIECE, |data|); [data[..k]] + Pieces(data[k..])
  }

  function AllPieces(chunks: seq<Chunk>): seq<Bytes> {
    if chunks == [] then [] else Pieces(chunks[0].data) + AllPieces(chunks[1..])
  }

  predicate Sized(payloads: seq<Bytes>) { forall i :: 0 <= i < |payloads| ==> 1 <= |payloads[i]| <= PIECE }

  lemma {:induction false} PiecesSpec(data: Bytes)
    ensures Concat(Pieces(data)) == data && Sized(Pieces(data))
  {
    if data != [] {
      var k := Least(PIECE, |data|);
      PiecesSpec(data[k..]);
      assert Pieces(data)[1..] == Pieces(data[k..]);
    }
  }

  /** Copying a fixed length delivers exactly those bytes and leaves the rest unread. */
  lemma {:induction false} FixedCopiesExactly(data: Bytes, rest: Bytes, sent: seq<Bytes>)
    ensures CopyFixed(|data|, data + rest, sent) == Done(sent + Pieces(data), rest)
    decreases |data|
  {
    if data == [] {
      assert data + rest == rest;
    } else {
      var k := Least(PIECE, |data|);
      assert (data + rest)[..k] == data[..k];
      assert (data + rest)[k..] == data[k..] + rest;
      FixedCopiesExactly(data[k..], rest, sent + [data[..k]]);
      assert sent + [data[..k]] + Pieces(data[k..]) == sent + Pieces(data);
    }
  }

  // ------------------------------------------------------------------ reading it back

  lemma {:induction false} FirstCrlf(line: Bytes, rest: Bytes)
    requires FindCrlf(line).None?
    ensures FindCrlf(line + CRLF + rest) == Some(|line|)
  {
    var s := line + CRLF + rest;
    if line == [] {
      assert s[0] == CR && s[1] == LF;
    } else {
      assert s[1..] == line[1..] + CRLF + rest;
      if |line| == 1 {
        assert s[1] == CR;
        assert FindCrlf(line[1..]).None?;
      }
      FirstCrlf(line[1..], rest);
    }
  }

  lemma {:induction false} ReadLineBack(line: Bytes, rest: Bytes)
    requires FindCrlf(line).None? && |line| <= LIMIT
    ensures ReadLine(line + CRLF + rest) == Success((line + CRLF, rest))
  {
    FirstCrlf(line, rest);
    var s := line + CRLF + rest;
    assert s[..|line| + 2] == line + CRLF && s[|line| + 2..] == rest;
  }

  lemma {:induction false} NoCrlfPrefixed(a: Bytes, b: Bytes)
    requires FindCrlf(b).None? && forall i :: 0 <= i < |a| ==> a[i] != CR
    ensures FindCrlf(a + b).None?
  {
    if a == [] {
      assert a + b == b;
    } else {
      assert (a + b)[1..] == a[1..] + b;
      NoCrlfPrefixed(a[1..], b);
    }
  }

  lemma {:induction false} BeforeExtension(a: Bytes, b: Bytes)
    requires b == [] || b[0] == SEMICOLON
    requires forall i :: 0 <= i < |a| ==> a[i] != SEMICOLON
    ensures BeforeSemicolon(a + b) == a
  {
    if a == [] {
      assert a + b == b;
    } else {
      assert (a + b)[1..] == a[1..] + b;
      BeforeExtension(a[1..], b);
    }
  }

  lemma {:induction false} StripPadding(a: Bytes, padding: Bytes)
    requires a != [] && AllHex(a) && AllBlank(padding)
    ensures StripRight(a + padding) == a
    decreases |padding|
  {
    if padding == [] {
      assert a + padding == a;
    } else {
      var n := |padding| - 1;
      assert (a + padding)[..|a| + n] == a + padding[..n];
      StripPadding(a, padding[..n]);
    }
  }

  lemma {:induction false} DigitsRead(digits: Bytes, value: nat, after: bool)
    requires AllHex(digits) && (digits != [] || after)
    ensures Digits(digits, value, after) == Some(HexValue(digits, value))
  {
    if digits != [] { DigitsRead(digits[1..], value * 16 + HexOf(digits[0]), true); }
  }

  /** A valid header declares the length of its chunk's data. */
  lemma HeaderDeclaresLength(c: Chunk)
    requires ValidHeader(c)
    ensures ParseSize(Header(c) + CRLF) == Success(|c.data|)
  {
    var line := Header(c) + CRLF;
    assert line[..|line| - 2] == Header(c);
    var shown := c.size + c.padding;
    assert forall i :: 0 <= i < |c.size| ==> IsHex(c.size[i]);
    assert Header(c) == shown + c.extension;
    BeforeExtension(shown, c.extension);
    assert !IsSpace(shown[0]);
    assert StripLeft(shown) == shown;
    StripPadding(c.size, c.padding);
    assert IsHex(c.size[0]);
    if |c.size| >= 2 { assert IsHex(c.size[1]); }
    DigitsRead(c.size, 0, false);
  }

  lemma HeaderIsOneLine(c: Chunk)
    requires ValidHeader(c)
    ensures FindCrlf(Header(c)).None?
  {
    var shown := c.size + c.padding;
    forall i | 0 <= i < |shown| ensures shown[i] != CR {
      if i < |c.size| { assert IsHex(c.size[i]); }
    }
    NoCrlfPrefixed(shown, c.extension);
  }

  lemma {:induction false} TrailersSkipped(trailers: seq<Bytes>, rest: Bytes)
    requires forall t :: t in trailers ==> ValidTrailer(t)
    ensures SkipTrailers(EncodeTrailers(trailers) + rest) == Success(rest)
  {
    if trailers == [] {
      ReadLineBack([], rest);
      assert [] + CRLF + rest == CRLF + rest;
      assert [] + CRLF == CRLF;
    } else {
      var t := trailers[0];
      assert t in trailers;
      var more := EncodeTrailers(trailers[1..]) + rest;
      assert EncodeTrailers(trailers) + rest == t + CRLF + more;
      ReadLineBack(t, more);
      assert |t + CRLF| > 2;
      TrailersSkipped(trailers[1..], rest);
    }
  }

  lemma {:induction false} OneChunk(c: Chunk, more: Bytes, sent: seq<Bytes>)
    requires ValidHeader(c) && c.data != []
    ensures CopyChunked(Header(c) + CRLF + (c.data + CRLF + more), sent) == CopyChunked(more, sent + Pieces(c.data))
  {
    var body := c.data + CRLF + more;
    HeaderIsOneLine(c);
    ReadLineBack(Header(c), body);
    HeaderDeclaresLength(c);
    assert body == c.data + (CRLF + more);
    FixedCopiesExactly(c.data, CRLF + more, sent);
    assert (CRLF + more)[..2] == CRLF && (CRLF + more)[2..] == more;
  }

  lemma {:induction false} ChunksCopied(chunks: seq<Chunk>, tail: Bytes, sent: seq<Bytes>)
    requires forall c :: c in chunks ==> ValidHeader(c) && c.data != []
    ensures CopyChunked(EncodeChunks(chunks) + tail, sent) == CopyChunked(tail, sent + AllPieces(chunks))
  {
    if chunks == [] {
      assert EncodeChunks(chunks) + tail == tail;
      assert sent + [] == sent;
    } else {
      var c := chunks[0];
      assert c in chunks;
      var more := EncodeChunks(chunks[1..]) + tail;
      assert EncodeChunks(chunks) + tail == Header(c) + CRLF + (c.data + CRLF + more);
      OneChunk(c, more, sent);
      ChunksCopied(chunks[1..], tail, sent + Pieces(c.data));
      assert sent + Pieces(c.data) + AllPieces(chunks[1..]) == sent + AllPieces(chunks);
    }
  }

  lemma {:induction false} AllPiecesSpec(chunks: seq<Chunk>)
    ensures Concat(AllPieces(chunks)) == BodyOf(chunks) && Sized(AllPieces(chunks))
  {
    if chunks != [] {
      PiecesSpec(chunks[0].data);
      AllPiecesSpec(chunks[1..]);
      ConcatAdd(Pieces(chunks[0].data), AllPieces(chunks[1..]));
    }
  }

  /**
    Whatever the body, its split into chunks, their extensions and the trailers: the payloads sent make up
    the body, each has 1 to 32768 bytes, and the reader stops right after the final CRLF.
   */
  lemma {:induction false} ChunkedBodyArrives(chunks: seq<Chunk>, last: Chunk, trailers: seq<Bytes>, rest: Bytes)
    requires ValidBody(chunks, last, trailers)
    ensures var r := CopyChunked(Encode(chunks, last, trailers) + rest, []);
      && r.Done? && r.rest == rest
      && Concat(r.payloads) == BodyOf(chunks) && Sized(r.payloads)
  {
    var ending := EncodeTrailers(trailers) + rest;
    var tail := Header(last) + CRLF + ending;
    assert Encode(chunks, last, trailers) + rest == EncodeChunks(chunks) + tail;
    ChunksCopied(chunks, tail, []);
    assert [] + AllPieces(chunks) == AllPieces(chunks);
    HeaderIsOneLine(last);
    ReadLineBack(Header(last), ending);
    HeaderDeclaresLength(last);
    TrailersSkipped(trailers, rest);
    AllPiecesSpec(chunks);
  }

  lemma {:induction false} FixedSized(length: nat, s: Bytes, sent: seq<Bytes>)
    requires Sized(sent)
    ensures Sized(CopyFixed(length, s, sent).payloads)
    decreases length
  {
    if length > 0 {
      var k := Least(PIECE, length);
      if |s| >= k { FixedSized(length - k, s[k..], sent + [s[..k]]); }
    }
  }

  /** On any input, well-formed or not, every payload sent has 1 to 32768 bytes. */
  lemma {:induction false} PayloadsAlwaysSized(s: Bytes, sent: seq<Bytes>)
    requires Sized(sent)
    ensures Sized(CopyChunked(s, sent).payloads)
    decreases |s|
  {
    var read := ReadLine(s);
    if read.Success? && |read.value.0| <= LIMIT {
      var size := ParseSize(read.value.0);
      if size.Success? && size.value > 0 {
        FixedSized(size.value, read.value.1, sent);
        CopyFixedRest(size.value, read.value.1, sent);
        var copied := CopyFixed(size.value, read.value.1, sent);
        if copied.Done? && Terminated(copied.rest).Success? {
          PayloadsAlwaysSized(copied.rest[2..], copied.payloads);
        }
      }
    }
  }
}
