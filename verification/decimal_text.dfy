/** Decimal numerals and separator-joined text, as Python's str(), int(), split() and join() treat them. */
module DecimalText {
  function Digit(n: nat): char
    requires n < 10
  {
    "0123456789"[n]
  }

  predicate IsDigit(c: char) { '0' <= c <= '9' }

  function DigitValue(c: char): nat
    requires IsDigit(c)
  {
    c as int - '0' as int
  }

  predicate AllDigits(s: string) {
    |s| > 0 && forall i :: 0 <= i < |s| ==> IsDigit(s[i])
  }

  /** The shortest decimal numeral of a number. */
  function Numeral(n: nat): string {
    if n < 10 then [Digit(n)] else Numeral(n / 10) + [Digit(n % 10)]
  }

  function ValueOf(s: string): nat
    requires AllDigits(s)
  {
    (if |s| == 1 then 0 else 10 * ValueOf(s[..|s| - 1])) + DigitValue(s[|s| - 1])
  }

  lemma {:induction false} NumeralRoundTrip(n: nat)
    ensures AllDigits(Numeral(n)) && ValueOf(Numeral(n)) == n
  {
    if n >= 10 {
      NumeralRoundTrip(n / 10);
      var s := Numeral(n);
      assert s[..|s| - 1] == Numeral(n / 10);
    }
  }

  lemma {:induction false} NumeralInjective(m: nat, n: nat)
    requires Numeral(m) == Numeral(n)
    ensures m == n
  {
    NumeralRoundTrip(m);
    NumeralRoundTrip(n);
  }

  predicate Lacks(s: string, c: char) { c !in s }

  function Split(s: string, sep: char): (parts: seq<string>)
    ensures |parts| > 0
    ensures forall i :: 0 <= i < |parts| ==> Lacks(parts[i], sep)
  {
    if s == [] then [[]]
    else
      var rest := Split(s[1..], sep);
      if s[0] == sep then [[]] + rest else [[s[0]] + rest[0]] + rest[1..]
  }

  function Join(parts: seq<string>, sep: char): string {
    if parts == [] then []
    else if |parts| == 1 then parts[0]
    else parts[0] + [sep] + Join(parts[1..], sep)
  }

  lemma {:induction false} SplitPrefix(head: string, rest: string, sep: char)
    requires Lacks(head, sep)
    ensures Split(head + [sep] + rest, sep) == [head] + Split(rest, sep)
    ensures Split(head, sep) == [head]
  {
    if head == [] {
      assert head + [sep] + rest == [sep] + rest;
      assert ([sep] + rest)[1..] == rest;
    } else {
      var s := head + [sep] + rest;
      assert s[1..] == head[1..] + [sep] + rest;
      assert Lacks(head[1..], sep);
      assert head[0] in head;
      SplitPrefix(head[1..], rest, sep);
      assert [head[0]] + head[1..] == head;
    }
  }

  lemma {:induction false} SplitJoin(parts: seq<string>, sep: char)
    requires |parts| > 0 && forall i :: 0 <= i < |parts| ==> Lacks(parts[i], sep)
    ensures Split(Join(parts, sep), sep) == parts
  {
    if |parts| == 1 {
      SplitPrefix(parts[0], [], sep);
    } else {
      SplitJoin(parts[1..], sep);
      SplitPrefix(parts[0], Join(parts[1..], sep), sep);
      assert [parts[0]] + parts[1..] == parts;
    }
  }

  lemma {:induction false} JoinLacks(parts: seq<string>, sep: char, c: char)
    requires c != sep && forall i :: 0 <= i < |parts| ==> Lacks(parts[i], c)
    ensures Lacks(Join(parts, sep), c)
  {
    if |parts| > 1 { JoinLacks(parts[1..], sep, c); }
  }

  // ---------------------------------------------------------------- strip() and lower()

  predicate IsSpace(c: char) {
    || '\t' <= c <= '\r' || '\U{1C}' <= c <= ' ' || c == '\U{85}' || c == '\U{A0}' || c == '\U{1680}'
    || '\U{2000}' <= c <= '\U{200A}' || c == '\U{2028}' || c == '\U{2029}' || c == '\U{202F}' || c == '\U{205F}'
    || c == '\U{3000}'
  }

  /** White space, by number. */
  lemma SpacesAre(c: char)
    ensures IsSpace(c) <==>
      c as int in {9, 10, 11, 12, 13, 28, 29, 30, 31, 32, 133, 160, 5760, 8192, 8193, 8194, 8195, 8196, 8197, 8198, 8199,
                   8200, 8201, 8202, 8232, 8233, 8239, 8287, 12288}
  {
  }

  function StripRight(s: string): string {
    if s != "" && IsSpace(s[|s| - 1]) then StripRight(s[..|s| - 1]) else s
  }

  function StripLeft(s: string): string { if s != "" && IsSpace(s[0]) then StripLeft(s[1..]) else s }

  function Strip(s: string): string { StripLeft(StripRight(s)) }

  predicate IsTrimmed(s: string) { Strip(s) == s }

  lemma {:induction false} StripLeftTwice(s: string)
    ensures StripLeft(StripLeft(s)) == StripLeft(s)
  {
    if s != "" && IsSpace(s[0]) { StripLeftTwice(s[1..]); }
  }

  lemma {:induction false} StripRightTwice(s: string)
    ensures StripRight(StripRight(s)) == StripRight(s)
    ensures StripRight(s) != "" ==> !IsSpace(StripRight(s)[|StripRight(s)| - 1])
  {
    if s != "" && IsSpace(s[|s| - 1]) { StripRightTwice(s[..|s| - 1]); }
  }

  lemma {:induction false} StripLeftEnds(s: string)
    requires s != "" ==> !IsSpace(s[|s| - 1])
    ensures var t := StripLeft(s); t != "" ==> !IsSpace(t[|t| - 1])
  {
    if s != "" && IsSpace(s[0]) { StripLeftEnds(s[1..]); }
  }

  lemma StripTwice(s: string)
    ensures IsTrimmed(Strip(s))
  {
    StripRightTwice(s);
    StripLeftEnds(StripRight(s));
    StripLeftTwice(StripRight(s));
  }

  lemma {:induction false} LeftIsSpaces(s: string) returns (left: string)
    ensures s == left + StripLeft(s) && forall c :: c in left ==> IsSpace(c)
    ensures StripLeft(s) != "" ==> !IsSpace(StripLeft(s)[0])
  {
    left := "";
    if s != "" && IsSpace(s[0]) {
      var rest := LeftIsSpaces(s[1..]);
      left := [s[0]] + rest;
    }
  }

  lemma {:induction false} RightIsSpaces(s: string) returns (right: string)
    ensures s == StripRight(s) + right && forall c :: c in right ==> IsSpace(c)
  {
    right := "";
    if s != "" && IsSpace(s[|s| - 1]) {
      var rest := RightIsSpaces(s[..|s| - 1]);
      right := rest + [s[|s| - 1]];
    }
  }

  /** Stripping takes white space off both ends, and all of it. */
  lemma StripExactly(s: string)
    ensures exists left: string, right: string ::
      && s == left + Strip(s) + right && (forall c :: c in left || c in right ==> IsSpace(c))
    ensures Strip(s) != "" ==> !IsSpace(Strip(s)[0]) && !IsSpace(Strip(s)[|Strip(s)| - 1])
  {
    var right := RightIsSpaces(s);
    var left := LeftIsSpaces(StripRight(s));
    assert s == left + Strip(s) + right;
    StripRightTwice(s);
    StripLeftEnds(StripRight(s));
  }
}
