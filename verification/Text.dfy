/** Byte strings, decimal numbers and the few Go library routines the parsers lean on.
    Text is a `string`; a `byte` is a character below 256, so a Go string of arbitrary bytes is a `seq<byte>`. */
module Text {

  type byte = c: char | c as int < 256 witness '\0'

  datatype Option<+T> = None | Some(value: T)

  datatype Result<+T, +E> = Ok(value: T) | Err(error: E)

  // ---- strings.IndexByte, LastIndexByte, TrimRight, TrimLeft ----

  function IndexByte(s: string, c: char): (i: int)
    ensures -1 <= i < |s|
    ensures i == -1 ==> c !in s
    ensures i >= 0 ==> s[i] == c && c !in s[..i]
  {
    if s == "" then -1
    else if s[0] == c then 0
    else
      var j := IndexByte(s[1..], c);
      assert j >= 0 ==> s[..j + 1] == [s[0]] + s[1..][..j];
      if j == -1 then -1 else j + 1
  }

  function LastIndexByte(s: string, c: char): (i: int)
    ensures -1 <= i < |s|
    ensures i >= 0 ==> s[i] == c
    ensures forall k | i < k < |s| :: s[k] != c
  {
    if s == "" then -1
    else if s[|s| - 1] == c then |s| - 1
    else LastIndexByte(s[..|s| - 1], c)
  }

  /** TrimRight(s, "\r\n") */
  function TrimEol(s: string): (r: string)
    ensures r <= s
    ensures r == "" || r[|r| - 1] !in "\r\n"
    ensures forall i | |r| <= i < |s| :: s[i] in "\r\n"
  {
    if s != "" && s[|s| - 1] in "\r\n" then TrimEol(s[..|s| - 1]) else s
  }

  predicate Blank(c: char) {
    c == ' ' || c == '\t'
  }

  /** TrimLeft(s, " \t") */
  function TrimBlanks(s: string): (r: string)
    ensures r == "" || !Blank(r[0])
  {
    if s != "" && Blank(s[0]) then TrimBlanks(s[1..]) else s
  }

  // The first occurrence is the only index with these two properties.
  lemma IndexByteIs(s: string, c: char, i: nat)
    requires i < |s| && s[i] == c && c !in s[..i]
    ensures IndexByte(s, c) == i
  {
    var j := IndexByte(s, c);
    assert s[i] in s;
    assert forall k | 0 <= k < i :: s[..i][k] == s[k];
    assert j >= 0 ==> forall k | 0 <= k < j :: s[..j][k] == s[k];
  }

  lemma LastIndexByteIs(s: string, c: char, i: nat)
    requires i < |s| && s[i] == c && c !in s[i + 1..]
    ensures LastIndexByte(s, c) == i
  {
    assert forall k | i < k < |s| :: s[i + 1..][k - i - 1] == s[k];
  }

  // Stripping the line terminator removes it and nothing of the text before it.
  lemma TrimEolOf(body: string, eol: string)
    requires body == "" || body[|body| - 1] !in "\r\n"
    requires forall c | c in eol :: c in "\r\n"
    ensures TrimEol(body + eol) == body
  {
    var s := body + eol;
    var r := TrimEol(s);
    assert body != "" ==> s[|body| - 1] == body[|body| - 1];
    assert forall k | |body| <= k < |s| :: s[k] == eol[k - |body|];
  }

  lemma TakeDrop(a: string, b: string)
    ensures (a + b)[..|a|] == a && (a + b)[|a|..] == b
  {
  }

  lemma DropDrop(s: string, a: nat, b: nat)
    requires a + b <= |s|
    ensures s[a..][b..] == s[a + b..]
  {
  }

  lemma Assoc(a: string, b: string, c: string)
    ensures a + b + c == a + (b + c)
  {
  }

  // ---- decimal numbers ----

  function Digit(d: nat): (c: char)
    requires d < 10
    ensures IsDigit(c) && DigitValue(c) == d
  {
    (('0' as int) + d) as char
  }

  predicate IsDigit(c: char) {
    '0' <= c <= '9'
  }

  function DigitValue(c: char): (d: nat)
    requires IsDigit(c)
    ensures d < 10
  {
    (c as int) - ('0' as int)
  }

  predicate AllDigits(s: string) {
    forall i | 0 <= i < |s| :: IsDigit(s[i])
  }

  function Number(s: string): nat
    requires AllDigits(s)
  {
    if s == "" then 0 else 10 * Number(s[..|s| - 1]) + DigitValue(s[|s| - 1])
  }

  function Decimal(n: nat): (s: string)
    ensures s != "" && AllDigits(s) && Number(s) == n
  {
    if n < 10 then [Digit(n)] else Decimal(n / 10) + [Digit(n % 10)]
  }

  function Pow10(k: nat): (p: nat)
    ensures p >= 1
  {
    if k == 0 then 1 else 10 * Pow10(k - 1)
  }

  /** The C format "%0<w>d" for a value that fits. */
  function Padded(n: nat, w: nat): (s: string)
    requires n < Pow10(w)
    ensures |s| == w && AllDigits(s) && Number(s) == n
  {
    if w == 0 then "" else Padded(n / 10, w - 1) + [Digit(n % 10)]
  }

  const MAX_INT64: int := 0x7fff_ffff_ffff_ffff
  const MIN_INT64: int := -0x8000_0000_0000_0000

  /** strconv.ParseInt(s, 10, 64) and strconv.Atoi: optional sign, at least one digit, 64-bit range. */
  function ParseInt(s: string): (r: Option<int>)
    ensures r.Some? ==> MIN_INT64 <= r.value <= MAX_INT64
  {
    var signed := s != "" && s[0] in "+-";
    var digits := if signed then s[1..] else s;
    if digits == "" || !AllDigits(digits) then None
    else
      var n: int := Number(digits);
      var v: int := if signed && s[0] == '-' then -n else n;
      if MIN_INT64 <= v <= MAX_INT64 then Some(v) else None
  }

  predicate IsNumeral(s: string) {
    s != "" && AllDigits(s)
  }

  /** Exactly the plain, '+' and '-' numerals of the 64-bit range are numbers, with the values one expects. */
  lemma ParseIntExactly(s: string, v: int)
    ensures ParseInt(s) == Some(v) <==>
            && -0x8000_0000_0000_0000 <= v < 0x8000_0000_0000_0000
            && (|| (IsNumeral(s) && v == Number(s))
                || (s != "" && s[0] == '+' && IsNumeral(s[1..]) && v == Number(s[1..]))
                || (s != "" && s[0] == '-' && IsNumeral(s[1..]) && -v == Number(s[1..])))
  {
    assert IsNumeral(s) ==> IsDigit(s[0]);
  }

  // A number in plain digits is read back exactly when it fits in 64 bits.
  lemma ParseIntOfDigits(s: string)
    requires IsNumeral(s)
    ensures ParseInt(s) == if Number(s) <= MAX_INT64 then Some(Number(s)) else None
  {
    assert IsDigit(s[0]);
  }

  lemma TenTimes(a: nat, b: nat)
    ensures (10 * a) * b == 10 * (a * b)
  {
  }

  lemma {:induction false} PowersAdd(m: nat, n: nat)
    ensures Pow10(m) * Pow10(n) == Pow10(m + n)
    decreases m
  {
    if m > 0 {
      PowersAdd(m - 1, n);
      TenTimes(Pow10(m - 1), Pow10(n));
    }
  }

  lemma NumberSnoc(s: string, c: char)
    requires AllDigits(s) && IsDigit(c)
    ensures AllDigits(s + [c]) && Number(s + [c]) == 10 * Number(s) + DigitValue(c)
  {
    assert (s + [c])[..|s|] == s;
  }

  lemma NoDigits()
    ensures Number("") == 0 && Pow10(0) == 1
  {
  }

  lemma TimesTen(n: nat, k: nat)
    ensures n * Pow10(k + 1) == 10 * (n * Pow10(k))
  {
  }

  // The value of a numeral by the values of its two parts.
  lemma {:induction false} NumberAppend(a: string, b: string)
    requires AllDigits(a) && AllDigits(b)
    ensures AllDigits(a + b) && Number(a + b) == Number(a) * Pow10(|b|) + Number(b)
    decreases |b|
  {
    hide Number, Pow10, IsDigit;
    NoDigits();
    if b == "" {
      assert a + b == a;
    } else {
      var front, last := b[..|b| - 1], b[|b| - 1];
      NumberAppend(a, front);
      assert b == front + [last] && a + b == a + front + [last];
      NumberSnoc(a + front, last);
      NumberSnoc(front, last);
      TimesTen(Number(a), |front|);
    }
  }

  lemma {:induction false} NumberBound(s: string)
    requires AllDigits(s)
    ensures Number(s) < Pow10(|s|)
    decreases |s|
  {
    if s != "" {
      NumberBound(s[..|s| - 1]);
    }
  }
}
