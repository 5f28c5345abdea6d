// Text as it travels over the wire. A `char` below 256 stands for one byte of the UTF-8 encoded
// string, so ordinary strings and raw bytes share one type.
module Text {

  datatype Option<+T> = None | Some(value: T)

  type Text = string

  type Byte = c: char | c as int < 0x100 witness 'a'

  lemma Assoc<T>(a: seq<T>, b: seq<T>, c: seq<T>)
    ensures a + b + c == a + (b + c)
  {
  }

  predicate IsDigit(c: char) {
    '0' <= c <= '9'
  }

  /** No process can be given a NUL byte in an argument. */
  predicate NoNul(s: Text) {
    forall i :: 0 <= i < |s| ==> s[i] != '\0'
  }

  predicate NameStart(c: char) {
    c == '_' || 'a' <= c <= 'z' || 'A' <= c <= 'Z'
  }

  predicate NameChar(c: char) {
    NameStart(c) || IsDigit(c)
  }

  /** The number of leading characters of `s` that are decimal digits. */
  function DigitRun(s: Text): (n: nat)
    ensures n <= |s|
  {
    if s == "" || !IsDigit(s[0]) then 0 else 1 + DigitRun(s[1..])
  }

  function DigitValue(c: char): nat
    requires IsDigit(c)
  {
    c as int - '0' as int
  }

  function DecimalValue(s: Text): nat
    requires forall i :: 0 <= i < |s| ==> IsDigit(s[i])
  {
    if s == "" then 0 else DecimalValue(s[..|s| - 1]) * 10 + DigitValue(s[|s| - 1])
  }

  /** The decimal digits `format_into` writes for an unsigned integer. */
  function Decimal(n: nat): (s: Text)
    ensures s != ""
    ensures forall i :: 0 <= i < |s| ==> IsDigit(s[i])
  {
    var last := [(n % 10 + '0' as int) as char];
    if n < 10 then last else Decimal(n / 10) + last
  }

  lemma {:induction false} DecimalRoundTrip(n: nat)
    ensures DecimalValue(Decimal(n)) == n
  {
    var s := Decimal(n);
    if n < 10 {
      assert s[..|s| - 1] == "";
    } else {
      DecimalRoundTrip(n / 10);
      assert s[..|s| - 1] == Decimal(n / 10);
    }
  }

  /** Leading zeros only make a number longer. */
  lemma {:induction false} DecimalIsShortest(s: Text)
    requires forall i :: 0 <= i < |s| ==> IsDigit(s[i])
    ensures |Decimal(DecimalValue(s))| <= if s == "" then 1 else |s|
  {
    if |s| > 1 {
      DecimalIsShortest(s[..|s| - 1]);
    } else if s != "" {
      assert s[..0] == "";
    }
  }

  lemma {:induction false} DigitRunStops(digits: Text, tail: Text)
    requires forall i :: 0 <= i < |digits| ==> IsDigit(digits[i])
    requires tail == "" || !IsDigit(tail[0])
    ensures DigitRun(digits + tail) == |digits|
  {
    if digits == "" {
      assert digits + tail == tail;
    } else {
      DigitRunStops(digits[1..], tail);
      assert (digits + tail)[1..] == digits[1..] + tail;
    }
  }
}
