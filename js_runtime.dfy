/** The fragments of the JavaScript runtime the application relies on:
    optional values, thrown values, settled promises, and the string
    built-ins `startsWith`, `includes`, `split`, `join` and the decimal
    rendering of an integer inside a template literal. */
module JsRuntime {

  /** `undefined`/`null` versus a present value. */
  datatype Option<+T> = None | Some(value: T)

  /** A value raised by `throw`: an `Error` object with its message, or any other value. */
  datatype Thrown = ErrorObject(message: string) | OtherValue

  /** How an awaited promise settles. */
  datatype Settled<+T> = Resolved(value: T) | Rejected(reason: Thrown)

  /** `s.startsWith(prefix)` */
  predicate StartsWith(s: string, prefix: string) {
    |prefix| <= |s| && s[..|prefix|] == prefix
  }

  /** `s.includes(part)`: `part` occurs somewhere in `s`. */
  predicate Includes(s: string, part: string) {
    exists i :: 0 <= i <= |s| - |part| && StartsWith(s[i..], part)
  }

  /** `s.split(sep)` for a one-character separator: the maximal
      separator-free pieces, always at least one (`"".split(",")` is `[""]`). */
  function Split(s: string, sep: char): (parts: seq<string>)
    ensures |parts| >= 1
    ensures forall i :: 0 <= i < |parts| ==> sep !in parts[i]
    ensures |parts| == 1 <==> sep !in s
  {
    if |s| == 0 then [""]
    else if s[0] == sep then [""] + Split(s[1..], sep)
    else
      var rest := Split(s[1..], sep);
      [[s[0]] + rest[0]] + rest[1..]
  }

  /** `parts.join(sep)` for a one-character separator (`[].join(sep)` is `""`). */
  function Join(parts: seq<string>, sep: char): string {
    if |parts| == 0 then ""
    else if |parts| == 1 then parts[0]
    else parts[0] + [sep] + Join(parts[1..], sep)
  }

  /** A string without the separator splits into itself alone. */
  lemma {:induction false} SplitWithoutSeparator(s: string, sep: char)
    requires sep !in s
    ensures Split(s, sep) == [s]
  {
    if |s| > 0 {
      SplitWithoutSeparator(s[1..], sep);
      assert [s[0]] + s[1..] == s;
    }
  }

  /** Splitting at the first separator: a separator-free head is the first piece. */
  lemma {:induction false} SplitAtFirstSeparator(head: string, sep: char, tail: string)
    requires sep !in head
    ensures Split(head + [sep] + tail, sep) == [head] + Split(tail, sep)
  {
    var s := head + [sep] + tail;
    if |head| == 0 {
      assert s[0] == sep && s[1..] == tail;
    } else {
      assert s[0] == head[0] && s[1..] == head[1..] + [sep] + tail;
      SplitAtFirstSeparator(head[1..], sep, tail);
      assert [head[0]] + head[1..] == head;
    }
  }

  /** Joining separator-free pieces and splitting again gives the pieces back. */
  lemma {:induction false} SplitJoin(parts: seq<string>, sep: char)
    requires |parts| >= 1
    requires forall i :: 0 <= i < |parts| ==> sep !in parts[i]
    ensures Split(Join(parts, sep), sep) == parts
  {
    if |parts| == 1 {
      SplitWithoutSeparator(parts[0], sep);
    } else {
      SplitJoin(parts[1..], sep);
      SplitAtFirstSeparator(parts[0], sep, Join(parts[1..], sep));
      assert [parts[0]] + parts[1..] == parts;
    }
  }

  /** Splitting and joining again gives the string back, whatever it holds. */
  lemma {:induction false} JoinSplit(s: string, sep: char)
    ensures Join(Split(s, sep), sep) == s
  {
    if |s| > 0 {
      JoinSplit(s[1..], sep);
      var rest := Split(s[1..], sep);
      if s[0] == sep {
        assert Split(s, sep) == [""] + rest;
        assert ([""] + rest)[1..] == rest;
        assert [s[0]] + s[1..] == s;
      } else {
        var parts := [[s[0]] + rest[0]] + rest[1..];
        assert parts[1..] == rest[1..];
        if |rest| > 1 {
          assert [rest[0]] + rest[1..] == rest;
          assert Join(rest, sep) == rest[0] + [sep] + Join(rest[1..], sep);
        }
        assert [s[0]] + s[1..] == s;
      }
    }
  }

  function DigitChar(d: nat): (c: char)
    requires d < 10
    ensures '0' <= c <= '9'
  {
    "0123456789"[d]
  }

  function DigitValue(c: char): int {
    c as int - '0' as int
  }

  /** Decimal digits of a natural number, most significant first, no leading zeros. */
  function NatToDecimal(n: nat): (s: string)
    ensures |s| >= 1
  {
    if n < 10 then [DigitChar(n)] else NatToDecimal(n / 10) + [DigitChar(n % 10)]
  }

  /** The rendering uses decimal digits only. */
  lemma {:induction false} NatToDecimalDigits(n: nat)
    ensures forall i :: 0 <= i < |NatToDecimal(n)| ==> '0' <= NatToDecimal(n)[i] <= '9'
  {
    if n >= 10 {
      NatToDecimalDigits(n / 10);
    }
  }

  /** `${i}` for an integral number: an optional minus sign, then the digits. */
  function IntToDecimal(i: int): string {
    if i < 0 then "-" + NatToDecimal(-i) else NatToDecimal(i)
  }

  /** The value a string of decimal digits denotes. */
  function DecimalValue(s: string): int {
    if |s| == 0 then 0 else DecimalValue(s[..|s| - 1]) * 10 + DigitValue(s[|s| - 1])
  }

  /** The digits of `n` denote `n`. */
  lemma {:induction false} DecimalRoundTrip(n: nat)
    ensures DecimalValue(NatToDecimal(n)) == n
  {
    var s := NatToDecimal(n);
    if n < 10 {
      assert DigitValue(DigitChar(n)) == n;
    } else {
      DecimalRoundTrip(n / 10);
      assert s[..|s| - 1] == NatToDecimal(n / 10);
      assert DigitValue(DigitChar(n % 10)) == n % 10;
    }
  }

  /** Distinct natural numbers have distinct digit strings. */
  lemma NatToDecimalInjective(m: nat, n: nat)
    requires NatToDecimal(m) == NatToDecimal(n)
    ensures m == n
  {
    DecimalRoundTrip(m);
    DecimalRoundTrip(n);
  }
}
