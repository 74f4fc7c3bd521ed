/** Small things every part uses. */
module Basics {
  type Byte = b: int | 0 <= b < 256

  /** A number in base ten. */
  function Decimal(n: nat): (s: string)
    ensures s != ""
  {
    if n < 10 then ['0' + n as char] else Decimal(n / 10) + ['0' + (n % 10) as char]
  }

  predicate Digit(c: char) { '0' <= c <= '9' }

  /** The number a string of digits stands for. */
  function Value(s: string): int {
    if s == "" then 0 else Value(s[..|s| - 1]) * 10 + (s[|s| - 1] as int - '0' as int)
  }

  lemma {:induction false} DigitString(n: nat)
    ensures Value(Decimal(n)) == n && forall i :: 0 <= i < |Decimal(n)| ==> Digit(Decimal(n)[i])
  {
    if n < 10 {
      var s := Decimal(n);
      assert s[..0] == "" && Value(s[..0]) == 0;
    } else {
      DigitString(n / 10);
      assert Decimal(n)[..|Decimal(n)| - 1] == Decimal(n / 10);
    }
  }

  function Joined<T>(parts: seq<seq<T>>): seq<T> {
    if parts == [] then [] else Joined(parts[..|parts| - 1]) + parts[|parts| - 1]
  }

  lemma Regroup<T>(a: seq<T>, b: seq<T>, c: seq<T>)
    ensures a + (b + c) == a + b + c
  {
  }
}
