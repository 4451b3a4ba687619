/** Lower-case hexadecimal, as `%0wx` prints it, and the reading back. */
module Hex {
  import opened Bytes

  function Digit(d: nat): char
    requires d < 16
  {
    if d < 10 then '0' + d as char else 'a' + (d - 10) as char
  }

  predicate IsHex(c: char) { '0' <= c <= '9' || 'a' <= c <= 'f' }

  function Value(c: char): nat {
    if '0' <= c <= '9' then (c - '0') as nat else if 'a' <= c <= 'f' then 10 + (c - 'a') as nat else 0
  }

  /** At least w digits, and more when the number needs them. */
  function Print(n: nat, w: nat): (s: string)
    ensures |s| >= w
    decreases n, w
  {
    if n == 0 && w == 0 then "" else Print(n / 16, if w > 0 then w - 1 else 0) + [Digit(n % 16)]
  }

  function Parse(s: string): nat {
    if s == "" then 0 else 16 * Parse(s[..|s| - 1]) + Value(s[|s| - 1])
  }

  lemma {:induction false} ParsePrint(n: nat, w: nat)
    ensures Parse(Print(n, w)) == n && forall c <- Print(n, w) :: IsHex(c)
    decreases n, w
  {
    if n > 0 || w > 0 {
      var w' := if w > 0 then w - 1 else 0;
      ParsePrint(n / 16, w');
      assert Print(n, w)[..|Print(n, w)| - 1] == Print(n / 16, w');
    }
  }

  function Pow16(k: nat): nat { if k == 0 then 1 else 16 * Pow16(k - 1) }

  /** A number below 16^k has no more than k digits. */
  lemma {:induction false} PrintLength(n: nat, w: nat, k: nat)
    requires n < Pow16(k) && w <= k
    ensures |Print(n, w)| <= k
    decreases k
  {
    if n > 0 || w > 0 {
      PrintLength(n / 16, if w > 0 then w - 1 else 0, k - 1);
    }
  }

  lemma PrintNothing()
    ensures Print(0, 0) == ""
  {
  }

  lemma PrintByte(b: byte)
    ensures |Print(b, 2)| == 2
  {
    assert Pow16(2) == 256 by { assert Pow16(1) == 16; }
    PrintLength(b, 2, 2);
  }

  lemma PrintJoin(hi: nat, lo: byte, w: nat)
    ensures Print(256 * hi + lo, w + 2) == Print(hi, w) + Print(lo, 2)
  {
    var n := 256 * hi + lo;
    assert n / 16 == 16 * hi + lo / 16 && n / 16 / 16 == hi && n % 16 == lo % 16 && n / 16 % 16 == lo / 16;
    assert Print(n, w + 2) == Print(n / 16, w + 1) + [Digit(lo % 16)];
    assert Print(n / 16, w + 1) == Print(hi, w) + [Digit(lo / 16)];
    assert Print(lo, 2) == Print(lo / 16, 1) + [Digit(lo % 16)];
    assert Print(lo / 16, 1) == Print(0, 0) + [Digit(lo / 16)];
  }

  const DIGITS := "0123456789abcdef"

  lemma DigitIs(d: nat)
    requires d < 16
    ensures Digit(d) == DIGITS[d]
  {
  }

  /** A byte prints as its high and its low digit. */
  lemma ByteText(b: byte)
    ensures Print(b, 2) == [DIGITS[b / 16], DIGITS[b % 16]]
  {
    DigitIs(b / 16);
    DigitIs(b % 16);
    assert b / 16 / 16 == 0 && b / 16 % 16 == b / 16;
    assert Print(b / 16, 1) == Print(0, 0) + [Digit(b / 16)];
    assert Print(b, 2) == Print(b / 16, 1) + [Digit(b % 16)];
  }

  /** The number without its last j digits. */
  function Shifted(n: nat, j: nat): nat { if j == 0 then n else Shifted(n / 16, j - 1) }

  /** Place value: the j-th digit from the right. */
  lemma {:induction false} PrintDigit(n: nat, w: nat, j: nat)
    requires j < |Print(n, w)|
    ensures Print(n, w)[|Print(n, w)| - 1 - j] == DIGITS[Shifted(n, j) % 16]
    decreases j
  {
    var before := Print(n / 16, if w > 0 then w - 1 else 0);
    DigitIs(n % 16);
    assert Print(n, w) == before + [Digit(n % 16)];
    if j > 0 { PrintDigit(n / 16, if w > 0 then w - 1 else 0, j - 1); }
  }
}
