/** The GUID printer: bytes in mixed order into a 37-byte buffer, against the text form of the
    UEFI Specification, Appendix A: a little-endian 32-bit and two 16-bit fields, then bytes in order. */
module Guid {
  import opened Bytes
  import opened Sequences
  import opened Hex

  type guid = v: seq<byte> | |v| == 16 witness seq(16, _ => 0)

  // ---- The specification's form: numbers, zero-padded

  function LittleEndian(v: seq<byte>): nat { if v == [] then 0 else v[0] + 256 * LittleEndian(v[1..]) }

  function BigEndian(v: seq<byte>): nat { if v == [] then 0 else 256 * BigEndian(v[..|v| - 1]) + v[|v| - 1] }

  function Text(v: guid): string {
    Print(LittleEndian(v[..4]), 8) + "-" + Print(LittleEndian(v[4..6]), 4) + "-" + Print(LittleEndian(v[6..8]), 4)
    + "-" + Print(BigEndian(v[8..10]), 4) + "-" + Print(BigEndian(v[10..]), 12)
  }

  // ---- The driver's form: two digits a byte

  function Up(v: seq<byte>): string { if v == [] then "" else Up(v[..|v| - 1]) + Print(v[|v| - 1], 2) }

  function Down(v: seq<byte>): string { if v == [] then "" else Down(v[1..]) + Print(v[0], 2) }

  lemma {:induction false} UpIsBigEndian(v: seq<byte>)
    ensures Up(v) == Print(BigEndian(v), 2 * |v|) && |Up(v)| == 2 * |v|
  {
    hide Print;
    if v == [] {
      PrintNothing();
    } else {
      var hi, lo := v[..|v| - 1], v[|v| - 1];
      UpIsBigEndian(hi);
      PrintJoin(BigEndian(hi), lo, 2 * |hi|);
      PrintByte(lo);
    }
  }

  lemma {:induction false} DownIsLittleEndian(v: seq<byte>)
    ensures Down(v) == Print(LittleEndian(v), 2 * |v|) && |Down(v)| == 2 * |v|
  {
    hide Print;
    if v == [] {
      PrintNothing();
    } else {
      DownIsLittleEndian(v[1..]);
      PrintJoin(LittleEndian(v[1..]), v[0], 2 * |v[1..]|);
      PrintByte(v[0]);
    }
  }

  /** `sprintf(&buffer[at], "%02x", b)`, NUL included. */
  method SprintByte(buffer: array<char>, at: nat, b: byte)
    requires at + 3 <= buffer.Length
    modifies buffer
    ensures buffer[..] == old(buffer[..at]) + Print(b, 2) + [NUL] + old(buffer[at + 3..])
  {
    PrintByte(b);
    var digits := Print(b, 2);
    buffer[at], buffer[at + 1], buffer[at + 2] := digits[0], digits[1], NUL;
    assert digits == [digits[0], digits[1]];
  }

  /** The buffer starts with the text and a NUL; the rest is as it was. Before the first byte all is as it was. */
  predicate Holds(buffer: seq<char>, text: string, was: seq<char>, begun: bool) {
    && |text| < |was|
    && buffer == text + if begun then [NUL] + was[|text| + 1..] else was[|text|..]
  }

  lemma HoldsNone(was: seq<char>, start: nat)
    requires start < |was|
    ensures Holds(was, was[..start], was, false)
  {
  }

  lemma HoldsNext(buffer: seq<char>, text: string, was: seq<char>, begun: bool, digits: string)
    requires Holds(buffer, text, was, begun) && |digits| == 2 && |text| + 3 <= |was|
    ensures |buffer| == |was|
    ensures Holds(buffer[..|text|] + digits + [NUL] + buffer[|text| + 3..], text + digits, was, true)
  {
    assert buffer[..|text|] == text;
    assert buffer[|text| + 3..] == was[|text| + 3..];
  }

  lemma HoldsParts(buffer: seq<char>, text: string, was: seq<char>)
    requires Holds(buffer, text, was, true)
    ensures |text| < |buffer| && buffer[..|text|] == text && buffer[|text|] == NUL
    ensures buffer[|text| + 1..] == was[|text| + 1..]
  {
  }

  lemma DownNext(head: string, v: seq<byte>, i: nat, end: nat)
    requires i < end <= |v|
    ensures head + Down(v[i + 1..end]) + Print(v[i], 2) == head + Down(v[i..end])
  {
    assert v[i..end][1..] == v[i + 1..end];
    Assoc(head, Down(v[i + 1..end]), Print(v[i], 2));
  }

  lemma UpNext(head: string, v: seq<byte>, low: nat, i: nat)
    requires low <= i < |v|
    ensures head + Up(v[low..i]) + Print(v[i], 2) == head + Up(v[low..i + 1])
  {
    assert v[low..i + 1][..i - low] == v[low..i];
    Assoc(head, Up(v[low..i]), Print(v[i], 2));
  }

  /** One `sprintf` after the text. */
  method AppendByte(buffer: array<char>, b: byte, ghost text: string, ghost was: seq<char>, ghost begun: bool, cnt: nat)
    requires Holds(buffer[..], text, was, begun) && cnt == |text| && cnt + 3 <= buffer.Length == |was|
    modifies buffer
    ensures Holds(buffer[..], text + Print(b, 2), was, true) && |Print(b, 2)| == 2
  {
    PrintByte(b);
    HoldsNext(buffer[..], text, was, begun, Print(b, 2));
    SprintByte(buffer, cnt, b);
  }

  method CountDown(buffer: array<char>, vendor: guid, high: nat, low: nat, start: nat) returns (cnt: nat)
    requires low <= high < 16 && start + 2 * (high - low + 1) < buffer.Length
    modifies buffer
    ensures cnt == start + 2 * (high - low + 1)
    ensures buffer[..cnt] == old(buffer[..start]) + Down(vendor[low..high + 1])
    ensures buffer[cnt] == NUL && buffer[cnt + 1..] == old(buffer[cnt + 1..])
  {
    hide Holds, Print;
    ghost var head, text, was := buffer[..start], buffer[..start], buffer[..];
    HoldsNone(was, start);
    cnt := start;
    var i := high as int;
    assert vendor[high + 1..high + 1] == [];
    while i >= low
      invariant low - 1 <= i <= high && cnt == |text| == start + 2 * (high - i)
      invariant Holds(buffer[..], text, was, i < high)
      invariant text == head + Down(vendor[i + 1..high + 1])
    {
      AppendByte(buffer, vendor[i], text, was, i < high, cnt);
      DownNext(head, vendor, i, high + 1);
      text := text + Print(vendor[i], 2);
      cnt := cnt + 2;
      i := i - 1;
    }
    HoldsParts(buffer[..], text, was);
  }

  method CountUp(buffer: array<char>, vendor: guid, low: nat, end: nat, start: nat) returns (cnt: nat)
    requires low < end <= 16 && start + 2 * (end - low) < buffer.Length
    modifies buffer
    ensures cnt == start + 2 * (end - low)
    ensures buffer[..cnt] == old(buffer[..start]) + Up(vendor[low..end])
    ensures buffer[cnt] == NUL && buffer[cnt + 1..] == old(buffer[cnt + 1..])
  {
    hide Holds, Print;
    ghost var head, text, was := buffer[..start], buffer[..start], buffer[..];
    HoldsNone(was, start);
    cnt := start;
    var i := low;
    assert vendor[low..low] == [];
    while i < end
      invariant low <= i <= end && cnt == |text| == start + 2 * (i - low)
      invariant Holds(buffer[..], text, was, i > low)
      invariant text == head + Up(vendor[low..i])
    {
      AppendByte(buffer, vendor[i], text, was, i > low, cnt);
      UpNext(head, vendor, low, i);
      text := text + Print(vendor[i], 2);
      cnt := cnt + 2;
      i := i + 1;
    }
    HoldsParts(buffer[..], text, was);
  }

  method PutDash(buffer: array<char>, at: nat) returns (cnt: nat)
    requires at < buffer.Length
    modifies buffer
    ensures cnt == at + 1 && buffer[..cnt] == old(buffer[..at]) + "-"
    ensures buffer[cnt..] == old(buffer[cnt..])
  {
    buffer[at] := '-';
    cnt := at + 1;
  }

  /** Fills the whole buffer: 36 characters in the specification's form and a NUL. */
  method SetGuid(buffer: array<char>, vendor: guid)
    requires buffer.Length == 37
    modifies buffer
    ensures buffer[..] == Text(vendor) + [NUL] && |Text(vendor)| == 36
  {
    hide Down, Up, Text;
    forall k | 0 <= k < 37 { buffer[k] := NUL; }
    var cnt := CountDown(buffer, vendor, 3, 0, 0);
    ghost var text := Down(vendor[0..4]);
    assert buffer[..cnt] == text;
    cnt := PutDash(buffer, cnt);
    cnt := CountDown(buffer, vendor, 5, 4, cnt);
    text := text + "-" + Down(vendor[4..6]);
    assert buffer[..cnt] == text;
    cnt := PutDash(buffer, cnt);
    cnt := CountDown(buffer, vendor, 7, 6, cnt);
    text := text + "-" + Down(vendor[6..8]);
    assert buffer[..cnt] == text;
    cnt := PutDash(buffer, cnt);
    cnt := CountUp(buffer, vendor, 8, 10, cnt);
    text := text + "-" + Up(vendor[8..10]);
    assert buffer[..cnt] == text;
    cnt := PutDash(buffer, cnt);
    cnt := CountUp(buffer, vendor, 10, 16, cnt);
    text := text + "-" + Up(vendor[10..16]);
    assert buffer[..cnt] == text && cnt == 36;
    ghost var all := buffer[..];
    assert all == all[..36] + [all[36]] && all[..36] == text;
    assert text == Text(vendor) by { TextIsBytewise(vendor); }
  }

  lemma TextIsBytewise(v: guid)
    ensures Text(v)
            == Down(v[0..4]) + "-" + Down(v[4..6]) + "-" + Down(v[6..8]) + "-" + Up(v[8..10]) + "-" + Up(v[10..16])
    ensures |Text(v)| == 36
  {
    assert v[..4] == v[0..4] && v[10..] == v[10..16];
    DownIsLittleEndian(v[0..4]);
    DownIsLittleEndian(v[4..6]);
    DownIsLittleEndian(v[6..8]);
    UpIsBigEndian(v[8..10]);
    UpIsBigEndian(v[10..16]);
  }

  /** The text character by character: which byte stands where, and the dashes. */
  lemma TextSpelled(v: guid)
    ensures Text(v) == Pair(v[3]) + Pair(v[2]) + Pair(v[1]) + Pair(v[0]) + "-" + (Pair(v[5]) + Pair(v[4])) + "-"
                       + (Pair(v[7]) + Pair(v[6])) + "-" + (Pair(v[8]) + Pair(v[9])) + "-"
                       + (Pair(v[10]) + Pair(v[11]) + Pair(v[12]) + Pair(v[13]) + Pair(v[14]) + Pair(v[15]))
  {
    hide Print, Text;
    TextIsBytewise(v);
    DownFour(v);
    DownTwo(v, 4);
    DownTwo(v, 6);
    UpTwo(v, 8);
    UpSix(v);
  }

  function Pair(b: byte): string { [DIGITS[b / 16], DIGITS[b % 16]] }

  lemma DownStep(v: seq<byte>, i: nat, end: nat)
    requires i < end <= |v|
    ensures Down(v[i..end]) == Down(v[i + 1..end]) + Pair(v[i])
  {
    hide Print;
    ByteText(v[i]);
    assert v[i..end][1..] == v[i + 1..end];
  }

  lemma UpStep(v: seq<byte>, low: nat, i: nat)
    requires low <= i < |v|
    ensures Up(v[low..i + 1]) == Up(v[low..i]) + Pair(v[i])
  {
    hide Print;
    ByteText(v[i]);
    assert v[low..i + 1][..i - low] == v[low..i];
  }

  lemma NoBytes(v: seq<byte>, i: nat)
    requires i <= |v|
    ensures Up(v[i..i]) == Down(v[i..i]) == ""
  {
    assert v[i..i] == [];
  }

  lemma DownTwo(v: guid, i: nat)
    requires i <= 14
    ensures Down(v[i..i + 2]) == Pair(v[i + 1]) + Pair(v[i])
  {
    hide Down, Pair;
    NoBytes(v, i + 2);
    DownStep(v, i + 1, i + 2);
    DownStep(v, i, i + 2);
  }

  lemma DownFour(v: guid)
    ensures Down(v[0..4]) == Pair(v[3]) + Pair(v[2]) + Pair(v[1]) + Pair(v[0])
  {
    hide Down, Pair;
    DownTwo(v, 2);
    DownStep(v, 1, 4);
    DownStep(v, 0, 4);
  }

  lemma UpTwo(v: guid, i: nat)
    requires i <= 14
    ensures Up(v[i..i + 2]) == Pair(v[i]) + Pair(v[i + 1])
  {
    hide Up, Pair;
    NoBytes(v, i);
    UpStep(v, i, i);
    UpStep(v, i, i + 1);
  }

  lemma UpSix(v: guid)
    ensures Up(v[10..16]) == Pair(v[10]) + Pair(v[11]) + Pair(v[12]) + Pair(v[13]) + Pair(v[14]) + Pair(v[15])
  {
    hide Up, Pair;
    UpTwo(v, 10);
    UpStep(v, 10, 12);
    UpStep(v, 10, 13);
    UpStep(v, 10, 14);
    UpStep(v, 10, 15);
  }

  // ---- Reading the text

  function LittleBytes(n: nat, k: nat): seq<byte> {
    if k == 0 then [] else [n % 256] + LittleBytes(n / 256, k - 1)
  }

  function BigBytes(n: nat, k: nat): seq<byte> {
    if k == 0 then [] else BigBytes(n / 256, k - 1) + [n % 256]
  }

  function LittleField(text: string): seq<byte> { LittleBytes(Hex.Parse(text), |text| / 2) }

  function BigField(text: string): seq<byte> { BigBytes(Hex.Parse(text), |text| / 2) }

  function Read(text: string): seq<byte>
    requires |text| == 36
  {
    LittleField(text[..8]) + LittleField(text[9..13]) + LittleField(text[14..18])
    + BigField(text[19..23]) + BigField(text[24..])
  }

  lemma {:induction false} LittleBytesBack(v: seq<byte>)
    ensures LittleBytes(LittleEndian(v), |v|) == v
  {
    if v != [] {
      LittleBytesBack(v[1..]);
      assert LittleEndian(v) % 256 == v[0] && LittleEndian(v) / 256 == LittleEndian(v[1..]);
    }
  }

  lemma {:induction false} BigBytesBack(v: seq<byte>)
    ensures BigBytes(BigEndian(v), |v|) == v
  {
    if v != [] {
      var hi := v[..|v| - 1];
      BigBytesBack(hi);
      assert BigEndian(v) % 256 == v[|v| - 1] && BigEndian(v) / 256 == BigEndian(hi);
    }
  }

  /** Round trip over all 16-byte values. */
  lemma TextReadsBack(v: guid)
    ensures |Text(v)| == 36 && Read(Text(v)) == v
  {
    TextIsBytewise(v);
    var a, b, c, d, e := v[0..4], v[4..6], v[6..8], v[8..10], v[10..16];
    LittleFieldReadsBack(a);
    LittleFieldReadsBack(b);
    LittleFieldReadsBack(c);
    BigFieldReadsBack(d);
    BigFieldReadsBack(e);
    FieldsOf(Down(a), Down(b), Down(c), Up(d), Up(e));
    assert v == a + b + c + d + e;
  }

  lemma FieldsOf(a: string, b: string, c: string, d: string, e: string)
    requires |a| == 8 && |b| == |c| == |d| == 4 && |e| == 12
    ensures var t := a + "-" + b + "-" + c + "-" + d + "-" + e;
            t[..8] == a && t[9..13] == b && t[14..18] == c && t[19..23] == d && t[24..] == e
  {
  }

  lemma LittleFieldIs(text: string, v: seq<byte>)
    requires |text| == 2 * |v| && Hex.Parse(text) == LittleEndian(v)
    ensures LittleField(text) == v
  {
    LittleBytesBack(v);
  }

  lemma BigFieldIs(text: string, v: seq<byte>)
    requires |text| == 2 * |v| && Hex.Parse(text) == BigEndian(v)
    ensures BigField(text) == v
  {
    BigBytesBack(v);
  }

  lemma LittleFieldReadsBack(v: seq<byte>)
    ensures |Down(v)| == 2 * |v| && LittleField(Down(v)) == v
  {
    var n, text := LittleEndian(v), Down(v);
    DownIsLittleEndian(v);
    ParsePrint(n, 2 * |v|);
    LittleFieldIs(text, v);
  }

  lemma BigFieldReadsBack(v: seq<byte>)
    ensures |Up(v)| == 2 * |v| && BigField(Up(v)) == v
  {
    var n, text := BigEndian(v), Up(v);
    UpIsBigEndian(v);
    ParsePrint(n, 2 * |v|);
    BigFieldIs(text, v);
  }
}
