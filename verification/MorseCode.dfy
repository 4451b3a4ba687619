/** What the Morse transmitter is for: letters as timed tone and silence, and a
    receiver that reads them back. */
module MorseCode {
  import opened Bytes
  import opened Sequences

  /** What the speaker does while the driver sleeps. */
  datatype Span = Tone(divisor: nat, ticks: nat) | Silence(ticks: nat)

  /** One, two and three units of 60 ms, rounded down to timer ticks. */
  function Unit(hz: nat): nat { 60 * hz / 1000 }
  function TwoUnits(hz: nat): nat { 120 * hz / 1000 }
  function ThreeUnits(hz: nat): nat { 180 * hz / 1000 }

  /** The timer value and the sleeps, in ticks, that make up a transmission. */
  datatype Keying = Keying(divisor: nat, unit: nat, dash: nat, pause: nat)

  function KeyingFor(divisor: nat, hz: nat): Keying {
    Keying(divisor, Unit(hz), ThreeUnits(hz), TwoUnits(hz))
  }

  /** Dots and gaps take time, and dashes more. */
  predicate Audible(k: Keying) { 1 <= k.unit < k.dash && 1 <= k.pause }

  function ToneTicks(symbol: char, k: Keying): nat { if symbol == '-' then k.dash else k.unit }

  predicate IsLetter(b: byte) { 65 <= b <= 90 || 97 <= b <= 122 }

  function Upper(b: byte): byte { if 97 <= b <= 122 then b - 32 else b }

  type letter = b: int | 65 <= b <= 90 witness 65

  /** Recommendation ITU-R M.1677-1, Annex 1, Part I, section 1.1: the letters A to Z. */
  function Itu(l: letter): string {
    match l as char
    case 'A' => ".-" case 'B' => "-..." case 'C' => "-.-." case 'D' => "-.." case 'E' => "."
    case 'F' => "..-." case 'G' => "--." case 'H' => "...." case 'I' => ".." case 'J' => ".---"
    case 'K' => "-.-" case 'L' => ".-.." case 'M' => "--" case 'N' => "-." case 'O' => "---"
    case 'P' => ".--." case 'Q' => "--.-" case 'R' => ".-." case 'S' => "..." case 'T' => "-"
    case 'U' => "..-" case 'V' => "...-" case 'W' => ".--" case 'X' => "-..-" case 'Y' => "-.--"
    case _ => "--.."
  }

  /** The letters of a text, upper-cased and in order. */
  function Letters(s: seq<byte>): seq<letter> {
    if s == [] then []
    else (if IsLetter(s[0]) then [Upper(s[0])] else []) + Letters(s[1..])
  }

  function SymbolSpans(symbols: string, k: Keying): seq<Span> {
    if symbols == "" then []
    else [Tone(k.divisor, ToneTicks(symbols[0], k)), Silence(k.unit)]
         + SymbolSpans(symbols[1..], k)
  }

  function LetterSpans(l: letter, k: Keying): seq<Span> {
    SymbolSpans(Itu(l), k) + [Silence(k.pause)]
  }

  /** The spans, sleep by sleep, that send the letters. */
  function Emit(ls: seq<letter>, k: Keying): seq<Span> {
    if ls == [] then [] else LetterSpans(ls[0], k) + Emit(ls[1..], k)
  }

  // ---- The sentinel code: symbols least significant bit first, under a leading one

  /** The driver's table, indexed by character minus space. */
  const SPACE_MASK: nat := 0x8000
  function Codes(i: nat): nat
    requires i < 64
  {
    match i
    case 0 => SPACE_MASK
    case 12 => 115 case 13 => 49 case 14 => 106 case 15 => 41 case 16 => 63 case 17 => 62 case 18 => 60 case 19 => 56
    case 20 => 48 case 21 => 32 case 22 => 33 case 23 => 35 case 24 => 39 case 25 => 47 case 31 => 76 case 33 => 6
    case 34 => 17 case 35 => 21 case 36 => 9 case 37 => 2 case 38 => 20 case 39 => 11 case 40 => 16 case 41 => 4
    case 42 => 30 case 43 => 13 case 44 => 18 case 45 => 7 case 46 => 5 case 47 => 15 case 48 => 22 case 49 => 27
    case 50 => 10 case 51 => 8 case 52 => 3 case 53 => 12 case 54 => 24 case 55 => 14 case 56 => 25 case 57 => 29
    case 58 => 19
    case _ => 0
  }

  function Symbol(c: nat): char { if c % 2 == 1 then '-' else '.' }

  function Unpack(c: nat): string {
    if c < 2 then "" else [Symbol(c)] + Unpack(c / 2)
  }

  function Pack(symbols: string): nat {
    if symbols == "" then 1 else (if symbols[0] == '-' then 1 else 0) + 2 * Pack(symbols[1..])
  }

  predicate DotsAndDashes(symbols: string) { forall k :: 0 <= k < |symbols| ==> symbols[k] == '.' || symbols[k] == '-' }

  lemma {:induction false} UnpackPack(c: nat)
    requires c >= 1
    ensures Pack(Unpack(c)) == c && DotsAndDashes(Unpack(c))
  {
    if c >= 2 {
      UnpackPack(c / 2);
    }
  }

  lemma {:induction false} PackUnpack(symbols: string)
    requires DotsAndDashes(symbols)
    ensures Pack(symbols) >= 1 && Unpack(Pack(symbols)) == symbols
  {
    if symbols != "" {
      PackUnpack(symbols[1..]);
      assert symbols == [symbols[0]] + symbols[1..];
    }
  }

  /** The table holds the Recommendation's code of every letter. */
  lemma TableIsItu(l: letter)
    ensures 2 <= Codes(l - 32) < 32 && Unpack(Codes(l - 32)) == Itu(l) != ""
  {
    if l < 71 { TableToF(l); } else if l < 77 { TableToL(l); } else if l < 84 { TableToS(l); } else { TableToZ(l); }
  }

  lemma TableToF(l: letter)
    requires l < 71
    ensures 2 <= Codes(l - 32) < 32 && Unpack(Codes(l - 32)) == Itu(l) != ""
  {
    Unrolled(Codes(l - 32));
  }

  lemma TableToL(l: letter)
    requires 71 <= l < 77
    ensures 2 <= Codes(l - 32) < 32 && Unpack(Codes(l - 32)) == Itu(l) != ""
  {
    Unrolled(Codes(l - 32));
  }

  lemma TableToS(l: letter)
    requires 77 <= l < 84
    ensures 2 <= Codes(l - 32) < 32 && Unpack(Codes(l - 32)) == Itu(l) != ""
  {
    Unrolled(Codes(l - 32));
  }

  lemma TableToZ(l: letter)
    requires l >= 84
    ensures 2 <= Codes(l - 32) < 32 && Unpack(Codes(l - 32)) == Itu(l) != ""
  {
    Unrolled(Codes(l - 32));
  }

  lemma Unrolled(c: nat)
    requires 2 <= c < 32
    ensures Unpack(c) == [Symbol(c)] + (if c < 4 then "" else [Symbol(c / 2)] + (if c < 8 then "" else
                         [Symbol(c / 4)] + (if c < 16 then "" else [Symbol(c / 8)])))
  {
    assert c / 2 / 2 == c / 4 && c / 4 / 2 == c / 8 && c / 8 / 2 < 2;
    assert Unpack(c / 8) == if c < 16 then "" else [Symbol(c / 8)];
    assert c >= 4 ==> Unpack(c / 2) == [Symbol(c / 2)] + Unpack(c / 4);
    assert c >= 8 ==> Unpack(c / 4) == [Symbol(c / 4)] + Unpack(c / 8);
  }

  lemma ItuDistinct(l: letter, m: letter)
    requires l != m
    ensures Codes(l - 32) != Codes(m - 32) && Itu(l) != Itu(m)
  {
    TableIsItu(l);
    TableIsItu(m);
    UnpackPack(Codes(l - 32));
    UnpackPack(Codes(m - 32));
  }

  // ---- Homomorphism

  /** What counts as a letter of a text, and what it is sent as; with `LettersAppend` this settles every text. */
  lemma LettersOfOne(b: byte)
    ensures Letters([b]) == if 'A' <= b as char <= 'Z' then [b] else if 'a' <= b as char <= 'z' then [b - 32] else []
  {
    assert [b][1..] == [];
  }

  lemma {:induction false} LettersAppend(s: seq<byte>, t: seq<byte>)
    ensures Letters(s + t) == Letters(s) + Letters(t)
  {
    if s == [] {
      assert s + t == t;
    } else {
      var first: seq<letter> := if IsLetter(s[0]) then [Upper(s[0])] else [];
      assert (s + t)[1..] == s[1..] + t;
      LettersAppend(s[1..], t);
      assert Letters(s + t) == first + (Letters(s[1..]) + Letters(t));
      Assoc(first, Letters(s[1..]), Letters(t));
    }
  }

  lemma {:induction false} SymbolSpansAppend(a: string, b: string, k: Keying)
    ensures SymbolSpans(a + b, k) == SymbolSpans(a, k) + SymbolSpans(b, k)
  {
    if a == "" {
      assert a + b == b;
    } else {
      assert (a + b)[1..] == a[1..] + b;
      SymbolSpansAppend(a[1..], b, k);
    }
  }

  lemma {:induction false} EmitAppend(a: seq<letter>, b: seq<letter>, k: Keying)
    ensures Emit(a + b, k) == Emit(a, k) + Emit(b, k)
  {
    if a == [] {
      assert a + b == b;
    } else {
      assert (a + b)[1..] == a[1..] + b;
      EmitAppend(a[1..], b, k);
    }
  }

  lemma {:induction false} SymbolOnAir(symbols: string, k: Keying, j: nat)
    requires j < |symbols|
    ensures |SymbolSpans(symbols, k)| == 2 * |symbols|
    ensures SymbolSpans(symbols, k)[2 * j] == Tone(k.divisor, if symbols[j] == '-' then k.dash else k.unit)
    ensures SymbolSpans(symbols, k)[2 * j + 1] == Silence(k.unit)
  {
    if |symbols| > 1 { SymbolOnAir(symbols[1..], k, if j > 0 then j - 1 else 0); }
  }

  /** One letter on the air, in milliseconds rounded down to ticks: its symbols in order, each with a silence
      after it, and the pause. */
  lemma LetterOnAir(l: letter, divisor: nat, hz: nat, j: nat)
    requires j < |Itu(l)|
    ensures var spans := Emit([l], KeyingFor(divisor, hz));
            && |spans| == 2 * |Itu(l)| + 1 && spans[2 * |Itu(l)|] == Silence(120 * hz / 1000)
            && spans[2 * j] == Tone(divisor, (if Itu(l)[j] == '-' then 180 * hz else 60 * hz) / 1000)
            && spans[2 * j + 1] == Silence(60 * hz / 1000)
  {
    var k := KeyingFor(divisor, hz);
    SymbolOnAir(Itu(l), k, j);
    assert [l][1..] == [];
    assert Emit([l], k) == SymbolSpans(Itu(l), k) + [Silence(k.pause)];
  }

  /** Sending s and then t sounds the same as sending s followed by t. */
  lemma TransmissionIsHomomorphic(s: seq<byte>, t: seq<byte>, k: Keying)
    ensures Emit(Letters(s + t), k) == Emit(Letters(s), k) + Emit(Letters(t), k)
  {
    LettersAppend(s, t);
    EmitAppend(Letters(s), Letters(t), k);
  }

  // ---- What a listener hears: no empty spans, and adjacent equal sounds run together

  predicate SameSound(a: Span, b: Span) { a.Silence? == b.Silence? && (a.Tone? ==> a.divisor == b.divisor) }

  function Join(x: Span, rest: seq<Span>): seq<Span> {
    if x.ticks == 0 then rest
    else if rest != [] && SameSound(x, rest[0]) then [rest[0].(ticks := x.ticks + rest[0].ticks)] + rest[1..]
    else [x] + rest
  }

  function Heard(spans: seq<Span>): seq<Span> {
    if spans == [] then [] else Join(spans[0], Heard(spans[1..]))
  }

  /** The signal the Recommendation asks for (section 2), in ticks: one gap inside a letter, a longer one after it. */
  function IdealLetter(symbols: string, k: Keying): (spans: seq<Span>)
    requires symbols != ""
    ensures spans != [] && spans[0].Tone?
  {
    var tone := Tone(k.divisor, ToneTicks(symbols[0], k));
    if |symbols| == 1 then [tone] + [Silence(k.unit + k.pause)]
    else [tone] + ([Silence(k.unit)] + IdealLetter(symbols[1..], k))
  }

  function Ideal(ls: seq<letter>, k: Keying): (spans: seq<Span>)
    ensures ls != [] ==> spans != [] && spans[0].Tone?
  {
    if ls == [] then [] else IdealLetter(Itu(ls[0]), k) + Ideal(ls[1..], k)
  }

  /** Below 17 ticks a second a dot takes no time at all. */
  lemma AudibleExactlyFrom17(divisor: nat, hz: nat)
    ensures Audible(KeyingFor(divisor, hz)) <==> hz >= 17
    ensures hz < 17 ==> KeyingFor(divisor, hz).unit == 0
  {
  }

  lemma HeardCons(x: Span, rest: seq<Span>)
    ensures Heard([x] + rest) == Join(x, Heard(rest))
  {
    assert ([x] + rest)[1..] == rest;
  }

  lemma HeardSymbol(tone: Span, u: nat, rest: seq<Span>)
    requires tone.Tone? && tone.ticks >= 1 && u >= 1
    requires Heard(rest) != [] && Heard(rest)[0].Tone?
    ensures Heard([tone] + ([Silence(u)] + rest)) == [tone] + ([Silence(u)] + Heard(rest))
  {
    HeardCons(Silence(u), rest);
    HeardCons(tone, [Silence(u)] + rest);
  }

  lemma HeardLastSymbol(tone: Span, u: nat, pause: nat, tail: seq<Span>)
    requires tone.Tone? && tone.ticks >= 1 && u >= 1 && pause >= 1
    requires Heard(tail) == [] || Heard(tail)[0].Tone?
    ensures Heard([tone] + ([Silence(u)] + ([Silence(pause)] + tail))) == [tone] + ([Silence(u + pause)] + Heard(tail))
  {
    HeardCons(Silence(pause), tail);
    var rest := [Silence(pause)] + tail;
    assert Heard(rest) == [Silence(pause)] + Heard(tail) && Heard(rest)[1..] == Heard(tail);
    HeardCons(Silence(u), rest);
    assert Heard([Silence(u)] + rest) == [Silence(u + pause)] + Heard(tail);
    HeardCons(tone, [Silence(u)] + rest);
  }

  /** The sleeps that send one letter, followed by something else. */
  function LetterThen(symbols: string, tail: seq<Span>, k: Keying): seq<Span> {
    if symbols == "" then [Silence(k.pause)] + tail
    else [Tone(k.divisor, ToneTicks(symbols[0], k))] + ([Silence(k.unit)] + LetterThen(symbols[1..], tail, k))
  }

  lemma {:induction false} LetterThenIsSymbols(symbols: string, tail: seq<Span>, k: Keying)
    ensures LetterThen(symbols, tail, k) == SymbolSpans(symbols, k) + [Silence(k.pause)] + tail
  {
    if symbols != "" {
      LetterThenIsSymbols(symbols[1..], tail, k);
    }
  }

  lemma {:induction false} HeardLetter(symbols: string, tail: seq<Span>, k: Keying)
    requires Audible(k) && symbols != ""
    requires Heard(tail) == [] || Heard(tail)[0].Tone?
    ensures Heard(LetterThen(symbols, tail, k)) == IdealLetter(symbols, k) + Heard(tail)
  {
    var tone, rest := Tone(k.divisor, ToneTicks(symbols[0], k)), LetterThen(symbols[1..], tail, k);
    if |symbols| == 1 {
      HeardLastSymbol(tone, k.unit, k.pause, tail);
      Assoc([tone], [Silence(k.unit + k.pause)], Heard(tail));
    } else {
      var ideal := IdealLetter(symbols[1..], k);
      HeardLetter(symbols[1..], tail, k);
      assert Heard(rest)[0] == ideal[0];
      HeardSymbol(tone, k.unit, rest);
      Assoc([Silence(k.unit)], ideal, Heard(tail));
      Assoc([tone], [Silence(k.unit)] + ideal, Heard(tail));
    }
  }

  /** Spacing: from 17 ticks a second on, the emitted sleeps are heard as exactly the ideal signal. */
  lemma {:induction false} HeardIsIdeal(ls: seq<letter>, k: Keying)
    requires Audible(k)
    ensures Heard(Emit(ls, k)) == Ideal(ls, k)
  {
    if ls != [] {
      HeardIsIdeal(ls[1..], k);
      var tail := Emit(ls[1..], k);
      TableIsItu(ls[0]);
      HeardLetter(Itu(ls[0]), tail, k);
      LetterThenIsSymbols(Itu(ls[0]), tail, k);
    }
  }

  ghost predicate Spaced(spans: seq<Span>, k: Keying) {
    && |spans| % 2 == 0
    && forall i :: 0 <= i < |spans| ==>
        if i % 2 == 0 then IsTone(spans[i], k) else IsGap(spans[i], k)
  }

  predicate IsTone(x: Span, k: Keying) {
    x.Tone? && x.divisor == k.divisor && (x.ticks == k.unit || x.ticks == k.dash)
  }

  predicate IsGap(x: Span, k: Keying) {
    x.Silence? && (x.ticks == k.unit || x.ticks == k.unit + k.pause)
  }

  lemma SpacedAppend(a: seq<Span>, b: seq<Span>, k: Keying)
    requires Spaced(a, k) && Spaced(b, k)
    ensures Spaced(a + b, k)
  {
    hide IsTone, IsGap;
    forall i | 0 <= i < |a + b|
      ensures if i % 2 == 0 then IsTone((a + b)[i], k) else IsGap((a + b)[i], k)
    {
      if i >= |a| { assert (a + b)[i] == b[i - |a|] && (i - |a|) % 2 == i % 2; }
    }
  }

  lemma {:induction false} IdealLetterIsSpaced(symbols: string, k: Keying)
    requires symbols != ""
    ensures Spaced(IdealLetter(symbols, k), k)
  {
    if |symbols| > 1 {
      IdealLetterIsSpaced(symbols[1..], k);
      var ideal := IdealLetter(symbols, k);
      SpacedAppend(ideal[..2], IdealLetter(symbols[1..], k), k);
      assert ideal == ideal[..2] + IdealLetter(symbols[1..], k);
    }
  }

  lemma {:induction false} IdealIsSpaced(ls: seq<letter>, k: Keying)
    ensures Spaced(Ideal(ls, k), k)
  {
    if ls != [] {
      IdealLetterIsSpaced(Itu(ls[0]), k);
      IdealIsSpaced(ls[1..], k);
      SpacedAppend(IdealLetter(Itu(ls[0]), k), Ideal(ls[1..], k), k);
    }
  }

  /** Tone and silence alternate. When a unit is a whole number u of ticks, every tone lasts u or 3u and
      every silence u or 3u: the 7u gap between words never occurs. */
  lemma UnitLengths(ls: seq<letter>, divisor: nat, hz: nat, u: nat, i: nat)
    requires hz >= 17 && 60 * hz == 1000 * u
    requires i < |Heard(Emit(ls, KeyingFor(divisor, hz)))|
    ensures var x := Heard(Emit(ls, KeyingFor(divisor, hz)))[i];
            x.Tone? == (i % 2 == 0) && x.ticks in {u, 3 * u}
  {
    var k := KeyingFor(divisor, hz);
    assert k == Keying(divisor, u, 3 * u, 2 * u);
    AudibleExactlyFrom17(divisor, hz);
    HeardIsIdeal(ls, k);
    IdealIsSpaced(ls, k);
  }

  // ---- The receiver

  /** The letter with the given code, 0 when there is none. */
  function LetterFor(code: string): byte { Search(code, 0) }

  function Search(code: string, i: nat): byte
    requires i <= 26
    decreases 26 - i
  {
    if i == 26 then 0 else if Itu(65 + i) == code then 65 + i else Search(code, i + 1)
  }

  /** Classifies each tone and each silence by whether it is longer than one unit. */
  function Decode(spans: seq<Span>, code: string, unit: nat): seq<byte> {
    if |spans| < 2 then []
    else
      var code' := code + [if spans[0].ticks > unit then '-' else '.'];
      if spans[1].ticks > unit then [LetterFor(code')] + Decode(spans[2..], "", unit)
      else Decode(spans[2..], code', unit)
  }

  lemma {:induction false} SearchFinds(i: nat, j: nat)
    requires j <= i < 26
    ensures Search(Itu(65 + i), j) == 65 + i
    decreases i - j
  {
    if j < i {
      ItuDistinct(65 + i, 65 + j);
      SearchFinds(i, j + 1);
    }
  }

  lemma {:induction false} DecodeLetter(symbols: string, tail: seq<Span>, code: string, k: Keying)
    requires Audible(k) && symbols != "" && DotsAndDashes(symbols)
    ensures Decode(IdealLetter(symbols, k) + tail, code, k.unit)
            == [LetterFor(code + symbols)] + Decode(tail, "", k.unit)
  {
    var spans := IdealLetter(symbols, k) + tail;
    assert code + symbols == code + [symbols[0]] + symbols[1..];
    if |symbols| == 1 {
      assert spans[2..] == tail;
      assert code + symbols == code + [if spans[0].ticks > k.unit then '-' else '.'];
    } else {
      assert spans[2..] == IdealLetter(symbols[1..], k) + tail;
      DecodeLetter(symbols[1..], tail, code + [symbols[0]], k);
    }
  }

  lemma {:induction false} DecodeIdeal(ls: seq<letter>, k: Keying)
    requires Audible(k)
    ensures Decode(Ideal(ls, k), "", k.unit) == ls
  {
    if ls != [] {
      var l: int := ls[0];
      TableIsItu(l);
      UnpackPack(Codes(l - 32));
      SearchFinds(l - 65, 0);
      var symbols := Itu(ls[0]);
      assert "" + symbols == symbols;
      DecodeIdeal(ls[1..], k);
      DecodeLetter(symbols, Ideal(ls[1..], k), "", k);
    }
  }

  /** Round trip: what is heard decodes to exactly the letters of the text. */
  lemma RoundTrip(s: seq<byte>, divisor: nat, hz: nat)
    requires hz >= 17
    ensures var k := KeyingFor(divisor, hz);
            Decode(Heard(Emit(Letters(s), k)), "", k.unit) == Letters(s)
  {
    var k := KeyingFor(divisor, hz);
    AudibleExactlyFrom17(divisor, hz);
    HeardIsIdeal(Letters(s), k);
    DecodeIdeal(Letters(s), k);
  }

  /** Different letters sound different. */
  ghost predicate Distinguishable(k: Keying) {
    forall s: seq<byte>, t: seq<byte> ::
      Heard(Emit(Letters(s), k)) == Heard(Emit(Letters(t), k)) ==> Letters(s) == Letters(t)
  }

  /** No receiver, however clever, can do better: texts can be told apart by ear exactly from 17 ticks a second on. */
  lemma DistinguishableExactlyFrom17(divisor: nat, hz: nat)
    ensures Distinguishable(KeyingFor(divisor, hz)) <==> hz >= 17
  {
    var k := KeyingFor(divisor, hz);
    if hz >= 17 {
      forall s: seq<byte>, t: seq<byte> | Heard(Emit(Letters(s), k)) == Heard(Emit(Letters(t), k))
        ensures Letters(s) == Letters(t)
      {
        RoundTrip(s, divisor, hz);
        RoundTrip(t, divisor, hz);
      }
    } else {
      AudibleExactlyFrom17(divisor, hz);
      TooFastToTell(k);
    }
  }

  /** When a dot takes no time, E (one dot) and I (two dots) sound alike. */
  lemma TooFastToTell(k: Keying)
    requires k.unit == 0
    ensures var e: seq<byte>, i: seq<byte> := [69], [73];
            Heard(Emit(Letters(e), k)) == Heard(Emit(Letters(i), k)) && Letters(e) != Letters(i)
  {
    var dot, gap, pause := Tone(k.divisor, 0), Silence(0), Silence(k.pause);
    var e: seq<byte>, i: seq<byte> := [69], [73];
    assert Letters(e) == [69] && Letters(i) == [73];
    assert SymbolSpans(".", k) == [dot, gap];
    assert SymbolSpans("..", k) == [dot, gap] + SymbolSpans(".", k);
    var one, two := [dot, gap, pause], [dot, gap, dot, gap, pause];
    assert Emit([69], k) == one;
    assert Emit([73], k) == two;
    assert one[1..] == [gap, pause] && one[1..][1..] == [pause];
    assert two[1..] == [gap, dot, gap, pause] && two[1..][1..] == one;
  }
}
