/** What a whole transmission sounds like, and when a receiver gets its letters, whatever state gate and timer are
    found in. */
module MorseReception {
  import opened Bytes
  import opened MorseCode
  import opened MorseDriver

  /** Gate and timer are such that the first tone sounds, at the right pitch. */
  predicate Ready(port: Port, pit: Pit, divisor: nat) {
    match port.gate
    case 0 => true
    case 3 => (match pit.phase
               case Unprogrammed => pit.count == divisor
               case WantLow => true
               case WantHigh(low) => low + 256 * (divisor % 256) == divisor)
    case _ => false
  }

  /** With one gate bit left on the tone is muted; with both, the timer loads the two bytes without a command first. */
  lemma ReadyMeansToneSounds(port: Port, pit: Pit, divisor: nat, ticks: nat)
    requires divisor < 65536
    ensures KeyDown(port, pit, divisor, ticks) == Tone(divisor, ticks) <==> Ready(port, pit, divisor)
  {
    TwoBytes(divisor);
  }

  /** A transmission is right exactly when gate and timer are ready for its first tone: one gate bit left on
      by someone else mutes that tone, and both on leave the timer without its command. */
  lemma RightExactlyWhenReady(s: seq<byte>, k: Keying, port: Port, pit: Pit)
    requires k.divisor < 65536
    ensures Played(port, pit, Emit(Letters(s), k)) == Emit(Letters(s), k)
            <==> Letters(s) == [] || Ready(port, pit, k.divisor)
    ensures Played(port, pit, Emit(Letters(s), k)) != [] ==>
              Played(port, pit, Emit(Letters(s), k))[1..] == Emit(Letters(s), k)[1..]
  {
    var ls := Letters(s);
    if ls != [] {
      TableIsItu(ls[0]);
      var tape := Emit(ls, k);
      assert tape[0].Tone? && tape[0].divisor == k.divisor;
      ReadyMeansToneSounds(port, pit, k.divisor, tape[0].ticks);
      assert tape == [tape[0]] + tape[1..];
    }
  }

  // ---- What it takes to spell

  /** The number of dots and dashes that spell the letters of a text in capitals. */
  function Symbols(ls: seq<byte>): nat {
    if ls == [] then 0 else (if 65 <= ls[0] <= 90 then |Itu(ls[0])| else 0) + Symbols(ls[1..])
  }

  lemma {:induction false} SearchIsRight(code: string, i: nat)
    requires i <= 26
    ensures var l := Search(code, i); l == 0 || (65 <= l <= 90 && Itu(l) == code)
    decreases 26 - i
  {
    if i < 26 { SearchIsRight(code, i + 1); }
  }

  /** Two spans a symbol: what is decoded has no more symbols than that. */
  lemma {:induction false} DecodeNeedsSymbols(spans: seq<Span>, code: string, unit: nat)
    ensures Symbols(Decode(spans, code, unit)) <= |code| + |spans| / 2
    decreases |spans|
  {
    if |spans| >= 2 {
      var code' := code + [if spans[0].ticks > unit then '-' else '.'];
      if spans[1].ticks > unit {
        SearchIsRight(code', 0);
        DecodeNeedsSymbols(spans[2..], "", unit);
        var rest := Decode(spans[2..], "", unit);
        assert ([LetterFor(code')] + rest)[1..] == rest;
      } else {
        DecodeNeedsSymbols(spans[2..], code', unit);
      }
    }
  }

  lemma {:induction false} IdealLetterLength(symbols: string, k: Keying)
    requires symbols != ""
    ensures |IdealLetter(symbols, k)| == 2 * |symbols|
  {
    if |symbols| > 1 { IdealLetterLength(symbols[1..], k); }
  }

  lemma {:induction false} IdealLength(ls: seq<letter>, k: Keying)
    ensures |Ideal(ls, k)| == 2 * Symbols(ls)
  {
    if ls != [] {
      IdealLetterLength(Itu(ls[0]), k);
      IdealLength(ls[1..], k);
    }
  }

  // ---- Changing the first tone

  /** What follows the first tone. */
  lemma EmitStarts(ls: seq<letter>, k: Keying)
    requires ls != []
    ensures var tape := Emit(ls, k);
            && |tape| >= 2 && tape[0].Tone? && tape[0].ticks in {k.unit, k.dash} && tape[1] == Silence(k.unit)
  {
    TableIsItu(ls[0]);
    var symbols := Itu(ls[0]);
    assert SymbolSpans(symbols, k)[..2] == [Tone(k.divisor, ToneTicks(symbols[0], k)), Silence(k.unit)];
  }

  /** All but the first tone is heard as ever: a silence first, and one span less than the ideal signal. */
  lemma HeardAfterFirst(ls: seq<letter>, k: Keying)
    requires Audible(k) && ls != []
    ensures var tape, rest := Emit(ls, k), Heard(Emit(ls, k)[1..]);
            && rest != [] && rest[0].Silence? && |rest| == 2 * Symbols(ls) - 1
            && Ideal(ls, k) == [tape[0]] + rest
  {
    EmitStarts(ls, k);
    var tape := Emit(ls, k);
    HeardCons(tape[1], tape[2..]);
    assert tape[1..] == [tape[1]] + tape[2..];
    HeardCons(tape[0], tape[1..]);
    assert tape == [tape[0]] + tape[1..];
    HeardIsIdeal(ls, k);
    IdealLength(ls, k);
  }

  lemma OtherPitchDecodesAlike(ls: seq<letter>, k: Keying, divisor: nat)
    requires Audible(k) && ls != []
    ensures var tape := Emit(ls, k);
            Decode(Heard([Tone(divisor, tape[0].ticks)] + tape[1..]), "", k.unit) == ls
  {
    hide Heard, Emit, Ideal;
    HeardAfterFirst(ls, k);
    EmitStarts(ls, k);
    var tape := Emit(ls, k);
    var first, rest := Tone(divisor, tape[0].ticks), Heard(tape[1..]);
    HeardCons(first, tape[1..]);
    DecodeIdeal(ls, k);
    assert ([first] + rest)[2..] == rest[1..] == ([tape[0]] + rest)[2..];
  }

  /** A receiver may also wait for the first tone. */
  function FromFirstTone(spans: seq<Span>): seq<Span> { if spans != [] && spans[0].Silence? then spans[1..] else spans }

  lemma MutedToneIsMissed(ls: seq<letter>, k: Keying)
    requires Audible(k) && ls != []
    ensures var tape := Emit(ls, k);
            var heard := Heard([Silence(tape[0].ticks)] + tape[1..]);
            Decode(heard, "", k.unit) != ls && Decode(FromFirstTone(heard), "", k.unit) != ls
  {
    HeardAfterFirst(ls, k);
    EmitStarts(ls, k);
    var tape := Emit(ls, k);
    HeardCons(Silence(tape[0].ticks), tape[1..]);
    var heard := Heard([Silence(tape[0].ticks)] + tape[1..]);
    assert |heard| == 2 * Symbols(ls) - 1;
    DecodeNeedsSymbols(heard, "", k.unit);
    DecodeNeedsSymbols(FromFirstTone(heard), "", k.unit);
  }

  // ---- Main results

  /** A text is received exactly when it has no letters or the gate was not left half open, with one of its two bits on.
      A receiver goes by lengths, so the pitch of the first tone does not matter to it, and it does not help it to
      wait for that tone. */
  lemma ReceivedExactlyWhenNotHalfOpen(s: seq<byte>, k: Keying, port: Port, pit: Pit)
    requires Audible(k)
    ensures var heard := Heard(Played(port, pit, Emit(Letters(s), k)));
            && (Decode(heard, "", k.unit) == Letters(s) <==> Letters(s) == [] || port.gate == 0 || port.gate == 3)
            && (Decode(FromFirstTone(heard), "", k.unit) == Letters(s)
                <==> Letters(s) == [] || port.gate == 0 || port.gate == 3)
  {
    var ls := Letters(s);
    if ls != [] {
      EmitStarts(ls, k);
      var tape := Emit(ls, k);
      if port.gate == 0 || port.gate == 3 {
        var (_, pit') := AfterSound(port, pit, tape[0].divisor);
        assert Played(port, pit, tape) == [Tone(pit'.count, tape[0].ticks)] + tape[1..];
        OtherPitchDecodesAlike(ls, k, pit'.count);
        HeardAfterFirst(ls, k);
        HeardCons(Tone(pit'.count, tape[0].ticks), tape[1..]);
      } else {
        assert Played(port, pit, tape) == [Silence(tape[0].ticks)] + tape[1..];
        MutedToneIsMissed(ls, k);
      }
    }
  }

  /** End to end, from any state of gate and timer. */
  lemma TransmissionIsReceived(cp: seq<byte>, minor: nat, hz: nat, from: State, to: State)
    requires minor > 0 && hz >= 17
    requires HasPlayed(Emit(Letters(CString(cp, 0)), KeyingFor(Divisor(minor), hz)), from, to)
    ensures Decode(Heard(to.spans[|from.spans|..]), "", Unit(hz)) == Letters(CString(cp, 0))
            <==> Letters(CString(cp, 0)) == [] || from.port.gate == 0 || from.port.gate == 3
    ensures to.port.upper == from.port.upper && (Letters(CString(cp, 0)) != [] ==> to.port.gate == 0)
  {
    var s, k := CString(cp, 0), KeyingFor(Divisor(minor), hz);
    AudibleExactlyFrom17(Divisor(minor), hz);
    ReceivedExactlyWhenNotHalfOpen(s, k, from.port, from.pit);
    assert to.spans[|from.spans|..] == Played(from.port, from.pit, Emit(Letters(s), k));
    if Letters(s) != [] { EmitStarts(Letters(s), k); }
  }
}
