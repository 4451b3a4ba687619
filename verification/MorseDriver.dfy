/** The transmitter itself: nested loops over the text and the code bits, driving the
    8253 timer and the gate port. Its two low bits are the gate, the rest belongs to others. */
module MorseDriver {
  import opened Bytes
  import opened Sequences
  import opened MorseCode

  const CLK_FREQ: nat := 1193180
  const SETUP: byte := 0xB6
  const FREQUENCY: nat := 2000
  const UNIT_TIME: nat := 60

  type sixBits = x: int | 0 <= x < 64

  type twoBits = x: int | 0 <= x < 4

  /** The byte 4 * upper + gate at port 0x61. */
  datatype Port = Port(upper: sixBits, gate: twoBits)

  /** Channel 2 of the timer: after the set-up command data comes in pairs, low byte first. */
  datatype Phase = Unprogrammed | WantLow | WantHigh(low: byte)

  datatype Pit = Pit(phase: Phase, count: nat) {
    function Command(): Pit { this.(phase := WantLow) }

    function Data(v: byte): Pit {
      match phase
      case Unprogrammed => this
      case WantLow => this.(phase := WantHigh(v))
      case WantHigh(low) => Pit(WantLow, low + 256 * v)
    }

    function Load(divisor: nat): Pit { Data(divisor % 256).Data(divisor / 256 % 256) }
  }

  /** A byte sent to port 0x61, 0x43 or 0x42. */
  datatype BusWrite = ToGate(port: Port) | ToCommand(command: byte) | ToData(data: byte)

  /** The sound during a sleep that begins in the given state. */
  function Sounding(port: Port, pit: Pit, ticks: nat): Span {
    if port.gate == 3 then Tone(pit.count, ticks) else Silence(ticks)
  }

  /** The state in which `Sound` leaves gate and timer. The timer gets its command only when both gate bits
      are clear. */
  function AfterSound(port: Port, pit: Pit, divisor: nat): (Port, Pit) {
    if port.gate == 0 then (port.(gate := 3), pit.Command().Load(divisor)) else (port, pit.Load(divisor))
  }

  function KeyDown(port: Port, pit: Pit, divisor: nat, ticks: nat): Span {
    var (port', pit') := AfterSound(port, pit, divisor);
    Sounding(port', pit', ticks)
  }

  lemma QuotientIsNatural(a: nat, b: nat)
    requires b > 0
    ensures a / b >= 0
  {
    assert a == a / b * b + a % b;
  }

  /** The timer value for a frequency. */
  function DivisorFor(freq: nat): nat
    requires freq > 0
  {
    QuotientIsNatural(CLK_FREQ, freq);
    CLK_FREQ / freq
  }

  /** The timer value is the clock divided by the frequency, rounded down. */
  lemma DivisorIsFloor(freq: nat)
    requires freq > 0
    ensures DivisorFor(freq) * freq <= 1193180 < (DivisorFor(freq) + 1) * freq
  {
    Floor(CLK_FREQ, freq);
  }

  lemma Floor(a: nat, b: nat)
    requires b > 0
    ensures (a / b) * b <= a < (a / b + 1) * b
  {
    assert a == (a / b) * b + a % b;
    assert (a / b + 1) * b == (a / b) * b + b;
  }

  lemma TwoBytes(d: nat)
    requires d < 65536
    ensures d % 256 + 256 * (d / 256 % 256) == d
  {
    assert d / 256 % 256 == d / 256;
  }

  /** A tone started with the gate closed: set-up command, low byte, high byte, and only the gate bits change. */
  lemma SoundProgramsTimer(port: Port, pit: Pit, divisor: nat)
    requires port.gate == 0 && divisor < 65536
    ensures AfterSound(port, pit, divisor) == (Port(port.upper, 3), Pit(WantLow, divisor))
  {
    TwoBytes(divisor);
  }

  datatype State = State(port: Port, pit: Pit, spans: seq<Span>, bus: seq<BusWrite>)

  /** What one tone sends over the bus, to its start and in all. */
  function StartWrites(port: Port, divisor: nat): seq<BusWrite> {
    (if port.gate == 0 then [ToGate(port.(gate := 3)), ToCommand(SETUP)] else [])
    + [ToData(divisor % 256), ToData(divisor / 256 % 256)]
  }

  function ToneWrites(port: Port, divisor: nat): seq<BusWrite> {
    StartWrites(port, divisor) + [ToGate(port.(gate := 0))]
  }

  function SpanWrites(port: Port, x: Span): seq<BusWrite> { if x.Tone? then ToneWrites(port, x.divisor) else [] }

  /** The bus traffic of a tape, from a closed gate and from any state. */
  function ClosedWrites(port: Port, tape: seq<Span>): seq<BusWrite> {
    if tape == [] then [] else SpanWrites(port.(gate := 0), tape[0]) + ClosedWrites(port, tape[1..])
  }

  function Writes(port: Port, tape: seq<Span>): seq<BusWrite> {
    if tape == [] then [] else SpanWrites(port, tape[0]) + ClosedWrites(port, tape[1..])
  }

  /** What is heard of a tape: only its first tone depends on the state at the start. */
  function Played(port: Port, pit: Pit, tape: seq<Span>): seq<Span> {
    if tape == [] then []
    else [if tape[0].Tone? then KeyDown(port, pit, tape[0].divisor, tape[0].ticks) else tape[0]] + tape[1..]
  }

  /** Between the two states the machine has played the tape. */
  ghost predicate HasPlayed(tape: seq<Span>, from: State, to: State) {
    && to.spans == from.spans + Played(from.port, from.pit, tape)
    && to.bus == from.bus + Writes(from.port, tape)
    && if tape == [] then to.port == from.port && to.pit == from.pit else to.port == from.port.(gate := 0)
  }

  /** One symbol: tone, gate off, one unit of silence. */
  ghost predicate PlaysSymbol(symbol: char, k: Keying, from: State, to: State) {
    && to.spans == from.spans + [KeyDown(from.port, from.pit, k.divisor, ToneTicks(symbol, k)), Silence(k.unit)]
    && to.bus == from.bus + ToneWrites(from.port, k.divisor)
    && to.port == from.port.(gate := 0)
  }

  class Machine {
    var port: Port
    var pit: Pit
    var spans: seq<Span>
    var bus: seq<BusWrite>
    const hz: nat

    method Inb() returns (value: Port)
      ensures value == port
    {
      value := port;
    }

    method Outb(w: BusWrite)
      modifies this`port, this`pit, this`bus
      ensures bus == old(bus) + [w]
      ensures port == if w.ToGate? then w.port else old(port)
      ensures pit == match w
                     case ToGate(_) => old(pit)
                     case ToCommand(v) => if v == SETUP then old(pit).Command() else old(pit)
                     case ToData(v) => old(pit).Data(v)
    {
      bus := bus + [w];
      match w
      case ToGate(p) => port := p;
      case ToCommand(v) => if v == SETUP { pit := pit.Command(); }
      case ToData(v) => pit := pit.Data(v);
    }

    method ScheduleTimeout(ticks: nat)
      modifies this`spans
      ensures spans == old(spans) + [Sounding(port, pit, ticks)]
    {
      spans := spans + [Sounding(port, pit, ticks)];
    }

    method Sound(freq: nat)
      requires freq > 0
      modifies this`port, this`pit, this`bus
      ensures bus == old(bus) + StartWrites(old(port), DivisorFor(freq))
      ensures (port, pit) == AfterSound(old(port), old(pit), DivisorFor(freq))
    {
      var value := Inb();
      var divisor := DivisorFor(freq);
      if value.gate == 0 {
        Outb(ToGate(value.(gate := 3)));
        Outb(ToCommand(SETUP));
      }
      Outb(ToData(divisor % 256));
      Outb(ToData(divisor / 256 % 256));
    }

    method NoSound()
      modifies this`port, this`pit, this`bus
      ensures bus == old(bus) + [ToGate(old(port).(gate := 0))]
      ensures port == old(port).(gate := 0) && pit == old(pit)
    {
      var value := Inb();
      Outb(ToGate(value.(gate := 0)));
    }

    method Delay(ms: nat)
      modifies this`spans
      ensures spans == old(spans) + [Sounding(port, pit, ms * hz / 1000)]
    {
      ScheduleTimeout(ms * hz / 1000);
    }

    method SendDot(minor: nat)
      requires minor > 0
      modifies this
      ensures PlaysSymbol('.', KeyingFor(Divisor(minor), hz), old(Now()), Now())
    {
      Sound(FREQUENCY * minor);
      Delay(UNIT_TIME);
      NoSound();
      Delay(UNIT_TIME);
    }

    method SendDash(minor: nat)
      requires minor > 0
      modifies this
      ensures PlaysSymbol('-', KeyingFor(Divisor(minor), hz), old(Now()), Now())
    {
      Sound(FREQUENCY * minor);
      Delay(UNIT_TIME * 3);
      NoSound();
      Delay(UNIT_TIME);
    }

    method LetterSpace()
      modifies this`spans
      ensures spans == old(spans) + [Sounding(port, pit, TwoUnits(hz))]
    {
      Delay(UNIT_TIME * 2);
    }

    ghost function Now(): State
      reads this
    {
      State(port, pit, spans, bus)
    }

    /** One code: from the lowest bit up, until only the leading one is left, and the pause after it. A code
        without symbols sends the pause alone, which is silent if something was sent before or the gate is closed. */
    method SendCode(code: nat, minor: nat, ghost k: Keying, ghost tape: seq<Span>, ghost start: State)
      requires code < 256 && minor > 0 && k == KeyingFor(Divisor(minor), hz) && k.divisor < 65536
      requires code < 2 ==> tape != [] || port.gate == 0
      requires HasPlayed(tape, start, Now())
      modifies this
      ensures HasPlayed(tape + SymbolSpans(Unpack(code), k) + [Silence(k.pause)], start, Now())
    {
      var c := code;
      ghost var sent := "";
      assert tape + SymbolSpans(sent, k) == tape;
      while c / 2 % 128 != 0
        invariant 0 <= c < 256 && (code >= 2 ==> c >= 1) && sent + Unpack(c) == Unpack(code)
        invariant HasPlayed(tape + SymbolSpans(sent, k), start, Now())
        decreases c
      {
        ghost var from := Now();
        UnpackNext(sent, c);
        if c % 2 == 1 {
          SendDash(minor);
        } else {
          SendDot(minor);
        }
        NextSymbol(tape, sent, Symbol(c), k, start, from, Now());
        sent := sent + [Symbol(c)];
        c := c / 2;
      }
      assert sent + "" == sent == Unpack(code);
      ghost var from := Now();
      LetterSpace();
      NextPause(tape + SymbolSpans(sent, k), k.pause, start, from, Now());
    }

    method Lookup(i: nat) returns (code: nat)
      requires 33 <= i <= 58
      ensures 2 <= code < 32 && Unpack(code) == Itu(i + 32)
    {
      TableIsItu(i + 32);
      code := Codes(i);
    }

    /** One byte of the text: a letter is sent, anything else is dropped. */
    method SendByte(b: byte, minor: nat, charSigned: bool, ghost k: Keying, ghost tape: seq<Span>, ghost start: State)
      requires b != 0 && minor > 0 && k == KeyingFor(Divisor(minor), hz) && k.divisor < 65536
      requires HasPlayed(tape, start, Now())
      modifies this
      ensures HasPlayed(tape + if IsLetter(b) then LetterSpans(Upper(b), k) else [], start, Now())
    {
      assert tape + [] == tape;
      var c := Widen(b, charSigned);
      if c < 65 { return; }
      if 97 <= c <= 122 { c := c - 97 + 65; }
      c := c - 32;
      if c > 58 { return; }
      ghost var l: letter := Upper(b);
      assert c == l - 32;
      c := Lookup(c);
      assert c / SPACE_MASK == 0;
      if c / SPACE_MASK % 2 == 1 {
        assert false; // word_space: no letter's code has this bit
      }
      SendCode(c, minor, k, tape, start);
      Assoc(tape, SymbolSpans(Itu(l), k), [Silence(k.pause)]);
    }

    /** Sends the letters of a NUL-terminated text, whatever state gate and timer start in. */
    method Morse(cp: seq<byte>, minor: nat, charSigned: bool)
      requires 0 in cp && minor > 0
      modifies this
      ensures HasPlayed(Emit(Letters(CString(cp, 0)), KeyingFor(Divisor(minor), hz)), old(Now()), Now())
    {
      ghost var k, start, text := KeyingFor(Divisor(minor), hz), Now(), CString(cp, 0);
      assert k.divisor < 65536 by { DivisorFits(minor); }
      assert forall j :: 0 <= j < |text| ==> text[j] == cp[j] != 0;
      var i := 0;
      while cp[i] != 0
        invariant i <= |text|
        invariant HasPlayed(Emit(Letters(text[..i]), k), start, Now())
        decreases |text| - i
      {
        NextByte(text, i, k);
        SendByte(cp[i], minor, charSigned, k, Emit(Letters(text[..i]), k), start);
        i := i + 1;
      }
      assert text[..i] == text;
    }
  }

  /** `unsigned int c = *cp` where plain char may or may not be signed. */
  function Widen(b: byte, charSigned: bool): nat {
    if charSigned && b >= 128 then 0x1_0000_0000 + b - 256 else b
  }

  function Divisor(minor: nat): nat
    requires minor > 0
  {
    DivisorFor(FREQUENCY * minor)
  }

  /** A minor number sounds at as many times 2000 Hz; the divisor fits the timer's 16 bits. */
  lemma DivisorFits(minor: nat)
    requires minor > 0
    ensures Divisor(minor) == DivisorFor(2000 * minor) <= 596
  {
    QuotientBound(CLK_FREQ, FREQUENCY * minor);
  }

  lemma QuotientBound(a: nat, b: nat)
    requires b >= 2000
    ensures 2000 * (a / b) <= a
  {
    assert a == a / b * b + a % b;
    assert (a / b) * 2000 <= (a / b) * b;
  }

  lemma PlayedAppend(tape: seq<Span>, more: seq<Span>, port: Port, pit: Pit)
    requires tape != []
    ensures Played(port, pit, tape + more) == Played(port, pit, tape) + more
  {
    assert (tape + more)[1..] == tape[1..] + more;
  }

  lemma {:induction false} ClosedWritesAppend(tape: seq<Span>, more: seq<Span>, port: Port)
    ensures ClosedWrites(port, tape + more) == ClosedWrites(port, tape) + ClosedWrites(port, more)
  {
    if tape == [] {
      assert tape + more == more;
    } else {
      assert (tape + more)[1..] == tape[1..] + more;
      ClosedWritesAppend(tape[1..], more, port);
      Assoc(SpanWrites(port.(gate := 0), tape[0]), ClosedWrites(port, tape[1..]), ClosedWrites(port, more));
    }
  }

  lemma WritesAppend(tape: seq<Span>, more: seq<Span>, port: Port)
    requires tape != []
    ensures Writes(port, tape + more) == Writes(port, tape) + ClosedWrites(port, more)
  {
    assert (tape + more)[1..] == tape[1..] + more;
    ClosedWritesAppend(tape[1..], more, port);
    Assoc(SpanWrites(port, tape[0]), ClosedWrites(port, tape[1..]), ClosedWrites(port, more));
  }

  lemma SymbolWrites(port: Port, tone: Span, gap: Span)
    requires tone.Tone? && gap.Silence?
    ensures Writes(port, [tone, gap]) == ToneWrites(port, tone.divisor)
    ensures ClosedWrites(port, [tone, gap]) == ToneWrites(port.(gate := 0), tone.divisor)
  {
    assert [tone, gap][1..] == [gap] && [gap][1..] == [];
    assert ClosedWrites(port, [gap]) == [];
  }

  lemma KeyDownWhenClosed(port: Port, pit: Pit, divisor: nat, ticks: nat)
    requires divisor < 65536 && port.gate == 0
    ensures KeyDown(port, pit, divisor, ticks) == Tone(divisor, ticks)
  {
    SoundProgramsTimer(port, pit, divisor);
  }

  function OneSymbol(symbol: char, k: Keying): seq<Span> { [Tone(k.divisor, ToneTicks(symbol, k)), Silence(k.unit)] }

  lemma FirstSymbol(symbol: char, k: Keying, start: State, to: State)
    requires PlaysSymbol(symbol, k, start, to)
    ensures HasPlayed(OneSymbol(symbol, k), start, to)
  {
    var tape := OneSymbol(symbol, k);
    SymbolWrites(start.port, tape[0], tape[1]);
    assert tape[1..] == [tape[1]];
  }

  lemma FromStart(symbol: char, k: Keying, start: State, from: State, to: State)
    requires HasPlayed([], start, from) && PlaysSymbol(symbol, k, from, to)
    ensures PlaysSymbol(symbol, k, start, to)
  {
  }

  lemma LaterSymbol(tape: seq<Span>, symbol: char, k: Keying, start: State, from: State, to: State)
    requires tape != [] && k.divisor < 65536
    requires HasPlayed(tape, start, from) && PlaysSymbol(symbol, k, from, to)
    ensures HasPlayed(tape + OneSymbol(symbol, k), start, to)
  {
    var next := OneSymbol(symbol, k);
    assert to.spans == from.spans + next by { KeyDownWhenClosed(from.port, from.pit, k.divisor, ToneTicks(symbol, k)); }
    PlayedAppend(tape, next, start.port, start.pit);
    assert Writes(start.port, tape + next) == Writes(start.port, tape) + ToneWrites(from.port, k.divisor) by {
      WritesAppend(tape, next, start.port);
      SymbolWrites(start.port, next[0], next[1]);
    }
    Assoc(start.spans, Played(start.port, start.pit, tape), next);
    Assoc(start.bus, Writes(start.port, tape), ToneWrites(from.port, k.divisor));
  }

  lemma NextSymbol(tape: seq<Span>, sent: string, symbol: char, k: Keying, start: State, from: State, to: State)
    requires k.divisor < 65536
    requires HasPlayed(tape + SymbolSpans(sent, k), start, from) && PlaysSymbol(symbol, k, from, to)
    ensures HasPlayed(tape + SymbolSpans(sent + [symbol], k), start, to)
  {
    hide HasPlayed, PlaysSymbol;
    var before := tape + SymbolSpans(sent, k);
    assert tape + SymbolSpans(sent + [symbol], k) == before + OneSymbol(symbol, k) by {
      SymbolSpansAppend(sent, [symbol], k);
      assert SymbolSpans([symbol], k) == OneSymbol(symbol, k);
      Assoc(tape, SymbolSpans(sent, k), OneSymbol(symbol, k));
    }
    if before == [] {
      FromStart(symbol, k, start, from, to);
      FirstSymbol(symbol, k, start, to);
      assert before + OneSymbol(symbol, k) == OneSymbol(symbol, k);
    } else {
      LaterSymbol(before, symbol, k, start, from, to);
    }
  }

  lemma NextPause(tape: seq<Span>, pause: nat, start: State, from: State, to: State)
    requires tape != [] || from.port.gate == 0
    requires HasPlayed(tape, start, from)
    requires to == from.(spans := from.spans + [Sounding(from.port, from.pit, pause)])
    ensures HasPlayed(tape + [Silence(pause)], start, to)
  {
    if tape == [] {
      assert tape + [Silence(pause)] == [Silence(pause)];
      assert Played(start.port, start.pit, [Silence(pause)]) == [Silence(pause)];
      assert Writes(start.port, [Silence(pause)]) == [];
    } else {
      PlayedAppend(tape, [Silence(pause)], start.port, start.pit);
      WritesAppend(tape, [Silence(pause)], start.port);
      assert ClosedWrites(start.port, [Silence(pause)]) == [];
    }
  }

  lemma UnpackNext(sent: string, c: nat)
    requires c >= 2
    ensures sent + Unpack(c) == sent + [Symbol(c)] + Unpack(c / 2)
  {
    Assoc(sent, [Symbol(c)], Unpack(c / 2));
  }

  lemma NextByte(cp: seq<byte>, i: nat, k: Keying)
    requires i < |cp|
    ensures Emit(Letters(cp[..i + 1]), k)
            == Emit(Letters(cp[..i]), k) + if IsLetter(cp[i]) then LetterSpans(Upper(cp[i]), k) else []
  {
    assert cp[..i + 1] == cp[..i] + [cp[i]];
    TransmissionIsHomomorphic(cp[..i], [cp[i]], k);
  }

  // ---- The bus protocol

  function Tones(tape: seq<Span>): nat { if tape == [] then 0 else (if tape[0].Tone? then 1 else 0) + Tones(tape[1..]) }

  predicate AtPitch(tape: seq<Span>, divisor: nat) { forall x <- tape :: x.Tone? ==> x.divisor == divisor }

  /** From a closed gate the bus sees, for each tone and nothing else: gate on, set-up command, low byte, high
      byte, gate off. */
  lemma {:induction false} EachToneReprograms(port: Port, tape: seq<Span>, divisor: nat, j: nat)
    requires AtPitch(tape, divisor)
    ensures |ClosedWrites(port, tape)| == 5 * Tones(tape)
    ensures j < Tones(tape) ==>
              ClosedWrites(port, tape)[5 * j..5 * j + 5]
              == [ToGate(Port(port.upper, 3)), ToCommand(0xB6), ToData(divisor % 256), ToData(divisor / 256 % 256),
                  ToGate(Port(port.upper, 0))]
    decreases |tape|
  {
    if tape != [] {
      var first, rest := SpanWrites(port.(gate := 0), tape[0]), ClosedWrites(port, tape[1..]);
      assert tape[0] in tape && AtPitch(tape[1..], divisor);
      if tape[0].Silence? {
        EachToneReprograms(port, tape[1..], divisor, j);
        assert first + rest == rest;
      } else {
        EachToneReprograms(port, tape[1..], divisor, if j > 0 then j - 1 else 0);
        assert |first| == 5 && (first + rest)[..5] == first;
        if 0 < j < Tones(tape) { SliceAfter(first, rest, 5 * (j - 1), 5 * j); }
      }
    }
  }

  lemma {:induction false} EmitAtPitch(ls: seq<letter>, k: Keying)
    ensures AtPitch(Emit(ls, k), k.divisor)
  {
    if ls != [] {
      EmitAtPitch(ls[1..], k);
      SymbolsAtPitch(Itu(ls[0]), k);
    }
  }

  lemma {:induction false} SymbolsAtPitch(symbols: string, k: Keying)
    ensures AtPitch(SymbolSpans(symbols, k), k.divisor)
  {
    if symbols != "" { SymbolsAtPitch(symbols[1..], k); }
  }

  /** The bus protocol of a whole transmission that finds the gate closed. */
  lemma TransmissionReprograms(s: seq<byte>, k: Keying, from: State, to: State, j: nat)
    requires from.port.gate == 0 && HasPlayed(Emit(Letters(s), k), from, to) && j < Tones(Emit(Letters(s), k))
    ensures var bus := to.bus[|from.bus|..];
            && |bus| == 5 * Tones(Emit(Letters(s), k))
            && bus[5 * j..5 * j + 5]
               == [ToGate(Port(from.port.upper, 3)), ToCommand(0xB6), ToData(k.divisor % 256),
                   ToData(k.divisor / 256 % 256), ToGate(Port(from.port.upper, 0))]
  {
    var tape := Emit(Letters(s), k);
    EmitAtPitch(Letters(s), k);
    EachToneReprograms(from.port, tape, k.divisor, j);
    assert to.bus[|from.bus|..] == Writes(from.port, tape) == ClosedWrites(from.port, tape) by {
      assert from.port.(gate := 0) == from.port;
    }
  }
}
