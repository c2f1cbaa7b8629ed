/** The non-blocking GPIO sender of Morse.cpp as pure functions over a snapshot of its
    global variables: `tx_gpio` (submit), `handle_chars` (one `watchdog` poll),
    `handle_units` (its three blocks) and `stop`.

    The clock is read once per poll: `millis()` becomes the `now` argument of Watchdog
    and TxGpio, and the comparisons inside `handle_units` use that same reading.
    `digitalWrite` becomes an entry appended to the `pin` trace. Durations are whole
    multiples of an abstract `unit` of milliseconds.
 */
module SenderModel {
  import opened MorseTable

  // Durations in units (Morse.cpp:20-24), the spacing rules of ITU-R M.1677-1 Part I.
  const DitLength: nat := 1    // DIT
  const DahLength: nat := 3    // DAH
  const ElementGap: nat := 1   // IC_SP, between the elements of one character
  const CharGap: nat := 3      // C_SP, after a character
  const WordGap: nat := 7      // W_SP, the hold of a word space

  datatype Level = Low | High

  /** One `digitalWrite(tx_pin, level)` made at clock reading `at`. */
  datatype Write = Write(level: Level, at: nat)

  /** The sender's global variables. */
  datatype State = State(
    sending: bool,        // tx_gpio_send
    txLen: nat,           // tx_len
    txStr: seq<Byte>,     // tx_str, upper-cased
    txEnc: Byte,          // tx_enc, pattern of the current character
    thisIndex: nat,       // this_index
    nextIndex: bool,      // next_index
    digraph: bool,        // digraph
    handleUnit: bool,     // handle_unit
    unitHandled: bool,    // unit_handled
    bit: nat,             // bit
    startMillis: nat,     // gpio_tx_start_millis
    currentMillis: nat,   // gpio_tx_current_millis
    unitMillis: nat,      // handle_unit_millis
    pin: seq<Write>)      // every digitalWrite so far

  /** The phases that next_index, handle_unit and unit_handled encode together. */
  datatype Phase = Stopped | AwaitingCharacter | ElementOn | GapActive | BetweenElements

  /** The state of the globals at power-up: all zero. */
  function Initial(): State
  {
    State(false, 0, [], 0, 0, false, false, false, false, 0, 0, 0, 0, [])
  }

  function IsControl(ch: Byte): bool
  {
    ch == Tilde || ch == Backtick
  }

  /** Number of timed holds a pattern makes: one per element, and one for a word space. */
  function Holds(code: Byte): nat
    requires code >= 1
  {
    if code == WordSpace then 1 else |Elements(code)|
  }

  function Duration(e: Element): nat
  {
    if e == Dah then DahLength else DitLength
  }

  /** What any poll needs: a readable current character and a clock that has not gone
      backwards since the last phase boundary. */
  predicate WellFormed(s: State)
  {
    s.txLen <= |s.txStr| && s.thisIndex <= s.txLen && s.startMillis <= s.currentMillis
  }

  predicate Idle(s: State)
  {
    !s.sending && s.thisIndex == 0 && !s.nextIndex && !s.digraph
  }

  function PhaseOf(s: State): Phase
  {
    if !s.sending then Stopped
    else if s.nextIndex then AwaitingCharacter
    else if !s.handleUnit then BetweenElements
    else if !s.unitHandled then ElementOn
    else GapActive
  }

  /** The sender is inside the character at this_index: a real character whose pattern
      is loaded, with `bit` counting the holds already finished. */
  predicate InCharacter(s: State)
  {
    && s.thisIndex < s.txLen <= |s.txStr|
    && !IsControl(s.txStr[s.thisIndex])
    && s.txEnc == Ctob(s.txStr[s.thisIndex])
    && (s.unitHandled ==> s.handleUnit)
    && match PhaseOf(s)
       case ElementOn => s.bit < Holds(s.txEnc)
       case GapActive => 1 <= s.bit <= Holds(s.txEnc)
       case BetweenElements => 1 <= s.bit < Holds(s.txEnc)
       case _ => true
  }

  /** The invariant of every reachable state. */
  predicate Inv(s: State)
  {
    && WellFormed(s)
    && s.txLen < 256
    && s.bit <= 7
    && (!s.sending ==> Idle(s))
    && (s.sending && !s.nextIndex ==> InCharacter(s))
  }

  /** `stop` (Morse.cpp:200-206). */
  function Stop(s: State): (r: State)
    ensures Idle(r)
    ensures r.(sending := s.sending, thisIndex := s.thisIndex, nextIndex := s.nextIndex,
               digraph := s.digraph) == s
  {
    s.(digraph := false, sending := false, thisIndex := 0, nextIndex := false)
  }

  /** `Morse::tx_gpio` (Morse.cpp:86-107): submit a message read at clock `now`. The
      length is stored in a `uint8_t`, so it is taken modulo 256. */
  function TxGpio(s: State, tx: seq<Byte>, now: nat): (r: State)
    ensures s.sending ==> r == s
    ensures !s.sending ==>
      && r.sending && r.nextIndex && r.thisIndex == 0
      && r.txLen == |tx| % 256 && r.txStr == UpperCase(tx)
      && r.pin == s.pin + [Write(Low, now)]
      && r.bit == s.bit && r.digraph == s.digraph
  {
    if s.sending then s
    else
      s.(pin := s.pin + [Write(Low, now)], sending := true, txLen := |tx| % 256,
         txStr := UpperCase(tx), thisIndex := 0, nextIndex := true,
         startMillis := now, currentMillis := now, unitMillis := now)
  }

  /** First block of `handle_units` (Morse.cpp:140-159): start the hold for bit `bit`
      of `c`. */
  function StartElement(s: State, c: Byte, unit: nat): State
    requires s.startMillis <= s.currentMillis
  {
    if !s.nextIndex && !s.handleUnit && !s.unitHandled && s.sending then
      var lag := s.currentMillis - s.startMillis;
      var s1 :=
        if c == WordSpace then s.(unitMillis := WordGap * unit + lag)
        else if BitRead(c, s.bit) == 1 then
          s.(unitMillis := DahLength * unit + lag, pin := s.pin + [Write(High, s.currentMillis)])
        else
          s.(unitMillis := DitLength * unit + lag, pin := s.pin + [Write(High, s.currentMillis)]);
      s1.(handleUnit := true, startMillis := s.currentMillis)
    else s
  }

  /** Second block of `handle_units` (Morse.cpp:162-176): end the hold, drive the pin
      low and schedule the gap after it. */
  function EndElement(s: State, c: Byte, unit: nat): State
    requires s.startMillis <= s.currentMillis
  {
    if s.handleUnit && !s.unitHandled && !s.nextIndex && s.sending
       && s.currentMillis - s.startMillis >= s.unitMillis
    then
      var s1 := s.(startMillis := s.currentMillis, pin := s.pin + [Write(Low, s.currentMillis)],
                   bit := s.bit + 1);
      var gap := if Shr(c, s1.bit + 1) != 0 || s1.digraph then ElementGap else CharGap;
      s1.(unitMillis := gap * unit + (s1.currentMillis - s1.startMillis), unitHandled := true)
    else s
  }

  /** Third block of `handle_units` (Morse.cpp:179-197): end the gap. */
  function EndGap(s: State, c: Byte): State
  {
    if s.unitHandled && s.sending && s.currentMillis - s.startMillis >= s.unitMillis then
      AfterGap(s.(startMillis := s.currentMillis, unitHandled := false, handleUnit := false), c)
    else s
  }

  /** Morse.cpp:185-196: after the last hold of the character move to the next one, and
      stop at the end of the message. */
  function AfterGap(s: State, c: Byte): State
  {
    var s1 := if Shr(c, s.bit + 1) == 0
              then s.(bit := 0, nextIndex := true, thisIndex := s.thisIndex + 1)
              else s;
    if s1.thisIndex == s1.txLen then Stop(s1) else s1
  }

  /** `handle_units(c)` (Morse.cpp:137-198): the three blocks in order, in one poll. */
  function HandleUnits(s: State, c: Byte, unit: nat): State
    requires s.startMillis <= s.currentMillis
  {
    EndGap(EndElement(StartElement(s, c, unit), c, unit), c)
  }

  /** The `next_index` branch of `handle_chars` (Morse.cpp:112-132): stop at the end of
      the message, or take the character at this_index. */
  function NextCharacter(s: State, unit: nat): State
    requires WellFormed(s)
  {
    if s.thisIndex == s.txLen then Stop(s)
    else
      TakeCharacter(s.(startMillis := s.currentMillis, nextIndex := false,
                       handleUnit := false, unitHandled := false), unit)
  }

  /** Morse.cpp:121-131: consume a control character, or load the character's pattern. */
  function TakeCharacter(s: State, unit: nat): State
    requires WellFormed(s) && s.thisIndex < s.txLen
  {
    var ch := s.txStr[s.thisIndex];
    if ch == Tilde then s.(thisIndex := s.thisIndex + 1, nextIndex := true)
    else if ch == Backtick then
      s.(digraph := !s.digraph, thisIndex := s.thisIndex + 1, nextIndex := true)
    else LoadCharacter(s, unit)
  }

  /** Morse.cpp:129-131: load the pattern of the character at this_index, start its first
      hold, and then set `bit` to 0. */
  function LoadCharacter(s: State, unit: nat): State
    requires WellFormed(s) && s.thisIndex < s.txLen
  {
    var c := Ctob(s.txStr[s.thisIndex]);
    HandleUnits(s.(txEnc := c), c, unit).(bit := 0)
  }

  /** `handle_chars` (Morse.cpp:109-135), run by every `Morse::watchdog` poll
      (Morse.cpp:81-84) at clock reading `now`. */
  function Watchdog(s: State, now: nat, unit: nat): State
    requires WellFormed(s) && s.currentMillis <= now
  {
    var s0 := s.(currentMillis := now);
    if s0.nextIndex then NextCharacter(s0, unit)
    else if s0.sending then HandleUnits(s0, s0.txEnc, unit)
    else s0
  }

  /** `Morse::transmitting` (Morse.cpp:58-64). */
  function Transmitting(s: State): (r: nat)
    ensures r == 1 <==> s.sending
    ensures r <= 1
  {
    if s.sending then 1 else 0
  }
}
