/** What one poll of the sender does in each phase, the invariant every operation keeps,
    and termination of a transmission. */
module SenderProofs {
  import opened MorseTable
  import opened SenderModel

  /** After the hold that ended at bit index `b` (so `bit == b` once incremented), the
      test `c >> (bit + 1)` of Morse.cpp:168 and :186 says whether holds remain. */
  lemma MoreHolds(code: Byte, b: nat)
    requires code >= 1 && b >= 1
    ensures Shr(code, b + 1) != 0 <==> b < Holds(code)
  {
    ShrNonZero(code, b + 1);
  }

  /** Every pattern of the table makes between one and seven holds. */
  lemma HoldsOfCtob(ch: Byte)
    ensures 1 <= Holds(Ctob(ch)) <= 7
  {
    ByteHasAtMostSevenElements(Ctob(ch));
  }

  // ---------------------------------------------------------------------------------
  // The blocks of one poll, one at a time

  /** The fields a block of `handle_units` leaves alone while a character is in progress. */
  predicate SameCharacter(s: State, r: State)
  {
    && r.sending == s.sending && r.nextIndex == s.nextIndex && r.txLen == s.txLen
    && r.txStr == s.txStr && r.txEnc == s.txEnc && r.thisIndex == s.thisIndex
    && r.digraph == s.digraph
  }

  /** Inside a character, a poll hands its clock reading to `handle_units`. */
  lemma PollInCharacter(s: State, now: nat, unit: nat)
    requires WellFormed(s) && s.currentMillis <= now && s.sending && !s.nextIndex
    ensures Watchdog(s, now, unit) == HandleUnits(s.(currentMillis := now), s.txEnc, unit)
  {
  }

  /** The first block runs only between holds. */
  lemma StartElementSkips(s: State, c: Byte, unit: nat)
    requires s.startMillis <= s.currentMillis && s.handleUnit
    ensures StartElement(s, c, unit) == s
  {
  }

  lemma StartElementRuns(s: State, c: Byte, unit: nat)
    requires s.startMillis <= s.currentMillis
    requires s.sending && !s.nextIndex && !s.handleUnit && !s.unitHandled
    ensures var r := StartElement(s, c, unit);
      && SameCharacter(s, r) && r.currentMillis == s.currentMillis && r.handleUnit && !r.unitHandled && r.bit == s.bit
      && r.startMillis == s.currentMillis
      && r.unitMillis
         == (if c == WordSpace then WordGap else if BitRead(c, s.bit) == 1 then DahLength
             else DitLength) * unit + (s.currentMillis - s.startMillis)
      && r.pin == (if c == WordSpace then s.pin else s.pin + [Write(High, s.currentMillis)])
  {
  }

  /** The second block waits for the hold's time to pass. */
  lemma EndElementSkips(s: State, c: Byte, unit: nat)
    requires s.startMillis <= s.currentMillis
    requires !s.handleUnit || s.unitHandled || s.currentMillis - s.startMillis < s.unitMillis
    ensures EndElement(s, c, unit) == s
  {
  }

  lemma EndElementRuns(s: State, c: Byte, unit: nat)
    requires s.startMillis <= s.currentMillis
    requires s.sending && !s.nextIndex && s.handleUnit && !s.unitHandled
    requires s.currentMillis - s.startMillis >= s.unitMillis
    ensures var r := EndElement(s, c, unit);
      && SameCharacter(s, r) && r.currentMillis == s.currentMillis && r.handleUnit && r.unitHandled && r.bit == s.bit + 1
      && r.startMillis == s.currentMillis && r.pin == s.pin + [Write(Low, s.currentMillis)]
      && r.unitMillis
         == (if Shr(c, s.bit + 2) != 0 || s.digraph then ElementGap else CharGap) * unit
  {
  }

  /** The third block waits for the gap's time to pass. */
  lemma EndGapSkips(s: State, c: Byte)
    requires !s.unitHandled || s.currentMillis - s.startMillis < s.unitMillis
    ensures EndGap(s, c) == s
  {
  }

  /** The gap ends with holds remaining: the next hold is due at once. */
  lemma EndGapNextHold(s: State, c: Byte)
    requires s.sending && s.unitHandled && s.currentMillis - s.startMillis >= s.unitMillis
    requires Shr(c, s.bit + 1) != 0 && s.thisIndex < s.txLen
    ensures var r := EndGap(s, c);
      && SameCharacter(s, r) && r.currentMillis == s.currentMillis && !r.handleUnit && !r.unitHandled && r.bit == s.bit
      && r.startMillis == s.currentMillis && r.pin == s.pin && r.unitMillis == s.unitMillis
  {
  }

  /** The gap ends after the last hold: on to the next character, or stop. */
  lemma EndGapNextCharacter(s: State, c: Byte)
    requires s.sending && s.unitHandled && s.currentMillis - s.startMillis >= s.unitMillis
    requires Shr(c, s.bit + 1) == 0 && s.thisIndex < s.txLen
    ensures var r := EndGap(s, c);
      && r.pin == s.pin && r.currentMillis == s.currentMillis && r.txLen == s.txLen
      && r.txStr == s.txStr && r.startMillis == s.currentMillis && r.bit == 0
      && (s.thisIndex + 1 == s.txLen ==> Idle(r))
      && (s.thisIndex + 1 < s.txLen ==>
            && r.sending && r.nextIndex && r.thisIndex == s.thisIndex + 1
            && r.digraph == s.digraph)
  {
  }

  /** A state inside the character of `s` is reachable-shaped once its phase fits the
      holds of the pattern. */
  lemma InvInCharacter(s: State, r: State)
    requires Inv(s) && s.sending && !s.nextIndex && SameCharacter(s, r)
    requires r.startMillis <= r.currentMillis && r.bit <= 7 && (r.unitHandled ==> r.handleUnit)
    requires match PhaseOf(r)
             case ElementOn => r.bit < Holds(r.txEnc)
             case GapActive => 1 <= r.bit <= Holds(r.txEnc)
             case BetweenElements => 1 <= r.bit < Holds(r.txEnc)
             case _ => true
    ensures Inv(r)
  {
  }

  lemma InitialIsIdle()
    ensures Inv(Initial()) && Idle(Initial()) && PhaseOf(Initial()) == Stopped
    ensures BitClear(Initial())
  {
  }

  /** `stop` (Morse.cpp:200-206) from any reachable state returns to idle and keeps the
      invariant. */
  lemma StopKeepsInv(s: State)
    requires Inv(s)
    ensures Inv(Stop(s)) && PhaseOf(Stop(s)) == Stopped
    ensures BitClear(Stop(s)) <==> s.bit == 0
  {
  }

  /** Submitting (Morse.cpp:86-107) keeps the invariant, and keeps `bit` clear. While a
      transmission is in progress it changes nothing; otherwise it drives the pin low and
      waits for the first character, with digraph mode off. */
  lemma TxGpioKeepsInv(s: State, tx: seq<Byte>, now: nat)
    requires Inv(s)
    ensures Inv(TxGpio(s, tx, now))
    ensures BitClear(s) ==> BitClear(TxGpio(s, tx, now))
    ensures s.sending ==> TxGpio(s, tx, now) == s
    ensures !s.sending ==> var r := TxGpio(s, tx, now);
      && PhaseOf(r) == AwaitingCharacter && r.thisIndex == 0 && !r.digraph
      && r.txLen == |tx| % 256 && r.txLen <= |r.txStr| == |tx|
      && r.pin == s.pin + [Write(Low, now)]
  {
  }

  /** A poll while idle only reads the clock: nothing is sent and nothing else changes. */
  lemma IdlePoll(s: State, now: nat, unit: nat)
    requires Inv(s) && !s.sending && s.currentMillis <= now
    ensures Watchdog(s, now, unit) == s.(currentMillis := now)
  {
  }

  /** A poll waiting for a character after the last one (Morse.cpp:113-116) stops the
      sender without touching the pin. */
  lemma AwaitingEnd(s: State, now: nat, unit: nat)
    requires Inv(s) && PhaseOf(s) == AwaitingCharacter && s.currentMillis <= now
    requires s.thisIndex == s.txLen
    ensures var r := Watchdog(s, now, unit);
      Inv(r) && Idle(r) && r.pin == s.pin && r.currentMillis == now && r.txLen == s.txLen
      && r.bit == s.bit
  {
  }

  /** '~' and '`' (Morse.cpp:121-127) are consumed with no pin write: this_index moves
      on by one and the sender waits for the next character; '`' toggles digraph mode. */
  lemma AwaitingControl(s: State, now: nat, unit: nat)
    requires Inv(s) && PhaseOf(s) == AwaitingCharacter && s.currentMillis <= now
    requires s.thisIndex < s.txLen && IsControl(s.txStr[s.thisIndex])
    ensures var r := Watchdog(s, now, unit);
      && Inv(r) && r.currentMillis == now && r.txLen == s.txLen
      && PhaseOf(r) == AwaitingCharacter && r.thisIndex == s.thisIndex + 1
      && r.pin == s.pin && r.bit == s.bit
      && r.digraph == (if s.txStr[s.thisIndex] == Backtick then !s.digraph else s.digraph)
  {
  }

  /** Any other character (Morse.cpp:128-131) has its pattern loaded and its first hold
      started at once: a word space holds for seven units with the pin untouched, and a
      real character drives the pin high for a dah or a dit. The bit read is the one left
      in `bit`, which is reset to 0 only afterwards. */
  lemma AwaitingLoad(s: State, now: nat, unit: nat)
    requires Inv(s) && PhaseOf(s) == AwaitingCharacter && s.currentMillis <= now && unit >= 1
    requires s.thisIndex < s.txLen && !IsControl(s.txStr[s.thisIndex])
    ensures var r := Watchdog(s, now, unit); var c := Ctob(s.txStr[s.thisIndex]);
      && Inv(r) && r.currentMillis == now && r.txLen == s.txLen
      && PhaseOf(r) == ElementOn && r.thisIndex == s.thisIndex
      && r.txEnc == c && r.bit == 0 && r.startMillis == now
      && r.digraph == s.digraph
      && (c == WordSpace ==> r.pin == s.pin && r.unitMillis == WordGap * unit)
      && (c != WordSpace ==>
            && r.pin == s.pin + [Write(High, now)]
            && r.unitMillis == (if BitRead(c, s.bit) == 1 then DahLength else DitLength) * unit)
  {
    var c := Ctob(s.txStr[s.thisIndex]);
    HoldsOfCtob(s.txStr[s.thisIndex]);
    var s2 := s.(currentMillis := now, startMillis := now, nextIndex := false,
                 handleUnit := false, unitHandled := false, txEnc := c);
    StartElementRuns(s2, c, unit);
    var e := StartElement(s2, c, unit);
    EndElementSkips(e, c, unit);
    EndGapSkips(e, c);
  }

  /** Whenever no character is in progress, `bit` is 0, so the next character's first
      hold reads element 0. Submitting and polling keep this; it holds at power-up, and
      `stop` keeps it exactly when `bit` is already 0 (see StopKeepsInv, TxGpioKeepsInv,
      WatchdogKeepsInv). */
  predicate BitClear(s: State)
  {
    !s.sending || s.nextIndex ==> s.bit == 0
  }

  /** With `bit` clear, the first hold of a loaded character (Morse.cpp:129-131,
      140-158) is its first element, for that element's duration. */
  lemma LoadFirstElement(s: State, now: nat, unit: nat)
    requires Inv(s) && PhaseOf(s) == AwaitingCharacter && s.currentMillis <= now && unit >= 1
    requires s.thisIndex < s.txLen && !IsControl(s.txStr[s.thisIndex])
    requires BitClear(s) && Ctob(s.txStr[s.thisIndex]) != WordSpace
    ensures var r := Watchdog(s, now, unit); var c := Ctob(s.txStr[s.thisIndex]);
      && |Elements(c)| >= 1 && r.pin == s.pin + [Write(High, now)]
      && r.unitMillis == Duration(Elements(c)[0]) * unit
  {
    var c := Ctob(s.txStr[s.thisIndex]);
    AwaitingLoad(s, now, unit);
    HoldsOfCtob(s.txStr[s.thisIndex]);
    BitReadIsElement(c, 0);
  }

  /** `bit` survives `stop` and `tx_gpio`, and the first hold of a character is read at
      that bit before it is reset (Morse.cpp:129-131). So "T" (a single dah) starts with
      a dah only when `bit` is 0 or 1; after `tx_stop` has cut off a longer character
      past its second element, it starts with a dit hold instead. */
  lemma StaleBitAtLoad(s: State, now: nat, unit: nat)
    requires Inv(s) && s.currentMillis <= now && unit >= 1
    ensures var r := Watchdog(TxGpio(Stop(s), [84], now), now, unit);
      && PhaseOf(r) == ElementOn && r.txEnc == Ctob(84) && Elements(Ctob(84)) == [Dah]
      && r.unitMillis == (if s.bit <= 1 then DahLength else DitLength) * unit
  {
    StopKeepsInv(s);
    var t := TxGpio(Stop(s), [84], now);
    TxGpioKeepsInv(Stop(s), [84], now);
    assert t.txStr == [84];
    AwaitingLoad(t, now, unit);
    ShrNonZero(3, s.bit);
    assert Elements(3) == [Dah] + Elements(1);
  }

  /** A poll between two holds of a character (Morse.cpp:140-159): the next element
      starts at once, a dah for a 1 bit and a dit for a 0 bit, with the pin high. The
      bit read lies below the end marker, so it is the element of the pattern. */
  lemma BetweenPoll(s: State, now: nat, unit: nat)
    requires Inv(s) && PhaseOf(s) == BetweenElements && s.currentMillis <= now && unit >= 1
    ensures s.txEnc != WordSpace && s.bit < |Elements(s.txEnc)|
    ensures var r := Watchdog(s, now, unit);
      && Inv(r) && r.currentMillis == now && r.txLen == s.txLen && r.txEnc == s.txEnc && PhaseOf(r) == ElementOn
      && r.thisIndex == s.thisIndex && r.bit == s.bit && r.startMillis == now
      && r.pin == s.pin + [Write(High, now)]
      && r.unitMillis == Duration(Elements(s.txEnc)[s.bit]) * unit + (now - s.startMillis)
  {
    BitReadIsElement(s.txEnc, s.bit);
  }

  /** A poll while an element is on, before its time has passed, changes nothing but
      the clock reading. */
  lemma ElementOnWaits(s: State, now: nat, unit: nat)
    requires Inv(s) && PhaseOf(s) == ElementOn && s.currentMillis <= now && unit >= 1
    requires now - s.startMillis < s.unitMillis
    ensures Watchdog(s, now, unit) == s.(currentMillis := now)
  {
  }

  /** A poll once an element's time has passed (Morse.cpp:162-176): the pin goes low,
      `bit` moves on, and the gap is one unit if holds remain or digraph mode is on,
      three units otherwise (so also after a word space and after the last character
      of the message). */
  lemma ElementOnEnds(s: State, now: nat, unit: nat)
    requires Inv(s) && PhaseOf(s) == ElementOn && s.currentMillis <= now && unit >= 1
    requires now - s.startMillis >= s.unitMillis
    ensures var r := Watchdog(s, now, unit);
      && Inv(r) && r.currentMillis == now && r.txLen == s.txLen && r.txEnc == s.txEnc && PhaseOf(r) == GapActive && r.thisIndex == s.thisIndex
      && r.bit == s.bit + 1 && r.startMillis == now
      && r.pin == s.pin + [Write(Low, now)]
      && r.unitMillis
         == (if r.bit < Holds(s.txEnc) || s.digraph then ElementGap else CharGap) * unit
  {
    var s0 := s.(currentMillis := now);
    PollInCharacter(s, now, unit);
    StartElementSkips(s0, s.txEnc, unit);
    EndElementRuns(s0, s.txEnc, unit);
    var e := EndElement(s0, s.txEnc, unit);
    EndGapSkips(e, s.txEnc);
    MoreHolds(s.txEnc, s.bit + 1);
    HoldsOfCtob(s.txStr[s.thisIndex]);
    InvInCharacter(s, e);
  }

  /** A poll during a gap (Morse.cpp:179-196): once its time has passed, either the next
      hold of the character follows, or, after the last hold, `bit` returns to 0 and
      this_index advances by one, stopping at the end of the message. The pin is not
      touched. */
  lemma GapPoll(s: State, now: nat, unit: nat)
    requires Inv(s) && PhaseOf(s) == GapActive && s.currentMillis <= now && unit >= 1
    ensures var r := Watchdog(s, now, unit);
      && Inv(r) && r.currentMillis == now && r.txLen == s.txLen && r.txEnc == s.txEnc && r.pin == s.pin
      && (now - s.startMillis < s.unitMillis ==> r == s.(currentMillis := now))
      && (now - s.startMillis >= s.unitMillis && s.bit < Holds(s.txEnc) ==>
            PhaseOf(r) == BetweenElements && r.thisIndex == s.thisIndex && r.bit == s.bit
            && r.startMillis == now)
      && (now - s.startMillis >= s.unitMillis && s.bit == Holds(s.txEnc) ==>
            && r.bit == 0
            && (s.thisIndex + 1 == s.txLen ==> Idle(r))
            && (s.thisIndex + 1 < s.txLen ==>
                  PhaseOf(r) == AwaitingCharacter && r.thisIndex == s.thisIndex + 1
                  && r.digraph == s.digraph))
  {
    MoreHolds(s.txEnc, s.bit);
  }

  /** Every poll keeps the invariant; in particular this_index never passes tx_len and
      `bit` never passes the end marker of the loaded pattern. this_index moves by at
      most one per poll, only forward, and only at a character boundary: whenever it
      moves, the sender is waiting for the next character or has stopped. A poll also
      keeps `bit` clear. */
  lemma WatchdogKeepsInv(s: State, now: nat, unit: nat)
    requires Inv(s) && s.currentMillis <= now && unit >= 1
    ensures var r := Watchdog(s, now, unit);
      && Inv(r) && r.currentMillis == now
      && (r.thisIndex == s.thisIndex
          || (r.thisIndex == s.thisIndex + 1 && PhaseOf(r) == AwaitingCharacter)
          || Idle(r))
      && (BitClear(s) ==> BitClear(r))
  {
    match PhaseOf(s)
    case Stopped => IdlePoll(s, now, unit);
    case AwaitingCharacter =>
      if s.thisIndex == s.txLen {
        AwaitingEnd(s, now, unit);
      } else if IsControl(s.txStr[s.thisIndex]) {
        AwaitingControl(s, now, unit);
      } else {
        AwaitingLoad(s, now, unit);
      }
    case BetweenElements => BetweenPoll(s, now, unit);
    case ElementOn =>
      if now - s.startMillis < s.unitMillis {
        ElementOnWaits(s, now, unit);
      } else {
        ElementOnEnds(s, now, unit);
      }
    case GapActive => GapPoll(s, now, unit);
  }

  // ---------------------------------------------------------------------------------
  // Termination

  /** Polls that remain at most, counted per phase: each character is worth 32, the
      holds and gaps inside it fewer. */
  function Rank(s: State): nat
    requires Inv(s)
  {
    if !s.sending then 0
    else
      var inChar :=
        match PhaseOf(s)
        case ElementOn => 3 * (Holds(s.txEnc) - s.bit) - 1
        case GapActive => 3 * (Holds(s.txEnc) - s.bit) + 1
        case BetweenElements => 3 * (Holds(s.txEnc) - s.bit)
        case _ => 31;
      (s.txLen - s.thisIndex) * 32 + inChar
  }

  /** Milliseconds until the current hold or gap may end, at clock reading `now`. */
  function Wait(s: State, now: nat): nat
  {
    if s.sending && !s.nextIndex && s.handleUnit && s.startMillis + s.unitMillis > now
    then s.startMillis + s.unitMillis - now
    else 0
  }

  /** Every poll of a transmitting sender either moves to a later phase or, while a
      hold or gap has time left, brings its end closer. */
  lemma {:induction false} PollProgresses(s: State, now: nat, later: nat, unit: nat)
    requires Inv(s) && s.sending && s.currentMillis <= now < later && unit >= 1
    ensures Inv(Watchdog(s, now, unit))
    ensures var r := Watchdog(s, now, unit);
      Rank(r) < Rank(s) || (Rank(r) == Rank(s) && Wait(r, later) < Wait(s, now))
  {
    match PhaseOf(s)
    case AwaitingCharacter =>
      if s.thisIndex == s.txLen {
        AwaitingEnd(s, now, unit);
      } else if IsControl(s.txStr[s.thisIndex]) {
        AwaitingControl(s, now, unit);
      } else {
        AwaitingLoad(s, now, unit);
        HoldsOfCtob(s.txStr[s.thisIndex]);
      }
    case BetweenElements => BetweenPoll(s, now, unit);
    case ElementOn =>
      if now - s.startMillis < s.unitMillis {
        ElementOnWaits(s, now, unit);
      } else {
        ElementOnEnds(s, now, unit);
      }
    case GapActive => GapPoll(s, now, unit);
  }

  ghost predicate Increasing(times: nat -> nat)
  {
    forall k: nat :: times(k) < times(k + 1)
  }

  /** The state after `n` polls made at clock readings times(k), times(k+1), ... */
  ghost function Run(s: State, times: nat -> nat, k: nat, n: nat, unit: nat): (r: State)
    requires Inv(s) && s.currentMillis <= times(k) && Increasing(times) && unit >= 1
    ensures Inv(r)
    decreases n
  {
    if n == 0 then s
    else
      WatchdogKeepsInv(s, times(k), unit);
      Run(Watchdog(s, times(k), unit), times, k + 1, n - 1, unit)
  }

  /** Termination: polled at strictly increasing clock readings, a sender stops after
      finitely many polls, whatever the message. */
  lemma EventuallyStops(s: State, times: nat -> nat, unit: nat)
    requires Inv(s) && s.currentMillis <= times(0) && Increasing(times) && unit >= 1
    ensures exists n :: !Run(s, times, 0, n, unit).sending
  {
    StopsFrom(s, times, 0, unit);
  }

  lemma {:induction false} StopsFrom(s: State, times: nat -> nat, k: nat, unit: nat)
    requires Inv(s) && s.currentMillis <= times(k) && Increasing(times) && unit >= 1
    ensures exists n :: !Run(s, times, k, n, unit).sending
    decreases Rank(s), Wait(s, times(k))
  {
    if !s.sending {
      assert !Run(s, times, k, 0, unit).sending;
    } else {
      assert times(k) < times(k + 1);
      PollProgresses(s, times(k), times(k + 1), unit);
      WatchdogKeepsInv(s, times(k), unit);
      var r := Watchdog(s, times(k), unit);
      StopsFrom(r, times, k + 1, unit);
      var n :| !Run(r, times, k + 1, n, unit).sending;
      RunUnfolds(s, times, k, n, unit);
    }
  }

  lemma RunUnfolds(s: State, times: nat -> nat, k: nat, n: nat, unit: nat)
    requires Inv(s) && s.currentMillis <= times(k) && Increasing(times) && unit >= 1
    ensures Inv(Watchdog(s, times(k), unit))
    ensures Watchdog(s, times(k), unit).currentMillis <= times(k + 1)
    ensures Run(s, times, k, n + 1, unit) == Run(Watchdog(s, times(k), unit), times, k + 1, n, unit)
  {
    WatchdogKeepsInv(s, times(k), unit);
    assert times(k) < times(k + 1);
  }
}
