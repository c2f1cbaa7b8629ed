/** The `Morse` object of Morse.cpp with the sender's globals as its fields. Every
    method updates them step by step as the C code does, and is proved to compute the
    state that the functions of SenderModel describe; `Valid` is the invariant proved
    there, kept by every public method. */
module MorseSender {
  import opened MorseTable
  import M = SenderModel
  import P = SenderProofs

  class Morse {
    const unit: nat               // unit_t, in milliseconds
    var sending: bool             // tx_gpio_send
    var txLen: nat                // tx_len
    var txStr: seq<Byte>          // tx_str
    var txEnc: Byte               // tx_enc
    var thisIndex: nat            // this_index
    var nextIndex: bool           // next_index
    var digraph: bool             // digraph
    var handleUnit: bool          // handle_unit
    var unitHandled: bool         // unit_handled
    var bit: nat                  // bit
    var startMillis: nat          // gpio_tx_start_millis
    var currentMillis: nat        // gpio_tx_current_millis
    var unitMillis: nat           // handle_unit_millis
    var pin: seq<M.Write>         // the digitalWrite calls made on tx_pin so far

    /** The globals as one value. */
    function Snapshot(): M.State
      reads this
    {
      M.State(sending, txLen, txStr, txEnc, thisIndex, nextIndex, digraph, handleUnit,
              unitHandled, bit, startMillis, currentMillis, unitMillis, pin)
    }

    ghost predicate Valid()
      reads this
    {
      M.Inv(Snapshot()) && unit >= 1
    }

    /** `Morse::Morse` and `Morse::init` (Morse.cpp:45-74): the globals start at zero and
        the unit length is fixed once. */
    constructor(unit: nat)
      requires unit >= 1
      ensures Valid() && this.unit == unit
      ensures Snapshot() == M.Initial() && !sending
    {
      this.unit := unit;
      sending, txLen, txStr, txEnc, thisIndex := false, 0, [], 0, 0;
      nextIndex, digraph, handleUnit, unitHandled, bit := false, false, false, false, 0;
      startMillis, currentMillis, unitMillis, pin := 0, 0, 0, [];
      new;
      P.InitialIsIdle();
    }

    /** `Morse::transmitting` (Morse.cpp:58-64). */
    method Transmitting() returns (r: nat)
      ensures r == M.Transmitting(Snapshot())
      ensures r == 1 <==> sending
      ensures r <= 1
    {
      if sending {
        return 1;
      }
      return 0;
    }

    /** `Morse::tx_stop` (Morse.cpp:76-79). */
    method TxStop()
      requires Valid()
      modifies this
      ensures Valid() && M.Idle(Snapshot())
      ensures Snapshot() == M.Stop(old(Snapshot()))
    {
      P.StopKeepsInv(Snapshot());
      Stop();
    }

    /** `Morse::watchdog` (Morse.cpp:81-84), polled at clock reading `now`. */
    method Watchdog(now: nat)
      requires Valid() && currentMillis <= now
      modifies this
      ensures Valid() && currentMillis == now
      ensures Snapshot() == M.Watchdog(old(Snapshot()), now, unit)
    {
      P.WatchdogKeepsInv(Snapshot(), now, unit);
      HandleChars(now);
    }

    /** `Morse::tx_gpio` (Morse.cpp:86-107): submit `tx`, read at clock `now`; nothing
        happens while a transmission is in progress. */
    method TxGpio(tx: seq<Byte>, now: nat)
      requires Valid()
      modifies this
      ensures Valid()
      ensures Snapshot() == M.TxGpio(old(Snapshot()), tx, now)
    {
      P.TxGpioKeepsInv(Snapshot(), tx, now);
      if sending {
        return;
      }
      Begin(tx, now);
    }

    /** Morse.cpp:93-106: drive the pin low and take the message. */
    method Begin(tx: seq<Byte>, now: nat)
      requires !sending
      modifies this
      ensures Snapshot() == M.TxGpio(old(Snapshot()), tx, now)
    {
      DigitalWrite(M.Low, now);
      sending := true;
      txLen := |tx| % 256;
      txStr := UpperCase(tx);
      thisIndex := 0;
      nextIndex := true;
      StartClock(now);
    }

    /** Morse.cpp:104-106: all three timestamps take the same clock reading. */
    method StartClock(now: nat)
      modifies this
      ensures Snapshot()
              == old(Snapshot()).(startMillis := now, currentMillis := now, unitMillis := now)
    {
      startMillis := now;
      currentMillis := now;
      unitMillis := now;
    }

    /** `handle_chars` (Morse.cpp:109-135). */
    method HandleChars(now: nat)
      requires M.WellFormed(Snapshot()) && currentMillis <= now
      modifies this
      ensures Snapshot() == M.Watchdog(old(Snapshot()), now, unit)
    {
      currentMillis := now;
      if nextIndex {
        NextCharacter();
      } else if sending {
        HandleUnits(txEnc);
      }
    }

    /** The `next_index` branch of `handle_chars` (Morse.cpp:112-132). */
    method NextCharacter()
      requires M.WellFormed(Snapshot())
      modifies this
      ensures Snapshot() == M.NextCharacter(old(Snapshot()), unit)
    {
      if thisIndex == txLen {
        Stop();
        return;
      }
      startMillis := currentMillis;
      nextIndex := false;
      handleUnit := false;
      unitHandled := false;
      TakeCharacter();
    }

    /** Morse.cpp:121-131. */
    method TakeCharacter()
      requires M.WellFormed(Snapshot()) && thisIndex < txLen
      modifies this
      ensures Snapshot() == M.TakeCharacter(old(Snapshot()), unit)
    {
      if txStr[thisIndex] == Tilde {
        thisIndex := thisIndex + 1;
        nextIndex := true;
      } else if txStr[thisIndex] == Backtick {
        digraph := !digraph;
        thisIndex := thisIndex + 1;
        nextIndex := true;
      } else {
        LoadCharacter();
      }
    }

    /** Morse.cpp:129-131. */
    method LoadCharacter()
      requires M.WellFormed(Snapshot()) && thisIndex < txLen
      modifies this
      ensures Snapshot() == M.LoadCharacter(old(Snapshot()), unit)
    {
      txEnc := Ctob(txStr[thisIndex]);
      HandleUnits(txEnc);
      bit := 0;
    }

    /** `handle_units(c)` (Morse.cpp:137-198): its three blocks run in turn. */
    method HandleUnits(c: Byte)
      requires startMillis <= currentMillis
      modifies this
      ensures Snapshot() == M.HandleUnits(old(Snapshot()), c, unit)
    {
      StartElement(c);
      EndElement(c);
      EndGap(c);
    }

    /** The first block of `handle_units` (Morse.cpp:139-159): start a hold. */
    method StartElement(c: Byte)
      requires startMillis <= currentMillis
      modifies this
      ensures startMillis <= currentMillis
      ensures Snapshot() == M.StartElement(old(Snapshot()), c, unit)
    {
      if !nextIndex && !handleUnit && !unitHandled && sending {
        if c == WordSpace {
          unitMillis := M.WordGap * unit + (currentMillis - startMillis);
        } else if BitRead(c, bit) == 1 {
          unitMillis := M.DahLength * unit + (currentMillis - startMillis);
          DigitalWrite(M.High, currentMillis);
        } else {
          unitMillis := M.DitLength * unit + (currentMillis - startMillis);
          DigitalWrite(M.High, currentMillis);
        }
        handleUnit := true;
        startMillis := currentMillis;
      }
    }

    /** The second block of `handle_units` (Morse.cpp:161-176): end a hold. */
    method EndElement(c: Byte)
      requires startMillis <= currentMillis
      modifies this
      ensures startMillis <= currentMillis
      ensures Snapshot() == M.EndElement(old(Snapshot()), c, unit)
    {
      if handleUnit && !unitHandled && !nextIndex && sending
         && currentMillis - startMillis >= unitMillis
      {
        startMillis := currentMillis;
        DigitalWrite(M.Low, currentMillis);
        bit := bit + 1;
        if Shr(c, bit + 1) != 0 || digraph {
          unitMillis := M.ElementGap * unit + (currentMillis - startMillis);
        } else {
          unitMillis := M.CharGap * unit + (currentMillis - startMillis);
        }
        unitHandled := true;
      }
    }

    /** The third block of `handle_units` (Morse.cpp:178-197): end a gap. */
    method EndGap(c: Byte)
      modifies this
      ensures Snapshot() == M.EndGap(old(Snapshot()), c)
    {
      if unitHandled && sending && currentMillis - startMillis >= unitMillis {
        startMillis := currentMillis;
        unitHandled := false;
        handleUnit := false;
        AfterGap(c);
      }
    }

    /** Morse.cpp:185-196. */
    method AfterGap(c: Byte)
      modifies this
      ensures Snapshot() == M.AfterGap(old(Snapshot()), c)
    {
      if Shr(c, bit + 1) == 0 {
        bit := 0;
        nextIndex := true;
        thisIndex := thisIndex + 1;
      }
      if thisIndex == txLen {
        Stop();
        return;
      }
    }

    /** `stop` (Morse.cpp:200-206). */
    method Stop()
      modifies this
      ensures Snapshot() == M.Stop(old(Snapshot()))
    {
      digraph := false;
      sending := false;
      thisIndex := 0;
      nextIndex := false;
    }

    /** `digitalWrite(tx_pin, level)` at clock reading `at`, recorded in the trace. */
    method DigitalWrite(level: M.Level, at: nat)
      modifies this
      ensures Snapshot() == old(Snapshot()).(pin := old(pin) + [M.Write(level, at)])
    {
      pin := pin + [M.Write(level, at)];
    }
  }
}
