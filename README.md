# Morse transmitter of ESP32-Morse-Code, in Dafny

This project models the transmitter in `Morse.cpp`. It has two parts.

- **The code table `ctob`.** It maps an upper-case ASCII byte to an 8-bit pattern.
  - The bits are read from bit 0 upward: 0 is a dit and 1 is a dah.
  - The highest set bit is an end marker.
  - The pattern 1 stands for the word space.
  - An unlisted byte gets `0b11000000` ("......-").
- **The non-blocking GPIO sender.** `tx_gpio` submits a message.
  - Each `watchdog` poll runs `handle_chars`, which hands the current character to `handle_units`.
  - `handle_units` runs three blocks in turn: start a hold (pin high), end it (pin low, schedule a gap), end the gap.
  - `stop` returns the sender to idle.

Files:

- `morse_table.dfy` (module `MorseTable`):
  - `Ctob` and the decoding of a pattern into its elements (`Elements`), with its inverse `Encode`.
  - An independent reference chart, `Canonical`. It holds the signs of Recommendation ITU-R M.1677-1 Part I written as dots and dashes, plus the amateur signs for `! $ & ; _`.
  - The proof that the table sends exactly the chart's signs.
- `sender_model.dfy` (module `SenderModel`):
  - The sender's globals as one value, `State`.
  - Each C function, and each block of `handle_units`, as a pure function over `State`.
  - The phase automaton encoded by `next_index`, `handle_unit` and `unit_handled` (`PhaseOf`).
  - The invariant `Inv`.
- `sender_proofs.dfy` (module `SenderProofs`):
  - What one poll does in each phase.
  - The invariant is kept by every operation.
  - `this_index` moves by at most one step per poll.
  - `bit` is 0 whenever no character is in progress, except after `stop` mid-character.
  - Termination: a sender polled at increasing clock readings stops.
- `morse.dfy` (module `MorseSender`):
  - Class `Morse`, whose fields are the globals.
  - Its methods update them step by step, as the C code does.
  - Each method is proved to produce the state the matching `SenderModel` function describes.
  - Each public method keeps `Valid()`, which is `SenderModel.Inv`.

Conventions:

- The clock is read once per poll and becomes the `now` argument.
- `digitalWrite(tx_pin, level)` becomes an entry `Write(level, at)` appended to the trace `pin`.
- Durations are whole multiples of an abstract unit of milliseconds, `unit >= 1`.
- `tx_len` is a `uint8_t`, so it is modelled as `|tx| % 256`. Only that many bytes of a longer message are sent.

Behaviour modelled as written:

- `bit` is not reset by `stop` or `tx_gpio`.
- On loading a character, `handle_chars` calls `handle_units` before it sets `bit = 0` (Morse.cpp:129-131). The first hold of the character is therefore read at whatever bit index was left behind.
- While no character is in progress, `bit` is 0 (`SenderProofs.BitClear`). This holds at power-up, and every submit and every poll keep it. Under it, `SenderProofs.LoadFirstElement` shows that the first hold of a character is its element 0.
- `stop` keeps `BitClear` only when `bit` is already 0, so after `tx_stop` in the middle of a character the index can be stale. `SenderProofs.StaleBitAtLoad` shows that "T" then starts with a dit hold when the stale index is 2 or more; at index 1 it still starts with a dah.

## Model

| member | source | states |
|---|---|---|
| MorseTable.Ctob | Morse.cpp:208-272 | the table is total and never returns 0; it returns the word-space marker 1 exactly for the space character |
| MorseTable.CtobMatchesCanonical | Morse.cpp:212-269 | every byte the reference chart gives a sign is sent as exactly the elements of that sign |
| MorseTable.NotFoundSign | Morse.cpp:271 | every byte other than space that has no sign in the chart maps to 0b11000000, which sends six dits and a dah |
| MorseTable.LowerCaseLetter | Morse.cpp:98 | a lower-case letter has no entry of its own; once upper-cased it has a real entry of the chart |
| MorseTable.CtobExamples | Morse.cpp:242-261 | 'E' is ".", 'T' is "-", 'A' is ".-" and 'B' is "-..." |
| MorseTable.ByteHasAtMostSevenElements | Morse.cpp:208-272 | below the end marker a pattern byte holds at most seven elements |
| MorseTable.ElementsOfEncode | Morse.cpp:208-272 | decoding the encoding of any element sequence gives it back |
| MorseTable.EncodeOfElements | Morse.cpp:208-272 | encoding the decoding of any pattern gives it back: the end-marker convention loses nothing |
| MorseTable.EncodeRange | Morse.cpp:208-272 | a pattern of k elements lies in [2^k, 2^(k+1)): its end marker is its highest set bit |
| MorseTable.ShrNonZero | Morse.cpp:168 | `c >> j` is non-zero exactly while j has not passed the end marker |
| MorseTable.BitReadIsElement | Morse.cpp:145 | below the end marker, `bitRead(c, j)` is 1 exactly when element j is a dah |
| MorseTable.MarkerIsSet | Morse.cpp:208-272 | the bit at the end-marker position is set |
| MorseTable.SignCodeIsEncode | Morse.cpp:208-272 | the pattern computed from a sign's text is the encoding of that sign's elements |
| MorseTable.UpperCase | Morse.cpp:98 | upper-casing keeps the length and maps every byte through ASCII upper-casing |
| SenderModel.Stop | Morse.cpp:200-206 | stop leaves the sender idle and changes only digraph, sending, this_index and next_index |
| SenderModel.TxGpio | Morse.cpp:86-107 | a submit while sending changes nothing; otherwise it drives the pin low, sets sending, this_index = 0 and next_index, and stores the length modulo 256 and the upper-cased text |
| SenderModel.Initial | Morse.cpp:32-40 | the zero-initialised globals; SenderProofs.InitialIsIdle states that they are idle, satisfy the invariant and have bit clear |
| SenderModel.Watchdog | Morse.cpp:109-135 | one poll, as `watchdog` runs `handle_chars`; its properties are stated by SenderProofs.WatchdogKeepsInv, PollProgresses and EventuallyStops, and per phase by IdlePoll, AwaitingEnd, AwaitingControl, AwaitingLoad, LoadFirstElement, BetweenPoll, ElementOnWaits, ElementOnEnds and GapPoll |
| SenderModel.NextCharacter | Morse.cpp:112-132 | the next_index branch of a poll; stated by SenderProofs.AwaitingEnd, AwaitingControl and AwaitingLoad |
| SenderModel.TakeCharacter | Morse.cpp:121-131 | consume '~' or '`', or load the character; stated by SenderProofs.AwaitingControl and AwaitingLoad |
| SenderModel.LoadCharacter | Morse.cpp:129-131 | load the pattern, start its first hold, then set bit to 0; stated by SenderProofs.AwaitingLoad, LoadFirstElement and StaleBitAtLoad |
| SenderModel.HandleUnits | Morse.cpp:137-198 | the three blocks in order within one poll; stated by SenderProofs.PollInCharacter, BetweenPoll, ElementOnWaits, ElementOnEnds and GapPoll |
| SenderModel.StartElement | Morse.cpp:140-159 | the first block; stated by SenderProofs.StartElementSkips and StartElementRuns |
| SenderModel.EndElement | Morse.cpp:162-176 | the second block; stated by SenderProofs.EndElementSkips and EndElementRuns |
| SenderModel.EndGap | Morse.cpp:179-184 | the third block; stated by SenderProofs.EndGapSkips, EndGapNextHold and EndGapNextCharacter |
| SenderModel.AfterGap | Morse.cpp:185-196 | the end of the third block: next character or stop; stated by SenderProofs.EndGapNextHold and EndGapNextCharacter |
| SenderModel.Transmitting | Morse.cpp:58-64 | transmitting reports 1 exactly when sending is set, and 0 otherwise |
| SenderProofs.MoreHolds | Morse.cpp:168 | after the hold at index b, `c >> (b + 1)` is non-zero exactly when holds remain |
| SenderProofs.HoldsOfCtob | Morse.cpp:208-272 | every pattern of the table makes between one and seven holds |
| SenderProofs.PollInCharacter | Morse.cpp:133-134 | inside a character a poll runs handle_units on the loaded pattern |
| SenderProofs.StartElementSkips | Morse.cpp:140 | the first block does nothing while a hold is on |
| SenderProofs.StartElementRuns | Morse.cpp:140-159 | the first block schedules W_SP, DAH or DIT units (plus the poll lag), writes HIGH except for the word space, and leaves the character fields alone |
| SenderProofs.EndElementSkips | Morse.cpp:162-163 | the second block does nothing before the hold's time has passed |
| SenderProofs.EndElementRuns | Morse.cpp:162-176 | the second block writes LOW, increments bit, and schedules IC_SP if elements remain or digraph is on, C_SP otherwise |
| SenderProofs.EndGapSkips | Morse.cpp:179-180 | the third block does nothing before the gap's time has passed |
| SenderProofs.EndGapNextHold | Morse.cpp:179-190 | a gap that ends with elements remaining re-arms the next hold and keeps bit and this_index |
| SenderProofs.EndGapNextCharacter | Morse.cpp:179-196 | a gap that ends after the last element resets bit to 0, advances this_index by one and stops at the end of the message, with no pin write |
| SenderProofs.InvInCharacter | Morse.cpp:137-198 | a state inside the current character whose phase fits the pattern's holds satisfies the invariant |
| SenderProofs.InitialIsIdle | Morse.cpp:32-40 | the zeroed globals are idle, satisfy the invariant and have bit clear |
| SenderProofs.StopKeepsInv | Morse.cpp:200-206 | stop from any reachable state keeps the invariant and reaches the stopped phase; it leaves bit clear exactly when bit is already 0 |
| SenderProofs.TxGpioKeepsInv | Morse.cpp:86-107 | submit keeps the invariant and keeps bit clear; a fresh submit waits for character 0 with digraph off and the pin written low |
| SenderProofs.IdlePoll | Morse.cpp:109-135 | a poll while idle sends nothing and changes nothing but the clock reading |
| SenderProofs.AwaitingEnd | Morse.cpp:112-116 | a poll after the last character stops the sender without touching the pin or bit |
| SenderProofs.AwaitingControl | Morse.cpp:121-127 | '~' and '`' are consumed with no pin write, advance this_index by exactly one and re-arm next_index; '`' toggles digraph |
| SenderProofs.AwaitingLoad | Morse.cpp:128-158 | any other character has its pattern loaded and its first hold started in the same poll: W_SP with no write for the word space, otherwise HIGH for DAH or DIT by the bit read; bit is 0 afterwards |
| SenderProofs.LoadFirstElement | Morse.cpp:128-158 | with bit clear, the first hold of a loaded character (other than a word space) is its element 0, with the pin high, for that element's duration |
| SenderProofs.StaleBitAtLoad | Morse.cpp:129-131 | bit survives stop and submit, so "T" starts with a dah hold only when bit is 0 or 1 |
| SenderProofs.BetweenPoll | Morse.cpp:140-159 | between holds a poll starts the next element of the pattern at once, with the pin high, for that element's duration |
| SenderProofs.ElementOnWaits | Morse.cpp:162-163 | before a hold's time has passed a poll changes nothing but the clock reading |
| SenderProofs.ElementOnEnds | Morse.cpp:162-176 | a hold that has run its time ends with the pin low and bit + 1; the gap is IC_SP while holds remain or digraph is on, C_SP otherwise, also after a space and after the last character |
| SenderProofs.GapPoll | Morse.cpp:179-196 | a gap waits out its time, then either re-arms the next hold or resets bit to 0, advances this_index by one and stops at the end of the message |
| SenderProofs.WatchdogKeepsInv | Morse.cpp:109-198 | every poll keeps the invariant (this_index never passes tx_len and bit stays within the loaded pattern's holds) and keeps bit clear; it leaves this_index alone, advances it by exactly one at a character boundary, or stops |
| SenderProofs.PollProgresses | Morse.cpp:109-198 | every poll of a transmitting sender moves to a later phase or brings the end of the current hold or gap closer |
| SenderProofs.EventuallyStops | Morse.cpp:109-206 | polled at strictly increasing clock readings, a sender stops after finitely many polls, whatever the message |
| MorseSender.Morse.constructor | Morse.cpp:32-74 | a new sender is idle with all globals zero and the given unit length |
| MorseSender.Morse.Transmitting | Morse.cpp:58-64 | reports 1 exactly when sending, the value SenderModel.Transmitting gives for the current state |
| MorseSender.Morse.TxStop | Morse.cpp:76-79 | tx_stop leaves the object valid and idle, in the state SenderModel.Stop describes |
| MorseSender.Morse.Watchdog | Morse.cpp:81-84 | a poll keeps the object valid and reaches the state SenderModel.Watchdog describes |
| MorseSender.Morse.TxGpio | Morse.cpp:86-107 | submit keeps the object valid and reaches the state SenderModel.TxGpio describes |
| MorseSender.Morse.Begin | Morse.cpp:92-106 | the field updates of a fresh submit give the state SenderModel.TxGpio describes |
| MorseSender.Morse.StartClock | Morse.cpp:104-106 | the three timestamps take the same clock reading and nothing else changes |
| MorseSender.Morse.HandleChars | Morse.cpp:109-135 | handle_chars reaches the state SenderModel.Watchdog describes |
| MorseSender.Morse.NextCharacter | Morse.cpp:112-132 | the next_index branch reaches the state SenderModel.NextCharacter describes |
| MorseSender.Morse.TakeCharacter | Morse.cpp:121-131 | control characters and loads reach the state SenderModel.TakeCharacter describes |
| MorseSender.Morse.LoadCharacter | Morse.cpp:129-131 | loading a pattern reaches the state SenderModel.LoadCharacter describes |
| MorseSender.Morse.HandleUnits | Morse.cpp:137-198 | handle_units reaches the state SenderModel.HandleUnits describes |
| MorseSender.Morse.StartElement | Morse.cpp:140-159 | the first block reaches the state SenderModel.StartElement describes |
| MorseSender.Morse.EndElement | Morse.cpp:162-176 | the second block reaches the state SenderModel.EndElement describes |
| MorseSender.Morse.EndGap | Morse.cpp:179-184 | the third block reaches the state SenderModel.EndGap describes |
| MorseSender.Morse.AfterGap | Morse.cpp:185-196 | the end of a gap reaches the state SenderModel.AfterGap describes |
| MorseSender.Morse.Stop | Morse.cpp:200-206 | stop reaches the state SenderModel.Stop describes |
| MorseSender.Morse.DigitalWrite | Morse.cpp:149 | a pin write appends one entry to the trace and changes nothing else |

## Left out

- `millis()` is read once per poll and passed in as `now`. The C code calls `millis()` again in the second and third blocks of `handle_units` (Morse.cpp:163, 180). The model compares against that same reading, `gpio_tx_current_millis`. A clock that advances during one poll is not modelled.
- The 32-bit wrap-around of `unsigned long` milliseconds is not modelled. Time is an unbounded natural number that never goes backwards.
- The floating-point unit `unit_t = 60 / (50 * wpm) * 1000` (Morse.cpp:73), its products with DIT, DAH, IC_SP, C_SP and W_SP, and the truncation of those products to `unsigned long` are not modelled. `unit` is an abstract whole number of milliseconds, at least 1, so every duration is an exact multiple of it.
- `digitalWrite` is hardware. It is modelled as a trace of writes, and the level of the physical pin is not modelled.
- `wpm`, `tx_pin`, `rx_pin` and the `volatile` qualifiers are not modelled: they carry no sender logic.
- Arduino `String` storage is modelled as a sequence of bytes. `toUpperCase` is modelled as the ASCII map of bytes a-z.
- Morse.h is not part of this model. It only declares the class, and the DAC methods it names have no definition.
- The C globals are shared by every `Morse` object. In the model, each object owns its own copy.
- The C functions `tx_gpio` (`Begin`, `StartClock`), `handle_chars` (`NextCharacter`, `TakeCharacter`, `LoadCharacter`) and `handle_units` (`StartElement`, `EndElement`, `EndGap`, `AfterGap`) are split into small methods. Together they perform the same assignments in the same order.
