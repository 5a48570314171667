# flrig keyers and HID transport, verified in Dafny

A model of the stateful parts of flrig that can be proved right: the FSK (RTTY) keyer, the
CW keyer with its macro expander, the input report queue and barrier of the macOS HID
transport, and the report-descriptor walk of the Linux one.

`dafny verify dfyconfig.toml` checks everything.

| files | model |
|---|---|
| `Baudot.dfy`, `Ita2.dfy`, `Transducer.dfy`, `Line.dfy` | the five-unit code and its receivers, the standard it follows, text to codes, codes to line levels and back |
| `Fsk.dfy`, `FskRuns.dfy`, `FskControl.dfy`, `FskKeyer.dfy` | the FSK keyer as a state machine over interleaved steps, what all its runs guarantee, and the class whose methods take those steps |
| `Morse.dfy`, `MorseCodes.dfy`, `CwWave.dfy`, `CwText.dfy`, `CwKeyer.dfy` | the Morse lookup, the codes it has to give, the key-line waveform and its decoder, what is heard of a text, times, calibration, and the keyer class |
| `Loops.dfy`, `Macros.dfy`, `Expansion.dfy` | `add_cwio`: when a find-and-replace loop ends, the loops and the procedure, and the single substitution they amount to |
| `Reports.dfy`, `Barrier.dfy` | the report queue (a linked list) and the barrier protocol |
| `Descriptor.dfy` | `uses_numbered_reports` |
| `Common.dfy` | what the modules share: options, bytes, line segments, regrouping of concatenations |

How the parts are modelled:

- **FSK.** A run is any list of steps: one turn of the sending thread, text added, text cleared,
  the operator's button, and delivery of one awaited user-interface callback. A turn of the
  sending thread is one step; the idle count and stop-bit settings may differ from turn to turn.
  The history of a run is one log, and the line is a list of levels with real lengths. The
  receiver is written independently: it has its own clock, hunts for SPACE, and samples. A pause
  holds whatever level the key line is at, so what is read is stated for runs that begin with the
  line at MARK. Every frame ends there; that the serial port rests at MARK before the first one is
  an assumption.
- **CW.** Times are reals. The operator's END may be seen at any poll. A listener measures every
  merged key-down and key-up interval with an error of up to half a unit.
- **Report queue.** Events are the critical sections under the device mutex, in any order,
  including readers that sleep and wake.
- **Barrier.** Steps are the single statements of `pthread_barrier_wait` between mutex operations,
  for any number of threads. Calls are numbered in the order of their increments.
- Settings, elapsed times, the length of pauses and the order of steps are inputs.

Where code and documentation disagree, the model follows the code:

- The comment in `src/cmedia/hid_mac.cxx:464` speaks of 30 queued reports; the code keeps 32.
- `doxygen/user_src_doc/cw_keyer.txt:73` says the transceiver correction changes every key-down;
  the code changes dots and the gaps inside characters only.
- `src/cmedia/hid_lin.cxx:85` takes any prefix of 0xF0 and above for a long item; HID 1.11 section
  6.2.2.3 defines 0xFE. A Report ID item with two or four data bytes is not recognised.

Properties that turned out false, each with the condition that decides it:

- A text fed to the Morse lookup byte by byte loses a character met behind a left-over byte, which
  stays across spaces and newlines (`CwText.StreamMatches`, `CwText.HeardAsTyped`,
  `CwText.EuroSwallows`).
- With no start-up idles configured, a bracket behind a `[` is keyed as a space (`BracketStep`,
  `BracketIsKeyed`).
- The button can end up lit with the transmitter off, and the line is then keyed without
  transmitting (`StepAgrees`, `RunAgrees`, `PoweredWhenSettled`, `RacedClick`).
- Receivers that unshift on space can misread text with unencodable characters (`UnshiftOnSpace`).
- A calibration run of two minutes or more has no effect (`CalibrationCorrects`).
- A `~` can be captured by what follows it and make a new macro (`LoopsAreSubstitution`,
  `DoubleTildeDiffers`). For fields without `~` the condition is exact; with a `~` in a field the
  captured macro may happen to come out as the substitution would (`CapturedYetEqual`).
- A find-and-replace loop may go on for ever: it ends on every text if and only if the value does
  not contain the loop's own macros and does not both begin with two of its letters and end with
  `~~` (`LoopEnds`, `AllLoopsEnd`).
- A newline behind a left-over byte makes the CW keyer ask for less than `tx_length` says
  (`LateNewline`, `NewlineShortfall`).
- The barrier breaks its promise under spurious wake-ups, though not under every one: it keeps the
  promise if and only if no woken caller gets the mutex back before its round is over
  (`PromiseExactly`, `SpuriousBreaks`).

## Model

| member | source | states |
|---|---|---|
| Baudot.ScanFinds | src/fskio/fsk.cxx:226-233 | the table scan finds the first place where a character stands, letters before figures there, and misses none |
| Baudot.EncodePrints | src/fskio/fsk.cxx:216-235 | a data code is five bits, never LTRS or FIGS, and prints the upper-cased character, or a space for one in neither table |
| Baudot.CodeFacts | src/fskio/fsk.cxx:216-235 | exactly the table characters are encodable; a space code is a letter or stands for an unencodable character; a figure would print differently in letters case |
| Ita2.EncodesStandard | src/fskio/fsk.cxx:35-50 | every character but a lower-case letter is sent with its ITA2 code (US figures), written out character by character, and prints as itself; without a code it is a space in the sender's case |
| Ita2.LowerAsCapital | src/fskio/fsk.cxx:220-221 | the k-th lower-case letter is sent in letters case with the code of the k-th capital and prints as that |
| Ita2.ReadAs | src/fskio/fsk.cxx:216-235 | what is read of any character: its capital, itself, or a space |
| Ita2.KeyedStandard | src/fskio/fsk.cxx:314-329 | the codes of an idle and of a character in figures: 31, and 31 or 27 in front of a change of case |
| Transducer.InStep | src/fskio/fsk.cxx:274-278 | a receiver in the sender's case strikes the encoder's table positions and stays in the sender's case |
| Transducer.OwnCase | src/fskio/fsk.cxx:216-235 | every encodable character is sent in its own case whatever went before; spaces always in letters |
| Transducer.RoundTrip | src/fskio/fsk.cxx:311-334 | for every load of idles and characters, a receiver in the sender's case prints exactly the characters |
| Transducer.IdleResynchronises | src/fskio/fsk.cxx:314-316 | one idle in front brings a receiver in any case into step |
| Transducer.CodeCount | src/fskio/fsk.cxx:314-329 | one code for each idle and character and one for each change to the next character's case |
| Transducer.UnshiftAgrees | src/fskio/fsk.cxx:216-235 | receivers that do and do not unshift on space print alike if and only if no figure slips behind an unencodable character |
| Line.ReceiveWave | src/fskio/fsk.cxx:274-308 | for any frames and rests, either stop length and either polarity, a start-stop receiver with a clock that fits reads exactly the codes |
| Line.ClockExact | src/fskio/fsk.cxx:274-308 | the clock window from 12/13 to 12/11 of a bit is exact: code 15 is received if and only if the clock lies in it |
| Line.FrameInFigures | src/fskio/fsk.cxx:280-306 | the seven levels and times of a frame in plain figures: polarity, bit order, 22 ms bits, 33 or 44 ms stop |
| Line.AirTime | src/fskio/fsk.cxx:274-308 | the line's length is 15 or 16 half-bits a frame plus the rests |
| Fsk.RunGrows | src/fskio/fsk.cxx:311-334 | in any run from any state with the line at MARK it is driven with exactly the frames logged, whose codes are the transducer's for the run's load |
| Fsk.DataLoad | src/fskio/fsk.cxx:318-329 | the data branch sends a shift code if needed and then the character, and consumes exactly that character |
| FskRuns.EndToEnd | src/fskio/fsk.cxx:194-334 | in any run that begins with the line at MARK, levels through the receiver through the printer give exactly the data characters sent, idles invisible |
| FskRuns.TypedIsRead | src/fskio/fsk.cxx:169-192 | with start-up idles, no `]` and no clear, what is read is what was added without its `[`s, up to what still waits |
| FskRuns.RunConserves | src/fskio/fsk.cxx:169-192 | all text added is, in order, what was sent or discarded and what waits in the two buffers |
| FskRuns.NothingDiscarded | src/fskio/fsk.cxx:169-192 | in a run without `]`, waiting or added, and without a clear no text is discarded |
| FskRuns.WaitingAfter | src/fskio/fsk.cxx:169-192 | the text that waits after every kind of step: `]` discards all of it, a clear only what the thread has taken over, nothing else any |
| FskRuns.BracketStep | src/fskio/fsk.cxx:177-184 | a bracket is passed to the encoder if and only if it stands behind a `[` while no idles are configured |
| FskRuns.BracketIsKeyed | src/fskio/fsk.cxx:177-183 | a concrete state in which a bracket is keyed |
| FskRuns.NoBracketKeyed | src/fskio/fsk.cxx:177-192 | with at least one start-up idle no run keys a bracket |
| FskRuns.Resynchronises | src/fskio/fsk.cxx:169-191 | after a `[` with start-up idles, a receiver in any case prints everything keyed from there on correctly, in every interleaving |
| FskRuns.StartUpIdles | src/fskio/fsk.cxx:314-316 | at least the configured number of idles goes out between a `[` and the next character |
| FskRuns.AirTimeOfRun | src/fskio/fsk.cxx:274-334 | the time on the air of any run and its number of codes, whatever stop lengths it mixes |
| FskRuns.SteadyAirTime | src/fskio/fsk.cxx:274-334 | while the stop-bit setting is left alone, the time is 15 or 16 half-bits for each idle, character and change of case, plus the pauses |
| FskRuns.UnshiftOnSpace | src/fskio/fsk.cxx:216-235 | in any run the two kinds of receiver agree if and only if no figure slips, and always for encodable text |
| FskControl.RunAlternates | src/fskio/fsk.cxx:401-406 | in every run doPTT alternates, begins with on, and last gave the value of FSK_process |
| FskControl.FreshAlternates | src/fskio/fsk.cxx:401-406 | the same from the start, with the transmitter off |
| FskControl.FreshIsSilent | src/fskio/fsk.cxx:311-334 | until there is text or a click a fresh keyer sends nothing and calls nothing |
| FskControl.CallbackRequests | src/fskio/fsk.cxx:169-192 | exactly what a callback asks of the user interface |
| FskControl.BracketsSwitch | src/fskio/fsk.cxx:177-190 | `[` switches on, `]` off, and any other callback leaves transmitter and button alone |
| FskControl.StepAgrees | src/fskio/fsk.cxx:159-192 | exactly when button and transmit state will agree after a step |
| FskControl.RunAgrees | src/fskio/fsk.cxx:159-192 | after any run, button and transmit state agree if and only if the last click or bracket of the run was not a raced click, or did before it if there was none |
| FskControl.KeysUnpowered | src/fskio/fsk.cxx:311-332 | a callback keys the line with the transmitter off if and only if the button is on, FSK_process is not, and no bracket decides |
| FskControl.PoweredWhenSettled | src/fskio/fsk.cxx:311-332 | after any run, with no button request waiting, a callback keys the line with the transmitter off if and only if the button is on, no bracket decides and the last deciding step was a raced click |
| FskControl.UnracedIsPowered | src/fskio/fsk.cxx:311-332 | a run from the start without raced clicks never keys the line with the transmitter off |
| FskControl.RacedClick | src/fskio/fsk.cxx:461-471 | a concrete run that keys the line with the transmitter off |
| FskControl.Drains | src/fskio/fsk.cxx:311-334 | with the button on, as many callbacks as idles owed and plain characters waiting send exactly those, in order, and empty the buffers |
| FskControl.OpenSends | src/fskio/fsk.cxx:177-183 | a `[` with plain text behind it sends exactly the configured idles and then the text, with the transmitter on |
| FskControl.FreshSends | src/fskio/fsk.cxx:97-107 | a fresh keyer sends exactly the configured idles before its first text |
| FskKeyer.Keyer.FskOut | src/fskio/fsk.cxx:207-213 | the pin takes the state, reversed if configured, and nothing else changes |
| FskKeyer.Keyer.Sleep | src/fskio/fsk.cxx:332 | the line stays at its level |
| FskKeyer.Keyer.BaudotEnc | src/fskio/fsk.cxx:216-235 | the scanning loop computes the encoder |
| FskKeyer.Keyer.SendFrame | src/fskio/fsk.cxx:280-306 | drives the seven levels of the frame, in order |
| FskKeyer.Keyer.SendBaudot | src/fskio/fsk.cxx:274-308 | drives one frame and follows the shift codes |
| FskKeyer.Keyer.Sending | src/fskio/fsk.cxx:169-192 | takes the state machine's decision step |
| FskKeyer.Keyer.SendCharacter | src/fskio/fsk.cxx:318-329 | takes the data branch of the callback |
| FskKeyer.Keyer.CallbackMethod | src/fskio/fsk.cxx:311-334 | takes the state machine's callback step |
| FskKeyer.Keyer.SendText | src/fskio/fsk.cxx:401-406 | calls doPTT only on a change |
| FskKeyer.Keyer.Add | src/fskio/fsk.cxx:393-397 | appends to the text from other threads |
| FskKeyer.Keyer.ClearText | src/fskio/fsk.cxx:408-413 | empties the keyer's buffer only |
| FskKeyer.Keyer.Click | src/fskio/fsk.cxx:466-477 | the operator's button |
| FskKeyer.Keyer.Deliver | src/fskio/fsk.cxx:153-167 | delivers one awaited callback |
| Morse.TableIsWellFormed | src/cwio/morse.cxx:42-167 | for any prosign characters the table has the shape the lookup relies on |
| MorseCodes.AsciiCodes | src/cwio/morse.cxx:54-137 | every ASCII character that no prosign is configured on has its Morse code, written out character by character, and the others have none |
| MorseCodes.ProsignCodes | src/cwio/morse.cxx:42-51 | a configured character has the code of the first prosign it is configured for |
| MorseCodes.AccentCodes | src/cwio/morse.cxx:139-163 | the accented letters have theirs, and no other character that begins with 0xC3 has any |
| CwText.StreamMatches | src/cwio/morse.cxx:171-189 | for all Unicode text, the keyer keys its characters' codes and its spaces in order if and only if no coded character other than a space or newline is met behind a left-over byte |
| CwText.HeardAsTyped | src/cwio/cwio.cxx:171-217 | the same for whoever measures the key line to within half a unit, at any settings |
| CwText.TwoByteTextHeard | src/cwio/cwio.cxx:171-217 | text below U+0800 is always heard as it was typed |
| CwText.EuroSwallows | src/cwio/morse.cxx:176-178 | a euro sign, a space and a letter: the letter is never keyed |
| Morse.Cmorse.TxLookup | src/cwio/morse.cxx:171-189 | the scanning loop computes the lookup and its buffer |
| Morse.Cmorse.TxLength | src/cwio/morse.cxx:191-202 | the summing loop computes the length of the code looked up |
| Morse.Cmorse.Init | src/cwio/morse.cxx:204-215 | overwrites the prosign characters and nothing else |
| CwWave.UnitIsDot | src/cwio/cwio.cxx:171-174 | a unit is 1.2 seconds by the words a minute less the compensation, unless that leaves nothing |
| CwWave.CorrectionIsNearest | src/cwio/cwio.cxx:177-179 | the correction is the value within half a unit nearest to the configured one, and that one itself if it is within |
| CwWave.CorrectionIsKeyed | src/cwio/cwio.cxx:192-216 | a correction in range lengthens every dot and shortens every inner gap by that much, and nothing else |
| CwWave.WaveDecodes | src/cwio/cwio.cxx:171-217 | for any text and settings, whoever measures the merged line to within half a unit decodes exactly the looked-up codes and spaces |
| CwWave.ToleranceIsExact | src/cwio/cwio.cxx:171-217 | half a unit is all that can be allowed: at the largest correction a dot is heard as one if and only if it is measured less than half a unit too long |
| CwKeyer.CodeTime | src/cwio/cwio.cxx:188-217 | the time of a code is its length in units plus the correction for dots less that for inner gaps |
| CwKeyer.TextTime | src/cwio/cwio.cxx:171-217 | the time of any text is its `tx_length` with every newline counted as a space, in units, plus its correction balance |
| CwKeyer.NewlineExcess | src/cwio/cwio.cxx:181-185 | while newlines meet an empty buffer, the time is what `tx_length` says if and only if there is none, never less, and more by exactly 4 units a newline |
| CwKeyer.LateNewline | src/cwio/cwio.cxx:181-185 | behind a left-over byte a newline and a letter cost 4 units where `tx_length` counts the letter's, whatever follows |
| CwKeyer.NewlineShortfall | src/cwio/cwio.cxx:181-185 | a euro sign, a newline and any letter longer than E take less than `tx_length` says |
| CwKeyer.AsciiIsQuiet | src/cwio/morse.cxx:171-189 | newlines in ASCII text always meet an empty lookup buffer |
| CwKeyer.ParisIsKnown | src/cwio/morse.cxx:54-80 | with no prosign on its letters, the codes of PARIS are the standard ones |
| CwKeyer.MinuteTime | src/cwio/cwio.cxx:345-353 | n words of PARIS take n times 50 units and one correction |
| CwKeyer.ExactMinute | src/cwio/cwio.cxx:171-217 | with no compensation, WPM words take exactly 60 seconds and one correction a word |
| CwKeyer.CalibrationCorrects | src/cwio/cwio.cxx:336-358 | for any correction the next run asks for exactly as much less as the calibration run took more, if and only if that took less than two minutes |
| CwKeyer.KeyAlternates | src/cwio/cwio.cxx:188-217 | with END seen at any polls the key moves down and up by turns and ends up |
| CwKeyer.StopsCleanly | src/cwio/cwio.cxx:187-229 | a stop leaves the whole elements before the first poll that sees it, each held for its full length |
| CwKeyer.Keyer.CwioKey | src/cwio/cwio.cxx:134-138 | the pin takes the state, reversed if configured |
| CwKeyer.Keyer.SendElement | src/cwio/cwio.cxx:192-216 | one element and its gap |
| CwKeyer.Keyer.SendCwkey | src/cwio/cwio.cxx:145-229 | the loop does exactly the acts of the character and returns the time requested |
| CwKeyer.Keyer.SendAll | src/cwio/cwio.cxx:351-353 | keys a whole text |
| CwKeyer.Keyer.DoCalibration | src/cwio/cwio.cxx:336-358 | keys WPM words without compensation and then sets it |
| Loops.OneLess | src/cwio/cwio.cxx:600-601 | wherever a tame value is put in, exactly one replacement less remains to be made |
| Loops.FedStays | src/cwio/cwio.cxx:600-601 | a value that begins with two own letters and ends with `~~` keeps every text going that has a `~` in front of two own letters or `~~` in front of one |
| Macros.LoopEnds | src/cwio/cwio.cxx:600-601 | the loop ends on every text if and only if the value is tame |
| Macros.TameEnds | src/cwio/cwio.cxx:600-601 | with a tame value it ends after exactly as many turns as replacements remain, counted on the text before the loop |
| Macros.PassIsIterated | src/cwio/cwio.cxx:600-601 | the loop run to its end is the loop iterated that often |
| Macros.AllLoopsEnd | src/cwio/cwio.cxx:598-610 | the field loops in turn end on every text if and only if all fields are tame |
| Expansion.PassStage | src/cwio/cwio.cxx:598-639 | one loop either replaces exactly its own macros, each once, and changes neither the substitution nor the other macros, or a tilde was captured |
| Expansion.LoopsAreSubstitution | src/cwio/cwio.cxx:598-639 | for tame fields, all loops in turn are one left-to-right substitution with the first serial number and leave max(0, n + pluses - minuses), if no tilde is captured; for fields without `~`, only then |
| Expansion.SafeIsUncaptured | src/cwio/cwio.cxx:598-639 | with no tilde right in front of a macro and none in the fields nothing is captured |
| Expansion.NoDoubleTilde | src/cwio/cwio.cxx:598-639 | a text without `~~` is expanded by the single substitution |
| Expansion.MacroMeanings | src/cwio/cwio.cxx:598-639 | what each macro stands for on its own, and what it does to the serial number |
| Expansion.DoubleTildeDiffers | src/cwio/cwio.cxx:598-606 | a concrete text with `~~` for which the loops differ from the substitution |
| Expansion.CapturedYetEqual | src/cwio/cwio.cxx:598-610 | concrete fields with `~` for which a captured macro comes out as the substitution would |
| Macros.Sender.ReplaceAll | src/cwio/cwio.cxx:600-601 | the find-and-replace loop |
| Macros.Sender.SerialNumber | src/cwio/cwio.cxx:613-623 | prints, pads and cuts the serial number |
| Macros.SerialReads | src/cwio/cwio.cxx:614-617 | the text of a serial number of up to nine digits reads as that number, without leading zeros or with four digits at least |
| Macros.LongSerial | src/cwio/cwio.cxx:613 | a longer one is cut off behind its ninth digit |
| Macros.CutReadsBack | src/cwio/cwio.cxx:618-623 | cut numbers, T for 0 and N for 9 behind the first digit, read back as the number |
| Macros.Sender.ReplaceSerials | src/cwio/cwio.cxx:612-625 | the loop that replaces `~#` |
| Macros.Sender.Raise | src/cwio/cwio.cxx:626-631 | the loop that removes `~+` and counts up |
| Macros.Sender.Lower | src/cwio/cwio.cxx:632-638 | the loop that removes `~-` and counts down to zero |
| Macros.Sender.SendText | src/cwio/cwio.cxx:651-661 | starts sending only if asked to while not sending, otherwise stops |
| Macros.Sender.ExpandText | src/cwio/cwio.cxx:597-639 | runs the loops one after another |
| Macros.Sender.AddCwio | src/cwio/cwio.cxx:593-649 | expands the text and appends it; a `[` in front lights the button and starts the sending, or stops it if it was under way; without a thread nothing happens |
| Reports.RunAccounted | src/cmedia/hid_mac.cxx:432-478 | in every interleaving at most 32 reports wait, they are the last that arrived, and all before them left in order, each once, with as much handed out as fitted |
| Reports.DropsOnlyWhenFull | src/cmedia/hid_mac.cxx:464-469 | a report is dropped if and only if another arrives while 32 wait |
| Reports.NothingLost | src/cmedia/hid_mac.cxx:432-478 | while none is dropped or drained, what the reads return and what waits is exactly what arrived |
| Reports.ReadReturns | src/cmedia/hid_mac.cxx:727-794 | a read returns the first bytes of the first arrival still there if any waits, -1 exactly if disconnected or shut down, sleeps exactly for -1 or a positive timeout, and otherwise returns 0 |
| Reports.WokenReturns | src/cmedia/hid_mac.cxx:686-725 | what a reader gets each time the condition variable returns, in every case |
| Reports.RunReturns | src/cmedia/hid_mac.cxx:673-799 | in any run the bytes the reads return, in order, are those the queue gave out |
| Reports.RunFlags | src/cmedia/hid_mac.cxx:419-426 | the device counts as disconnected or shut down exactly if it was made so |
| Reports.CloseAccounted | src/cmedia/hid_mac.cxx:870-875 | closing drains everything, in order |
| Reports.Device.ReturnData | src/cmedia/hid_mac.cxx:673-684 | takes the first node off the list, which stays acyclic, and copies what fits |
| Reports.Device.Attach | src/cmedia/hid_mac.cxx:454-462 | walks to the end of the list, counts the links, and attaches the new node there |
| Reports.Device.HidReportCallback | src/cmedia/hid_mac.cxx:432-478 | appends at the end of the list and drops the first node when too many wait |
| Reports.Device.HidReadTimeout | src/cmedia/hid_mac.cxx:727-799 | the read up to where it would sleep |
| Reports.Device.WaitReturns | src/cmedia/hid_mac.cxx:686-725 | the read each time the condition variable returns |
| Reports.Device.HidClose | src/cmedia/hid_mac.cxx:870-875 | the draining loop |
| Barrier.Init | src/cmedia/hid_mac.cxx:42-60 | a count of zero is refused, any other gives a state that meets the invariant |
| Barrier.StepKeepsExactly | src/cmedia/hid_mac.cxx:69-86 | a step keeps the invariant if and only if it does not give the mutex back to a woken caller before its round is over |
| Barrier.PromiseExactly | src/cmedia/hid_mac.cxx:69-86 | at every point of a run, the holder's next statement included, nobody has returned before its round was full and all return values are right, if and only if no step of the run is such a one |
| Barrier.CountIsSleepers | src/cmedia/hid_mac.cxx:71-85 | without spurious wake-ups, `count` is the number of sleeping callers and below the trip count whenever the mutex is free |
| Barrier.ReturnsAfterRound | src/cmedia/hid_mac.cxx:71-85 | in any run without such a step no caller returns before its round is full; the one that filled it returns 1, the others 0 |
| Barrier.RoundReleases | src/cmedia/hid_mac.cxx:73-85 | in such a run, while the mutex is free, callers of an unfilled round are asleep or spuriously woken, and those of a full one are released or have returned |
| Barrier.WokenLeaves | src/cmedia/hid_mac.cxx:82-84 | a woken caller that gets the mutex leaves, and the promise is kept if and only if its round is over |
| Barrier.SpuriousBreaks | src/cmedia/hid_mac.cxx:82 | for every trip count and every sleeping caller, a spurious wake-up can make it return before its round is full |
| Barrier.HolderLeaves | src/cmedia/hid_mac.cxx:71-85 | the holder gives the mutex up within five statements |
| Barrier.Enters | src/cmedia/hid_mac.cxx:69-85 | a queued caller that gets the mutex goes to sleep, or wakes the round and returns 1 |
| Barrier.RoundCompletes | src/cmedia/hid_mac.cxx:69-86 | with the callers a round still needs, a run completes it in which everybody returns |
| Descriptor.UsesNumberedReports | src/cmedia/hid_lin.cxx:68-126 | the loop computes the walk, reads inside the descriptor only, and ends |
| Descriptor.FindsReportIds | src/cmedia/hid_lin.cxx:68-126 | for the bytes of any items, short ones with no, one, two or four data bytes and long ones, the result is 1 if and only if one is a Report ID with one byte, whatever data they hold |
| Descriptor.WalkOfAnything | src/cmedia/hid_lin.cxx:85-122 | for any bytes the result is 1 if and only if an item is a Report ID, or the one the bytes break off in begins with 0x85 |
| Descriptor.ParseIsWhole | src/cmedia/hid_lin.cxx:85-122 | any bytes are a list of items and a rest that begins with no whole item |

## Left out

- Expansion.LoopsAreSubstitution: fields with which every loop ends on every text. For those with a `~` in them the condition is sufficient only, as the result can then agree by coincidence.
- Macros.Sender.ReplaceAll: tame values, which are exactly those with which the loop ends on every text.
- Macros.Sender.ExpandText: tame fields, which are exactly those with which every loop ends on every text.
- CwKeyer.NewlineExcess: newlines that meet an empty lookup buffer. Behind a left-over byte `LateNewline` covers a newline with an ASCII letter behind it; several left-over bytes and longer characters in between are not worked out.
- Macros.Sender.AddCwio: tame fields, which are exactly those with which every loop ends on every text. The serial number is an unbounded natural number, without integer overflow.
- Descriptor.UsesNumberedReports: sizes within 258 bytes of 2^32, for which the index could wrap; the kernel's buffer holds 4096 bytes.
- Barrier.Init: counts of 2^31 and above, which become negative in the barrier, are not modelled; the code only ever uses 2.
- FskKeyer.Keyer.SendBaudot: real clocks and sleeping inaccuracies are replaced by the requested lengths; the receiver's clock tolerance is proved instead.
- FskKeyer.Keyer.CallbackMethod: one step; a text cleared or a button pressed in the middle of a turn of the sending thread is not modelled. `fsk_idles` is a natural number, as the user interface restricts it to 0 to 20.
- FskKeyer.Keyer.FskOut: the choice between the serial ports and between RTS and DTR, and a missing port or key line, with which the pin does not move.
- CwKeyer.Keyer.CwioKey: push-to-talk and a closed port, with which the pin does not move.
- CwKeyer.Keyer.SendCwkey: push-to-talk from `cwio_key` is not modelled. With `cwioINVERTED` set the two inversions cancel, so the pin moves as without it while the port rests at the other level; a key line set to none is not modelled.
- The shown transmit text: it is not kept in step with the keyer's buffer by the code and nothing is claimed about it.
- The CW thread's wake-up protocol, its push-to-talk and `sending_text`: the wait has no condition to check again, so the expected guarantees do not hold.
- The barrier is modelled on values, as threads have no counterpart here; mutex and condition variable failures are not modelled.
- Memory allocation failures and freeing in the report queue; the reader's buffer is returned as a value.
- Characters are bytes in the source; in the FSK and macro models they are characters, of which those above 255 never occur. `islower` and `toupper` are those of the C locale.
- Serial ports, HID system calls, rig control, dialogs and all other user interface code.
