/** The FSK class of `src/fskio/fsk.cxx` with the globals it shares with the user
    interface.  Each method is proved to take the step of the state machine in
    `Fsk`; the properties of all runs are proved there and in `FskRuns`. */
module FskKeyer {
  import opened Common
  import opened Baudot
  import opened Line
  import F = Fsk
  import T = Transducer

  lemma SevenSegs(w: seq<Seg>, a: Seg, b: Seg, c: Seg, d: Seg, e: Seg, f: Seg, g: Seg)
    ensures w + [a] + [b] + [c] + [d] + [e] + [f] + [g] == w + [a, b, c, d, e, f, g]
  {
  }

  class Keyer {
    var newText: string
    var buff: string
    var shiftState: Case
    var idles: nat
    var process: bool
    var button: bool
    var awake: seq<F.Awake>
    var ptt: seq<bool>
    const inverted: bool
    var pin: bool
    var wave: seq<Seg>
    ghost var log: seq<F.Entry>

    ghost function Abs(): F.State
      reads this
    {
      F.State(newText, buff, shiftState, idles, process, button, awake, ptt, inverted, pin, wave, log)
    }

    constructor (setting: nat, inverted: bool)
      ensures Abs() == F.Init(setting, inverted)
    {
      this.inverted := inverted;
      newText, buff, shiftState, idles := "", "", Figures, setting;
      process, button, awake, ptt := false, false, [], [];
      pin, wave, log := Pin(MARK, inverted), [], [];
    }

    method FskOut(state: bool)
      modifies this`pin
      ensures pin == Pin(state, inverted)
    {
      var level := state;
      if inverted { level := !level; }
      pin := level;
    }

    /** The thread sleeps and the line stays at its level. */
    method Sleep(span: real)
      modifies this`wave
      ensures wave == old(wave) + [Seg(pin, span)]
    {
      wave := wave + [Seg(pin, span)];
    }

    method Hold(state: bool, span: real)
      modifies this`pin, this`wave
      ensures pin == Pin(state, inverted) && wave == old(wave) + [Seg(pin, span)]
    {
      FskOut(state);
      Sleep(span);
    }

    /** The table scan. */
    method BaudotEnc(data: char) returns (code: Code)
      ensures code == Encode(data, shiftState)
    {
      var c := data;
      if 'a' <= c <= 'z' { c := (c as int - 'a' as int + 'A' as int) as char; }
      if c == ' ' { return Code(Letters, SPACE_BITS); }
      for i := 0 to 32
        invariant Scan(c, 0) == Scan(c, i)
      {
        if c == LETTERS_TABLE[i] { return Code(Letters, i); }
        if c == FIGURES_TABLE[i] { return Code(Figures, i); }
      }
      return Code(shiftState, SPACE_BITS);
    }

    /** The seven levels of a frame. */
    method SendFrame(bits: nat, short: bool)
      modifies this`pin, this`wave
      ensures pin == Pin(MARK, inverted) && wave == old(wave) + FrameSegs(bits, short, inverted)
    {
      ghost var f := FrameSegs(bits, short, inverted);
      Hold(SPACE, BITLEN);
      Hold(DataState(bits, 0), BITLEN);
      Hold(DataState(bits, 1), BITLEN);
      Hold(DataState(bits, 2), BITLEN);
      Hold(DataState(bits, 3), BITLEN);
      Hold(DataState(bits, 4), BITLEN);
      Hold(MARK, StopSpan(short));
      SevenSegs(old(wave), f[0], f[1], f[2], f[3], f[4], f[5], f[6]);
    }

    method SendBaudot(ghost kind: F.Kind, bits: nat, short: bool)
      modifies this`shiftState, this`pin, this`wave, this`log
      ensures Abs() == F.SendBaudot(old(Abs()), kind, bits, short)
    {
      if bits == LTRS { shiftState := Letters; }
      else if bits == FIGS { shiftState := Figures; }
      SendFrame(bits, short);
      log := log + [F.Sent(kind, bits, short)];
    }

    method SendText(on: bool)
      modifies this`process, this`ptt
      ensures Abs() == F.SendText(old(Abs()), on)
    {
      if process == on { return; }
      process := on;
      ptt := ptt + [process];
    }

    method Sending(setting: nat) returns (sending: bool)
      modifies this
      ensures Abs() == F.Sending(old(Abs()), setting).0 && sending == F.Sending(old(Abs()), setting).1
    {
      if newText != "" {
        buff := buff + newText;
        newText := "";
      }
      assert Abs() == F.Merge(old(Abs()));
      if buff != "" && buff[0] == '[' {
        buff := buff[1..];
        Request(F.ButtonOn);
        SendText(true);
        idles := setting;
        log := log + [F.Opened];
        return true;
      } else if buff != "" && buff[0] == ']' {
        log := log + [F.Stopped(buff)];
        buff := "";
        Request(F.ButtonOff);
        SendText(false);
        return false;
      }
      return button;
    }

    /** Asks for the text and the button to be refreshed. */
    method Request(button: F.Awake)
      modifies this`awake
      ensures awake == old(awake) + [F.ShowText, button]
    {
      awake := awake + [F.ShowText];
      awake := awake + [button];
    }

    /** The data branch of the callback. */
    method SendCharacter(short: bool)
      requires buff != ""
      modifies this
      ensures Abs() == F.BranchStep(old(Abs()), F.Keying(old(buff[0])), short, 0.0)
    {
      var chrOut := BaudotEnc(buff[0]);
      KeyCode(chrOut, short);
    }

    method KeyCode(chrOut: Code, short: bool)
      requires buff != ""
      modifies this
      ensures var s := old(Abs());
        Abs() == F.SendCode(s.(buff := s.buff[1..], awake := s.awake + [F.ShowText]), s.buff[0], chrOut, short)
    {
      ghost var c := buff[0];
      if chrOut.shift != shiftState { ShiftTo(chrOut.shift, short); }
      buff := buff[1..];
      awake := awake + [F.ShowText];
      SendBaudot(F.Data(c), chrOut.bits, short);
    }

    method ShiftTo(shift: Case, short: bool)
      modifies this`shiftState, this`pin, this`wave, this`log
      ensures Abs() == F.SendBaudot(old(Abs()).(shift := shift), F.Shift, T.ShiftCode(shift), short)
    {
      shiftState := shift;
      if shiftState == Letters {
        SendBaudot(F.Shift, LTRS, short);
      } else {
        SendBaudot(F.Shift, FIGS, short);
      }
    }

    /** One turn of the sending thread. */
    method CallbackMethod(setting: nat, short: bool, pause: real)
      modifies this
      ensures Abs() == F.Step(old(Abs()), F.Callback(setting, short, pause))
    {
      var sending := Sending(setting);
      if sending {
        if buff == "" || idles > 0 {
          SendIdle(short);
        } else {
          SendCharacter(short);
        }
      } else {
        Sleep(pause);
        log := log + [F.Paused(pause)];
      }
    }

    /** The idle branch of the callback. */
    method SendIdle(short: bool)
      modifies this
      ensures Abs() == F.BranchStep(old(Abs()), F.Idling, short, 0.0)
    {
      SendBaudot(F.Idle, LTRS, short);
      if idles > 0 { idles := idles - 1; }
    }

    method Add(text: string)
      modifies this`newText
      ensures Abs() == F.Step(old(Abs()), F.Add(text))
    {
      newText := newText + text;
    }

    method ClearText()
      modifies this`buff, this`log
      ensures Abs() == F.Step(old(Abs()), F.Clear)
    {
      log := log + [F.Cleared(buff)];
      buff := "";
    }

    /** The operator's Xmt/Rcv button, Alt-S and Alt-P. */
    method Click(on: bool)
      modifies this`button, this`process, this`ptt
      ensures Abs() == F.Step(old(Abs()), F.Click(on))
    {
      button := on;
      SendText(on);
    }

    /** The user interface thread takes one awaited callback off the queue. */
    method Deliver()
      modifies this`awake, this`button
      ensures Abs() == F.Step(old(Abs()), F.Deliver)
    {
      if awake != [] {
        if awake[0] == F.ButtonOn { button := true; }
        else if awake[0] == F.ButtonOff { button := false; }
        awake := awake[1..];
      }
    }
  }
}
