/** The pomodoro countdown: a 25-minute timer ticking once a second, with a
    start/pause button and a reset button. */
module Pomodoro {
  import opened Text

  /** What the time label shows: a time, or that the countdown finished.
      The label's text is `LabelText` of it. */
  datatype Label = Clock(minutes: nat, seconds: nat) | Over

  /** The widget's state: the time left, whether the timer runs, the time
      label and the start button's text. */
  datatype State = State(minutes: nat, seconds: nat, running: bool, display: Label, buttonText: string)

  /** `{minutes:02}:{seconds:02}`. */
  function Format(minutes: nat, seconds: nat): (s: string)
    ensures minutes < 100 && seconds < 100 ==> |s| == 5 && s[2] == ':'
  {
    Pad2(minutes) + ":" + Pad2(seconds)
  }

  /** Reading the two numbers back off a shown time label. */
  lemma FormatRoundTrip(minutes: nat, seconds: nat)
    requires minutes < 100 && seconds < 100
    ensures var s := Format(minutes, seconds);
            IsDigits(s[..2]) && IsDigits(s[3..]) && ParseNat(s[..2]) == minutes && ParseNat(s[3..]) == seconds
  {
    var s := Format(minutes, seconds);
    assert s[..2] == Pad2(minutes);
    assert s[3..] == Pad2(seconds);
  }

  const Finished := "Bitti!"
  const Start := "Başlat"
  const Resume := "Devam"
  const Pause := "Durdur"

  /** The text the label widget displays. */
  function LabelText(l: Label): (s: string)
    ensures l.Clock? ==> s == Format(l.minutes, l.seconds)
    ensures l == Over ==> s == Finished
  {
    match l
    case Clock(m, sec) => Format(m, sec)
    case Over => Finished
  }

  /** A label showing a time in range and one showing the end never have the
      same text, and two times in range have the same text only when they are
      the same time. */
  lemma LabelTextDistinct(a: Label, b: Label)
    requires a.Clock? ==> a.minutes < 100 && a.seconds < 100
    requires b.Clock? ==> b.minutes < 100 && b.seconds < 100
    ensures LabelText(a) == LabelText(b) <==> a == b
  {
    if a.Clock? && b.Clock? && LabelText(a) == LabelText(b) {
      FormatRoundTrip(a.minutes, a.seconds);
      FormatRoundTrip(b.minutes, b.seconds);
    } else if a.Clock? && b == Over {
      assert |LabelText(a)| != |LabelText(b)|;
    } else if a == Over && b.Clock? {
      assert |LabelText(a)| != |LabelText(b)|;
    }
  }

  /** The state a new widget shows: 25:00, stopped. */
  function Initial(): (st: State)
    ensures st.minutes == 25 && st.seconds == 0 && !st.running
    ensures st.display == Clock(25, 0) && st.buttonText == Start
  {
    State(25, 0, false, Clock(25, 0), Start)
  }

  /** Seconds in 0..59 and minutes in 0..25. */
  predicate InRange(st: State) {
    st.minutes <= 25 && st.seconds <= 59
  }

  /** The label shows the time left, except once the countdown has finished. */
  predicate Shows(st: State) {
    st.display == Clock(st.minutes, st.seconds)
    || (st.minutes == 0 && st.seconds == 0 && st.display == Over)
  }

  predicate Valid(st: State) {
    InRange(st) && Shows(st)
  }

  /** The time left, in seconds. */
  function Remaining(st: State): nat {
    st.minutes * 60 + st.seconds
  }

  /** `update_timer`: one second off, borrowing a minute at `m:00`; at 00:00
      the timer stops and shows that it has finished. */
  function Tick(st: State): (r: State)
    ensures Remaining(st) > 0 ==>
              Remaining(r) == Remaining(st) - 1 && r.running == st.running && r.buttonText == st.buttonText
              && r.display == Clock(r.minutes, r.seconds)
    ensures Remaining(st) == 0 ==>
              r.minutes == 0 && r.seconds == 0 && !r.running && r.display == Over && r.buttonText == Start
    ensures InRange(st) ==> InRange(r)
  {
    if st.seconds == 0 then
      if st.minutes == 0 then st.(running := false, display := Over, buttonText := Start)
      else
        var m := st.minutes - 1;
        State(m, 59, st.running, Clock(m, 59), st.buttonText)
    else
      var sec := st.seconds - 1;
      State(st.minutes, sec, st.running, Clock(st.minutes, sec), st.buttonText)
  }

  /** `toggle_timer`: flips the running flag; the button offers the other
      action. The time and its label are unchanged. */
  function Toggle(st: State): (r: State)
    ensures r.running == !st.running
    ensures r.minutes == st.minutes && r.seconds == st.seconds && r.display == st.display
    ensures r.buttonText == if st.running then Resume else Pause
    ensures Valid(st) ==> Valid(r)
  {
    st.(running := !st.running, buttonText := if st.running then Resume else Pause)
  }

  /** `reset_timer`: back to 25:00, stopped, from any state. */
  function Reset(st: State): (r: State)
    ensures r == Initial() && Valid(r)
  {
    Initial()
  }

  /** `n` timer ticks in a row. */
  function Ticks(st: State, n: nat): State
    decreases n
  {
    if n == 0 then st else Tick(Ticks(st, n - 1))
  }

  /** Each tick takes exactly one second off until 00:00, where the time
      stays. */
  lemma {:induction false} Countdown(st: State, n: nat)
    ensures Remaining(Ticks(st, n)) == if n <= Remaining(st) then Remaining(st) - n else 0
    decreases n
  {
    if n > 0 {
      Countdown(st, n - 1);
    }
  }

  /** The ranges hold throughout the countdown. */
  lemma {:induction false} CountdownInRange(st: State, n: nat)
    requires InRange(st)
    ensures InRange(Ticks(st, n))
    decreases n
  {
    if n > 0 {
      CountdownInRange(st, n - 1);
    }
  }

  /** Before the time runs out the timer keeps running, the button keeps its
      text, and the label shows the time left. */
  lemma {:induction false} CountdownShows(st: State, n: nat)
    requires 0 < n <= Remaining(st)
    ensures var end := Ticks(st, n);
            end.running == st.running && end.buttonText == st.buttonText && end.display == Clock(end.minutes, end.seconds)
    decreases n
  {
    Countdown(st, n - 1);
    if n > 1 {
      CountdownShows(st, n - 1);
    }
  }

  /** A tick keeps the ranges and a label that shows the time left or that
      the countdown finished. */
  lemma TickValid(st: State)
    requires Valid(st)
    ensures Valid(Tick(st))
  {
  }

  /** As many ticks as there are seconds left reach 00:00 without
      stopping the timer. */
  lemma RunsOut(st: State)
    requires InRange(st) && Remaining(st) > 0
    ensures var end := Ticks(st, Remaining(st));
            end.minutes == 0 && end.seconds == 0 && end.running == st.running && end.buttonText == st.buttonText
            && end.display == Clock(0, 0)
  {
    Countdown(st, Remaining(st));
    CountdownInRange(st, Remaining(st));
    CountdownShows(st, Remaining(st));
  }

  /** A new widget's label reads "25:00" and shows its time. */
  lemma InitialValid()
    ensures Valid(Initial()) && Remaining(Initial()) == 25 * 60
    ensures LabelText(Initial().display) == "25:00"
  {
    assert Pad2(25) == "25" && Pad2(0) == "00";
  }

  /** From 25:00 with the timer running, `25 * 60` ticks reach a label
      reading "00:00" with the timer still running, and the next tick stops
      it and shows "Bitti!". */
  lemma FullSession(st: State)
    requires st.minutes == 25 && st.seconds == 0 && st.running
    ensures Remaining(st) == 25 * 60
    ensures var end := Ticks(st, Remaining(st));
            end.minutes == 0 && end.seconds == 0 && end.running && LabelText(end.display) == "00:00"
            && Tick(end) == end.(running := false, display := Over, buttonText := Start)
            && LabelText(Tick(end).display) == "Bitti!"
  {
    RunsOut(st);
    assert Format(0, 0) == "00:00" by {
      assert Pad2(0) == "00";
    }
  }

  /** The widget itself; `display` is what `lbl_time` shows. */
  class PomodoroWidget {
    var minutes: nat
    var seconds: nat
    var isRunning: bool
    var display: Label
    var buttonText: string

    function Current(): State
      reads this
    {
      State(minutes, seconds, isRunning, display, buttonText)
    }

    constructor ()
      ensures Current() == Initial()
    {
      minutes, seconds, isRunning := 25, 0, false;
      display, buttonText := Clock(25, 0), Start;
    }

    method ToggleTimer()
      modifies this
      ensures Current() == Toggle(old(Current()))
    {
      if isRunning {
        buttonText := Resume;
      } else {
        buttonText := Pause;
      }
      isRunning := !isRunning;
    }

    method UpdateTimer()
      modifies this
      ensures Current() == Tick(old(Current()))
    {
      if seconds == 0 {
        if minutes == 0 {
          isRunning := false;
          display := Over;
          buttonText := Start;
          return;
        } else {
          minutes := minutes - 1;
          seconds := 59;
        }
      } else {
        seconds := seconds - 1;
      }
      display := Clock(minutes, seconds);
    }

    method ResetTimer()
      modifies this
      ensures Current() == Reset(old(Current()))
    {
      isRunning := false;
      minutes, seconds := 25, 0;
      display := Clock(25, 0);
      buttonText := Start;
    }
  }
}
