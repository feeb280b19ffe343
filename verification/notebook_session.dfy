/**
 The state logic of a notebook session: the Pomodoro timer and its `mm:ss`
 display, the stored difficulty and its labels, the session-phase label, the
 submit guard, loading messages from stored rows, the rendering of bullet
 lines, and the rotation of study tips.

 Browser storage is a string in, a string out; the one-second interval is an
 explicit `Tick`; the database query is its result.
 */
module NotebookSession {
  import opened Text

  // ---------------------------------------------------------------------------
  // Timer display

  /**
   `formatTime`: whole minutes and leftover seconds, each padded to at least
   two digits. For a non-negative time the display reads back as that time.
   */
  function FormatTime(seconds: int): (r: string)
    ensures seconds >= 0 ==> ParseClock(r) == Some(seconds)
  {
    var mins := seconds / 60;           // Math.floor: Dafny's division rounds down for a positive divisor
    var secs := Rem(seconds, 60);       // JavaScript's %
    var r := PadStart(IntToString(mins), 2, '0') + ":" + PadStart(IntToString(secs), 2, '0');
    if seconds >= 0 then
      assert r == ClockText(seconds / 60, seconds % 60);
      ClockTextReadsBack(seconds);
      r
    else r
  }

  /**
   Reads a clock display back into seconds: a minutes numeral, a colon and a
   seconds numeral below 60. Since the seconds field is below a minute, the two
   fields are the quotient and remainder of the total by 60.
   */
  function ParseClock(t: string): (r: Option<nat>)
    ensures r.Some? ==> ':' in t
    ensures r.Some? ==> ParseNat(t[..IndexOf(t, ':')]) == Some(r.value / 60)
    ensures r.Some? ==> ParseNat(t[IndexOf(t, ':') + 1..]) == Some(r.value % 60)
  {
    if ':' in t then
      var k := IndexOf(t, ':');
      match (ParseNat(t[..k]), ParseNat(t[k + 1..]))
      case (Some(m), Some(s)) =>
        if s < 60 then
          MinutesAndSeconds(m, s);
          Some(60 * m + s)
        else None
      case _ => None
    else None
  }

  /** `60 * m + s` with `s` below 60 splits back into `m` and `s`. */
  lemma MinutesAndSeconds(m: nat, s: nat)
    requires s < 60
    ensures (60 * m + s) / 60 == m && (60 * m + s) % 60 == s
  {
  }

  /** A numeral padded with zeros keeps every digit, holds no colon, and reads back as the number. */
  lemma PaddedNumeral(n: nat, width: int)
    ensures var p := PadStart(NatToString(n), width, '0');
      |p| == Max(|NatToString(n)|, width) && ':' !in p && ParseNat(p) == Some(n)
  {
    PadZerosValue(n, width);
    assert AllDigits(PadStart(NatToString(n), width, '0'));
  }

  /** Seconds below a minute take at most two digits, so padding them to two gives exactly two. */
  lemma SecondsTwoDigits(s: nat)
    requires s < 60
    ensures |PadStart(NatToString(s), 2, '0')| == 2
  {
    if s >= 10 {
      assert NatToString(s) == NatToString(s / 10) + [DigitChar(s % 10)];
    }
  }

  lemma ColonSplit(m: string, s: string)
    requires |s| == 2
    ensures var r := m + ":" + s;
      |r| == |m| + 3 && r[|r| - 3] == ':' && r[..|r| - 3] == m && r[|r| - 2..] == s
  {
    var r := m + ":" + s;
    assert r[..|r| - 3] == m;
    assert r[|r| - 2..] == s;
  }

  /** Any colon-free minutes field and two-character seconds field read back through the colon. */
  lemma ClockReads(m: string, s: string, mins: nat, secs: nat, total: nat)
    requires |s| == 2 && ':' !in m
    requires ParseNat(m) == Some(mins) && ParseNat(s) == Some(secs) && secs < 60
    requires total == 60 * mins + secs
    ensures ParseClock(m + ":" + s) == Some(total)
  {
    ColonSplit(m, s);
    var r := m + ":" + s;
    IndexOfFirst(r, ':', |m|);
    assert r[|m| + 1..] == s;
  }

  /** The display of a whole number of minutes and seconds. */
  function ClockText(mins: nat, secs: nat): string
  {
    PadStart(NatToString(mins), 2, '0') + ":" + PadStart(NatToString(secs), 2, '0')
  }

  lemma FormatTimeNat(seconds: nat)
    ensures FormatTime(seconds) == ClockText(seconds / 60, seconds % 60)
  {
  }

  /** A clock display's fields sit on either side of the colon three places from the end. */
  lemma ClockFields(r: string, m: string, s: string, mins: nat, secs: nat)
    requires r == m + ":" + s
    requires |s| == 2 && ParseNat(m) == Some(mins) && ParseNat(s) == Some(secs)
    ensures |r| == |m| + 3 && r[|r| - 3] == ':'
    ensures ParseNat(r[..|r| - 3]) == Some(mins) && ParseNat(r[|r| - 2..]) == Some(secs)
  {
    ColonSplit(m, s);
  }

  lemma {:induction false} ClockTextShape(mins: nat, secs: nat)
    requires secs < 60
    ensures var r := ClockText(mins, secs);
      && |r| == Max(2, |NatToString(mins)|) + 3 && r[|r| - 3] == ':'
      && ParseNat(r[..|r| - 3]) == Some(mins) && ParseNat(r[|r| - 2..]) == Some(secs)
  {
    var m := PadStart(NatToString(mins), 2, '0');
    var s := PadStart(NatToString(secs), 2, '0');
    assert ParseNat(m) == Some(mins) && |m| == Max(2, |NatToString(mins)|) by {
      PaddedNumeral(mins, 2);
    }
    assert ParseNat(s) == Some(secs) && |s| == 2 by {
      PaddedNumeral(secs, 2);
      SecondsTwoDigits(secs);
    }
    assert ClockText(mins, secs) == m + ":" + s;
    ClockFields(ClockText(mins, secs), m, s, mins, secs);
  }

  lemma {:induction false} ClockTextReads(mins: nat, secs: nat, total: nat)
    requires secs < 60 && total == 60 * mins + secs
    ensures ParseClock(ClockText(mins, secs)) == Some(total)
  {
    var m := PadStart(NatToString(mins), 2, '0');
    var s := PadStart(NatToString(secs), 2, '0');
    PaddedNumeral(mins, 2);
    PaddedNumeral(secs, 2);
    SecondsTwoDigits(secs);
    ClockReads(m, s, mins, secs, total);
    assert ClockText(mins, secs) == m + ":" + s;
  }

  /**
   For a non-negative time the display is never cut off: the minute count in
   full, padded to two digits, a colon, then exactly two digits holding the
   seconds left over after the whole minutes, always below 60.
   */
  lemma {:induction false} FormatTimeShape(seconds: nat)
    ensures var r := FormatTime(seconds);
      && |r| == Max(2, |NatToString(seconds / 60)|) + 3 && r[|r| - 3] == ':'
      && ParseNat(r[..|r| - 3]) == Some(seconds / 60)
      && ParseNat(r[|r| - 2..]) == Some(seconds % 60)
  {
    var mins, secs := seconds / 60, seconds % 60;
    assert FormatTime(seconds) == ClockText(mins, secs) by {
      FormatTimeNat(seconds);
    }
    ClockTextShape(mins, secs);
  }

  /** The display of a split time reads back to the time it was split from. */
  lemma {:induction false} ClockTextReadsBack(seconds: nat)
    ensures ParseClock(ClockText(seconds / 60, seconds % 60)) == Some(seconds)
  {
    ClockTextReads(seconds / 60, seconds % 60, seconds);
  }

  /** A seconds field of a minute or more is not a clock reading. */
  lemma SecondsFieldBelowMinute()
    ensures ParseClock("00:75") == None
  {
    var t := "00:75";
    IndexOfFirst(t, ':', 2);
    assert t[3..] == "75";
    assert DecimalValue("7") == 7 by {
      assert "7"[..0] == "";
    }
    assert "75"[..1] == "7";
    assert ParseNat("75") == Some(75);
  }

  // ---------------------------------------------------------------------------
  // The Pomodoro timer

  const FocusSeconds: int := 25 * 60

  datatype Timer = Timer(timeLeft: int, running: bool, sessions: int)

  const InitialTimer: Timer := Timer(FocusSeconds, false, 0)

  /** One second of the interval. It only runs while the timer runs and has time left. */
  function Tick(t: Timer): (r: Timer)
    ensures !(t.running && t.timeLeft > 0) ==> r == t
    ensures t.running && t.timeLeft > 1 ==> r == t.(timeLeft := t.timeLeft - 1)
    ensures t.running && t.timeLeft == 1 ==> r == Timer(FocusSeconds, false, t.sessions + 1)
  {
    if t.running && t.timeLeft > 0 then
      if t.timeLeft <= 1 then Timer(FocusSeconds, false, t.sessions + 1)
      else t.(timeLeft := t.timeLeft - 1)
    else t
  }

  function TickN(t: Timer, n: nat): Timer
    decreases n
  {
    if n == 0 then t else TickN(Tick(t), n - 1)
  }

  /** `resetTimer`: stopped, a full session on the clock, sessions kept. */
  function ResetTimer(t: Timer): (r: Timer)
    ensures !r.running && r.timeLeft == FocusSeconds && r.sessions == t.sessions
  {
    t.(running := false, timeLeft := FocusSeconds)
  }

  /** `toggleTimer`: flips running and nothing else. */
  function ToggleTimer(t: Timer): (r: Timer)
    ensures r.running == !t.running && r.timeLeft == t.timeLeft && r.sessions == t.sessions
  {
    t.(running := !t.running)
  }

  predicate ValidTimer(t: Timer)
  {
    0 < t.timeLeft <= FocusSeconds && t.sessions >= 0
  }

  /** Every timer operation keeps the time left within one session and the session count non-negative. */
  lemma TimerStaysValid(t: Timer)
    requires ValidTimer(t)
    ensures ValidTimer(Tick(t)) && ValidTimer(ResetTimer(t)) && ValidTimer(ToggleTimer(t))
  {
  }

  /**
   A running timer counts down one second per tick, and the tick that would
   reach zero instead stops it, puts a full session back on the clock and
   completes one session.
   */
  lemma {:induction false} CountdownCompletes(t: Timer, k: nat)
    requires t.running && 1 <= t.timeLeft
    ensures k < t.timeLeft ==> TickN(t, k) == t.(timeLeft := t.timeLeft - k)
    ensures k == t.timeLeft ==> TickN(t, k) == Timer(FocusSeconds, false, t.sessions + 1)
    decreases k
  {
    if k > 0 && t.timeLeft > 1 {
      CountdownCompletes(Tick(t), k - 1);
    }
  }

  /** A stopped timer ignores the clock. */
  lemma {:induction false} StoppedTimerIdle(t: Timer, k: nat)
    requires !t.running
    ensures TickN(t, k) == t
    decreases k
  {
    if k > 0 {
      StoppedTimerIdle(t, k - 1);
    }
  }

  /** The label under the timer: every fourth session is a long break, odd ones are breaks. */
  function PhaseLabel(session: int): (r: string)
    ensures session >= 0 ==> (r == "Long Break" <==> session % 4 == 3)
    ensures session >= 0 ==> (r == "Break" <==> session % 4 == 1)
    ensures session >= 0 ==> (r == "Focus" <==> session % 2 == 0)
  {
    if Rem(session, 4) == 3 then "Long Break" else if Rem(session, 2) == 1 then "Break" else "Focus"
  }

  /** The labels repeat every four sessions: Focus, Break, Focus, Long Break. */
  lemma PhaseLabelCycle(session: nat)
    ensures PhaseLabel(session + 4) == PhaseLabel(session)
    ensures session % 4 == 0 ==>
              [PhaseLabel(session), PhaseLabel(session + 1), PhaseLabel(session + 2), PhaseLabel(session + 3)]
              == ["Focus", "Break", "Focus", "Long Break"]
  {
  }

  // ---------------------------------------------------------------------------
  // Difficulty

  const DefaultDifficulty: int := 5

  /** What `Number(text)` gives for the texts this model reads: blank is 0, a signed integer numeral its value. */
  datatype NumberValue = NaN | Finite(value: int)

  function ToNumber(text: string): NumberValue
  {
    var t := Trim(text);
    if t == [] then Finite(0)
    else match ParseInt(t)
      case Some(n) => Finite(n)
      case None => NaN
  }

  /** `Math.min(10, Math.max(1, n))`. */
  function Clamp(n: int): (r: int)
    ensures 1 <= r <= 10
    ensures 1 <= n <= 10 ==> r == n
    ensures n < 1 ==> r == 1
    ensures n > 10 ==> r == 10
  {
    Min(10, Max(1, n))
  }

  /** The difficulty after reading the stored value: ignored when absent, empty or not a number, else clamped. */
  function LoadDifficulty(current: int, stored: Option<string>): (r: int)
    ensures stored.None? || stored.value == [] ==> r == current
    ensures stored.Some? && stored.value != [] && ToNumber(stored.value).NaN? ==> r == current
    ensures stored.Some? && stored.value != [] && ToNumber(stored.value).Finite? ==>
              1 <= r <= 10 && r == Clamp(ToNumber(stored.value).value)
  {
    match stored
    case None => current
    case Some(text) =>
      if text == [] then current
      else match ToNumber(text)
        case NaN => current
        case Finite(n) => Clamp(n)
  }

  /** `String(difficulty)`, the value written back to storage. */
  function SaveDifficulty(d: int): string
  {
    IntToString(d)
  }

  /** `String(d)` has no surrounding whitespace, so `Number` reads it back exactly. */
  lemma SavedReadsBack(d: int)
    ensures ToNumber(IntToString(d)) == Finite(d)
  {
    var s := IntToString(d);
    var digits := if d < 0 then NatToString(-d) else NatToString(d);
    assert s[|s| - 1] == digits[|digits| - 1];
    assert IsDigit(s[|s| - 1]);
    assert s[0] == '-' || IsDigit(s[0]);
    TrimOfTrimmed(s);
    IntRoundTrip(d);
  }

  /** A saved difficulty reads back clamped, so every value in 1..10 survives a reload. */
  lemma DifficultyReload(current: int, d: int)
    ensures LoadDifficulty(current, Some(SaveDifficulty(d))) == Clamp(d)
    ensures 1 <= d <= 10 ==> LoadDifficulty(current, Some(SaveDifficulty(d))) == d
  {
    SavedReadsBack(d);
  }

  /** A range input keeps its value within its bounds; the slider's lower bound is 1. */
  function SliderValue(position: int, max: int): (r: int)
    requires max >= 1
    ensures 1 <= r <= max
    ensures 1 <= position <= max ==> r == position
  {
    Min(max, Max(1, position))
  }

  const SliderMaxAsWritten: int := 100
  const SliderMax: int := 10

  /** The slider as written: `max={100}`. */
  function SliderDifficultyAsWritten(position: int): (r: int)
    ensures 1 <= r <= SliderMaxAsWritten
  {
    SliderValue(position, SliderMaxAsWritten)
  }

  /** The slider with the bound its labels, `aria-valuemax` and the stored clamp all use. */
  function SliderDifficulty(position: int): (r: int)
    ensures 1 <= r <= SliderMax
    ensures r == Clamp(position)
  {
    SliderValue(position, SliderMax)
  }

  /** As written, a difficulty of 57 can be chosen, shows as "Insane", and comes back as 10 after a reload. */
  lemma SliderValueLostOnReload()
    ensures SliderDifficultyAsWritten(57) == 57
    ensures DifficultyBandOf(SliderDifficultyAsWritten(57)) == Insane
    ensures LoadDifficulty(DefaultDifficulty, Some(SaveDifficulty(SliderDifficultyAsWritten(57)))) == 10
  {
    DifficultyReload(DefaultDifficulty, 57);
  }

  /** With the bound at 10, whatever the slider picks survives a reload unchanged. */
  lemma SliderSurvivesReload(current: int, position: int)
    ensures LoadDifficulty(current, Some(SaveDifficulty(SliderDifficulty(position)))) == SliderDifficulty(position)
  {
    DifficultyReload(current, SliderDifficulty(position));
  }

  datatype DifficultyBand = Chill | Standard | Challenging | Insane

  /** The description under the slider. */
  function DifficultyBandOf(d: int): (b: DifficultyBand)
    ensures b == Chill <==> d <= 3
    ensures b == Standard <==> 3 < d <= 6
    ensures b == Challenging <==> 6 < d <= 8
    ensures b == Insane <==> d > 8
  {
    if d <= 3 then Chill else if d <= 6 then Standard else if d <= 8 then Challenging else Insane
  }

  function BandRank(b: DifficultyBand): nat
  {
    match b
    case Chill => 0
    case Standard => 1
    case Challenging => 2
    case Insane => 3
  }

  /** A harder setting never shows a gentler label, and within 1..10 every label is reachable. */
  lemma DifficultyBandMonotone(d1: int, d2: int)
    requires d1 <= d2
    ensures BandRank(DifficultyBandOf(d1)) <= BandRank(DifficultyBandOf(d2))
    ensures DifficultyBandOf(1) == Chill && DifficultyBandOf(5) == Standard
    ensures DifficultyBandOf(7) == Challenging && DifficultyBandOf(10) == Insane
  {
  }

  // ---------------------------------------------------------------------------
  // Messages

  datatype Sender = User | Assistant

  datatype Message = Message(id: string, sender: Sender, content: string)

  /** A row of the messages table. */
  datatype DbRow = DbRow(id: string, kind: string, content: string)

  /** The query's outcome: rows (possibly `null`) or an error. */
  datatype FetchResult = Rows(data: Option<seq<DbRow>>) | FetchFailed

  const WelcomeClosing: string :=
    " notebook! I'm your AI study assistant. I can help you understand concepts, solve problems, "
    + "and organize your learning. What would you like to explore today?"

  function WelcomeMessage(title: string): Message
  {
    Message("welcome", Assistant, "Welcome to your " + title + WelcomeClosing)
  }

  function RowToMessage(row: DbRow): Message
  {
    Message(row.id, if row.kind == "user" then User else Assistant, row.content)
  }

  /** The rows, in order, as messages: a sender of "user" stays the user, anything else is the assistant. */
  function ToMessages(rows: seq<DbRow>): (r: seq<Message>)
    ensures |r| == |rows|
    ensures forall i :: 0 <= i < |r| ==>
              && r[i].id == rows[i].id
              && r[i].content == rows[i].content
              && (r[i].sender == User <==> rows[i].kind == "user")
  {
    if rows == [] then [] else [RowToMessage(rows[0])] + ToMessages(rows[1..])
  }

  function RowsOf(f: FetchResult): seq<DbRow>
    requires f.Rows?
  {
    if f.data.Some? then f.data.value else []
  }

  /** `fetchMessages`: the rows as messages in order, a welcome message when there are none, no change on error. */
  function LoadMessages(current: seq<Message>, title: string, fetched: FetchResult): (r: seq<Message>)
    ensures fetched.FetchFailed? ==> r == current
    ensures fetched.Rows? && RowsOf(fetched) == [] ==> r == [WelcomeMessage(title)]
    ensures fetched.Rows? && RowsOf(fetched) != [] ==> r == ToMessages(RowsOf(fetched))
  {
    match fetched
    case FetchFailed => current
    case Rows(_) =>
      var rows := RowsOf(fetched);
      if rows == [] then [WelcomeMessage(title)]
      else ToMessages(rows)
  }

  /** A loaded notebook always shows at least one message. */
  lemma LoadedNeverEmpty(current: seq<Message>, title: string, fetched: FetchResult)
    requires fetched.Rows?
    ensures |LoadMessages(current, title, fetched)| >= 1
  {
  }

  datatype ChatState = ChatState(messages: seq<Message>, input: string, loading: bool)

  /** `handleSubmit`: nothing happens for blank input or while a reply is pending; otherwise the trimmed input is sent. */
  function Submit(st: ChatState, id: string): (r: ChatState)
    ensures Trim(st.input) == [] || st.loading ==> r == st
    ensures Trim(st.input) != [] && !st.loading ==>
              && r.messages == st.messages + [Message(id, User, Trim(st.input))]
              && r.input == []
              && r.loading
  {
    var text := Trim(st.input);
    if text == [] || st.loading then st
    else ChatState(st.messages + [Message(id, User, text)], [], true)
  }

  /** Submitting twice sends once: the second submit finds a reply pending. */
  lemma SubmitOnce(st: ChatState, id1: string, id2: string)
    ensures Submit(Submit(st, id1), id2) == Submit(st, id1)
  {
  }

  const ReplyClosing: string :=
    "\". This is a simulated response to demonstrate the interface. "
    + "In the full version, this would connect to your AI backend with sophisticated reasoning capabilities.\n\n"
    + "Here's how I would help:\n"
    + "\U{2022} Break down complex concepts into digestible parts\n"
    + "\U{2022} Provide step-by-step explanations \n"
    + "\U{2022} Reference your existing notes for context\n"
    + "\U{2022} Suggest related topics to explore\n\n"
    + "What specific aspect would you like me to explain further?"

  function SimulatedReplyText(question: string): string
  {
    "I understand you're asking about \"" + question + ReplyClosing
  }

  /** The delayed reply: one assistant message answering the question, and the pending flag cleared. */
  function ReceiveReply(st: ChatState, id: string, question: string): (r: ChatState)
    ensures r.messages == st.messages + [Message(id, Assistant, SimulatedReplyText(question))]
    ensures !r.loading && r.input == st.input
  {
    st.(messages := st.messages + [Message(id, Assistant, SimulatedReplyText(question))], loading := false)
  }

  /** A full exchange adds the question and its reply, in that order, and the next question is accepted again. */
  lemma ExchangeAddsTwo(st: ChatState, id1: string, id2: string)
    requires Trim(st.input) != [] && !st.loading
    ensures var after := ReceiveReply(Submit(st, id1), id2, Trim(st.input));
      && |after.messages| == |st.messages| + 2
      && after.messages[|st.messages|].sender == User
      && after.messages[|st.messages| + 1].sender == Assistant
      && !after.loading
  {
  }

  // ---------------------------------------------------------------------------
  // Rendering and tips

  const BulletMark: char := '\U{2022}'

  datatype Line = Bullet(text: string) | PlainLine(text: string) | BlankLine

  /** A line starting with a bullet shows the rest of the line trimmed; an empty line is a break. */
  function RenderLine(line: string): (r: Line)
    ensures r.Bullet? <==> line != [] && line[0] == BulletMark
    ensures r.Bullet? ==> r.text == Trim(line[1..])
    ensures r.BlankLine? <==> line == []
    ensures r.PlainLine? ==> r.text == line
  {
    if line != [] && line[0] == BulletMark then Bullet(Trim(line[1..]))
    else if line != [] then PlainLine(line)
    else BlankLine
  }

  /** A message body, line by line. */
  function RenderContent(content: string): (r: seq<Line>)
    ensures |r| == |Split(content, '\n')|
    ensures forall i :: 0 <= i < |r| ==> r[i] == RenderLine(Split(content, '\n')[i])
  {
    var lines := Split(content, '\n');
    seq(|lines|, i requires 0 <= i < |lines| => RenderLine(lines[i]))
  }

  /** A body written line by line renders those lines, each on its own, and a bullet's text carries no surrounding spaces. */
  lemma RenderLines(lines: seq<string>, i: nat)
    requires |lines| >= 1 && i < |lines|
    requires forall j :: 0 <= j < |lines| ==> '\n' !in lines[j]
    ensures |RenderContent(Join(lines, "\n"))| == |lines|
    ensures RenderContent(Join(lines, "\n"))[i] == RenderLine(lines[i])
    ensures RenderLine(lines[i]).Bullet? && RenderLine(lines[i]).text != [] ==>
              !IsSpace(RenderLine(lines[i]).text[0])
  {
    JoinSplit(lines, '\n');
  }

  const TipCount: int := 3

  /** The tip shown after the next eight-second interval. */
  function NextTip(prev: int): (r: int)
    ensures 0 <= prev < TipCount ==> 0 <= r < TipCount
    ensures 0 <= prev < TipCount - 1 ==> r == prev + 1
    ensures prev == TipCount - 1 ==> r == 0
  {
    Rem(prev + 1, TipCount)
  }

  /** Starting from the first tip, every tip comes round and the cycle has length three. */
  lemma TipCycle(p: int)
    requires 0 <= p < TipCount
    ensures NextTip(NextTip(NextTip(p))) == p
    ensures NextTip(p) != p
  {
  }
}
