/**
 * The elapsed-time text of the reindex progress report
 * (`ReindexManager.getDurationMessage`). The clock is left out: the elapsed
 * time comes in as a whole number of seconds.
 */
module Duration {

  import opened Wrappers
  import opened Text

  /** The fields of a duration message; hours and minutes may be absent, seconds never are. */
  datatype MessageParts = MessageParts(hours: Option<nat>, mins: Option<nat>, secs: nat)

  function HoursField(hours: Option<nat>): string
  {
    if hours.Some? then NatToString(hours.value) + " hours, " else ""
  }

  function MinsField(mins: Option<nat>): string
  {
    if mins.Some? then NatToString(mins.value) + " mins, " else ""
  }

  function SecsField(secs: nat): string
  {
    NatToString(secs) + " secs"
  }

  /** "<h> hours, " when present, then "<m> mins, " when present, then "<s> secs". */
  function Render(p: MessageParts): string
  {
    HoursField(p.hours) + (MinsField(p.mins) + SecsField(p.secs))
  }

  /** The number of seconds a message reports; an absent field counts as zero. */
  function ReportedSeconds(p: MessageParts): nat
  {
    (if p.hours.Some? then p.hours.value * 3600 else 0)
    + (if p.mins.Some? then p.mins.value * 60 else 0)
    + p.secs
  }

  // Reading a message back.

  function ParseSecs(hours: Option<nat>, mins: Option<nat>, s: string): Option<MessageParts>
  {
    match ReadNat(s)
    case None => None
    case Some((n, rest)) => if rest == " secs" then Some(MessageParts(hours, mins, n)) else None
  }

  function ParseMins(hours: Option<nat>, s: string): Option<MessageParts>
  {
    match ReadNat(s)
    case None => None
    case Some((n, rest)) =>
      if |rest| >= 7 && rest[..7] == " mins, " then ParseSecs(hours, Some(n), rest[7..])
      else ParseSecs(hours, None, s)
  }

  function Parse(msg: string): Option<MessageParts>
  {
    match ReadNat(msg)
    case None => None
    case Some((n, rest)) =>
      if |rest| >= 8 && rest[..8] == " hours, " then ParseMins(Some(n), rest[8..])
      else ParseMins(None, msg)
  }

  // One lemma per step of the reader, each about one field at the front of the text.

  lemma ReadSecsField(hours: Option<nat>, mins: Option<nat>, secs: nat)
    ensures ParseSecs(hours, mins, NatToString(secs) + " secs") == Some(MessageParts(hours, mins, secs))
  {
    ReadNatToString(secs, " secs");
  }

  lemma ReadMinsField(hours: Option<nat>, mins: nat, rest: string)
    ensures ParseMins(hours, NatToString(mins) + (" mins, " + rest)) == ParseSecs(hours, Some(mins), rest)
  {
    var sep := " mins, " + rest;
    ReadNatToString(mins, sep);
    assert sep[..7] == " mins, ";
    assert sep[7..] == rest;
  }

  lemma ReadNoMinsField(hours: Option<nat>, secs: nat)
    ensures ParseMins(hours, NatToString(secs) + " secs") == ParseSecs(hours, None, NatToString(secs) + " secs")
  {
    ReadNatToString(secs, " secs");
    assert |" secs"| == 5;
  }

  lemma ReadHoursField(hours: nat, rest: string)
    ensures Parse(NatToString(hours) + (" hours, " + rest)) == ParseMins(Some(hours), rest)
  {
    var sep := " hours, " + rest;
    ReadNatToString(hours, sep);
    assert sep[..8] == " hours, ";
    assert sep[8..] == rest;
  }

  /** Text whose first number is not followed by " hours, " has no hours field. */
  lemma ReadNoHoursField(msg: string, n: nat, rest: string)
    requires ReadNat(msg) == Some((n, rest))
    requires !(|rest| >= 8 && rest[..8] == " hours, ")
    ensures Parse(msg) == ParseMins(None, msg)
  {
  }

  /** " mins, " differs from " hours, " in its second character. */
  lemma MinsSeparatorIsNotHours(rest: string)
    ensures var sep := " mins, " + rest;
      !(|sep| >= 8 && sep[..8] == " hours, ")
  {
    var sep := " mins, " + rest;
    if |sep| >= 8 {
      assert sep[..8][1] == 'm';
      assert " hours, "[1] == 'h';
    }
  }

  lemma ReadNoHoursBeforeMins(mins: nat, rest: string)
    ensures var msg := NatToString(mins) + (" mins, " + rest);
      Parse(msg) == ParseMins(None, msg)
  {
    ReadNatToString(mins, " mins, " + rest);
    MinsSeparatorIsNotHours(rest);
    ReadNoHoursField(NatToString(mins) + (" mins, " + rest), mins, " mins, " + rest);
  }

  lemma ReadNoHoursBeforeSecs(secs: nat)
    ensures var msg := NatToString(secs) + " secs";
      Parse(msg) == ParseMins(None, msg)
  {
    ReadNatToString(secs, " secs");
    assert |" secs"| == 5;
    ReadNoHoursField(NatToString(secs) + " secs", secs, " secs");
  }

  lemma ParseMinsPresent(hours: Option<nat>, mins: nat, secs: nat)
    ensures ParseMins(hours, MinsField(Some(mins)) + SecsField(secs)) == Some(MessageParts(hours, Some(mins), secs))
  {
    var tail := SecsField(secs);
    assert MinsField(Some(mins)) + tail == NatToString(mins) + (" mins, " + tail);
    ReadMinsField(hours, mins, tail);
    ReadSecsField(hours, Some(mins), secs);
  }

  lemma ParseMinsAbsent(hours: Option<nat>, secs: nat)
    ensures ParseMins(hours, MinsField(None) + SecsField(secs)) == Some(MessageParts(hours, None, secs))
  {
    assert MinsField(None) + SecsField(secs) == NatToString(secs) + " secs";
    ReadNoMinsField(hours, secs);
    ReadSecsField(hours, None, secs);
  }

  /** The minutes field (if any) followed by the seconds field reads back as those fields. */
  lemma ParseMinsField(hours: Option<nat>, mins: Option<nat>, secs: nat)
    ensures ParseMins(hours, MinsField(mins) + SecsField(secs)) == Some(MessageParts(hours, mins, secs))
  {
    if mins.Some? {
      ParseMinsPresent(hours, mins.value, secs);
    } else {
      ParseMinsAbsent(hours, secs);
    }
  }

  lemma ParseRenderWithHours(hours: nat, mins: Option<nat>, secs: nat)
    ensures Parse(Render(MessageParts(Some(hours), mins, secs))) == Some(MessageParts(Some(hours), mins, secs))
  {
    var tail := MinsField(mins) + SecsField(secs);
    ParseMinsField(Some(hours), mins, secs);
    assert Render(MessageParts(Some(hours), mins, secs)) == NatToString(hours) + (" hours, " + tail);
    ReadHoursField(hours, tail);
  }

  lemma ParseRenderMinsFirst(mins: nat, secs: nat)
    ensures Parse(Render(MessageParts(None, Some(mins), secs))) == Some(MessageParts(None, Some(mins), secs))
  {
    var msg := NatToString(mins) + (" mins, " + SecsField(secs));
    assert Render(MessageParts(None, Some(mins), secs)) == MinsField(Some(mins)) + SecsField(secs) == msg;
    ParseMinsField(None, Some(mins), secs);
    ReadNoHoursBeforeMins(mins, SecsField(secs));
  }

  lemma ParseRenderSecsOnly(secs: nat)
    ensures Parse(Render(MessageParts(None, None, secs))) == Some(MessageParts(None, None, secs))
  {
    assert Render(MessageParts(None, None, secs)) == MinsField(None) + SecsField(secs) == SecsField(secs);
    ParseMinsField(None, None, secs);
    ReadNoHoursBeforeSecs(secs);
  }

  /** A rendered message reads back as the fields it was rendered from. */
  lemma ParseRender(p: MessageParts)
    ensures Parse(Render(p)) == Some(p)
  {
    if p.hours.Some? {
      ParseRenderWithHours(p.hours.value, p.mins, p.secs);
    } else if p.mins.Some? {
      ParseRenderMinsFirst(p.mins.value, p.secs);
    } else {
      ParseRenderSecsOnly(p.secs);
    }
  }

  /** Messages with different fields are different texts. */
  lemma RenderInjective(p: MessageParts, q: MessageParts)
    ensures Render(p) == Render(q) <==> p == q
  {
    ParseRender(p);
    ParseRender(q);
  }

  // The message as `getDurationMessage` builds it.

  /**
   * Starts with "<toSecondsPart> secs", puts "<toMinutesPart> mins, " in
   * front when more than 60 seconds have passed, and "<hours> hours, " in
   * front of that when more than 3600 have.
   */
  function DurationMessage(seconds: nat): (msg: string)
    ensures var tail := SecsField(seconds % 60);
      |tail| <= |msg| && msg[|msg| - |tail|..] == tail
  {
    var secs := NatToString(seconds % 60) + " secs";
    var message := if seconds > 60 then NatToString(seconds / 60 % 60) + " mins, " + secs else secs;
    assert message[|message| - |secs|..] == secs;
    var message' := if seconds > 3600 then NatToString(seconds / 3600) + " hours, " + message else message;
    assert message'[|message'| - |secs|..] == secs;
    message'
  }

  /** The fields `DurationMessage` writes. */
  function MessageFields(seconds: nat): MessageParts
  {
    MessageParts(
      if seconds > 3600 then Some(seconds / 3600) else None,
      if seconds > 60 then Some(seconds / 60 % 60) else None,
      seconds % 60)
  }

  lemma DurationMessageRendersFields(seconds: nat)
    ensures DurationMessage(seconds) == Render(MessageFields(seconds))
  {
    var p := MessageFields(seconds);
    var secsText := NatToString(seconds % 60) + " secs";
    assert SecsField(p.secs) == secsText;
    var withMins := if seconds > 60 then NatToString(seconds / 60 % 60) + " mins, " + secsText else secsText;
    assert withMins == MinsField(p.mins) + SecsField(p.secs);
    if seconds > 3600 {
      assert DurationMessage(seconds) == NatToString(seconds / 3600) + " hours, " + withMins;
    } else {
      assert DurationMessage(seconds) == withMins;
    }
  }

  /**
   * What the message says: it reads back as seconds "<seconds % 60>", a
   * minutes field "<(seconds / 60) % 60>" exactly when seconds > 60, and an
   * hours field "<seconds / 3600>" exactly when seconds > 3600.
   */
  lemma DurationMessageShape(seconds: nat)
    ensures Parse(DurationMessage(seconds)) == Some(MessageFields(seconds))
    ensures var p := MessageFields(seconds);
      && p.secs == seconds % 60
      && (p.mins.Some? <==> seconds > 60)
      && (p.mins.Some? ==> p.mins.value == seconds / 60 % 60)
      && (p.hours.Some? <==> seconds > 3600)
      && (p.hours.Some? ==> p.hours.value == seconds / 3600)
  {
    DurationMessageRendersFields(seconds);
    ParseRender(MessageFields(seconds));
  }

  /** Hours, minutes of the hour and seconds of the minute account for every second. */
  lemma SplitSeconds(seconds: nat)
    ensures seconds == seconds / 3600 * 3600 + seconds / 60 % 60 * 60 + seconds % 60
    ensures seconds < 3600 ==> seconds == seconds / 60 * 60 + seconds % 60 && seconds / 60 % 60 == seconds / 60
  {
    var q := seconds / 60;
    var r := seconds % 60;
    assert seconds == q * 60 + r;
    assert q == q / 60 * 60 + q % 60;
    assert seconds == q / 60 * 3600 + q % 60 * 60 + r;
    assert 0 <= q % 60 * 60 + r < 3600;
    assert seconds / 3600 == q / 60;
  }

  /** The fields as written account for every second except at exactly 60 and 3600. */
  lemma MessageFieldsReportedSeconds(seconds: nat)
    ensures ReportedSeconds(MessageFields(seconds)) == seconds <==> seconds != 60 && seconds != 3600
  {
    SplitSeconds(seconds);
  }

  /**
   * The message reports the elapsed time exactly except at 60 and at 3600
   * seconds, where the strict comparisons drop the whole minute or hour.
   */
  lemma DurationMessageDropsWholeUnit(seconds: nat)
    ensures Parse(DurationMessage(seconds)).Some?
    ensures ReportedSeconds(Parse(DurationMessage(seconds)).value) == seconds
        <==> seconds != 60 && seconds != 3600
  {
    DurationMessageShape(seconds);
    MessageFieldsReportedSeconds(seconds);
  }

  /** One minute reads "0 secs"; one hour reads "0 mins, 0 secs". */
  lemma DurationMessageAtWholeUnits()
    ensures DurationMessage(60) == "0 secs"
    ensures DurationMessage(3600) == "0 mins, 0 secs"
  {
    assert NatToString(0) == "0";
  }

  // The message as evidently intended: a field appears once its unit is reached.

  function CorrectedMessageFields(seconds: nat): MessageParts
  {
    MessageParts(
      if seconds >= 3600 then Some(seconds / 3600) else None,
      if seconds >= 60 then Some(seconds / 60 % 60) else None,
      seconds % 60)
  }

  function CorrectedDurationMessage(seconds: nat): string
  {
    Render(CorrectedMessageFields(seconds))
  }

  lemma CorrectedFieldsReportedSeconds(seconds: nat)
    ensures ReportedSeconds(CorrectedMessageFields(seconds)) == seconds
  {
    SplitSeconds(seconds);
  }

  /**
   * The corrected message always reads back as exactly the elapsed seconds,
   * so distinct durations give distinct messages.
   */
  lemma CorrectedDurationMessageExact(seconds: nat, other: nat)
    ensures Parse(CorrectedDurationMessage(seconds)).Some?
    ensures ReportedSeconds(Parse(CorrectedDurationMessage(seconds)).value) == seconds
    ensures CorrectedDurationMessage(seconds) == CorrectedDurationMessage(other) <==> seconds == other
  {
    ParseRender(CorrectedMessageFields(seconds));
    CorrectedFieldsReportedSeconds(seconds);
    CorrectedFieldsReportedSeconds(other);
    RenderInjective(CorrectedMessageFields(seconds), CorrectedMessageFields(other));
  }
}
