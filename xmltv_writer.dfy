/**
 * The XMLTV file the guide builder writes (generate_xmltv): a channel
 * element per channel, then a three-hour programme element per channel that
 * has a start stamp. Stamps have the layout "%Y%m%d%H%M%S %z" with an offset
 * of the form +HHMM; the file is given as its lines, each written followed
 * by a line feed.
 */
module XmltvWriter {
  import opened Wrappers
  import opened Text
  import opened Calendar
  import opened Schedule
  import opened BuildFunctions
  import Server
  import TsFramer

  /** A zoned instant: the local date-time and the offset from UTC in minutes. */
  datatype Stamp = Stamp(time: DateTime, offsetMinutes: int)

  /** An offset datetime.timezone accepts: strictly less than a day either way. */
  predicate ValidStamp(st: Stamp) {
    ValidDateTime(st.time) && -1440 < st.offsetMinutes < 1440
  }

  /** strftime("%z"): a sign and four digits; a zero offset is written "+0000". */
  function FormatOffset(minutes: int): (r: string)
    requires -1440 < minutes < 1440
    ensures |r| == 5 && (r[0] == '+' <==> minutes >= 0) && (r[0] == '-' <==> minutes < 0)
  {
    var m := if minutes < 0 then -minutes else minutes;
    (if minutes < 0 then "-" else "+") + (Pad2(m / 60) + Pad2(m % 60))
  }

  /** strftime("%Y%m%d%H%M%S %z"). */
  function FormatStamp(st: Stamp): string
    requires ValidStamp(st)
  {
    LocalText(st.time) + (" " + FormatOffset(st.offsetMinutes))
  }

  /** strftime("%Y%m%d%H%M%S"). */
  function LocalText(dt: DateTime): string
    requires ValidDateTime(dt)
  {
    NatToString(dt.date.year) + (Pad2(dt.date.month) + (Pad2(dt.date.day) + ClockText(dt.secs)))
  }

  /** strftime("%H%M%S"). */
  function ClockText(t: nat): string
    requires t < 86400
  {
    Pad2(t / 3600) + (Pad2(t % 3600 / 60) + Pad2(t % 60))
  }

  /** The value of the two digits at position i. */
  function Field2(s: string, i: nat): nat
    requires i + 2 <= |s| && AllDigits(s[i..i + 2])
  {
    DigitsValue(s[i..i + 2])
  }

  /**
   * strptime(s, "%Y%m%d%H%M%S %z") for stamps whose fields all have their
   * full width; the blank matches a run of whitespace. None is a ValueError.
   */
  function ParseStamp(s: string): (r: Option<Stamp>)
    ensures r.Some? ==> ValidStamp(r.value)
  {
    if |s| < 15 then None
    else
      match Blanks(s, 14)
      case None => None
      case Some(i) =>
        match (ParseLocal(s[..14]), ParseOffset(s[i..]))
        case (Some(t), Some(o)) => Some(Stamp(t, o))
        case _ => None
  }

  /** The "%Y%m%d%H%M%S" part: fourteen digits naming a valid date and time of day. */
  function ParseLocal(s: string): (r: Option<DateTime>)
    ensures r.Some? ==> ValidDateTime(r.value)
  {
    if |s| != 14 || !AllDigits(s[0..4]) || !AllDigits(s[4..6]) || !AllDigits(s[6..8])
      || !AllDigits(s[8..10]) || !AllDigits(s[10..12]) || !AllDigits(s[12..14]) then None
    else
      var d := Date(DigitsValue(s[0..4]), Field2(s, 4), Field2(s, 6));
      var h := Field2(s, 8);
      var m := Field2(s, 10);
      var sec := Field2(s, 12);
      if ValidDate(d) && h < 24 && m < 60 && sec < 60 then Some(DateTime(d, h * 3600 + m * 60 + sec))
      else None
  }

  /**
   * The "%z" part, in minutes east of UTC: "Z", or a sign, two digits of
   * hours, an optional ':' and two digits of minutes.
   */
  function ParseOffset(s: string): (r: Option<int>)
    ensures r.Some? ==> -1440 < r.value < 1440
  {
    if s == "Z" then Some(0)
    else if |s| == 6 && s[3] == ':' then OffsetFields(s[0], s[1..3], s[4..6])
    else if |s| == 5 then OffsetFields(s[0], s[1..3], s[3..5])
    else None
  }

  /** A signed offset from its hour and minute digits; the zone must stay within a day. */
  function OffsetFields(sign: char, hh: string, mm: string): (r: Option<int>)
    requires |hh| == 2 && |mm| == 2
    ensures r.Some? ==> -1440 < r.value < 1440
    ensures r.Some? <==> (sign == '+' || sign == '-') && AllDigits(hh) && AllDigits(mm) && DigitsValue(hh) < 24 && DigitsValue(mm) < 60
  {
    if (sign == '+' || sign == '-') && AllDigits(hh) && AllDigits(mm) && DigitsValue(hh) < 24 && DigitsValue(mm) < 60 then
      Some((if sign == '-' then -1 else 1) * (DigitsValue(hh) * 60 + DigitsValue(mm)))
    else None
  }

  /** "%z" reads "+HH:MM" as it reads "+HHMM", and "Z" as UTC. */
  lemma OffsetColonForm(s: string)
    requires |s| == 5
    ensures ParseOffset(s[..3] + ":" + s[3..]) == ParseOffset(s)
    ensures ParseOffset("Z") == Some(0)
  {
    var c := s[..3] + ":" + s[3..];
    assert c[0] == s[0] && c[1..3] == s[1..3] && c[4..6] == s[3..5];
  }

  /** Slicing a four-two-two-rest concatenation. */
  lemma Fields3(y: string, mo: string, dd: string, c: string)
    requires |y| == 4 && |mo| == 2 && |dd| == 2
    ensures (y + (mo + (dd + c)))[0..4] == y && (y + (mo + (dd + c)))[4..6] == mo
    ensures (y + (mo + (dd + c)))[6..8] == dd && (y + (mo + (dd + c)))[8..] == c
  {
    var s := y + (mo + (dd + c));
    Peel(s, y, mo + (dd + c));
    Peel(mo + (dd + c), mo, dd + c);
    Peel(dd + c, dd, c);
    assert s[4..6] == (mo + (dd + c))[..2] && s[6..8] == (dd + c)[..2];
  }

  /** Slicing a two-two-two concatenation. */
  lemma Fields2(h: string, mi: string, se: string)
    requires |h| == 2 && |mi| == 2 && |se| == 2
    ensures (h + (mi + se))[0..2] == h && (h + (mi + se))[2..4] == mi && (h + (mi + se))[4..6] == se
  {
    Peel(h + (mi + se), h, mi + se);
    Peel(mi + se, mi, se);
  }

  /** The two digits at i of a string whose slice there is Pad2(n). */
  lemma FieldOf(s: string, i: nat, n: nat)
    requires n < 100 && i + 2 <= |s| && s[i..i + 2] == Pad2(n)
    ensures AllDigits(s[i..i + 2]) && Field2(s, i) == n
  {
    Pad2Chars(n);
  }

  /** Reading back a written time of day. */
  lemma ClockRead(t: nat)
    requires t < 86400
    ensures |ClockText(t)| == 6
    ensures AllDigits(ClockText(t)[0..2]) && Field2(ClockText(t), 0) == t / 3600
    ensures AllDigits(ClockText(t)[2..4]) && Field2(ClockText(t), 2) == t % 3600 / 60
    ensures AllDigits(ClockText(t)[4..6]) && Field2(ClockText(t), 4) == t % 60
  {
    assert |Pad2(t / 3600)| == 2 && |Pad2(t % 3600 / 60)| == 2 && |Pad2(t % 60)| == 2 by {
      assert t / 3600 < 100 && t % 3600 / 60 < 100 && t % 60 < 100;
    }
    Fields2(Pad2(t / 3600), Pad2(t % 3600 / 60), Pad2(t % 60));
    FieldOf(ClockText(t), 0, t / 3600);
    FieldOf(ClockText(t), 2, t % 3600 / 60);
    FieldOf(ClockText(t), 4, t % 60);
  }

  /** Hours, minutes and seconds of a time of day put back together. */
  lemma ClockArith(t: nat)
    requires t < 86400
    ensures t / 3600 < 24 && t % 3600 / 60 < 60 && t % 60 < 60
    ensures t / 3600 * 3600 + t % 3600 / 60 * 60 + t % 60 == t
  {
  }

  /** The fields of a written local time sit at fixed positions. */
  lemma LocalLayout(dt: DateTime)
    requires ValidDateTime(dt) && dt.date.year >= 1000
    ensures |LocalText(dt)| == 14
    ensures LocalText(dt)[0..4] == NatToString(dt.date.year)
    ensures LocalText(dt)[4..6] == Pad2(dt.date.month) && LocalText(dt)[6..8] == Pad2(dt.date.day)
    ensures LocalText(dt)[8..] == ClockText(dt.secs)
  {
    var d := dt.date;
    assert |NatToString(d.year)| == 4 && |Pad2(d.month)| == 2 && |Pad2(d.day)| == 2 by {
      assert d.month < 100 && d.day < 100;
    }
    ClockRead(dt.secs);
    Fields3(NatToString(d.year), Pad2(d.month), Pad2(d.day), ClockText(dt.secs));
  }

  /** Reading back a written local time gives it (for four-digit years). */
  lemma LocalRoundTrip(dt: DateTime)
    requires ValidDateTime(dt) && dt.date.year >= 1000
    ensures ParseLocal(LocalText(dt)) == Some(dt)
  {
    var t := dt.secs;
    LocalDateFields(dt);
    LocalClockFields(dt);
    ClockArith(t);
    LocalRead(LocalText(dt), dt.date, t / 3600, t % 3600 / 60, t % 60);
  }

  /** The date fields of a written local time read back. */
  lemma LocalDateFields(dt: DateTime)
    requires ValidDateTime(dt) && dt.date.year >= 1000
    ensures var s := LocalText(dt);
      && |s| == 14 && AllDigits(s[0..4]) && DigitsValue(s[0..4]) == dt.date.year
      && AllDigits(s[4..6]) && Field2(s, 4) == dt.date.month && AllDigits(s[6..8]) && Field2(s, 6) == dt.date.day
  {
    var s := LocalText(dt);
    LocalLayout(dt);
    FieldOf(s, 4, dt.date.month);
    FieldOf(s, 6, dt.date.day);
  }

  /** The clock fields of a written local time read back. */
  lemma LocalClockFields(dt: DateTime)
    requires ValidDateTime(dt) && dt.date.year >= 1000
    ensures var s, t := LocalText(dt), dt.secs;
      && |s| == 14
      && AllDigits(s[8..10]) && Field2(s, 8) == t / 3600 && AllDigits(s[10..12]) && Field2(s, 10) == t % 3600 / 60
      && AllDigits(s[12..14]) && Field2(s, 12) == t % 60
  {
    var s, t := LocalText(dt), dt.secs;
    LocalLayout(dt);
    ClockRead(t);
    var c := ClockText(t);
    assert s[8..10] == c[0..2] && s[10..12] == c[2..4] && s[12..14] == c[4..6] by {
      assert s[8..] == c;
    }
    assert Field2(s, 8) == Field2(c, 0) && Field2(s, 10) == Field2(c, 2) && Field2(s, 12) == Field2(c, 4);
  }

  /** ParseLocal on fourteen digits whose fields name a valid date and time of day. */
  lemma LocalRead(s: string, d: Date, h: nat, m: nat, sec: nat)
    requires ValidDate(d) && h < 24 && m < 60 && sec < 60
    requires |s| == 14 && AllDigits(s[0..4]) && DigitsValue(s[0..4]) == d.year
    requires AllDigits(s[4..6]) && Field2(s, 4) == d.month && AllDigits(s[6..8]) && Field2(s, 6) == d.day
    requires AllDigits(s[8..10]) && Field2(s, 8) == h && AllDigits(s[10..12]) && Field2(s, 10) == m
    requires AllDigits(s[12..14]) && Field2(s, 12) == sec
    ensures ParseLocal(s) == Some(DateTime(d, h * 3600 + m * 60 + sec))
  {
  }

  /** The fields of a written offset: the sign, then the hours and the minutes, two digits each. */
  lemma OffsetText(minutes: int)
    requires -1440 < minutes < 1440
    ensures var m := if minutes < 0 then -minutes else minutes;
      FormatOffset(minutes)[1..3] == Pad2(m / 60) && FormatOffset(minutes)[3..5] == Pad2(m % 60)
  {
    var m: nat := if minutes < 0 then -minutes else minutes;
    var sign := if minutes < 0 then "-" else "+";
    var z := FormatOffset(minutes);
    assert |Pad2(m / 60)| == 2 && |Pad2(m % 60)| == 2;
    Peel(z, sign, Pad2(m / 60) + Pad2(m % 60));
    Peel(Pad2(m / 60) + Pad2(m % 60), Pad2(m / 60), Pad2(m % 60));
    assert z[1..3] == (Pad2(m / 60) + Pad2(m % 60))[..2];
  }

  /** Reading back a written offset gives it. */
  lemma OffsetRoundTrip(minutes: int)
    requires -1440 < minutes < 1440
    ensures ParseOffset(FormatOffset(minutes)) == Some(minutes)
  {
    var m: nat := if minutes < 0 then -minutes else minutes;
    var z := FormatOffset(minutes);
    assert m / 60 < 24 && m % 60 < 60 && m / 60 * 60 + m % 60 == m;
    OffsetText(minutes);
    FieldOf(z, 1, m / 60);
    FieldOf(z, 3, m % 60);
    assert z != "Z" && ParseOffset(z) == OffsetFields(z[0], z[1..3], z[3..5]);
  }

  /** Reading back a written stamp gives the stamp (for four-digit years). */
  lemma StampRoundTrip(st: Stamp)
    requires ValidStamp(st) && st.time.date.year >= 1000
    ensures ParseStamp(FormatStamp(st)) == Some(st)
  {
    LocalLayout(st.time);
    LocalRoundTrip(st.time);
    OffsetRoundTrip(st.offsetMinutes);
    StampOf(FormatStamp(st), LocalText(st.time), FormatOffset(st.offsetMinutes));
  }

  /** A local part, one blank and an offset that read back read back together. */
  lemma StampOf(s: string, local: string, z: string)
    requires s == local + (" " + z) && |local| == 14 && |z| == 5 && (z[0] == '+' || z[0] == '-')
    requires ParseLocal(local).Some? && ParseOffset(z).Some?
    ensures ParseStamp(s) == Some(Stamp(ParseLocal(local).value, ParseOffset(z).value))
  {
    Peel(s, local, " " + z);
    assert s[14] == ' ' && s[15..] == z && s[15] == z[0] by {
      assert s[14..] == " " + z;
    }
    assert Blanks(s, 14) == Some(15) by {
      assert IsSpace(' ') && !IsSpace('+') && !IsSpace('-');
      OneBlank(s, 14);
    }
  }

  lemma Peel(s: string, a: string, r: string)
    requires s == a + r
    ensures s[..|a|] == a && s[|a|..] == r
  {
  }

  /** A programme is shown for three hours. */
  const ProgrammeSeconds: int := 3 * 3600

  /**
   * The stop stamp of a programme: its start read back, three hours later,
   * written with the start's offset. None is the ValueError of a start that
   * does not read back, or the OverflowError past year 9999.
   */
  function StopStamp(start: string): (r: Option<string>)
    ensures r.Some? ==> ParseStamp(start).Some?
  {
    match ParseStamp(start)
    case None => None
    case Some(st) =>
      match AddSeconds(st.time, ProgrammeSeconds)
      case None => None
      case Some(t) => Some(FormatStamp(Stamp(t, st.offsetMinutes)))
  }

  /** The stop stamp is the start moved three hours on, at the same offset, and it reads back. */
  lemma StopThreeHoursLater(start: string)
    requires StopStamp(start).Some?
    requires ParseStamp(start).value.time.date.year >= 1000
    ensures ParseStamp(StopStamp(start).value).Some?
    ensures ParseStamp(StopStamp(start).value).value.offsetMinutes == ParseStamp(start).value.offsetMinutes
    ensures AddSeconds(ParseStamp(start).value.time, ProgrammeSeconds) == Some(ParseStamp(StopStamp(start).value).value.time)
    ensures AddSeconds(ParseStamp(StopStamp(start).value).value.time, -ProgrammeSeconds) == Some(ParseStamp(start).value.time)
    ensures Before(ParseStamp(start).value.time, ParseStamp(StopStamp(start).value).value.time)
  {
    var st := ParseStamp(start).value;
    var stop := Stamp(AddSeconds(st.time, ProgrammeSeconds).value, st.offsetMinutes);
    assert StopStamp(start) == Some(FormatStamp(stop));
    StopReadsBack(st);
  }

  /** The stop of a parsed start reads back, three hours on and at the same offset. */
  lemma StopReadsBack(st: Stamp)
    requires ValidStamp(st) && st.time.date.year >= 1000 && AddSeconds(st.time, ProgrammeSeconds).Some?
    ensures var stop := Stamp(AddSeconds(st.time, ProgrammeSeconds).value, st.offsetMinutes);
      && ValidStamp(stop)
      && ParseStamp(FormatStamp(stop)) == Some(stop)
      && AddSeconds(stop.time, -ProgrammeSeconds) == Some(st.time)
      && Before(st.time, stop.time)
  {
    var t := AddSeconds(st.time, ProgrammeSeconds).value;
    AddSecondsOrder(st.time, ProgrammeSeconds);
    AddSecondsInverse(st.time, ProgrammeSeconds);
    assert t.date.year >= st.time.date.year;
    StampRoundTrip(Stamp(t, st.offsetMinutes));
  }

  /** A stamp the writer itself formats always gets a stop stamp, short of year 9999's end. */
  lemma WrittenStartHasStop(st: Stamp)
    requires ValidStamp(st) && st.time.date.year >= 1000
    ensures StopStamp(FormatStamp(st)).Some? <==> AddSeconds(st.time, ProgrammeSeconds).Some?
  {
    StampRoundTrip(st);
  }

  const GuideOpen: string := "<tv generator-info-name=\"epgBuilder\">"
  const ChannelClose: string := "  </channel>"
  const ProgrammeClose: string := "  </programme>"

  /** The <channel> element of a channel: the id as str() writes it, the name escaped, the icon as given. */
  function ChannelBlock(c: Channel): seq<string> {
    [Join([Server.ChannelOpen, "id=\"", PyStr(c.id), "\">"], ""),
     Join(["    <display-name>", Escape(c.channelName, true), "</display-name>"], "")]
    + (if Truthy(c.iconUrl) then [Join(["    <icon src=\"", c.iconUrl.value, "\"/>"], "")] else [])
    + [ChannelClose]
  }

  /** The <programme> element of a channel with a start stamp, given its stop stamp. */
  function ProgrammeBlock(c: Channel, stop: string): seq<string>
    requires c.programStart.Some?
  {
    [Join([Server.ProgrammeOpen, "channel=\"", PyStr(c.id), "\" start=\"", c.programStart.value,
        "\" stop=\"", stop, "\">"], ""),
     Join(["    <title>", Escape(c.programName, true), "</title>"], ""),
     Join(["    <desc>", Escape(c.description, true), "</desc>"], ""),
     ProgrammeClose]
  }

  /**
   * The programme elements of the channels in order, skipping channels
   * without a start stamp; None when a start has no stop stamp.
   */
  function Programmes(cs: seq<Channel>): Option<seq<string>> {
    if cs == [] then Some([])
    else
      match Programmes(cs[..|cs| - 1])
      case None => None
      case Some(ls) =>
        var c := cs[|cs| - 1];
        if !Truthy(c.programStart) then Some(ls)
        else
          match StopStamp(c.programStart.value)
          case None => None
          case Some(stop) => Some(ls + ProgrammeBlock(c, stop))
  }

  /** The lines before the programme elements: the declaration, the opening tag and the channel elements. */
  function Head(cs: seq<Channel>): seq<string> {
    [Server.XmlDecl, GuideOpen] + Server.Render(cs, ChannelBlock)
  }

  /** The lines of the guide file, or None when generation raises. */
  function XmltvLines(cs: seq<Channel>): Option<seq<string>> {
    match Programmes(cs)
    case None => None
    case Some(ps) => Some(Head(cs) + ps + [Server.TvClose])
  }

  /** Channel k is the first whose start stamp has no stop stamp. */
  predicate FailsAt(cs: seq<Channel>, k: nat) {
    && k < |cs|
    && Programmes(cs[..k]).Some?
    && Truthy(cs[k].programStart)
    && StopStamp(cs[k].programStart.value).None?
  }

  /**
   * generate_xmltv with the file replaced by the lines written to it. When a
   * start stamp has no stop stamp the writing stops there: the lines written
   * so far stay in the file and ok is false.
   */
  method GenerateXmltv(channels: seq<Channel>) returns (written: seq<string>, ok: bool)
    ensures ok <==> XmltvLines(channels).Some?
    ensures ok ==> written == XmltvLines(channels).value
    ensures !ok ==> exists k: nat :: FailsAt(channels, k) && written == Head(channels) + Programmes(channels[..k]).value
  {
    written := WriteChannels(channels);
    ghost var ps: seq<string> := [];
    var i := 0;
    while i < |channels|
      invariant 0 <= i <= |channels|
      invariant Programmes(channels[..i]) == Some(ps)
      invariant written == Head(channels) + ps
    {
      var c := channels[i];
      ProgrammesStep(channels, i);
      if Truthy(c.programStart) {
        var stop := StopStamp(c.programStart.value);
        if stop.None? {
          assert FailsAt(channels, i) && written == Head(channels) + Programmes(channels[..i]).value;
          assert XmltvLines(channels).None? by {
            FailureSticks(channels, i + 1, |channels|);
            assert channels[..|channels|] == channels;
          }
          ok := false;
          return;
        }
        var block := ProgrammeBlock(c, stop.value);
        TsFramer.SeqAssoc(Head(channels), ps, block);
        ps := ps + block;
        written := written + block;
      }
      i := i + 1;
    }
    assert channels[..i] == channels;
    written := written + [Server.TvClose];
    ok := true;
  }

  /** The first loop of generate_xmltv: the declaration, the opening tag and a channel element per channel. */
  method WriteChannels(channels: seq<Channel>) returns (written: seq<string>)
    ensures written == Head(channels)
  {
    written := [Server.XmlDecl, GuideOpen];
    var i := 0;
    while i < |channels|
      invariant 0 <= i <= |channels|
      invariant written == [Server.XmlDecl, GuideOpen] + Server.Render(channels[..i], ChannelBlock)
    {
      assert channels[..i + 1] == channels[..i] + [channels[i]];
      Server.RenderSnoc(channels[..i], channels[i], ChannelBlock);
      TsFramer.SeqAssoc([Server.XmlDecl, GuideOpen], Server.Render(channels[..i], ChannelBlock), ChannelBlock(channels[i]));
      written := written + ChannelBlock(channels[i]);
      i := i + 1;
    }
    assert channels[..i] == channels;
  }

  /** Programmes over one more channel. */
  lemma ProgrammesStep(cs: seq<Channel>, i: nat)
    requires i < |cs| && Programmes(cs[..i]).Some?
    ensures Programmes(cs[..i + 1]) ==
      if !Truthy(cs[i].programStart) then Programmes(cs[..i])
      else if StopStamp(cs[i].programStart.value).None? then None
      else Some(Programmes(cs[..i]).value + ProgrammeBlock(cs[i], StopStamp(cs[i].programStart.value).value))
  {
    assert cs[..i + 1][..i] == cs[..i] && cs[..i + 1][i] == cs[i];
  }

  /** Once a prefix of the channels fails, every longer prefix fails. */
  lemma {:induction false} FailureSticks(cs: seq<Channel>, i: nat, j: nat)
    requires i <= j <= |cs| && Programmes(cs[..i]).None?
    ensures Programmes(cs[..j]).None?
    decreases j - i
  {
    if i < j {
      assert cs[..i + 1][..i] == cs[..i];
      FailureSticks(cs, i + 1, j);
    }
  }

  /** Generation succeeds exactly when every channel with a start stamp gets a stop stamp. */
  lemma {:induction false} ProgrammesSucceed(cs: seq<Channel>)
    ensures Programmes(cs).Some? <==>
      forall i :: 0 <= i < |cs| && Truthy(cs[i].programStart) ==> StopStamp(cs[i].programStart.value).Some?
  {
    if cs != [] {
      var init := cs[..|cs| - 1];
      assert forall i :: 0 <= i < |init| ==> init[i] == cs[i];
      ProgrammesSucceed(init);
    }
  }

  /** How many channels have a start stamp. */
  function CountScheduled(cs: seq<Channel>): (n: nat)
    ensures n <= |cs|
  {
    if cs == [] then 0
    else CountScheduled(cs[..|cs| - 1]) + (if Truthy(cs[|cs| - 1].programStart) then 1 else 0)
  }

  /** A channel element holds one channel opening and no programme opening. */
  lemma ChannelBlockCounts(c: Channel)
    ensures Server.CountStarting(ChannelBlock(c), Server.ChannelOpen) == 1
    ensures Server.CountStarting(ChannelBlock(c), Server.ProgrammeOpen) == 0
  {
    var p1 := [Server.ChannelOpen, "id=\"", PyStr(c.id), "\">"];
    var p2 := ["    <display-name>", Escape(c.channelName, true), "</display-name>"];
    var p3 := ["    <icon src=\"", c.iconUrl.GetOr(""), "\"/>"];
    var el := ChannelBlock(c);
    Server.JoinHead(p1);
    var l1 := Join(p1, "");
    assert el[0] == l1;
    assert l1[..|Server.ChannelOpen|] == Server.ChannelOpen;
    assert l1[3] == 'c';
    Server.JoinChild(p2);
    Server.JoinChild(p3);
    assert Server.ChildLine(ChannelClose);
    assert forall i :: 1 <= i < |el| ==> Server.ChildLine(el[i]);
    forall i | 0 <= i < |el|
      ensures !StartsWith(el[i], Server.ProgrammeOpen)
      ensures i >= 1 ==> !StartsWith(el[i], Server.ChannelOpen)
    {
      if i == 0 {
        assert el[i][3] == 'c';
        assert Server.ProgrammeOpen[3] == 'p';
      } else {
        Server.ChildNotOpening(el[i]);
      }
    }
    Server.CountElement(el, Server.ChannelOpen);
    Server.CountNone(el, Server.ProgrammeOpen);
  }

  /** A programme element holds one programme opening and no channel opening. */
  lemma ProgrammeBlockCounts(c: Channel, stop: string)
    requires c.programStart.Some?
    ensures Server.CountStarting(ProgrammeBlock(c, stop), Server.ProgrammeOpen) == 1
    ensures Server.CountStarting(ProgrammeBlock(c, stop), Server.ChannelOpen) == 0
  {
    var p1 := [Server.ProgrammeOpen, "channel=\"", PyStr(c.id), "\" start=\"", c.programStart.value,
      "\" stop=\"", stop, "\">"];
    var p2 := ["    <title>", Escape(c.programName, true), "</title>"];
    var p3 := ["    <desc>", Escape(c.description, true), "</desc>"];
    var el := ProgrammeBlock(c, stop);
    Server.JoinHead(p1);
    var l1 := Join(p1, "");
    assert el[0] == l1;
    assert l1[..|Server.ProgrammeOpen|] == Server.ProgrammeOpen;
    assert l1[3] == 'p';
    Server.JoinChild(p2);
    Server.JoinChild(p3);
    assert Server.ChildLine(ProgrammeClose);
    assert forall i :: 1 <= i < |el| ==> Server.ChildLine(el[i]);
    forall i | 0 <= i < |el|
      ensures !StartsWith(el[i], Server.ChannelOpen)
      ensures i >= 1 ==> !StartsWith(el[i], Server.ProgrammeOpen)
    {
      if i == 0 {
        assert el[i][3] == 'p';
        assert Server.ChannelOpen[3] == 'c';
      } else {
        Server.ChildNotOpening(el[i]);
      }
    }
    Server.CountElement(el, Server.ProgrammeOpen);
    Server.CountNone(el, Server.ChannelOpen);
  }

  /** The programme elements hold one programme opening per channel with a start stamp, and no channel opening. */
  lemma {:induction false} ProgrammesCounts(cs: seq<Channel>)
    requires Programmes(cs).Some?
    ensures Server.CountStarting(Programmes(cs).value, Server.ProgrammeOpen) == CountScheduled(cs)
    ensures Server.CountStarting(Programmes(cs).value, Server.ChannelOpen) == 0
  {
    if cs != [] {
      var init := cs[..|cs| - 1];
      var c := cs[|cs| - 1];
      ProgrammesCounts(init);
      var ls := Programmes(init).value;
      if Truthy(c.programStart) {
        var stop := StopStamp(c.programStart.value).value;
        assert Programmes(cs).value == ls + ProgrammeBlock(c, stop);
        ProgrammeBlockCounts(c, stop);
        BlockCounts(ls, ProgrammeBlock(c, stop));
      } else {
        assert Programmes(cs).value == ls;
      }
    }
  }

  /** Appending one programme element adds one programme opening and no channel opening. */
  lemma BlockCounts(ls: seq<string>, block: seq<string>)
    requires Server.CountStarting(block, Server.ProgrammeOpen) == 1
    requires Server.CountStarting(block, Server.ChannelOpen) == 0
    ensures Server.CountStarting(ls + block, Server.ProgrammeOpen) == Server.CountStarting(ls, Server.ProgrammeOpen) + 1
    ensures Server.CountStarting(ls + block, Server.ChannelOpen) == Server.CountStarting(ls, Server.ChannelOpen)
  {
    Server.CountAppend(ls, block, Server.ProgrammeOpen);
    Server.CountAppend(ls, block, Server.ChannelOpen);
  }

  /** The frame lines open neither element. */
  lemma GuideFrameCounts(r1: seq<string>, r2: seq<string>, prefix: string)
    requires prefix == Server.ChannelOpen || prefix == Server.ProgrammeOpen
    ensures Server.CountStarting([Server.XmlDecl, GuideOpen] + r1 + r2 + [Server.TvClose], prefix)
      == Server.CountStarting(r1, prefix) + Server.CountStarting(r2, prefix)
  {
    var head := [Server.XmlDecl, GuideOpen];
    assert Server.XmlDecl[0] == '<';
    assert GuideOpen[0] == '<';
    assert prefix[0] == ' ' && |prefix| > |Server.TvClose|;
    forall i | 0 <= i < |head|
      ensures !StartsWith(head[i], prefix)
    {
      assert head[i][..|prefix|][0] == head[i][0];
    }
    Server.CountNone(head, prefix);
    Server.CountOne(Server.TvClose, prefix);
    Server.CountAppend(head, r1, prefix);
    Server.CountAppend(head + r1, r2, prefix);
    Server.CountAppend(head + r1 + r2, [Server.TvClose], prefix);
  }

  /**
   * The guide holds one channel element per channel and one programme
   * element per channel with a start stamp.
   */
  lemma GuideCounts(cs: seq<Channel>)
    requires XmltvLines(cs).Some?
    ensures Server.CountStarting(XmltvLines(cs).value, Server.ChannelOpen) == |cs|
    ensures Server.CountStarting(XmltvLines(cs).value, Server.ProgrammeOpen) == CountScheduled(cs)
  {
    var rendered := Server.Render(cs, ChannelBlock);
    var ps := Programmes(cs).value;
    ChannelBlocksCount(cs);
    ProgrammesCounts(cs);
    assert XmltvLines(cs).value == [Server.XmlDecl, GuideOpen] + rendered + ps + [Server.TvClose];
    GuideFrameCounts(rendered, ps, Server.ChannelOpen);
    GuideFrameCounts(rendered, ps, Server.ProgrammeOpen);
  }

  /** The channel elements hold one channel opening per channel and no programme opening. */
  lemma ChannelBlocksCount(cs: seq<Channel>)
    ensures Server.CountStarting(Server.Render(cs, ChannelBlock), Server.ChannelOpen) == |cs|
    ensures Server.CountStarting(Server.Render(cs, ChannelBlock), Server.ProgrammeOpen) == 0
  {
    forall i | 0 <= i < |cs|
      ensures Server.CountStarting(ChannelBlock(cs[i]), Server.ChannelOpen) == 1
      ensures Server.CountStarting(ChannelBlock(cs[i]), Server.ProgrammeOpen) == 0
    {
      ChannelBlockCounts(cs[i]);
    }
    Server.RenderCountOne(cs, ChannelBlock, Server.ChannelOpen);
    Server.RenderCountNone(cs, ChannelBlock, Server.ProgrammeOpen);
  }
}
