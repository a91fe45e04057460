/**
 * The guide builder's parsing helpers: reading an EXTINF line of an M3U
 * list into its channel number, id and name, reading a "UTC+N" zone name,
 * and the channel list built from every EXTINF line whose name an event
 * parser recognises. The event parser itself is a parameter.
 */
module BuildFunctions {
  import opened Wrappers
  import opened Text
  import opened Schedule
  import TsFramer

  /** The head of an EXTINF line with duration -1, as section 4.3.2.1 of RFC 8216 spells the tag. */
  const ExtinfPrefix: string := "#EXTINF:-1"

  /** The characters of an attribute key: the regex class [\w-]. */
  predicate IsKeyChar(c: char) {
    IsWordChar(c) || c == '-'
  }

  predicate IsKey(s: string) {
    s != [] && forall i :: 0 <= i < |s| ==> IsKeyChar(s[i])
  }

  /** The length of the leading run of key characters. */
  function KeyEnd(s: string): (n: nat)
    ensures n <= |s|
    ensures forall i :: 0 <= i < n ==> IsKeyChar(s[i])
    ensures n < |s| ==> !IsKeyChar(s[n])
  {
    if s == [] || !IsKeyChar(s[0]) then 0
    else
      var n := KeyEnd(s[1..]);
      assert forall i :: 1 <= i < n + 1 ==> s[i] == s[1..][i - 1];
      n + 1
  }

  /** An IPTV attribute key="value"; these attributes are not part of RFC 8216. */
  datatype Attr = Attr(key: string, value: string)

  /** What the attribute pattern can capture: a key of [\w-]+ and a value without quotes. */
  predicate ValidAttr(a: Attr) {
    IsKey(a.key) && '"' !in a.value
  }

  /** The text up to the first line feed, which is what `.*` matches. */
  function UpToNewline(s: string): (r: string)
    ensures '\n' !in r
    ensures '\n' !in s ==> r == s
  {
    s[..CharIndex(s, '\n')]
  }

  /**
   * One match of ([\w-]+)="([^"]*)" at the start of s, with the number of
   * characters it spans. The key run cannot be shortened to reach an '=',
   * so the greedy run is the only candidate.
   */
  function MatchAttr(s: string): (r: Option<(Attr, nat)>)
    ensures r.Some? ==> 0 < r.value.1 <= |s| && ValidAttr(r.value.0)
  {
    var j := KeyEnd(s);
    if j == 0 || j + 1 >= |s| || s[j] != '=' || s[j + 1] != '"' then None
    else
      var rest := s[j + 2..];
      var q := CharIndex(rest, '"');
      if q == |rest| then None
      else Some((Attr(s[..j], rest[..q]), j + 3 + q))
  }

  /** re.findall of the attribute pattern: matches left to right, resuming after each one. */
  function FindAttrs(s: string): (attrs: seq<Attr>)
    ensures forall k :: 0 <= k < |attrs| ==> ValidAttr(attrs[k])
    decreases |s|
  {
    if s == [] then []
    else
      match MatchAttr(s)
      case Some((a, n)) => [a] + FindAttrs(s[n..])
      case None => FindAttrs(s[1..])
  }

  /** dict(pairs).get(key) for the dict built from the pairs in order. */
  function Lookup(attrs: seq<Attr>, key: string): Option<string> {
    if attrs == [] then None
    else if attrs[|attrs| - 1].key == key then Some(attrs[|attrs| - 1].value)
    else Lookup(attrs[..|attrs| - 1], key)
  }

  /** A key absent from the pairs is missing; otherwise the last pair with the key wins. */
  lemma {:induction false} LookupLastWins(attrs: seq<Attr>, key: string)
    ensures Lookup(attrs, key).None? <==> forall i :: 0 <= i < |attrs| ==> attrs[i].key != key
    ensures Lookup(attrs, key).Some? ==>
      exists i :: 0 <= i < |attrs| && attrs[i] == Attr(key, Lookup(attrs, key).value) &&
        (forall j :: i < j < |attrs| ==> attrs[j].key != key)
  {
    if attrs != [] && attrs[|attrs| - 1].key != key {
      var init := attrs[..|attrs| - 1];
      LookupLastWins(init, key);
      assert forall i :: 0 <= i < |init| ==> init[i] == attrs[i];
    }
  }

  /** What parse_extinf returns: tvg-chno, tvg-id and the channel name. */
  datatype ExtinfInfo = ExtinfInfo(chno: Option<string>, id: Option<string>, name: string)

  /** `value or fallback` for an optional string. */
  function NameOr(value: Option<string>, fallback: string): (r: string)
    ensures Truthy(value) ==> r == value.value
    ensures !Truthy(value) ==> r == fallback
  {
    if Truthy(value) then value.value else fallback
  }

  /**
   * parse_extinf: the line must open with "#EXTINF:-1"; after optional
   * whitespace, the text up to the first comma holds the attributes and the
   * rest of the line, stripped, is the label. The name is a non-empty
   * tvg-name, else the label.
   */
  function ParseExtinf(line: string): (r: Option<ExtinfInfo>)
    ensures r.Some? <==> StartsWith(line, ExtinfPrefix) && ',' in line
  {
    if !StartsWith(line, ExtinfPrefix) then None
    else
      var after := LStrip(line[|ExtinfPrefix|..]);
      CommaSurvives(line);
      if ',' !in after then None
      else
        var c := CharIndex(after, ',');
        var attrs := FindAttrs(after[..c]);
        var tail := Strip(UpToNewline(after[c + 1..]));
        Some(ExtinfInfo(Lookup(attrs, "tvg-chno"), Lookup(attrs, "tvg-id"), NameOr(Lookup(attrs, "tvg-name"), tail)))
  }

  /** A comma of the line lies past the prefix and survives the whitespace skip. */
  lemma CommaSurvives(line: string)
    requires StartsWith(line, ExtinfPrefix)
    ensures ',' in line <==> ',' in LStrip(line[|ExtinfPrefix|..])
  {
    var rest := line[|ExtinfPrefix|..];
    assert line == ExtinfPrefix + rest;
    assert ',' !in ExtinfPrefix;
    LStripSpec(rest);
    var cut := |rest| - |LStrip(rest)|;
    assert rest == rest[..cut] + LStrip(rest);
    assert ',' !in rest[..cut] by {
      assert !IsSpace(',');
    }
  }

  /** An attribute the writer below emits so that it reads back: a valid pair whose value has no comma. */
  predicate WritableAttr(a: Attr) {
    ValidAttr(a) && ',' !in a.value
  }

  /** One attribute as an EXTINF line carries it: a space, key, '=' and the quoted value. */
  function AttrPiece(a: Attr): string {
    " " + (a.key + ("=\"" + (a.value + "\"")))
  }

  function AttrText(attrs: seq<Attr>): string {
    if attrs == [] then "" else AttrPiece(attrs[0]) + AttrText(attrs[1..])
  }

  /** An EXTINF line with the given attributes and label, in the layout IPTV lists use. */
  function FormatExtinf(attrs: seq<Attr>, text: string): string {
    ExtinfPrefix + (AttrText(attrs) + ("," + text))
  }

  lemma KeyCharNotSpace(c: char)
    requires IsKeyChar(c)
    ensures !IsSpace(c) && c != ',' && c != '"' && c != '='
  {
  }

  lemma CommaNotSpace()
    ensures !IsSpace(',')
  {
  }

  lemma {:induction false} KeyEndOf(key: string, tail: string)
    requires forall i :: 0 <= i < |key| ==> IsKeyChar(key[i])
    requires tail != [] && !IsKeyChar(tail[0])
    ensures KeyEnd(key + tail) == |key|
  {
    if key != [] {
      assert (key + tail)[1..] == key[1..] + tail;
      KeyEndOf(key[1..], tail);
    } else {
      assert key + tail == tail;
    }
  }

  /** The attribute pattern reads a written attribute back at the start of the text. */
  lemma MatchWritten(s: string, key: string, value: string, rest: string)
    requires IsKey(key) && '"' !in value
    requires s == key + ("=\"" + (value + ("\"" + rest)))
    ensures MatchAttr(s).Some?
    ensures MatchAttr(s).value.0 == Attr(key, value)
    ensures MatchAttr(s).value.1 == |key| + 3 + |value|
  {
    var tail := value + ("\"" + rest);
    var u := "=\"" + tail;
    KeyEndOf(key, u);
    assert s[|key|..] == u;
    assert s[|key|] == u[0] == '=' && s[|key| + 1] == u[1] == '"';
    assert s[|key| + 2..] == tail by {
      assert u[2..] == tail;
    }
    assert tail == value + ['"'] + rest;
    CharIndexAt(value, '"', rest);
    assert tail[..|value|] == value;
    assert s[..|key|] == key;
    MatchAttrAt(s, |key|, |value|);
  }

  lemma MatchAttrAt(s: string, j: nat, q: nat)
    requires 0 < j && j + 1 < |s| && KeyEnd(s) == j && s[j] == '=' && s[j + 1] == '"'
    requires q < |s| - j - 2 && CharIndex(s[j + 2..], '"') == q
    ensures MatchAttr(s) == Some((Attr(s[..j], s[j + 2..][..q]), j + 3 + q))
  {
  }

  lemma FindPiece(a: Attr, rest: string)
    requires ValidAttr(a)
    ensures FindAttrs(AttrPiece(a) + rest) == [a] + FindAttrs(rest)
  {
    var t := AttrPiece(a) + rest;
    var body := a.key + ("=\"" + (a.value + ("\"" + rest)));
    assert t == " " + body;
    assert !IsKeyChar(' ');
    assert t[1..] == body;
    MatchWritten(body, a.key, a.value, rest);
    assert body[|a.key| + 3 + |a.value|..] == rest;
  }

  /** The attribute scan reads written attributes back, in order. */
  lemma {:induction false} FindAttrText(attrs: seq<Attr>)
    requires forall k :: 0 <= k < |attrs| ==> ValidAttr(attrs[k])
    ensures FindAttrs(AttrText(attrs)) == attrs
  {
    if attrs != [] {
      FindAttrText(attrs[1..]);
      FindPiece(attrs[0], AttrText(attrs[1..]));
    }
  }

  lemma {:induction false} AttrTextNoComma(attrs: seq<Attr>)
    requires forall k :: 0 <= k < |attrs| ==> WritableAttr(attrs[k])
    ensures ',' !in AttrText(attrs)
  {
    if attrs != [] {
      AttrTextNoComma(attrs[1..]);
      var a := attrs[0];
      assert WritableAttr(a);
      assert ',' !in a.key by {
        if ',' in a.key {
          var i :| 0 <= i < |a.key| && a.key[i] == ',';
          KeyCharNotSpace(a.key[i]);
        }
      }
    }
  }

  /** Skipping the whitespace after the prefix drops the space before the first attribute. */
  lemma StripAttrText(attrs: seq<Attr>, tail: string) returns (w: string)
    requires forall k :: 0 <= k < |attrs| ==> WritableAttr(attrs[k])
    requires tail != [] && !IsSpace(tail[0])
    ensures LStrip(AttrText(attrs) + tail) == w + tail
    ensures FindAttrs(w) == attrs && ',' !in w
  {
    var t := AttrText(attrs);
    if attrs == [] {
      w := [];
      assert t + tail == tail;
      assert w + tail == tail;
    } else {
      var a := attrs[0];
      w := t[1..];
      assert t[0] == ' ' && IsKeyChar(t[1]) by {
        assert t == " " + (a.key + ("=\"" + (a.value + "\""))) + AttrText(attrs[1..]);
        assert t[1] == a.key[0];
      }
      assert LStrip(t + tail) == w + tail by {
        KeyCharNotSpace(t[1]);
        assert (t + tail)[1..] == w + tail;
        assert (w + tail)[0] == t[1];
      }
      assert FindAttrs(w) == attrs by {
        FindAttrText(attrs);
        assert !IsKeyChar(' ');
        assert FindAttrs(t) == FindAttrs(w);
      }
      assert ',' !in w by {
        AttrTextNoComma(attrs);
        assert forall i :: 0 <= i < |w| ==> w[i] == t[i + 1];
      }
    }
  }

  /** parse_extinf on a line whose text after the prefix is attribute text, a comma and the label. */
  lemma ParseExtinfSplit(line: string, w: string, text: string)
    requires StartsWith(line, ExtinfPrefix) && ',' !in w
    requires LStrip(line[|ExtinfPrefix|..]) == w + ("," + text)
    ensures ParseExtinf(line).Some?
    ensures ParseExtinf(line).value.chno == Lookup(FindAttrs(w), "tvg-chno")
    ensures ParseExtinf(line).value.id == Lookup(FindAttrs(w), "tvg-id")
    ensures ParseExtinf(line).value.name == NameOr(Lookup(FindAttrs(w), "tvg-name"), Strip(UpToNewline(text)))
  {
    var after := LStrip(line[|ExtinfPrefix|..]);
    assert after == w + [','] + text;
    CharIndexAt(w, ',', text);
    assert after[..|w|] == w;
    assert ',' in after;
  }

  /** parse_extinf reads back the attributes and label of a written EXTINF line; the last of a repeated key wins. */
  lemma ParseFormatted(attrs: seq<Attr>, text: string)
    requires forall k :: 0 <= k < |attrs| ==> WritableAttr(attrs[k])
    requires '\n' !in text
    ensures ParseExtinf(FormatExtinf(attrs, text)) ==
      Some(ExtinfInfo(Lookup(attrs, "tvg-chno"), Lookup(attrs, "tvg-id"), NameOr(Lookup(attrs, "tvg-name"), Strip(text))))
  {
    var line := FormatExtinf(attrs, text);
    var tail := "," + text;
    assert StartsWith(line, ExtinfPrefix) && line[|ExtinfPrefix|..] == AttrText(attrs) + tail by {
      assert line[..|ExtinfPrefix|] == ExtinfPrefix;
    }
    assert tail != [] && !IsSpace(tail[0]) by {
      CommaNotSpace();
    }
    var w := StripAttrText(attrs, tail);
    ParseExtinfSplit(line, w, text);
  }

  /** What parse_timezone returns: UTC, a fixed offset in seconds, or a zone the tz database resolved. */
  datatype Zone = Utc | FixedOffset(seconds: int) | Named(name: string)

  /**
   * The hour count of ^UTC([+-]\d+)$ under re.IGNORECASE, signed; `$` also
   * matches in front of a final line feed.
   */
  function UtcOffsetHours(s: string): (r: Option<int>)
    ensures r.Some? ==> |s| >= 5 && Upper(s[..3]) == "UTC"
  {
    var body := if s != [] && s[|s| - 1] == '\n' then s[..|s| - 1] else s;
    if |body| >= 5 && Upper(body[..3]) == "UTC" && (body[3] == '+' || body[3] == '-') && AllDigits(body[4..]) then
      assert body[..3] == s[..3];
      var n: int := DigitsValue(body[4..]);
      Some(if body[3] == '-' then -n else n)
    else None
  }

  /**
   * parse_timezone: an empty or missing name is UTC, "UTC+N" and "UTC-N" are
   * fixed offsets of N hours, a name the tz database resolves is that zone,
   * and anything else falls back to UTC. The tz database is the predicate
   * `known`.
   */
  function ParseTimezone(name: Option<string>, known: string -> bool): (r: Zone)
    ensures !Truthy(name) ==> r == Utc
    ensures r.FixedOffset? <==> Truthy(name) && UtcOffsetHours(name.value).Some?
    ensures Truthy(name) && UtcOffsetHours(name.value).Some? ==> r == FixedOffset(UtcOffsetHours(name.value).value * 3600)
    ensures r.Named? ==> Truthy(name) && r.name == name.value && known(name.value)
    ensures Truthy(name) && UtcOffsetHours(name.value).None? && known(name.value) ==> r == Named(name.value)
    ensures Truthy(name) && UtcOffsetHours(name.value).None? && !known(name.value) ==> r == Utc
  {
    if !Truthy(name) then Utc
    else
      match UtcOffsetHours(name.value)
      case Some(h) => FixedOffset(h * 3600)
      case None => if known(name.value) then Named(name.value) else Utc
  }

  /** A zone name of the "UTC+N" family, as a configuration writes it. */
  function OffsetName(hours: int): string {
    "UTC" + ((if hours < 0 then "-" else "+") + NatToString(if hours < 0 then -hours else hours))
  }

  /** Every whole-hour offset written as "UTC+N" or "UTC-N" is read back as that offset, whatever the tz database holds. */
  lemma OffsetNameRoundTrip(hours: int, known: string -> bool)
    ensures ParseTimezone(Some(OffsetName(hours)), known) == FixedOffset(hours * 3600)
  {
    var digits := NatToString(if hours < 0 then -hours else hours);
    var s := OffsetName(hours);
    assert s[..3] == "UTC" && s[4..] == digits;
    assert s[|s| - 1] == digits[|digits| - 1];
    assert !IsDigit('\n');
    assert Upper("UTC") == "UTC";
  }

  /** The offset pattern looks at the first three characters only through their upper case. */
  lemma OffsetHoursCase(a: string, b: string)
    requires |a| == |b| >= 3 && Upper(a[..3]) == Upper(b[..3]) && a[3..] == b[3..]
    ensures UtcOffsetHours(a) == UtcOffsetHours(b)
  {
    if |a| >= 5 {
      assert a[|a| - 1] == a[3..][|a| - 4] == b[|b| - 1];
      var ba := if a[|a| - 1] == '\n' then a[..|a| - 1] else a;
      var bb := if b[|b| - 1] == '\n' then b[..|b| - 1] else b;
      assert ba[..3] == a[..3] && bb[..3] == b[..3];
      assert ba[3..] == bb[3..];
      assert ba[4..] == bb[4..];
    }
  }

  /** "UTC" is matched without regard to case: "utc+5" and "Utc-3" are offsets too. */
  lemma OffsetIgnoresCase(prefix: string, hours: int, known: string -> bool)
    requires Upper(prefix) == "UTC"
    ensures ParseTimezone(Some(prefix + OffsetName(hours)[3..]), known) == FixedOffset(hours * 3600)
  {
    var rest := OffsetName(hours)[3..];
    var a := prefix + rest;
    var b := OffsetName(hours);
    assert b == "UTC" + rest;
    assert a[3..] == rest == b[3..];
    assert a[..3] == prefix && b[..3] == "UTC";
    assert Upper("UTC") == "UTC";
    OffsetHoursCase(a, b);
    OffsetNameRoundTrip(hours, known);
  }

  /** What the event parser reports for a channel name. */
  datatype EventInfo = EventInfo(
    eventName: Option<string>,
    channelName: string,
    iconUrl: Option<string>,
    xmltvStart: Option<string>)

  /** parse_event_from_name, which reads a pattern file; None when no pattern matches. */
  type EventParser = string -> Option<EventInfo>

  /** One channel of the guide, with the single program the event parser found for it. */
  datatype Channel = Channel(
    id: Option<string>,
    channelName: string,
    programName: string,
    iconUrl: Option<string>,
    programStart: Option<string>,
    description: string)

  /**
   * The guard of the scan, re.search(r'#EXTINF:-1.*,(.*)', line): the
   * prefix anywhere in the line with a comma after it on the same line.
   */
  predicate GuardMatches(line: string)
    decreases |line|
  {
    if |line| < |ExtinfPrefix| then false
    else (StartsWith(line, ExtinfPrefix) && ',' in UpToNewline(line[|ExtinfPrefix|..])) || GuardMatches(line[1..])
  }

  /** The channel built from an EXTINF line's fields and the event found for its name. */
  function ChannelOf(info: ExtinfInfo, ev: EventInfo): (c: Channel)
    requires Truthy(ev.eventName)
    ensures c.id == info.chno && c.description == info.name && c.programName == ev.eventName.value
    ensures c.channelName == ev.channelName && c.iconUrl == ev.iconUrl && c.programStart == ev.xmltvStart
  {
    Channel(info.chno, ev.channelName, ev.eventName.value, ev.iconUrl, ev.xmltvStart, info.name)
  }

  /** What one line contributes: a channel for an EXTINF line whose name has an event with a name, else nothing. */
  function ChannelFor(line: string, parseEvent: EventParser): (r: seq<Channel>)
    ensures |r| <= 1
    ensures r != [] ==> ParseExtinf(line).Some? && r[0].id == ParseExtinf(line).value.chno && r[0].programName != []
  {
    match ParseExtinf(line)
    case None => []
    case Some(info) =>
      var ev := parseEvent(info.name);
      if ev.Some? && Truthy(ev.value.eventName) then [ChannelOf(info, ev.value)] else []
  }

  /** The channel list of a sequence of lines, line by line. */
  function Channels(lines: seq<string>, parseEvent: EventParser): (r: seq<Channel>)
    ensures |r| <= |lines|
    ensures forall k :: 0 <= k < |r| ==> r[k].programName != []
  {
    if lines == [] then []
    else Channels(lines[..|lines| - 1], parseEvent) + ChannelFor(lines[|lines| - 1], parseEvent)
  }

  lemma ChannelsSnoc(lines: seq<string>, i: nat, parseEvent: EventParser)
    requires i < |lines|
    ensures Channels(lines[..i + 1], parseEvent) == Channels(lines[..i], parseEvent) + ChannelFor(lines[i], parseEvent)
  {
    assert lines[..i + 1][..i] == lines[..i];
  }

  /** Lines contribute independently and in order: the list of a concatenation is the concatenation of the lists. */
  lemma {:induction false} ChannelsAppend(a: seq<string>, b: seq<string>, parseEvent: EventParser)
    ensures Channels(a + b, parseEvent) == Channels(a, parseEvent) + Channels(b, parseEvent)
  {
    if b == [] {
      assert a + b == a;
    } else {
      var init, last := b[..|b| - 1], b[|b| - 1];
      var tail := ChannelFor(last, parseEvent);
      calc {
        Channels(a + b, parseEvent);
        { assert (a + b)[..|a + b| - 1] == a + init && (a + b)[|a + b| - 1] == last; }
        Channels(a + init, parseEvent) + tail;
        { ChannelsAppend(a, init, parseEvent); }
        (Channels(a, parseEvent) + Channels(init, parseEvent)) + tail;
        { TsFramer.SeqAssoc(Channels(a, parseEvent), Channels(init, parseEvent), tail); }
        Channels(a, parseEvent) + (Channels(init, parseEvent) + tail);
      }
    }
  }

  /**
   * parse_channels with the guard the parse needs: a line is read only when
   * parse_extinf accepts it, and kept only when its name has an event with a
   * name.
   */
  method ParseChannels(text: string, parseEvent: EventParser) returns (channels: seq<Channel>)
    ensures channels == Channels(SplitLines(text), parseEvent)
  {
    var lines := SplitLines(text);
    channels := [];
    for i := 0 to |lines|
      invariant channels == Channels(lines[..i], parseEvent)
    {
      ChannelsSnoc(lines, i, parseEvent);
      var info := ParseExtinf(lines[i]);
      if info.None? {
        continue;
      }
      var ev := parseEvent(info.value.name);
      if ev.None? || !Truthy(ev.value.eventName) {
        continue;
      }
      channels := channels + [ChannelOf(info.value, ev.value)];
    }
    assert lines[..|lines|] == lines;
  }

  /** The error Python raises when the scan subscripts the None that parse_extinf returned. */
  const NotSubscriptable: string := "TypeError: 'NoneType' object is not subscriptable"

  /**
   * parse_channels as written: the unanchored guard admits lines that the
   * anchored parse_extinf refuses, and the scan then fails on such a line.
   */
  function ChannelsAsWritten(lines: seq<string>, parseEvent: EventParser): Result<seq<Channel>, string> {
    if lines == [] then Ok([])
    else
      match ChannelsAsWritten(lines[..|lines| - 1], parseEvent)
      case Err(e) => Err(e)
      case Ok(cs) =>
        var line := lines[|lines| - 1];
        if !GuardMatches(line) then Ok(cs)
        else if ParseExtinf(line).None? then Err(NotSubscriptable)
        else Ok(cs + ChannelFor(line, parseEvent))
  }

  lemma AsWrittenSnoc(lines: seq<string>, i: nat, parseEvent: EventParser)
    requires i < |lines|
    ensures ChannelsAsWritten(lines[..i + 1], parseEvent) ==
      match ChannelsAsWritten(lines[..i], parseEvent)
      case Err(e) => Err(e)
      case Ok(cs) =>
        if !GuardMatches(lines[i]) then Ok(cs)
        else if ParseExtinf(lines[i]).None? then Err(NotSubscriptable)
        else Ok(cs + ChannelFor(lines[i], parseEvent))
  {
    assert lines[..i + 1][..i] == lines[..i];
  }

  /** Once the scan has failed it stays failed. */
  lemma {:induction false} AsWrittenFailureSticks(lines: seq<string>, i: nat, parseEvent: EventParser)
    requires i <= |lines| && ChannelsAsWritten(lines[..i], parseEvent).Err?
    ensures ChannelsAsWritten(lines, parseEvent) == ChannelsAsWritten(lines[..i], parseEvent)
    decreases |lines| - i
  {
    if i < |lines| {
      AsWrittenSnoc(lines, i, parseEvent);
      AsWrittenFailureSticks(lines, i + 1, parseEvent);
    } else {
      assert lines[..i] == lines;
    }
  }

  /** The scan of parse_channels as written, stopping at the first line that makes it fail. */
  method ParseChannelsAsWritten(text: string, parseEvent: EventParser) returns (r: Result<seq<Channel>, string>)
    ensures r == ChannelsAsWritten(SplitLines(text), parseEvent)
  {
    var lines := SplitLines(text);
    var channels := [];
    for i := 0 to |lines|
      invariant ChannelsAsWritten(lines[..i], parseEvent) == Ok(channels)
    {
      AsWrittenSnoc(lines, i, parseEvent);
      if !GuardMatches(lines[i]) {
        continue;
      }
      var info := ParseExtinf(lines[i]);
      if info.None? {
        AsWrittenFailureSticks(lines, i + 1, parseEvent);
        return Err(NotSubscriptable);
      }
      var ev := parseEvent(info.value.name);
      if ev.None? || !Truthy(ev.value.eventName) {
        assert channels + [] == channels;
        continue;
      }
      channels := channels + [ChannelOf(info.value, ev.value)];
    }
    assert lines[..|lines|] == lines;
    r := Ok(channels);
  }

  /** On a single line, every line parse_extinf accepts also passes the guard. */
  lemma GuardAdmitsParsed(line: string)
    requires '\n' !in line && ParseExtinf(line).Some?
    ensures GuardMatches(line)
  {
    var rest := line[|ExtinfPrefix|..];
    assert line == ExtinfPrefix + rest;
    assert ',' !in ExtinfPrefix;
    assert '\n' !in rest;
    assert ',' in rest;
  }

  /** Where the guard and parse_extinf agree on every line, the scan as written gives the corrected list. */
  lemma {:induction false} AsWrittenAgrees(lines: seq<string>, parseEvent: EventParser)
    requires forall k :: 0 <= k < |lines| ==> '\n' !in lines[k]
    requires forall k :: 0 <= k < |lines| ==> GuardMatches(lines[k]) ==> ParseExtinf(lines[k]).Some?
    ensures ChannelsAsWritten(lines, parseEvent) == Ok(Channels(lines, parseEvent))
  {
    if lines != [] {
      var init := lines[..|lines| - 1];
      var line := lines[|lines| - 1];
      assert forall k :: 0 <= k < |init| ==> init[k] == lines[k];
      AsWrittenAgrees(init, parseEvent);
      if !GuardMatches(line) {
        if ParseExtinf(line).Some? {
          GuardAdmitsParsed(line);
        }
        assert ChannelFor(line, parseEvent) == [];
        assert Channels(init, parseEvent) + [] == Channels(init, parseEvent);
      }
    }
  }

  /**
   * An indented EXTINF line passes the unanchored guard, parse_extinf
   * refuses it, and the scan as written fails where the corrected scan
   * skips the line.
   */
  lemma IndentedLineFails(parseEvent: EventParser)
    ensures GuardMatches(" #EXTINF:-1,News") && ParseExtinf(" #EXTINF:-1,News").None?
    ensures ChannelsAsWritten([" #EXTINF:-1,News"], parseEvent) == Err(NotSubscriptable)
    ensures Channels([" #EXTINF:-1,News"], parseEvent) == []
  {
    var line := " #EXTINF:-1,News";
    assert line[0] != ExtinfPrefix[0];
    assert !StartsWith(line, ExtinfPrefix) by {
      assert line[..|ExtinfPrefix|][0] == line[0];
    }
    var t := line[1..];
    assert t == "#EXTINF:-1,News";
    assert t[..|ExtinfPrefix|] == ExtinfPrefix;
    assert t[|ExtinfPrefix|..] == ",News";
    assert UpToNewline(",News") == ",News";
    assert ',' in UpToNewline(t[|ExtinfPrefix|..]);
    var single: seq<string> := [line];
    assert single[..0] == [];
  }
}
