/**
 * The helpers that turn a channel's event string into a named, dated and
 * timed event: the 12-hour to 24-hour rewrite, the date and time
 * extractors, the conversion of a local start and end to UTC, the choice of
 * the best-matching database event, and the two name formatters.
 */
module EventProcessor {
  import opened Wrappers
  import opened Text
  import opened Calendar
  import Schedule

  // ---------------------------------------------------------------------
  // rep: "3 pm" -> "15:00"

  /** The am/pm marker of a matched 12-hour time (the text is lower-cased before matching). */
  datatype Meridiem = Am | Pm

  /** The hour rep writes: "pm" adds 12 except to 12, "am" turns 12 into 0. */
  function Hour24(hour: nat, m: Meridiem): (h: nat)
    ensures m == Pm && hour != 12 ==> h == hour + 12
    ensures m == Am && hour == 12 ==> h == 0
    ensures (m == Pm && hour == 12) || (m == Am && hour != 12) ==> h == hour
  {
    if m == Pm && hour != 12 then hour + 12
    else if m == Am && hour == 12 then 0
    else hour
  }

  /**
   * rep: the replacement for a match of \b(\d{1,2})(?::(\d{2}))?\s*(am|pm)\b,
   * given the values of its hour and optional minute groups; the minutes
   * default to 0 and both fields are written with at least two digits.
   */
  function Rep(hour: nat, minute: Option<nat>, m: Meridiem): (r: string)
    ensures Hour24(hour, m) < 100 && minute.GetOr(0) < 100 ==> |r| == 5 && r[2] == ':'
  {
    Pad2(Hour24(hour, m)) + ":" + Pad2(minute.GetOr(0))
  }

  /** The hour and marker on a 12-hour clock face of a 24-hour hour. */
  function To12(h: nat): (r: (nat, Meridiem))
    requires h < 24
    ensures 1 <= r.0 <= 12
  {
    if h == 0 then (12, Am)
    else if h < 12 then (h, Am)
    else if h == 12 then (12, Pm)
    else (h - 12, Pm)
  }

  /** On a 12-hour clock face rep's hour rewrite is a bijection onto 0..23: am gives 0..11, pm 12..23. */
  lemma Hour24Bijection(hour: nat, m: Meridiem)
    requires 1 <= hour <= 12
    ensures Hour24(hour, m) < 24
    ensures m == Am <==> Hour24(hour, m) < 12
    ensures To12(Hour24(hour, m)) == (hour, m)
  {
  }

  /** Every hour of the day is reached from exactly the clock-face hour To12 gives. */
  lemma To12Inverse(h: nat)
    requires h < 24
    ensures Hour24(To12(h).0, To12(h).1) == h
  {
  }

  /**
   * For a time on the clock face, rep writes what strftime("%H:%M") writes
   * for that time of day (which Calendar.ClockRoundTrip reads back).
   */
  lemma RepIsClock(hour: nat, minute: Option<nat>, m: Meridiem)
    requires 1 <= hour <= 12 && minute.GetOr(0) < 60
    ensures Rep(hour, minute, m) == FormatHM(Hour24(hour, m) * 3600 + minute.GetOr(0) * 60)
  {
    ClockFormat(Rep(hour, minute, m), Hour24(hour, m), minute.GetOr(0));
  }

  /** strftime("%H:%M") of a whole-minute time of day is its two padded fields. */
  lemma ClockFormat(text: string, h: nat, mi: nat)
    requires h < 24 && mi < 60 && text == Pad2(h) + ":" + Pad2(mi)
    ensures text == FormatHM(h * 3600 + mi * 60)
  {
    var secs := h * 3600 + mi * 60;
    var a, b := secs / 3600, secs % 3600 / 60;
    assert a == h && b == mi by {
      ClockFields(h, mi);
    }
    assert FormatHM(secs) == Pad2(a) + ":" + Pad2(b);
  }

  lemma ClockFields(h: nat, mi: nat)
    requires h < 24 && mi < 60
    ensures (h * 3600 + mi * 60) / 3600 == h && (h * 3600 + mi * 60) % 3600 / 60 == mi
    ensures (h * 3600 + mi * 60) % 60 == 0 && h * 3600 + mi * 60 < SecondsPerDay
  {
  }

  // ---------------------------------------------------------------------
  // make_safe_filename

  /** The characters re.sub(r'[^\w\-_\.]', '', s) keeps. */
  predicate SafeChar(c: char) {
    IsWordChar(c) || c == '-' || c == '.'
  }

  /** re.sub(r'[^\w\-_\.]', '', s): drop every other character. */
  function KeepSafe(s: string): (r: string)
    ensures forall i :: 0 <= i < |r| ==> SafeChar(r[i])
    ensures |r| <= |s|
  {
    if s == [] then [] else (if SafeChar(s[0]) then [s[0]] else []) + KeepSafe(s[1..])
  }

  /** make_safe_filename: spaces become underscores, then every unsafe character is dropped. */
  function MakeSafeFilename(s: string): (r: string)
    ensures forall i :: 0 <= i < |r| ==> SafeChar(r[i]) && r[i] != ' '
  {
    KeepSafe(ReplaceAll(s, " ", "_"))
  }

  /** The same function written character by character: a space is an underscore, a safe character stays, others go. */
  function SafeFilenameRef(s: string): string {
    if s == [] then []
    else (if s[0] == ' ' then "_" else if SafeChar(s[0]) then [s[0]] else []) + SafeFilenameRef(s[1..])
  }

  /** make_safe_filename agrees with the character-by-character reading. */
  lemma {:induction false} SafeFilenameByChar(s: string)
    ensures MakeSafeFilename(s) == SafeFilenameRef(s)
  {
    if s != [] {
      SafeFilenameByChar(s[1..]);
      var t := ReplaceAll(s[1..], " ", "_");
      assert s[..1] == [s[0]];
      if s[0] == ' ' {
        assert ReplaceAll(s, " ", "_") == "_" + t;
      } else {
        assert ReplaceAll(s, " ", "_") == [s[0]] + t;
      }
      KeepSafeCons(ReplaceAll(s, " ", "_")[0], t);
    }
  }

  lemma KeepSafeCons(c: char, t: string)
    ensures KeepSafe([c] + t) == (if SafeChar(c) then [c] else []) + KeepSafe(t)
  {
    assert ([c] + t)[1..] == t;
  }

  /** A string of safe characters is kept whole. */
  lemma {:induction false} KeepSafeAll(s: string)
    requires forall i :: 0 <= i < |s| ==> SafeChar(s[i])
    ensures KeepSafe(s) == s
  {
    if s != [] {
      KeepSafeAll(s[1..]);
    }
  }

  /** make_safe_filename leaves a string alone exactly when it already consists of safe characters. */
  lemma SafeFilenameFixpoint(s: string)
    ensures MakeSafeFilename(s) == s <==> forall i :: 0 <= i < |s| ==> SafeChar(s[i])
  {
    if forall i :: 0 <= i < |s| ==> SafeChar(s[i]) {
      assert !Contains(s, " ") by {
        forall i | 0 <= i <= |s|
          ensures !OccursAt(s, " ", i)
        {
          if i < |s| {
            assert s[i..i + 1] == [s[i]] && SafeChar(s[i]);
          }
        }
      }
      ReplaceAllAbsent(s, " ", "_");
      KeepSafeAll(s);
    }
  }

  /** Applying make_safe_filename twice is applying it once. */
  lemma SafeFilenameIdempotent(s: string)
    ensures MakeSafeFilename(MakeSafeFilename(s)) == MakeSafeFilename(s)
  {
    SafeFilenameFixpoint(MakeSafeFilename(s));
  }

  // ---------------------------------------------------------------------
  // format_event_name

  /** A word longer than two characters is upper-cased; shorter words are kept. */
  function Capitalize(w: string): (r: string)
    ensures |r| == |w|
    ensures |w| > 2 ==> r == Upper(w)
    ensures |w| <= 2 ==> r == w
  {
    if |w| > 2 then Upper(w) else w
  }

  function CapitalizeAll(words: seq<string>): (r: seq<string>)
    ensures |r| == |words| && forall k :: 0 <= k < |words| ==> r[k] == Capitalize(words[k])
  {
    seq(|words|, k requires 0 <= k < |words| => Capitalize(words[k]))
  }

  /** format_event_name: the words of s, each long one upper-cased, joined by single spaces. */
  function FormatEventName(s: string): string {
    Join(CapitalizeAll(SplitWords(s)), " ")
  }

  /** The result splits back into the input's words, each long one upper-cased. */
  lemma FormatEventNameWords(s: string)
    ensures SplitWords(FormatEventName(s)) == CapitalizeAll(SplitWords(s))
  {
    var ws := CapitalizeAll(SplitWords(s));
    forall k | 0 <= k < |ws|
      ensures ws[k] != [] && NoSpace(ws[k])
    {
      UpperSpec(SplitWords(s)[k]);
    }
    SplitWordsJoin(ws);
  }

  /** Formatting a formatted name changes nothing. */
  lemma FormatEventNameIdempotent(s: string)
    ensures FormatEventName(FormatEventName(s)) == FormatEventName(s)
  {
    FormatEventNameWords(s);
    var ws := CapitalizeAll(SplitWords(s));
    forall k | 0 <= k < |ws|
      ensures Capitalize(ws[k]) == ws[k]
    {
      UpperSpec(SplitWords(s)[k]);
    }
    assert CapitalizeAll(ws) == ws;
  }

  // ---------------------------------------------------------------------
  // find_best_match

  /**
   * The score of an event against the input: the similarity ratio of the
   * lower-cased, stripped input and event name, as a percentage. The ratio
   * itself (difflib's SequenceMatcher) is a parameter; an event without a
   * name is compared as the empty name.
   */
  function Score<E>(input: string, e: E, nameOf: E -> Option<string>, ratio: (string, string) -> real): real {
    ratio(Strip(Lower(input)), Strip(Lower(nameOf(e).GetOr("")))) * 100.0
  }

  /**
   * find_best_match: the first event whose score is strictly greater than
   * every earlier one and at least every later one, with its score; None
   * and 0 when there are no events or no score is above 0.
   */
  method FindBestMatch<E(==)>(input: string, events: seq<E>, nameOf: E -> Option<string>, ratio: (string, string) -> real)
    returns (best: Option<E>, bestScore: real)
    ensures events == [] ==> best == None && bestScore == 0.0
    ensures best.None? <==> forall j :: 0 <= j < |events| ==> Score(input, events[j], nameOf, ratio) <= 0.0
    ensures best.None? ==> bestScore == 0.0
    ensures best.Some? ==> exists k :: (IsBestBy(events, e => Score(input, e, nameOf, ratio), k) && best.value == events[k]
      && bestScore == Score(input, events[k], nameOf, ratio))
  {
    if events == [] {
      return None, 0.0;
    }
    best, bestScore := SelectBest(events, e => Score(input, e, nameOf, ratio));
  }

  /**
   * The selection loop of find_best_match over given scores: a candidate
   * replaces the current best only with a strictly greater score, starting
   * from no candidate and a best score of 0.
   */
  method SelectBest<E(==)>(events: seq<E>, score: E -> real) returns (best: Option<E>, bestScore: real)
    ensures best.None? <==> forall j :: 0 <= j < |events| ==> score(events[j]) <= 0.0
    ensures best.None? ==> bestScore == 0.0
    ensures best.Some? ==> exists k :: IsBestBy(events, score, k) && best.value == events[k] && bestScore == score(events[k])
  {
    best := None;
    bestScore := 0.0;
    ghost var at := 0;
    var i := 0;
    while i < |events|
      invariant 0 <= i <= |events|
      invariant best.None? ==> bestScore == 0.0
      invariant best.Some? ==> bestScore > 0.0
      invariant best.None? ==> forall j :: 0 <= j < i ==> score(events[j]) <= 0.0
      invariant forall j :: 0 <= j < i ==> score(events[j]) <= bestScore
      invariant best.Some? ==> at < i && best.value == events[at] && bestScore == score(events[at])
      invariant best.Some? ==> forall j :: 0 <= j < at ==> score(events[j]) < bestScore
    {
      var matchPercentage := score(events[i]);
      if matchPercentage > bestScore {
        bestScore := matchPercentage;
        best := Some(events[i]);
        at := i;
      }
      i := i + 1;
    }
    if best.Some? {
      assert IsBestBy(events, score, at);
    }
  }

  /** Event k scores more than every event before it and at least as much as every event. */
  predicate IsBestBy<E>(events: seq<E>, score: E -> real, k: int) {
    && 0 <= k < |events|
    && (forall j :: 0 <= j < k ==> score(events[j]) < score(events[k]))
    && (forall j :: 0 <= j < |events| ==> score(events[j]) <= score(events[k]))
  }

  // ---------------------------------------------------------------------
  // The fixed patterns of extract_date and extract_time

  /** \b just before position i, where s[i] is a word character. */
  predicate WordStart(s: string, i: nat)
    requires i <= |s|
  {
    i == 0 || !IsWordChar(s[i - 1])
  }

  /** \b at position j, just after a word character. */
  predicate WordStop(s: string, j: nat)
    requires j <= |s|
  {
    j == |s| || !IsWordChar(s[j])
  }

  /** \b(\d{4})-(\d{2})-(\d{2})\b at position i. */
  predicate DateAt(s: string, i: nat) {
    && i + 10 <= |s|
    && WordStart(s, i)
    && AllDigits(s[i..i + 4]) && s[i + 4] == '-'
    && AllDigits(s[i + 5..i + 7]) && s[i + 7] == '-'
    && AllDigits(s[i + 8..i + 10])
    && WordStop(s, i + 10)
  }

  /** [0-1][0-9]|2[0-3] at position i. */
  predicate HourAt(s: string, i: nat)
    requires i + 2 <= |s|
  {
    ('0' <= s[i] <= '1' && IsDigit(s[i + 1])) || (s[i] == '2' && '0' <= s[i + 1] <= '3')
  }

  /** [0-5][0-9] at position i. */
  predicate SixtyAt(s: string, i: nat)
    requires i + 2 <= |s|
  {
    '0' <= s[i] <= '5' && IsDigit(s[i + 1])
  }

  /**
   * The length of the match of \b(?:[0-1][0-9]|2[0-3]):[0-5][0-9](?::[0-5][0-9])?\b
   * at position i, or 0: the optional seconds are taken when a boundary
   * follows them, and otherwise the engine backtracks to the bare hour and
   * minutes, which the ':' or end after them always bounds.
   */
  function TimeMatchAt(s: string, i: nat): (n: nat)
    ensures n == 0 || n == 5 || n == 8
    ensures n > 0 ==> i + n <= |s|
  {
    if !(i + 5 <= |s| && WordStart(s, i) && HourAt(s, i) && s[i + 2] == ':' && SixtyAt(s, i + 3)) then 0
    else if i + 8 <= |s| && s[i + 5] == ':' && SixtyAt(s, i + 6) && WordStop(s, i + 8) then 8
    else if WordStop(s, i + 5) then 5
    else 0
  }

  datatype Pattern = DatePattern | TimePattern

  /** The length of the pattern's match at position i, or 0 when it does not match there. */
  function MatchAt(p: Pattern, s: string, i: nat): (n: nat)
    ensures n > 0 ==> i + n <= |s|
  {
    match p
    case DatePattern => if DateAt(s, i) then 10 else 0
    case TimePattern => TimeMatchAt(s, i)
  }

  /** The matches of a scan, where they start, and the text left when they are cut out. */
  datatype Scan = Scan(found: seq<string>, at: seq<nat>, rest: string)

  /**
   * re.findall and re.sub(pattern, '') from position i on: the matches
   * left to right without overlap, each search resuming after the last
   * match, and the characters outside every match.
   */
  function ScanFrom(p: Pattern, s: string, i: nat): (r: Scan)
    requires i <= |s|
    ensures |r.at| == |r.found|
    decreases |s| - i
  {
    if i == |s| then Scan([], [], [])
    else
      var n := MatchAt(p, s, i);
      if n > 0 then
        var t := ScanFrom(p, s, i + n);
        Scan([s[i..i + n]] + t.found, [i] + t.at, t.rest)
      else
        var t := ScanFrom(p, s, i + 1);
        Scan(t.found, t.at, [s[i]] + t.rest)
  }

  /** Every text a scan finds is the pattern's whole match at the position recorded for it. */
  predicate Matched(p: Pattern, s: string, i: nat, at: nat, text: string) {
    i <= at && MatchAt(p, s, at) == |text| > 0 && at + |text| <= |s| && text == s[at..at + |text|]
  }

  /** A match at i followed by matches found from i + n: all of them are matches found from i. */
  lemma MatchedCons(p: Pattern, s: string, i: nat, n: nat, t: Scan)
    requires 0 < n == MatchAt(p, s, i) && |t.at| == |t.found|
    requires forall k :: 0 <= k < |t.found| ==> Matched(p, s, i + n, t.at[k], t.found[k])
    ensures forall k :: 0 <= k < |t.found| + 1 ==> Matched(p, s, i, ([i] + t.at)[k], ([s[i..i + n]] + t.found)[k])
  {
    forall k | 0 <= k < |t.found| + 1
      ensures Matched(p, s, i, ([i] + t.at)[k], ([s[i..i + n]] + t.found)[k])
    {
      if k > 0 {
        assert Matched(p, s, i + n, t.at[k - 1], t.found[k - 1]);
      }
    }
  }

  /** Matches found from i + 1 are matches found from i. */
  lemma MatchedSkip(p: Pattern, s: string, i: nat, t: Scan)
    requires |t.at| == |t.found|
    requires forall k :: 0 <= k < |t.found| ==> Matched(p, s, i + 1, t.at[k], t.found[k])
    ensures forall k :: 0 <= k < |t.found| ==> Matched(p, s, i, t.at[k], t.found[k])
  {
  }

  lemma {:induction false} ScanMatches(p: Pattern, s: string, i: nat)
    requires i <= |s|
    ensures forall k :: 0 <= k < |ScanFrom(p, s, i).found| ==> Matched(p, s, i, ScanFrom(p, s, i).at[k], ScanFrom(p, s, i).found[k])
    decreases |s| - i
  {
    if i < |s| {
      var n := MatchAt(p, s, i);
      if n > 0 {
        ScanMatches(p, s, i + n);
        MatchedCons(p, s, i, n, ScanFrom(p, s, i + n));
      } else {
        ScanMatches(p, s, i + 1);
        MatchedSkip(p, s, i, ScanFrom(p, s, i + 1));
      }
    }
  }

  /** A scan finds nothing exactly when the pattern matches nowhere, and then it leaves the text whole. */
  lemma {:induction false} ScanNothing(p: Pattern, s: string, i: nat)
    requires i <= |s|
    ensures ScanFrom(p, s, i).found == [] <==> forall j :: i <= j < |s| ==> MatchAt(p, s, j) == 0
    ensures ScanFrom(p, s, i).found == [] ==> ScanFrom(p, s, i).rest == s[i..]
    decreases |s| - i
  {
    if i < |s| && MatchAt(p, s, i) == 0 {
      ScanNothing(p, s, i + 1);
      assert s[i..] == [s[i]] + s[i + 1..];
    }
  }

  /** The scan keeps every character it does not cut out: the matches and the rest together are as long as the text. */
  lemma {:induction false} ScanLength(p: Pattern, s: string, i: nat)
    requires i <= |s|
    ensures |ScanFrom(p, s, i).rest| + TotalLength(ScanFrom(p, s, i).found) == |s| - i
    decreases |s| - i
  {
    if i < |s| {
      var n := MatchAt(p, s, i);
      if n > 0 {
        ScanLength(p, s, i + n);
        var t := ScanFrom(p, s, i + n);
        assert ([s[i..i + n]] + t.found)[1..] == t.found;
      } else {
        ScanLength(p, s, i + 1);
      }
    }
  }

  function TotalLength(xs: seq<string>): nat {
    if xs == [] then 0 else |xs[0]| + TotalLength(xs[1..])
  }

  // ---------------------------------------------------------------------
  // extract_date

  /** strptime(text, "%Y-%m-%d") of every matched text; None when one is not a calendar date (ValueError). */
  function ParseDates(texts: seq<string>): (r: Option<seq<Date>>)
    ensures r.Some? ==> |r.value| == |texts| && forall k :: 0 <= k < |texts| ==> ParseDate(texts[k]) == Some(r.value[k])
  {
    if texts == [] then Some([])
    else
      match ParseDate(texts[0])
      case None => None
      case Some(d) =>
        match ParseDates(texts[1..])
        case None => None
        case Some(ds) => Some([d] + ds)
  }

  /** Reading the dates fails exactly when one of the texts is not a date. */
  lemma {:induction false} ParseDatesNone(texts: seq<string>)
    ensures ParseDates(texts).None? <==> exists k :: 0 <= k < |texts| && ParseDate(texts[k]).None?
  {
    if texts != [] {
      var tail := texts[1..];
      ParseDatesNone(tail);
      if ParseDate(texts[0]).None? {
        assert 0 <= 0 < |texts| && ParseDate(texts[0]).None?;
      } else {
        if ParseDates(tail).None? {
          var j :| 0 <= j < |tail| && ParseDate(tail[j]).None?;
          assert texts[j + 1] == tail[j];
        }
        if exists k :: 0 <= k < |texts| && ParseDate(texts[k]).None? {
          var j :| 0 <= j < |texts| && ParseDate(texts[j]).None?;
          assert j > 0 && tail[j - 1] == texts[j];
        }
      }
    }
  }

  /** min() of dates: one of them, and none is earlier. */
  function Earliest(ds: seq<Date>): (r: Date)
    requires ds != []
    ensures r in ds
    ensures forall k :: 0 <= k < |ds| ==> !DateBefore(ds[k], r)
  {
    if |ds| == 1 then ds[0]
    else
      var m := Earliest(ds[1..]);
      assert forall k :: 1 <= k < |ds| ==> ds[k] == ds[1..][k - 1];
      if DateBefore(m, ds[0]) then m else ds[0]
  }

  /**
   * extract_date: the earliest matched date, written "%Y-%m-%d", and the
   * text with every match cut out, stripped, and its whitespace runs made
   * single spaces; with no match, None and the text unchanged. The outer
   * None is the ValueError of a matched text that is not a calendar date.
   */
  function ExtractDate(s: string): (r: Option<(Option<string>, string)>)
  {
    var sc := ScanFrom(DatePattern, s, 0);
    if sc.found == [] then Some((None, s))
    else
      match ParseDates(sc.found)
      case None => None
      case Some(ds) => Some((Some(FormatDate(Earliest(ds))), CollapseSpaces(Strip(sc.rest))))
  }

  /** With no date in the text, extract_date finds none and leaves the text alone; otherwise it reports one. */
  lemma ExtractDateNone(s: string)
    ensures (forall j :: 0 <= j < |s| ==> !DateAt(s, j)) <==> ExtractDate(s) == Some((None, s))
  {
    ScanNothing(DatePattern, s, 0);
    assert s[0..] == s;
    if forall j :: 0 <= j < |s| ==> !DateAt(s, j) {
      forall j | 0 <= j < |s|
        ensures MatchAt(DatePattern, s, j) == 0
      {
        assert !DateAt(s, j);
      }
    } else {
      var j :| 0 <= j < |s| && DateAt(s, j);
      assert MatchAt(DatePattern, s, j) > 0;
    }
  }

  /** extract_date fails exactly when a matched text is not a calendar date. */
  lemma ExtractDateFails(s: string, sc: Scan)
    requires sc == ScanFrom(DatePattern, s, 0)
    ensures ExtractDate(s).None? <==> exists k :: 0 <= k < |sc.found| && ParseDate(sc.found[k]).None?
  {
    ParseDatesNone(sc.found);
    if sc.found == [] {
      assert ExtractDate(s) == Some((None, s));
    }
  }

  /** Both texts read as dates, and the second is no earlier than the first. */
  predicate NotEarlier(first: string, second: string) {
    ParseDate(first).Some? && ParseDate(second).Some? && !DateBefore(ParseDate(second).value, ParseDate(first).value)
  }

  /** The date extract_date reports is one of the matched dates, and no matched date is earlier. */
  lemma ExtractDateEarliest(s: string, sc: Scan) returns (k: nat)
    requires sc == ScanFrom(DatePattern, s, 0)
    requires ExtractDate(s).Some? && ExtractDate(s).value.0.Some?
    ensures k < |sc.found| && DateAt(s, sc.at[k]) && ParseDate(sc.found[k]).Some?
    ensures ExtractDate(s).value.0.value == FormatDate(ParseDate(sc.found[k]).value)
    ensures forall k' :: 0 <= k' < |sc.found| ==> NotEarlier(sc.found[k], sc.found[k'])
  {
    var ds := ParseDates(sc.found).value;
    var e := Earliest(ds);
    k :| 0 <= k < |ds| && ds[k] == e;
    assert DateAt(s, sc.at[k]) by {
      ScanMatches(DatePattern, s, 0);
      assert Matched(DatePattern, s, 0, sc.at[k], sc.found[k]);
    }
    assert ParseDate(sc.found[k]) == Some(e);
    forall k' | 0 <= k' < |sc.found|
      ensures NotEarlier(sc.found[k], sc.found[k'])
    {
      assert ParseDate(sc.found[k']) == Some(ds[k']);
    }
  }

  // ---------------------------------------------------------------------
  // extract_time

  /** The value of the two decimal digits at position i. */
  function TwoDigits(s: string, i: nat): (n: nat)
    requires i + 2 <= |s| && IsDigit(s[i]) && IsDigit(s[i + 1])
    ensures n < 100
  {
    DigitValue(s[i]) * 10 + DigitValue(s[i + 1])
  }

  /** strptime's one-or-two-digit field takes both of two digits followed by a non-digit. */
  lemma TwoDigitField(s: string, i: nat, lo: nat, hi: nat)
    requires i + 2 <= |s| && IsDigit(s[i]) && IsDigit(s[i + 1])
    requires i + 2 == |s| || !IsDigit(s[i + 2])
    requires lo <= TwoDigits(s, i) <= hi
    ensures Digits12(s, i, lo, hi) == Some((TwoDigits(s, i), i + 2))
  {
    var x := s[i..i + 2];
    assert x[..1] == [s[i]] && x[..1][..0] == [] && x[1] == s[i + 1];
    assert DigitsValue(x[..1]) == DigitValue(s[i]);
  }

  /** A text the time pattern matches: hour and minutes, and perhaps seconds. */
  predicate TimeText(t: string) {
    && (|t| == 5 || |t| == 8)
    && HourAt(t, 0) && t[2] == ':' && SixtyAt(t, 3)
    && (|t| == 8 ==> t[5] == ':' && SixtyAt(t, 6))
  }

  /** The time of day, in seconds, a time text stands for. */
  function ClockOf(t: string): (r: int)
    requires TimeText(t)
    ensures 0 <= r < SecondsPerDay
  {
    TwoDigits(t, 0) * 3600 + TwoDigits(t, 3) * 60 + (if |t| == 8 then TwoDigits(t, 6) else 0)
  }

  /** Every matched time text has two or three ':'-separated parts, and strptime reads it with the matching format. */
  lemma TimeTextParses(t: string)
    requires TimeText(t)
    ensures ':' in t
    ensures |Split(t, ':')| == if |t| == 8 then 3 else 2
    ensures ParseClock(t, |t| == 8) == Some(ClockOf(t))
  {
    TimeTextSplits(t);
    TimeTextClock(t);
  }

  lemma TimeTextSplits(t: string)
    requires TimeText(t)
    ensures |Split(t, ':')| == if |t| == 8 then 3 else 2
  {
    assert t[..2] == [t[0], t[1]];
    assert t == t[..2] + [':'] + t[3..];
    SplitAtSep(t[..2], ':', t[3..]);
    if |t| == 8 {
      assert t[3..5] == [t[3], t[4]];
      assert t[3..] == t[3..5] + [':'] + t[6..];
      SplitAtSep(t[3..5], ':', t[6..]);
      assert t[6..] == [t[6], t[7]];
      SplitNoSep(t[6..], ':');
    } else {
      assert t[3..] == [t[3], t[4]];
      SplitNoSep(t[3..], ':');
    }
  }

  lemma TimeTextClock(t: string)
    requires TimeText(t)
    ensures ParseClock(t, |t| == 8) == Some(ClockOf(t))
  {
    TwoDigitField(t, 0, 0, 23);
    TwoDigitField(t, 3, 0, 59);
    if |t| == 8 {
      TwoDigitField(t, 6, 0, 59);
    }
  }

  /** Every text the time scan finds is a time text. */
  lemma FoundTimeTexts(s: string)
    ensures forall k :: 0 <= k < |ScanFrom(TimePattern, s, 0).found| ==> TimeText(ScanFrom(TimePattern, s, 0).found[k])
  {
    var sc := ScanFrom(TimePattern, s, 0);
    ScanMatches(TimePattern, s, 0);
    forall k | 0 <= k < |sc.found|
      ensures TimeText(sc.found[k])
    {
      var t, at := sc.found[k], sc.at[k];
      assert Matched(TimePattern, s, 0, at, t);
      assert forall j :: 0 <= j < |t| ==> t[j] == s[at + j];
    }
  }

  /** The times the texts stand for, in order. */
  function TimesOf(texts: seq<string>): (r: seq<int>)
    requires forall k :: 0 <= k < |texts| ==> TimeText(texts[k])
  {
    seq(|texts|, k requires 0 <= k < |texts| => ClockOf(texts[k]))
  }

  /** The times of every match of the time pattern in s. */
  function FoundTimes(s: string): seq<int> {
    FoundTimeTexts(s);
    TimesOf(ScanFrom(TimePattern, s, 0).found)
  }

  /** min() of a non-empty list: one of its elements, and no element is smaller. */
  function MinOf(xs: seq<int>): (r: int)
    requires xs != []
    ensures r in xs && forall k :: 0 <= k < |xs| ==> r <= xs[k]
  {
    if |xs| == 1 then xs[0]
    else
      var m := MinOf(xs[1..]);
      assert forall k :: 1 <= k < |xs| ==> xs[k] == xs[1..][k - 1];
      if m < xs[0] then m else xs[0]
  }

  /** max() of a non-empty list: one of its elements, and no element is larger. */
  function MaxOf(xs: seq<int>): (r: int)
    requires xs != []
    ensures r in xs && forall k :: 0 <= k < |xs| ==> xs[k] <= r
  {
    if |xs| == 1 then xs[0]
    else
      var m := MaxOf(xs[1..]);
      assert forall k :: 1 <= k < |xs| ==> xs[k] == xs[1..][k - 1];
      if m > xs[0] then m else xs[0]
  }

  /** A time scan finds nothing exactly when the time pattern matches nowhere, and then it leaves the text whole. */
  lemma TimeScanNothing(s: string)
    ensures ScanFrom(TimePattern, s, 0).found == [] <==> forall j :: 0 <= j < |s| ==> TimeMatchAt(s, j) == 0
    ensures ScanFrom(TimePattern, s, 0).found == [] ==> ScanFrom(TimePattern, s, 0).rest == s
  {
    ScanNothing(TimePattern, s, 0);
    assert s[0..] == s;
    assert forall j :: MatchAt(TimePattern, s, j) == TimeMatchAt(s, j);
  }

  /** One pass of extract_time's loop: split on ':' and read the text with "%H:%M" or "%H:%M:%S" by its number of parts. */
  method ReadTime(timeStr: string) returns (t: Option<int>)
    ensures TimeText(timeStr) ==> t == Some(ClockOf(timeStr))
  {
    t := None;
    if ':' in timeStr {
      var parts := Split(timeStr, ':');
      if |parts| == 2 {
        t := ParseClock(timeStr, false);
      } else if |parts| == 3 {
        t := ParseClock(timeStr, true);
      }
    }
    if TimeText(timeStr) {
      TimeTextParses(timeStr);
    }
  }

  /**
   * extract_time: the earliest matched time, written "%H:%M"; the latest
   * one too when it is more than a minute later; and the text with every
   * match cut out, stripped, and its whitespace runs made single spaces.
   * With no match, neither time and the text unchanged.
   */
  method ExtractTime(s: string) returns (start: Option<string>, end: Option<string>, rest: string)
    ensures start.None? <==> forall j :: 0 <= j < |s| ==> TimeMatchAt(s, j) == 0
    ensures start.None? ==> end.None? && rest == s
    ensures start.Some? ==> ScanFrom(TimePattern, s, 0).found != []
    ensures start.Some? ==> start == Some(FormatHM(MinOf(FoundTimes(s))))
    ensures start.Some? ==> end == if MaxOf(FoundTimes(s)) - MinOf(FoundTimes(s)) > 60 then Some(FormatHM(MaxOf(FoundTimes(s)))) else None
    ensures start.Some? ==> rest == CollapseSpaces(Strip(ScanFrom(TimePattern, s, 0).rest))
  {
    var sc := ScanFrom(TimePattern, s, 0);
    var matches := sc.found;
    TimeScanNothing(s);
    if matches == [] {
      return None, None, s;
    }
    FoundTimeTexts(s);
    var times: seq<int> := [];
    var k := 0;
    while k < |matches|
      invariant 0 <= k <= |matches|
      invariant |times| == k && forall j :: 0 <= j < k ==> times[j] == ClockOf(matches[j])
    {
      var t := ReadTime(matches[k]);
      times := times + [t.value];
      k := k + 1;
    }
    assert times == FoundTimes(s);
    var earliest := MinOf(times);
    var latest := MaxOf(times);
    if latest - earliest > 60 {
      start, end := Some(FormatHM(earliest)), Some(FormatHM(latest));
    } else {
      start, end := Some(FormatHM(earliest)), None;
    }
    rest := CollapseSpaces(Strip(sc.rest));
  }

  // ---------------------------------------------------------------------
  // convert_to_utc

  /** An offset from UTC in seconds, east positive, less than a day either way. */
  type Offset = x: int | -86400 < x < 86400

  /**
   * A time zone as the offset it applies at each local wall-clock time;
   * the offset may vary with the date, as daylight saving makes it.
   */
  type Zone = DateTime -> Offset

  /** dateutil's UTC zone. */
  function Utc(t: DateTime): Offset {
    0
  }

  /** What convert_to_utc raises: the missing-argument ValueError, a strptime ValueError, an OverflowError. */
  datatype ConvertError = MissingField | Unparsable | OutOfRange

  /** The date, start and optional end that convert_to_utc returns. */
  datatype Converted = Converted(date: string, start: string, end: Option<string>)

  /** The nested _parse_datetime: date and time joined by a blank, with seconds when the time has two ':'. */
  function ParseAt(date: string, time: string): (r: Option<DateTime>)
    ensures r.Some? ==> ValidDateTime(r.value)
  {
    ParseDateTime(date + " " + time, CountChar(time, ':') == 2)
  }

  /** A local time seen in UTC: the zone's offset at that wall-clock time taken off; None past year 9999 or before year 1. */
  function ToUtc(t: DateTime, zone: Zone): (r: Option<DateTime>)
    requires ValidDateTime(t)
    ensures r.Some? ==> ValidDateTime(r.value)
  {
    AddSeconds(t, -zone(t))
  }

  /**
   * The end of the event on the start's date, moved on a day when it is
   * earlier than the start: it then falls within the day after the start.
   */
  function EndAfter(date: string, endTime: string, start: DateTime): (r: Result<DateTime, ConvertError>)
    requires ValidDateTime(start)
    ensures r.Ok? ==> ValidDateTime(r.value)
    ensures r == Err(Unparsable) <==> ParseAt(date, endTime).None?
    ensures r.Ok? && ParseAt(date, endTime).value.date == start.date ==>
      || (r.value.date == start.date && start.secs <= r.value.secs)
      || (NextDay(start.date) == Some(r.value.date) && r.value.secs < start.secs)
  {
    match ParseAt(date, endTime)
    case None => Err(Unparsable)
    case Some(e) =>
      if Before(e, start) then
        match AddDay(e)
        case None => Err(OutOfRange)
        case Some(later) => Ok(later)
      else Ok(e)
  }

  /** The path without a zone name: the parsed values written again, the end moved past the start as above. */
  function Normalised(date: string, endTime: Option<string>, st: DateTime): (r: Result<Converted, ConvertError>)
    requires ValidDateTime(st)
    ensures r.Ok? ==> r.value.date == FormatDate(st.date) && r.value.start == FormatHM(st.secs)
    ensures r.Ok? ==> (r.value.end.Some? <==> Schedule.Truthy(endTime))
  {
    if !Schedule.Truthy(endTime) then Ok(Converted(FormatDate(st.date), FormatHM(st.secs), None))
    else
      match EndAfter(date, endTime.value, st)
      case Err(e) => Err(e)
      case Ok(en) => Ok(Converted(FormatDate(st.date), FormatHM(st.secs), Some(FormatHM(en.secs))))
  }

  /** The path with a zone: start and end read in the zone and written in UTC. */
  function Shifted(date: string, endTime: Option<string>, st: DateTime, zone: Zone): (r: Result<Converted, ConvertError>)
    requires ValidDateTime(st)
    ensures r.Ok? ==> ToUtc(st, zone).Some?
    ensures r.Ok? ==> r.value.date == FormatDate(ToUtc(st, zone).value.date) && r.value.start == FormatHM(ToUtc(st, zone).value.secs)
    ensures r.Ok? ==> (r.value.end.Some? <==> Schedule.Truthy(endTime))
  {
    match ToUtc(st, zone)
    case None => Err(OutOfRange)
    case Some(su) =>
      if !Schedule.Truthy(endTime) then Ok(Converted(FormatDate(su.date), FormatHM(su.secs), None))
      else
        match EndAfter(date, endTime.value, st)
        case Err(e) => Err(e)
        case Ok(en) =>
          match ToUtc(en, zone)
          case None => Err(OutOfRange)
          case Some(eu) => Ok(Converted(FormatDate(su.date), FormatHM(su.secs), Some(FormatHM(eu.secs))))
  }

  /**
   * convert_to_utc: the start (and the end, when given) on the date, read
   * as wall-clock times of the named zone, written in UTC. An unresolvable
   * zone name is taken as UTC; with no zone name at all the values are only
   * read and written again. gettz stands for dateutil's zone lookup.
   */
  function ConvertToUtc(date: Option<string>, startTime: Option<string>, endTime: Option<string>,
                        tzName: Option<string>, gettz: string -> Option<Zone>): (r: Result<Converted, ConvertError>)
    ensures r == Err(MissingField) <==> !Schedule.Truthy(date) || !Schedule.Truthy(startTime)
    ensures r.Ok? ==> (r.value.end.Some? <==> Schedule.Truthy(endTime))
  {
    if !Schedule.Truthy(date) || !Schedule.Truthy(startTime) then Err(MissingField)
    else
      match ParseAt(date.value, startTime.value)
      case None => Err(Unparsable)
      case Some(st) =>
        if !Schedule.Truthy(tzName) then Normalised(date.value, endTime, st)
        else Shifted(date.value, endTime, st, gettz(tzName.value).GetOr(Utc))
  }

  // Reading the date part never passes the blank after it.

  /** s and t agree up to and including position k, which holds neither a digit nor '-'. */
  predicate AgreeThrough(s: string, t: string, k: nat) {
    k < |s| && k < |t| && !IsDigit(s[k]) && s[k] != '-' && s[..k + 1] == t[..k + 1]
  }

  lemma Digits4Local(s: string, t: string, k: nat, i: nat)
    requires AgreeThrough(s, t, k) && i <= k && Digits4(s, i).Some?
    ensures Digits4(t, i) == Digits4(s, i) && Digits4(s, i).value.1 <= k
  {
    assert forall j :: i <= j < i + 4 ==> s[j] == s[i..i + 4][j - i];
    assert i + 4 <= k;
    assert s[i..i + 4] == s[..k + 1][i..i + 4] == t[..k + 1][i..i + 4] == t[i..i + 4];
  }

  lemma Digits12Local(s: string, t: string, k: nat, i: nat, lo: nat, hi: nat)
    requires AgreeThrough(s, t, k) && i <= k && Digits12(s, i, lo, hi).Some?
    ensures Digits12(t, i, lo, hi) == Digits12(s, i, lo, hi) && Digits12(s, i, lo, hi).value.1 <= k
  {
    assert s[i] == s[..k + 1][i] == t[..k + 1][i] == t[i];
    assert i < k;
    assert s[i + 1] == s[..k + 1][i + 1] == t[..k + 1][i + 1] == t[i + 1];
    assert s[i..i + 1] == s[..k + 1][i..i + 1] == t[..k + 1][i..i + 1] == t[i..i + 1];
    assert s[i..i + 2] == s[..k + 1][i..i + 2] == t[..k + 1][i..i + 2] == t[i..i + 2];
  }

  lemma DashLocal(s: string, t: string, k: nat, i: nat)
    requires AgreeThrough(s, t, k) && i <= k && Literal(s, i, '-').Some?
    ensures Literal(t, i, '-') == Literal(s, i, '-') && Literal(s, i, '-').value <= k
  {
    assert s[i] == s[..k + 1][i] == t[..k + 1][i] == t[i];
  }

  /** The date part reads the same from two texts that agree through a blank after it. */
  lemma DatePartLocal(s: string, t: string, k: nat)
    requires AgreeThrough(s, t, k) && ParseDateAt(s, 0).Some?
    ensures ParseDateAt(t, 0) == ParseDateAt(s, 0)
  {
    Digits4Local(s, t, k, 0);
    var i1 := Digits4(s, 0).value.1;
    DashLocal(s, t, k, i1);
    var i2 := Literal(s, i1, '-').value;
    Digits12Local(s, t, k, i2, 1, 12);
    var i3 := Digits12(s, i2, 1, 12).value.1;
    DashLocal(s, t, k, i3);
    var i4 := Literal(s, i3, '-').value;
    Digits12Local(s, t, k, i4, 1, 31);
  }

  /** Start and end are read on the same date: the date part does not depend on the time after it. */
  lemma SameDate(date: string, t1: string, t2: string)
    requires ParseAt(date, t1).Some? && ParseAt(date, t2).Some?
    ensures ParseAt(date, t1).value.date == ParseAt(date, t2).value.date
  {
    var s1, s2 := date + " " + t1, date + " " + t2;
    var k := |date|;
    assert s1[..k + 1] == date + " " == s2[..k + 1];
    assert s1[k] == ' ';
    DatePartLocal(s1, s2, k);
  }

  // Properties of convert_to_utc

  /** en lies in the 24 hours after st: later the same day, or earlier in the clock on the next day. */
  predicate WithinDayAfter(st: DateTime, en: DateTime)
    requires ValidDateTime(st)
  {
    || (en.date == st.date && st.secs <= en.secs)
    || (NextDay(st.date) == Some(en.date) && en.secs < st.secs)
  }

  /** The local end convert_to_utc works from lies within the day after the local start. */
  lemma ConvertEndWithinDay(date: Option<string>, startTime: Option<string>, endTime: Option<string>,
                            tzName: Option<string>, gettz: string -> Option<Zone>)
    requires ConvertToUtc(date, startTime, endTime, tzName, gettz).Ok?
    requires Schedule.Truthy(endTime)
    ensures date.Some? && startTime.Some? && endTime.Some? && ParseAt(date.value, startTime.value).Some?
    ensures EndAfter(date.value, endTime.value, ParseAt(date.value, startTime.value).value).Ok?
    ensures WithinDayAfter(ParseAt(date.value, startTime.value).value, EndAfter(date.value, endTime.value, ParseAt(date.value, startTime.value).value).value)
  {
    var st := ParseAt(date.value, startTime.value).value;
    SameDate(date.value, startTime.value, endTime.value);
  }

  /** A zone that is UTC everywhere moves nothing. */
  lemma ToUtcZero(t: DateTime, zone: Zone)
    requires ValidDateTime(t) && forall u :: zone(u) == 0
    ensures ToUtc(t, zone) == Some(t)
  {
    AddSecondsOrder(t, 0);
  }

  /** Naming UTC, or a zone that cannot be resolved, gives what no zone name gives. */
  lemma ConvertUtcIdentity(date: Option<string>, startTime: Option<string>, endTime: Option<string>,
                           name: string, gettz: string -> Option<Zone>)
    requires name != []
    requires gettz(name).None? || forall u :: gettz(name).value(u) == 0
    ensures ConvertToUtc(date, startTime, endTime, Some(name), gettz) == ConvertToUtc(date, startTime, endTime, None, gettz)
  {
    if Schedule.Truthy(date) && Schedule.Truthy(startTime) && ParseAt(date.value, startTime.value).Some? {
      var st := ParseAt(date.value, startTime.value).value;
      var zone := gettz(name).GetOr(Utc);
      ToUtcZero(st, zone);
      if Schedule.Truthy(endTime) && EndAfter(date.value, endTime.value, st).Ok? {
        ToUtcZero(EndAfter(date.value, endTime.value, st).value, zone);
      }
    }
  }

  /** A UTC instant that the offset carries back to the local time. */
  lemma ShiftBack(st: DateTime, zone: Zone)
    requires ValidDateTime(st) && ToUtc(st, zone).Some?
    ensures AddSeconds(ToUtc(st, zone).value, zone(st)) == Some(st)
  {
    AddSecondsInverse(st, -zone(st));
  }

  /**
   * With a zone, the date and start written are those of a UTC instant
   * which the zone's offset at the local start carries back to that start.
   */
  lemma ConvertShiftBack(date: Option<string>, startTime: Option<string>, endTime: Option<string>,
                         name: string, gettz: string -> Option<Zone>)
    requires name != []
    requires ConvertToUtc(date, startTime, endTime, Some(name), gettz).Ok?
    ensures date.Some? && startTime.Some? && ParseAt(date.value, startTime.value).Some?
    ensures exists su: DateTime :: (ValidDateTime(su)
      && AddSeconds(su, gettz(name).GetOr(Utc)(ParseAt(date.value, startTime.value).value)) == Some(ParseAt(date.value, startTime.value).value)
      && ConvertToUtc(date, startTime, endTime, Some(name), gettz).value.date == FormatDate(su.date)
      && ConvertToUtc(date, startTime, endTime, Some(name), gettz).value.start == FormatHM(su.secs))
  {
    var st := ParseAt(date.value, startTime.value).value;
    var zone := gettz(name).GetOr(Utc);
    var r := Shifted(date.value, endTime, st, zone);
    assert ConvertToUtc(date, startTime, endTime, Some(name), gettz) == r;
    var su := ToUtc(st, zone).value;
    ShiftBack(st, zone);
    assert ValidDateTime(su) && AddSeconds(su, zone(st)) == Some(st) && r.value.date == FormatDate(su.date) && r.value.start == FormatHM(su.secs);
  }

  // The normal forms convert_to_utc writes: "%Y-%m-%d" and "%H:%M".

  /** date holds a four-digit year, month and day as strftime("%Y-%m-%d") writes them. */
  predicate DateLaidOut(date: string, d: Date) {
    ValidDate(d) && |date| == 10 && date[0..4] == NatToString(d.year) && date[4] == '-' && date[5..7] == Pad2(d.month)
    && date[7] == '-' && date[8..10] == Pad2(d.day)
  }

  /** time holds an hour and a minute as strftime("%H:%M") writes them. */
  predicate ClockLaidOut(time: string, h: nat, m: nat) {
    |time| == 5 && time[0..2] == Pad2(h) && time[2] == ':' && time[3..5] == Pad2(m)
  }

  /** The laid-out dates are exactly what strftime("%Y-%m-%d") writes, for four-digit years. */
  lemma LaidOutDate(date: string, d: Date)
    requires ValidDate(d) && d.year >= 1000
    ensures DateLaidOut(date, d) <==> date == FormatDate(d)
  {
    var y, mo, da := NatToString(d.year), Pad2(d.month), Pad2(d.day);
    assert |y| == 4 && |mo| == 2 && |da| == 2;
    assert FormatDate(d) == y + "-" + mo + "-" + da;
    DateFields(date, y, mo, da);
  }

  /** The laid-out clocks are exactly what strftime("%H:%M") writes. */
  lemma LaidOutClock(time: string, h: nat, m: nat)
    requires h < 24 && m < 60
    ensures ClockLaidOut(time, h, m) <==> time == FormatHM(h * 3600 + m * 60)
  {
    ClockFields(h, m);
    var hh, mm := Pad2(h), Pad2(m);
    var f := FormatHM(h * 3600 + m * 60);
    assert f == hh + ":" + mm;
    assert f[0..2] == hh && f[3..5] == mm;
    if ClockLaidOut(time, h, m) {
      assert time == time[0..2] + [time[2]] + time[3..5];
    }
  }

  /** A laid-out clock holds exactly one ':'. */
  lemma ColonCount(time: string, h: nat, m: nat)
    requires h < 24 && m < 60 && ClockLaidOut(time, h, m)
    ensures CountChar(time, ':') == 1
  {
    Pad2Chars(h);
    Pad2Chars(m);
    var a, b := time[0..2], time[3..5];
    assert time == a + [':'] + b;
    assert ':' !in a && ':' !in b by {
      assert a == Pad2(h) && b == Pad2(m);
    }
    CountCharAppend(a + [':'], b, ':');
    CountCharAppend(a, [':'], ':');
  }

  /** Where the fields of a laid-out date and clock lie once joined by a blank. */
  lemma JoinFields(date: string, time: string, s: string)
    requires |date| == 10 && |time| == 5 && s == date + " " + time
    ensures |s| == 16 && s[0..4] == date[0..4] && s[4] == date[4] && s[5..7] == date[5..7] && s[7] == date[7]
    ensures s[8..10] == date[8..10] && s[10] == ' ' && s[11..13] == time[0..2] && s[13] == time[2]
    ensures s[14..16] == time[3..5]
  {
  }

  /** _parse_datetime reads back a laid-out date and clock, and strftime writes them again as they were. */
  lemma ReadLaidOut(date: string, time: string, d: Date, h: nat, m: nat)
    requires ValidDate(d) && d.year >= 1000 && h < 24 && m < 60
    requires DateLaidOut(date, d) && ClockLaidOut(time, h, m)
    ensures ParseAt(date, time) == Some(DateTime(d, h * 3600 + m * 60))
    ensures FormatDate(d) == date && FormatHM(h * 3600 + m * 60) == time
  {
    assert FormatDate(d) == date by {
      LaidOutDate(date, d);
    }
    assert FormatHM(h * 3600 + m * 60) == time by {
      LaidOutClock(time, h, m);
    }
    var s := date + " " + time;
    assert ParseDateTime(s, false) == Some(DateTime(d, h * 3600 + m * 60)) by {
      JoinFields(date, time, s);
      DateTimeRead(s, d, h, m);
    }
    assert CountChar(time, ':') == 1 by {
      ColonCount(time, h, m);
    }
    ParseAtWithout(date, time, s, DateTime(d, h * 3600 + m * 60));
  }

  /** strptime's "%Y-%m-%d" reads a four-digit date written by strftime at the start of a longer text. */
  lemma DatePartRead(s: string, d: Date)
    requires ValidDate(d) && d.year >= 1000
    requires 10 < |s| && s[0..4] == NatToString(d.year) && s[4] == '-' && s[5..7] == Pad2(d.month)
    requires s[7] == '-' && s[8..10] == Pad2(d.day) && !IsDigit(s[10])
    ensures ParseDateAt(s, 0) == Some((d, 10))
  {
    assert Digits4(s, 0) == Some((d.year, 4));
    Digits12Pad2(s, 5, d.month, 1, 12);
    Digits12Pad2(s, 8, d.day, 1, 31);
  }
  /** strptime's "%H:%M" reads a clock written by strftime at the end of a text. */
  lemma ClockPartRead(s: string, i: nat, h: nat, m: nat)
    requires h < 24 && m < 60
    requires i + 5 == |s| && s[i..i + 2] == Pad2(h) && s[i + 2] == ':' && s[i + 3..i + 5] == Pad2(m)
    ensures ParseClockAt(s, i, false) == Some((h * 3600 + m * 60, i + 5))
  {
    Digits12Pad2(s, i, h, 0, 23);
    Digits12Pad2(s, i + 3, m, 0, 59);
  }
  /** The three steps of _parse_datetime's strptime put together. */
  lemma DateTimeSteps(s: string, d: Date, t: int, i1: nat, i2: nat)
    requires ParseDateAt(s, 0) == Some((d, i1)) && Blanks(s, i1) == Some(i2)
    requires ParseClockAt(s, i2, false) == Some((t, |s|))
    ensures ParseDateTime(s, false) == Some(DateTime(d, t))
  {
  }
  /** strptime("%Y-%m-%d %H:%M") reads back a date and a clock laid out in that form, for four-digit years. */
  lemma DateTimeRead(s: string, d: Date, h: nat, m: nat)
    requires ValidDate(d) && d.year >= 1000 && h < 24 && m < 60
    requires |s| == 16 && s[0..4] == NatToString(d.year) && s[4] == '-' && s[5..7] == Pad2(d.month) && s[7] == '-'
    requires s[8..10] == Pad2(d.day) && s[10] == ' ' && s[11..13] == Pad2(h) && s[13] == ':' && s[14..16] == Pad2(m)
    ensures ParseDateTime(s, false) == Some(DateTime(d, h * 3600 + m * 60))
  {
    assert ParseDateAt(s, 0) == Some((d, 10)) by {
      DatePartRead(s, d);
    }
    assert Blanks(s, 10) == Some(11) by {
      Pad2Chars(h);
      assert s[11] == s[11..13][0];
      DigitNotSpace(s[11]);
      assert IsSpace(' ');
      OneBlank(s, 10);
    }
    assert ParseClockAt(s, 11, false) == Some((h * 3600 + m * 60, 16)) by {
      ClockPartRead(s, 11, h, m);
    }
    DateTimeSteps(s, d, h * 3600 + m * 60, 10, 11);
  }
  /** _parse_datetime on a time without two ':' is strptime without seconds on the joined text. */
  lemma ParseAtWithout(date: string, time: string, s: string, dt: DateTime)
    requires s == date + " " + time && CountChar(time, ':') == 1
    requires ParseDateTime(s, false) == Some(dt)
    ensures ParseAt(date, time) == Some(dt)
  {
  }
  /** Without a zone name, convert_to_utc is the plain path from the parsed start. */
  lemma PlainPath(date: string, startTime: string, endTime: Option<string>, tzName: Option<string>,
                  gettz: string -> Option<Zone>, st: DateTime)
    requires date != [] && startTime != [] && !Schedule.Truthy(tzName)
    requires ParseAt(date, startTime) == Some(st)
    ensures ConvertToUtc(Some(date), Some(startTime), endTime, tzName, gettz) == Normalised(date, endTime, st)
  {
  }
  /** _parse_datetime reads back what strftime("%Y-%m-%d") and strftime("%H:%M") write, for four-digit years. */
  lemma ReadFormatted(d: Date, h: nat, m: nat)
    requires ValidDate(d) && d.year >= 1000 && h < 24 && m < 60
    ensures ParseAt(FormatDate(d), FormatHM(h * 3600 + m * 60)) == Some(DateTime(d, h * 3600 + m * 60))
    ensures FormatDate(d) != [] && FormatHM(h * 3600 + m * 60) != []
  {
    assert DateLaidOut(FormatDate(d), d) by {
      LaidOutDate(FormatDate(d), d);
    }
    assert ClockLaidOut(FormatHM(h * 3600 + m * 60), h, m) by {
      LaidOutClock(FormatHM(h * 3600 + m * 60), h, m);
    }
    ReadLaidOut(FormatDate(d), FormatHM(h * 3600 + m * 60), d, h, m);
  }

  /**
   * Without a zone name or an end, a date and a start already in the form
   * strftime writes them back in come back unchanged; ReadFormatted shows
   * that every "%Y-%m-%d" date with a four-digit year and every "%H:%M"
   * clock is in that form.
   */
  lemma ConvertNormalForm(date: string, startTime: string, tzName: Option<string>,
                          gettz: string -> Option<Zone>, st: DateTime)
    requires date != [] && startTime != [] && !Schedule.Truthy(tzName)
    requires ParseAt(date, startTime) == Some(st) && FormatDate(st.date) == date && FormatHM(st.secs) == startTime
    ensures ConvertToUtc(Some(date), Some(startTime), None, tzName, gettz) == Ok(Converted(date, startTime, None))
  {
    PlainPath(date, startTime, None, tzName, gettz, st);
  }

  /** An end read on the start's date is written as its own clock, whether or not it moves to the next day. */
  lemma NormalisedEnd(date: string, endTime: string, st: DateTime, en: DateTime)
    requires ValidDateTime(st) && endTime != [] && ParseAt(date, endTime) == Some(en)
    requires en.date == st.date && st.date != Date(MaxYear, 12, 31)
    ensures Normalised(date, Some(endTime), st) == Ok(Converted(FormatDate(st.date), FormatHM(st.secs), Some(FormatHM(en.secs))))
  {
  }

  /**
   * Without a zone name, the start's date and both clocks are written as
   * read, whether or not the end is past midnight (short of the last day
   * datetime can hold).
   */
  lemma PlainPathEnd(date: string, startTime: string, endTime: string, tzName: Option<string>,
                     gettz: string -> Option<Zone>, st: DateTime, en: DateTime)
    requires date != [] && startTime != [] && endTime != [] && !Schedule.Truthy(tzName)
    requires ParseAt(date, startTime) == Some(st) && ParseAt(date, endTime) == Some(en)
    requires st.date != Date(MaxYear, 12, 31)
    ensures ConvertToUtc(Some(date), Some(startTime), Some(endTime), tzName, gettz)
      == Ok(Converted(FormatDate(st.date), FormatHM(st.secs), Some(FormatHM(en.secs))))
  {
    SameDate(date, startTime, endTime);
    PlainPath(date, startTime, Some(endTime), tzName, gettz, st);
    NormalisedEnd(date, endTime, st, en);
  }

}
