/**
 * The request handlers of the playlist server: /stream/<id> (channel
 * lookup, live-program resolution and the framed transport stream),
 * /playlist.m3u, /epg.xml and /health, over a schedule given as a value.
 */
module Server {
  import opened Wrappers
  import opened Text
  import opened Schedule
  import opened TsFramer

  /** channel_id.replace('.ts', ''): every occurrence goes, not only a trailing one. */
  function StripTs(id: string): string {
    ReplaceAll(id, ".ts", "")
  }

  /** A string and a following ".ts" never form an occurrence across the boundary. */
  lemma NoStraddle(id: string)
    requires id != [] && !Contains(id, ".ts")
    ensures (id + ".ts")[..3] != ".ts"
  {
    var t := id + ".ts";
    if |id| >= 3 {
      assert !OccursAt(id, ".ts", 0);
      assert t[..3] == id[..3];
    } else if |id| == 2 {
      assert t[2] == '.';
    } else {
      assert t[1] == '.';
    }
  }

  /**
   * The path the playlist writes for a channel, <id>.ts, leads back to the
   * channel id, provided the id itself holds no ".ts".
   */
  lemma {:induction false} StripTsSuffix(id: string)
    requires !Contains(id, ".ts")
    ensures StripTs(id + ".ts") == id
  {
    var t := id + ".ts";
    if id == [] {
      assert t == ".ts" && t[..3] == ".ts" && t[3..] == [];
      assert ReplaceAll(t, ".ts", "") == "" + ReplaceAll([], ".ts", "");
    } else {
      NoStraddle(id);
      assert t[1..] == id[1..] + ".ts";
      assert ReplaceAll(t, ".ts", "") == [t[0]] + ReplaceAll(t[1..], ".ts", "");
      forall i | 0 <= i <= |id[1..]|
        ensures !OccursAt(id[1..], ".ts", i)
      {
        if OccursAt(id[1..], ".ts", i) {
          OccursShift(id, ".ts", i);
        }
      }
      StripTsSuffix(id[1..]);
      assert [id[0]] + id[1..] == id;
    }
  }

  /** An id holding ".ts" is requested under a different id: "a.tsb" is looked up as "ab". */
  lemma StripTsInner()
    ensures StripTs("a.tsb" + ".ts") == "ab"
  {
    var s := "a.tsb.ts";
    assert "a.tsb" + ".ts" == s;
    assert s[..3][0] == 'a';
    assert ReplaceAll(s, ".ts", "") == "a" + ReplaceAll(s[1..], ".ts", "");
    assert s[1..] == ".tsb.ts" && s[1..][..3] == ".ts" && s[1..][3..] == "b.ts";
    var u := "b.ts";
    assert ReplaceAll(s[1..], ".ts", "") == "" + ReplaceAll(u, ".ts", "");
    assert u[..3][0] == 'b' && u[1..] == ".ts";
    assert ReplaceAll(u, ".ts", "") == "b" + ReplaceAll(".ts", ".ts", "");
    assert ".ts"[..3] == ".ts" && ".ts"[3..] == [];
    assert ReplaceAll(".ts", ".ts", "") == [];
  }

  /**
   * The lookup loop of the /stream handler: the outer loop walks the
   * patterns, the inner loop their service channels, and both stop at the
   * first channel whose id matches.
   */
  method FindChannel(sched: seq<PatternData>, id: string) returns (channel: Option<ServiceChannel>)
    ensures channel == LookupChannel(sched, id)
  {
    channel := None;
    var p := 0;
    while p < |sched|
      invariant 0 <= p <= |sched|
      invariant channel.None?
      invariant LookupChannel(sched, id) == LookupChannel(sched[p..], id)
    {
      var chs := sched[p].serviceChannels;
      var k := 0;
      while k < |chs|
        invariant 0 <= k <= |chs|
        invariant channel.None?
        invariant forall j :: 0 <= j < k ==> chs[j].id != id
      {
        if chs[k].id == id {
          channel := Some(chs[k]);
          break;
        }
        k := k + 1;
      }
      assert sched[p..][0] == sched[p] && sched[p..][1..] == sched[p + 1..];
      if channel.Some? {
        break;
      }
      p := p + 1;
    }
  }

  /**
   * The event loop of the /stream handler: the first program with both
   * "start_dt" and "stop_dt" whose window holds now.
   */
  method FindLiveEvent(programs: seq<Program>, now: int) returns (event: Option<Program>)
    ensures event == CurrentEvent(programs, DtKeys, now)
  {
    event := None;
    var i := 0;
    while i < |programs|
      invariant 0 <= i <= |programs|
      invariant forall j :: 0 <= j < i ==> !LiveAt(programs[j], DtKeys, now)
    {
      var program := programs[i];
      if program.startDt.None? || program.stopDt.None? {
        i := i + 1;
        continue;
      }
      if program.startDt.value <= now < program.stopDt.value {
        FirstLiveIs(programs, DtKeys, now, i);
        event := Some(program);
        return;
      }
      i := i + 1;
    }
  }

  /** What the upstream server answers for a URL: its status and its body in chunks. */
  datatype Upstream = Upstream(status: int, chunks: seq<seq<Byte>>)

  /**
   * A 404 with its text, a 500 from an uncaught exception, or a 200
   * carrying the framed packets from the program's URL.
   */
  datatype StreamReply = NotFound(message: string) | InternalError | TsStream(url: string, packets: seq<seq<Byte>>)

  /** The /stream/<channel_id> handler. */
  method Stream(sched: seq<PatternData>, channelId: string, now: int, upstream: string -> Upstream)
    returns (reply: StreamReply)
    ensures LookupChannel(sched, StripTs(channelId)).None? ==> reply == NotFound("Channel not found")
    ensures LookupChannel(sched, StripTs(channelId)).Some? ==>
      var ev := CurrentEvent(LookupChannel(sched, StripTs(channelId)).value.programs, DtKeys, now);
      if !(ev.Some? && Truthy(ev.value.streamUrl)) then reply == NotFound("No active event")
      else if ev.value.programName.Missing? then reply == InternalError
      else
        var src := upstream(ev.value.streamUrl.value);
        reply == TsStream(ev.value.streamUrl.value, FrameStream(src.status, src.chunks))
    ensures reply.TsStream? ==> forall k :: 0 <= k < |reply.packets| ==> IsTsPacket(reply.packets[k])
  {
    var id := StripTs(channelId);
    var channel := FindChannel(sched, id);
    if channel.None? {
      return NotFound("Channel not found");
    }
    var event := FindLiveEvent(channel.value.programs, now);
    if event.None? || !Truthy(event.value.streamUrl) {
      return NotFound("No active event");
    }
    if event.value.programName.Missing? {
      // the log line subscripts program_name: a KeyError, answered with a 500
      return InternalError;
    }
    var url := event.value.streamUrl.value;
    var src := upstream(url);
    var packets := StreamTs(src.status, src.chunks);
    reply := TsStream(url, packets);
  }

  /** The /health channel count: the service channels of every pattern, summed. */
  function Health(sched: seq<PatternData>): (total: nat)
    ensures total == |AllChannels(sched)|
  {
    if sched == [] then 0 else |sched[0].serviceChannels| + Health(sched[1..])
  }

  /** A channel the playlist and the guide list, with the category of its pattern. */
  datatype Entry = Entry(channel: ServiceChannel, category: JsonText)

  /** The channels of one pattern that have at least one program, in list order. */
  function ListedIn(chs: seq<ServiceChannel>, category: JsonText): (es: seq<Entry>)
    ensures |es| <= |chs|
    ensures forall k :: 0 <= k < |es| ==> |es[k].channel.programs| > 0 && es[k].category == category
  {
    if chs == [] then []
    else
      var last := chs[|chs| - 1];
      ListedIn(chs[..|chs| - 1], category) + (if |last.programs| > 0 then [Entry(last, category)] else [])
  }

  /** The listed channels of every pattern, in pattern order. */
  function Listed(sched: seq<PatternData>): seq<Entry> {
    if sched == [] then []
    else
      var last := sched[|sched| - 1];
      Listed(sched[..|sched| - 1]) + ListedIn(last.serviceChannels, last.category)
  }

  const ExtinfHead: string := "#EXTINF:-1 tvg-id=\""
  const NameAttr: string := "\" tvg-name=\""
  const LogoAttr: string := "\" tvg-logo=\""
  const GroupAttr: string := "\" group-title=\""
  const LabelSep: string := "\","
  const StreamPath: string := "/stream/"
  const TsSuffix: string := ".ts"

  /** The EXTINF line written for a channel whose `icon_url` and `category` keys are present; null prints as "None". */
  function ExtinfLine(e: Entry): string {
    var c := e.channel;
    Join([ExtinfHead, c.id, NameAttr, c.channelName, LogoAttr, FStr(c.iconUrl),
      GroupAttr, FStr(e.category), LabelSep, c.channelName], "")
  }

  /** The URL line written for a channel: this server's own /stream route. */
  function StreamLine(base: string, id: string): string {
    base + StreamPath + id + TsSuffix
  }

  /** Two lines per listed channel. */
  function EntryLines(es: seq<Entry>, base: string): seq<string> {
    if es == [] then []
    else
      var last := es[|es| - 1];
      EntryLines(es[..|es| - 1], base) + [ExtinfLine(last), StreamLine(base, last.channel.id)]
  }

  /** The lines of /playlist.m3u before they are joined. */
  function PlaylistLines(sched: seq<PatternData>, base: string): seq<string> {
    ["#EXTM3U"] + EntryLines(Listed(sched), base)
  }

  /**
   * The playlist is the header and then exactly two lines per channel with
   * programs, in schedule order: its EXTINF line, then its stream URL.
   */
  lemma {:induction false} EntryLinesAt(es: seq<Entry>, base: string)
    ensures |EntryLines(es, base)| == 2 * |es|
    ensures forall k :: 0 <= k < |es| ==>
      && EntryLines(es, base)[2 * k] == ExtinfLine(es[k])
      && EntryLines(es, base)[2 * k + 1] == StreamLine(base, es[k].channel.id)
  {
    if es != [] {
      var init := es[..|es| - 1];
      EntryLinesAt(init, base);
      EntryLinesSnoc(init, es[|es| - 1], base);
      assert init + [es[|es| - 1]] == es;
      var prev := EntryLines(init, base);
      forall k | 0 <= k < |init|
        ensures EntryLines(es, base)[2 * k] == prev[2 * k]
        ensures EntryLines(es, base)[2 * k + 1] == prev[2 * k + 1]
      {
      }
    }
  }

  lemma EntryLinesSnoc(es: seq<Entry>, e: Entry, base: string)
    ensures EntryLines(es + [e], base) == EntryLines(es, base) + [ExtinfLine(e), StreamLine(base, e.channel.id)]
  {
    assert (es + [e])[..|es|] == es;
  }

  lemma ListedInSnoc(chs: seq<ServiceChannel>, k: nat, category: JsonText)
    requires k < |chs|
    ensures ListedIn(chs[..k + 1], category) ==
      ListedIn(chs[..k], category) + (if |chs[k].programs| > 0 then [Entry(chs[k], category)] else [])
  {
    assert chs[..k + 1][..k] == chs[..k];
  }

  lemma ListedSnoc(sched: seq<PatternData>, i: nat)
    requires i < |sched|
    ensures Listed(sched[..i + 1]) == Listed(sched[..i]) + ListedIn(sched[i].serviceChannels, sched[i].category)
  {
    assert sched[..i + 1][..i] == sched[..i];
  }

  /** The number of channels that have at least one program. */
  function WithPrograms(chs: seq<ServiceChannel>): (n: nat)
    ensures n <= |chs|
  {
    if chs == [] then 0 else (if |chs[0].programs| > 0 then 1 else 0) + WithPrograms(chs[1..])
  }

  lemma {:induction false} WithProgramsAppend(a: seq<ServiceChannel>, b: seq<ServiceChannel>)
    ensures WithPrograms(a + b) == WithPrograms(a) + WithPrograms(b)
  {
    if a == [] {
      assert a + b == b;
    } else {
      WithProgramsAppend(a[1..], b);
      assert (a + b)[1..] == a[1..] + b;
    }
  }

  /** A channel with programs has a higher rank than every channel with programs before it. */
  lemma WithProgramsRank(chs: seq<ServiceChannel>, i: nat, j: nat)
    requires i < j <= |chs| && |chs[i].programs| > 0
    ensures WithPrograms(chs[..i]) < WithPrograms(chs[..j])
  {
    assert chs[..j] == chs[..i] + chs[i..j];
    WithProgramsAppend(chs[..i], chs[i..j]);
    assert chs[i..j][0] == chs[i];
  }

  lemma {:induction false} ListedInCount(chs: seq<ServiceChannel>, category: JsonText)
    ensures |ListedIn(chs, category)| == WithPrograms(chs)
  {
    if chs != [] {
      var n := |chs| - 1;
      ListedInCount(chs[..n], category);
      assert chs == chs[..n] + [chs[n]];
      WithProgramsAppend(chs[..n], [chs[n]]);
      assert [chs[n]][1..] == [];
    }
  }

  lemma {:induction false} ListedInAt(chs: seq<ServiceChannel>, category: JsonText, j: nat)
    requires j < |chs| && |chs[j].programs| > 0
    ensures WithPrograms(chs[..j]) < |ListedIn(chs, category)|
    ensures ListedIn(chs, category)[WithPrograms(chs[..j])] == Entry(chs[j], category)
  {
    var n := |chs| - 1;
    var init := chs[..n];
    assert chs[..n + 1] == chs;
    ListedInSnoc(chs, n, category);
    if j < n {
      ListedInAt(init, category, j);
      assert init[..j] == chs[..j];
    } else {
      ListedInCount(init, category);
      assert chs[..j] == init;
    }
  }

  /**
   * The listing of a pattern is complete and in order: a channel with
   * programs is entry number WithPrograms(chs[..j]), the count of listed
   * channels before it, and there are exactly WithPrograms(chs) entries.
   */
  lemma ListedInExact(chs: seq<ServiceChannel>, category: JsonText)
    ensures |ListedIn(chs, category)| == WithPrograms(chs)
    ensures forall j :: 0 <= j < |chs| && |chs[j].programs| > 0 ==>
      WithPrograms(chs[..j]) < |ListedIn(chs, category)|
      && ListedIn(chs, category)[WithPrograms(chs[..j])] == Entry(chs[j], category)
  {
    ListedInCount(chs, category);
    forall j | 0 <= j < |chs| && |chs[j].programs| > 0
      ensures WithPrograms(chs[..j]) < |ListedIn(chs, category)|
      ensures ListedIn(chs, category)[WithPrograms(chs[..j])] == Entry(chs[j], category)
    {
      ListedInAt(chs, category, j);
    }
  }

  lemma {:induction false} ListedCount(sched: seq<PatternData>)
    ensures |Listed(sched)| == WithPrograms(AllChannels(sched))
  {
    if sched != [] {
      var n := |sched| - 1;
      var init := sched[..n];
      ListedCount(init);
      assert sched == init + [sched[n]];
      AllChannelsSnoc(init, sched[n]);
      ListedInCount(sched[n].serviceChannels, sched[n].category);
      WithProgramsAppend(AllChannels(init), sched[n].serviceChannels);
    }
  }

  lemma {:induction false} ListedAt(sched: seq<PatternData>, j: nat)
    requires j < |AllChannels(sched)| && |AllChannels(sched)[j].programs| > 0
    ensures WithPrograms(AllChannels(sched)[..j]) < |Listed(sched)|
    ensures Listed(sched)[WithPrograms(AllChannels(sched)[..j])].channel == AllChannels(sched)[j]
  {
    var n := |sched| - 1;
    var init := sched[..n];
    var last := sched[n];
    assert sched == init + [last];
    AllChannelsSnoc(init, last);
    var a := AllChannels(init);
    var b := last.serviceChannels;
    assert Listed(sched) == Listed(init) + ListedIn(b, last.category);
    if j < |a| {
      ListedAt(init, j);
      assert (a + b)[..j] == a[..j];
    } else {
      var jb := j - |a|;
      ListedCount(init);
      ListedInAt(b, last.category, jb);
      assert (a + b)[..j] == a + b[..jb];
      WithProgramsAppend(a, b[..jb]);
    }
  }

  /**
   * The same over the whole schedule: every channel with programs, in
   * pattern order and then list order, is listed at its rank, and nothing
   * else is.
   */
  lemma ListedExact(sched: seq<PatternData>)
    ensures |Listed(sched)| == WithPrograms(AllChannels(sched))
    ensures forall j :: 0 <= j < |AllChannels(sched)| && |AllChannels(sched)[j].programs| > 0 ==>
      WithPrograms(AllChannels(sched)[..j]) < |Listed(sched)|
      && Listed(sched)[WithPrograms(AllChannels(sched)[..j])].channel == AllChannels(sched)[j]
  {
    ListedCount(sched);
    forall j | 0 <= j < |AllChannels(sched)| && |AllChannels(sched)[j].programs| > 0
      ensures WithPrograms(AllChannels(sched)[..j]) < |Listed(sched)|
      ensures Listed(sched)[WithPrograms(AllChannels(sched)[..j])].channel == AllChannels(sched)[j]
    {
      ListedAt(sched, j);
    }
  }

  /** The keys the EXTINF line subscripts, `icon_url` and `category`, are present for every entry. */
  predicate KeysPresent(es: seq<Entry>) {
    forall k :: 0 <= k < |es| ==> !es[k].channel.iconUrl.Missing? && !es[k].category.Missing?
  }

  lemma KeysPresentAppend(a: seq<Entry>, b: seq<Entry>)
    ensures KeysPresent(a + b) <==> KeysPresent(a) && KeysPresent(b)
  {
    if KeysPresent(a + b) {
      forall k | 0 <= k < |a|
        ensures !a[k].channel.iconUrl.Missing? && !a[k].category.Missing?
      {
        assert a[k] == (a + b)[k];
      }
      forall k | 0 <= k < |b|
        ensures !b[k].channel.iconUrl.Missing? && !b[k].category.Missing?
      {
        assert b[k] == (a + b)[|a| + k];
      }
    }
    if KeysPresent(a) && KeysPresent(b) {
      forall k | 0 <= k < |a + b|
        ensures !(a + b)[k].channel.iconUrl.Missing? && !(a + b)[k].category.Missing?
      {
        if k < |a| {
          assert (a + b)[k] == a[k];
        } else {
          assert (a + b)[k] == b[k - |a|];
        }
      }
    }
  }

  lemma KeysPresentPrefix(x: seq<Entry>, y: seq<Entry>)
    requires x <= y && KeysPresent(y)
    ensures KeysPresent(x)
  {
    forall k | 0 <= k < |x|
      ensures !x[k].channel.iconUrl.Missing? && !x[k].category.Missing?
    {
      assert x[k] == y[k];
    }
  }

  /** The keys a pattern's listed channels need, stated on the channels themselves. */
  predicate ChannelKeysPresent(chs: seq<ServiceChannel>, category: JsonText) {
    if chs == [] then true
    else
      var last := chs[|chs| - 1];
      ChannelKeysPresent(chs[..|chs| - 1], category)
      && (|last.programs| > 0 ==> !last.iconUrl.Missing? && !category.Missing?)
  }

  lemma ChannelKeysSnoc(chs: seq<ServiceChannel>, k: nat, category: JsonText)
    requires k < |chs|
    ensures ChannelKeysPresent(chs[..k + 1], category)
      <==> ChannelKeysPresent(chs[..k], category) && (|chs[k].programs| > 0 ==> !chs[k].iconUrl.Missing? && !category.Missing?)
  {
    assert chs[..k + 1][..k] == chs[..k];
  }

  /** One channel with programs and a missing key spoils the whole pattern. */
  lemma {:induction false} ChannelKeyMissing(chs: seq<ServiceChannel>, k: nat, category: JsonText)
    requires k < |chs|
    ensures |chs[k].programs| > 0 && (chs[k].iconUrl.Missing? || category.Missing?) ==> !ChannelKeysPresent(chs, category)
  {
    var n := |chs| - 1;
    if k < n {
      assert chs[..n][k] == chs[k];
      ChannelKeyMissing(chs[..n], k, category);
    }
  }

  lemma {:induction false} ListedKeys(chs: seq<ServiceChannel>, category: JsonText)
    ensures KeysPresent(ListedIn(chs, category)) <==> ChannelKeysPresent(chs, category)
  {
    if chs != [] {
      var n := |chs| - 1;
      ListedKeys(chs[..n], category);
      var tail := if |chs[n].programs| > 0 then [Entry(chs[n], category)] else [];
      KeysPresentAppend(ListedIn(chs[..n], category), tail);
      if tail != [] {
        assert tail[0] == Entry(chs[n], category);
      }
    }
  }

  lemma {:induction false} ListedPrefix(sched: seq<PatternData>, n: nat)
    requires n <= |sched|
    ensures Listed(sched[..n]) <= Listed(sched)
    decreases |sched| - n
  {
    if n < |sched| {
      ListedPrefix(sched, n + 1);
      ListedSnoc(sched, n);
    } else {
      assert sched[..n] == sched;
    }
  }

  lemma {:induction false} EntryLinesAppend(a: seq<Entry>, b: seq<Entry>, base: string)
    ensures EntryLines(a + b, base) == EntryLines(a, base) + EntryLines(b, base)
    decreases |b|
  {
    if b != [] {
      var init := b[..|b| - 1];
      EntryLinesAppend(a, init, base);
      assert a + b == (a + init) + [b[|b| - 1]];
      EntryLinesSnoc(a + init, b[|b| - 1], base);
    } else {
      assert a + b == a;
    }
  }

  /** One step of the inner playlist loop: a channel with programs adds its two lines. */
  lemma ChannelLinesStep(lines: seq<string>, chs: seq<ServiceChannel>, k: nat, category: JsonText, base: string)
    requires k < |chs|
    ensures lines + EntryLines(ListedIn(chs[..k], category), base) + (if |chs[k].programs| > 0 then [ExtinfLine(Entry(chs[k], category)), StreamLine(base, chs[k].id)] else [])
      == lines + EntryLines(ListedIn(chs[..k + 1], category), base)
  {
    ListedInSnoc(chs, k, category);
    var before := ListedIn(chs[..k], category);
    if |chs[k].programs| > 0 {
      var pair := [ExtinfLine(Entry(chs[k], category)), StreamLine(base, chs[k].id)];
      EntryLinesSnoc(before, Entry(chs[k], category), base);
      SeqAssoc(lines, EntryLines(before, base), pair);
      assert ListedIn(chs[..k + 1], category) == before + [Entry(chs[k], category)];
    } else {
      assert ListedIn(chs[..k + 1], category) == before;
    }
  }

  /**
   * The inner loop of the playlist handler: the lines of one pattern's
   * channels, or a KeyError when a listed channel lacks `icon_url` or the
   * pattern lacks `category`.
   */
  method AppendChannelLines(lines: seq<string>, pattern: PatternData, base: string) returns (out: seq<string>, ok: bool)
    ensures ok <==> ChannelKeysPresent(pattern.serviceChannels, pattern.category)
    ensures ok ==> out == lines + EntryLines(ListedIn(pattern.serviceChannels, pattern.category), base)
  {
    var chs := pattern.serviceChannels;
    out := lines;
    var k := 0;
    assert chs[..0] == [];
    while k < |chs|
      invariant 0 <= k <= |chs|
      invariant out == lines + EntryLines(ListedIn(chs[..k], pattern.category), base)
      invariant ChannelKeysPresent(chs[..k], pattern.category)
    {
      var channel := chs[k];
      if |channel.programs| > 0 && (channel.iconUrl.Missing? || pattern.category.Missing?) {
        ChannelKeyMissing(chs, k, pattern.category);
        return out, false;
      }
      ChannelKeysSnoc(chs, k, pattern.category);
      ChannelLinesStep(lines, chs, k, pattern.category, base);
      if |channel.programs| > 0 {
        out := out + [ExtinfLine(Entry(channel, pattern.category)), StreamLine(base, channel.id)];
      }
      k := k + 1;
    }
    assert chs[..k] == chs;
    ok := true;
  }

  /**
   * The /playlist.m3u handler; url_root is the request's root URL. None is
   * the 500 of a KeyError on a listed channel's `icon_url` or its
   * pattern's `category`.
   */
  method Playlist(sched: seq<PatternData>, urlRoot: string) returns (body: Option<string>)
    ensures body.Some? <==> KeysPresent(Listed(sched))
    ensures body.Some? ==> body.value == Join(PlaylistLines(sched, RStripChar(urlRoot, '/')), "\n")
  {
    var base := RStripChar(urlRoot, '/');
    var lines := ["#EXTM3U"];
    var i := 0;
    while i < |sched|
      invariant 0 <= i <= |sched|
      invariant lines == ["#EXTM3U"] + EntryLines(Listed(sched[..i]), base)
      invariant KeysPresent(Listed(sched[..i]))
    {
      ListedSnoc(sched, i);
      var more := ListedIn(sched[i].serviceChannels, sched[i].category);
      EntryLinesAppend(Listed(sched[..i]), more, base);
      SeqAssoc(["#EXTM3U"], EntryLines(Listed(sched[..i]), base), EntryLines(more, base));
      var ok;
      lines, ok := AppendChannelLines(lines, sched[i], base);
      ListedKeys(sched[i].serviceChannels, sched[i].category);
      if !ok {
        ListedPrefix(sched, i + 1);
        KeysPresentAppend(Listed(sched[..i]), more);
        if KeysPresent(Listed(sched)) {
          KeysPresentPrefix(Listed(sched[..i + 1]), Listed(sched));
        }
        return None;
      }
      KeysPresentAppend(Listed(sched[..i]), more);
      i := i + 1;
    }
    assert sched[..i] == sched;
    body := Some(Join(lines, "\n"));
  }

  /** The lines of a sequence of items, each item rendered by f, in order. */
  function Render<T>(xs: seq<T>, f: T -> seq<string>): seq<string> {
    if xs == [] then [] else Render(xs[..|xs| - 1], f) + f(xs[|xs| - 1])
  }

  lemma RenderSnoc<T>(xs: seq<T>, x: T, f: T -> seq<string>)
    ensures Render(xs + [x], f) == Render(xs, f) + f(x)
  {
    assert (xs + [x])[..|xs|] == xs;
  }

  lemma {:induction false} RenderAppend<T>(a: seq<T>, b: seq<T>, f: T -> seq<string>)
    ensures Render(a + b, f) == Render(a, f) + Render(b, f)
    decreases |b|
  {
    if b == [] {
      assert a + b == a;
    } else {
      var init := b[..|b| - 1];
      RenderAppend(a, init, f);
      assert a + b == (a + init) + [b[|b| - 1]];
      RenderSnoc(a + init, b[|b| - 1], f);
      RenderSnoc(init, b[|b| - 1], f);
      assert init + [b[|b| - 1]] == b;
      SeqAssoc(Render(a, f), Render(init, f), f(b[|b| - 1]));
    }
  }

  const XmlDecl: string := "<?xml version=\"1.0\" encoding=\"UTF-8\"?>"
  const TvOpen: string := "<tv generator-info-name=\"" + "epgBuilder-combined\">"
  const TvClose: string := "</tv>"
  const ChannelOpen: string := "  <channel "
  const ProgrammeOpen: string := "  <programme "

  /** The <channel> element of a listed channel; ids and URLs are escaped with quotes, names without. */
  function ChannelElement(e: Entry): seq<string> {
    var c := e.channel;
    [Join([ChannelOpen, "id=\"", Escape(c.id, true), "\">"], ""),
     Join(["    <display-name>", Escape(c.channelName, false), "</display-name>"], "")]
    + (if TruthyText(c.iconUrl) then [Join(["    <icon src=\"", Escape(c.iconUrl.value, true), "\"/>"], "")] else [])
    + ["  </channel>"]
  }

  /** One program of one channel, with the category of the channel's pattern. */
  datatype Airing = Airing(channelId: string, category: JsonText, program: Program)

  /** The <programme> element of an airing; the start and stop stamps are written as stored. */
  function ProgrammeElement(a: Airing): seq<string> {
    var p := a.program;
    [Join([ProgrammeOpen, "channel=\"", Escape(a.channelId, true), "\" start=\"", p.startStr,
        "\" stop=\"", p.stopStr, "\">"], ""),
     Join(["    <title>", Escape(GetStr(p.programName, ""), false), "</title>"], ""),
     Join(["    <desc>", Escape(GetStr(p.description, ""), false), "</desc>"], "")]
    + (if TruthyText(a.category) then [Join(["    <category lang=\"en\">", Escape(a.category.value, false), "</category>"], "")] else [])
    + (if Truthy(p.iconUrl) then [Join(["    <icon src=\"", Escape(p.iconUrl.value, true), "\"/>"], "")] else [])
    + ["  </programme>"]
  }

  /** The airings of one channel, in program order. */
  function AiringsOf(c: ServiceChannel, category: JsonText): (r: seq<Airing>)
    ensures |r| == |c.programs|
    ensures forall k :: 0 <= k < |r| ==> r[k] == Airing(c.id, category, c.programs[k])
  {
    seq(|c.programs|, k requires 0 <= k < |c.programs| => Airing(c.id, category, c.programs[k]))
  }

  /** The airings of one pattern's channels, channel by channel. */
  function AiringsIn(chs: seq<ServiceChannel>, category: JsonText): seq<Airing> {
    if chs == [] then []
    else AiringsIn(chs[..|chs| - 1], category) + AiringsOf(chs[|chs| - 1], category)
  }

  /** Every airing of the schedule, in pattern order, then channel order, then program order. */
  function Airings(sched: seq<PatternData>): seq<Airing> {
    if sched == [] then []
    else
      var last := sched[|sched| - 1];
      Airings(sched[..|sched| - 1]) + AiringsIn(last.serviceChannels, last.category)
  }

  /** The lines of /epg.xml before they are joined. */
  function EpgLines(sched: seq<PatternData>): seq<string> {
    [XmlDecl, TvOpen] + Render(Listed(sched), ChannelElement) + Render(Airings(sched), ProgrammeElement) + [TvClose]
  }

  lemma AiringsInSnoc(chs: seq<ServiceChannel>, k: nat, category: JsonText)
    requires k < |chs|
    ensures AiringsIn(chs[..k + 1], category) == AiringsIn(chs[..k], category) + AiringsOf(chs[k], category)
  {
    assert chs[..k + 1][..k] == chs[..k];
  }

  lemma AiringsSnoc(sched: seq<PatternData>, i: nat)
    requires i < |sched|
    ensures Airings(sched[..i + 1]) == Airings(sched[..i]) + AiringsIn(sched[i].serviceChannels, sched[i].category)
  {
    assert sched[..i + 1][..i] == sched[..i];
  }

  /** The first loop of the guide handler over one pattern: an element per channel that has programs. */
  method AppendChannelElements(lines: seq<string>, pattern: PatternData) returns (out: seq<string>)
    ensures out == lines + Render(ListedIn(pattern.serviceChannels, pattern.category), ChannelElement)
  {
    var chs := pattern.serviceChannels;
    out := lines;
    var k := 0;
    assert chs[..0] == [];
    while k < |chs|
      invariant 0 <= k <= |chs|
      invariant out == lines + Render(ListedIn(chs[..k], pattern.category), ChannelElement)
    {
      var channel := chs[k];
      ListedInSnoc(chs, k, pattern.category);
      if |channel.programs| > 0 {
        var element := ChannelElement(Entry(channel, pattern.category));
        RenderSnoc(ListedIn(chs[..k], pattern.category), Entry(channel, pattern.category), ChannelElement);
        SeqAssoc(lines, Render(ListedIn(chs[..k], pattern.category), ChannelElement), element);
        out := out + element;
      } else {
        assert ListedIn(chs[..k + 1], pattern.category) == ListedIn(chs[..k], pattern.category);
      }
      k := k + 1;
    }
    assert chs[..k] == chs;
  }

  /** The innermost loop of the guide's second pass: an element per program of one channel. */
  method AppendProgrammeElements(lines: seq<string>, channel: ServiceChannel, category: JsonText)
    returns (out: seq<string>)
    ensures out == lines + Render(AiringsOf(channel, category), ProgrammeElement)
  {
    var airings := AiringsOf(channel, category);
    out := lines;
    var k := 0;
    assert airings[..0] == [];
    while k < |channel.programs|
      invariant 0 <= k <= |channel.programs|
      invariant out == lines + Render(airings[..k], ProgrammeElement)
    {
      var program := channel.programs[k];
      var element := ProgrammeElement(Airing(channel.id, category, program));
      assert airings[k] == Airing(channel.id, category, program);
      assert airings[..k + 1] == airings[..k] + [airings[k]];
      RenderSnoc(airings[..k], airings[k], ProgrammeElement);
      SeqAssoc(lines, Render(airings[..k], ProgrammeElement), element);
      out := out + element;
      k := k + 1;
    }
    assert airings[..k] == airings;
  }

  /** The middle loop of the guide's second pass: the programs of one pattern's channels. */
  method AppendPatternProgrammes(lines: seq<string>, pattern: PatternData) returns (out: seq<string>)
    ensures out == lines + Render(AiringsIn(pattern.serviceChannels, pattern.category), ProgrammeElement)
  {
    var chs := pattern.serviceChannels;
    out := lines;
    var k := 0;
    assert chs[..0] == [];
    while k < |chs|
      invariant 0 <= k <= |chs|
      invariant out == lines + Render(AiringsIn(chs[..k], pattern.category), ProgrammeElement)
    {
      var before := AiringsIn(chs[..k], pattern.category);
      var more := AiringsOf(chs[k], pattern.category);
      AiringsInSnoc(chs, k, pattern.category);
      RenderAppend(before, more, ProgrammeElement);
      SeqAssoc(lines, Render(before, ProgrammeElement), Render(more, ProgrammeElement));
      out := AppendProgrammeElements(out, chs[k], pattern.category);
      k := k + 1;
    }
    assert chs[..k] == chs;
  }

  /** The /epg.xml handler. */
  method Epg(sched: seq<PatternData>) returns (body: string)
    ensures body == Join(EpgLines(sched), "\n")
  {
    var lines := [XmlDecl, TvOpen];
    var i := 0;
    while i < |sched|
      invariant 0 <= i <= |sched|
      invariant lines == [XmlDecl, TvOpen] + Render(Listed(sched[..i]), ChannelElement)
    {
      var more := ListedIn(sched[i].serviceChannels, sched[i].category);
      ListedSnoc(sched, i);
      RenderAppend(Listed(sched[..i]), more, ChannelElement);
      SeqAssoc([XmlDecl, TvOpen], Render(Listed(sched[..i]), ChannelElement), Render(more, ChannelElement));
      lines := AppendChannelElements(lines, sched[i]);
      i := i + 1;
    }
    assert sched[..i] == sched;
    ghost var head := lines;
    i := 0;
    while i < |sched|
      invariant 0 <= i <= |sched|
      invariant lines == head + Render(Airings(sched[..i]), ProgrammeElement)
    {
      var more := AiringsIn(sched[i].serviceChannels, sched[i].category);
      AiringsSnoc(sched, i);
      RenderAppend(Airings(sched[..i]), more, ProgrammeElement);
      SeqAssoc(head, Render(Airings(sched[..i]), ProgrammeElement), Render(more, ProgrammeElement));
      lines := AppendPatternProgrammes(lines, sched[i]);
      i := i + 1;
    }
    assert sched[..i] == sched;
    lines := lines + [TvClose];
    body := Join(lines, "\n");
  }

  /** How many lines begin with the given prefix. */
  function CountStarting(lines: seq<string>, prefix: string): (n: nat)
    ensures n <= |lines|
  {
    if lines == [] then 0
    else CountStarting(lines[..|lines| - 1], prefix) + (if StartsWith(lines[|lines| - 1], prefix) then 1 else 0)
  }

  lemma {:induction false} CountAppend(a: seq<string>, b: seq<string>, prefix: string)
    ensures CountStarting(a + b, prefix) == CountStarting(a, prefix) + CountStarting(b, prefix)
  {
    if b != [] {
      assert (a + b)[..|a + b| - 1] == a + b[..|b| - 1];
      CountAppend(a, b[..|b| - 1], prefix);
    } else {
      assert a + b == a;
    }
  }

  lemma CountOne(line: string, prefix: string)
    ensures CountStarting([line], prefix) == if StartsWith(line, prefix) then 1 else 0
  {
    assert [line][..0] == [];
  }

  /** Rendering elements that each hold exactly one line with the prefix holds one such line per element. */
  lemma {:induction false} RenderCountOne<T>(xs: seq<T>, f: T -> seq<string>, prefix: string)
    requires forall i :: 0 <= i < |xs| ==> CountStarting(f(xs[i]), prefix) == 1
    ensures CountStarting(Render(xs, f), prefix) == |xs|
  {
    if xs != [] {
      var init := xs[..|xs| - 1];
      assert forall i :: 0 <= i < |init| ==> init[i] == xs[i];
      RenderCountOne(init, f, prefix);
      CountAppend(Render(init, f), f(xs[|xs| - 1]), prefix);
    }
  }

  /** Rendering elements that hold no line with the prefix holds none. */
  lemma {:induction false} RenderCountNone<T>(xs: seq<T>, f: T -> seq<string>, prefix: string)
    requires forall i :: 0 <= i < |xs| ==> CountStarting(f(xs[i]), prefix) == 0
    ensures CountStarting(Render(xs, f), prefix) == 0
  {
    if xs != [] {
      var init := xs[..|xs| - 1];
      assert forall i :: 0 <= i < |init| ==> init[i] == xs[i];
      RenderCountNone(init, f, prefix);
      CountAppend(Render(init, f), f(xs[|xs| - 1]), prefix);
    }
  }

  /** A line assembled from pieces begins with its first piece. */
  lemma JoinHead(parts: seq<string>)
    requires |parts| >= 1
    ensures StartsWith(Join(parts, ""), parts[0])
  {
    if |parts| > 1 {
      assert Join(parts, "") == parts[0] + ("" + Join(parts[1..], ""));
    }
  }

  /** An indented child line or a closing tag: neither a channel nor a programme opening. */
  predicate ChildLine(line: string) {
    |line| >= 4 && (line[2] == ' ' || line[3] == '/')
  }

  lemma ChildNotOpening(line: string)
    requires ChildLine(line)
    ensures !StartsWith(line, ChannelOpen) && !StartsWith(line, ProgrammeOpen)
  {
    assert ChannelOpen[2] == '<' && ChannelOpen[3] == 'c';
    assert ProgrammeOpen[2] == '<' && ProgrammeOpen[3] == 'p';
    if |ChannelOpen| <= |line| {
      assert line[..|ChannelOpen|][2] == line[2] && line[..|ChannelOpen|][3] == line[3];
    }
    if |ProgrammeOpen| <= |line| {
      assert line[..|ProgrammeOpen|][2] == line[2] && line[..|ProgrammeOpen|][3] == line[3];
    }
  }

  lemma {:induction false} CountNone(lines: seq<string>, prefix: string)
    requires forall i :: 0 <= i < |lines| ==> !StartsWith(lines[i], prefix)
    ensures CountStarting(lines, prefix) == 0
  {
    if lines != [] {
      var init := lines[..|lines| - 1];
      assert forall i :: 0 <= i < |init| ==> init[i] == lines[i];
      CountNone(init, prefix);
    }
  }

  /** An element whose first line alone opens with the prefix counts once. */
  lemma CountElement(lines: seq<string>, prefix: string)
    requires |lines| >= 1 && StartsWith(lines[0], prefix)
    requires forall i :: 1 <= i < |lines| ==> !StartsWith(lines[i], prefix)
    ensures CountStarting(lines, prefix) == 1
  {
    assert lines == [lines[0]] + lines[1..];
    CountOne(lines[0], prefix);
    CountNone(lines[1..], prefix);
    CountAppend([lines[0]], lines[1..], prefix);
  }

  /** A child line assembled from pieces: its first piece is indented or closes a tag. */
  lemma JoinChild(parts: seq<string>)
    requires |parts| >= 1 && ChildLine(parts[0])
    ensures ChildLine(Join(parts, ""))
  {
    JoinHead(parts);
    var line := Join(parts, "");
    assert line[..|parts[0]|] == parts[0];
    assert line[2] == parts[0][2] && line[3] == parts[0][3];
  }

  /** A channel element holds exactly one channel opening and no programme opening. */
  lemma ChannelElementCounts(e: Entry)
    ensures CountStarting(ChannelElement(e), ChannelOpen) == 1
    ensures CountStarting(ChannelElement(e), ProgrammeOpen) == 0
  {
    var c := e.channel;
    var p1 := [ChannelOpen, "id=\"", Escape(c.id, true), "\">"];
    var p2 := ["    <display-name>", Escape(c.channelName, false), "</display-name>"];
    var p3 := ["    <icon src=\"", Escape(GetStr(c.iconUrl, ""), true), "\"/>"];
    var el := ChannelElement(e);
    JoinHead(p1);
    var l1 := Join(p1, "");
    assert el[0] == l1;
    assert l1[..|ChannelOpen|] == ChannelOpen;
    assert l1[3] == 'c';
    JoinChild(p2);
    JoinChild(p3);
    assert forall i :: 1 <= i < |el| ==> ChildLine(el[i]);
    forall i | 0 <= i < |el|
      ensures !StartsWith(el[i], ProgrammeOpen)
      ensures i >= 1 ==> !StartsWith(el[i], ChannelOpen)
    {
      if i == 0 {
        assert el[i][3] == 'c';
        assert ProgrammeOpen[3] == 'p';
      } else {
        ChildNotOpening(el[i]);
      }
    }
    CountElement(el, ChannelOpen);
    CountNone(el, ProgrammeOpen);
  }

  /**
   * The title line of a programme element, key by key: a missing
   * program_name gives an empty title, a null one the text "None", a string
   * its escaped text.
   */
  lemma ProgrammeTitle(a: Airing)
    ensures a.program.programName.Missing? ==> ProgrammeElement(a)[1] == "    <title>" + "</title>"
    ensures a.program.programName.Null? ==> ProgrammeElement(a)[1] == "    <title>" + "None" + "</title>"
    ensures a.program.programName.Text? ==>
      ProgrammeElement(a)[1] == "    <title>" + Escape(a.program.programName.value, false) + "</title>"
  {
    TitleLine(a);
    if a.program.programName.Null? {
      EscapePlain("None", false);
    }
  }

  lemma TitleLine(a: Airing)
    ensures ProgrammeElement(a)[1] == "    <title>" + Escape(GetStr(a.program.programName, ""), false) + "</title>"
  {
    var t := GetStr(a.program.programName, "");
    JoinThree("    <title>", Escape(t, false), "</title>");
  }

  lemma JoinThree(x: string, y: string, z: string)
    ensures Join([x, y, z], "") == x + y + z
  {
    var parts := [x, y, z];
    assert Join(parts, "") == x + "" + Join(parts[1..], "");
    assert Join(parts[1..], "") == y + "" + Join(parts[2..], "");
  }

  /** A programme element holds exactly one programme opening and no channel opening. */
  lemma ProgrammeElementCounts(a: Airing)
    ensures CountStarting(ProgrammeElement(a), ProgrammeOpen) == 1
    ensures CountStarting(ProgrammeElement(a), ChannelOpen) == 0
  {
    var p := a.program;
    var p1 := [ProgrammeOpen, "channel=\"", Escape(a.channelId, true), "\" start=\"", p.startStr,
      "\" stop=\"", p.stopStr, "\">"];
    var p2 := ["    <title>", Escape(GetStr(p.programName, ""), false), "</title>"];
    var p3 := ["    <desc>", Escape(GetStr(p.description, ""), false), "</desc>"];
    var p4 := ["    <category lang=\"en\">", Escape(GetStr(a.category, ""), false), "</category>"];
    var p5 := ["    <icon src=\"", Escape(p.iconUrl.GetOr(""), true), "\"/>"];
    var el := ProgrammeElement(a);
    JoinHead(p1);
    var l1 := Join(p1, "");
    assert el[0] == l1;
    assert l1[..|ProgrammeOpen|] == ProgrammeOpen;
    assert l1[3] == 'p';
    JoinChild(p2);
    JoinChild(p3);
    JoinChild(p4);
    JoinChild(p5);
    assert forall i :: 1 <= i < |el| ==> ChildLine(el[i]);
    forall i | 0 <= i < |el|
      ensures !StartsWith(el[i], ChannelOpen)
      ensures i >= 1 ==> !StartsWith(el[i], ProgrammeOpen)
    {
      if i == 0 {
        assert el[i][3] == 'p';
        assert ChannelOpen[3] == 'c';
      } else {
        ChildNotOpening(el[i]);
      }
    }
    CountElement(el, ProgrammeOpen);
    CountNone(el, ChannelOpen);
  }

  /**
   * The guide holds one channel element per listed channel and one
   * programme element per program of a listed channel: the header, the
   * footer and the child lines open neither.
   */
  lemma EpgCounts(sched: seq<PatternData>)
    ensures CountStarting(EpgLines(sched), ChannelOpen) == |Listed(sched)|
    ensures CountStarting(EpgLines(sched), ProgrammeOpen) == |Airings(sched)|
  {
    var es := Listed(sched);
    var airs := Airings(sched);
    forall i | 0 <= i < |es|
      ensures CountStarting(ChannelElement(es[i]), ChannelOpen) == 1
      ensures CountStarting(ChannelElement(es[i]), ProgrammeOpen) == 0
    {
      ChannelElementCounts(es[i]);
    }
    forall i | 0 <= i < |airs|
      ensures CountStarting(ProgrammeElement(airs[i]), ProgrammeOpen) == 1
      ensures CountStarting(ProgrammeElement(airs[i]), ChannelOpen) == 0
    {
      ProgrammeElementCounts(airs[i]);
    }
    RenderCountOne(es, ChannelElement, ChannelOpen);
    RenderCountNone(es, ChannelElement, ProgrammeOpen);
    RenderCountOne(airs, ProgrammeElement, ProgrammeOpen);
    RenderCountNone(airs, ProgrammeElement, ChannelOpen);
    FrameCounts(Render(es, ChannelElement), Render(airs, ProgrammeElement), ChannelOpen);
    FrameCounts(Render(es, ChannelElement), Render(airs, ProgrammeElement), ProgrammeOpen);
  }

  /** The XML declaration, the <tv> tag and its closing open no element, so only the body counts. */
  lemma FrameCounts(r1: seq<string>, r2: seq<string>, prefix: string)
    requires prefix == ChannelOpen || prefix == ProgrammeOpen
    ensures CountStarting([XmlDecl, TvOpen] + r1 + r2 + [TvClose], prefix)
      == CountStarting(r1, prefix) + CountStarting(r2, prefix)
  {
    var head := [XmlDecl, TvOpen];
    assert XmlDecl[0] == '<';
    assert TvOpen[0] == '<';
    assert prefix[0] == ' ' && |prefix| > |TvClose|;
    forall i | 0 <= i < |head|
      ensures !StartsWith(head[i], prefix)
    {
      assert head[i][..|prefix|][0] == head[i][0];
    }
    CountNone(head, prefix);
    CountOne(TvClose, prefix);
    CountAppend(head, r1, prefix);
    CountAppend(head + r1, r2, prefix);
    CountAppend(head + r1 + r2, [TvClose], prefix);
  }
}
