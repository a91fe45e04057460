/**
 * The playlist the server writes, read back by the M3U reader: when no
 * field holds a comma or a line feed and names carry no edge whitespace,
 * the reader recovers every listed channel's name and stream URL, in
 * order. This ties the EXTINF writer to the EXTINF reader (RFC 8216
 * section 4.3.2.1 puts the title after the first comma).
 */
module PlaylistReadback {
  import opened Wrappers
  import opened Text
  import opened Schedule
  import opened Server
  import opened M3uReader

  /** A field that cannot end the attribute part or the line early. */
  predicate PlainField(s: string) {
    ',' !in s && '\n' !in s
  }

  /** An entry whose EXTINF line reads back as written. */
  predicate Readable(e: Entry) {
    && PlainField(e.channel.id)
    && PlainField(e.channel.channelName)
    && PlainField(FStr(e.channel.iconUrl))
    && PlainField(FStr(e.category))
    && (e.channel.channelName == [] || (!IsSpace(e.channel.channelName[0]) && !IsSpace(e.channel.channelName[|e.channel.channelName| - 1])))
  }

  /** A base URL that keeps each stream line on one line and unstripped. */
  predicate ReadableBase(base: string) {
    '\n' !in base && (base == [] || !IsSpace(base[0]))
  }

  /** The pieces of an EXTINF line before the closing quote of the group title. */
  function AttrParts(e: Entry): seq<string> {
    [ExtinfHead, e.channel.id, NameAttr, e.channel.channelName, LogoAttr, FStr(e.channel.iconUrl),
     GroupAttr, FStr(e.category)]
  }

  /** The EXTINF line is its attribute text, a comma, and then the channel name. */
  lemma ExtinfLineSplit(e: Entry)
    ensures ExtinfLine(e) == Join(AttrParts(e), "") + "\"" + [','] + e.channel.channelName
  {
    var head := AttrParts(e);
    JoinEmptySnoc(head, LabelSep);
    JoinEmptySnoc(head + [LabelSep], e.channel.channelName);
    assert head + [LabelSep] + [e.channel.channelName] == [ExtinfHead, e.channel.id, NameAttr,
      e.channel.channelName, LogoAttr, FStr(e.channel.iconUrl), GroupAttr, FStr(e.category), LabelSep,
      e.channel.channelName];
    assert LabelSep == "\"" + [','];
  }

  lemma AttrConstantsPlain()
    ensures PlainField(ExtinfHead) && PlainField(NameAttr) && PlainField(LogoAttr) && PlainField(GroupAttr)
  {
  }

  /** The attribute text holds no comma and no line feed. */
  lemma AttrsPlain(e: Entry)
    requires Readable(e)
    ensures ',' !in Join(AttrParts(e), "") && '\n' !in Join(AttrParts(e), "")
  {
    var parts := AttrParts(e);
    AttrConstantsPlain();
    forall k | 0 <= k < |parts|
      ensures PlainField(parts[k])
    {
    }
    JoinAvoids(parts, "", ',');
    JoinAvoids(parts, "", '\n');
  }

  /** The EXTINF line opens with the tag the reader looks for. */
  lemma ExtinfLineTagged(e: Entry)
    ensures StartsWith(ExtinfLine(e), ExtinfTag)
  {
    ExtinfLineSplit(e);
    JoinEnds(AttrParts(e), "");
    var attrs := Join(AttrParts(e), "");
    assert attrs[..|ExtinfHead|] == ExtinfHead;
    assert ExtinfHead[..|ExtinfTag|] == ExtinfTag;
    assert ExtinfLine(e)[..|ExtinfTag|] == attrs[..|ExtinfHead|][..|ExtinfTag|];
  }

  lemma ExtinfLineReads(e: Entry)
    requires Readable(e)
    ensures StartsWith(ExtinfLine(e), ExtinfTag)
    ensures ChannelName(ExtinfLine(e)) == e.channel.channelName
    ensures '\n' !in ExtinfLine(e)
    ensures ExtinfLine(e) != [] && ExtinfLine(e)[0] == '#'
  {
    var line := ExtinfLine(e);
    var name := e.channel.channelName;
    var attrs := Join(AttrParts(e), "") + "\"";
    assert line == attrs + [','] + name by { ExtinfLineSplit(e); }
    assert ',' !in attrs && '\n' !in attrs by { AttrsPlain(e); }
    assert ChannelName(line) == name by {
      CharIndexAt(attrs, ',', name);
      StripTrimmed(name);
    }
    assert StartsWith(line, ExtinfTag) by { ExtinfLineTagged(e); }
    assert line[0] == line[..|ExtinfTag|][0];
  }

  lemma StreamLineReads(base: string, id: string)
    requires ReadableBase(base) && PlainField(id)
    ensures Strip(StreamLine(base, id)) == StreamLine(base, id)
    ensures '\n' !in StreamLine(base, id)
    ensures StreamLine(base, id) != [] && StreamLine(base, id)[|StreamLine(base, id)| - 1] == 's'
  {
    var line := StreamLine(base, id);
    assert line == base + StreamPath + id + TsSuffix;
    assert line[|line| - 1] == 's';
    assert line[0] == if base == [] then '/' else base[0];
    StripTrimmed(line);
  }

  /** Lines that alternate EXTINF line, URL line are read pair by pair. */
  lemma {:induction false} PairsAligned(lines: seq<string>)
    requires |lines| % 2 == 0
    requires forall k :: 0 <= k < |lines| / 2 ==> StartsWith(lines[2 * k], ExtinfTag)
    ensures |Pairs(lines)| == |lines| / 2
    ensures forall k :: 0 <= k < |lines| / 2 ==> Pairs(lines)[k] == ListingAt(lines, 2 * k)
  {
    if lines != [] {
      var tail := lines[2..];
      assert forall k :: 0 <= k < |tail| / 2 ==> StartsWith(tail[2 * k], ExtinfTag) by {
        forall k | 0 <= k < |tail| / 2
          ensures StartsWith(tail[2 * k], ExtinfTag)
        {
          assert tail[2 * k] == lines[2 * (k + 1)];
        }
      }
      PairsAligned(tail);
      assert StartsWith(lines[2 * 0], ExtinfTag);
      AlignedFromTail(lines);
    }
  }

  /** The pairwise reading of the lines after the first two extends to the whole. */
  lemma AlignedFromTail(lines: seq<string>)
    requires |lines| >= 2 && |lines| % 2 == 0 && StartsWith(lines[0], ExtinfTag)
    requires |Pairs(lines[2..])| == |lines| / 2 - 1
    requires forall k :: 0 <= k < |lines| / 2 - 1 ==> Pairs(lines[2..])[k] == ListingAt(lines[2..], 2 * k)
    ensures |Pairs(lines)| == |lines| / 2
    ensures forall k :: 0 <= k < |lines| / 2 ==> Pairs(lines)[k] == ListingAt(lines, 2 * k)
  {
    var n := |lines| / 2;
    PairsHead(lines);
    TailAligned(lines, n, Pairs(lines[2..]));
    ShiftAligned(lines, n, Pairs(lines), Pairs(lines[2..]));
  }

  /** Listings aligned with the lines after the first two are aligned two positions on in the whole. */
  lemma TailAligned(lines: seq<string>, n: nat, pt: seq<Listing>)
    requires n >= 1 && |lines| == 2 * n && |pt| == n - 1
    requires forall k :: 0 <= k < |pt| ==> pt[k] == ListingAt(lines[2..], 2 * k)
    ensures forall k :: 0 <= k < |pt| ==> pt[k] == ListingAt(lines, 2 * k + 2)
  {
    forall k | 0 <= k < |pt|
      ensures pt[k] == ListingAt(lines, 2 * k + 2)
    {
      TailListing(lines, 2 * k);
    }
  }

  /** Listings aligned two positions on, behind the first listing, are aligned with all the lines. */
  lemma ShiftAligned(lines: seq<string>, n: nat, ps: seq<Listing>, pt: seq<Listing>)
    requires n >= 1 && |lines| == 2 * n
    requires ps == [ListingAt(lines, 0)] + pt && |pt| == n - 1
    requires forall k :: 0 <= k < |pt| ==> pt[k] == ListingAt(lines, 2 * k + 2)
    ensures |ps| == n
    ensures forall k :: 0 <= k < n ==> ps[k] == ListingAt(lines, 2 * k)
  {
    ConsIndex(ps, ListingAt(lines, 0), pt);
    forall k | 0 < k < n
      ensures ps[k] == ListingAt(lines, 2 * k)
    {
      assert 2 * (k - 1) + 2 == 2 * k;
    }
  }

  /** The elements of a sequence with one element put in front. */
  lemma ConsIndex<T>(ps: seq<T>, x: T, pt: seq<T>)
    requires ps == [x] + pt
    ensures |ps| == |pt| + 1 && ps[0] == x
    ensures forall k :: 0 < k < |ps| ==> ps[k] == pt[k - 1]
  {
  }

  /** An entry's two lines, wherever they sit, read back as its name and stream URL. */
  lemma PairRead(lines: seq<string>, i: nat, e: Entry, base: string)
    requires ReadableBase(base) && Readable(e)
    requires i + 1 < |lines| && lines[i] == ExtinfLine(e) && lines[i + 1] == StreamLine(base, e.channel.id)
    ensures StartsWith(lines[i], ExtinfTag)
    ensures ListingAt(lines, i) == Listing(e.channel.channelName, StreamLine(base, e.channel.id))
  {
    ExtinfLineReads(e);
    StreamLineReads(base, e.channel.id);
  }

  /** The entry lines read back as the listed names and stream URLs. */
  lemma EntryLinesRead(es: seq<Entry>, base: string)
    requires ReadableBase(base)
    requires forall k :: 0 <= k < |es| ==> Readable(es[k])
    ensures |Pairs(EntryLines(es, base))| == |es|
    ensures forall k :: 0 <= k < |es| ==>
      Pairs(EntryLines(es, base))[k] == Listing(es[k].channel.channelName, StreamLine(base, es[k].channel.id))
  {
    var lines := EntryLines(es, base);
    EntryLinesAt(es, base);
    forall k | 0 <= k < |es|
      ensures StartsWith(lines[2 * k], ExtinfTag)
      ensures ListingAt(lines, 2 * k) == Listing(es[k].channel.channelName, StreamLine(base, es[k].channel.id))
    {
      PairRead(lines, 2 * k, es[k], base);
    }
    assert |lines| % 2 == 0 && |lines| / 2 == |es|;
    PairsAligned(lines);
  }

  /** The text of the playlist has no edge whitespace and splits back into its lines. */
  lemma BodySplitsBack(lines: seq<string>)
    requires |lines| >= 1
    requires forall k :: 0 <= k < |lines| ==> '\n' !in lines[k]
    requires lines[0] != [] && !IsSpace(lines[0][0])
    requires lines[|lines| - 1] != [] && !IsSpace(lines[|lines| - 1][|lines[|lines| - 1]| - 1])
    ensures BodyLines(Join(lines, "\n")) == lines
  {
    var body := Join(lines, "\n");
    JoinEnds(lines, "\n");
    var last := lines[|lines| - 1];
    assert body[0] == body[..|lines[0]|][0];
    assert body[|body| - 1] == body[|body| - |last|..][|last| - 1];
    StripTrimmed(body);
    JoinSplit(lines, '\n');
  }

  /** Every playlist line is one line, and the last one ends in a visible character. */
  lemma PlaylistLinesPlain(es: seq<Entry>, base: string)
    requires ReadableBase(base)
    requires forall k :: 0 <= k < |es| ==> Readable(es[k])
    ensures forall k :: 0 <= k < |["#EXTM3U"] + EntryLines(es, base)| ==> '\n' !in (["#EXTM3U"] + EntryLines(es, base))[k]
    ensures var lines := ["#EXTM3U"] + EntryLines(es, base);
      var last := lines[|lines| - 1];
      last != [] && !IsSpace(last[|last| - 1])
  {
    var entries := EntryLines(es, base);
    var lines := ["#EXTM3U"] + entries;
    EntryLinesAt(es, base);
    forall k | 0 <= k < |lines|
      ensures '\n' !in lines[k]
    {
      if k > 0 {
        var j := (k - 1) / 2;
        assert lines[k] == entries[k - 1];
        assert k - 1 == 2 * j || k - 1 == 2 * j + 1;
        assert '\n' !in ExtinfLine(es[j]) by { ExtinfLineReads(es[j]); }
        assert '\n' !in StreamLine(base, es[j].channel.id) by { StreamLineReads(base, es[j].channel.id); }
      }
    }
    if es != [] {
      var j := |es| - 1;
      assert lines[|lines| - 1] == entries[2 * j + 1];
      StreamLineReads(base, es[j].channel.id);
    }
  }

  /** The playlist text splits back into its lines. */
  lemma PlaylistTextSplits(es: seq<Entry>, base: string)
    requires ReadableBase(base)
    requires forall k :: 0 <= k < |es| ==> Readable(es[k])
    ensures BodyLines(Join(["#EXTM3U"] + EntryLines(es, base), "\n")) == ["#EXTM3U"] + EntryLines(es, base)
  {
    var lines := ["#EXTM3U"] + EntryLines(es, base);
    PlaylistLinesPlain(es, base);
    assert lines[0][0] == '#' && !IsSpace('#');
    BodySplitsBack(lines);
  }

  /** The playlist text over given entries reads back as their names and stream URLs. */
  lemma EntriesReadBack(es: seq<Entry>, base: string)
    requires ReadableBase(base)
    requires forall k :: 0 <= k < |es| ==> Readable(es[k])
    ensures var read := Pairs(BodyLines(Join(["#EXTM3U"] + EntryLines(es, base), "\n")));
      |read| == |es| && forall k :: 0 <= k < |es| ==>
        read[k] == Listing(es[k].channel.channelName, StreamLine(base, es[k].channel.id))
  {
    var entries := EntryLines(es, base);
    var lines := ["#EXTM3U"] + entries;
    PlaylistTextSplits(es, base);
    assert Pairs(lines) == Pairs(entries) by { HeaderSkipped(entries); }
    EntryLinesRead(es, base);
  }

  /** The "#EXTM3U" header is not an EXTINF line, so the reader skips it. */
  lemma HeaderSkipped(rest: seq<string>)
    ensures Pairs(["#EXTM3U"] + rest) == Pairs(rest)
  {
    var lines := ["#EXTM3U"] + rest;
    assert lines[0][4] == 'M' && ExtinfTag[4] == 'I';
    assert !StartsWith(lines[0], ExtinfTag);
    assert lines[1..] == rest;
  }

  /**
   * Reading the served playlist gives back, in order, the name and the
   * stream URL of every channel the playlist lists.
   */
  lemma PlaylistReadsBack(sched: seq<PatternData>, base: string)
    requires ReadableBase(base)
    requires forall k :: 0 <= k < |Listed(sched)| ==> Readable(Listed(sched)[k])
    ensures |Pairs(BodyLines(Join(PlaylistLines(sched, base), "\n")))| == |Listed(sched)|
    ensures forall k :: 0 <= k < |Listed(sched)| ==>
      Pairs(BodyLines(Join(PlaylistLines(sched, base), "\n")))[k]
        == Listing(Listed(sched)[k].channel.channelName, StreamLine(base, Listed(sched)[k].channel.id))
  {
    EntriesReadBack(Listed(sched), base);
  }

  /**
   * Every channel with programs, anywhere in the schedule, is read back
   * from the served playlist, at its rank among the listed channels.
   */
  lemma PlaylistReadsEveryChannel(sched: seq<PatternData>, base: string, j: nat)
    requires ReadableBase(base)
    requires forall k :: 0 <= k < |Listed(sched)| ==> Readable(Listed(sched)[k])
    requires j < |AllChannels(sched)| && |AllChannels(sched)[j].programs| > 0
    ensures WithPrograms(AllChannels(sched)[..j]) < |Pairs(BodyLines(Join(PlaylistLines(sched, base), "\n")))|
    ensures Pairs(BodyLines(Join(PlaylistLines(sched, base), "\n")))[WithPrograms(AllChannels(sched)[..j])]
      == Listing(AllChannels(sched)[j].channelName, StreamLine(base, AllChannels(sched)[j].id))
  {
    PlaylistReadsBack(sched, base);
    ListedAt(sched, j);
  }
}
