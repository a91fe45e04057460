/**
 * The reader of an M3U channel list: the body is stripped and cut at line
 * feeds, and every "#EXTINF" line is paired with the line after it, which
 * is the stream URL. The HTTP fetch is replaced by the body it returns.
 */
module M3uReader {
  import opened Wrappers
  import opened Text
  import TsFramer

  const ExtinfTag: string := "#EXTINF"

  /** A channel read from the list: its display name and its stream URL. */
  datatype Listing = Listing(name: string, url: string)

  /** The display name on an EXTINF line: the text after its first comma, stripped. */
  function ChannelName(line: string): (name: string)
    ensures ',' !in line ==> name == Strip(line)
  {
    Strip(AfterFirst(line, ','))
  }

  /** How many lines carry the EXTINF tag. */
  function CountHeaders(lines: seq<string>): (n: nat)
    ensures n <= |lines|
  {
    if lines == [] then 0 else (if StartsWith(lines[0], ExtinfTag) then 1 else 0) + CountHeaders(lines[1..])
  }

  /**
   * The pairing scan from a position on: a header with a following line
   * yields one listing and skips both lines; a header on the last line and
   * any other line yield nothing.
   */
  function Pairs(lines: seq<string>): seq<Listing>
    decreases |lines|
  {
    if lines == [] then []
    else if StartsWith(lines[0], ExtinfTag) && |lines| >= 2 then
      [ListingAt(lines, 0)] + Pairs(lines[2..])
    else Pairs(lines[1..])
  }

  /** The listing read from the EXTINF line at i and the URL line after it. */
  function ListingAt(lines: seq<string>, i: nat): Listing
    requires i + 1 < |lines|
  {
    Listing(ChannelName(lines[i]), Strip(lines[i + 1]))
  }

  /** The lines the reader scans. */
  function BodyLines(body: string): (lines: seq<string>)
    ensures |lines| >= 1
  {
    Split(Strip(body), '\n')
  }

  /** fetch_channels after the fetch: None for a missing URL, else the listings of the body. */
  method FetchChannels(url: Option<string>, body: string) returns (channels: Option<seq<Listing>>)
    ensures url.None? ==> channels.None?
    ensures url.Some? ==> channels == Some(Pairs(BodyLines(body)))
  {
    if url.None? {
      return None;
    }
    var lines := BodyLines(body);
    var found: seq<Listing> := [];
    var i := 0;
    while i < |lines|
      invariant 0 <= i <= |lines|
      invariant found + Pairs(lines[i..]) == Pairs(lines)
      decreases |lines| - i
    {
      PairsFrom(lines, i);
      if StartsWith(lines[i], ExtinfTag) {
        var name := ChannelName(lines[i]);
        if i + 1 < |lines| {
          var streamUrl := Strip(lines[i + 1]);
          assert Listing(name, streamUrl) == ListingAt(lines, i);
          TsFramer.SeqAssoc(found, [Listing(name, streamUrl)], Pairs(lines[i + 2..]));
          found := found + [Listing(name, streamUrl)];
          i := i + 2;
        } else {
          i := i + 1;
        }
      } else {
        i := i + 1;
      }
    }
    assert lines[i..] == [];
    assert found + Pairs(lines[i..]) == found;
    channels := Some(found);
  }

  /** One step of the scan at position i. */
  lemma PairsFrom(lines: seq<string>, i: nat)
    requires i < |lines|
    ensures Pairs(lines[i..]) ==
      if StartsWith(lines[i], ExtinfTag) && i + 1 < |lines|
      then [ListingAt(lines, i)] + Pairs(lines[i + 2..])
      else Pairs(lines[i + 1..])
  {
    var t := lines[i..];
    assert t[0] == lines[i];
    assert t[1..] == lines[i + 1..];
    if i + 1 < |lines| {
      assert t[1] == lines[i + 1] && t[2..] == lines[i + 2..];
    }
  }

  /** There are never more listings than EXTINF lines. */
  lemma {:induction false} PairsBound(lines: seq<string>)
    ensures |Pairs(lines)| <= CountHeaders(lines)
  {
    if lines != [] {
      if StartsWith(lines[0], ExtinfTag) && |lines| >= 2 {
        PairsBound(lines[2..]);
        assert lines[1..][1..] == lines[2..];
        CountHeadersMonotone(lines[1..]);
      } else {
        PairsBound(lines[1..]);
      }
    }
  }

  lemma CountHeadersMonotone(lines: seq<string>)
    requires lines != []
    ensures CountHeaders(lines[1..]) <= CountHeaders(lines)
  {
  }

  /**
   * The k-th listing is read from the EXTINF line at at[k] and the line
   * right after it, and those positions increase by at least two.
   */
  predicate ReadAt(lines: seq<string>, at: seq<nat>) {
    && |at| == |Pairs(lines)|
    && (forall k :: 0 <= k < |at| ==> at[k] + 1 < |lines| && StartsWith(lines[at[k]], ExtinfTag))
    && (forall k :: 0 <= k < |at| ==> Pairs(lines)[k] == ListingAt(lines, at[k]))
    && (forall k :: 0 < k < |at| ==> at[k - 1] + 2 <= at[k])
  }

  /** Every listing comes from an EXTINF line and the line after it, in the order of those lines. */
  lemma {:induction false} PairsSound(lines: seq<string>) returns (at: seq<nat>)
    ensures ReadAt(lines, at)
  {
    if lines == [] {
      at := [];
    } else if StartsWith(lines[0], ExtinfTag) && |lines| >= 2 {
      var rest := PairsSound(lines[2..]);
      at := ReadAtHeader(lines, rest);
    } else {
      var rest := PairsSound(lines[1..]);
      at := ReadAtSkip(lines, rest);
    }
  }

  lemma ReadAtHeader(lines: seq<string>, rest: seq<nat>) returns (at: seq<nat>)
    requires |lines| >= 2 && StartsWith(lines[0], ExtinfTag) && ReadAt(lines[2..], rest)
    ensures ReadAt(lines, at)
  {
    var tail := lines[2..];
    var ps := Pairs(lines);
    PairsHead(lines);
    at := [0] + Shift(rest, 2);
    TailFacts(lines, rest);
    assert |at| == |ps|;
    forall k | 0 <= k < |at|
      ensures at[k] + 1 < |lines| && StartsWith(lines[at[k]], ExtinfTag) && ps[k] == ListingAt(lines, at[k])
    {
      if k > 0 {
        assert at[k] == rest[k - 1] + 2 && ps[k] == Pairs(tail)[k - 1];
      }
    }
    ConsOrdered(rest);
  }

  /** What a read of the lines after the first two says about the whole. */
  lemma TailFacts(lines: seq<string>, rest: seq<nat>)
    requires |lines| >= 2 && ReadAt(lines[2..], rest)
    ensures forall k :: 0 <= k < |rest| ==> rest[k] + 3 < |lines| && StartsWith(lines[rest[k] + 2], ExtinfTag)
    ensures forall k :: 0 <= k < |rest| ==> Pairs(lines[2..])[k] == ListingAt(lines, rest[k] + 2)
  {
    forall k | 0 <= k < |rest|
      ensures rest[k] + 3 < |lines| && StartsWith(lines[rest[k] + 2], ExtinfTag)
      ensures Pairs(lines[2..])[k] == ListingAt(lines, rest[k] + 2)
    {
      TailListing(lines, rest[k]);
    }
  }

  /** An EXTINF line with a line after it starts the listings. */
  lemma PairsHead(lines: seq<string>)
    requires |lines| >= 2 && StartsWith(lines[0], ExtinfTag)
    ensures Pairs(lines) == [ListingAt(lines, 0)] + Pairs(lines[2..])
  {
  }

  /** Position j after the first two lines is position j + 2 of the whole. */
  lemma TailListing(lines: seq<string>, j: nat)
    requires j + 3 < |lines|
    ensures lines[2..][j] == lines[j + 2] && ListingAt(lines[2..], j) == ListingAt(lines, j + 2)
  {
    assert lines[2..][j + 1] == lines[j + 3];
  }

  lemma ConsOrdered(rest: seq<nat>)
    requires forall k :: 0 < k < |rest| ==> rest[k - 1] + 2 <= rest[k]
    ensures forall k :: 0 < k < |[0] + Shift(rest, 2)| ==> ([0] + Shift(rest, 2))[k - 1] + 2 <= ([0] + Shift(rest, 2))[k]
  {
    var at := [0] + Shift(rest, 2);
    forall k | 0 < k < |at|
      ensures at[k - 1] + 2 <= at[k]
    {
      if k > 1 {
        assert at[k - 1] == rest[k - 2] + 2;
      }
      assert at[k] == rest[k - 1] + 2;
    }
  }

  lemma ReadAtSkip(lines: seq<string>, rest: seq<nat>) returns (at: seq<nat>)
    requires lines != [] && !(StartsWith(lines[0], ExtinfTag) && |lines| >= 2) && ReadAt(lines[1..], rest)
    ensures ReadAt(lines, at)
  {
    var tail := lines[1..];
    assert Pairs(lines) == Pairs(tail);
    at := Shift(rest, 1);
    forall k | 0 <= k < |at|
      ensures at[k] + 1 < |lines| && StartsWith(lines[at[k]], ExtinfTag)
      ensures Pairs(lines)[k] == ListingAt(lines, at[k])
    {
      assert tail[rest[k]] == lines[at[k]] && tail[rest[k] + 1] == lines[at[k] + 1];
      assert ListingAt(tail, rest[k]) == ListingAt(lines, at[k]);
    }
    forall k | 0 < k < |at|
      ensures at[k - 1] + 2 <= at[k]
    {
      assert at[k - 1] == rest[k - 1] + 1 && at[k] == rest[k] + 1;
    }
  }

  /** Positions in a suffix, as positions in the whole. */
  function Shift(at: seq<nat>, d: nat): (r: seq<nat>)
    ensures |r| == |at|
    ensures forall k :: 0 <= k < |at| ==> r[k] == at[k] + d
  {
    if at == [] then [] else [at[0] + d] + Shift(at[1..], d)
  }

  /** The line after an EXTINF line is its URL even when it is itself an EXTINF line. */
  lemma HeaderConsumesNext(header: string, next: string, rest: seq<string>)
    requires StartsWith(header, ExtinfTag)
    ensures Pairs([header, next] + rest) == [Listing(ChannelName(header), Strip(next))] + Pairs(rest)
  {
    var lines := [header, next] + rest;
    assert lines[2..] == rest;
    assert ListingAt(lines, 0) == Listing(ChannelName(header), Strip(next));
  }

  /** An EXTINF line with nothing after it yields nothing. */
  lemma TrailingHeader(header: string)
    requires StartsWith(header, ExtinfTag)
    ensures Pairs([header]) == []
  {
  }
}
