# epgBuilder core, modelled in Dafny

epgBuilder turns an IPTV playlist of event channels into a guide and a set of
virtual channels. The following parts of it are modelled here:

- a Flask server (`app/server.py`). It serves a playlist (`/playlist.m3u`), an
  XMLTV guide (`/epg.xml`), a channel count (`/health`) and the live MPEG-TS
  stream of a virtual channel (`/stream/<id>.ts`). The stream is re-framed
  into whole 188-byte transport packets, each starting with the sync byte
  0x47 of section 2.4.3.2 of ISO/IEC 13818-1;
- a per-channel session table (`StreamManager` in `app/stream_manager.py`)
  with idle eviction and source switching;
- the EXTINF line reader (`M3UReader.fetch_channels`), which follows the
  EXTINF tag of section 4.3.2.1 of RFC 8216;
- the playlist-to-guide builder (`parse_extinf`, `parse_timezone`,
  `parse_channels`, `generate_xmltv` in `app/build_functions.py`);
- the event-string helpers of `app/utils/event_processor/event_processor.py`.

Modules, one per source file plus shared vocabulary:

| file | module | models |
|---|---|---|
| wrappers.dfy | Wrappers | `Option`, `Result` |
| text.dfy | Text | the Python `str` operations the core uses (`strip`, `split`, `join`, `splitlines`, `replace`, `upper`, `isdigit`), `\s`/`\w` classes, `html.escape` |
| calendar.dfy | Calendar | `datetime` dates and wall-clock times, `timedelta` days and seconds, `strptime`/`strftime` for `%Y-%m-%d`, `%H:%M`, `%H:%M:%S` |
| schedule.dfy | Schedule | the schedule (patterns, service channels, programs) and the two first-match live-program resolvers |
| ts_framer.dfy | TsFramer | `stream_ts`, the packet-alignment loop |
| server.dfy | Server | `stream`, `playlist`, `epg`, `health` |
| stream_manager.dfy | Sessions | `StreamManager` as a class over a map of sessions |
| m3u_reader.dfy | M3uReader | `fetch_channels` after the fetch |
| playlist_readback.dfy | PlaylistReadback | the playlist the server writes, read back by `fetch_channels` |
| build_functions.dfy | BuildFunctions | `parse_extinf`, `parse_timezone`, `parse_channels` |
| xmltv_writer.dfy | XmltvWriter | `generate_xmltv` and its `%Y%m%d%H%M%S %z` stamps |
| event_processor.dfy | EventProcessor | `rep`, `extract_date`, `extract_time`, `convert_to_utc`, `find_best_match`, `make_safe_filename`, `format_event_name` |

Modelling choices:

- Instants are integer seconds, and `now` is a parameter.
  - The server's ISO-8601 fields (`start_dt`, `stop_dt`) and the manager's
    (`start`, `stop`) are already-parsed optional integers.
  - The two resolvers read different keys, and each is modelled with its own
    keys.
- The upstream of a stream is its HTTP status plus the sequence of chunks it
  delivers.
- Where the code updates state step by step, the model does too:
  - `stream_ts` keeps a byte buffer and a `while` loop;
  - lookups, `playlist`, `epg`, `parse_channels`, `generate_xmltv`,
    `extract_time` and `find_best_match` are methods with loops;
  - `StreamManager` is a class whose methods update a `map` field.
- Each such method is proved equal to a specification function, and the
  properties are lemmas about that function.
- The monitor thread's loop body is `MonitorTick(id, now)`. `RunMonitor`
  runs it over a sequence of tick instants.
- A time zone is a function from a local wall-clock time to an offset in
  seconds, so an offset that depends on the date (daylight saving) is
  covered.
  - `gettz` is a parameter that returns such a function or nothing.
  - `parse_timezone` takes the tz database as a predicate on names.
- The event parser of `parse_channels` (`parse_event_from_name`, which
  reads a configuration file) is a function parameter.
- The similarity ratio of `find_best_match` is an uninterpreted function
  parameter.

Where the design of the proxy and its code differ, the model follows the
code:

- There is no session state machine (Starting/Running/SwitchingSource/Failed).
  A session is present in the table or absent.
- The idle timeout is the constant 300 seconds, and the test is a strict `>`.
- The resolvers scan the program list in its stored order. They do not
  assume it is sorted.
- The two resolvers read different keys.

## Model

| member | source | states |
|---|---|---|
| TsFramer.FindSync | app/server.py:341-343 | `buffer.find(0x47)`: None exactly when no byte is 0x47; otherwise the index of the first 0x47 |
| TsFramer.Drain | app/server.py:339-359 | the inner loop leaves fewer than 188 bytes; a buffer under 188 bytes is left untouched |
| TsFramer.Emit | app/server.py:354-359 | emitting from an aligned buffer leaves fewer than 188 bytes |
| TsFramer.DrainSound | app/server.py:339-359 | the emitted and dropped pieces plus the residue are exactly the buffer, in order; every emitted piece is a 188-byte packet starting with 0x47; every dropped run either has no 0x47, or is the prefix before one |
| TsFramer.EmitSound | app/server.py:354-359 | the same conservation and framing for the emit step |
| TsFramer.DrainNoSync | app/server.py:343-347 | a buffer of at least 188 bytes with no 0x47 is discarded whole: nothing is sent and nothing is kept |
| TsFramer.DrainSkip | app/server.py:349-352 | only the bytes before the first 0x47 are dropped; what follows is framed as if it had arrived alone |
| TsFramer.DrainEmit | app/server.py:357-359 | an aligned buffer of at least 188 bytes sends its first 188 bytes and goes on with the rest |
| TsFramer.FeedSound | app/server.py:336-359 | appending one chunk and draining conserves every byte, and every emitted piece is well formed |
| TsFramer.FeedAll | app/server.py:332-371 | after each chunk the residue is shorter than 188 bytes |
| TsFramer.FeedAllSound | app/server.py:332-371 | over the whole stream, emitted and dropped bytes plus the residue equal the concatenated chunks, in input order |
| TsFramer.FlattenLength | app/server.py:336-359 | bytes processed = 188 × packets + bytes dropped |
| TsFramer.ByteCount | app/server.py:336-359 | bytes received = 188 × packets sent + bytes discarded + bytes still buffered, and the buffered bytes are under 188 |
| TsFramer.PacketsOk | app/server.py:357-359 | every packet sent is 188 bytes long and starts with 0x47 |
| TsFramer.FeedAllStep | app/server.py:332-336 | one more chunk extends the previous result: the packets already sent are kept and new ones are appended |
| TsFramer.DrainBuffer | app/server.py:339-371 | the inner `while` loop sends exactly the packets of the drain specification and keeps its residue |
| TsFramer.StreamTs | app/server.py:292-378 | the packets yielded are the framing of the stream; each is a 188-byte packet starting with 0x47; a non-200 status yields nothing; the final flush sends nothing |
| Server.StripTsSuffix | app/server.py:404 | for an id with no ".ts" in it, removing ".ts" from `<id>.ts` gives the id back |
| Server.StripTsInner | app/server.py:404 | an illustration on one input: `replace` removes every ".ts", not only the suffix, so "a.tsb.ts" becomes "ab" |
| Server.FindChannel | app/server.py:408-415 | the nested loop with `break` finds the first service channel with the id, in pattern order then list order |
| Server.FindLiveEvent | app/server.py:423-436 | the loop finds the first program with both `start_dt` and `stop_dt` and start ≤ now < stop |
| Server.Stream | app/server.py:403-461 | 404 "Channel not found" when no channel has the id without ".ts"; 404 "No active event" when no program is live or it has no `stream_url`; a 500 when that program has no `program_name` key; otherwise the framed packets of that URL, each a well-formed TS packet |
| Server.Health | app/server.py:537-544 | `total_channels` is the number of service channels over all patterns |
| Server.ListedIn | app/server.py:472-473 | only channels with a non-empty program list are listed, each under its pattern's category |
| Server.WithProgramsRank | app/server.py:473 | of two channels with programs, the earlier one has the lower rank among the channels with programs |
| Server.ListedInExact | app/server.py:472-473 | the listing of a pattern is complete and in order: exactly as many entries as channels with programs, and each such channel is the entry at its rank, under the pattern's category |
| Server.ListedExact | app/server.py:471-473 | the same over every pattern: each channel with programs, in pattern order and then list order, is listed at its rank, and there are no other entries |
| Server.ListedKeys | app/server.py:474 | the EXTINF line's subscripts of `icon_url` and `category` succeed for every listed entry exactly when they succeed channel by channel |
| Server.EntryLinesAt | app/server.py:474-478 | exactly two lines per listed channel, at 2k the EXTINF line and at 2k+1 `<base>/stream/<id>.ts` |
| Server.EntryLinesAppend | app/server.py:471-478 | the lines of two runs of channels are the lines of each, in order |
| Server.AppendChannelLines | app/server.py:472-478 | the per-pattern loop fails with a KeyError exactly when a channel with programs lacks `icon_url` or the pattern lacks `category`; otherwise it appends exactly the two lines of each listed channel |
| Server.Playlist | app/server.py:464-480 | a 500 exactly when a listed channel lacks `icon_url` or its pattern lacks `category`; otherwise the body is "#EXTM3U" and then the lines of every listed channel, joined by "\n", with `url_root` stripped of trailing '/' |
| Server.AiringsOf | app/server.py:509 | one programme per program of the channel, in order |
| Server.AppendChannelElements | app/server.py:493-503 | the channel pass appends one channel element per listed channel |
| Server.AppendProgrammeElements | app/server.py:509-527 | the programme loop appends one programme element per program |
| Server.AppendPatternProgrammes | app/server.py:506-527 | per pattern, the programmes of every channel, with or without programs |
| Server.Epg | app/server.py:486-531 | the body is the declaration, the `<tv>` opening, the channel elements, the programme elements and `</tv>`, joined by "\n" |
| Server.ChannelElementCounts | app/server.py:499-503 | a channel element holds one `<channel` opening line and no `<programme` line |
| Server.ProgrammeTitle | app/server.py:510 | `str(program.get("program_name", ""))`: a missing key gives an empty title, null gives "None", a string its escaped text |
| Server.ProgrammeElementCounts | app/server.py:515-527 | a programme element holds one `<programme` opening line and no `<channel` line |
| Server.EpgCounts | app/server.py:490-529 | the guide has one `<channel` line per listed channel and one `<programme` line per program of every channel |
| Server.FrameCounts | app/server.py:490-529 | the header and `</tv>` lines open no element |
| Server.CountAppend | app/server.py:490-529 | counts of opening lines add up over concatenation |
| Server.RenderAppend | app/server.py:492-527 | rendering two runs of items gives the lines of each, in order |
| Schedule.PyStr | app/server.py:495-496 | `str()` of a present value is that value |
| Schedule.FirstLive | app/server.py:424-436 | the first live program: live, no earlier program live, and None exactly when none is live |
| Schedule.FirstLiveIs | app/stream_manager.py:36-47 | a live program with none live before it is the one returned |
| Schedule.HalfOpen | app/stream_manager.py:45 | a program is live at its start and not at its stop |
| Schedule.ResolversAgree | app/server.py:425-426 | when every program holds the same values under both key pairs, the two resolvers agree |
| Schedule.FirstWithId | app/server.py:409-415 | the first channel with the id: it has it, none before it has it, and None exactly when none has it |
| Schedule.FirstWithIdIs | app/stream_manager.py:22-30 | a channel with the id and none before it is the one returned |
| Schedule.FirstWithIdAppend | app/server.py:409-415 | a search over two lists finds the match in the first list if there is one, else in the second at an offset |
| Schedule.LookupIsFirst | app/server.py:408-415 | the pattern-by-pattern lookup equals the first match in the flattened channel list |
| Schedule.LookupSound | app/server.py:417-419 | lookup fails exactly when no channel has the id, and otherwise returns a channel with that id |
| Sessions.CurrentStreamUrl | app/stream_manager.py:57-71 | None for an unknown channel; a URL exactly when the first live program under `start`/`stop` has a non-empty `stream_url`, and then that URL |
| Sessions.Touch | app/stream_manager.py:230-233 | never creates an entry; changes only `last_access` of the entry for that id |
| Sessions.Start | app/stream_manager.py:73-97 | an active channel only has `last_access` refreshed and returns True. An inactive one with no URL returns False and leaves the table unchanged. Otherwise exactly one entry is added, holding the URL and three times equal to `now` |
| Sessions.Tick | app/stream_manager.py:121-142 | each outcome holds exactly when its condition does: idle (`now - last_access > timeout`) removes the entry, decided before any lookup. Otherwise no current URL removes it, a different URL changes only `stream_url` and `last_check`, and the same URL changes nothing. Other channels are never touched |
| Sessions.IdleIgnoresSchedule | app/stream_manager.py:124-129 | an idle session is removed whatever the schedule says |
| Sessions.TickStable | app/stream_manager.py:131-142 | a second tick at the same instant after a surviving tick changes nothing |
| Sessions.StartThenTick | app/stream_manager.py:83-142 | a session just started survives a tick at the same instant unchanged |
| Sessions.TouchPreventsIdle | app/stream_manager.py:124-129 | an access within the timeout prevents idle eviction |
| Sessions.MonitorOthers | app/stream_manager.py:109-148 | a channel's monitor never adds a session and never changes another channel's |
| Sessions.StreamManager.constructor | app/stream_manager.py:10-13 | an empty session table, no locks, a 300-second idle timeout |
| Sessions.StreamManager.GetServiceChannel | app/stream_manager.py:22-30 | the loop returns the first channel with the id, in pattern order then list order |
| Sessions.StreamManager.GetCurrentEvent | app/stream_manager.py:32-49 | the loop returns the first program with `start` and `stop` and start ≤ now < stop |
| Sessions.StreamManager.GetLock | app/stream_manager.py:51-55 | at most one lock per id: an existing lock is returned, otherwise a fresh one is stored |
| Sessions.StreamManager.GetCurrentStreamUrl | app/stream_manager.py:57-71 | the URL of the current stream as `CurrentStreamUrl` defines it |
| Sessions.StreamManager.StartProxy | app/stream_manager.py:73-107 | updates the table as `Start` defines it; keeps every lock and adds one for the id only when it had none |
| Sessions.StreamManager.MonitorTick | app/stream_manager.py:121-142 | one pass of the monitor loop updates the table as `Tick` defines it; keeps every lock and adds one for the id only when it had none |
| Sessions.StreamManager.RunMonitor | app/stream_manager.py:109-148 | the polling loop applies one tick per instant, as `Monitor` defines it, until the session has left the table; the lock of the id is added exactly when a pass ran, and every other lock is kept |
| Sessions.StreamManager.UpdateAccessTime | app/stream_manager.py:230-233 | updates the table as `Touch` defines it; no entry is created |
| Sessions.StreamManager.StopStream | app/stream_manager.py:235-243 | True exactly when the channel was active; the entry is removed, so a repeated call returns False; keeps every lock and adds one for the id only when it had none |
| Sessions.StreamManager.GetStreamStatus | app/stream_manager.py:245-257 | keys are exactly the active ids; uptime = now − `start_time`, idle = now − `last_access`; nothing is changed |
| M3uReader.ChannelName | app/utils/m3u_functions/m3u_functions.py:21 | without a comma, the name is the whole line stripped |
| M3uReader.CountHeaders | app/utils/m3u_functions/m3u_functions.py:19 | at most one EXTINF line per line |
| M3uReader.BodyLines | app/utils/m3u_functions/m3u_functions.py:15 | `strip().split('\n')` yields at least one line |
| M3uReader.FetchChannels | app/utils/m3u_functions/m3u_functions.py:7-32 | None for a None URL; otherwise the loop yields exactly the pairs of the scan specification |
| M3uReader.PairsFrom | app/utils/m3u_functions/m3u_functions.py:18-30 | one step of the loop: a header with a next line yields one pair and skips two lines; anything else skips one |
| M3uReader.PairsBound | app/utils/m3u_functions/m3u_functions.py:17-32 | there are never more pairs than EXTINF lines |
| M3uReader.CountHeadersMonotone | app/utils/m3u_functions/m3u_functions.py:19 | dropping a line never adds an EXTINF line |
| M3uReader.PairsSound | app/utils/m3u_functions/m3u_functions.py:17-32 | every pair comes from an EXTINF line and the line after it, at positions increasing by at least two, so the output keeps input order |
| M3uReader.ReadAtHeader | app/utils/m3u_functions/m3u_functions.py:19-26 | a header with a next line puts its pair in front of those read from the lines after |
| M3uReader.ReadAtSkip | app/utils/m3u_functions/m3u_functions.py:27-30 | a skipped line shifts every later position by one |
| M3uReader.HeaderConsumesNext | app/utils/m3u_functions/m3u_functions.py:23-26 | the line after an EXTINF line is its URL, stripped, even when it is itself an EXTINF line |
| M3uReader.TrailingHeader | app/utils/m3u_functions/m3u_functions.py:27-28 | an EXTINF line with nothing after it yields nothing |
| M3uReader.PairsHead | app/utils/m3u_functions/m3u_functions.py:19-26 | lines that open with an EXTINF line and a next line start with that pair |
| PlaylistReadback.ExtinfLineReads | app/server.py:474 | the EXTINF line the server writes is tagged, is one line, and reads back as the channel name |
| PlaylistReadback.StreamLineReads | app/server.py:475 | the stream line is one line, unchanged by `strip`, ending in 's' |
| PlaylistReadback.PairsAligned | app/utils/m3u_functions/m3u_functions.py:17-32 | lines alternating EXTINF line, URL line are read pair by pair, one pair per two lines |
| PlaylistReadback.PairRead | app/server.py:474-478 | an entry's two lines read back as its name and stream URL |
| PlaylistReadback.EntryLinesRead | app/server.py:471-478 | the entry lines read back, in order, as the names and stream URLs of the listed channels |
| PlaylistReadback.BodySplitsBack | app/utils/m3u_functions/m3u_functions.py:15 | `strip().split('\n')` of lines joined by "\n" gives the lines back when the ends are not blank |
| PlaylistReadback.PlaylistLinesPlain | app/server.py:469-478 | every playlist line is a single line and the last one ends in a visible character |
| PlaylistReadback.PlaylistTextSplits | app/server.py:480 | the playlist body splits back into its lines |
| PlaylistReadback.EntriesReadBack | app/server.py:469-480 | the body over given entries reads back as their names and URLs |
| PlaylistReadback.HeaderSkipped | app/utils/m3u_functions/m3u_functions.py:29-30 | "#EXTM3U" is not an EXTINF line and is skipped |
| PlaylistReadback.PlaylistReadsBack | app/server.py:464-480 | reading the served playlist with `fetch_channels` gives, in order, the name and stream URL of every listed channel |
| PlaylistReadback.PlaylistReadsEveryChannel | app/server.py:469-480 | every channel with programs is read back from the served playlist, at its rank among those channels, as its name and stream URL |
| BuildFunctions.KeyEnd | app/build_functions.py:22 | the longest run of `[\w-]` characters at the start |
| BuildFunctions.MatchAttr | app/build_functions.py:22 | a `key="value"` match has a non-empty key and a value with no '"' |
| BuildFunctions.FindAttrs | app/build_functions.py:22 | every pair found is a well-formed attribute |
| BuildFunctions.LookupLastWins | app/build_functions.py:23 | with a repeated key the dictionary keeps the last value; a key not found gives None |
| BuildFunctions.NameOr | app/build_functions.py:27 | `tvg-name` when present and non-empty, else the label |
| BuildFunctions.ParseExtinf | app/build_functions.py:16-28 | None unless the line begins with "#EXTINF:-1" and holds a comma |
| BuildFunctions.CommaSurvives | app/build_functions.py:17 | skipping `\s*` after the tag keeps or loses no comma |
| BuildFunctions.MatchWritten | app/build_functions.py:22 | a written `key="value"` piece is matched as that key and value |
| BuildFunctions.FindAttrText | app/build_functions.py:22 | `findall` over written attributes gives those attributes back, in order |
| BuildFunctions.ParseExtinfSplit | app/build_functions.py:17-28 | attributes come only from the text before the first comma; the label is everything after it, stripped |
| BuildFunctions.ParseFormatted | app/build_functions.py:16-28 | a line written from attributes and a label parses back to the last value of each key, and `tvg-name` falls back to the label |
| BuildFunctions.UtcOffsetHours | app/build_functions.py:36-38 | a match needs the "UTC" prefix in either case and a sign and digits |
| BuildFunctions.ParseTimezone | app/build_functions.py:30-50 | empty gives UTC. "UTC±N" gives a fixed offset of N·3600 seconds. Otherwise a name the tz database knows gives that zone, and anything else UTC |
| BuildFunctions.OffsetNameRoundTrip | app/build_functions.py:36-39 | "UTC+N" / "UTC-N" gives an offset of N·3600 seconds |
| BuildFunctions.OffsetHoursCase | app/build_functions.py:36 | the match ignores the case of "UTC" |
| BuildFunctions.OffsetIgnoresCase | app/build_functions.py:36-39 | "utc+N", "Utc-N" and the like give the same offset |
| BuildFunctions.ChannelOf | app/build_functions.py:153-160 | the record appended: `id` from `tvg-chno`, description from the name, and the event's fields |
| BuildFunctions.ChannelFor | app/build_functions.py:134-160 | a line gives at most one channel, only for a parsed EXTINF line with a non-empty event name, with `id` from `tvg-chno` |
| BuildFunctions.Channels | app/build_functions.py:128-160 | no more channels than lines, each with a non-empty program name |
| BuildFunctions.ChannelsSnoc | app/build_functions.py:128-160 | one more line appends its channel, if any, at the end, so input order is kept |
| BuildFunctions.ChannelsAppend | app/build_functions.py:128-160 | channels of two runs of lines are those of each, in order |
| BuildFunctions.ParseChannels | app/build_functions.py:123-162 | the corrected loop over `splitlines()` yields exactly the specification's channels |
| BuildFunctions.AsWrittenSnoc | app/build_functions.py:128-136 | as written, a line the guard admits but `parse_extinf` refuses raises; other lines act as in the corrected loop |
| BuildFunctions.AsWrittenFailureSticks | app/build_functions.py:128-136 | once a line has raised, later lines do not matter |
| BuildFunctions.ParseChannelsAsWritten | app/build_functions.py:123-162 | the loop as written yields the as-written result, with the TypeError as an error value |
| BuildFunctions.GuardAdmitsParsed | app/build_functions.py:130-134 | every line `parse_extinf` accepts passes the guard |
| BuildFunctions.AsWrittenAgrees | app/build_functions.py:128-160 | when no line passes the guard and fails `parse_extinf`, the code as written and the corrected loop agree |
| BuildFunctions.IndentedLineFails | app/build_functions.py:130-136 | " #EXTINF:-1,News" passes the guard, `parse_extinf` returns None, and the code raises; the corrected loop skips it |
| XmltvWriter.FormatOffset | app/build_functions.py:184 | `%z` is five characters, '+' exactly for a non-negative offset |
| XmltvWriter.ParseStamp | app/build_functions.py:182 | a parsed `%Y%m%d%H%M%S %z` stamp is a valid date, time and offset |
| XmltvWriter.ParseLocal | app/build_functions.py:182 | the parsed local part is a valid date and time |
| XmltvWriter.ParseOffset | app/build_functions.py:182 | a parsed `%z` ("Z", "±HHMM" or "±HH:MM") is less than a day either way |
| XmltvWriter.OffsetFields | app/build_functions.py:182 | an offset reads exactly when it has a sign, two-digit hours below 24 and two-digit minutes below 60 |
| XmltvWriter.OffsetColonForm | app/build_functions.py:182 | `%z` reads "±HH:MM" as it reads "±HHMM", and "Z" as UTC |
| XmltvWriter.LocalRoundTrip | app/build_functions.py:182-184 | `strptime` reads back what `strftime("%Y%m%d%H%M%S")` writes, for four-digit years |
| XmltvWriter.OffsetRoundTrip | app/build_functions.py:182-184 | `%z` reads back as written |
| XmltvWriter.StampRoundTrip | app/build_functions.py:182-184 | the whole stamp reads back as written |
| XmltvWriter.StopStamp | app/build_functions.py:182-184 | a stop is written only for a start that parses |
| XmltvWriter.StopThreeHoursLater | app/build_functions.py:182-184 | the stop parses, keeps the start's offset, is exactly three hours after the start (and three hours back gives the start) and is later than it |
| XmltvWriter.WrittenStartHasStop | app/build_functions.py:182-184 | a written start gets a stop exactly when three hours later is still a representable date |
| XmltvWriter.GenerateXmltv | app/build_functions.py:165-195 | the lines written are the guide; when a start cannot be parsed the write stops there, as the raised ValueError does, after the header, the channels and the earlier programmes |
| XmltvWriter.WriteChannels | app/build_functions.py:167-176 | the header and one channel element per channel |
| XmltvWriter.ProgrammesStep | app/build_functions.py:178-193 | one more channel adds its programme if it has a start, nothing if not, and fails if the start does not parse |
| XmltvWriter.FailureSticks | app/build_functions.py:182 | once a start fails to parse, the whole programme pass fails |
| XmltvWriter.ProgrammesSucceed | app/build_functions.py:178-193 | the programme pass succeeds exactly when every scheduled start has a stop |
| XmltvWriter.CountScheduled | app/build_functions.py:179-180 | at most one programme per channel |
| XmltvWriter.ChannelBlockCounts | app/build_functions.py:172-176 | a channel block opens one channel and no programme |
| XmltvWriter.ProgrammeBlockCounts | app/build_functions.py:190-193 | a programme block opens one programme and no channel |
| XmltvWriter.ProgrammesCounts | app/build_functions.py:178-193 | one programme per channel with a `program_start`, and no channel line |
| XmltvWriter.GuideFrameCounts | app/build_functions.py:167-195 | the header and `</tv>` open no element |
| XmltvWriter.GuideCounts | app/build_functions.py:165-195 | one channel element per channel and one programme per channel with a `program_start` |
| XmltvWriter.ChannelBlocksCount | app/build_functions.py:170-176 | the channel pass opens one channel per channel and no programme |
| EventProcessor.Hour24 | app/utils/event_processor/event_processor.py:62-65 | "pm" with hour ≠ 12 adds 12; "am" with 12 gives 0; every other hour is kept |
| EventProcessor.Rep | app/utils/event_processor/event_processor.py:57-67 | the replacement is zero-padded "HH:MM" |
| EventProcessor.To12 | app/utils/event_processor/event_processor.py:57-67 | the 12-hour reading of a 24-hour hour (the partner of `Hour24`) has an hour from 1 to 12 |
| EventProcessor.Hour24Bijection | app/utils/event_processor/event_processor.py:62-65 | on hours 1–12, the conversion gives an hour under 24, "am" exactly for hours under 12, and is undone by `To12` |
| EventProcessor.To12Inverse | app/utils/event_processor/event_processor.py:62-65 | every 24-hour hour is reached by exactly one 12-hour reading |
| EventProcessor.RepIsClock | app/utils/event_processor/event_processor.py:57-67 | `rep` writes the `%H:%M` clock of the converted hour and the minutes, which default to 0 |
| EventProcessor.ClockFormat | app/utils/event_processor/event_processor.py:67 | `{h:02d}:{m:02d}` is the `%H:%M` clock of h and m |
| EventProcessor.KeepSafe | app/utils/event_processor/event_processor.py:254 | what is left holds only word characters, '-', '_' and '.' |
| EventProcessor.MakeSafeFilename | app/utils/event_processor/event_processor.py:251-255 | the result has no space and only word characters, '-', '_' and '.' |
| EventProcessor.SafeFilenameByChar | app/utils/event_processor/event_processor.py:253-254 | the two passes equal one character-by-character map: ' ' becomes '_', allowed characters stay, others go |
| EventProcessor.SafeFilenameFixpoint | app/utils/event_processor/event_processor.py:251-255 | a string is left unchanged exactly when it already holds only allowed characters |
| EventProcessor.SafeFilenameIdempotent | app/utils/event_processor/event_processor.py:251-255 | applying it twice equals applying it once |
| EventProcessor.Capitalize | app/utils/event_processor/event_processor.py:261 | words longer than two characters are upper-cased, shorter ones kept |
| EventProcessor.CapitalizeAll | app/utils/event_processor/event_processor.py:261 | the comprehension maps every word, in order |
| EventProcessor.FormatEventNameWords | app/utils/event_processor/event_processor.py:258-262 | the words of the result are the input's words, each capitalised as above |
| EventProcessor.FormatEventNameIdempotent | app/utils/event_processor/event_processor.py:258-262 | formatting twice equals formatting once |
| EventProcessor.FindBestMatch | app/utils/event_processor/event_processor.py:224-248 | (None, 0) for no events; None exactly when every score is at most 0; otherwise the first event with the strictly greatest score, and its score |
| EventProcessor.SelectBest | app/utils/event_processor/event_processor.py:229-246 | the loop keeps the first event whose score is strictly greater than every earlier one and 0 |
| EventProcessor.TimeMatchAt | app/utils/event_processor/event_processor.py:126 | a time match is 5 ("HH:MM") or 8 ("HH:MM:SS") characters inside the string |
| EventProcessor.MatchAt | app/utils/event_processor/event_processor.py:107-126 | a match of either pattern lies inside the string |
| EventProcessor.ScanFrom | app/utils/event_processor/event_processor.py:107-158 | `findall` and `sub` find one position per match |
| EventProcessor.ScanMatches | app/utils/event_processor/event_processor.py:108-127 | every match found is a match of the pattern at its position, at increasing positions |
| EventProcessor.ScanNothing | app/utils/event_processor/event_processor.py:109-129 | nothing is found exactly when no position matches, and then nothing is removed |
| EventProcessor.ParseDates | app/utils/event_processor/event_processor.py:111 | every date text parses, one date per match, in order |
| EventProcessor.ParseDatesNone | app/utils/event_processor/event_processor.py:111 | the list comprehension fails exactly when some matched date is not a calendar date |
| EventProcessor.Earliest | app/utils/event_processor/event_processor.py:112 | `min` is one of the dates, and no date is earlier |
| EventProcessor.ExtractDateNone | app/utils/event_processor/event_processor.py:109-121 | with no YYYY-MM-DD match the result is (None, input) unchanged, and only then |
| EventProcessor.ExtractDateFails | app/utils/event_processor/event_processor.py:111 | extract_date raises exactly when some match is not a calendar date (e.g. 2023-02-30) |
| EventProcessor.ExtractDateEarliest | app/utils/event_processor/event_processor.py:105-121 | the date returned is a matched date, rewritten as `%Y-%m-%d`, no earlier than any other match |
| EventProcessor.TimeTextParses | app/utils/event_processor/event_processor.py:134-139 | a matched time has a ':', splits into 2 or 3 parts, and `strptime` reads it |
| EventProcessor.TimeTextClock | app/utils/event_processor/event_processor.py:137-139 | `strptime` reads the matched text as its clock value |
| EventProcessor.FoundTimeTexts | app/utils/event_processor/event_processor.py:126-127 | every match is an `HH:MM` or `HH:MM:SS` text with valid fields |
| EventProcessor.MinOf | app/utils/event_processor/event_processor.py:142 | `min` is in the list and no larger than any element |
| EventProcessor.MaxOf | app/utils/event_processor/event_processor.py:143 | `max` is in the list and no smaller than any element |
| EventProcessor.TimeScanNothing | app/utils/event_processor/event_processor.py:129-161 | no time match leaves the string whole |
| EventProcessor.ReadTime | app/utils/event_processor/event_processor.py:134-139 | a matched time text is read as its clock value |
| EventProcessor.ExtractTime | app/utils/event_processor/event_processor.py:124-163 | no match gives (None, None, input). Otherwise the start is the earliest time as `%H:%M`, with seconds dropped. The end is the latest time only when it exceeds the earliest by more than one minute. The rest has every time removed, is stripped and has its blanks collapsed |
| EventProcessor.ParseAt | app/utils/event_processor/event_processor.py:182-184 | `_parse_datetime` gives a valid date and time |
| EventProcessor.ToUtc | app/utils/event_processor/event_processor.py:204-206 | `astimezone(UTC)` gives a valid date and time |
| EventProcessor.EndAfter | app/utils/event_processor/event_processor.py:213-216 | an end earlier than the start is moved to the next day: on the start's date and not earlier, or on the next date and earlier in the clock; it fails exactly when the end does not parse |
| EventProcessor.Normalised | app/utils/event_processor/event_processor.py:187-198 | without a zone, the start's date and clock are written again, with an end exactly when one is given |
| EventProcessor.Shifted | app/utils/event_processor/event_processor.py:200-221 | with a zone, the date and start are those of the start in UTC, with an end exactly when one is given |
| EventProcessor.ConvertToUtc | app/utils/event_processor/event_processor.py:166-221 | raises the missing-field ValueError exactly when `date_str` or `start_time` is empty or None; an end is returned exactly when one is given |
| EventProcessor.SameDate | app/utils/event_processor/event_processor.py:188-193 | start and end parsed on the same `date_str` have the same date |
| EventProcessor.ConvertEndWithinDay | app/utils/event_processor/event_processor.py:213-216 | the end converted lies in the 24 hours after the start |
| EventProcessor.ToUtcZero | app/utils/event_processor/event_processor.py:200-206 | a zone with offset 0 everywhere moves nothing |
| EventProcessor.ConvertUtcIdentity | tests/test_event_processor_convert_to_utc.py:12-16 | naming UTC, or a name `gettz` cannot resolve, gives the same as giving no zone |
| EventProcessor.ShiftBack | app/utils/event_processor/event_processor.py:205-206 | the zone's offset carries the UTC instant back to the local time |
| EventProcessor.ConvertShiftBack | app/utils/event_processor/event_processor.py:204-209 | with a zone, the date and start written are those of a UTC instant that the zone's offset at the local start carries back to that start |
| EventProcessor.LaidOutDate | app/utils/event_processor/event_processor.py:189 | a text is `strftime("%Y-%m-%d")` of a date exactly when it has the date's fields laid out with '-' |
| EventProcessor.LaidOutClock | app/utils/event_processor/event_processor.py:190 | a text is `strftime("%H:%M")` of a clock exactly when it has its fields laid out with ':' |
| EventProcessor.ReadLaidOut | app/utils/event_processor/event_processor.py:182-184 | `_parse_datetime` reads laid-out date and clock texts as that date and clock |
| EventProcessor.DateTimeRead | app/utils/event_processor/event_processor.py:184 | `strptime("%Y-%m-%d %H:%M")` reads a laid-out text |
| EventProcessor.PlainPath | app/utils/event_processor/event_processor.py:187-198 | without a zone name, `convert_to_utc` is the plain path from the parsed start |
| EventProcessor.ReadFormatted | app/utils/event_processor/event_processor.py:182-190 | `_parse_datetime` reads back what `strftime` writes, for four-digit years |
| EventProcessor.ConvertNormalForm | app/utils/event_processor/event_processor.py:187-198 | without a zone or an end, a date and a start already in normal form come back unchanged |
| EventProcessor.NormalisedEnd | app/utils/event_processor/event_processor.py:192-197 | the next-day shift of an earlier end does not alter the printed end |
| EventProcessor.PlainPathEnd | app/utils/event_processor/event_processor.py:187-198 | without a zone name, the start's date and both clocks are written as read, whether or not the end is past midnight |
| Calendar.DaysInMonth | app/utils/event_processor/event_processor.py:111 | every month has 28 to 31 days |
| Calendar.NextDay | app/utils/event_processor/event_processor.py:216 | `+ timedelta(days=1)` gives a valid, later date; it overflows only on 9999-12-31 |
| Calendar.PrevDay | app/utils/event_processor/event_processor.py:216 | the day before is a valid, earlier date; only 0001-01-01 has none |
| Calendar.DayRoundTrip | app/utils/event_processor/event_processor.py:216 | the next day and the day before undo each other |
| Calendar.AddSeconds | app/build_functions.py:183 | adding a `timedelta` gives a valid date and time |
| Calendar.AddSecondsInverse | app/build_functions.py:183 | adding and then subtracting the same `timedelta` gives the start back |
| Calendar.AddSecondsOrder | app/build_functions.py:183 | adding a positive amount moves later, a negative one earlier, zero nowhere |
| Calendar.ParseDate | app/utils/event_processor/event_processor.py:111 | `strptime("%Y-%m-%d")` accepts only calendar dates |
| Calendar.DateRoundTrip | app/utils/event_processor/event_processor.py:111-113 | `strptime` reads back `strftime("%Y-%m-%d")` of a date with a four-digit year |
| Calendar.ClockRoundTrip | app/utils/event_processor/event_processor.py:149-152 | `%H:%M` read back gives the clock with its seconds dropped |
| Calendar.ClockRead | app/utils/event_processor/event_processor.py:137 | `strptime("%H:%M")` reads zero-padded hours and minutes |
| Text.LStripSpec | app/utils/m3u_functions/m3u_functions.py:15 | `lstrip` removes exactly a leading run of whitespace |
| Text.RStripSpec | app/utils/m3u_functions/m3u_functions.py:15 | `rstrip` removes exactly a trailing run of whitespace |
| Text.RStripChar | app/server.py:467 | `rstrip('/')` keeps a prefix and removes only '/' characters, leaving none at the end |
| Text.Split | app/utils/m3u_functions/m3u_functions.py:15 | `split` gives at least one part, none holding the separator |
| Text.SplitJoin | app/utils/m3u_functions/m3u_functions.py:15 | joining the parts of `split` with the separator gives the text back |
| Text.JoinSplit | app/server.py:480 | splitting parts joined by a separator they do not hold gives them back |
| Text.CountCharAppend | app/utils/event_processor/event_processor.py:183 | `count` adds up over concatenation |
| Text.CharIndex | app/utils/m3u_functions/m3u_functions.py:21 | the first position of the character, or the length when it is absent |
| Text.AfterFirst | app/utils/m3u_functions/m3u_functions.py:21 | `split(',', 1)[-1]` is the text after the first comma, or the whole text without one |
| Text.SplitLines | app/build_functions.py:126 | `splitlines` gives lines without line breaks, and none for empty text |
| Text.SplitWords | app/utils/event_processor/event_processor.py:260 | `split()` gives non-empty words without whitespace |
| Text.CollapseSpaces | app/utils/event_processor/event_processor.py:117 | `re.sub(r'\s+', ' ')` leaves no two adjacent blanks and only ' ' as a blank |
| Text.ReplaceAllAbsent | app/server.py:404 | `replace` of a pattern that does not occur changes nothing |
| Text.UpperSpec | app/utils/event_processor/event_processor.py:261 | `upper` is idempotent and keeps whitespace where it was |
| Text.NatToString | app/utils/event_processor/event_processor.py:67 | the decimal digits of a number, with no leading zero |
| Text.Pad2 | app/utils/event_processor/event_processor.py:67 | `{n:02d}` is at least two digits with value n, and exactly two below 100 |
| Text.Escape | app/server.py:495-496 | `html.escape` leaves no '<' or '>', and with `quote=True` no quotes |
| Text.EscapeRoundTrip | app/server.py:495-496 | unescaping gives the text back |
| Text.EscapePlain | app/server.py:496 | text with nothing to escape is unchanged |

## Left out

- Network I/O is not modelled.
  - The `requests` call and the closing of the response in `stream_ts` are
    out. The upstream is its status code and its chunks.
  - The fetch in `fetch_channels` is out. The reader starts from the body
    text.
  - `fetch_m3u`, `proxy_stream` and the scoreboard fetch are out.
- Timeouts, connection errors and client disconnects in `stream_ts` are
  not modelled. Each ends the generator early, which only cuts the packet
  sequence short.
- Concurrency is not modelled.
  - The monitor thread, `time.sleep` and the locking behaviour of
    `threading.Lock` are out.
  - The monitor is a sequential tick.
  - A lock is an object stored at most once per id.
- Flask is not modelled: routing, `Response` objects, MIME types, headers,
  `jsonify` and the `status`/`timestamp` fields of `/health`. Replies are
  datatypes or strings.
- File and database I/O is not modelled.
  - This covers `load_schedule`, the patterns file of
    `parse_event_from_name`, the file writes of `generate_xmltv` (modelled
    as the sequence of lines written) and the SQLite code.
  - The schedule is an immutable input.
- `parse_event_from_name` is not part of this model. `parse_channels` takes
  the event parser as a parameter.
- Foreign libraries are not modelled.
  - `dateparser` and the rest of `normalize_input` are out. Only `rep` is
    modelled.
  - `process_manual_rules`, `get_event_data` and `auto_extract` are general
    regex code and are out.
  - The `SequenceMatcher` ratio is an uninterpreted score.
  - The tz database and daylight saving are out. A zone is a function to an
    offset, and `gettz` is a parameter.
  - `dtparse.isoparse` is out. The instants are already-parsed integers.
- Regex character classes are modelled on ASCII.
  - `\w` is ASCII letters, digits and '_'.
  - `\d` is ASCII digits.
  - `\s` and `str.isspace` are the full Unicode whitespace set, so they do
    match Python.
  - Python's `\w` and `\d` also match letters and digits of other scripts.
- `str.upper` is modelled on ASCII letters only.
- `str.lower` (the `Lower` of `find_best_match`'s comparison) is modelled on
  ASCII letters only. Python also lowers other scripts.
- Unicode normalisation is not modelled.
- Floating point is not modelled: `time.time()`, the MB figures and the
  `/ 60` of `extract_time` (minutes are compared as integer seconds, with
  `> 60`). Times are integer seconds.
- Logging and the packet counters of `stream_ts` are not modelled.
- Three forms of `strptime` leniency are not modelled.
  - `%d` also accepts a space followed by one digit (" 5"). The model takes
    one or two digits only. One-digit fields are accepted, as in Python.
  - `%Y%m%d%H%M%S` in `ParseLocal` reads exactly fourteen digits. Python
    would also accept shorter stamps with one-digit fields. `strftime`
    always writes fourteen.
  - `%z` with seconds ("+HHMMSS", "+HH:MM:SS", with an optional fraction)
    is not read. See the `XmltvWriter.ParseOffset` line below.
- `get_stream_status` is modelled on integer times, so its `int()`
  truncation has no effect.
- Server.Stream: the log line subscripts `program_name`, so a live program
  without that key ends in a 500 (`InternalError`). The 500 is modelled; the
  text of Flask's error page is not.
- Server.Epg: assumes every program carries `start_str` and `stop_str`
  holding strings. A missing key raises KeyError (a 500), and a null one
  would print "None"; neither case is modelled. A null `program_name` or
  `description` prints "None", as in Python, and a missing one prints "".
- Server.Playlist: assumes the keys `service_channels`, `programs`, `id`
  and `channel_name` are present (app/server.py:472-474). The same holds
  for `Server.Epg` (lines 493-494 and 506-509) and `Server.Health` (line
  542). A missing one raises KeyError, a 500 that is not modelled. A
  missing `icon_url` or `category` in the playlist is modelled.
- XmltvWriter.ParseOffset: does not read the seconds forms of `%z`
  ("+HHMMSS", "+HH:MM:SS", with an optional fraction) that Python 3.7 and
  later accept. `format_xmltv_timestamp` (app/build_functions.py:52-53)
  writes whole-minute offsets as "+HHMM", which the model reads.
- XmltvWriter.ParseStamp: rejects a stamp whose offset has seconds, through
  `ParseOffset`. It reads "Z", "±HHMM" and "±HH:MM".
- Sessions.StreamManager.StartProxy: does not model the spawning of the
  monitor thread (app/stream_manager.py:100-105).
- EventProcessor.ConvertNormalForm: is stated for a date and start that
  `strftime` writes back unchanged, not for every accepted text, because
  `strptime` also takes forms it does not write back. `ReadFormatted` shows
  that every four-digit-year date and every `%H:%M` clock is of that form.
- EventProcessor.PlainPathEnd: excludes a start on 9999-12-31, where the
  next-day shift overflows. `EndAfter` models that case as an error.
- XmltvWriter.LocalRoundTrip: is stated for years from 1000, because
  `strftime("%Y")` writes fewer than four digits for earlier years.
- Calendar.DateRoundTrip: is stated for years from 1000, for the same
  reason.

## Findings

| source | as written | input that shows it | evidently intended | confidence | as-written member | corrected member |
|---|---|---|---|---|---|---|
| app/build_functions.py:130-136 | the guard `re.search(r'#EXTINF:-1.*,(.*)')` matches anywhere in the line, but `parse_extinf` uses `re.match`, which is anchored at the start; for a line with text before the tag `parse_extinf` returns None and `lineObj["tvg-name"]` raises TypeError, ending the whole parse | the line " #EXTINF:-1,News" | skip every line `parse_extinf` refuses | not executed | BuildFunctions.IndentedLineFails | BuildFunctions.ParseChannels |
