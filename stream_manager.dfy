/**
 * The per-channel session table of the proxy: which channels are being
 * served, from which upstream URL, and since when. Wall-clock readings are
 * integer seconds passed in as `now`; the schedule is a fixed input; the
 * monitor thread is one tick at a time.
 */
module Sessions {
  import opened Wrappers
  import opened Schedule

  /** What the table keeps per active channel. */
  datatype StreamInfo = StreamInfo(streamUrl: string, startTime: int, lastAccess: int, lastCheck: int)

  /** What the status report says per active channel. */
  datatype StreamStatus = StreamStatus(streamUrl: string, uptimeSeconds: int, idleSeconds: int, lastCheck: int)

  /** How one pass of the monitor loop ends. */
  datatype TickOutcome = NotActive | IdleStopped | NoEventStopped | Switched | Unchanged

  const IdleTimeout: int := 300

  /**
   * The URL that should be playing now: the stream URL of the first live
   * program (under the start/stop keys) of the first channel with the id,
   * when that URL is present and not empty.
   */
  function CurrentStreamUrl(sched: seq<PatternData>, id: string, now: int): (r: Option<string>)
    ensures r.Some? ==> r.value != []
    ensures LookupChannel(sched, id).None? ==> r.None?
    ensures r.Some? ==>
      exists p :: CurrentEvent(LookupChannel(sched, id).value.programs, PlainKeys, now) == Some(p) && p.streamUrl == r
    ensures LookupChannel(sched, id).Some? ==>
      var event := CurrentEvent(LookupChannel(sched, id).value.programs, PlainKeys, now);
      event.Some? && Truthy(event.value.streamUrl) ==> r == event.value.streamUrl
  {
    match LookupChannel(sched, id)
    case None => None
    case Some(channel) =>
      match CurrentEvent(channel.programs, PlainKeys, now)
      case None => None
      case Some(p) => if Truthy(p.streamUrl) then p.streamUrl else None
  }

  /** The report entry for one session. */
  function StatusOf(info: StreamInfo, now: int): StreamStatus {
    StreamStatus(info.streamUrl, now - info.startTime, now - info.lastAccess, info.lastCheck)
  }

  /** A client read: refresh the access time of an active channel, and of nothing else. */
  function Touch(streams: map<string, StreamInfo>, id: string, now: int): (r: map<string, StreamInfo>)
    ensures r.Keys == streams.Keys
    ensures forall k :: k in r && k != id ==> r[k] == streams[k]
    ensures id in r ==> r[id].lastAccess == now && r[id].(lastAccess := streams[id].lastAccess) == streams[id]
  {
    if id in streams then streams[id := streams[id].(lastAccess := now)] else streams
  }

  /** The effect of a start request on the table, and its answer. */
  function Start(streams: map<string, StreamInfo>, sched: seq<PatternData>, id: string, now: int)
    : (r: (map<string, StreamInfo>, bool))
    ensures r.1 <==> id in r.0
    ensures r.0.Keys == streams.Keys + (if r.1 then {id} else {})
    ensures forall k :: k in streams && k != id ==> r.0[k] == streams[k]
    ensures id in streams ==> r.0 == Touch(streams, id, now)
    ensures id !in streams ==> (r.1 <==> CurrentStreamUrl(sched, id, now).Some?)
    ensures id !in streams && r.1 ==> r.0[id] == StreamInfo(CurrentStreamUrl(sched, id, now).value, now, now, now)
  {
    if id in streams then (Touch(streams, id, now), true)
    else
      match CurrentStreamUrl(sched, id, now)
      case None => (streams, false)
      case Some(url) => (streams[id := StreamInfo(url, now, now, now)], true)
  }

  /**
   * One pass of the monitor loop body: an inactive channel ends the loop;
   * an idle one is dropped before the schedule is consulted; one with no
   * live URL is dropped; a changed URL is switched to; otherwise nothing
   * changes.
   */
  function Tick(streams: map<string, StreamInfo>, sched: seq<PatternData>, id: string, now: int, timeout: int)
    : (r: (map<string, StreamInfo>, TickOutcome))
    ensures r.0.Keys == if r.1 in {IdleStopped, NoEventStopped} then streams.Keys - {id} else streams.Keys
    ensures forall k :: k in streams && k != id ==> r.0[k] == streams[k]
    ensures r.1 == NotActive <==> id !in streams
    ensures r.1 == IdleStopped <==> id in streams && now - streams[id].lastAccess > timeout
    ensures r.1 == NoEventStopped <==>
      id in streams && now - streams[id].lastAccess <= timeout && CurrentStreamUrl(sched, id, now).None?
    ensures r.1 == Switched <==>
      id in streams && now - streams[id].lastAccess <= timeout && CurrentStreamUrl(sched, id, now).Some?
      && CurrentStreamUrl(sched, id, now).value != streams[id].streamUrl
    ensures r.1 == Unchanged <==>
      id in streams && now - streams[id].lastAccess <= timeout
      && CurrentStreamUrl(sched, id, now) == Some(streams[id].streamUrl)
    ensures r.1 == Switched ==>
      r.0[id] == streams[id].(streamUrl := r.0[id].streamUrl, lastCheck := now) && r.0[id].streamUrl != streams[id].streamUrl
    ensures r.1 == Unchanged ==> r.0 == streams
    ensures r.1 in {Switched, Unchanged} ==> Some(r.0[id].streamUrl) == CurrentStreamUrl(sched, id, now)
  {
    if id !in streams then (streams, NotActive)
    else
      var info := streams[id];
      if now - info.lastAccess > timeout then (streams - {id}, IdleStopped)
      else
        match CurrentStreamUrl(sched, id, now)
        case None => (streams - {id}, NoEventStopped)
        case Some(url) =>
          if url != info.streamUrl then (streams[id := info.(streamUrl := url, lastCheck := now)], Switched)
          else (streams, Unchanged)
  }

  /** The monitor loop over a run of tick times: it stops once the channel has left the table. */
  function Monitor(streams: map<string, StreamInfo>, sched: seq<PatternData>, id: string, ticks: seq<int>, timeout: int)
    : map<string, StreamInfo>
  {
    if ticks == [] || id !in streams then streams
    else Monitor(Tick(streams, sched, id, ticks[0], timeout).0, sched, id, ticks[1..], timeout)
  }

  /** An idle channel is dropped whatever the schedule says. */
  lemma IdleIgnoresSchedule(streams: map<string, StreamInfo>, s1: seq<PatternData>, s2: seq<PatternData>,
                            id: string, now: int, timeout: int)
    requires id in streams && now - streams[id].lastAccess > timeout
    ensures Tick(streams, s1, id, now, timeout) == Tick(streams, s2, id, now, timeout)
    ensures Tick(streams, s1, id, now, timeout).0 == streams - {id}
  {
  }

  /** A second tick at the same instant changes nothing: a switch has already taken the live URL. */
  lemma TickStable(streams: map<string, StreamInfo>, sched: seq<PatternData>, id: string, now: int, timeout: int)
    requires id in Tick(streams, sched, id, now, timeout).0
    ensures Tick(Tick(streams, sched, id, now, timeout).0, sched, id, now, timeout)
      == (Tick(streams, sched, id, now, timeout).0, Unchanged)
  {
    var r := Tick(streams, sched, id, now, timeout);
    assert r.0[id].lastAccess == streams[id].lastAccess;
  }

  /** A session just started is left alone by a tick at the same instant. */
  lemma StartThenTick(streams: map<string, StreamInfo>, sched: seq<PatternData>, id: string, now: int, timeout: int)
    requires id !in streams && Start(streams, sched, id, now).1
    requires timeout >= 0
    ensures Tick(Start(streams, sched, id, now).0, sched, id, now, timeout)
      == (Start(streams, sched, id, now).0, Unchanged)
  {
  }

  /** A client read within the timeout keeps the session from being dropped as idle. */
  lemma TouchPreventsIdle(streams: map<string, StreamInfo>, sched: seq<PatternData>, id: string,
                          read: int, now: int, timeout: int)
    requires id in streams && now - read <= timeout
    ensures Tick(Touch(streams, id, read), sched, id, now, timeout).1 != IdleStopped
  {
  }

  /** The monitor of one channel never adds a session and never touches another channel's. */
  lemma {:induction false} MonitorOthers(streams: map<string, StreamInfo>, sched: seq<PatternData>, id: string,
                                         ticks: seq<int>, timeout: int)
    ensures Monitor(streams, sched, id, ticks, timeout).Keys <= streams.Keys
    ensures forall k :: k != id ==> (k in Monitor(streams, sched, id, ticks, timeout) <==> k in streams)
    ensures forall k :: k in streams && k != id ==> Monitor(streams, sched, id, ticks, timeout)[k] == streams[k]
  {
    if ticks != [] && id in streams {
      var next := Tick(streams, sched, id, ticks[0], timeout).0;
      MonitorOthers(next, sched, id, ticks[1..], timeout);
    }
  }

  /** A lock object; only its identity matters here. */
  class Lock {
    constructor ()
    {
    }
  }

  class StreamManager {
    var activeStreams: map<string, StreamInfo>
    var streamLocks: map<string, Lock>
    const idleTimeout: int
    const schedule: seq<PatternData>

    constructor (schedule: seq<PatternData>)
      ensures activeStreams == map[] && streamLocks == map[]
      ensures idleTimeout == IdleTimeout && this.schedule == schedule
    {
      activeStreams := map[];
      streamLocks := map[];
      idleTimeout := IdleTimeout;
      this.schedule := schedule;
    }

    /** The first service channel with the id, in pattern order and then list order. */
    method GetServiceChannel(id: string) returns (channel: Option<ServiceChannel>)
      ensures channel == LookupChannel(schedule, id)
    {
      var p := 0;
      while p < |schedule|
        invariant 0 <= p <= |schedule|
        invariant LookupChannel(schedule, id) == LookupChannel(schedule[p..], id)
      {
        var chs := schedule[p].serviceChannels;
        assert schedule[p..][0] == schedule[p] && schedule[p..][1..] == schedule[p + 1..];
        var k := 0;
        while k < |chs|
          invariant 0 <= k <= |chs|
          invariant forall j :: 0 <= j < k ==> chs[j].id != id
        {
          if chs[k].id == id {
            return Some(chs[k]);
          }
          k := k + 1;
        }
        p := p + 1;
      }
      return None;
    }

    /** The first program with both start and stop present and start <= now < stop. */
    method GetCurrentEvent(channel: ServiceChannel, now: int) returns (event: Option<Program>)
      ensures event == CurrentEvent(channel.programs, PlainKeys, now)
    {
      var i := 0;
      while i < |channel.programs|
        invariant 0 <= i <= |channel.programs|
        invariant forall j :: 0 <= j < i ==> !LiveAt(channel.programs[j], PlainKeys, now)
      {
        var program := channel.programs[i];
        if program.start.None? || program.stop.None? {
          i := i + 1;
          continue;
        }
        if program.start.value <= now < program.stop.value {
          FirstLiveIs(channel.programs, PlainKeys, now, i);
          return Some(program);
        }
        i := i + 1;
      }
      return None;
    }

    /** The lock of a channel, created on first use: at most one per id. */
    method GetLock(id: string) returns (lock: Lock)
      modifies this
      ensures activeStreams == old(activeStreams)
      ensures id in streamLocks && lock == streamLocks[id]
      ensures id in old(streamLocks) ==> streamLocks == old(streamLocks)
      ensures id !in old(streamLocks) ==> fresh(lock) && streamLocks == old(streamLocks)[id := lock]
    {
      if id !in streamLocks {
        var created := new Lock();
        streamLocks := streamLocks[id := created];
      }
      lock := streamLocks[id];
    }

    method GetCurrentStreamUrl(id: string, now: int) returns (url: Option<string>)
      ensures url == CurrentStreamUrl(schedule, id, now)
    {
      var channel := GetServiceChannel(id);
      if channel.None? {
        return None;
      }
      var event := GetCurrentEvent(channel.value, now);
      if event.Some? && Truthy(event.value.streamUrl) {
        return event.value.streamUrl;
      }
      return None;
    }

    /** Begin serving a channel, or refresh the access time of one already served. */
    method StartProxy(id: string, now: int) returns (ok: bool)
      modifies this
      ensures (activeStreams, ok) == Start(old(activeStreams), schedule, id, now)
      ensures id in streamLocks
      ensures id in old(streamLocks) ==> streamLocks == old(streamLocks)
      ensures id !in old(streamLocks) ==> streamLocks == old(streamLocks)[id := streamLocks[id]]
    {
      var lock := GetLock(id);
      if id in activeStreams {
        activeStreams := activeStreams[id := activeStreams[id].(lastAccess := now)];
        return true;
      }
      var url := GetCurrentStreamUrl(id, now);
      if url.None? {
        return false;
      }
      activeStreams := activeStreams[id := StreamInfo(url.value, now, now, now)];
      return true;
    }

    /** One pass of the monitor loop of a channel. */
    method MonitorTick(id: string, now: int) returns (outcome: TickOutcome)
      modifies this
      ensures (activeStreams, outcome) == Tick(old(activeStreams), schedule, id, now, idleTimeout)
      ensures id in streamLocks
      ensures id in old(streamLocks) ==> streamLocks == old(streamLocks)
      ensures id !in old(streamLocks) ==> streamLocks == old(streamLocks)[id := streamLocks[id]]
    {
      var lock := GetLock(id);
      if id !in activeStreams {
        return NotActive;
      }
      var info := activeStreams[id];
      var idle := now - info.lastAccess;
      if idle > idleTimeout {
        activeStreams := activeStreams - {id};
        return IdleStopped;
      }
      var url := GetCurrentStreamUrl(id, now);
      if url.None? {
        activeStreams := activeStreams - {id};
        return NoEventStopped;
      }
      if url.value != info.streamUrl {
        activeStreams := activeStreams[id := info.(streamUrl := url.value, lastCheck := now)];
        return Switched;
      }
      return Unchanged;
    }

    /** The monitor loop, one tick per given instant, until the channel is no longer active. */
    method RunMonitor(id: string, ticks: seq<int>)
      modifies this
      ensures activeStreams == Monitor(old(activeStreams), schedule, id, ticks, idleTimeout)
      ensures streamLocks.Keys == old(streamLocks).Keys + (if ticks != [] && id in old(activeStreams) then {id} else {})
      ensures forall k :: k in old(streamLocks) ==> streamLocks[k] == old(streamLocks)[k]
    {
      var i := 0;
      while i < |ticks| && id in activeStreams
        invariant 0 <= i <= |ticks|
        invariant i == 0 ==> activeStreams == old(activeStreams)
        invariant i > 0 ==> id in old(activeStreams)
        invariant streamLocks.Keys == old(streamLocks).Keys + (if i > 0 then {id} else {})
        invariant forall k :: k in old(streamLocks) ==> streamLocks[k] == old(streamLocks)[k]
        invariant Monitor(old(activeStreams), schedule, id, ticks, idleTimeout)
          == Monitor(activeStreams, schedule, id, ticks[i..], idleTimeout)
      {
        assert ticks[i..][0] == ticks[i] && ticks[i..][1..] == ticks[i + 1..];
        var outcome := MonitorTick(id, ticks[i]);
        i := i + 1;
      }
    }

    method UpdateAccessTime(id: string, now: int)
      modifies this
      ensures activeStreams == Touch(old(activeStreams), id, now)
      ensures streamLocks == old(streamLocks)
    {
      if id in activeStreams {
        activeStreams := activeStreams[id := activeStreams[id].(lastAccess := now)];
      }
    }

    /** Stop serving a channel; the answer says whether it was being served. */
    method StopStream(id: string) returns (stopped: bool)
      modifies this
      ensures stopped == (id in old(activeStreams))
      ensures activeStreams == old(activeStreams) - {id}
      ensures id in streamLocks
      ensures id in old(streamLocks) ==> streamLocks == old(streamLocks)
      ensures id !in old(streamLocks) ==> streamLocks == old(streamLocks)[id := streamLocks[id]]
    {
      var lock := GetLock(id);
      if id in activeStreams {
        activeStreams := activeStreams - {id};
        return true;
      }
      return false;
    }

    /** The status report: one entry per active channel and nothing else. */
    method GetStreamStatus(now: int) returns (status: map<string, StreamStatus>)
      ensures status.Keys == activeStreams.Keys
      ensures forall k :: k in status ==>
        (status[k].streamUrl == activeStreams[k].streamUrl
         && status[k].uptimeSeconds == now - activeStreams[k].startTime
         && status[k].idleSeconds == now - activeStreams[k].lastAccess
         && status[k].lastCheck == activeStreams[k].lastCheck)
    {
      status := map[];
      var remaining := activeStreams.Keys;
      while remaining != {}
        invariant remaining <= activeStreams.Keys
        invariant status.Keys == activeStreams.Keys - remaining
        invariant forall k :: k in status ==> status[k] == StatusOf(activeStreams[k], now)
        decreases remaining
      {
        var k :| k in remaining;
        status := status[k := StatusOf(activeStreams[k], now)];
        remaining := remaining - {k};
      }
    }
  }

}
