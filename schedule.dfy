/**
 * The schedule document the playlist server and the stream manager both
 * read: patterns in file order, each holding its service channels in list
 * order, each holding its programs. ISO-8601 instants are taken as already
 * parsed to integer seconds. Most optional keys are None when missing or
 * null; program_name, description, a channel's icon_url and a pattern's
 * category keep the two apart, because the server prints them differently
 * or fails on a missing one.
 */
module Schedule {
  import opened Wrappers

  /** A string-valued key of a JSON object: absent, null, or holding a string. */
  datatype JsonText = Missing | Null | Text(value: string)

  datatype Program = Program(
    programName: JsonText,     // "program_name"
    description: JsonText,     // "description"
    iconUrl: Option<string>,
    startDt: Option<int>,      // "start_dt", read by the server
    stopDt: Option<int>,       // "stop_dt"
    start: Option<int>,        // "start", read by the stream manager
    stop: Option<int>,         // "stop"
    startStr: string,          // "start_str", the XMLTV stamp
    stopStr: string,           // "stop_str"
    streamUrl: Option<string>)

  datatype ServiceChannel = ServiceChannel(
    id: string,
    channelName: string,
    iconUrl: JsonText,         // "icon_url"
    programs: seq<Program>)

  datatype PatternData = PatternData(
    name: string,
    category: JsonText,        // "category"
    serviceChannels: seq<ServiceChannel>)

  /** Which pair of program keys carries the airing window. */
  datatype WindowKeys = DtKeys | PlainKeys

  /** Python truthiness of an optional string: present and not empty. */
  predicate Truthy(s: Option<string>) {
    s.Some? && s.value != []
  }

  /** How str() and an f-string write an optional string: None prints as "None". */
  function PyStr(s: Option<string>): (r: string)
    ensures s.Some? ==> r == s.value
  {
    match s
    case Some(v) => v
    case None => "None"
  }

  /**
   * str(obj.get(key, default)): the default for an absent key, "None" for
   * null, the string itself otherwise.
   */
  function GetStr(f: JsonText, default: string): (r: string)
    ensures f.Text? ==> r == f.value
    ensures f.Missing? ==> r == default
    ensures f.Null? ==> r == PyStr(None)
  {
    match f
    case Missing => default
    case Null => "None"
    case Text(v) => v
  }

  /** Python truthiness of a string-valued key read with .get: present, not null, not empty. */
  predicate TruthyText(f: JsonText) {
    f.Text? && f.value != []
  }

  /**
   * How an f-string writes obj[key] once the key is known to be present:
   * null as "None". A missing key raises KeyError before anything is
   * written, and the handlers that subscript check for that first; the
   * value given here for Missing is never written.
   */
  function FStr(f: JsonText): (r: string)
    ensures f.Text? ==> r == f.value
    ensures f.Null? ==> r == PyStr(None)
  {
    match f
    case Text(v) => v
    case _ => "None"
  }

  /** The window a program is scheduled for, under the given keys. */
  function Window(p: Program, keys: WindowKeys): (Option<int>, Option<int>) {
    match keys
    case DtKeys => (p.startDt, p.stopDt)
    case PlainKeys => (p.start, p.stop)
  }

  /** Both ends of the window are present and start <= now < stop. */
  predicate LiveAt(p: Program, keys: WindowKeys, now: int) {
    var w := Window(p, keys);
    w.0.Some? && w.1.Some? && w.0.value <= now < w.1.value
  }

  /** The index of the first program live at now. */
  function FirstLive(ps: seq<Program>, keys: WindowKeys, now: int): (r: Option<nat>)
    ensures r.Some? ==> r.value < |ps| && LiveAt(ps[r.value], keys, now)
    ensures r.Some? ==> forall j :: 0 <= j < r.value ==> !LiveAt(ps[j], keys, now)
    ensures r.None? <==> forall j :: 0 <= j < |ps| ==> !LiveAt(ps[j], keys, now)
  {
    if ps == [] then None
    else if LiveAt(ps[0], keys, now) then Some(0)
    else
      match FirstLive(ps[1..], keys, now)
      case None => None
      case Some(k) => Some(k + 1)
  }

  /** The program live at now, taking the first one when windows overlap. */
  function CurrentEvent(ps: seq<Program>, keys: WindowKeys, now: int): Option<Program> {
    match FirstLive(ps, keys, now)
    case None => None
    case Some(k) => Some(ps[k])
  }

  /** The first-match property pins down the index FirstLive returns. */
  lemma FirstLiveIs(ps: seq<Program>, keys: WindowKeys, now: int, k: nat)
    requires k < |ps| && LiveAt(ps[k], keys, now)
    requires forall j :: 0 <= j < k ==> !LiveAt(ps[j], keys, now)
    ensures FirstLive(ps, keys, now) == Some(k)
    ensures CurrentEvent(ps, keys, now) == Some(ps[k])
  {
  }

  /** The windows are half open: a program is live at its start and not at its stop. */
  lemma HalfOpen(p: Program, keys: WindowKeys)
    requires Window(p, keys).0.Some? && Window(p, keys).1.Some?
    requires Window(p, keys).0.value < Window(p, keys).1.value
    ensures LiveAt(p, keys, Window(p, keys).0.value)
    ensures !LiveAt(p, keys, Window(p, keys).1.value)
  {
  }

  /** The two resolvers pick the same program whenever the two key pairs agree. */
  lemma {:induction false} ResolversAgree(ps: seq<Program>, now: int)
    requires forall j :: 0 <= j < |ps| ==> ps[j].startDt == ps[j].start && ps[j].stopDt == ps[j].stop
    ensures FirstLive(ps, DtKeys, now) == FirstLive(ps, PlainKeys, now)
  {
    if ps != [] {
      ResolversAgree(ps[1..], now);
    }
  }

  /** Every service channel, in pattern order and then list order. */
  function AllChannels(sched: seq<PatternData>): seq<ServiceChannel> {
    if sched == [] then [] else sched[0].serviceChannels + AllChannels(sched[1..])
  }

  lemma {:induction false} AllChannelsSnoc(sched: seq<PatternData>, p: PatternData)
    ensures AllChannels(sched + [p]) == AllChannels(sched) + p.serviceChannels
  {
    if sched == [] {
      assert [p][1..] == [];
      assert sched + [p] == [p];
    } else {
      AllChannelsSnoc(sched[1..], p);
      assert (sched + [p])[1..] == sched[1..] + [p];
    }
  }

  /** The index of the first channel with the given id. */
  function FirstWithId(chs: seq<ServiceChannel>, id: string): (r: Option<nat>)
    ensures r.Some? ==> r.value < |chs| && chs[r.value].id == id
    ensures r.Some? ==> forall j :: 0 <= j < r.value ==> chs[j].id != id
    ensures r.None? <==> forall j :: 0 <= j < |chs| ==> chs[j].id != id
  {
    if chs == [] then None
    else if chs[0].id == id then Some(0)
    else
      match FirstWithId(chs[1..], id)
      case None => None
      case Some(k) => Some(k + 1)
  }

  /** Channel lookup as the nested loops perform it: the first pattern holding the id wins. */
  function LookupChannel(sched: seq<PatternData>, id: string): Option<ServiceChannel> {
    if sched == [] then None
    else
      match FirstWithId(sched[0].serviceChannels, id)
      case Some(k) => Some(sched[0].serviceChannels[k])
      case None => LookupChannel(sched[1..], id)
  }

  /** The first index holding the id is what the search returns. */
  lemma FirstWithIdIs(chs: seq<ServiceChannel>, id: string, k: nat)
    requires k < |chs| && chs[k].id == id && forall j :: 0 <= j < k ==> chs[j].id != id
    ensures FirstWithId(chs, id) == Some(k)
  {
    var r := FirstWithId(chs, id);
    assert r.Some? by {
      assert !(forall j :: 0 <= j < |chs| ==> chs[j].id != id);
    }
    assert !(r.value < k) && !(k < r.value);
  }

  lemma FirstWithIdAppend(a: seq<ServiceChannel>, b: seq<ServiceChannel>, id: string)
    ensures FirstWithId(a + b, id) ==
      match FirstWithId(a, id)
      case Some(k) => Some(k)
      case None => (match FirstWithId(b, id) case None => None case Some(k) => Some(|a| + k))
  {
    var ab := a + b;
    match FirstWithId(a, id)
    case Some(k) =>
      assert forall j :: 0 <= j <= k ==> ab[j] == a[j];
      FirstWithIdIs(ab, id, k);
    case None =>
      assert forall j :: 0 <= j < |a| ==> ab[j] == a[j];
      assert forall j :: |a| <= j < |ab| ==> ab[j] == b[j - |a|];
      match FirstWithId(b, id)
      case None =>
        assert forall j :: 0 <= j < |ab| ==> ab[j].id != id;
      case Some(k) =>
        FirstWithIdIs(ab, id, |a| + k);
  }

  /**
   * The lookup returns exactly the first channel with the id in the
   * flattened order of all service channels, and None when there is none.
   */
  lemma {:induction false} LookupIsFirst(sched: seq<PatternData>, id: string)
    ensures LookupChannel(sched, id) ==
      match FirstWithId(AllChannels(sched), id)
      case None => None
      case Some(k) => Some(AllChannels(sched)[k])
  {
    if sched != [] {
      LookupIsFirst(sched[1..], id);
      FirstWithIdAppend(sched[0].serviceChannels, AllChannels(sched[1..]), id);
      var a := sched[0].serviceChannels;
      match FirstWithId(a, id)
      case Some(k) =>
        assert AllChannels(sched)[k] == a[k];
      case None =>
        match FirstWithId(AllChannels(sched[1..]), id)
        case None =>
        case Some(k) =>
          assert AllChannels(sched)[|a| + k] == AllChannels(sched[1..])[k];
    }
  }

  /** The lookup finds a channel exactly when some channel carries the id, and what it finds carries it. */
  lemma LookupSound(sched: seq<PatternData>, id: string)
    ensures LookupChannel(sched, id).None? <==> forall j :: 0 <= j < |AllChannels(sched)| ==> AllChannels(sched)[j].id != id
    ensures LookupChannel(sched, id).Some? ==> LookupChannel(sched, id).value.id == id
  {
    LookupIsFirst(sched, id);
  }
}
