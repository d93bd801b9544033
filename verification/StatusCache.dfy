/**
 The stamp-keyed cache in front of the event logs (crates/ajax-cli/src/agent_status_cache.rs), with
 other processes appending to the logs while it stats and reads them.

 A call holds the cache's lock from start to end, so calls do not overlap; its stat and its read are
 separate steps and appends land anywhere between them.
 */
module StatusCache {
  import opened Options
  import opened CanonicalEvents
  import opened StatusLog
  import AgentStatus

  type Byte = b: int | 0 <= b < 256
  type Bytes = seq<Byte>

  datatype FileStamp = FileStamp(mtime: Option<int>, len: nat)

  datatype LogFile = LogFile(contents: Bytes, mtime: Option<int>)

  datatype CacheEntry = CacheEntry(stamp: FileStamp, observations: seq<AgentStatus.StatusObservation>)

  /** Reading the envelopes out of a log; lines that do not decode are skipped, so it is total. */
  type Parser = Bytes -> seq<ParsedEnvelope>

  function Recompute(parse: Parser, contents: Bytes, now: int): seq<AgentStatus.StatusObservation> {
    Observations(parse(contents), now)
  }

  /** A log that does not exist is stamped and read as an empty one. */
  function FileOf(files: map<string, LogFile>, stem: string): LogFile {
    if stem in files then files[stem] else LogFile([], None)
  }

  function StampOf(f: LogFile): FileStamp {
    FileStamp(f.mtime, |f.contents|)
  }

  predicate IsHit(cache: map<string, CacheEntry>, stem: string, stamp: FileStamp) {
    stem in cache && cache[stem].stamp == stamp
  }

  class AgentStatusFiles {
    var jsonl: map<string, CacheEntry>

    constructor ()
      ensures jsonl == map[]
    {
      jsonl := map[];
    }

    /** One call, given what its stat returned and what its read would return. */
    method JsonlObservationsForStem(parse: Parser, stem: string, stamp: FileStamp, contents: Bytes, now: int)
      returns (observations: seq<AgentStatus.StatusObservation>)
      modifies this
      ensures observations ==
        if IsHit(old(jsonl), stem, stamp) then old(jsonl)[stem].observations else Recompute(parse, contents, now)
      ensures jsonl ==
        if IsHit(old(jsonl), stem, stamp) then old(jsonl)
        else old(jsonl)[stem := CacheEntry(stamp, Recompute(parse, contents, now))]
    {
      if stem in jsonl {
        var entry := jsonl[stem];
        if entry.stamp == stamp {
          return entry.observations;
        }
      }
      observations := ObservationsFromJsonl(parse(contents), now);
      jsonl := jsonl[stem := CacheEntry(stamp, observations)];
    }
  }

  // The cache among concurrent appends.

  datatype Call = Idle | Statted(stem: string, stamp: FileStamp)

  datatype World = World(files: map<string, LogFile>, cache: map<string, CacheEntry>, call: Call)

  datatype Action =
    | Append(stem: string, bytes: Bytes, mtime: Option<int>)
    | Stat(stem: string)
    | Finish(now: int)

  predicate Enabled(w: World, a: Action) {
    match a
    case Append(_, _, _) => true
    case Stat(_) => w.call.Idle?
    case Finish(_) => w.call.Statted?
  }

  /** What the call that finishes returns. */
  function Returned(parse: Parser, w: World, now: int): seq<AgentStatus.StatusObservation>
    requires w.call.Statted?
  {
    if IsHit(w.cache, w.call.stem, w.call.stamp) then w.cache[w.call.stem].observations
    else Recompute(parse, FileOf(w.files, w.call.stem).contents, now)
  }

  function Next(parse: Parser, w: World, a: Action): World
    requires Enabled(w, a)
  {
    match a
    case Append(stem, bytes, mtime) =>
      w.(files := w.files[stem := LogFile(FileOf(w.files, stem).contents + bytes, mtime)])
    case Stat(stem) => w.(call := Statted(stem, StampOf(FileOf(w.files, stem))))
    case Finish(now) =>
      w.(call := Idle,
         cache :=
           if IsHit(w.cache, w.call.stem, w.call.stamp) then w.cache
           else w.cache[w.call.stem := CacheEntry(w.call.stamp, Returned(parse, w, now))])
  }

  /** ws are the worlds a run of actions goes through. */
  ghost predicate IsRun(parse: Parser, ws: seq<World>, actions: seq<Action>) {
    && |ws| == |actions| + 1
    && ws[0].cache == map[] && ws[0].call.Idle?
    && forall i :: 0 <= i < |actions| ==> Enabled(ws[i], actions[i]) && ws[i + 1] == Next(parse, ws[i], actions[i])
  }

  function ContentsAt(w: World, stem: string): Bytes {
    FileOf(w.files, stem).contents
  }

  /** The observations were computed, at some time, from a prefix of the contents no shorter than len. */
  ghost predicate Backs(
    parse: Parser, contents: Bytes, len: nat, observations: seq<AgentStatus.StatusObservation>, n: nat, now: int)
  {
    len <= n <= |contents| && observations == Recompute(parse, contents[..n], now)
  }

  ghost predicate IsBacked(parse: Parser, w: World, stem: string)
    requires stem in w.cache
  {
    EntryBacked(parse, ContentsAt(w, stem), w.cache[stem])
  }

  ghost predicate Sound(parse: Parser, w: World) {
    && (forall stem :: stem in w.cache ==> IsBacked(parse, w, stem))
    && (w.call.Statted? ==> w.call.stamp.len <= |ContentsAt(w, w.call.stem)|)
  }

  ghost predicate EntryBacked(parse: Parser, contents: Bytes, entry: CacheEntry) {
    exists n, now :: Backs(parse, contents, entry.stamp.len, entry.observations, n, now)
  }

  lemma {:induction false} GrowthKeepsBacked(parse: Parser, contents: Bytes, bytes: Bytes, entry: CacheEntry)
    requires EntryBacked(parse, contents, entry)
    ensures EntryBacked(parse, contents + bytes, entry)
  {
    var n: nat, now: int :| Backs(parse, contents, entry.stamp.len, entry.observations, n, now);
    assert (contents + bytes)[..n] == contents[..n];
    assert Backs(parse, contents + bytes, entry.stamp.len, entry.observations, n, now);
  }

  lemma {:induction false} NewEntryBacked(parse: Parser, contents: Bytes, stamp: FileStamp, now: int)
    requires stamp.len <= |contents|
    ensures EntryBacked(parse, contents, CacheEntry(stamp, Recompute(parse, contents, now)))
  {
    assert contents[..|contents|] == contents;
    assert Backs(parse, contents, stamp.len, Recompute(parse, contents, now), |contents|, now);
  }

  lemma {:induction false} StepKeepsBacked(parse: Parser, w: World, a: Action, stem: string)
    requires Sound(parse, w) && Enabled(w, a)
    requires stem in Next(parse, w, a).cache
    ensures IsBacked(parse, Next(parse, w, a), stem)
  {
    if stem in w.cache {
      assert EntryBacked(parse, ContentsAt(w, stem), w.cache[stem]);
    }
    match a
    case Append(grown, bytes, _) =>
      if grown == stem {
        GrowthKeepsBacked(parse, ContentsAt(w, stem), bytes, w.cache[stem]);
      }
    case Stat(_) =>
    case Finish(now) =>
      if stem == w.call.stem && !IsHit(w.cache, stem, w.call.stamp) {
        NewEntryBacked(parse, ContentsAt(w, stem), w.call.stamp, now);
      }
  }

  lemma {:induction false} SoundAlways(parse: Parser, ws: seq<World>, actions: seq<Action>, i: nat)
    requires IsRun(parse, ws, actions) && i <= |actions|
    ensures Sound(parse, ws[i])
  {
    if i != 0 {
      SoundAlways(parse, ws, actions, i - 1);
      var w, a := ws[i - 1], actions[i - 1];
      forall stem | stem in ws[i].cache
        ensures IsBacked(parse, ws[i], stem)
      {
        StepKeepsBacked(parse, w, a, stem);
      }
    }
  }

  /** Where the call in progress made its stat. */
  lemma {:induction false} StatOf(parse: Parser, ws: seq<World>, actions: seq<Action>, i: nat) returns (j: nat)
    requires IsRun(parse, ws, actions) && i <= |actions| && ws[i].call.Statted?
    ensures j < i && actions[j] == Stat(ws[i].call.stem)
    ensures ws[i].call.stamp == StampOf(FileOf(ws[j].files, ws[i].call.stem))
    ensures ws[j].cache == ws[i].cache
    ensures forall k :: j < k <= i ==> ws[k].call == ws[i].call
  {
    if actions[i - 1].Stat? {
      j := i - 1;
    } else {
      j := StatOf(parse, ws, actions, i - 1);
    }
  }

  /** A cached answer whose stamp is the file's is the answer for the file's present contents. */
  lemma {:induction false} HitIsCurrent(parse: Parser, w: World, stem: string) returns (now: int)
    requires Sound(parse, w)
    requires IsHit(w.cache, stem, StampOf(FileOf(w.files, stem)))
    ensures w.cache[stem].observations == Recompute(parse, ContentsAt(w, stem), now)
  {
    var contents, entry := ContentsAt(w, stem), w.cache[stem];
    var n: nat;
    n, now :| Backs(parse, contents, entry.stamp.len, entry.observations, n, now);
    assert contents[..n] == contents;
  }

  /**
   Every finished call returns what recomputing from the log would have given at some moment of that
   call, for the current time of this or an earlier call.
   */
  lemma {:induction false} CallIsCurrentUpToTime(parse: Parser, ws: seq<World>, actions: seq<Action>, i: nat)
    returns (j: nat, m: nat, now: int)
    requires IsRun(parse, ws, actions)
    requires i < |actions| && actions[i].Finish?
    ensures j < m <= i || j == m < i
    ensures actions[j] == Stat(ws[i].call.stem) && forall k :: j < k <= i ==> ws[k].call == ws[i].call
    ensures Returned(parse, ws[i], actions[i].now) == Recompute(parse, ContentsAt(ws[m], ws[i].call.stem), now)
  {
    var w := ws[i];
    assert Enabled(w, actions[i]);
    j := StatOf(parse, ws, actions, i);
    if IsHit(w.cache, w.call.stem, w.call.stamp) {
      SoundAlways(parse, ws, actions, j);
      m := j;
      now := HitIsCurrent(parse, ws[j], w.call.stem);
    } else {
      m, now := i, actions[i].now;
    }
  }

  /** The call that finishes answers as recomputing, for its own current time, at some moment of the call would. */
  ghost predicate AnswersAsAMoment(parse: Parser, ws: seq<World>, actions: seq<Action>, i: nat)
    requires IsRun(parse, ws, actions)
    requires i < |actions| && actions[i].Finish?
  {
    exists j, m ::
      && 0 <= j <= m <= i && actions[j] == Stat(ws[i].call.stem)
      && (forall k :: j < k <= i ==> ws[k].call == ws[i].call)
      && Returned(parse, ws[i], actions[i].now) == Recompute(parse, ContentsAt(ws[m], ws[i].call.stem), actions[i].now)
  }

  /**
   Coherence: if the instants in the log fit 64 bits, a call answers exactly as some moment of that
   call would, even if the log grew between stat and read when the entry was stored.
   */
  lemma {:induction false} CacheIsCoherent(parse: Parser, ws: seq<World>, actions: seq<Action>, i: nat)
    requires IsRun(parse, ws, actions)
    requires i < |actions| && actions[i].Finish?
    requires forall k :: 0 <= k <= i ==> TimesFit(parse(ContentsAt(ws[k], ws[i].call.stem)))
    ensures AnswersAsAMoment(parse, ws, actions, i)
  {
    var j, m, now := CallIsCurrentUpToTime(parse, ws, actions, i);
    TimeIndependence(parse(ContentsAt(ws[m], ws[i].call.stem)));
  }

  // A log whose instants do not fit.

  /** A log appears, with any modification time, and is asked for twice. */
  function TwoCalls(contents: Bytes, mtime: Option<int>, now: int, later: int): seq<Action> {
    [Append("t", contents, mtime), Stat("t"), Finish(now), Stat("t"), Finish(later)]
  }

  /** The worlds that two calls go through: the second stat finds the stamp of the first entry. */
  function TwoCallWorlds(parse: Parser, contents: Bytes, mtime: Option<int>, now: int): seq<World> {
    var files := map["t" := LogFile(contents, mtime)];
    var stamp := FileStamp(mtime, |contents|);
    var cache := map["t" := CacheEntry(stamp, Recompute(parse, contents, now))];
    [World(map[], map[], Idle), World(files, map[], Idle), World(files, map[], Statted("t", stamp)),
     World(files, cache, Idle), World(files, cache, Statted("t", stamp)), World(files, cache, Idle)]
  }

  lemma {:induction false} TwoCallsRun(parse: Parser, contents: Bytes, mtime: Option<int>, now: int, later: int)
    ensures IsRun(parse, TwoCallWorlds(parse, contents, mtime, now), TwoCalls(contents, mtime, now, later))
  {
    var ws := TwoCallWorlds(parse, contents, mtime, now);
    assert [] + contents == contents;
    assert Next(parse, ws[0], Append("t", contents, mtime)) == ws[1];
    assert Next(parse, ws[1], Stat("t")) == ws[2];
    assert Next(parse, ws[2], Finish(now)) == ws[3];
    assert Next(parse, ws[3], Stat("t")) == ws[4];
    assert Next(parse, ws[4], Finish(later)) == ws[5];
  }

  /** The second call answers with the time of the first. */
  lemma {:induction false} SecondCallIsStale(parse: Parser, contents: Bytes, mtime: Option<int>, now: int, later: int)
    requires Recompute(parse, contents, now) != Recompute(parse, contents, later)
    ensures IsRun(parse, TwoCallWorlds(parse, contents, mtime, now), TwoCalls(contents, mtime, now, later))
    ensures !AnswersAsAMoment(parse, TwoCallWorlds(parse, contents, mtime, now), TwoCalls(contents, mtime, now, later), 4)
  {
    TwoCallsRun(parse, contents, mtime, now, later);
    var ws, actions := TwoCallWorlds(parse, contents, mtime, now), TwoCalls(contents, mtime, now, later);
    assert Returned(parse, ws[4], later) == Recompute(parse, contents, now);
    forall j, m | 0 <= j <= m <= 4 && actions[j] == Stat("t") && forall k :: j < k <= 4 ==> ws[k].call == ws[4].call
      ensures ContentsAt(ws[m], "t") == contents
    {
      assert j != 0;
      HeldThroughout(parse, contents, mtime, now, m);
    }
  }

  lemma {:induction false} HeldThroughout(parse: Parser, contents: Bytes, mtime: Option<int>, now: int, m: nat)
    requires 1 <= m <= 5
    ensures ContentsAt(TwoCallWorlds(parse, contents, mtime, now)[m], "t") == contents
  {
  }

  /** Every log with an instant that does not fit has a run whose last call answers as no moment of it would. */
  lemma {:induction false} StaleTimeIsCached(parse: Parser, contents: Bytes, mtime: Option<int>)
    returns (now: int, later: int)
    requires !TimesFit(parse(contents))
    ensures IsRun(parse, TwoCallWorlds(parse, contents, mtime, now), TwoCalls(contents, mtime, now, later))
    ensures !AnswersAsAMoment(parse, TwoCallWorlds(parse, contents, mtime, now), TwoCalls(contents, mtime, now, later), 4)
  {
    TimeIndependence(parse(contents));
    now, later :| Observations(parse(contents), now) != Observations(parse(contents), later);
    SecondCallIsStale(parse, contents, mtime, now, later);
  }

  /** At every moment up to i the log held a beginning of the contents. */
  ghost predicate GrowsTowards(ws: seq<World>, i: nat, stem: string, contents: Bytes)
    requires i < |ws|
  {
    forall k :: 0 <= k <= i ==> ContentsAt(ws[k], stem) <= contents
  }

  /** Every call on a log that grows towards the contents answers as some moment of the call would. */
  ghost predicate IsCoherentOver(parse: Parser, contents: Bytes) {
    forall ws: seq<World>, actions: seq<Action>, i: nat |
      && IsRun(parse, ws, actions) && 0 <= i < |actions| && actions[i].Finish?
      && GrowsTowards(ws, i, ws[i].call.stem, contents)
      :: AnswersAsAMoment(parse, ws, actions, i)
  }

  /** The cache is coherent over a growing log exactly if the instants in all its beginnings fit 64 bits. */
  lemma {:induction false} CoherentExactlyIfTimesFit(parse: Parser, contents: Bytes)
    ensures IsCoherentOver(parse, contents) <==> forall n :: 0 <= n <= |contents| ==> TimesFit(parse(contents[..n]))
  {
    if forall n :: 0 <= n <= |contents| ==> TimesFit(parse(contents[..n])) {
      forall ws: seq<World>, actions: seq<Action>, i: nat |
        && IsRun(parse, ws, actions) && 0 <= i < |actions| && actions[i].Finish?
        && GrowsTowards(ws, i, ws[i].call.stem, contents)
        ensures AnswersAsAMoment(parse, ws, actions, i)
      {
        forall k | 0 <= k <= i
          ensures TimesFit(parse(ContentsAt(ws[k], ws[i].call.stem)))
        {
          var held := ContentsAt(ws[k], ws[i].call.stem);
          assert held == contents[..|held|];
        }
        CacheIsCoherent(parse, ws, actions, i);
      }
    } else {
      var n :| 0 <= n <= |contents| && !TimesFit(parse(contents[..n]));
      IncoherentOver(parse, contents, n);
    }
  }

  lemma {:induction false} IncoherentOver(parse: Parser, contents: Bytes, n: nat)
    requires n <= |contents| && !TimesFit(parse(contents[..n]))
    ensures !IsCoherentOver(parse, contents)
  {
    var now, later := StaleTimeIsCached(parse, contents[..n], Some(0));
    var ws := TwoCallWorlds(parse, contents[..n], Some(0), now);
    var actions := TwoCalls(contents[..n], Some(0), now, later);
    forall k | 0 <= k <= 4
      ensures ContentsAt(ws[k], ws[4].call.stem) <= contents
    {
      assert ContentsAt(ws[k], "t") == if k == 0 then [] else contents[..n];
    }
    assert GrowsTowards(ws, 4, ws[4].call.stem, contents);
    assert !AnswersAsAMoment(parse, ws, actions, 4);
  }

  // When the log is read again.

  /** The log is read again exactly if its modification time or its length is not that of the stored entry. */
  lemma {:induction false} RereadsExactly(parse: Parser, w: World, now: int)
    requires w.call.Statted?
    ensures
      var stem, stamp := w.call.stem, w.call.stamp;
      if stem in w.cache && w.cache[stem].stamp.mtime == stamp.mtime && w.cache[stem].stamp.len == stamp.len then
        Returned(parse, w, now) == w.cache[stem].observations && Next(parse, w, Finish(now)).cache == w.cache
      else
        var read := Recompute(parse, ContentsAt(w, stem), now);
        Returned(parse, w, now) == read && Next(parse, w, Finish(now)).cache == w.cache[stem := CacheEntry(stamp, read)]
  {
  }
}
