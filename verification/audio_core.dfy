/** The client's priming and jitter buffer (static/js/audio-core.js): chunks
    of a stream are held until one second of audio is buffered and then
    scheduled as one buffer; later chunks are requested back to back; the
    completion callback fires once the download is over and no source is
    playing; a reset clears it all. The module-level variables of the
    script are the fields of `JitterBuffer`. Web Audio scheduling is the
    log `scheduled` (the source with id `k` is asked to play `scheduled[k]`);
    the
    context's clock is the parameter `now`; `SourceEnded` is a source's
    `onended` event and `StopTimerElapsed` the 100 ms timer of a reset. */
module AudioCore {

  /** The priming threshold, `PRIMING_BUFFER_DURATION_MS`. */
  const PrimingMs: real := 1000.0

  /** The rate a stream-end flush uses. */
  const FlushRate: int := 24000

  /** The delay before a flushed buffer starts, `WAKE_UP_DELAY`. */
  const WakeUpDelay: real := 0.1

  /** One `AudioBufferSourceNode` started: its samples, their rate and the
      context time passed to `source.start`. Web Audio starts a source whose
      requested time has passed at once, so this is the requested start, not
      the time it is heard. */
  datatype Scheduled = Scheduled(samples: seq<real>, sampleRate: int, start: real)

  /** `buffer.duration`: samples over rate, in seconds. */
  function Duration(s: Scheduled): real
    requires s.sampleRate > 0
  {
    |s.samples| as real / s.sampleRate as real
  }

  /** The chunks concatenated in order. */
  function Joined(chunks: seq<seq<real>>): seq<real> {
    if chunks == [] then [] else Joined(chunks[..|chunks| - 1]) + chunks[|chunks| - 1]
  }

  /** The `reduce` over the lengths of the chunks. */
  function Total(chunks: seq<seq<real>>): nat {
    if chunks == [] then 0 else Total(chunks[..|chunks| - 1]) + |chunks[|chunks| - 1]|
  }

  /** The audio of a list of scheduled buffers, in order. */
  function Audio(sch: seq<Scheduled>): seq<real> {
    if sch == [] then [] else Audio(sch[..|sch| - 1]) + sch[|sch| - 1].samples
  }

  lemma JoinedSnoc(chunks: seq<seq<real>>, c: seq<real>)
    ensures Joined(chunks + [c]) == Joined(chunks) + c
    ensures Total(chunks + [c]) == Total(chunks) + |c|
  {
    assert (chunks + [c])[..|chunks|] == chunks;
  }

  lemma AudioSnoc(sch: seq<Scheduled>, s: Scheduled)
    ensures Audio(sch + [s]) == Audio(sch) + s.samples
  {
    assert (sch + [s])[..|sch|] == sch;
  }

  /** The samples of the sources from `epoch` on, one source later. */
  lemma AudioFromSnoc(sch: seq<Scheduled>, epoch: nat, s: Scheduled)
    requires epoch <= |sch|
    ensures Audio((sch + [s])[epoch..]) == Audio(sch[epoch..]) + s.samples
  {
    assert (sch + [s])[epoch..] == sch[epoch..] + [s];
    AudioSnoc(sch[epoch..], s);
  }

  /** The length the `reduce` computes is the length of the concatenation. */
  lemma {:induction false} JoinedLength(chunks: seq<seq<real>>)
    ensures |Joined(chunks)| == Total(chunks)
    decreases |chunks|
  {
    if chunks != [] {
      JoinedLength(chunks[..|chunks| - 1]);
    }
  }

  /** The test `total / sampleRate * 1000 >= 1000`: at least one second of
      samples, that is at least `sampleRate` of them. */
  predicate Primed(total: nat, sampleRate: int)
    requires sampleRate > 0
  {
    total as real / sampleRate as real * 1000.0 >= PrimingMs
  }

  lemma PrimedIsOneSecond(total: nat, sampleRate: int)
    requires sampleRate > 0
    ensures Primed(total, sampleRate) <==> total >= sampleRate
  {
    var r := sampleRate as real;
    assert total as real / r * 1000.0 >= 1000.0 <==> total as real / r >= 1.0;
    assert total as real / r >= 1.0 <==> total as real >= r;
  }

  /** `activeSourceNodes.indexOf(x)` followed by `splice(index, 1)`: the
      first occurrence of `x` removed, if any. */
  function RemoveFirst(s: seq<nat>, x: nat): (r: seq<nat>)
    ensures x !in s ==> r == s
    ensures x in s ==> |r| == |s| - 1
    ensures forall y :: y in r ==> y in s
  {
    if s == [] then []
    else if s[0] == x then s[1..]
    else [s[0]] + RemoveFirst(s[1..], x)
  }

  /** Exactly one occurrence of `x` leaves, when there is one, and every
      other element stays with its multiplicity. */
  lemma {:induction false} RemoveFirstMultiset(s: seq<nat>, x: nat)
    ensures multiset(RemoveFirst(s, x)) == multiset(s) - multiset{x}
    decreases |s|
  {
    if s != [] {
      assert s == [s[0]] + s[1..];
      if s[0] != x {
        RemoveFirstMultiset(s[1..], x);
      }
    }
  }

  predicate Distinct(s: seq<nat>) {
    forall i, j :: 0 <= i < j < |s| ==> s[i] != s[j]
  }

  /** In a list without repetitions the removed id is gone and the list
      stays without repetitions. */
  lemma {:induction false} RemoveFirstDistinct(s: seq<nat>, x: nat)
    requires Distinct(s)
    ensures x !in RemoveFirst(s, x) && Distinct(RemoveFirst(s, x))
    ensures forall y :: y in s && y != x ==> y in RemoveFirst(s, x)
    decreases |s|
  {
    if s != [] && s[0] != x {
      RemoveFirstDistinct(s[1..], x);
      var r := RemoveFirst(s, x);
      assert r == [s[0]] + RemoveFirst(s[1..], x);
      assert s[0] !in s[1..];
      forall y | y in s && y != x ensures y in r {
        if y != s[0] {
          assert y in s[1..];
        }
      }
    } else if s != [] {
      assert s[0] !in s[1..];
    }
  }

  /** Appending an id above every listed one keeps the ids distinct. */
  lemma FreshIdDistinct(s: seq<nat>, x: nat, lo: nat)
    requires Distinct(s) && (forall y :: y in s ==> lo <= y < x) && lo <= x
    ensures Distinct(s + [x]) && forall y :: y in s + [x] ==> lo <= y < x + 1
  {
    assert forall i :: 0 <= i < |s| ==> s[i] in s;
  }

  /** The offset loop of `_startPlaybackFromPrimingBuffer`: a buffer of the
      total length, each chunk copied in at the running offset. */
  method Concatenate(chunks: seq<seq<real>>) returns (buf: array<real>)
    ensures buf[..] == Joined(chunks) && buf.Length == Total(chunks)
  {
    JoinedLength(chunks);
    buf := new real[Total(chunks)];
    var offset := 0;
    var k := 0;
    while k < |chunks|
      invariant 0 <= k <= |chunks|
      invariant offset == Total(chunks[..k]) == |Joined(chunks[..k])| <= buf.Length
      invariant buf[..offset] == Joined(chunks[..k])
    {
      var chunk := chunks[k];
      assert chunks[..k + 1] == chunks[..k] + [chunk];
      JoinedSnoc(chunks[..k], chunk);
      JoinedLength(chunks[..k + 1]);
      TotalPrefix(chunks, k + 1);
      CopyAt(buf, chunk, offset);
      offset := offset + |chunk|;
      k := k + 1;
    }
    assert chunks[..k] == chunks;
  }

  /** `TypedArray.prototype.set(chunk, offset)`: the chunk is copied in at
      the offset; the samples before and after it are left alone. */
  method CopyAt(buf: array<real>, chunk: seq<real>, offset: nat)
    requires offset + |chunk| <= buf.Length
    modifies buf
    ensures buf[..offset + |chunk|] == old(buf[..offset]) + chunk
    ensures buf[offset + |chunk|..] == old(buf[offset + |chunk|..])
  {
    forall j | 0 <= j < |chunk| {
      buf[offset + j] := chunk[j];
    }
    assert buf[..offset + |chunk|] == old(buf[..offset]) + chunk;
  }

  /** A prefix's total is at most the whole. */
  lemma {:induction false} TotalPrefix(chunks: seq<seq<real>>, k: nat)
    requires k <= |chunks|
    ensures Total(chunks[..k]) <= Total(chunks)
    decreases |chunks|
  {
    if k < |chunks| {
      assert chunks[..|chunks| - 1][..k] == chunks[..k];
      TotalPrefix(chunks[..|chunks| - 1], k);
    } else {
      assert chunks[..k] == chunks;
    }
  }

  /** The player's state as a value, field for field: the next start
      time, whether the download is over, the ids of the sources that have
      not ended, whether a stop is pending, the held chunks, whether
      playback has started, whether an audio context exists, every source
      ever started (its id is its index), every source stopped, how many
      times completion was reported; and, as bookkeeping, the chunks taken
      since the last reset and how many sources came before it. */
  datatype PlayerView = PlayerView(
    nextStart: real, downloadFinished: bool, active: seq<nat>, stopRequested: bool,
    held: seq<seq<real>>, started: bool, hasContext: bool, scheduled: seq<Scheduled>,
    stopped: seq<nat>, completions: nat, accepted: seq<seq<real>>, epoch: nat)

  /** The state at page load. */
  const Initial: PlayerView := PlayerView(0.0, false, [], false, [], false, false, [], [], 0, [], 0)

  /** Every source started has a positive rate, the active sources are
      distinct sources started since the last reset, and the next start
      time is the requested end of the last source started since then. */
  ghost predicate Timeline(scheduled: seq<Scheduled>, epoch: nat, active: seq<nat>, nextStart: real) {
    && epoch <= |scheduled|
    && (forall k :: 0 <= k < |scheduled| ==> scheduled[k].sampleRate > 0)
    && Distinct(active)
    && (forall x :: x in active ==> epoch <= x < |scheduled|)
    && (|scheduled| > epoch ==>
          nextStart == scheduled[|scheduled| - 1].start + Duration(scheduled[|scheduled| - 1]))
  }

  /** Every sample taken since the last reset is kept, in order: what was
      scheduled since then followed by what is still held. */
  ghost predicate Kept(scheduled: seq<Scheduled>, epoch: nat, held: seq<seq<real>>, accepted: seq<seq<real>>) {
    epoch <= |scheduled| && Audio(scheduled[epoch..]) + Joined(held) == Joined(accepted)
  }

  /** Once playback has started nothing is held back, and held chunks
      imply a context. */
  predicate HeldOnlyBeforeStart(started: bool, held: seq<seq<real>>, hasContext: bool) {
    (started ==> held == []) && (held != [] ==> hasContext)
  }

  /** The player's invariant. */
  ghost predicate Consistent(v: PlayerView) {
    && Timeline(v.scheduled, v.epoch, v.active, v.nextStart)
    && Kept(v.scheduled, v.epoch, v.held, v.accepted)
    && HeldOnlyBeforeStart(v.started, v.held, v.hasContext)
  }

  /** Starting a source, at any time, keeps the timeline. */
  lemma TimelineStart(scheduled: seq<Scheduled>, epoch: nat, active: seq<nat>, nextStart: real, s: Scheduled)
    requires Timeline(scheduled, epoch, active, nextStart) && s.sampleRate > 0
    ensures Timeline(scheduled + [s], epoch, active + [|scheduled|], s.start + Duration(s))
  {
    FreshIdDistinct(active, |scheduled|, epoch);
  }

  /** An ended source leaves the timeline consistent. */
  lemma TimelineRemove(scheduled: seq<Scheduled>, epoch: nat, active: seq<nat>, nextStart: real, id: nat)
    requires Timeline(scheduled, epoch, active, nextStart)
    ensures Timeline(scheduled, epoch, RemoveFirst(active, id), nextStart) && id !in RemoveFirst(active, id)
  {
    RemoveFirstDistinct(active, id);
  }

  /** A held chunk is kept. */
  lemma KeptHold(scheduled: seq<Scheduled>, epoch: nat, held: seq<seq<real>>, accepted: seq<seq<real>>, chunk: seq<real>)
    requires Kept(scheduled, epoch, held, accepted)
    ensures Kept(scheduled, epoch, held + [chunk], accepted + [chunk])
  {
    var a := Audio(scheduled[epoch..]);
    JoinedSnoc(held, chunk);
    JoinedSnoc(accepted, chunk);
    calc {
      a + Joined(held + [chunk]);
      a + (Joined(held) + chunk);
      (a + Joined(held)) + chunk;
      Joined(accepted + [chunk]);
    }
  }

  /** Scheduling the concatenation of the held chunks keeps them. */
  lemma KeptFlush(scheduled: seq<Scheduled>, epoch: nat, held: seq<seq<real>>, accepted: seq<seq<real>>, s: Scheduled)
    requires Kept(scheduled, epoch, held, accepted) && s.samples == Joined(held)
    ensures Kept(scheduled + [s], epoch, [], accepted)
  {
    var a := Audio(scheduled[epoch..]);
    AudioFromSnoc(scheduled, epoch, s);
    assert Joined([]) == [];
    assert (a + Joined(held)) + [] == a + Joined(held);
  }

  /** Scheduling a chunk directly, with nothing held, keeps it. */
  lemma KeptDirect(scheduled: seq<Scheduled>, epoch: nat, accepted: seq<seq<real>>, s: Scheduled)
    requires Kept(scheduled, epoch, [], accepted)
    ensures Kept(scheduled + [s], epoch, [], accepted + [s.samples])
  {
    var a := Audio(scheduled[epoch..]);
    AudioFromSnoc(scheduled, epoch, s);
    JoinedSnoc(accepted, s.samples);
    assert a + [] == a;
    assert Audio((scheduled + [s])[epoch..]) + Joined([]) == Joined(accepted + [s.samples]);
  }

  /** One source of `samples` started at `at`: it gets the next id, joins
      the active sources, and the next start moves to its end. */
  function Start(v: PlayerView, samples: seq<real>, sampleRate: int, at: real): PlayerView
    requires sampleRate > 0
  {
    var s := Scheduled(samples, sampleRate, at);
    v.(scheduled := v.scheduled + [s], active := v.active + [|v.scheduled|], nextStart := at + Duration(s))
  }

  /** A chunk taken before playback has started: it is held. */
  function Hold(v: PlayerView, chunk: seq<real>): PlayerView {
    v.(held := v.held + [chunk], accepted := v.accepted + [chunk])
  }

  /** The held chunks scheduled as one buffer 100 ms after `now`. */
  function Flush(v: PlayerView, sampleRate: int, now: real): PlayerView
    requires sampleRate > 0
  {
    Start(v, Joined(v.held), sampleRate, now + WakeUpDelay).(held := [])
  }

  /** Flushing does not touch the started flag. */
  lemma FlushKeepsStarted(v: PlayerView, sampleRate: int, now: real)
    requires sampleRate > 0
    ensures Flush(v.(started := true), sampleRate, now) == Flush(v, sampleRate, now).(started := true)
  {
  }

  /** A chunk taken after playback has started: it is scheduled at the
      next start time. */
  function Direct(v: PlayerView, chunk: seq<real>, sampleRate: int): PlayerView
    requires sampleRate > 0
  {
    Start(v.(accepted := v.accepted + [chunk]), chunk, sampleRate, v.nextStart)
  }

  /** `playChunk`: a context exists from now on. While a stop is pending
      nothing else happens. After playback has started the chunk is
      scheduled directly; before, it is held, and when the held chunks
      reach one second playback starts with all of them as one buffer. */
  function PlayChunkStep(v: PlayerView, chunk: seq<real>, sampleRate: int, now: real): PlayerView
    requires sampleRate > 0
  {
    var c := v.(hasContext := true);
    if c.stopRequested then c
    else if c.started then Direct(c, chunk, sampleRate)
    else if Primed(Total(c.held + [chunk]), sampleRate) then Flush(Hold(c, chunk), sampleRate, now).(started := true)
    else Hold(c, chunk)
  }

  /** `checkIfPlaybackFinished`: at the end of a download whose playback
      never started, the held chunks are flushed at 24000 Hz; then, when the
      download is over and no source is active, completion is reported. */
  function CheckFinishedStep(v: PlayerView, now: real): PlayerView {
    var w := if !v.started && v.downloadFinished && v.held != [] && v.hasContext then Flush(v, FlushRate, now) else v;
    if w.downloadFinished && w.active == [] then w.(completions := w.completions + 1) else w
  }

  /** `notifyDownloadFinished`. */
  function NotifyStep(v: PlayerView, now: real): PlayerView {
    CheckFinishedStep(v.(downloadFinished := true), now)
  }

  /** A source's `onended`: it leaves the active sources, then the end of
      playback is checked. */
  function EndedStep(v: PlayerView, id: nat, now: real): PlayerView {
    CheckFinishedStep(v.(active := RemoveFirst(v.active, id)), now)
  }

  /** `resetAudioState`: a stop is requested, every active source is
      stopped, and the download flag, the active sources, the next start
      time, the held chunks and the started flag are cleared. */
  function ResetStep(v: PlayerView): PlayerView {
    PlayerView(0.0, false, [], true, [], false, v.hasContext, v.scheduled, v.stopped + v.active, v.completions, [], |v.scheduled|)
  }

  /** The timer a reset sets: 100 ms later the stop request is lifted. */
  function TimerStep(v: PlayerView): PlayerView {
    v.(stopRequested := false)
  }

  lemma InitialConsistent()
    ensures Consistent(Initial)
  {
    assert Initial.scheduled[0..] == [];
  }

  /** Holding a chunk keeps the invariant and every sample. */
  lemma HoldConsistent(v: PlayerView, chunk: seq<real>)
    requires Consistent(v) && !v.started && v.hasContext
    ensures Consistent(Hold(v, chunk))
  {
    KeptHold(v.scheduled, v.epoch, v.held, v.accepted, chunk);
  }

  /** Flushing keeps the invariant: the held chunks become one scheduled
      buffer of their concatenation, and playback may be marked started. */
  lemma FlushConsistent(v: PlayerView, sampleRate: int, now: real, started: bool)
    requires Consistent(v) && sampleRate > 0
    ensures Consistent(Flush(v, sampleRate, now).(started := started))
  {
    var s := Scheduled(Joined(v.held), sampleRate, now + WakeUpDelay);
    TimelineStart(v.scheduled, v.epoch, v.active, v.nextStart, s);
    KeptFlush(v.scheduled, v.epoch, v.held, v.accepted, s);
  }

  /** Scheduling a chunk directly keeps the invariant. */
  lemma DirectConsistent(v: PlayerView, chunk: seq<real>, sampleRate: int)
    requires Consistent(v) && v.started && sampleRate > 0
    ensures Consistent(Direct(v, chunk, sampleRate))
  {
    var s := Scheduled(chunk, sampleRate, v.nextStart);
    TimelineStart(v.scheduled, v.epoch, v.active, v.nextStart, s);
    KeptDirect(v.scheduled, v.epoch, v.accepted, s);
  }

  /** `playChunk` keeps the invariant, and a chunk taken while no stop is
      pending is either held or scheduled: the samples taken since the
      last reset grow by exactly the chunk. */
  lemma {:induction false} PlayChunkConsistent(v: PlayerView, chunk: seq<real>, sampleRate: int, now: real)
    requires Consistent(v) && sampleRate > 0
    ensures var w := PlayChunkStep(v, chunk, sampleRate, now);
      && Consistent(w) && w.hasContext
      && w.accepted == (if v.stopRequested then v.accepted else v.accepted + [chunk])
  {
    var c := v.(hasContext := true);
    assert Consistent(c);
    if c.stopRequested {
    } else if c.started {
      DirectConsistent(c, chunk, sampleRate);
    } else {
      HoldConsistent(c, chunk);
      if Primed(Total(c.held + [chunk]), sampleRate) {
        FlushConsistent(Hold(c, chunk), sampleRate, now, true);
      }
    }
  }

  lemma CheckFinishedConsistent(v: PlayerView, now: real)
    requires Consistent(v)
    ensures Consistent(CheckFinishedStep(v, now))
  {
    if !v.started && v.downloadFinished && v.held != [] && v.hasContext {
      FlushConsistent(v, FlushRate, now, v.started);
      assert Flush(v, FlushRate, now).(started := v.started) == Flush(v, FlushRate, now);
    }
  }

  /** An ended source leaves the active ones, and the invariant holds. */
  lemma EndedConsistent(v: PlayerView, id: nat, now: real)
    requires Consistent(v)
    ensures Consistent(EndedStep(v, id, now))
    ensures id < |v.scheduled| ==> id !in EndedStep(v, id, now).active
  {
    TimelineRemove(v.scheduled, v.epoch, v.active, v.nextStart, id);
    CheckFinishedConsistent(v.(active := RemoveFirst(v.active, id)), now);
  }

  /** A reset establishes the invariant afresh. */
  lemma ResetConsistent(v: PlayerView)
    requires Consistent(v)
    ensures Consistent(ResetStep(v))
  {
    assert v.scheduled[|v.scheduled|..] == [];
  }

  /** What can happen to the player: a chunk arrives, the download ends, a
      source ends, the user stops playback, or the reset timer fires. */
  datatype Event =
    | ChunkArrived(chunk: seq<real>, sampleRate: int, now: real)
    | DownloadFinished(now: real)
    | SourceEndedAt(id: nat, now: real)
    | StopPressed
    | TimerFired

  /** Chunks arrive with a positive sample rate. */
  predicate WellFormed(e: Event) {
    e.ChunkArrived? ==> e.sampleRate > 0
  }

  function StepOf(v: PlayerView, e: Event): PlayerView
    requires WellFormed(e)
  {
    match e
    case ChunkArrived(chunk, sampleRate, now) => PlayChunkStep(v, chunk, sampleRate, now)
    case DownloadFinished(now) => NotifyStep(v, now)
    case SourceEndedAt(id, now) => EndedStep(v, id, now)
    case StopPressed => ResetStep(v)
    case TimerFired => TimerStep(v)
  }

  /** The state after the events, in order. */
  function Run(v: PlayerView, events: seq<Event>): PlayerView
    requires forall k :: 0 <= k < |events| ==> WellFormed(events[k])
  {
    if events == [] then v else StepOf(Run(v, events[..|events| - 1]), events[|events| - 1])
  }

  /** Every step keeps the invariant. */
  lemma StepConsistent(v: PlayerView, e: Event)
    requires Consistent(v) && WellFormed(e)
    ensures Consistent(StepOf(v, e))
  {
    match e
    case ChunkArrived(chunk, sampleRate, now) => PlayChunkConsistent(v, chunk, sampleRate, now);
    case DownloadFinished(now) => CheckFinishedConsistent(v.(downloadFinished := true), now);
    case SourceEndedAt(id, now) => EndedConsistent(v, id, now);
    case StopPressed => ResetConsistent(v);
    case TimerFired =>
  }

  /** Whatever happens, the player stays consistent: it never drops,
      duplicates or reorders a sample taken since the last stop, and the
      next start time is the requested end of the last source started
      since then. */
  lemma {:induction false} RunConsistent(events: seq<Event>)
    requires forall k :: 0 <= k < |events| ==> WellFormed(events[k])
    ensures Consistent(Run(Initial, events))
  {
    if events == [] {
      InitialConsistent();
    } else {
      var prefix := events[..|events| - 1];
      assert forall k :: 0 <= k < |prefix| ==> WellFormed(prefix[k]) by {
        forall k | 0 <= k < |prefix| ensures WellFormed(prefix[k]) {
          assert prefix[k] == events[k];
        }
      }
      RunConsistent(prefix);
      StepConsistent(Run(Initial, prefix), events[|events| - 1]);
    }
  }

  // ------------------------------------------------ the request flow

  /** Whether the download was reported finished after the last stop. */
  function FinishedSinceStop(events: seq<Event>): bool {
    if events == [] then false
    else match events[|events| - 1]
      case DownloadFinished(_) => true
      case StopPressed => false
      case _ => FinishedSinceStop(events[..|events| - 1])
  }

  /** The order main.js drives the player in: each request resets the
      player before it starts (static/js/main.js:202) and reports the end of
      its download only after its last chunk (static/js/main.js:259-299), so
      no chunk arrives between a finished download and the next stop. */
  predicate InRequestFlow(events: seq<Event>) {
    forall k :: 0 <= k < |events| && events[k].ChunkArrived? ==> !FinishedSinceStop(events[..k])
  }

  /** The sources started since the last reset are requested back to back:
      each one after the first starts where the one before it ends. */
  predicate Contiguous(scheduled: seq<Scheduled>, epoch: nat) {
    forall k :: epoch < k < |scheduled| ==> FollowsPrevious(scheduled, k)
  }

  /** Source `k` is requested to start where source `k - 1` ends. */
  predicate FollowsPrevious(scheduled: seq<Scheduled>, k: nat)
    requires 0 < k < |scheduled|
  {
    scheduled[k - 1].sampleRate > 0 && scheduled[k].start == scheduled[k - 1].start + Duration(scheduled[k - 1])
  }

  /** The invariant of a run in the request flow: the player is consistent,
      its sources since the last reset are contiguous, playback has started
      only with a source, and a source started without playback having
      started (the flush at the end of a short download) comes last. */
  ghost predicate FlowConsistent(v: PlayerView) {
    && Consistent(v)
    && Contiguous(v.scheduled, v.epoch)
    && (v.started ==> |v.scheduled| > v.epoch)
    && (!v.started && |v.scheduled| > v.epoch ==> v.downloadFinished && v.held == [])
  }

  /** A source started at the next start time keeps the sources contiguous. */
  lemma ContiguousStart(v: PlayerView, s: Scheduled)
    requires Timeline(v.scheduled, v.epoch, v.active, v.nextStart)
    requires Contiguous(v.scheduled, v.epoch) && |v.scheduled| > v.epoch
    requires s.start == v.nextStart
    ensures Contiguous(v.scheduled + [s], v.epoch)
  {
    var sch := v.scheduled + [s];
    forall k | v.epoch < k < |sch|
      ensures FollowsPrevious(sch, k)
    {
      if k < |v.scheduled| {
        assert FollowsPrevious(v.scheduled, k);
        assert sch[k] == v.scheduled[k] && sch[k - 1] == v.scheduled[k - 1];
      } else {
        assert sch[k] == s && sch[k - 1] == v.scheduled[|v.scheduled| - 1];
      }
    }
  }

  /** The first source since the last reset is contiguous on its own. */
  lemma ContiguousFirst(scheduled: seq<Scheduled>, epoch: nat, s: Scheduled)
    requires |scheduled| == epoch
    ensures Contiguous(scheduled + [s], epoch)
  {
  }

  /** A chunk scheduled directly extends the contiguous sources. */
  lemma DirectFlow(v: PlayerView, chunk: seq<real>, sampleRate: int)
    requires FlowConsistent(v) && v.started && sampleRate > 0
    ensures Contiguous(Direct(v, chunk, sampleRate).scheduled, v.epoch)
  {
    ContiguousStart(v.(accepted := v.accepted + [chunk]), Scheduled(chunk, sampleRate, v.nextStart));
  }

  /** `playChunk` in the request flow keeps the flow invariant. */
  lemma PlayChunkFlow(v: PlayerView, chunk: seq<real>, sampleRate: int, now: real)
    requires FlowConsistent(v) && sampleRate > 0 && !v.downloadFinished
    ensures FlowConsistent(PlayChunkStep(v, chunk, sampleRate, now))
  {
    PlayChunkConsistent(v, chunk, sampleRate, now);
    var c := v.(hasContext := true);
    if c.stopRequested {
    } else if c.started {
      DirectFlow(c, chunk, sampleRate);
    } else if Primed(Total(c.held + [chunk]), sampleRate) {
      assert |v.scheduled| == v.epoch;
      ContiguousFirst(v.scheduled, v.epoch, Scheduled(Joined(c.held + [chunk]), sampleRate, now + WakeUpDelay));
    }
  }

  /** Checking for the end of playback keeps the flow invariant: the end
      flush only happens while nothing has been started since the reset. */
  lemma CheckFinishedFlow(v: PlayerView, now: real)
    requires FlowConsistent(v)
    ensures FlowConsistent(CheckFinishedStep(v, now))
  {
    CheckFinishedConsistent(v, now);
    if !v.started && v.downloadFinished && v.held != [] && v.hasContext {
      ContiguousFirst(v.scheduled, v.epoch, Scheduled(Joined(v.held), FlushRate, now + WakeUpDelay));
    }
  }

  /** A reset starts a new, empty stretch of sources. */
  lemma ResetFlow(v: PlayerView)
    requires FlowConsistent(v)
    ensures FlowConsistent(ResetStep(v))
  {
    ResetConsistent(v);
  }

  /** Every step the request flow allows keeps the flow invariant. */
  lemma StepFlow(v: PlayerView, e: Event)
    requires FlowConsistent(v) && WellFormed(e)
    requires e.ChunkArrived? ==> !v.downloadFinished
    ensures FlowConsistent(StepOf(v, e))
  {
    match e
    case ChunkArrived(chunk, sampleRate, now) => PlayChunkFlow(v, chunk, sampleRate, now);
    case DownloadFinished(now) => CheckFinishedFlow(v.(downloadFinished := true), now);
    case SourceEndedAt(id, now) =>
      TimelineRemove(v.scheduled, v.epoch, v.active, v.nextStart, id);
      CheckFinishedFlow(v.(active := RemoveFirst(v.active, id)), now);
    case StopPressed => ResetFlow(v);
    case TimerFired =>
  }

  /** The end check leaves the download flag alone. */
  lemma CheckFinishedKeepsFlag(v: PlayerView, now: real)
    ensures CheckFinishedStep(v, now).downloadFinished == v.downloadFinished
  {
  }

  /** Only a finished download sets the download flag and only a stop
      clears it. */
  lemma StepDownloadFlag(v: PlayerView, e: Event)
    requires WellFormed(e)
    ensures StepOf(v, e).downloadFinished ==
      if e.DownloadFinished? then true else if e.StopPressed? then false else v.downloadFinished
  {
    match e
    case ChunkArrived(chunk, sampleRate, now) =>
    case DownloadFinished(now) => CheckFinishedKeepsFlag(v.(downloadFinished := true), now);
    case SourceEndedAt(id, now) => CheckFinishedKeepsFlag(v.(active := RemoveFirst(v.active, id)), now);
    case StopPressed =>
    case TimerFired =>
  }

  /** The player's download flag is exactly "finished since the last stop". */
  lemma {:induction false} RunDownloadFinished(events: seq<Event>)
    requires forall k :: 0 <= k < |events| ==> WellFormed(events[k])
    ensures Run(Initial, events).downloadFinished == FinishedSinceStop(events)
  {
    if events != [] {
      var prefix := events[..|events| - 1];
      assert forall k :: 0 <= k < |prefix| ==> WellFormed(prefix[k]) by {
        forall k | 0 <= k < |prefix| ensures WellFormed(prefix[k]) {
          assert prefix[k] == events[k];
        }
      }
      RunDownloadFinished(prefix);
      StepDownloadFlag(Run(Initial, prefix), events[|events| - 1]);
    }
  }

  /** Driven as main.js drives it, the player requests every source since
      the last stop to start exactly where the one before it ends, besides
      keeping every sample in order. */
  lemma {:induction false} RunInFlow(events: seq<Event>)
    requires forall k :: 0 <= k < |events| ==> WellFormed(events[k])
    requires InRequestFlow(events)
    ensures Consistent(Run(Initial, events))
    ensures Contiguous(Run(Initial, events).scheduled, Run(Initial, events).epoch)
  {
    FlowRun(events);
  }

  lemma {:induction false} FlowRun(events: seq<Event>)
    requires forall k :: 0 <= k < |events| ==> WellFormed(events[k])
    requires InRequestFlow(events)
    ensures FlowConsistent(Run(Initial, events))
  {
    if events == [] {
      InitialConsistent();
    } else {
      var prefix := events[..|events| - 1];
      assert forall k :: 0 <= k < |prefix| ==> WellFormed(prefix[k]) by {
        forall k | 0 <= k < |prefix| ensures WellFormed(prefix[k]) {
          assert prefix[k] == events[k];
        }
      }
      assert InRequestFlow(prefix) by {
        forall k | 0 <= k < |prefix| && prefix[k].ChunkArrived? ensures !FinishedSinceStop(prefix[..k]) {
          assert prefix[k] == events[k] && prefix[..k] == events[..k];
        }
      }
      FlowRun(prefix);
      RunDownloadFinished(prefix);
      StepFlow(Run(Initial, prefix), events[|events| - 1]);
    }
  }

  /** A run outside the request flow: a short download is flushed when it
      finishes, then one more chunk arrives, then the first source ends. */
  const Probe: seq<Event> := [ChunkArrived([0.0], 24000, 0.0), DownloadFinished(0.0),
                              ChunkArrived([0.0], 24000, 1.0), SourceEndedAt(0, 5.0)]

  /** The state after the first two events of `Probe`: one source, 100 ms
      after the clock, and nothing started or held. */
  const ProbeFlushed: PlayerView :=
    PlayerView(0.1 + 1.0 / 24000.0, true, [0], false, [], false, true,
               [Scheduled([0.0], 24000, 0.1)], [], 0, [[0.0]], 0)

  lemma ProbeOneSample()
    ensures Joined([[0.0]]) == [0.0] && Total([[0.0]]) == 1 && !Primed(1, 24000)
  {
    assert [[0.0]][..0] == [];
    PrimedIsOneSecond(1, 24000);
  }

  lemma ProbeFirstTwo()
    ensures Run(Initial, Probe[..2]) == ProbeFlushed
  {
    ProbeOneSample();
    assert Probe[..2][..1] == Probe[..1] && Probe[..1][..0] == [];
    assert [] + [[0.0]] == [[0.0]];
    var v1 := PlayerView(0.0, false, [], false, [[0.0]], false, true, [], [], 0, [[0.0]], 0);
    assert Run(Initial, Probe[..1]) == v1 by {
      assert Run(Initial, Probe[..1]) == PlayChunkStep(Initial, [0.0], 24000, 0.0);
    }
    var s := Scheduled([0.0], 24000, 0.1);
    assert Duration(s) == 1.0 / 24000.0;
    assert CheckFinishedStep(v1.(downloadFinished := true), 0.0) == ProbeFlushed;
  }

  lemma ProbeAll()
    ensures Run(Initial, Probe).scheduled == ProbeFlushed.scheduled + [Scheduled([0.0], 24000, 5.1)]
    ensures Run(Initial, Probe).epoch == 0
  {
    ProbeFirstTwo();
    ProbeOneSample();
    assert Probe[..3][..2] == Probe[..2] && Probe[..|Probe| - 1] == Probe[..3];
    assert [] + [[0.0]] == [[0.0]];
  }

  /** Outside the request flow the sources need not be contiguous: a chunk
      that arrives after a short download was flushed is held, and the
      next flush starts it 100 ms after the clock, not where the first
      source ends. */
  lemma ChunkAfterFinishRestarts()
    ensures !InRequestFlow(Probe)
    ensures |Run(Initial, Probe).scheduled| == 2
    ensures Run(Initial, Probe).scheduled[1].start == Run(Initial, Probe).scheduled[0].start + 5.0
    ensures !Contiguous(Run(Initial, Probe).scheduled, Run(Initial, Probe).epoch)
  {
    assert Probe[..2] == Probe[..3][..2];
    assert FinishedSinceStop(Probe[..2]);
    assert Probe[2].ChunkArrived?;
    ProbeAll();
    var w := Run(Initial, Probe);
    assert !FollowsPrevious(w.scheduled, 1);
  }

  /** Once the download has finished, nothing is held back any more: every
      sample taken since the last stop has been scheduled, in the order it
      arrived. */
  lemma FinishedSchedulesAll(v: PlayerView, now: real)
    requires Consistent(v)
    ensures var w := NotifyStep(v, now);
      w.held == [] && Audio(w.scheduled[w.epoch..]) == Joined(w.accepted)
  {
    var u := v.(downloadFinished := true);
    CheckFinishedConsistent(u, now);
    var w := NotifyStep(v, now);
    assert Audio(w.scheduled[w.epoch..]) + [] == Audio(w.scheduled[w.epoch..]);
  }

  /** While a download is running and playback has not started, chunks
      under one second of audio are only held: nothing is scheduled. */
  lemma HeldUntilPrimed(v: PlayerView, chunk: seq<real>, sampleRate: int, now: real)
    requires sampleRate > 0 && !v.stopRequested && !v.started
    requires !Primed(Total(v.held + [chunk]), sampleRate)
    ensures var w := PlayChunkStep(v, chunk, sampleRate, now);
      w.scheduled == v.scheduled && w.held == v.held + [chunk] && !w.started
  {
  }

  /** Once playback has started, each chunk is requested to start where the
      previous one is requested to end. */
  lemma BackToBack(v: PlayerView, chunk: seq<real>, sampleRate: int, now: real)
    requires sampleRate > 0 && !v.stopRequested && v.started
    ensures var w := PlayChunkStep(v, chunk, sampleRate, now);
      w.scheduled == v.scheduled + [Scheduled(chunk, sampleRate, v.nextStart)]
      && w.nextStart == v.nextStart + |chunk| as real / sampleRate as real
  {
  }

  /** After a stop, chunks are dropped until the timer fires. */
  lemma StoppedDropsChunks(v: PlayerView, chunk: seq<real>, sampleRate: int, now: real)
    requires sampleRate > 0
    ensures var w := PlayChunkStep(ResetStep(v), chunk, sampleRate, now);
      w.scheduled == v.scheduled && w.held == [] && w.accepted == [] && w.stopped == v.stopped + v.active
  {
  }

  class JitterBuffer {
    var nextStartTime: real
    var isDownloadFinished: bool
    /** Ids of the sources that have not ended. */
    var activeSourceNodes: seq<nat>
    var isStopRequested: bool
    var primingBuffer: seq<seq<real>>
    var isPlaybackStarted: bool
    /** Whether `window._audioContext` has been created. */
    var hasContext: bool
    /** Every source ever started, by id. */
    var scheduled: seq<Scheduled>
    /** Every source `stop(0)` was called on. */
    var stopped: seq<nat>
    /** How many times `onAudioPlaybackComplete` was called. */
    var completions: nat
    /** The chunks `playChunk` took since the last reset. */
    ghost var accepted: seq<seq<real>>
    /** The number of sources started before the last reset. */
    ghost var epoch: nat

    ghost function Snapshot(): PlayerView
      reads this
    {
      PlayerView(nextStartTime, isDownloadFinished, activeSourceNodes, isStopRequested, primingBuffer,
                 isPlaybackStarted, hasContext, scheduled, stopped, completions, accepted, epoch)
    }

    /** The state at page load. */
    constructor()
      ensures Snapshot() == Initial
    {
      nextStartTime := 0.0;
      isDownloadFinished := false;
      activeSourceNodes := [];
      isStopRequested := false;
      primingBuffer := [];
      isPlaybackStarted := false;
      hasContext := false;
      scheduled := [];
      stopped := [];
      completions := 0;
      accepted := [];
      epoch := 0;
    }

    /** `_schedulePlayback`: with a context, one source of the samples is
      started at `nextStartTime`; without one, nothing happens. */
    method SchedulePlayback(samples: seq<real>, sampleRate: int)
      requires sampleRate > 0
      modifies this
      ensures Snapshot() ==
        if old(hasContext) then Start(old(Snapshot()), samples, sampleRate, old(nextStartTime)) else old(Snapshot())
    {
      if !hasContext {
        return;
      }
      var s := Scheduled(samples, sampleRate, nextStartTime);
      var id := |scheduled|;
      scheduled := scheduled + [s];
      nextStartTime := nextStartTime + Duration(s);
      activeSourceNodes := activeSourceNodes + [id];
    }

    /** `_startPlaybackFromPrimingBuffer`: with held chunks and a context,
      the next start is set 100 ms after `now`, the held chunks are
      scheduled as one buffer, their concatenation, and the priming buffer
      is emptied; otherwise nothing happens. */
    method StartPlaybackFromPrimingBuffer(sampleRate: int, now: real)
      requires sampleRate > 0
      modifies this
      ensures Snapshot() ==
        if old(primingBuffer) == [] || !old(hasContext) then old(Snapshot()) else Flush(old(Snapshot()), sampleRate, now)
    {
      if primingBuffer == [] || !hasContext {
        return;
      }
      nextStartTime := now + WakeUpDelay;
      var buf := Concatenate(primingBuffer);
      SchedulePlayback(buf[..], sampleRate);
      primingBuffer := [];
    }

    method PlayChunk(chunk: seq<real>, sampleRate: int, now: real)
      requires sampleRate > 0
      modifies this
      ensures Snapshot() == PlayChunkStep(old(Snapshot()), chunk, sampleRate, now)
    {
      hasContext := true;
      if isStopRequested {
          return;
      }
      ghost var c := Snapshot();
      if !isPlaybackStarted {
        accepted := accepted + [chunk];
        primingBuffer := primingBuffer + [chunk];
        assert Snapshot() == Hold(c, chunk);
        if Primed(Total(primingBuffer), sampleRate) {
          isPlaybackStarted := true;
          ghost var h := Hold(c, chunk);
          assert Snapshot() == h.(started := true);
          StartPlaybackFromPrimingBuffer(sampleRate, now);
          FlushKeepsStarted(h, sampleRate, now);
        }
      } else {
        accepted := accepted + [chunk];
        SchedulePlayback(chunk, sampleRate);
        assert Snapshot() == Direct(c, chunk, sampleRate);
      }
    }

    method CheckIfPlaybackFinished(now: real)
      modifies this
      ensures Snapshot() == CheckFinishedStep(old(Snapshot()), now)
    {
      if !isPlaybackStarted && isDownloadFinished && |primingBuffer| > 0 {
        StartPlaybackFromPrimingBuffer(FlushRate, now);
      }
      if isDownloadFinished && |activeSourceNodes| == 0 {
        completions := completions + 1;
      }
    }

    method NotifyDownloadFinished(now: real)
      modifies this
      ensures Snapshot() == NotifyStep(old(Snapshot()), now)
    {
      isDownloadFinished := true;
      CheckIfPlaybackFinished(now);
    }

    method SourceEnded(id: nat, now: real)
      modifies this
      ensures Snapshot() == EndedStep(old(Snapshot()), id, now)
    {
      activeSourceNodes := RemoveFirst(activeSourceNodes, id);
      CheckIfPlaybackFinished(now);
    }

    method ResetAudioState()
      modifies this
      ensures Snapshot() == ResetStep(old(Snapshot()))
    {
      isStopRequested := true;
      isDownloadFinished := false;
      stopped := stopped + activeSourceNodes;
      activeSourceNodes := [];
      nextStartTime := 0.0;
      primingBuffer := [];
      isPlaybackStarted := false;
      accepted := [];
      epoch := |scheduled|;
    }

    method StopTimerElapsed()
      modifies this
      ensures Snapshot() == TimerStep(old(Snapshot()))
    {
      isStopRequested := false;
    }
  }
}
