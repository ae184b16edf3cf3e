/**
 The step sequencer as a deterministic state machine: the recorded track, the
 current step and the play/stop flag, with one pure transition per user
 action, MIDI message or timer tick. Each transition returns the new state and
 the tone it emits, if any (a tone is its frequency in centihertz).

 Playback reads a `snapshot` of the track: the timer callback is created when
 playback starts and keeps reading the track as it was then, even if notes are
 recorded while playing.
 */
module Sequencer {
  import opened Options
  import opened Notes
  import Midi

  /**
   The current step: a position, or NaN, which is what the step becomes when
   a tick divides by the length of an empty track.
   */
  datatype Step = Index(i: nat) | NaN

  datatype SeqState = SeqState(
    step: Step,
    playing: bool,
    /** every note recorded so far, in order */
    track: seq<string>,
    /** the track as it was when playback last started from idle */
    snapshot: seq<string>)

  /** A new state and the tone emitted on the way, if any. */
  datatype Output = Output(state: SeqState, tone: Option<nat>)

  /** Step 0, stopped, nothing recorded. */
  const Initial: SeqState := SeqState(Index(0), false, [], [])

  /** True when every entry of `names` names a catalog note. */
  predicate AllCatalogNames(names: seq<string>) {
    forall k :: 0 <= k < |names| ==> IsCatalogName(names[k])
  }

  /**
   What every reachable state satisfies: only catalog names are recorded, the
   snapshot is a prefix of the track (the track only grows), and while playing
   a non-empty snapshot the step is a position inside it.
   */
  predicate Inv(s: SeqState) {
    && AllCatalogNames(s.track)
    && s.snapshot <= s.track
    && (s.playing && |s.snapshot| > 0 ==> s.step.Index? && s.step.i < |s.snapshot|)
  }

  /**
   The Play action. The playback timer is (re)created only when the playing
   flag actually changes, so pressing Play while already playing restarts the
   step but keeps the running timer and its snapshot.
   */
  function Play(s: SeqState): (o: Output)
    ensures o.state.playing && o.state.step == Index(0)
    ensures o.state.track == s.track && o.tone.None?
    ensures o.state.snapshot == if s.playing then s.snapshot else s.track
  {
    var snapshot := if s.playing then s.snapshot else s.track;
    Output(SeqState(Index(0), true, s.track, snapshot), None)
  }

  /** The Stop action: the step and the track stay as they are. */
  function Stop(s: SeqState): (o: Output)
    ensures !o.state.playing
    ensures o.state.step == s.step && o.state.track == s.track && o.state.snapshot == s.snapshot
    ensures o.tone.None?
  {
    Output(s.(playing := false), None)
  }

  /** The Reset action: stops and rewinds to step 0 but keeps the recorded track. */
  function Reset(s: SeqState): (o: Output)
    ensures !o.state.playing && o.state.step == Index(0)
    ensures o.state.track == s.track && o.state.snapshot == s.snapshot
    ensures o.tone.None?
  {
    Output(s.(playing := false, step := Index(0)), None)
  }

  /**
   Recording a note: the note is appended to the track and its tone sounds at
   once. Only catalog names can be recorded: the frequency lookup fails on any
   other name.
   */
  function Record(s: SeqState, name: string): (o: Output)
    requires IsCatalogName(name)
    ensures |o.state.track| == |s.track| + 1
    ensures o.state.track[..|s.track|] == s.track && o.state.track[|s.track|] == name
    ensures o.state.step == s.step && o.state.playing == s.playing && o.state.snapshot == s.snapshot
    ensures o.tone == Some(Frequency(name))
  {
    Output(s.(track := s.track + [name]), Some(Frequency(name)))
  }

  /** A MIDI message: a recognised Note-On records its note, anything else changes nothing. */
  function HandleMidi(s: SeqState, data: seq<Midi.Byte>): (o: Output)
    ensures Midi.Decode(data).None? ==> o == Output(s, None)
    ensures Midi.Decode(data).Some? ==> o == Record(s, Midi.Decode(data).value)
  {
    match Midi.Decode(data)
    case None => Output(s, None)
    case Some(name) => Record(s, name)
  }

  /**
   `k` modulo a positive `n`, which is what JavaScript's `%` computes on
   non-negative operands (see `WrapIsMod`). Written by repeated subtraction so
   that it stays out of the solver's non-linear arithmetic.
   */
  function Wrap(k: nat, n: nat): (r: nat)
    requires n > 0
    ensures r < n
    ensures k < n ==> r == k
    decreases k
  {
    if k < n then k else Wrap(k - n, n)
  }

  /** `Wrap` agrees with the `%` of the source. */
  lemma {:induction false} WrapIsMod(k: nat, n: nat)
    requires n > 0
    ensures Wrap(k, n) == k % n
    decreases k
  {
    if k >= n {
      WrapIsMod(k - n, n);
      var q, r := (k - n) / n, (k - n) % n;
      assert k - n == q * n + r;
      assert k == (q + 1) * n + r;
      ModUnique(k, n, q + 1, r);
    } else {
      ModUnique(k, n, 0, k);
    }
  }

  /** The remainder is the unique `r` in `[0, n)` with `k == q * n + r`. */
  lemma ModUnique(k: int, n: int, q: int, r: int)
    requires n > 0 && 0 <= r < n && k == q * n + r
    ensures k % n == r
  {
    var q0, r0 := k / n, k % n;
    assert k == q0 * n + r0;
    MulDifference(q, q0, n);
    var m := q - q0;
    if m > 0 {
      MulAtLeast(m, n);
    } else if m < 0 {
      MulAtLeast(-m, n);
      MulDifference(q0, q, n);
    }
  }

  lemma MulDifference(a: int, b: int, n: int)
    ensures (a - b) * n == a * n - b * n
  {
  }

  lemma MulAtLeast(m: int, n: int)
    requires m >= 1 && n > 0
    ensures m * n >= n
  {
  }

  /**
   The step a tick moves to on a snapshot of `length` notes: one further,
   wrapping to 0 past the end. A NaN step, or an empty snapshot (division by
   zero), gives NaN.
   */
  function Next(step: Step, length: nat): (next: Step)
    ensures step.Index? && length > 0 ==> next == Index(Wrap(step.i + 1, length))
    ensures step.NaN? || length == 0 ==> next == NaN
  {
    if step.NaN? || length == 0 then NaN else Index(Wrap(step.i + 1, length))
  }

  /** The note name at `step` of `names`; `None` for NaN or a position past the end. */
  function NoteAt(names: seq<string>, step: Step): (r: Option<string>)
    ensures r.Some? <==> step.Index? && step.i < |names|
    ensures r.Some? ==> r.value == names[step.i]
  {
    if step.Index? && step.i < |names| then Some(names[step.i]) else None
  }

  /** The tone for a note name, or none when the name is missing or not in the catalog. */
  function ToneOf(note: Option<string>): (t: Option<nat>)
    ensures t.Some? <==> note.Some? && IsCatalogName(note.value)
    ensures t.Some? ==> t.value == Frequency(note.value)
  {
    match note
    case None => None
    case Some(name) =>
      match Lookup(name)
      case None => None
      case Some(n) => Some(n.centihertz)
  }

  /** The tone a tick sounds on reaching `step` of `snapshot`. */
  function Sound(snapshot: seq<string>, step: Step): (t: Option<nat>)
    ensures t.Some? <==> step.Index? && step.i < |snapshot| && IsCatalogName(snapshot[step.i])
    ensures t.Some? ==> t.value == Frequency(snapshot[step.i])
  {
    ToneOf(NoteAt(snapshot, step))
  }

  /**
   One timer tick: advance the step modulo the snapshot's length, then sound
   the note now under the step if the catalog knows it. Nothing but the step
   changes.
   */
  function Tick(s: SeqState): (o: Output)
    ensures o.state.track == s.track && o.state.snapshot == s.snapshot && o.state.playing == s.playing
    ensures o.state.step == Next(s.step, |s.snapshot|)
    ensures o.tone == Sound(s.snapshot, o.state.step)
  {
    var next := Next(s.step, |s.snapshot|);
    var tone := Sound(s.snapshot, next);
    Output(SeqState(next, s.playing, s.track, s.snapshot), tone)
  }

  /**
   A tick in the terms of the source: on a non-empty snapshot the step becomes
   `(step + 1) % length`, a position inside the snapshot; the tick sounds the
   catalog frequency of the note there, or nothing when that note is not in
   the catalog. Only the step changes.
   */
  lemma TickSpec(s: SeqState)
    requires s.step.Index? && |s.snapshot| > 0
    ensures Tick(s).state == s.(step := Index((s.step.i + 1) % |s.snapshot|))
    ensures (s.step.i + 1) % |s.snapshot| < |s.snapshot|
    ensures Tick(s).tone.Some? <==> IsCatalogName(s.snapshot[(s.step.i + 1) % |s.snapshot|])
    ensures Tick(s).tone.Some? ==>
              Tick(s).tone.value == Frequency(s.snapshot[(s.step.i + 1) % |s.snapshot|])
  {
    WrapIsMod(s.step.i + 1, |s.snapshot|);
  }

  /** Everything that can happen to the sequencer. */
  datatype Event =
    | PlayPressed
    | StopPressed
    | ResetPressed
    /** one of the on-screen note buttons, which carry catalog names */
    | NotePressed(name: string)
    | MidiMessage(data: seq<Midi.Byte>)
    /** the playback timer, which runs only while playing */
    | TimerFired

  /** An event the sequencer can receive: on-screen buttons carry catalog names. */
  predicate Deliverable(e: Event) {
    e.NotePressed? ==> IsCatalogName(e.name)
  }

  /**
   The sequencer's response to one event. The track only ever grows, by at
   most one note per event, and a timer event while stopped does nothing.
   */
  function Apply(s: SeqState, e: Event): (o: Output)
    requires Deliverable(e)
    ensures s.track <= o.state.track && |o.state.track| <= |s.track| + 1
    ensures e.TimerFired? && !s.playing ==> o == Output(s, None)
  {
    match e
    case PlayPressed => Play(s)
    case StopPressed => Stop(s)
    case ResetPressed => Reset(s)
    case NotePressed(name) => Record(s, name)
    case MidiMessage(data) => HandleMidi(s, data)
    case TimerFired => if s.playing then Tick(s) else Output(s, None)
  }

  /** The initial state satisfies the invariant. */
  lemma InitialInv()
    ensures Inv(Initial)
  {
  }

  /** Every event keeps the invariant. */
  lemma ApplyPreservesInv(s: SeqState, e: Event)
    requires Inv(s) && Deliverable(e)
    ensures Inv(Apply(s, e).state)
  {
    match e
    case NotePressed(name) => RecordPreservesInv(s, name);
    case MidiMessage(data) =>
      if Midi.Decode(data).Some? {
        RecordPreservesInv(s, Midi.Decode(data).value);
      }
    case _ =>
  }

  lemma RecordPreservesInv(s: SeqState, name: string)
    requires Inv(s) && IsCatalogName(name)
    ensures Inv(Record(s, name).state)
  {
  }

  /** While playing a non-empty snapshot the step points into the current, live track too. */
  lemma StepWithinTrack(s: SeqState)
    requires Inv(s) && s.playing && |s.snapshot| > 0
    ensures s.step.Index? && s.step.i < |s.track|
  {
  }

  /** Pressing a note button and receiving that note's Note-On message have the same effect. */
  lemma MidiActsLikeButton(s: SeqState, name: string)
    requires IsCatalogName(name)
    ensures Apply(s, MidiMessage(Midi.NoteOnFor(name))) == Apply(s, NotePressed(name))
  {
  }

  /** Every message other than a Note-On for notes 60 to 71 leaves the state untouched and silent. */
  lemma IgnoredMidiChangesNothing(s: SeqState, data: seq<Midi.Byte>)
    requires !(|data| >= 2 && data[0] == 144 && 60 <= data[1] <= 71)
    ensures Apply(s, MidiMessage(data)) == Output(s, None)
  {
  }

  /**
   After Stop the timer is cleared: a timer event changes nothing and sounds
   nothing, and Play resumes from step 0 on the track as it is then.
   */
  lemma StopHaltsPlayback(s: SeqState)
    ensures Apply(Stop(s).state, TimerFired) == Output(Stop(s).state, None)
    ensures Play(Stop(s).state).state.snapshot == s.track
    ensures Play(Stop(s).state).state.step == Index(0)
  {
  }

  /** Reset is idempotent. */
  lemma ResetIdempotent(s: SeqState)
    ensures Reset(Reset(s).state) == Reset(s)
  {
  }

  /**
   Reset forgets how playback went: from two states with the same track,
   Play after Reset gives the same state, and Stop before Reset changes
   nothing.
   */
  lemma ResetForgetsPlayback(s: SeqState, t: SeqState)
    requires s.track == t.track
    ensures Play(Reset(s).state) == Play(Reset(t).state)
    ensures Reset(Stop(s).state) == Reset(s)
  {
  }

  /**
   Recording while playing does not affect playback: a tick after recording
   lands on the same step and sounds the same tone as a tick before it.
   */
  lemma RecordCommutesWithTick(s: SeqState, name: string)
    requires IsCatalogName(name)
    ensures Tick(Record(s, name).state).state == Record(Tick(s).state, name).state
    ensures Tick(Record(s, name).state).tone == Tick(s).tone
  {
  }

  /** On an empty snapshot a tick makes the step NaN and sounds nothing. */
  lemma TickOnEmptySnapshot(s: SeqState)
    requires |s.snapshot| == 0
    ensures Tick(s).state.step == NaN && Tick(s).tone.None?
  {
  }

  /** With only catalog names recorded, every tick on a valid playing state sounds a note. */
  lemma TickAlwaysSounds(s: SeqState)
    requires Inv(s) && s.playing && |s.snapshot| > 0
    ensures Tick(s).tone.Some?
  {
  }
}
