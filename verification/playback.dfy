/**
 Playback over many timer ticks: the steps visited and the tones sounded
 after Play, both as a recursive definition and as the scheduler's loop.
 */
module Playback {
  import opened Options
  import opened Notes
  import opened Sequencer

  /** The step reached from `start` after `n` ticks on a snapshot of `length` notes. */
  function StepAfter(start: Step, length: nat, n: nat): Step
    decreases n
  {
    if n == 0 then start else Next(StepAfter(start, length, n - 1), length)
  }

  /** The tones positions `from` onwards of `snapshot` sound when a tick lands on them. */
  function TableFrom(snapshot: seq<string>, from: nat): (table: seq<Option<nat>>)
    requires from <= |snapshot|
    ensures |table| == |snapshot| - from
    decreases |snapshot| - from
  {
    if from == |snapshot| then []
    else [Sound(snapshot, Index(from))] + TableFrom(snapshot, from + 1)
  }

  /** The tone each position of `snapshot` sounds when a tick lands on it. */
  function ToneTable(snapshot: seq<string>): (table: seq<Option<nat>>)
    ensures |table| == |snapshot|
  {
    TableFrom(snapshot, 0)
  }

  lemma {:induction false} TableFromEntry(snapshot: seq<string>, from: nat, j: nat)
    requires from <= j < |snapshot|
    ensures TableFrom(snapshot, from)[j - from] == Sound(snapshot, Index(j))
    decreases j - from
  {
    var rest := TableFrom(snapshot, from + 1);
    assert TableFrom(snapshot, from) == [Sound(snapshot, Index(from))] + rest;
    if from < j {
      TableFromEntry(snapshot, from + 1, j);
      assert TableFrom(snapshot, from)[j - from] == rest[j - from - 1];
    }
  }

  /** Entry `j` of the table is the tone a tick landing on position `j` sounds. */
  lemma ToneTableEntry(snapshot: seq<string>, j: nat)
    requires j < |snapshot|
    ensures ToneTable(snapshot)[j] == Sound(snapshot, Index(j))
  {
    TableFromEntry(snapshot, 0, j);
  }

  /** The entry of `table` under `step`; nothing for NaN or a position past the end. */
  function TableAt(table: seq<Option<nat>>, step: Step): Option<nat> {
    if step.Index? && step.i < |table| then table[step.i] else None
  }

  /** The tones `n` ticks from `start` sound, oldest first, given the tone of each position. */
  function Collect(table: seq<Option<nat>>, start: Step, n: nat): (tones: seq<nat>)
    ensures |tones| <= n
    decreases n
  {
    if n == 0 then []
    else Collect(table, start, n - 1) + TableAt(table, StepAfter(start, |table|, n)).ToSeq()
  }

  /** The tones `n` ticks from `start` sound on `snapshot`, oldest first. */
  function TonesAfter(snapshot: seq<string>, start: Step, n: nat): seq<nat> {
    Collect(ToneTable(snapshot), start, n)
  }

  /** A tick sounds the table's entry for the step it lands on. */
  lemma TickSoundsTableEntry(s: SeqState)
    ensures Tick(s).tone == TableAt(ToneTable(s.snapshot), Tick(s).state.step)
  {
    var next := Tick(s).state.step;
    if next.Index? && next.i < |s.snapshot| {
      ToneTableEntry(s.snapshot, next.i);
    }
  }

  /** Stepping one past a remainder is the remainder of one more. */
  lemma ModSucc(a: nat, n: nat)
    requires n > 0
    ensures Wrap(Wrap(a, n) + 1, n) == Wrap(a + 1, n)
  {
    var q, r := a / n, a % n;
    assert a == q * n + r;
    WrapIsMod(a, n);
    WrapIsMod(a + 1, n);
    WrapIsMod(r + 1, n);
    if r + 1 < n {
      ModUnique(a + 1, n, q, r + 1);
    } else {
      assert a + 1 == (q + 1) * n + 0;
      ModUnique(a + 1, n, q + 1, 0);
      ModUnique(r + 1, n, 1, 0);
    }
  }

  /** From step 0, `n` ticks leave the step at `Wrap(n, length)`. */
  lemma {:induction false} StepsFromZero(length: nat, n: nat)
    requires length > 0
    ensures StepAfter(Index(0), length, n) == Index(Wrap(n, length))
    decreases n
  {
    if n > 0 {
      StepsFromZero(length, n - 1);
      ModSucc(n - 1, length);
    }
  }

  /** From step 0 on a non-empty snapshot, `n` ticks leave the step at `n % length`. */
  lemma TicksStep(length: nat, n: nat)
    requires length > 0
    ensures StepAfter(Index(0), length, n) == Index(n % length)
  {
    StepsFromZero(length, n);
    WrapIsMod(n, length);
  }

  /**
   From step 0, when every position has a tone, `n` ticks sound `n` tones and
   the `k`-th is the one at position `k + 1`, wrapping around.
   */
  lemma {:induction false} CollectFromZero(table: seq<Option<nat>>, n: nat)
    requires |table| > 0
    requires forall j :: 0 <= j < |table| ==> table[j].Some?
    ensures |Collect(table, Index(0), n)| == n
    ensures forall k :: 0 <= k < n ==>
              Collect(table, Index(0), n)[k] == table[Wrap(k + 1, |table|)].value
    decreases n
  {
    if n > 0 {
      var len := |table|;
      var prev := Collect(table, Index(0), n - 1);
      CollectFromZero(table, n - 1);
      StepsFromZero(len, n);
      var j := Wrap(n, len);
      var tones := Collect(table, Index(0), n);
      assert tones == prev + [table[j].value];
      forall k | 0 <= k < n
        ensures tones[k] == table[Wrap(k + 1, len)].value
      {
        if k < n - 1 {
          assert tones[k] == prev[k];
        }
      }
    }
  }

  /**
   From step 0 on a non-empty snapshot of catalog names, `n` ticks sound `n`
   tones, and the `k`-th of them is the note at position `k + 1` (wrapping):
   the note at position 0 is sounded only after a full cycle.
   */
  lemma TicksTones(snapshot: seq<string>, n: nat)
    requires |snapshot| > 0 && AllCatalogNames(snapshot)
    ensures |TonesAfter(snapshot, Index(0), n)| == n
    ensures forall k :: 0 <= k < n ==>
              TonesAfter(snapshot, Index(0), n)[k] == Frequency(snapshot[(k + 1) % |snapshot|])
  {
    var table := ToneTable(snapshot);
    TableHoldsFrequencies(snapshot);
    CollectFromZeroMod(table, n);
  }

  /** On a snapshot of catalog names, every position's tone is its note's frequency. */
  lemma TableHoldsFrequencies(snapshot: seq<string>)
    requires AllCatalogNames(snapshot)
    ensures forall j :: 0 <= j < |snapshot| ==> ToneTable(snapshot)[j] == Some(Frequency(snapshot[j]))
  {
    forall j | 0 <= j < |snapshot| ensures ToneTable(snapshot)[j] == Some(Frequency(snapshot[j])) {
      PositionTone(snapshot, j);
    }
  }

  /** A position holding a catalog name sounds that name's frequency. */
  lemma PositionTone(snapshot: seq<string>, j: nat)
    requires j < |snapshot| && IsCatalogName(snapshot[j])
    ensures ToneTable(snapshot)[j] == Some(Frequency(snapshot[j]))
  {
    ToneTableEntry(snapshot, j);
    var t := Sound(snapshot, Index(j));
    assert t.Some? && t.value == Frequency(snapshot[j]);
  }

  /** `CollectFromZero` with the position written as a remainder. */
  lemma CollectFromZeroMod(table: seq<Option<nat>>, n: nat)
    requires |table| > 0
    requires forall j :: 0 <= j < |table| ==> table[j].Some?
    ensures |Collect(table, Index(0), n)| == n
    ensures forall k :: 0 <= k < n ==>
              Collect(table, Index(0), n)[k] == table[(k + 1) % |table|].value
  {
    CollectFromZero(table, n);
    forall k | 0 <= k < n
      ensures Collect(table, Index(0), n)[k] == table[(k + 1) % |table|].value
    {
      WrapIsMod(k + 1, |table|);
    }
  }

  /** On an empty snapshot the step becomes NaN at the first tick, and no tick ever sounds. */
  lemma {:induction false} TicksOnEmptySnapshot(start: Step, n: nat)
    ensures n > 0 ==> StepAfter(start, 0, n) == NaN
    ensures TonesAfter([], start, n) == []
    decreases n
  {
    if n > 0 {
      TicksOnEmptySnapshot(start, n - 1);
    }
  }

  /**
   Pressing Play on a stopped sequencer and letting `n` ticks pass: the step
   is `n` modulo the length of the track as it was when Play was pressed, and
   the tones are that track's notes from position 1 on, wrapping around.
   */
  lemma PlayThenTicks(s: SeqState, n: nat)
    requires Inv(s) && !s.playing && |s.track| > 0
    ensures Play(s).state.snapshot == s.track
    ensures StepAfter(Play(s).state.step, |s.track|, n) == Index(n % |s.track|)
    ensures |TonesAfter(s.track, Play(s).state.step, n)| == n
    ensures forall k :: 0 <= k < n ==>
              TonesAfter(s.track, Play(s).state.step, n)[k] == Frequency(s.track[(k + 1) % |s.track|])
  {
    TicksStep(|s.track|, n);
    TicksTones(s.track, n);
  }

  /**
   The scheduler's loop: `n` ticks in a row from `s`, collecting the tones.
   Only the step changes, and the steps and tones are those of the recursive
   definitions `StepAfter` and `TonesAfter`.
   */
  method TickLoop(s: SeqState, n: nat) returns (final: SeqState, tones: seq<nat>)
    ensures final.track == s.track && final.snapshot == s.snapshot && final.playing == s.playing
    ensures final.step == StepAfter(s.step, |s.snapshot|, n)
    ensures tones == TonesAfter(s.snapshot, s.step, n)
  {
    final, tones := s, [];
    var i := 0;
    while i < n
      invariant 0 <= i <= n
      invariant final.track == s.track && final.snapshot == s.snapshot && final.playing == s.playing
      invariant final.step == StepAfter(s.step, |s.snapshot|, i)
      invariant tones == TonesAfter(s.snapshot, s.step, i)
    {
      var o := Tick(final);
      TickExtendsRun(final, s.step, i);
      final, tones := o.state, tones + o.tone.ToSeq();
      i := i + 1;
    }
  }

  /**
   `n` ticks in a row from `s`: from step 0 on a non-empty snapshot they
   visit the steps 1, 2, ... modulo the length and sound the notes there; on
   an empty snapshot they end at NaN and sound nothing.
   */
  method RunTicks(s: SeqState, n: nat) returns (final: SeqState, tones: seq<nat>)
    ensures final.track == s.track && final.snapshot == s.snapshot && final.playing == s.playing
    ensures s.step == Index(0) && |s.snapshot| > 0 ==> final.step == Index(n % |s.snapshot|)
    ensures s.step == Index(0) && |s.snapshot| > 0 && AllCatalogNames(s.snapshot) ==>
              |tones| == n &&
              forall k :: 0 <= k < n ==> tones[k] == Frequency(s.snapshot[(k + 1) % |s.snapshot|])
    ensures |s.snapshot| == 0 ==> tones == [] && (n > 0 ==> final.step == NaN)
  {
    final, tones := TickLoop(s, n);
    TicksSummary(s.snapshot, s.step, n);
  }

  /** One more tick from the state `i` ticks after `start` extends the run by one step. */
  lemma TickExtendsRun(s: SeqState, start: Step, i: nat)
    requires s.step == StepAfter(start, |s.snapshot|, i)
    ensures Tick(s).state.step == StepAfter(start, |s.snapshot|, i + 1)
    ensures TonesAfter(s.snapshot, start, i) + Tick(s).tone.ToSeq() == TonesAfter(s.snapshot, start, i + 1)
  {
    TickSoundsTableEntry(s);
  }

  /** What `n` ticks from `start` amount to, from step 0 or on an empty snapshot. */
  lemma TicksSummary(snapshot: seq<string>, start: Step, n: nat)
    ensures start == Index(0) && |snapshot| > 0 ==> StepAfter(start, |snapshot|, n) == Index(n % |snapshot|)
    ensures start == Index(0) && |snapshot| > 0 && AllCatalogNames(snapshot) ==>
              |TonesAfter(snapshot, start, n)| == n &&
              forall k :: 0 <= k < n ==> TonesAfter(snapshot, start, n)[k] == Frequency(snapshot[(k + 1) % |snapshot|])
    ensures |snapshot| == 0 ==> TonesAfter(snapshot, start, n) == [] && (n > 0 ==> StepAfter(start, |snapshot|, n) == NaN)
  {
    if start == Index(0) && |snapshot| > 0 {
      TicksStep(|snapshot|, n);
      if AllCatalogNames(snapshot) {
        TicksTones(snapshot, n);
      }
    }
    if |snapshot| == 0 {
      TicksOnEmptySnapshot(start, n);
    }
  }

  /**
   Recording C4, D4, C4 and pressing Play: the ticks land on steps 1, 2, 0
   and sound D4, C4, C4.
   */
  lemma RecordedScenario()
    ensures var s := Record(Record(Record(Initial, "C4").state, "D4").state, "C4").state;
            var p := Play(s).state;
            && p.snapshot == ["C4", "D4", "C4"]
            && StepAfter(p.step, |p.snapshot|, 1) == Index(1)
            && StepAfter(p.step, |p.snapshot|, 2) == Index(2)
            && StepAfter(p.step, |p.snapshot|, 3) == Index(0)
            && TonesAfter(p.snapshot, p.step, 3) == [29366, 26163, 26163]
  {
    var track := ["C4", "D4", "C4"];
    var s := Record(Record(Record(Initial, "C4").state, "D4").state, "C4").state;
    assert s.track == track;
    assert Play(s).state == SeqState(Index(0), true, track, track);
    CatalogEntryFound(0);
    CatalogEntryFound(2);
    var table := ToneTable(track);
    ToneTableEntry(track, 0);
    ToneTableEntry(track, 1);
    ToneTableEntry(track, 2);
    assert table == [Some(26163), Some(29366), Some(26163)];
    assert Collect(table, Index(0), 3) == [29366, 26163, 26163];
  }

  /** Playing an empty track: after a tick the step is NaN and nothing sounds, still playing. */
  lemma EmptyTrackScenario()
    ensures var o := Tick(Play(Initial).state);
            o.state.step == NaN && o.tone.None? && o.state.playing
  {
  }
}
