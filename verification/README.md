# Step sequencer — a Dafny model

This project models the core of the browser step sequencer in
`sequencer_frontend/src/App.js`. The sequencer has a twelve-note catalog,
C4 to B4 with their frequencies. A note is recorded from an on-screen button
or from a MIDI Note-On message: it is appended to the sound track and sounds
at once. Play, Stop and Reset control playback. While playing, a timer ticks
once a second. Each tick advances the current step modulo the track's length
and sounds the note under the new step.

The model is a deterministic state machine with one pure transition per
event. Each transition returns the new state and the tone it sounds, if any.

| file | module | contents |
|---|---|---|
| `options.dfy` | `Options` | `Option<T>` |
| `notes.dfy` | `Notes` | the note catalog; lookup by name (the array `find`) and by position |
| `midi.dfy` | `Midi` | decoding a Note-On message into a catalog name, and its inverse |
| `sequencer.dfy` | `Sequencer` | state, Play, Stop, Reset, Record, MIDI, timer tick, invariant |
| `playback.dfy` | `Playback` | runs of many ticks, as a recursive definition and as a loop |

Modelling choices:

- **Frequencies are integer centihertz.** For example, 261.63 Hz is `26163`.
- **The step can be NaN.** The source computes `(prevStep + 1) % soundTrack.length`. On an empty track this divides by zero, so the step becomes NaN. Every later tick keeps it NaN, and `soundTrack[NaN]` is `undefined`, so nothing sounds. The model's `Step` is `Index(i) | NaN`.
- **Ticks read a snapshot of the track.** The timer callback is created by the effect that runs when `isPlaying` changes. It keeps reading the `soundTrack` of the render in which playback started. The state therefore has a `snapshot` field: the track as it was when Play was pressed from idle. Notes recorded during playback join the live `track` but not the snapshot (`Sequencer.RecordCommutesWithTick`). Because that effect is keyed on `isPlaying` alone, Play while already playing keeps the running timer and its snapshot.
- **Timer events arrive only while playing.** The interval is cleared when playback stops, so `Apply(s, TimerFired)` on a stopped state does nothing.
- **`Wrap` stands for `%`.** JavaScript's `%` on non-negative operands is written as `Wrap`, by repeated subtraction. `Sequencer.WrapIsMod` proves that it equals Dafny's `%`.

## Model

| member | source | states |
|---|---|---|
| Notes.CatalogWellFormed | sequencer_frontend/src/App.js:4-17 | the catalog has twelve entries, no name occurs twice, every name is non-empty and every frequency positive |
| Notes.PositionOfIsFirst | sequencer_frontend/src/App.js:46 | the search `find` performs stops at the first entry carrying the name, and reports "none" exactly when no entry carries it |
| Notes.FindByName | sequencer_frontend/src/App.js:46 | an entry is found if and only if some entry carries the name; a found entry carries the searched name and is the entry at the first matching position |
| Notes.Lookup | sequencer_frontend/src/App.js:46 | name lookup in the catalog finds an entry exactly for catalog names, and the entry found carries the name |
| Notes.CatalogEntryFound | sequencer_frontend/src/App.js:4-17 | looking up any catalog entry's name returns exactly that entry |
| Notes.LookupExact | sequencer_frontend/src/App.js:46 | lookup returns entry `i` if and only if the name is entry `i`'s name |
| Notes.At | sequencer_frontend/src/App.js:84 | reading the catalog by position yields an entry exactly for positions 0 to 11, and that entry's name is found again by name lookup |
| Notes.Frequency | sequencer_frontend/src/App.js:76 | a catalog name has a positive frequency, and it is the frequency of the entry that name lookup returns |
| Notes.IndexOf | sequencer_frontend/src/App.js:84 | a catalog name sits at a position below twelve, and reading that position returns the same entry as name lookup |
| Midi.Decode | sequencer_frontend/src/App.js:81-86 | a message yields a note name if and only if its status byte is 144 and its note number is 60 to 71; the name is catalog entry `number - 60` |
| Midi.DecodeNoteOnRoundTrip | sequencer_frontend/src/App.js:81-86 | decoding the Note-On message of any catalog note gives back that note's name |
| Midi.DecodeOnlyFromNoteOn | sequencer_frontend/src/App.js:82-85 | every message that decodes to a name begins with exactly that name's Note-On status and note number |
| Midi.OutOfRangeMessagesIgnored | sequencer_frontend/src/App.js:83-85 | note number 72 and note number 59 are ignored, and so is a message with status 128 (Note-Off) |
| Sequencer.Record | sequencer_frontend/src/App.js:74-77 | recording appends the name: the length grows by one, the old track is a prefix, and the last entry is the name; the step, flag and snapshot are kept, and the note's catalog frequency sounds |
| Sequencer.RecordPreservesInv | sequencer_frontend/src/App.js:74-75 | recording a catalog name keeps the track all catalog names and keeps the snapshot a prefix of the track |
| Sequencer.HandleMidi | sequencer_frontend/src/App.js:81-86 | a message that decodes records its note; any other message leaves the state unchanged and silent |
| Sequencer.MidiActsLikeButton | sequencer_frontend/src/App.js:81-86 | receiving a note's Note-On message has exactly the effect of pressing that note's button |
| Sequencer.IgnoredMidiChangesNothing | sequencer_frontend/src/App.js:83-85 | any message other than a Note-On for notes 60 to 71 changes nothing and sounds nothing |
| Sequencer.Play | sequencer_frontend/src/App.js:60-63 | Play sets the playing flag and step 0 and keeps the track; from idle it takes the current track as the snapshot, and while already playing it keeps the old snapshot |
| Sequencer.Stop | sequencer_frontend/src/App.js:65-67 | Stop clears the playing flag and keeps the step, the track and the snapshot |
| Sequencer.StopHaltsPlayback | sequencer_frontend/src/App.js:53-55 | after Stop, a timer event changes and sounds nothing; Play then restarts at step 0 on the track as it is at that moment |
| Sequencer.Reset | sequencer_frontend/src/App.js:69-72 | Reset clears the playing flag, rewinds to step 0 and keeps the track |
| Sequencer.ResetIdempotent | sequencer_frontend/src/App.js:69-72 | Reset twice is Reset once |
| Sequencer.ResetForgetsPlayback | sequencer_frontend/src/App.js:69-72 | from two states with the same track, Play after Reset gives the same state; Stop before Reset makes no difference |
| Sequencer.WrapIsMod | sequencer_frontend/src/App.js:44 | the wrap-around the model uses equals the remainder operator |
| Sequencer.Next | sequencer_frontend/src/App.js:44 | the next step is one further, wrapping, on a non-empty snapshot; it is NaN from NaN or on an empty snapshot |
| Sequencer.Sound | sequencer_frontend/src/App.js:45-47 | a tick sounds a tone if and only if the step lies inside the snapshot and the note there is a catalog name; the tone is that note's frequency |
| Sequencer.Tick | sequencer_frontend/src/App.js:43-48 | a tick changes only the step, moves it to the next step on the snapshot, and sounds the note found there |
| Sequencer.TickSpec | sequencer_frontend/src/App.js:43-48 | on a non-empty snapshot the step becomes `(step + 1) % length`, which lies inside the snapshot; a tone sounds if and only if the note there is in the catalog, and it is that note's frequency; the track is unchanged |
| Sequencer.TickOnEmptySnapshot | sequencer_frontend/src/App.js:44-47 | on an empty snapshot a tick makes the step NaN and sounds nothing |
| Sequencer.TickAlwaysSounds | sequencer_frontend/src/App.js:45-47 | in a reachable playing state with a non-empty snapshot, every tick sounds a note |
| Sequencer.RecordCommutesWithTick | sequencer_frontend/src/App.js:40-58 | recording during playback does not change the step a tick lands on or the tone it sounds, because the timer reads the track from when playback started |
| Sequencer.InitialInv | sequencer_frontend/src/App.js:20-23 | the initial state (step 0, stopped, empty track) satisfies the invariant |
| Sequencer.ApplyPreservesInv | sequencer_frontend/src/App.js:40-86 | every event keeps the invariant: the track holds only catalog names, the snapshot is a prefix of the track, and while playing a non-empty snapshot the step lies inside it |
| Sequencer.StepWithinTrack | sequencer_frontend/src/App.js:117-121 | in a reachable state, while playing a non-empty snapshot, the current step indexes the live track, so the highlighted position exists |
| Sequencer.Apply | sequencer_frontend/src/App.js:40-86 | the response to any event only ever extends the track, by at most one note, and a timer event while stopped changes nothing and sounds nothing |
| Playback.ToneTableEntry | sequencer_frontend/src/App.js:45-47 | entry `j` of the tone table is the tone a tick landing on position `j` sounds |
| Playback.TicksStep | sequencer_frontend/src/App.js:43-48 | from step 0, after `n` ticks the step is `n % length` |
| Playback.CollectFromZero | sequencer_frontend/src/App.js:43-48 | when every position has a tone, `n` ticks from step 0 sound `n` tones, and tone `k` is the one at position `(k + 1)` modulo the length |
| Playback.TableHoldsFrequencies | sequencer_frontend/src/App.js:45-47 | on a track of catalog names, every position's tone is its note's catalog frequency |
| Playback.TicksTones | sequencer_frontend/src/App.js:43-48 | from step 0 on a track of catalog names, `n` ticks sound `n` tones, and tone `k` is the frequency of note `(k + 1) % length`; position 0 sounds only after a full cycle |
| Playback.TicksOnEmptySnapshot | sequencer_frontend/src/App.js:44-47 | on an empty snapshot the step is NaN from the first tick on, and no tick ever sounds |
| Playback.PlayThenTicks | sequencer_frontend/src/App.js:42-63 | after Play from idle the snapshot is the track; `n` ticks later the step is `n % length`, and tone `k` is the frequency of note `(k + 1) % length` |
| Playback.TickExtendsRun | sequencer_frontend/src/App.js:43-48 | one more tick moves the run one step further and appends the tone it sounds |
| Playback.TickLoop | sequencer_frontend/src/App.js:42-50 | the loop of `n` ticks changes only the step, and its final step and collected tones are exactly those of the recursive definitions of `n` ticks |
| Playback.TicksSummary | sequencer_frontend/src/App.js:43-48 | from step 0 on a non-empty snapshot, `n` ticks end at `n % length` and, on catalog names, tone `k` is the frequency of note `(k + 1) % length`; on an empty snapshot no tone ever sounds and the step is NaN after the first tick |
| Playback.RunTicks | sequencer_frontend/src/App.js:42-50 | `n` ticks in a row change only the step; from step 0 the step ends at `n % length` and tone `k` is the frequency of note `(k + 1) % length`; an empty snapshot collects no tones and ends at NaN |
| Playback.RecordedScenario | sequencer_frontend/src/App.js:43-77 | after recording C4, D4, C4 and pressing Play, ticks land on steps 1, 2, 0 and sound 293.66, 261.63 and 261.63 Hz |
| Playback.EmptyTrackScenario | sequencer_frontend/src/App.js:44-47 | playing an empty track: after one tick the step is NaN, nothing sounds, and the sequencer is still playing |

## Left out

- Sound output (`playSound`, lines 30-38): the Web Audio oscillator, its wave type and its 0.5 s duration are left out. A transition returns the frequency it would play.
- The timer itself (`setInterval`, `clearInterval`, `intervalId`, lines 25-28 and 40-58): the 1000 ms period and the clean-up of intervals are not modelled. Ticks are `TimerFired` events, delivered only while playing.
- MIDI access (`navigator.requestMIDIAccess`, `onmidimessage`, lines 89-106): attaching and detaching the handler is I/O and is left out. A message is modelled as the event `MidiMessage(data)`.
- Rendering (lines 108-132): the React components, the display of `currentStep + 1` and the disabled states of the buttons are left out. `Apply` accepts every event in every state, which is at least as permissive as the buttons.
- Notes.Frequency: frequencies are integer centihertz, not JavaScript floating-point numbers. All catalog frequencies have exactly two decimals, so no value is lost.
- Sequencer.Record: requires a catalog name. In the source, `find(...).frequency` would throw on any other name, and both callers (the note buttons and the MIDI decoder) only pass catalog names.
- Midi.Decode: a message shorter than two bytes is treated as ignored. In the source, the missing status or note number is `undefined`, which fails the status test or selects no catalog entry.
- Sequencer.Tick: the empty-track tick is modelled as it is written. The step becomes NaN rather than the tick doing nothing, so a later Reset or Play is what brings the step back to 0.
- Sequencer.Play: playback reads the track as it was when playback last started from stopped, not the current track, because the timer closure captured it.
