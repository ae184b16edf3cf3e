/**
 The note catalog: twelve notes of the fourth octave with their frequencies,
 looked up by name (the `find` on the table) and by position (indexing the table).
 Frequencies are exact integers in centihertz (hundredths of a hertz), so
 261.63 Hz is 26163.
 */
module Notes {
  import opened Options

  datatype Note = Note(name: string, centihertz: nat)

  /** The catalog, in table order. */
  const Catalog: seq<Note> := [
    Note("C4", 26163),
    Note("C#4", 27718),
    Note("D4", 29366),
    Note("D#4", 31113),
    Note("E4", 32963),
    Note("F4", 34923),
    Note("F#4", 36999),
    Note("G4", 39200),
    Note("G#4", 41530),
    Note("A4", 44000),
    Note("A#4", 46616),
    Note("B4", 49388)
  ]

  /** Number of entries in the catalog. */
  const CatalogSize: nat := 12

  /** True when no two entries of `notes` share a name. */
  predicate DistinctNames(notes: seq<Note>) {
    forall i, j :: 0 <= i < j < |notes| ==> notes[i].name != notes[j].name
  }

  /**
   The position of the first note of `notes` at or after `from` whose name is
   `name`, or `|notes|` when there is none.
   */
  function PositionFrom(notes: seq<Note>, name: string, from: nat): (p: nat)
    requires from <= |notes|
    ensures from <= p <= |notes|
    ensures p < |notes| ==> notes[p].name == name
    decreases |notes| - from
  {
    if from == |notes| then from
    else if notes[from].name == name then from
    else PositionFrom(notes, name, from + 1)
  }

  /** The position of the first note of `notes` named `name`, or `|notes|` when there is none. */
  function PositionOf(notes: seq<Note>, name: string): (p: nat)
    ensures p <= |notes|
    ensures p < |notes| ==> notes[p].name == name
  {
    PositionFrom(notes, name, 0)
  }

  /** No note before the position found has the name searched for. */
  lemma {:induction false} PositionFromIsFirst(notes: seq<Note>, name: string, from: nat)
    requires from <= |notes|
    ensures forall j :: from <= j < PositionFrom(notes, name, from) ==> notes[j].name != name
    decreases |notes| - from
  {
    if from < |notes| && notes[from].name != name {
      PositionFromIsFirst(notes, name, from + 1);
    }
  }

  /** `PositionOf` finds the first note with the name, and `|notes|` exactly when none has it. */
  lemma PositionOfIsFirst(notes: seq<Note>, name: string)
    ensures forall j :: 0 <= j < PositionOf(notes, name) ==> notes[j].name != name
    ensures PositionOf(notes, name) == |notes| <==> forall j :: 0 <= j < |notes| ==> notes[j].name != name
  {
    PositionFromIsFirst(notes, name, 0);
  }

  /**
   The first note of `notes` whose name is `name`, or `None` when no note has
   that name: an array `find` with a name-equality callback.
   */
  function FindByName(notes: seq<Note>, name: string): (r: Option<Note>)
    ensures r.Some? ==> r.value.name == name
    ensures r.Some? ==> PositionOf(notes, name) < |notes| && r.value == notes[PositionOf(notes, name)]
    ensures r.Some? <==> exists j :: 0 <= j < |notes| && notes[j].name == name
  {
    PositionOfIsFirst(notes, name);
    var p := PositionOf(notes, name);
    if p < |notes| then Some(notes[p]) else None
  }

  /** Catalog lookup by name: an entry exactly for catalog names, and it carries the name. */
  function Lookup(name: string): (r: Option<Note>)
    ensures r.Some? <==> IsCatalogName(name)
    ensures r.Some? ==> r.value.name == name
  {
    FindByName(Catalog, name)
  }

  /** True when `name` names a catalog entry. */
  predicate IsCatalogName(name: string) {
    PositionOf(Catalog, name) < |Catalog|
  }

  /** Catalog lookup by position; `None` plays the part of an out-of-range read. */
  function At(i: int): (r: Option<Note>)
    ensures r.Some? <==> 0 <= i < CatalogSize
    ensures r.Some? ==> r.value == Catalog[i] && IsCatalogName(r.value.name)
  {
    if 0 <= i < |Catalog| then
      CatalogEntryFound(i);
      Some(Catalog[i])
    else None
  }

  /** The frequency of a catalog note, in centihertz. */
  function Frequency(name: string): (f: nat)
    requires IsCatalogName(name)
    ensures f > 0
    ensures Lookup(name) == Some(Note(name, f))
  {
    CatalogFrequenciesPositive(name);
    Lookup(name).value.centihertz
  }

  lemma CatalogFrequenciesPositive(name: string)
    requires IsCatalogName(name)
    ensures Lookup(name).value.centihertz > 0
  {
  }

  /** The catalog has twelve entries and no name twice. */
  lemma CatalogWellFormed()
    ensures |Catalog| == CatalogSize
    ensures DistinctNames(Catalog)
    ensures forall k :: 0 <= k < |Catalog| ==> Catalog[k].name != "" && Catalog[k].centihertz > 0
  {
  }

  /** Every catalog entry is found by its own name, and lookup returns exactly that entry. */
  lemma CatalogEntryFound(i: int)
    requires 0 <= i < |Catalog|
    ensures Lookup(Catalog[i].name) == Some(Catalog[i])
  {
    var p := PositionOf(Catalog, Catalog[i].name);
    assert p <= i;
    SameNameSamePosition(p, i);
  }

  /** Two catalog positions holding the same name are the same position. */
  lemma SameNameSamePosition(i: int, j: int)
    requires 0 <= i < |Catalog| && 0 <= j < |Catalog|
    requires Catalog[i].name == Catalog[j].name
    ensures i == j
  {
  }

  /** Name lookup is a function of the catalog: it succeeds exactly on catalog names. */
  lemma LookupExact(name: string, i: int)
    requires 0 <= i < |Catalog|
    ensures Lookup(name) == Some(Catalog[i]) <==> name == Catalog[i].name
  {
    if name == Catalog[i].name {
      CatalogEntryFound(i);
    }
  }

  /** The catalog position of a catalog name. */
  function IndexOf(name: string): (i: nat)
    requires IsCatalogName(name)
    ensures i < CatalogSize && Catalog[i].name == name
    ensures At(i) == Lookup(name)
  {
    var i := PositionOf(Catalog, name);
    CatalogWellFormed();
    CatalogEntryFound(i);
    i
  }
}
