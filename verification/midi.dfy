/**
 Decoding of raw MIDI messages from the controller into catalog note names.
 Only Note-On messages (status byte 144, i.e. Note-On on channel 1) are
 recognised; the note number is mapped to the catalog by subtracting 60
 (middle C), so note numbers 60 to 71 select the twelve catalog entries.
 */
module Midi {
  import opened Options
  import opened Notes

  /** A byte of a MIDI message. */
  type Byte = x: int | 0 <= x < 256

  const NoteOnStatus: int := 144
  /** The note number that selects the first catalog entry. */
  const LowestNoteNumber: int := 60

  /**
   The catalog name selected by a message, or `None` when the message is
   ignored. A message shorter than two bytes has an undefined status or note
   number; such a message selects nothing. A catalog entry with an empty name
   would be falsy and ignored too, although the catalog has none.
   */
  function Decode(data: seq<Byte>): (r: Option<string>)
    ensures r.Some? <==> |data| >= 2 && data[0] == 144 && 60 <= data[1] <= 71
    ensures r.Some? ==> r.value == Catalog[data[1] - 60].name && IsCatalogName(r.value)
  {
    if |data| == 0 || data[0] != NoteOnStatus then None
    else if |data| < 2 then None
    else
      match At(data[1] - LowestNoteNumber)
      case None => None
      case Some(n) =>
        CatalogWellFormed();
        if n.name == "" then None else Some(n.name)
  }

  /** The Note-On message a controller sends for a catalog note. */
  function NoteOnFor(name: string): (data: seq<Byte>)
    requires IsCatalogName(name)
    ensures |data| == 2 && data[0] == NoteOnStatus && 60 <= data[1] <= 71
  {
    var i := IndexOf(name);
    var number: Byte := LowestNoteNumber + i;
    [NoteOnStatus, number]
  }

  /** Decoding the Note-On message of a catalog note gives back that note's name. */
  lemma DecodeNoteOnRoundTrip(name: string)
    requires IsCatalogName(name)
    ensures Decode(NoteOnFor(name)) == Some(name)
  {
  }

  /** Every message that decodes to a name is that name's Note-On message (its first two bytes). */
  lemma DecodeOnlyFromNoteOn(data: seq<Byte>)
    requires Decode(data).Some?
    ensures NoteOnFor(Decode(data).value) == [data[0], data[1]]
  {
    var name := Decode(data).value;
    assert name == Catalog[data[1] - 60].name;
    var i, j := IndexOf(name), data[1] - 60;
    assert Catalog[i].name == name;
    SameNameSamePosition(i, j);
    assert NoteOnFor(name) == [144, 60 + i];
  }

  /**
   Messages just outside what selects a note are ignored: note numbers 72 and
   59 on either side of the catalog's range, and a Note-Off (status 128).
   */
  lemma OutOfRangeMessagesIgnored()
    ensures Decode([144, 72]) == None
    ensures Decode([144, 59]) == None
    ensures Decode([128, 60]) == None
  {
  }
}
