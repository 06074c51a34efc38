/**
 The note scan of a kernel image and the search for its one entry note, on top of the layout
 checks: together, the whole verification of an image.
 */
module KernelNotes {
  import opened KernelLayout
  import opened Scanning
  import opened Wrappers

  const NOTE_HEADER: nat := 12
  const XEN: Bytes := [88, 101, 110]
  const PHYS32_ENTRY: nat := 18

  // Little-endian words

  function FromLittleEndian(b: Bytes): nat {
    if b == [] then 0 else b[0] + 256 * FromLittleEndian(b[1..])
  }

  function ToLittleEndian(n: nat, width: nat): (b: Bytes)
    ensures |b| == width
  {
    if width == 0 then [] else [n % 256] + ToLittleEndian(n / 256, width - 1)
  }

  lemma {:induction false} LittleEndianRoundTrip(n: nat, width: nat)
    requires n < Pow256(width)
    ensures FromLittleEndian(ToLittleEndian(n, width)) == n
  {
    if width > 0 { LittleEndianRoundTrip(n / 256, width - 1); }
  }

  lemma LowByte(low: Byte, high: nat)
    ensures (low + 256 * high) % 256 == low && (low + 256 * high) / 256 == high
  {
  }

  lemma {:induction false} LittleEndianInverts(b: Bytes)
    ensures FromLittleEndian(b) < Pow256(|b|)
    ensures ToLittleEndian(FromLittleEndian(b), |b|) == b
  {
    if b != [] {
      LittleEndianInverts(b[1..]);
      LowByte(b[0], FromLittleEndian(b[1..]));
    }
  }

  lemma FourByteWord()
    ensures Pow256(4) == U32_MAX + 1
  {
    assert Pow256(1) == 256;
    assert Pow256(2) == 0x1_0000;
    assert Pow256(3) == 0x100_0000;
  }

  // Notes

  /** The bytes that round a length up to a multiple of four. */
  function Pad(n: nat): nat { if n % 4 == 0 then 0 else 4 - n % 4 }

  /** A note as it is stored; its name still has its terminating zeros. */
  datatype Note = Note(name: Bytes, kind: nat, desc: Bytes) {
    predicate Valid() { |name| <= U32_MAX && |desc| <= U32_MAX && kind <= U32_MAX }

    function DescAt(): nat { NOTE_HEADER + |name| + Pad(|name|) }

    function Length(): nat { DescAt() + |desc| + Pad(|desc|) }

    function Header(): (h: Bytes)
      ensures |h| == NOTE_HEADER
    {
      ToLittleEndian(|name|, 4) + ToLittleEndian(|desc|, 4) + ToLittleEndian(kind, 4)
    }
  }

  /** Python's slice: what there is of it. */
  function Slice(data: Bytes, at: nat, n: nat): Bytes {
    if at >= |data| then []
    else if at + n <= |data| then data[at..at + n]
    else data[at..]
  }

  function WordAt(data: Bytes, at: nat): nat
    requires at + 4 <= |data|
  {
    FromLittleEndian(data[at..at + 4])
  }

  /** What the scan finds at a cursor. */
  function NoteAt(data: Bytes, at: nat): Reading<Note> {
    if at + NOTE_HEADER > |data| then End
    else
      var namesz, descsz := WordAt(data, at), WordAt(data, at + 4);
      var descAt := at + NOTE_HEADER + namesz + Pad(namesz);
      var name, desc := Slice(data, at + NOTE_HEADER, namesz), Slice(data, descAt, descsz);
      if |name| != namesz || |desc| != descsz then Broken
      else Found(Note(name, WordAt(data, at + 8), desc), descAt + descsz + Pad(descsz))
  }

  function ReaderOf(data: Bytes): nat -> Reading<Note> { (at: nat) => NoteAt(data, at) }

  function NotesFrom(data: Bytes, at: nat): Result<seq<Note>, ()> {
    Scan(ReaderOf(data), |data|, at)
  }

  function NotesIn(data: Bytes): Result<seq<Note>, VerifyError> {
    match NotesFrom(data, 0)
    case Ok(notes) => Ok(notes)
    case Err(_) => Err(TruncatedNote)
  }

  lemma NotesFromStep(data: Bytes, at: nat, reading: Reading<Note>)
    requires reading == NoteAt(data, at) && at < |data|
    ensures reading == End ==> NotesFrom(data, at) == Ok([])
    ensures reading == Broken ==> NotesFrom(data, at) == Err(())
    ensures reading.Found? && reading.next > at ==>
      NotesFrom(data, at) == Prepend([reading.item], NotesFrom(data, reading.next))
  {
    assert ReaderOf(data)(at) == reading;
  }

  /** One turn of the scan: the note at the cursor and the cursor after it. */
  method ReadNote(data: Bytes, at: nat) returns (r: Reading<Note>)
    requires at + NOTE_HEADER <= |data|
    ensures r == NoteAt(data, at)
  {
    var cursor := at;
    var namesz := WordAt(data, cursor);
    var descsz := WordAt(data, cursor + 4);
    var kind := WordAt(data, cursor + 8);
    cursor := cursor + NOTE_HEADER;
    var name := Slice(data, cursor, namesz);
    cursor := cursor + namesz + Pad(namesz);
    var desc := Slice(data, cursor, descsz);
    cursor := cursor + descsz + Pad(descsz);
    if |name| != namesz || |desc| != descsz { return Broken; }
    r := Found(Note(name, kind, desc), cursor);
  }

  lemma ReadingMovesOn(data: Bytes, at: nat)
    requires at + NOTE_HEADER <= |data|
    ensures NoteAt(data, at) != End && (NoteAt(data, at).Found? ==> NoteAt(data, at).next > at)
  {
  }

  /** The scan of one note segment. */
  method ScanNotes(data: Bytes) returns (r: Result<seq<Note>, VerifyError>)
    ensures r == NotesIn(data)
  {
    var cursor: nat := 0;
    var notes: seq<Note> := [];
    PrependTwice([], [], NotesFrom(data, 0));
    while cursor + NOTE_HEADER <= |data|
      invariant NotesFrom(data, 0) == Prepend(notes, NotesFrom(data, cursor))
      decreases |data| + NOTE_HEADER - cursor
    {
      var reading := ReadNote(data, cursor);
      ReadingMovesOn(data, cursor);
      NotesFromStep(data, cursor, reading);
      if reading.Broken? { return Err(TruncatedNote); }
      PrependTwice(notes, [reading.item], NotesFrom(data, reading.next));
      notes := notes + [reading.item];
      cursor := reading.next;
    }
    assert notes + [] == notes;
    if cursor < |data| { NotesFromStep(data, cursor, End); }
    r := Ok(notes);
  }

  // Laid-out notes: an independent reading of the same bytes

  /** The note stands at the cursor; what its padding holds, or lacks at the end, is open. */
  predicate StandsAt(data: Bytes, at: nat, note: Note) {
    && Slice(data, at, NOTE_HEADER) == note.Header()
    && Slice(data, at + NOTE_HEADER, |note.name|) == note.name
    && Slice(data, at + note.DescAt(), |note.desc|) == note.desc
  }

  /** The notes stand one after another from the start, and no further one fits. */
  ghost predicate LaidOut(data: Bytes, notes: seq<Note>, at: seq<nat>) {
    && |at| == |notes| + 1 && at[0] == 0
    && (forall i :: 0 <= i < |notes| ==>
          && notes[i].Valid() && StandsAt(data, at[i], notes[i])
          && at[i + 1] == at[i] + notes[i].Length())
    && at[|notes|] + NOTE_HEADER > |data|
  }

  lemma SliceOfSlice(data: Bytes, a: nat, b: nat, i: nat, j: nat)
    requires i <= j && a + j <= b <= |data|
    ensures data[a..b][i..j] == data[a + i..a + j]
  {
    var whole := data[a..b];
    forall k | 0 <= k < j - i ensures whole[i..j][k] == data[a + i..a + j][k] {
      assert whole[i + k] == data[a + i + k];
    }
  }

  lemma HeaderWords(data: Bytes, at: nat, a: Bytes, b: Bytes, c: Bytes)
    requires |a| == |b| == |c| == 4
    ensures Slice(data, at, NOTE_HEADER) == a + b + c <==>
      && at + NOTE_HEADER <= |data|
      && data[at..at + 4] == a && data[at + 4..at + 8] == b && data[at + 8..at + 12] == c
  {
    if at + NOTE_HEADER <= |data| {
      var h := data[at..at + 12];
      SliceOfSlice(data, at, at + 12, 0, 4);
      SliceOfSlice(data, at, at + 12, 4, 8);
      SliceOfSlice(data, at, at + 12, 8, 12);
      assert h == h[0..4] + h[4..8] + h[8..12];
    } else {
      assert |Slice(data, at, NOTE_HEADER)| < NOTE_HEADER;
    }
  }

  lemma FourBytesBound(b: Bytes)
    requires |b| == 4
    ensures FromLittleEndian(b) <= U32_MAX
  {
    FourByteWord();
    LittleEndianInverts(b);
  }

  lemma FourBytes(b: Bytes, n: nat)
    requires |b| == 4 && n <= U32_MAX
    ensures FromLittleEndian(b) == n <==> b == ToLittleEndian(n, 4)
  {
    FourByteWord();
    LittleEndianRoundTrip(n, 4);
    LittleEndianInverts(b);
  }

  lemma StandingWords(data: Bytes, at: nat, note: Note)
    requires note.Valid() && Slice(data, at, NOTE_HEADER) == note.Header()
    ensures at + NOTE_HEADER <= |data|
    ensures WordAt(data, at) == |note.name| && WordAt(data, at + 4) == |note.desc|
    ensures WordAt(data, at + 8) == note.kind
  {
    HeaderWords(data, at, ToLittleEndian(|note.name|, 4), ToLittleEndian(|note.desc|, 4),
                ToLittleEndian(note.kind, 4));
    FourBytes(data[at..at + 4], |note.name|);
    FourBytes(data[at + 4..at + 8], |note.desc|);
    FourBytes(data[at + 8..at + 12], note.kind);
  }

  lemma StandingNoteIsRead(data: Bytes, at: nat, note: Note)
    requires note.Valid() && StandsAt(data, at, note)
    ensures at < |data| && NoteAt(data, at) == Found(note, at + note.Length())
  {
    StandingWords(data, at, note);
  }

  lemma WordsMakeHeader(data: Bytes, at: nat, note: Note)
    requires at + NOTE_HEADER <= |data|
    requires WordAt(data, at) == |note.name| && WordAt(data, at + 4) == |note.desc|
    requires WordAt(data, at + 8) == note.kind
    ensures note.Valid() && Slice(data, at, NOTE_HEADER) == note.Header()
  {
    var a, b, c := data[at..at + 4], data[at + 4..at + 8], data[at + 8..at + 12];
    FourBytesBound(a);
    FourBytesBound(b);
    FourBytesBound(c);
    FourBytes(a, |note.name|);
    FourBytes(b, |note.desc|);
    FourBytes(c, note.kind);
    HeaderWords(data, at, a, b, c);
  }

  lemma ReadNoteStands(data: Bytes, at: nat) returns (note: Note)
    requires NoteAt(data, at).Found?
    ensures note.Valid() && StandsAt(data, at, note)
    ensures NoteAt(data, at) == Found(note, at + note.Length())
  {
    var namesz, descsz := WordAt(data, at), WordAt(data, at + 4);
    var name := Slice(data, at + NOTE_HEADER, namesz);
    var desc := Slice(data, at + NOTE_HEADER + namesz + Pad(namesz), descsz);
    note := Note(name, WordAt(data, at + 8), desc);
    WordsMakeHeader(data, at, note);
  }

  /** The scan returns exactly the notes laid out in the data. */
  lemma LaidOutNotesAreScanned(data: Bytes, notes: seq<Note>, at: seq<nat>)
    requires LaidOut(data, notes, at)
    ensures NotesIn(data) == Ok(notes)
  {
    var read := ReaderOf(data);
    forall i | 0 <= i < |notes|
      ensures at[i] < |data| && at[i] < at[i + 1] && read(at[i]) == Found(notes[i], at[i + 1])
    {
      StandingNoteIsRead(data, at[i], notes[i]);
    }
    assert read(at[|notes|]) == End;
    ScanAlong(read, |data|, notes, at);
  }

  /** And a scan that succeeds has read such a layout, so it fails only where there is none. */
  lemma ScannedNotesAreLaidOut(data: Bytes) returns (at: seq<nat>)
    requires NotesIn(data).Ok?
    ensures LaidOut(data, NotesIn(data).value, at)
  {
    var read, notes := ReaderOf(data), NotesIn(data).value;
    at := ScanLeavesCursors(read, |data|, 0);
    forall i | 0 <= i < |notes|
      ensures notes[i].Valid() && StandsAt(data, at[i], notes[i])
      ensures at[i + 1] == at[i] + notes[i].Length()
    {
      assert NoteAt(data, at[i]) == read(at[i]) == Found(notes[i], at[i + 1]);
      var note := ReadNoteStands(data, at[i]);
    }
    assert read(at[|notes|]) == NoteAt(data, at[|notes|]);
  }

  // Writing notes

  function Zeros(n: nat): (z: Bytes)
    ensures |z| == n
  {
    seq(n, _ => 0)
  }

  function Encode(note: Note): (b: Bytes)
    ensures |b| == note.Length()
  {
    note.Header() + note.name + Zeros(Pad(|note.name|)) + note.desc + Zeros(Pad(|note.desc|))
  }

  function EncodeAll(notes: seq<Note>): Bytes { Concat(Encode, notes) }

  lemma SliceOfMiddle(before: Bytes, middle: Bytes, rest: Bytes)
    ensures Slice(before + middle + rest, |before|, |middle|) == middle
  {
  }

  /** Three places of seven pieces laid end to end. */
  lemma Pieces(
    before: Bytes, header: Bytes, name: Bytes, pad: Bytes, desc: Bytes, last: Bytes, rest: Bytes)
    ensures
      var data := before + (header + name + pad + desc + last) + rest;
      && data == before + header + (name + pad + desc + last + rest)
      && data == before + header + name + (pad + desc + last + rest)
      && data == before + header + name + pad + desc + (last + rest)
  {
  }

  lemma EncodedNoteStands(before: Bytes, note: Note, rest: Bytes)
    ensures StandsAt(before + Encode(note) + rest, |before|, note)
  {
    var header, name, desc := note.Header(), note.name, note.desc;
    var pad, last := Zeros(Pad(|name|)), Zeros(Pad(|desc|));
    Pieces(before, header, name, pad, desc, last, rest);
    SliceOfMiddle(before, header, name + pad + desc + last + rest);
    SliceOfMiddle(before + header, name, pad + desc + last + rest);
    SliceOfMiddle(before + header + name + pad, desc, last + rest);
  }

  lemma EachEncodedStands(notes: seq<Note>, i: nat, tail: Bytes)
    requires i < |notes|
    ensures StandsAt(EncodeAll(notes) + tail, |EncodeAll(notes[..i])|, notes[i])
    ensures |EncodeAll(notes[..i + 1])| == |EncodeAll(notes[..i])| + notes[i].Length()
  {
    ConcatNext(Encode, notes, i);
    var after := ConcatAround(Encode, notes, i, tail);
    EncodedNoteStands(EncodeAll(notes[..i]), notes[i], after);
  }

  /** Scanning what was written returns the notes, whatever too-short tail follows them. */
  lemma ScanInvertsEncode(notes: seq<Note>, tail: Bytes)
    requires (forall i :: 0 <= i < |notes| ==> notes[i].Valid()) && |tail| < NOTE_HEADER
    ensures NotesIn(EncodeAll(notes) + tail) == Ok(notes)
  {
    var data := EncodeAll(notes) + tail;
    var at: seq<nat> := seq(
      |notes| + 1, i requires 0 <= i <= |notes| => |EncodeAll(notes[..i])|);
    forall i | 0 <= i < |notes|
      ensures StandsAt(data, at[i], notes[i]) && at[i + 1] == at[i] + notes[i].Length()
    {
      EachEncodedStands(notes, i, tail);
    }
    assert notes[..|notes|] == notes;
    LaidOutNotesAreScanned(data, notes, at);
  }

  // The entry note

  /** A name without its terminating zeros. */
  function StripZeros(name: Bytes): Bytes {
    if name != [] && name[|name| - 1] == 0 then StripZeros(name[..|name| - 1]) else name
  }

  function ReadExact(file: Bytes, offset: nat, size: nat): Result<Bytes, VerifyError> {
    var data := Slice(file, offset, size);
    if |data| != size then Err(ShortRead) else Ok(data)
  }

  /** The notes of all note segments, in order. */
  function AllNotes(file: Bytes, phdrs: seq<Segment>): Result<seq<Note>, VerifyError> {
    if phdrs == [] then Ok([])
    else if phdrs[0].kind != PT_NOTE || phdrs[0].filesz == 0 then AllNotes(file, phdrs[1..])
    else
      match ReadExact(file, phdrs[0].offset, phdrs[0].filesz)
      case Err(e) => Err(e)
      case Ok(data) =>
        match NotesIn(data)
        case Err(e) => Err(e)
        case Ok(notes) => Prepend(notes, AllNotes(file, phdrs[1..]))
  }

  predicate IsEntryNote(note: Note) {
    StripZeros(note.name) == XEN && note.kind == PHYS32_ENTRY
  }

  function Matches(notes: seq<Note>): seq<Note> { Kept(IsEntryNote, notes) }

  function EntryFrom(matches: seq<Note>): Result<nat, VerifyError> {
    if matches == [] then Err(NoEntryNote)
    else if |matches| > 1 then Err(ManyEntryNotes)
    else if |matches[0].desc| != 4 && |matches[0].desc| != 8 then Err(BadEntrySize)
    else
      var entry := FromLittleEndian(matches[0].desc);
      if entry == 0 || entry >= FOUR_GIB then Err(BadEntry) else Ok(entry)
  }

  /** The descriptor is a little-endian entry address of four or eight bytes. */
  predicate Describes(desc: Bytes, entry: nat) {
    (|desc| == 4 || |desc| == 8) && FromLittleEndian(desc) == entry && 0 < entry < FOUR_GIB
  }

  /** The entry found is the one described by the only entry note there is. */
  lemma EntryIsTheOnlyOne(notes: seq<Note>, entry: nat)
    ensures EntryFrom(Matches(notes)) == Ok(entry) <==>
      exists i: nat :: Only(IsEntryNote, notes, i) && Describes(notes[i].desc, entry)
  {
    if EntryFrom(Matches(notes)) == Ok(entry) {
      var i := OneKept(IsEntryNote, notes);
    }
    if i: nat :| Only(IsEntryNote, notes, i) && Describes(notes[i].desc, entry) {
      OnlyIsKept(IsEntryNote, notes, i);
    }
  }

  function FindEntry(file: Bytes, phdrs: seq<Segment>): Result<nat, VerifyError> {
    match AllNotes(file, phdrs)
    case Err(e) => Err(e)
    case Ok(notes) => EntryFrom(Matches(notes))
  }

  method CollectMatches(notes: seq<Note>) returns (matches: seq<Note>)
    ensures matches == Matches(notes)
  {
    matches := [];
    for i := 0 to |notes|
      invariant matches == Matches(notes[..i])
    {
      KeptNext(IsEntryNote, notes, i);
      if IsEntryNote(notes[i]) { matches := matches + [notes[i]]; }
    }
    assert notes[..|notes|] == notes;
  }

  /** The search over the note segments, which stops at the first unreadable one. */
  method FindPvhEntry(file: Bytes, phdrs: seq<Segment>) returns (r: Result<nat, VerifyError>)
    ensures r == FindEntry(file, phdrs)
  {
    var matches: seq<Note> := [];
    ghost var seen: seq<Note> := [];
    PrependTwice([], [], AllNotes(file, phdrs));
    assert phdrs[0..] == phdrs;
    for i := 0 to |phdrs|
      invariant matches == Matches(seen)
      invariant AllNotes(file, phdrs) == Prepend(seen, AllNotes(file, phdrs[i..]))
    {
      assert phdrs[i..][1..] == phdrs[i + 1..];
      if phdrs[i].kind != PT_NOTE || phdrs[i].filesz == 0 { continue; }
      var data := ReadExact(file, phdrs[i].offset, phdrs[i].filesz);
      if data.Err? { return Err(data.error); }
      var notes := ScanNotes(data.value);
      if notes.Err? { return Err(notes.error); }
      var more := CollectMatches(notes.value);
      PrependTwice(seen, notes.value, AllNotes(file, phdrs[i + 1..]));
      KeptAppend(IsEntryNote, seen, notes.value);
      matches, seen := matches + more, seen + notes.value;
    }
    assert seen + [] == seen;
    r := EntryFrom(matches);
  }

  // The whole verification

  function Verify(file: Bytes, phdrs: seq<Segment>): Result<(nat, Segment), VerifyError> {
    match CheckLoads(phdrs)
    case Err(e) => Err(e)
    case Ok(loads) =>
      match FindEntry(file, phdrs)
      case Err(e) => Err(e)
      case Ok(entry) =>
        match CheckEntry(entry, loads)
        case Err(e) => Err(e)
        case Ok(segment) => Ok((entry, segment))
  }

  /**
   An image is accepted with an entry and a segment exactly when its layout is good, every note
   segment can be read, exactly one note is an entry note and its descriptor is that entry, and
   the segment is executable and holds the entry in its file-backed part.
   */
  lemma AcceptedIffSound(file: Bytes, phdrs: seq<Segment>, entry: nat, segment: Segment)
    ensures Verify(file, phdrs) == Ok((entry, segment)) <==>
      && GoodLayout(LoadsOf(phdrs))
      && AllNotes(file, phdrs).Ok?
      && (exists i: nat ::
            var notes := AllNotes(file, phdrs).value;
            Only(IsEntryNote, notes, i) && Describes(notes[i].desc, entry))
      && segment in LoadsOf(phdrs) && IsEntrySegment(entry, segment)
  {
    LayoutAcceptedIffDisjoint(phdrs);
    if AllNotes(file, phdrs).Ok? { EntryIsTheOnlyOne(AllNotes(file, phdrs).value, entry); }
    if GoodLayout(LoadsOf(phdrs)) { EntryAcceptedIffBacked(entry, LoadsOf(phdrs)); }
  }
}
