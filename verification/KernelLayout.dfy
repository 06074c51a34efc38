/**
 The layout checks of a kernel image: its load segments must lie in the low four gigabytes and
 be disjoint, and the entry a machine monitor jumps to must be in code that comes from the file.
 */
module KernelLayout {
  import opened Sorting
  import opened Wrappers

  const MIN_PADDR: nat := 0x0100_0000
  const FOUR_GIB: nat := 0x1_0000_0000
  const PT_LOAD := 1
  const PT_NOTE := 4

  /** A program header, as far as it is looked at. */
  datatype Segment = Segment(
    kind: nat, flags: nat, offset: nat, paddr: nat, filesz: nat, memsz: nat)
  {
    function End(): nat { paddr + memsz }

    predicate Executable() { flags % 2 == 1 }

    predicate Holds(address: nat) { paddr <= address < End() }

    predicate HoldsFromFile(address: nat) { paddr <= address < paddr + filesz }
  }

  datatype VerifyError =
    | NoLoads | FileLargerThanMemory | BelowMinimum | CrossesFourGib | Overlap
    | ShortRead | TruncatedNote | NoEntryNote | ManyEntryNotes | BadEntrySize | BadEntry
    | EntryNotExecutable | EntryZeroFilled | EntryOutside

  // Load segments

  function LoadsOf(phdrs: seq<Segment>): seq<Segment> {
    if phdrs == [] then []
    else if phdrs[0].kind == PT_LOAD then [phdrs[0]] + LoadsOf(phdrs[1..])
    else LoadsOf(phdrs[1..])
  }

  predicate InBounds(s: Segment) {
    s.filesz <= s.memsz && MIN_PADDR <= s.paddr && s.End() <= FOUR_GIB
  }

  function BoundsError(s: Segment): (e: Option<VerifyError>)
    ensures e.None? <==> InBounds(s)
  {
    if s.filesz > s.memsz then Some(FileLargerThanMemory)
    else if s.paddr < MIN_PADDR then Some(BelowMinimum)
    else if s.End() > FOUR_GIB then Some(CrossesFourGib)
    else None
  }

  function FirstBoundsError(loads: seq<Segment>): (e: Option<VerifyError>)
    ensures e.None? <==> forall s <- loads :: InBounds(s)
  {
    if loads == [] then None
    else if BoundsError(loads[0]).Some? then BoundsError(loads[0])
    else FirstBoundsError(loads[1..])
  }

  function Nonempty(segments: seq<Segment>): (kept: seq<Segment>)
    ensures forall s <- kept :: s.memsz > 0
  {
    if segments == [] then []
    else if segments[0].memsz > 0 then [segments[0]] + Nonempty(segments[1..])
    else Nonempty(segments[1..])
  }

  // Disjointness

  /** The order the segments are sorted by. */
  predicate StartsFirst(a: Segment, b: Segment) { a.paddr <= b.paddr }

  /** The segments share no byte. */
  predicate Apart(a: Segment, b: Segment) { a.End() <= b.paddr || b.End() <= a.paddr }

  /** What the loop over neighbours checks. */
  predicate NeighboursApart(s: seq<Segment>) {
    forall i :: 0 <= i < |s| - 1 ==> s[i].End() <= s[i + 1].paddr
  }

  /** In address order, disjoint neighbours make all of them disjoint, and only they do. */
  lemma NeighboursSuffice(s: seq<Segment>)
    requires Pairwise(StartsFirst, s) && forall x <- s :: x.memsz > 0
    ensures NeighboursApart(s) <==> Pairwise(Apart, s)
  {
    if NeighboursApart(s) {
      forall i, j | 0 <= i < j < |s| ensures Apart(s[i], s[j]) {
        assert s[i].End() <= s[i + 1].paddr;
        if i + 1 < j { assert StartsFirst(s[i + 1], s[j]); }
      }
    }
    if Pairwise(Apart, s) {
      forall i | 0 <= i < |s| - 1 ensures s[i].End() <= s[i + 1].paddr {
        assert Apart(s[i], s[i + 1]) && StartsFirst(s[i], s[i + 1]);
        assert s[i + 1] in s && s[i] in s;
      }
    }
  }

  /** So sorting and looking at neighbours decides whether any two overlap. */
  lemma SortedNeighboursSuffice(s: seq<Segment>)
    requires forall x <- s :: x.memsz > 0
    ensures NeighboursApart(Sorted(StartsFirst, s)) <==> Pairwise(Apart, s)
  {
    SortedIsOrdered(StartsFirst, s);
    PairwiseSorted(Apart, StartsFirst, s);
    forall x <- Sorted(StartsFirst, s) ensures x.memsz > 0 { SortedMembers(StartsFirst, s, x); }
    NeighboursSuffice(Sorted(StartsFirst, s));
  }

  // The layout check

  function CheckLoads(phdrs: seq<Segment>): Result<seq<Segment>, VerifyError> {
    var loads := LoadsOf(phdrs);
    if loads == [] then Err(NoLoads)
    else if FirstBoundsError(loads).Some? then Err(FirstBoundsError(loads).value)
    else if !NeighboursApart(Sorted(StartsFirst, Nonempty(loads))) then Err(Overlap)
    else Ok(loads)
  }

  ghost predicate GoodLayout(loads: seq<Segment>) {
    && loads != []
    && (forall s <- loads :: InBounds(s))
    && Pairwise(Apart, Nonempty(loads))
  }

  /**
   The layout is accepted exactly when there are load segments, all of them within their bounds,
   and the nonempty ones are pairwise disjoint, however they are ordered in the file.
   */
  lemma LayoutAcceptedIffDisjoint(phdrs: seq<Segment>)
    ensures CheckLoads(phdrs).Ok? <==> GoodLayout(LoadsOf(phdrs))
    ensures CheckLoads(phdrs).Ok? ==> CheckLoads(phdrs).value == LoadsOf(phdrs)
  {
    SortedNeighboursSuffice(Nonempty(LoadsOf(phdrs)));
  }

  // The entry check

  function CheckEntry(entry: nat, loads: seq<Segment>): Result<Segment, VerifyError> {
    if loads == [] then Err(EntryOutside)
    else if !loads[0].Holds(entry) then CheckEntry(entry, loads[1..])
    else if !loads[0].Executable() then Err(EntryNotExecutable)
    else if entry >= loads[0].paddr + loads[0].filesz then Err(EntryZeroFilled)
    else Ok(loads[0])
  }

  /** The entry is backed by file contents of an executable segment. */
  predicate IsEntrySegment(entry: nat, s: Segment) { s.Executable() && s.HoldsFromFile(entry) }

  lemma {:induction false} NonemptyMembers(s: seq<Segment>)
    ensures forall x :: x in Nonempty(s) <==> x in s && x.memsz > 0
  {
    if s != [] { NonemptyMembers(s[1..]); }
  }

  lemma GoodLayoutTail(loads: seq<Segment>)
    requires GoodLayout(loads) && |loads| > 1
    ensures GoodLayout(loads[1..])
    ensures forall a: nat, s <- loads[1..] :: loads[0].Holds(a) ==> !s.Holds(a)
  {
    assert loads[0] in loads && forall s <- loads[1..] :: s in loads;
    var rest := Nonempty(loads[1..]);
    NonemptyMembers(loads[1..]);
    PairwiseCons(Apart, loads[0], rest);
    assert forall s <- rest :: loads[0].memsz > 0 ==> Apart(loads[0], s);
  }

  /**
   On an accepted layout the entry is accepted exactly when some executable segment holds it in
   its file-backed part. The first segment that holds the address decides, but in an accepted
   layout there is no second, so the order of the segments does not matter.
   */
  lemma {:induction false} EntryAcceptedIffBacked(entry: nat, loads: seq<Segment>)
    requires GoodLayout(loads)
    ensures
      var r := CheckEntry(entry, loads);
      r.Ok? ==> r.value in loads && IsEntrySegment(entry, r.value)
    ensures forall s <- loads :: IsEntrySegment(entry, s) ==> CheckEntry(entry, loads) == Ok(s)
  {
    var rest := loads[1..];
    assert loads == [loads[0]] + rest;
    if |loads| == 1 {
      assert rest == [];
    } else {
      GoodLayoutTail(loads);
      EntryAcceptedIffBacked(entry, rest);
      assert forall s <- loads :: IsEntrySegment(entry, s) ==> InBounds(s) && s.Holds(entry);
    }
  }

  lemma {:induction false} NonemptyCount(s: seq<Segment>, x: Segment)
    ensures multiset(Nonempty(s))[x] == if x.memsz > 0 then multiset(s)[x] else 0
  {
    if s != [] {
      NonemptyCount(s[1..], x);
      assert s == [s[0]] + s[1..];
    }
  }

  /** A layout is good in any order or in none. */
  lemma GoodLayoutPermuted(loads: seq<Segment>, other: seq<Segment>)
    requires GoodLayout(loads) && multiset(loads) == multiset(other)
    ensures GoodLayout(other)
  {
    assert |multiset(loads)| == |loads| && |multiset(other)| == |other|;
    assert forall s <- other :: s in multiset(loads);
    forall x: Segment ensures multiset(Nonempty(loads))[x] == multiset(Nonempty(other))[x] {
      NonemptyCount(loads, x);
      NonemptyCount(other, x);
    }
    PairwisePermuted(Apart, Nonempty(loads), Nonempty(other));
  }

  /** Any reordering of the segments gives the same segment, or none. */
  lemma EntryCheckIgnoresOrder(entry: nat, loads: seq<Segment>, other: seq<Segment>)
    requires GoodLayout(loads) && multiset(loads) == multiset(other)
    ensures CheckEntry(entry, loads).Ok? <==> CheckEntry(entry, other).Ok?
    ensures CheckEntry(entry, loads).Ok? ==> CheckEntry(entry, loads) == CheckEntry(entry, other)
  {
    GoodLayoutPermuted(loads, other);
    EntryAcceptedIffBacked(entry, loads);
    EntryAcceptedIffBacked(entry, other);
    assert forall s :: s in loads <==> s in multiset(loads);
    assert forall s :: s in other <==> s in multiset(other);
  }
}
