/**
 Scanning items one after another, each found at a cursor and saying where the next one is;
 laying encodings end to end; and keeping some of a sequence of items.
 */
module Scanning {
  import opened Wrappers

  datatype Reading<+T> = End | Broken | Found(item: T, next: nat)

  /** The items from a cursor on; a reading that does not move on counts as broken. */
  function Scan<T>(read: nat -> Reading<T>, size: nat, at: nat): Result<seq<T>, ()>
    decreases size - at
  {
    if at >= size then Ok([])
    else
      match read(at)
      case End => Ok([])
      case Broken => Err(())
      case Found(item, next) =>
        if next <= at then Err(()) else Prepend([item], Scan(read, size, next))
  }

  /** The items are found at these cursors, one after another, and then there are no more. */
  ghost predicate Along<T(!new)>(
    read: nat -> Reading<T>, size: nat, items: seq<T>, at: seq<nat>)
  {
    && |at| == |items| + 1
    && (forall i :: 0 <= i < |items| ==>
          at[i] < size && at[i] < at[i + 1] && read(at[i]) == Found(items[i], at[i + 1]))
    && (at[|items|] >= size || read(at[|items|]) == End)
  }

  lemma {:induction false} ScanAlong<T(!new)>(
    read: nat -> Reading<T>, size: nat, items: seq<T>, at: seq<nat>)
    requires Along(read, size, items, at)
    ensures Scan(read, size, at[0]) == Ok(items)
    decreases |items|
  {
    if items != [] {
      ScanAlong(read, size, items[1..], at[1..]);
      assert read(at[0]) == Found(items[0], at[1]);
      assert items == [items[0]] + items[1..];
    }
  }

  lemma AlongCons<T(!new)>(
    read: nat -> Reading<T>, size: nat, items: seq<T>, at: seq<nat>, start: nat)
    requires Along(read, size, items, at) && start < size
    requires read(start).Found? && read(start).next == at[0] > start
    ensures Along(read, size, [read(start).item] + items, [start] + at)
  {
    var more, cursors := [read(start).item] + items, [start] + at;
    forall i | 0 <= i < |more|
      ensures cursors[i] < size && cursors[i] < cursors[i + 1]
      ensures read(cursors[i]) == Found(more[i], cursors[i + 1])
    {
      if i > 0 { assert cursors[i] == at[i - 1] && more[i] == items[i - 1]; }
    }
  }

  lemma {:induction false} ScanLeavesCursors<T(!new)>(
    read: nat -> Reading<T>, size: nat, start: nat) returns (at: seq<nat>)
    requires Scan(read, size, start).Ok?
    ensures at != [] && at[0] == start
    ensures Along(read, size, Scan(read, size, start).value, at)
    decreases size - start
  {
    if start >= size || read(start) == End { return [start]; }
    var next := read(start).next;
    var rest := ScanLeavesCursors(read, size, next);
    at := [start] + rest;
    AlongCons(read, size, Scan(read, size, next).value, rest, start);
  }

  // Encodings laid end to end

  function Concat<T>(encode: T -> Bytes, items: seq<T>): Bytes {
    if items == [] then [] else Concat(encode, items[..|items| - 1]) + encode(items[|items| - 1])
  }

  lemma ConcatNext<T>(encode: T -> Bytes, items: seq<T>, i: nat)
    requires i < |items|
    ensures Concat(encode, items[..i + 1]) == Concat(encode, items[..i]) + encode(items[i])
  {
    assert items[..i + 1][..i] == items[..i];
  }

  /** Every item stands between what comes before it and something after it. */
  lemma {:induction false} ConcatAround<T>(encode: T -> Bytes, items: seq<T>, i: nat, tail: Bytes)
    returns (after: Bytes)
    requires i < |items|
    ensures Concat(encode, items) + tail
         == Concat(encode, items[..i]) + encode(items[i]) + after
  {
    var last := |items| - 1;
    if i == last {
      assert items[..i] == items[..last];
      after := tail;
    } else {
      after := ConcatAround(encode, items[..last], i, encode(items[last]) + tail);
      assert items[..last][..i] == items[..i];
      assert Concat(encode, items) + tail
          == Concat(encode, items[..last]) + (encode(items[last]) + tail);
    }
  }

  // Keeping some of the items

  function Kept<T>(keep: T -> bool, items: seq<T>): seq<T> {
    if items == [] then []
    else if keep(items[0]) then [items[0]] + Kept(keep, items[1..])
    else Kept(keep, items[1..])
  }

  lemma {:induction false} KeptAppend<T>(keep: T -> bool, a: seq<T>, b: seq<T>)
    ensures Kept(keep, a + b) == Kept(keep, a) + Kept(keep, b)
  {
    if a == [] {
      assert a + b == b;
    } else {
      KeptAppend(keep, a[1..], b);
      assert (a + b)[1..] == a[1..] + b;
    }
  }

  lemma KeptNext<T>(keep: T -> bool, items: seq<T>, i: nat)
    requires i < |items|
    ensures Kept(keep, items[..i + 1]) ==
      Kept(keep, items[..i]) + if keep(items[i]) then [items[i]] else []
  {
    assert items[..i + 1] == items[..i] + [items[i]];
    KeptAppend(keep, items[..i], [items[i]]);
  }

  /** The item at `i` is the only one to keep. */
  ghost predicate Only<T>(keep: T -> bool, items: seq<T>, i: nat) {
    && i < |items| && keep(items[i])
    && forall j :: 0 <= j < |items| && j != i ==> !keep(items[j])
  }

  lemma {:induction false} NoneKept<T>(keep: T -> bool, items: seq<T>)
    ensures Kept(keep, items) == [] <==> forall j :: 0 <= j < |items| ==> !keep(items[j])
  {
    if items != [] {
      NoneKept(keep, items[1..]);
      assert forall j :: 0 < j < |items| ==> items[j] == items[1..][j - 1];
    }
  }

  lemma {:induction false} OnlyIsKept<T>(keep: T -> bool, items: seq<T>, i: nat)
    requires Only(keep, items, i)
    ensures Kept(keep, items) == [items[i]]
  {
    if i == 0 {
      NoneKept(keep, items[1..]);
    } else {
      OnlyIsKept(keep, items[1..], i - 1);
    }
  }

  lemma {:induction false} OneKept<T>(keep: T -> bool, items: seq<T>) returns (i: nat)
    requires |Kept(keep, items)| == 1
    ensures Only(keep, items, i) && Kept(keep, items) == [items[i]]
  {
    assert forall j :: 0 < j < |items| ==> items[j] == items[1..][j - 1];
    if keep(items[0]) {
      NoneKept(keep, items[1..]);
      i := 0;
    } else {
      i := OneKept(keep, items[1..]);
      i := i + 1;
    }
  }
}
