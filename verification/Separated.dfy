/** Splitting a sequence at every occurrence of a separator, and joining the parts again. */
module Separated {
  function Split<T(==)>(text: seq<T>, sep: T): (parts: seq<seq<T>>)
    ensures |parts| >= 1
  {
    if text == [] then [[]]
    else if text[0] == sep then [[]] + Split(text[1..], sep)
    else
      var rest := Split(text[1..], sep);
      [[text[0]] + rest[0]] + rest[1..]
  }

  function Join<T>(parts: seq<seq<T>>, sep: T): seq<T> {
    if parts == [] then []
    else if |parts| == 1 then parts[0]
    else parts[0] + [sep] + Join(parts[1..], sep)
  }

  lemma {:induction false} JoinSplit<T>(text: seq<T>, sep: T)
    ensures Join(Split(text, sep), sep) == text
  {
    if text != [] {
      JoinSplit(text[1..], sep);
      var rest := Split(text[1..], sep);
      if text[0] == sep {
        assert Split(text, sep)[1..] == rest;
      } else {
        assert Split(text, sep)[1..] == rest[1..];
      }
    }
  }

  lemma {:induction false} SplitOnFirstSeparator<T>(part: seq<T>, rest: seq<T>, sep: T)
    requires sep !in part
    ensures Split(part + [sep] + rest, sep) == [part] + Split(rest, sep)
  {
    var text := part + [sep] + rest;
    if part == [] {
      assert text[1..] == rest;
    } else {
      SplitOnFirstSeparator(part[1..], rest, sep);
      assert text[1..] == part[1..] + [sep] + rest;
      assert part == [part[0]] + part[1..];
    }
  }

  lemma {:induction false} SplitWithoutSeparator<T>(part: seq<T>, sep: T)
    requires sep !in part
    ensures Split(part, sep) == [part]
  {
    if part != [] {
      SplitWithoutSeparator(part[1..], sep);
      assert part == [part[0]] + part[1..];
    }
  }

  /** Joining parts that hold no separator loses nothing. */
  lemma {:induction false} SplitJoin<T>(parts: seq<seq<T>>, sep: T)
    requires parts != [] && forall part <- parts :: sep !in part
    ensures Split(Join(parts, sep), sep) == parts
  {
    if |parts| == 1 {
      SplitWithoutSeparator(parts[0], sep);
    } else {
      SplitJoin(parts[1..], sep);
      SplitOnFirstSeparator(parts[0], Join(parts[1..], sep), sep);
    }
  }

  lemma {:induction false} PartsHaveNoSeparator<T>(text: seq<T>, sep: T)
    ensures forall part <- Split(text, sep) :: sep !in part
  {
    if text != [] { PartsHaveNoSeparator(text[1..], sep); }
  }
}
