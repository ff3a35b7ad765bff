/** Python's `s.split(sep)` for a one-character separator, and its inverse
    `sep.join(parts)`. */
module StrSplit {

  /** `sep.join(parts)`; the empty list joins to the empty string. */
  function Join(parts: seq<string>, sep: char): string
    decreases |parts|
  {
    if |parts| == 0 then ""
    else if |parts| == 1 then parts[0]
    else parts[0] + [sep] + Join(parts[1..], sep)
  }

  /** `s.split(sep)`: the maximal separator-free pieces between separators,
      empty pieces included, so there is always one piece more than there
      are separators (`"".split('/') == ['']`, `"a/".split('/') == ['a', '']`). */
  function Split(s: string, sep: char): (parts: seq<string>)
    ensures |parts| >= 1
    ensures forall i :: 0 <= i < |parts| ==> sep !in parts[i]
    ensures Join(parts, sep) == s
    decreases |s|
  {
    if |s| == 0 then [""]
    else
      var rest := Split(s[1..], sep);
      if s[0] == sep then [""] + rest
      else [[s[0]] + rest[0]] + rest[1..]
  }

  /** `parts[-1]`. */
  function Last(parts: seq<string>): string
    requires |parts| >= 1
  {
    parts[|parts| - 1]
  }

  /** A string with no separator in it splits into itself alone. */
  lemma {:induction false} SplitWithoutSeparator(s: string, sep: char)
    requires sep !in s
    ensures Split(s, sep) == [s]
    decreases |s|
  {
    if |s| > 0 {
      SplitWithoutSeparator(s[1..], sep);
    }
  }

  /** Splitting at one separator splits the two sides independently. */
  lemma {:induction false} SplitAround(a: string, sep: char, b: string)
    ensures Split(a + [sep] + b, sep) == Split(a, sep) + Split(b, sep)
    decreases |a|
  {
    var s := a + [sep] + b;
    if |a| == 0 {
      assert s[1..] == b;
    } else {
      assert s[1..] == a[1..] + [sep] + b;
      SplitAround(a[1..], sep, b);
    }
  }

  /** The other round trip: joining separator-free pieces and splitting the
      result recovers the pieces. */
  lemma {:induction false} SplitJoin(parts: seq<string>, sep: char)
    requires |parts| >= 1
    requires forall i :: 0 <= i < |parts| ==> sep !in parts[i]
    ensures Split(Join(parts, sep), sep) == parts
    decreases |parts|
  {
    SplitWithoutSeparator(parts[0], sep);
    if |parts| > 1 {
      SplitJoin(parts[1..], sep);
      SplitAround(parts[0], sep, Join(parts[1..], sep));
    }
  }

  /** The last piece is whatever follows the last separator. */
  lemma {:induction false} LastAfterSeparator(prefix: string, sep: char, tail: string)
    requires sep !in tail
    ensures Last(Split(prefix + [sep] + tail, sep)) == tail
  {
    SplitAround(prefix, sep, tail);
    SplitWithoutSeparator(tail, sep);
  }
}
