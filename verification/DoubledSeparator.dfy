/**
 Strings joined by a doubled separator character.

 The catalog stores the reference of an access entry as its parts joined by "::",
 and names the physical schema of a dataset by joining project and dataset with "__".
 Both are the same codec, taken here for an arbitrary separator character.
 */
module DoubledSeparator {

  /** The separator, two copies of `c`, starts at index `i` of `s`. */
  predicate SeparatorAt(s: string, c: char, i: int) {
    0 <= i < |s| - 1 && s[i] == c && s[i + 1] == c
  }

  predicate HasSeparator(s: string, c: char) {
    exists i :: 0 <= i < |s| - 1 && SeparatorAt(s, c, i)
  }

  predicate EndsWith(s: string, c: char) {
    |s| > 0 && s[|s| - 1] == c
  }

  /** Index of the leftmost separator, or |s| when there is none. */
  function FirstSeparator(s: string, c: char): (r: nat)
    ensures r <= |s|
    ensures r < |s| ==> SeparatorAt(s, c, r)
    ensures forall j :: 0 <= j < r ==> !SeparatorAt(s, c, j)
  {
    if |s| < 2 then |s|
    else if s[0] == c && s[1] == c then 0
    else
      var r := 1 + FirstSeparator(s[1..], c);
      assert forall j :: 1 <= j < r ==> SeparatorAt(s, c, j) == SeparatorAt(s[1..], c, j - 1);
      r
  }

  /** Python's `s.split(c + c)`: leftmost, non-overlapping. */
  function Split(s: string, c: char): (parts: seq<string>)
    ensures |parts| >= 1
    decreases |s|
  {
    var i := FirstSeparator(s, c);
    if i == |s| then [s] else [s[..i]] + Split(s[i + 2..], c)
  }

  /** Python's `(c + c).join(parts)`. */
  function Join(parts: seq<string>, c: char): string {
    if parts == [] then ""
    else if |parts| == 1 then parts[0]
    else parts[0] + [c, c] + Join(parts[1..], c)
  }

  /** The tuples that survive: non-empty, no part holds the separator, and only the last may end in its character. */
  predicate Splittable(parts: seq<string>, c: char) {
    && |parts| >= 1
    && (forall i :: 0 <= i < |parts| ==> !HasSeparator(parts[i], c))
    && (forall i :: 0 <= i < |parts| - 1 ==> !EndsWith(parts[i], c))
  }

  /** Whatever Split returns is splittable, so nothing else can be its own round trip. */
  lemma {:induction false} SplitIsSplittable(s: string, c: char)
    ensures Splittable(Split(s, c), c)
    decreases |s|
  {
    var i := FirstSeparator(s, c);
    if i < |s| {
      SplitIsSplittable(s[i + 2..], c);
      var head, tail := s[..i], Split(s[i + 2..], c);
      assert !HasSeparator(head, c) by {
        assert forall j :: 0 <= j < |head| - 1 ==> SeparatorAt(head, c, j) == SeparatorAt(s, c, j);
      }
      assert !EndsWith(head, c) by {
        assert i > 0 && s[i - 1] == c ==> SeparatorAt(s, c, i - 1);
      }
      var parts := [head] + tail;
      assert forall k :: 1 <= k < |parts| ==> parts[k] == tail[k - 1];
    }
  }

  /** A head that neither holds the separator nor ends in its character is cut off exactly. */
  lemma FirstSeparatorOfJoin(head: string, rest: string, c: char)
    requires !HasSeparator(head, c) && !EndsWith(head, c)
    ensures FirstSeparator(head + [c, c] + rest, c) == |head|
  {
    var s := head + [c, c] + rest;
    assert SeparatorAt(s, c, |head|);
    forall j | 0 <= j < |head| ensures !SeparatorAt(s, c, j) {
      if j < |head| - 1 { assert SeparatorAt(s, c, j) == SeparatorAt(head, c, j); }
    }
  }

  lemma SplitOfJoin(head: string, rest: string, c: char)
    requires !HasSeparator(head, c) && !EndsWith(head, c)
    ensures Split(head + [c, c] + rest, c) == [head] + Split(rest, c)
  {
    FirstSeparatorOfJoin(head, rest, c);
    var s := head + [c, c] + rest;
    assert s[..|head|] == head && s[|head| + 2..] == rest;
  }

  lemma {:induction false} SplitJoin(parts: seq<string>, c: char)
    requires Splittable(parts, c)
    ensures Split(Join(parts, c), c) == parts
    decreases |parts|
  {
    if |parts| == 1 {
      assert !SeparatorAt(parts[0], c, FirstSeparator(parts[0], c));
    } else {
      var head, rest := parts[0], Join(parts[1..], c);
      SplitJoin(parts[1..], c);
      SplitOfJoin(head, rest, c);
      assert parts == [parts[0]] + parts[1..];
    }
  }

  /** The codec round-trips a tuple of strings exactly when the tuple is splittable. */
  lemma RoundTripExactly(parts: seq<string>, c: char)
    ensures Split(Join(parts, c), c) == parts <==> Splittable(parts, c)
  {
    if Splittable(parts, c) { SplitJoin(parts, c); }
    SplitIsSplittable(Join(parts, c), c);
  }

  lemma JoinCons(head: string, tail: seq<string>, c: char)
    requires tail != []
    ensures Join([head] + tail, c) == head + [c, c] + Join(tail, c)
  {
    assert ([head] + tail)[1..] == tail;
  }

  lemma CutAtSeparator(s: string, c: char, i: nat)
    requires SeparatorAt(s, c, i)
    ensures s == s[..i] + [c, c] + s[i + 2..]
  {
  }

  /** The other direction loses nothing: joining what was split gives the text back. */
  lemma {:induction false} JoinSplit(s: string, c: char)
    ensures Join(Split(s, c), c) == s
    decreases |s|
  {
    var i := FirstSeparator(s, c);
    if i < |s| {
      JoinSplit(s[i + 2..], c);
      JoinCons(s[..i], Split(s[i + 2..], c), c);
      CutAtSeparator(s, c, i);
    }
  }
}
