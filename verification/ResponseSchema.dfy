/** Column names of a query response: a repeated name gets its repetition number as a suffix. */
module ResponseSchema {
  import opened Decimal

  /** One schema entry; `rest` stands for type, mode and nested fields. */
  datatype Entry = Entry(name: string, rest: string)

  function Names(entries: seq<Entry>): seq<string> {
    seq(|entries|, i requires 0 <= i < |entries| => entries[i].name)
  }

  function Count(names: seq<string>, n: string): nat {
    if names == [] then 0 else Count(names[..|names| - 1], n) + if names[|names| - 1] == n then 1 else 0
  }

  function Suffixed(n: string, k: nat): string { n + "_" + Dec(k) }

  /** The name column `i` ends up with. */
  function NewName(names: seq<string>, i: nat): string
    requires i < |names|
  {
    var c := Count(names[..i], names[i]);
    if c == 0 then names[i] else Suffixed(names[i], c)
  }

  function Get(seen: map<string, nat>, n: string): nat { if n in seen then seen[n] else 0 }

  /** The loop with its dictionary of counts. */
  method BuildResponseSchema(entries: seq<Entry>) returns (out: seq<Entry>)
    ensures |out| == |entries|
    ensures forall i :: 0 <= i < |entries| ==> out[i].rest == entries[i].rest && out[i].name == NewName(Names(entries), i)
  {
    var names := Names(entries);
    out := entries;
    var seen: map<string, nat> := map[];
    for i := 0 to |entries|
      invariant |out| == |entries|
      invariant forall n :: Get(seen, n) == Count(names[..i], n)
      invariant forall j :: 0 <= j < i ==> out[j].rest == entries[j].rest && out[j].name == NewName(names, j)
      invariant forall j :: i <= j < |entries| ==> out[j] == entries[j]
    {
      var original := out[i].name;
      var count := Get(seen, original);
      if count > 0 { out := out[i := out[i].(name := Suffixed(original, count))]; }
      assert names[..i + 1][..i] == names[..i];
      seen := seen[original := count + 1];
    }
  }

  // ---- When the new names are distinct ----

  lemma {:induction false} CountGrows(names: seq<string>, i: nat, j: nat, n: string)
    requires i <= j <= |names|
    ensures Count(names[..i], n) <= Count(names[..j], n)
    decreases j - i
  {
    if i < j {
      assert names[..j][..j - 1] == names[..j - 1];
      CountGrows(names, i, j - 1, n);
    }
  }

  /** A later column of the same name has a higher count. */
  lemma CountPassed(names: seq<string>, i: nat, j: nat)
    requires i < j <= |names|
    ensures Count(names[..i], names[i]) < Count(names[..j], names[i])
  {
    assert names[..i + 1][..i] == names[..i];
    CountGrows(names, i + 1, j, names[i]);
  }

  /** Every count below the multiplicity belongs to some column. */
  lemma {:induction false} CountReached(names: seq<string>, n: string, k: nat) returns (i: nat)
    requires k < Count(names, n)
    ensures i < |names| && names[i] == n && Count(names[..i], n) == k
    decreases |names|
  {
    var last := |names| - 1;
    if k < Count(names[..last], n) {
      i := CountReached(names[..last], n, k);
      assert names[..last][..i] == names[..i];
    } else {
      i := last;
    }
  }

  lemma {:induction false} CountPositive(names: seq<string>, n: string)
    ensures Count(names, n) > 0 <==> n in names
    decreases |names|
  {
    if names != [] {
      var last := |names| - 1;
      CountPositive(names[..last], n);
      assert names == names[..last] + [names[last]];
    }
  }

  /** The suffix can be read off: numerals contain no underscore. */
  lemma SuffixUnique(a: string, k: nat, b: string, l: nat)
    requires Suffixed(a, k) == Suffixed(b, l)
    ensures a == b && k == l
  {
    var s, x, y := Suffixed(a, k), Dec(k), Dec(l);
    assert s[|a|] == '_' && s[|b|] == '_';
    assert forall i :: |a| < i < |s| ==> s[i] == x[i - |a| - 1];
    assert forall i :: |b| < i < |s| ==> s[i] == y[i - |b| - 1];
    assert |a| == |b|;
    assert a == s[..|a|] == b;
    assert x == s[|a| + 1..] == y;
    DecInjective(k, l);
  }

  ghost predicate Distinct(names: seq<string>) {
    forall i, j :: 0 <= i < j < |names| ==> NewName(names, i) != NewName(names, j)
  }

  /** No original name looks like a repetition of another: checked on the input. */
  ghost predicate NoLookalike(names: seq<string>) {
    forall n, k: nat :: 1 <= k < Count(names, n) ==> Suffixed(n, k) !in names
  }

  lemma NoLookalikeSuffices(names: seq<string>, i: nat, j: nat)
    requires NoLookalike(names) && i < j < |names|
    ensures NewName(names, i) != NewName(names, j)
  {
    var ci, cj := Count(names[..i], names[i]), Count(names[..j], names[j]);
    assert names[..|names|] == names;
    CountPassed(names, i, |names|);
    CountPassed(names, j, |names|);
    CountPassed(names, i, j);
    assert names[i] in names && names[j] in names;
    if NewName(names, i) == NewName(names, j) && ci > 0 && cj > 0 {
      SuffixUnique(names[i], ci, names[j], cj);
    }
  }

  /** The response has pairwise distinct column names if and only if the query's names contain no lookalike. */
  lemma DistinctExactly(names: seq<string>)
    ensures Distinct(names) <==> NoLookalike(names)
  {
    if NoLookalike(names) {
      forall i, j | 0 <= i < j < |names| ensures NewName(names, i) != NewName(names, j) { NoLookalikeSuffices(names, i, j); }
    } else {
      var n, k: nat :| 1 <= k < Count(names, n) && Suffixed(n, k) in names;
      var i := CountReached(names, n, k);
      CountPositive(names, Suffixed(n, k));
      var j := CountReached(names, Suffixed(n, k), 0);
      assert NewName(names, i) == NewName(names, j);
      assert |Suffixed(n, k)| > |n|;
      assert i < j || j < i;
    }
  }

  /** The first column of a name keeps it; a later one gets the number of its predecessors as a suffix. */
  lemma NewNameExactly(names: seq<string>, i: nat)
    requires i < |names|
    ensures names[i] !in names[..i] ==> NewName(names, i) == names[i]
    ensures names[i] in names[..i] ==> NewName(names, i) == names[i] + "_" + Dec(|set j | 0 <= j < i && names[j] == names[i]|)
  {
    CountPositive(names[..i], names[i]);
    CountIsSize(names, i, names[i]);
  }

  lemma {:induction false} CountIsSize(names: seq<string>, i: nat, n: string)
    requires i <= |names|
    ensures Count(names[..i], n) == |set j | 0 <= j < i && names[j] == n|
    decreases i
  {
    var now := set j | 0 <= j < i && names[j] == n;
    if i > 0 {
      CountIsSize(names, i - 1, n);
      var before := set j | 0 <= j < i - 1 && names[j] == n;
      assert names[..i][..i - 1] == names[..i - 1];
      assert now == if names[i - 1] == n then before + {i - 1} else before;
    }
  }

  /** The columns a, a, a_1 come out as a, a_1, a_1. */
  lemma LookalikeClashes()
    ensures var names := ["a", "a", "a_1"]; NewName(names, 1) == NewName(names, 2) == "a_1"
  {
    var names := ["a", "a", "a_1"];
    assert names[..1] == ["a"] && names[..2] == ["a", "a"];
    assert ["a"][..0] == [] && ["a", "a"][..1] == ["a"];
    assert Count(["a"], "a") == 1;
    assert Dec(1) == "1";
  }
}
