/** Count maps and the multisets they stand for. */
module Counting {
  function Count(counts: map<string, nat>, key: string): nat {
    if key in counts then counts[key] else 0
  }

  ghost predicate CountsOf(counts: map<string, nat>, items: multiset<string>) {
    forall key :: Count(counts, key) == items[key]
  }

  method CountEach(items: seq<string>) returns (counts: map<string, nat>)
    ensures CountsOf(counts, multiset(items))
  {
    counts := map[];
    for i := 0 to |items|
      invariant CountsOf(counts, multiset(items[..i]))
    {
      assert items[..i + 1] == items[..i] + [items[i]];
      counts := counts[items[i] := Count(counts, items[i]) + 1];
    }
    assert items[..|items|] == items;
  }

  lemma SmallerMultiset(a: multiset<string>, b: multiset<string>)
    requires a <= b
    ensures |a| <= |b|
  {
    assert b == a + (b - a);
  }
}
