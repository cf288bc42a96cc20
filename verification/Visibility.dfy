/** Whether the kernel received every change the manifest announced: patch_visibility_rejection. */
module Visibility {
  import opened Prelude
  import opened Counting

  datatype Rejection = Rejection(missing: seq<string>, unexpected: seq<string>)

  method CountPaths(paths: seq<string>) returns (counts: map<string, nat>)
    ensures CountsOf(counts, multiset(paths))
  {
    counts := CountEach(paths);
  }

  /** Push `times` copies of a path. */
  method Push(paths: seq<string>, path: string, times: nat) returns (longer: seq<string>)
    ensures multiset(longer) == multiset(paths) + multiset{}[path := times]
  {
    longer := paths;
    for i := 0 to times
      invariant multiset(longer) == multiset(paths) + multiset{}[path := i]
    {
      longer := longer + [path];
    }
  }

  /** Every path of the left as often as the left has more of it. */
  method PathMultisetDifference(left: map<string, nat>, right: map<string, nat>, ghost a: multiset<string>,
      ghost b: multiset<string>)
    returns (difference: seq<string>)
    requires CountsOf(left, a) && CountsOf(right, b)
    ensures multiset(difference) == a - b
  {
    difference := [];
    var rest := left.Keys;
    while rest != {}
      invariant rest <= left.Keys
      invariant forall p :: multiset(difference)[p] == if p in rest then 0 else (a - b)[p]
      decreases rest
    {
      var path :| path in rest;
      var rightCount := Count(right, path);
      difference := Push(difference, path, if left[path] > rightCount then left[path] - rightCount else 0);
      rest := rest - {path};
    }
  }

  /** What is missing and what is unexpected account for the whole difference, and never overlap. */
  lemma DifferencesBalance(expected: multiset<string>, received: multiset<string>)
    ensures received + (expected - received) == expected + (received - expected)
    ensures (expected - received) !! (received - expected)
    ensures expected - received == multiset{} && received - expected == multiset{} ==> expected == received
  {
    forall p ensures (received + (expected - received))[p] == (expected + (received - expected))[p] {}
    if expected - received == multiset{} && received - expected == multiset{} {
      forall p ensures expected[p] == received[p] {
        assert (expected - received)[p] == 0 && (received - expected)[p] == 0;
      }
    }
  }

  /** None passes the patch on for analysis. */
  method PatchVisibilityRejection(expectedCount: nat, expected: seq<string>, received: seq<string>)
    returns (rejection: Option<Rejection>)
    ensures rejection.None? <==> multiset(expected) == multiset(received) && expectedCount == |expected|
    ensures rejection.Some? ==>
              var missing, unexpected := multiset(rejection.value.missing), multiset(rejection.value.unexpected);
              && multiset(received) + missing == multiset(expected) + unexpected
              && missing !! unexpected
  {
    ghost var e, r := multiset(expected), multiset(received);
    var expectedCounts := CountPaths(expected);
    var receivedCounts := CountPaths(received);
    var missing := PathMultisetDifference(expectedCounts, receivedCounts, e, r);
    var unexpected := PathMultisetDifference(receivedCounts, expectedCounts, r, e);
    DifferencesBalance(e, r);
    assert |multiset(missing)| == |missing| && |multiset(unexpected)| == |unexpected|;
    assert |e| == |expected| && |r| == |received|;
    assert e == r ==> e - r == multiset{} && r - e == multiset{};
    if expectedCount == |expected| && expectedCount == |received| && missing == [] && unexpected == [] {
      return None;
    }
    return Some(Rejection(missing, unexpected));
  }
}
