/**
 * The sort, dedupe and compare pattern over change and finding identifiers. Identifiers are hexadecimal
 * digests; only their total order matters, so they are modelled as numbers.
 */
module IdSets {
  import opened Paths

  type Id = nat

  predicate Ascending(s: seq<Id>) {
    |s| <= 1 || (s[0] <= s[1] && Ascending(s[1..]))
  }

  function Insert(s: seq<Id>, x: Id): seq<Id> {
    if s == [] || x <= s[0] then [x] + s else [s[0]] + Insert(s[1..], x)
  }

  function Sort(s: seq<Id>): seq<Id> {
    if s == [] then [] else Insert(Sort(s[1..]), s[0])
  }

  lemma {:induction false} InsertKeepsOrder(s: seq<Id>, x: Id)
    requires Ascending(s)
    ensures Ascending(Insert(s, x)) && multiset(Insert(s, x)) == multiset(s) + multiset{x}
  {
    if s != [] && x > s[0] {
      InsertKeepsOrder(s[1..], x);
      assert s == [s[0]] + s[1..];
      var r := Insert(s[1..], x);
      assert r[0] == x || r[0] == s[1];
      assert ([s[0]] + r)[1..] == r;
    } else {
      assert ([x] + s)[1..] == s;
    }
  }

  lemma {:induction false} SortIsAPermutation(s: seq<Id>)
    ensures Ascending(Sort(s)) && multiset(Sort(s)) == multiset(s)
  {
    if s != [] {
      SortIsAPermutation(s[1..]);
      InsertKeepsOrder(Sort(s[1..]), s[0]);
      assert s == [s[0]] + s[1..];
    }
  }

  /** `[...new Set(ids)].sort()`. */
  function SortedUnique(s: seq<Id>): seq<Id> {
    Sort(Dedupe(s))
  }

  lemma {:induction false} HeadIsLeast(s: seq<Id>, x: Id)
    requires Ascending(s) && x in s
    ensures s[0] <= x
  {
    if x != s[0] {
      assert x in s[1..];
      HeadIsLeast(s[1..], x);
    }
  }

  lemma {:induction false} AscendingIsUnique(a: seq<Id>, b: seq<Id>)
    requires Ascending(a) && Ascending(b) && multiset(a) == multiset(b)
    ensures a == b
  {
    if a == [] || b == [] {
      assert |a| == |multiset(a)| && |b| == |multiset(b)|;
    } else {
      assert a[0] in multiset(b) && b[0] in multiset(a);
      HeadIsLeast(b, a[0]);
      HeadIsLeast(a, b[0]);
      assert a == [a[0]] + a[1..] && b == [a[0]] + b[1..];
      assert multiset(a[1..]) == multiset(a) - multiset{a[0]};
      assert multiset(b[1..]) == multiset(b) - multiset{a[0]};
      AscendingIsUnique(a[1..], b[1..]);
    }
  }

  lemma {:induction false} DistinctMultisetIsSet(s: seq<Id>)
    requires Distinct(s)
    ensures forall x :: multiset(s)[x] == if x in s then 1 else 0
  {
    if s != [] {
      var init, last := s[..|s| - 1], s[|s| - 1];
      assert s == init + [last];
      DistinctMultisetIsSet(init);
      assert last !in init;
    }
  }

  lemma DistinctListsOfOneSet(a: seq<Id>, b: seq<Id>)
    requires Distinct(a) && Distinct(b) && Elements(a) == Elements(b)
    ensures multiset(a) == multiset(b)
  {
    DistinctMultisetIsSet(a);
    DistinctMultisetIsSet(b);
    forall x ensures multiset(a)[x] == multiset(b)[x] {
      assert x in Elements(a) <==> x in Elements(b);
    }
  }

  lemma SameMultisetSameElements(a: seq<Id>, b: seq<Id>)
    requires multiset(a) == multiset(b)
    ensures Elements(a) == Elements(b)
  {
    forall x ensures x in a <==> x in b {
      assert x in a <==> x in multiset(a);
      assert x in b <==> x in multiset(b);
    }
  }

  /** Equal sorted lists decide equal sets, for any two lists. */
  lemma SortedUniqueDecidesSets(a: seq<Id>, b: seq<Id>)
    ensures SortedUnique(a) == SortedUnique(b) <==> Elements(a) == Elements(b)
  {
    SortIsAPermutation(Dedupe(a));
    SortIsAPermutation(Dedupe(b));
    SameMultisetSameElements(SortedUnique(a), Dedupe(a));
    SameMultisetSameElements(SortedUnique(b), Dedupe(b));
    if Elements(a) == Elements(b) {
      DistinctListsOfOneSet(Dedupe(a), Dedupe(b));
      AscendingIsUnique(SortedUnique(a), SortedUnique(b));
    }
  }

  lemma {:induction false} DedupeLength(s: seq<Id>)
    ensures |Dedupe(s)| <= |s|
    ensures |Dedupe(s)| == |s| <==> Distinct(s)
  {
    if s != [] {
      var init, last := s[..|s| - 1], s[|s| - 1];
      assert s == init + [last];
      DedupeLength(init);
      if last in Dedupe(init) {
        assert last in Elements(init);
        var k :| 0 <= k < |init| && init[k] == last;
        assert s[k] == s[|s| - 1];
      } else {
        assert last !in Elements(init);
        assert Distinct(init) ==> Distinct(s);
        assert Distinct(s) ==> Distinct(init);
      }
    }
  }

  lemma SortKeepsLength(s: seq<Id>)
    ensures |Sort(s)| == |s|
  {
    SortIsAPermutation(s);
    assert |Sort(s)| == |multiset(Sort(s))| == |multiset(s)|;
  }

  /** Whether the approved identifiers are exactly the pending ones: the comparison both approval gates make. */
  method IdsMatch(pending: seq<Id>, approved: seq<Id>) returns (ok: bool)
    ensures ok <==> Elements(pending) == Elements(approved)
  {
    var expectedIds, approvedIds := SortedUnique(pending), SortedUnique(approved);
    SortedUniqueDecidesSets(pending, approved);
    hide SortedUnique, Elements;
    if |expectedIds| != |approvedIds| {
      return false;
    }
    for i := 0 to |expectedIds|
      invariant forall k :: 0 <= k < i ==> expectedIds[k] == approvedIds[k]
    {
      if expectedIds[i] != approvedIds[i] {
        return false;
      }
    }
    return true;
  }

  // ---- Adjudication of review findings ----

  /** Every finding is decided exactly once. */
  ghost predicate Partition(findings: seq<Id>, accepted: seq<Id>, rejected: seq<Id>) {
    && Distinct(findings) && Distinct(accepted) && Distinct(rejected)
    && Elements(accepted) !! Elements(rejected)
    && Elements(accepted) + Elements(rejected) == Elements(findings)
  }

  /** The first list check of an adjudication: no repetition, no overlap. */
  predicate DecisionIsExclusive(accepted: seq<Id>, rejected: seq<Id>) {
    var a, r := SortedUnique(accepted), SortedUnique(rejected);
    |a| == |accepted| && |r| == |rejected| && forall x | x in a :: x !in r
  }

  /** The second: the decided identifiers are, index by index, the sorted findings. */
  predicate DecisionIsComplete(findings: seq<Id>, accepted: seq<Id>, rejected: seq<Id>) {
    SortedUnique(SortedUnique(accepted) + SortedUnique(rejected)) == Sort(findings)
  }

  /** The checks accept exactly the partitions; repeated finding identifiers can never be adjudicated. */
  lemma DecisionCoversExactlyThePartitions(findings: seq<Id>, accepted: seq<Id>, rejected: seq<Id>)
    ensures DecisionIsExclusive(accepted, rejected) && DecisionIsComplete(findings, accepted, rejected)
       <==> Partition(findings, accepted, rejected)
  {
    var a, r := SortedUnique(accepted), SortedUnique(rejected);
    UniqueAndDisjoint(accepted, rejected);
    UniqueListCovers(findings, a + r);
    assert Elements(a + r) == Elements(a) + Elements(r);
    assert (forall x | x in a :: x !in r) <==> Elements(a) !! Elements(r) by {
      assert forall x :: x in a <==> x in Elements(a);
      assert forall x :: x in r <==> x in Elements(r);
    }
    hide SortedUnique, Distinct, Elements;
  }

  lemma UniqueAndDisjoint(accepted: seq<Id>, rejected: seq<Id>)
    ensures |SortedUnique(accepted)| == |accepted| <==> Distinct(accepted)
    ensures |SortedUnique(rejected)| == |rejected| <==> Distinct(rejected)
    ensures Elements(SortedUnique(accepted)) == Elements(accepted)
    ensures Elements(SortedUnique(rejected)) == Elements(rejected)
  {
    SortKeepsLength(Dedupe(accepted));
    SortKeepsLength(Dedupe(rejected));
    DedupeLength(accepted);
    DedupeLength(rejected);
    SortIsAPermutation(Dedupe(accepted));
    SortIsAPermutation(Dedupe(rejected));
    SameMultisetSameElements(SortedUnique(accepted), Dedupe(accepted));
    SameMultisetSameElements(SortedUnique(rejected), Dedupe(rejected));
  }

  lemma UniqueListCovers(findings: seq<Id>, covered: seq<Id>)
    ensures SortedUnique(covered) == Sort(findings) <==> Distinct(findings) && Elements(covered) == Elements(findings)
  {
    SortIsAPermutation(Dedupe(covered));
    SortIsAPermutation(findings);
    SameMultisetSameElements(SortedUnique(covered), Dedupe(covered));
    SameMultisetSameElements(Sort(findings), findings);
    if SortedUnique(covered) == Sort(findings) {
      DistinctMultisetIsSet(Dedupe(covered));
      DistinctFromMultiset(findings);
    }
    if Distinct(findings) && Elements(covered) == Elements(findings) {
      DistinctListsOfOneSet(Dedupe(covered), findings);
      AscendingIsUnique(SortedUnique(covered), Sort(findings));
    }
  }

  lemma RepeatsCountTwice(s: seq<Id>, i: nat, j: nat)
    requires i < j < |s| && s[i] == s[j]
    ensures multiset(s)[s[i]] >= 2
  {
    assert s == s[..j] + [s[j]] + s[j + 1..];
    assert s[i] in s[..j];
    assert multiset(s) == multiset(s[..j]) + multiset([s[j]]) + multiset(s[j + 1..]);
  }

  lemma DistinctFromMultiset(s: seq<Id>)
    requires forall x :: multiset(s)[x] <= 1
    ensures Distinct(s)
  {
    forall i, j | 0 <= i < j < |s| ensures s[i] != s[j] {
      if s[i] == s[j] { RepeatsCountTwice(s, i, j); }
    }
  }

  /** Some pair of lists passes both checks exactly when no finding identifier repeats; rejecting all is then one. */
  lemma AdjudicationIsPossibleExactly(findings: seq<Id>)
    ensures (exists accepted, rejected :: DecisionIsExclusive(accepted, rejected) && DecisionIsComplete(findings, accepted, rejected))
       <==> Distinct(findings)
    ensures Distinct(findings) ==> DecisionIsExclusive([], findings) && DecisionIsComplete(findings, [], findings)
  {
    hide DecisionIsExclusive, DecisionIsComplete;
    DecisionCoversExactlyThePartitions(findings, [], findings);
    if accepted, rejected :| DecisionIsExclusive(accepted, rejected) && DecisionIsComplete(findings, accepted, rejected) {
      DecisionCoversExactlyThePartitions(findings, accepted, rejected);
    }
  }

  /** A finding is named by a digest of its position and content. */
  function FindingIds<F>(findings: seq<F>, digest: (nat, F) -> Id): (ids: seq<Id>)
    ensures |ids| == |findings| && forall i :: 0 <= i < |ids| ==> ids[i] == digest(i, findings[i])
  {
    if findings == [] then []
    else FindingIds(findings[..|findings| - 1], digest) + [digest(|findings| - 1, findings[|findings| - 1])]
  }

  /** Whatever a review found, equal findings included, its findings can be adjudicated while digests do not collide. */
  lemma EveryReviewCanBeAdjudicated<F(!new)>(findings: seq<F>, digest: (nat, F) -> Id)
    requires forall i, f, j, g :: digest(i, f) == digest(j, g) ==> i == j && f == g
    ensures Distinct(FindingIds(findings, digest))
    ensures DecisionIsExclusive([], FindingIds(findings, digest))
         && DecisionIsComplete(FindingIds(findings, digest), [], FindingIds(findings, digest))
  {
    AdjudicationIsPossibleExactly(FindingIds(findings, digest));
    hide DecisionIsExclusive, DecisionIsComplete, FindingIds;
  }
}
