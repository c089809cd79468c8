/**
  The elimination that picks a best function member out of a list of
  applicable candidates, over any pairwise comparison of candidates: each
  candidate in turn removes the members it beats from the running `best`
  list, and joins that list unless one of its members beats it.
*/
module Elimination {

  /** The outcome of comparing a candidate with another. */
  datatype Specificity = Better | Incomparable | Worse

  /** A comparison of two candidates: how the first fares against the second. */
  type Comparer<-T> = (T, T) -> Specificity

  /** The members of `best` that `c` does not beat, in order. */
  function NotBeatenBy<T>(cmp: Comparer<T>, best: seq<T>, c: T): (r: seq<T>)
    ensures |r| <= |best|
  {
    if best == [] then []
    else
      var last := best[|best| - 1];
      NotBeatenBy(cmp, best[..|best| - 1], c) + (if cmp(c, last) != Better then [last] else [])
  }

  /** `NotBeatenBy` keeps exactly the members that `c` does not beat. */
  lemma {:induction false} NotBeatenByMembers<T>(cmp: Comparer<T>, best: seq<T>, c: T)
    ensures forall x | x in NotBeatenBy(cmp, best, c) :: x in best && cmp(c, x) != Better
    ensures forall x | x in best && cmp(c, x) != Better :: x in NotBeatenBy(cmp, best, c)
  {
    if best != [] {
      var init := best[..|best| - 1];
      NotBeatenByMembers(cmp, init, c);
      assert best == init + [best[|best| - 1]];
    }
  }

  /** A candidate that beats every member of `best` leaves none of them. */
  lemma {:induction false} NotBeatenByAllBeaten<T>(cmp: Comparer<T>, best: seq<T>, c: T)
    requires forall i | 0 <= i < |best| :: cmp(c, best[i]) == Better
    ensures NotBeatenBy(cmp, best, c) == []
  {
    if best != [] {
      NotBeatenByAllBeaten(cmp, best[..|best| - 1], c);
    }
  }

  /** Whether some member of `best` beats `c`. */
  predicate BeatenBySome<T>(cmp: Comparer<T>, best: seq<T>, c: T) {
    best != [] && (BeatenBySome(cmp, best[..|best| - 1], c) || cmp(c, best[|best| - 1]) == Worse)
  }

  lemma {:induction false} BeatenBySomeIff<T>(cmp: Comparer<T>, best: seq<T>, c: T)
    ensures BeatenBySome(cmp, best, c) <==> exists b | b in best :: cmp(c, b) == Worse
  {
    if best != [] {
      var init := best[..|best| - 1];
      BeatenBySomeIff(cmp, init, c);
      assert best == init + [best[|best| - 1]];
    }
  }

  /** One round of elimination: `c` removes what it beats, and joins unless something beats it. */
  function EliminationStep<T>(cmp: Comparer<T>, best: seq<T>, c: T): seq<T> {
    NotBeatenBy(cmp, best, c) + (if BeatenBySome(cmp, best, c) then [] else [c])
  }

  /** The `best` list after every candidate has been considered, in order. */
  function Survivors<T>(cmp: Comparer<T>, candidates: seq<T>): seq<T> {
    if candidates == [] then []
    else EliminationStep(cmp, Survivors(cmp, candidates[..|candidates| - 1]), candidates[|candidates| - 1])
  }

  /** `List.Remove`: drop the first occurrence of `v`, if any. */
  function RemoveFirst<T(==)>(s: seq<T>, v: T): seq<T> {
    if s == [] then []
    else if s[0] == v then s[1..]
    else [s[0]] + RemoveFirst(s[1..], v)
  }

  lemma {:induction false} RemoveFirstAfterPrefix<T>(a: seq<T>, b: seq<T>, v: T)
    requires v !in a && b != [] && b[0] == v
    ensures RemoveFirst(a + b, v) == a + b[1..]
  {
    if a != [] {
      assert (a + b)[0] == a[0] && (a + b)[1..] == a[1..] + b;
      RemoveFirstAfterPrefix(a[1..], b, v);
    } else {
      assert a + b == b;
    }
  }

  lemma {:induction false} NotBeatenByExcludes<T>(cmp: Comparer<T>, best: seq<T>, c: T, v: T)
    requires cmp(c, v) == Better
    ensures v !in NotBeatenBy(cmp, best, c)
  {
    NotBeatenByMembers(cmp, best, c);
  }

  /** Moving the head of a suffix to the end of the prefix before it. */
  lemma {:induction false} MoveHeadAcross<T>(a: seq<T>, s: seq<T>, k: nat)
    requires k < |s|
    ensures a + s[k..] == (a + [s[k]]) + s[k + 1..]
  {
    assert s[k..] == [s[k]] + s[k + 1..];
  }

  lemma {:induction false} NotBeatenByStep<T>(cmp: Comparer<T>, s: seq<T>, k: nat, c: T)
    requires k < |s|
    ensures cmp(c, s[k]) == Better ==> NotBeatenBy(cmp, s[..k + 1], c) == NotBeatenBy(cmp, s[..k], c)
    ensures cmp(c, s[k]) != Better ==> NotBeatenBy(cmp, s[..k + 1], c) == NotBeatenBy(cmp, s[..k], c) + [s[k]]
    ensures BeatenBySome(cmp, s[..k + 1], c) == (BeatenBySome(cmp, s[..k], c) || cmp(c, s[k]) == Worse)
  {
    assert s[..k + 1][..k] == s[..k];
    if cmp(c, s[k]) == Better {
      assert NotBeatenBy(cmp, s[..k], c) + [] == NotBeatenBy(cmp, s[..k], c);
    }
  }

  /**
    The inner loop of `GetBestFunctionMember`: drop from `best` every member
    the candidate beats, and note whether some member beats the candidate.
    The comparison is a parameter; `GetBestFunctionMember` passes `Compare`,
    which `IsBetterFunctionMember` computes.
  */
  method EliminateBeaten<T(==)>(cmp: Comparer<T>, snapshot: seq<T>, candidate: T)
    returns (best: seq<T>, lessSpecific: bool)
    ensures best == NotBeatenBy(cmp, snapshot, candidate)
    ensures lessSpecific == BeatenBySome(cmp, snapshot, candidate)
  {
    best := snapshot;
    lessSpecific := false;
    for k := 0 to |snapshot|
      invariant best == NotBeatenBy(cmp, snapshot[..k], candidate) + snapshot[k..]
      invariant lessSpecific == BeatenBySome(cmp, snapshot[..k], candidate)
    {
      var better := snapshot[k];
      NotBeatenByStep(cmp, snapshot, k, candidate);
      var comparison := cmp(candidate, better);
      ghost var kept := NotBeatenBy(cmp, snapshot[..k], candidate);
      if comparison == Better {
        NotBeatenByExcludes(cmp, snapshot[..k], candidate, better);
        RemoveFirstAfterPrefix(kept, snapshot[k..], better);
        best := RemoveFirst(best, better);
        assert snapshot[k..][1..] == snapshot[k + 1..];
      } else {
        MoveHeadAcross(kept, snapshot, k);
        if comparison == Worse {
          lessSpecific := true;
        }
      }
    }
    assert snapshot[..|snapshot|] == snapshot;
    assert snapshot[|snapshot|..] == [];
    assert best == NotBeatenBy(cmp, snapshot, candidate) + [];
  }

  /** Every survivor is one of the candidates. */
  lemma {:induction false} SurvivorsAreCandidates<T>(cmp: Comparer<T>, candidates: seq<T>)
    ensures forall x | x in Survivors(cmp, candidates) :: x in candidates
  {
    if candidates != [] {
      var init := candidates[..|candidates| - 1];
      SurvivorsAreCandidates(cmp, init);
      NotBeatenByMembers(cmp, Survivors(cmp, init), candidates[|candidates| - 1]);
      assert forall x | x in init :: x in candidates;
    }
  }

  /** Elimination never empties a non-empty candidate list when Better and Worse mirror each other. */
  lemma {:induction false} SurvivorsNonEmpty<T>(cmp: Comparer<T>, candidates: seq<T>)
    requires forall a, b :: cmp(a, b) == Worse ==> cmp(b, a) == Better
    requires candidates != []
    ensures Survivors(cmp, candidates) != []
  {
    var init := candidates[..|candidates| - 1];
    var c := candidates[|candidates| - 1];
    var prev := Survivors(cmp, init);
    if init != [] {
      SurvivorsNonEmpty(cmp, init);
      BeatenBySomeIff(cmp, prev, c);
      if BeatenBySome(cmp, prev, c) {
        var b :| b in prev && cmp(c, b) == Worse;
        NotBeatenByMembers(cmp, prev, c);
        assert b in NotBeatenBy(cmp, prev, c);
      }
    }
  }

  /**
    A candidate that beats every other candidate is the unique survivor
    (section 7.5.3.2 of the C# 5.0 specification: the best function member).
  */
  lemma {:induction false} DominantCandidateSurvives<T>(cmp: Comparer<T>, candidates: seq<T>, j: nat)
    requires j < |candidates|
    requires forall k | 0 <= k < |candidates| && k != j ::
      cmp(candidates[j], candidates[k]) == Better && cmp(candidates[k], candidates[j]) == Worse
    ensures Survivors(cmp, candidates) == [candidates[j]]
  {
    var c := candidates[j];
    var n := |candidates|;
    var init := candidates[..n - 1];
    if j == n - 1 {
      var prev := Survivors(cmp, init);
      SurvivorsAreCandidates(cmp, init);
      forall i | 0 <= i < |prev| ensures cmp(c, prev[i]) == Better {
        assert prev[i] in prev;
        var k :| 0 <= k < n - 1 && init[k] == prev[i];
        assert candidates[k] == prev[i];
      }
      NotBeatenByAllBeaten(cmp, prev, c);
      BeatenBySomeIff(cmp, prev, c);
      assert !BeatenBySome(cmp, prev, c);
      assert Survivors(cmp, candidates) == [] + [c];
    } else {
      DominantCandidateSurvives(cmp, init, j);
      var last := candidates[n - 1];
      assert cmp(c, last) == Better && cmp(last, c) == Worse;
      assert Survivors(cmp, candidates) == EliminationStep(cmp, [c], last);
      assert [c][..0] == [];
      assert BeatenBySome(cmp, [c], last);
      assert NotBeatenBy(cmp, [c], last) == NotBeatenBy(cmp, [], last) + [c];
      assert EliminationStep(cmp, [c], last) == [c] + [];
    }
  }
}
