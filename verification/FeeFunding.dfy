/** Funding a Name Note's fee from the Treasury: largest notes first, until they cover the fee they cause. */
module FeeFunding {

  /** ZIP 317: actions below this count cost as much as this count. */
  const GRACE_ACTIONS: nat := 2

  function Max(a: nat, b: nat): nat {
    if a < b then b else a
  }

  /** Ironwood actions of a transaction spending the authority and `feeNotes` Treasury notes. */
  function ActionCount(feeNotes: nat, claim: bool): nat {
    Max(Max(1 + feeNotes, if claim then 3 else 2), 2)
  }

  function Fee(marginal: nat, feeNotes: nat, claim: bool): nat {
    marginal * Max(GRACE_ACTIONS, ActionCount(feeNotes, claim))
  }

  /** The outputs of a Name Note transaction; only a claim seats a successor. */
  datatype Created = TheNameNote | TheSuccessorAnchor | TheChange

  /**
   ZIP 317 on this transaction: an action carries one spend and one output, so the fee
   is the marginal fee for as many as the longer side needs, two at least.
   */
  lemma FeeOfTransaction<S>(marginal: nat, spends: seq<S>, feeNotes: seq<S>, authority: S, outputs: seq<Created>, claim: bool)
    requires spends == [authority] + feeNotes
    requires outputs == if claim then [TheNameNote, TheSuccessorAnchor, TheChange] else [TheNameNote, TheChange]
    ensures exists actions: nat ::
      && actions >= 2 && actions >= |spends| && actions >= |outputs|
      && (actions == 2 || actions == |spends| || actions == |outputs|)
      && Fee(marginal, |feeNotes|, claim) == marginal * actions
  {
    assert Fee(marginal, |feeNotes|, claim) == marginal * Max(GRACE_ACTIONS, ActionCount(|feeNotes|, claim));
  }

  function Sum(s: seq<nat>): nat {
    if s == [] then 0 else s[0] + Sum(s[1..])
  }

  /** These notes pay for the transaction they make. */
  predicate Covers(marginal: nat, claim: bool, pick: seq<nat>) {
    Sum(pick) >= Fee(marginal, |pick|, claim)
  }

  /** A choice of notes, each used at most once. */
  ghost predicate Choice(pick: seq<nat>, notes: seq<nat>) {
    multiset(pick) <= multiset(notes)
  }

  ghost predicate Descending(s: seq<nat>) {
    forall i, j | 0 <= i < j < |s| :: s[i] >= s[j]
  }

  function Insert(x: nat, s: seq<nat>): (r: seq<nat>)
    ensures multiset(r) == multiset(s) + multiset{x}
  {
    if s == [] || x >= s[0] then
      assert multiset([x] + s) == multiset{x} + multiset(s);
      [x] + s
    else
      assert s == [s[0]] + s[1..];
      [s[0]] + Insert(x, s[1..])
  }

  /** The candidates, largest first. */
  function LargestFirst(s: seq<nat>): (r: seq<nat>)
    ensures multiset(r) == multiset(s)
  {
    if s == [] then []
    else
      assert s == [s[0]] + s[1..];
      Insert(s[0], LargestFirst(s[1..]))
  }

  lemma InsertMembers(x: nat, s: seq<nat>, y: nat)
    requires y in Insert(x, s)
    ensures y == x || y in s
  {
    assert y in multiset(Insert(x, s));
    assert y in multiset(s) + multiset{x};
  }

  lemma {:induction false} InsertDescends(x: nat, s: seq<nat>)
    requires Descending(s)
    ensures Descending(Insert(x, s))
  {
    if s != [] && x < s[0] {
      InsertDescends(x, s[1..]);
      var r := Insert(x, s[1..]);
      forall i | 0 <= i < |r| ensures s[0] >= r[i] {
        InsertMembers(x, s[1..], r[i]);
      }
    }
  }

  lemma {:induction false} LargestFirstDescends(s: seq<nat>)
    ensures Descending(LargestFirst(s))
  {
    if s != [] {
      LargestFirstDescends(s[1..]);
      InsertDescends(s[0], LargestFirst(s[1..]));
    }
  }

  // ---------------------------------------------------------------------------
  // No choice beats the largest notes
  // ---------------------------------------------------------------------------

  lemma {:induction false} SumConcat(a: seq<nat>, b: seq<nat>)
    ensures Sum(a + b) == Sum(a) + Sum(b)
  {
    if a == [] {
      assert a + b == b;
    } else {
      assert (a + b)[1..] == a[1..] + b;
      SumConcat(a[1..], b);
    }
  }

  lemma {:induction false} SumRemove(s: seq<nat>, i: nat)
    requires i < |s|
    ensures Sum(s) == s[i] + Sum(s[..i] + s[i + 1..])
  {
    if i == 0 {
      assert s[..0] + s[1..] == s[1..];
    } else {
      SumRemove(s[1..], i - 1);
      assert (s[..i] + s[i + 1..])[1..] == s[1..][..i - 1] + s[1..][i..];
    }
  }

  lemma MultisetRemove(s: seq<nat>, i: nat)
    requires i < |s|
    ensures multiset(s) == multiset(s[..i] + s[i + 1..]) + multiset{s[i]}
  {
    assert s == s[..i] + [s[i]] + s[i + 1..];
  }

  lemma {:induction false} ShiftedSum(s: seq<nat>, k: nat)
    requires Descending(s) && k < |s|
    ensures Sum(s[1..k + 1]) <= Sum(s[..k])
  {
    if k > 0 {
      var rest := s[1..];
      assert s[1..k + 1] == [s[1]] + rest[1..k];
      assert s[..k] == [s[0]] + rest[..k - 1];
      ShiftedSum(rest, k - 1);
    }
  }

  lemma {:induction false} LargestAreBest(sorted: seq<nat>, pick: seq<nat>)
    requires Descending(sorted) && Choice(pick, sorted)
    ensures |pick| <= |sorted| && Sum(pick) <= Sum(sorted[..|pick|])
  {
    if sorted == [] {
      NothingToPick(pick);
    } else {
      assert sorted == [sorted[0]] + sorted[1..];
      if i :| 0 <= i < |pick| && pick[i] == sorted[0] {
        TakeTop(sorted[1..], pick, i);
        LargestAreBest(sorted[1..], pick[..i] + pick[i + 1..]);
        TopSum(sorted, pick, i);
      } else {
        SkipTop(sorted[0], sorted[1..], pick);
        LargestAreBest(sorted[1..], pick);
        assert sorted[1..][..|pick|] == sorted[1..|pick| + 1];
        ShiftedSum(sorted, |pick|);
      }
    }
  }

  lemma NothingToPick(pick: seq<nat>)
    requires Choice(pick, [])
    ensures pick == []
  {
    assert |multiset(pick)| == |pick|;
    assert multiset(pick) == multiset{};
  }

  lemma TopSum(sorted: seq<nat>, pick: seq<nat>, i: nat)
    requires sorted != [] && i < |pick| && pick[i] == sorted[0] && |pick| <= |sorted|
    requires Sum(pick[..i] + pick[i + 1..]) <= Sum(sorted[1..][..|pick| - 1])
    ensures Sum(pick) <= Sum(sorted[..|pick|])
  {
    SumRemove(pick, i);
    assert sorted[..|pick|][1..] == sorted[1..][..|pick| - 1];
  }

  lemma TakeTop(rest: seq<nat>, pick: seq<nat>, i: nat)
    requires i < |pick| && Choice(pick, [pick[i]] + rest)
    ensures Choice(pick[..i] + pick[i + 1..], rest)
  {
    var others := pick[..i] + pick[i + 1..];
    MultisetRemove(pick, i);
    assert multiset([pick[i]] + rest) == multiset{pick[i]} + multiset(rest);
    forall x ensures multiset(others)[x] <= multiset(rest)[x] {
      assert multiset(pick)[x] <= multiset([pick[i]] + rest)[x];
    }
  }

  lemma SkipTop(top: nat, rest: seq<nat>, pick: seq<nat>)
    requires top !in pick && Choice(pick, [top] + rest)
    ensures Choice(pick, rest)
  {
    assert multiset([top] + rest) == multiset{top} + multiset(rest);
    assert multiset(pick)[top] == 0;
  }

  /** While the largest notes fall short at every count below `n`, so does every choice of fewer than `n`. */
  lemma FewestCover(treasury: seq<nat>, candidates: seq<nat>, marginal: nat, claim: bool, n: nat)
    requires Descending(candidates) && multiset(candidates) == multiset(treasury) && n <= |candidates| + 1
    requires forall k | 0 <= k < n :: Sum(candidates[..k]) < Fee(marginal, k, claim)
    ensures forall pick | Choice(pick, treasury) && Covers(marginal, claim, pick) :: n <= |pick|
  {
    forall pick | Choice(pick, treasury) && Covers(marginal, claim, pick) ensures n <= |pick| {
      LargestAreBest(candidates, pick);
    }
  }

  lemma NoneCovers(treasury: seq<nat>, candidates: seq<nat>, marginal: nat, claim: bool)
    requires Descending(candidates) && multiset(candidates) == multiset(treasury)
    requires forall pick | Choice(pick, treasury) && Covers(marginal, claim, pick) :: |candidates| + 1 <= |pick|
    ensures forall pick | Choice(pick, treasury) :: !Covers(marginal, claim, pick)
  {
    forall pick | Choice(pick, treasury) ensures !Covers(marginal, claim, pick) {
      LargestAreBest(candidates, pick);
    }
  }

  datatype Funding = Funded(notes: seq<nat>, fee: nat, change: nat) | FeeUnfunded

  /**
   The Treasury loop: it ends, spends the fewest notes any covering choice spends,
   gives up exactly when no choice covers its own fee, and returns the rest as change.
   */
  method FundFee(treasury: seq<nat>, marginal: nat, claim: bool) returns (f: Funding)
    ensures f.FeeUnfunded? <==> forall pick | Choice(pick, treasury) :: !Covers(marginal, claim, pick)
    ensures f.Funded? ==>
      && Choice(f.notes, treasury)
      && f.fee == Fee(marginal, |f.notes|, claim)
      && Sum(f.notes) == f.change + f.fee
      && forall pick | Choice(pick, treasury) && Covers(marginal, claim, pick) :: |f.notes| <= |pick|
  {
    var candidates := LargestFirst(treasury);
    LargestFirstDescends(treasury);
    var chosen: seq<nat> := [];
    var funding := 0;
    while true
      invariant |chosen| <= |candidates| && chosen == candidates[..|chosen|]
      invariant funding == Sum(chosen)
      invariant forall k | 0 <= k < |chosen| :: Sum(candidates[..k]) < Fee(marginal, k, claim)
      decreases |candidates| - |chosen|
    {
      var fee := Fee(marginal, |chosen|, claim);
      if funding >= fee {
        FewestCover(treasury, candidates, marginal, claim, |chosen|);
        PrefixIsChoice(candidates, |chosen|);
        assert Covers(marginal, claim, chosen);
        return Funded(chosen, fee, funding - fee);
      }
      if |chosen| == |candidates| {
        assert candidates[..|candidates|] == candidates;
        FewestCover(treasury, candidates, marginal, claim, |candidates| + 1);
        NoneCovers(treasury, candidates, marginal, claim);
        return FeeUnfunded;
      }
      var next := candidates[|chosen|];
      SumConcat(chosen, [next]);
      assert Sum([next]) == next;
      funding := funding + next;
      chosen := chosen + [next];
    }
  }

  lemma PrefixIsChoice(s: seq<nat>, k: nat)
    requires k <= |s|
    ensures Choice(s[..k], s)
  {
    assert s == s[..k] + s[k..];
    assert multiset(s) == multiset(s[..k]) + multiset(s[k..]);
  }
}
