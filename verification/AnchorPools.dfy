/**
 The claim-anchor lineage pool: the nullifiers that currently confer claim
 authority, with a stack of checkpoints per height for rewinding.
 */
module AnchorPools {
  import opened Basics

  /** Standing size of the pool. */
  const ANCHOR_POOL_SIZE: nat := 40

  datatype Pool = Pool(live: set<Nullifier>,
                       checkpoints: map<Height, set<Nullifier>>,
                       established: Option<Height>)

  const EMPTY_POOL := Pool({}, map[], None)

  /** A ceremony output joins until adoption first reaches standing size. */
  function Adopt(p: Pool, height: Height, nf: Nullifier): Pool {
    if p.established.Some? || |p.live| >= ANCHOR_POOL_SIZE || nf in p.live then p
    else
      var live := p.live + {nf};
      Pool(live, p.checkpoints[height := live],
           if |live| == ANCHOR_POOL_SIZE then Some(height) else p.established)
  }

  /** The live anchors one transaction spends. */
  function Retired(p: Pool, nfs: seq<Nullifier>): set<Nullifier> {
    set nf | nf in nfs && nf in p.live
  }

  /** Every spent anchor leaves; a successor is seated only for exactly one of them. */
  function RetireSpent(p: Pool, nfs: seq<Nullifier>, successor: Option<Nullifier>, height: Height): Pool {
    var retired := Retired(p, nfs);
    if retired == {} then p
    else
      var kept := p.live - retired;
      var live := if |retired| == 1 && successor.Some? then kept + {successor.value} else kept;
      p.(live := live, checkpoints := p.checkpoints[height := live])
  }

  function TruncatePool(p: Pool, height: Height): Pool {
    Pool(LatestAt(p.checkpoints, height, {}),
         map k | k in p.checkpoints && k <= height :: p.checkpoints[k],
         if p.established.Some? && p.established.value > height then None else p.established)
  }

  /** What every pool reached at or below height `tip` satisfies. */
  ghost predicate PoolInv(p: Pool, tip: Height) {
    && (forall k | k in p.checkpoints :: k <= tip)
    && p.live == LatestAt(p.checkpoints, tip, {})
    && (p.established.Some? ==> p.established.value <= tip)
    && |p.live| <= ANCHOR_POOL_SIZE
    && (|p.live| == ANCHOR_POOL_SIZE ==> p.established.Some?)
    && (forall k | k in p.checkpoints ::
          && |p.checkpoints[k]| <= ANCHOR_POOL_SIZE
          && (|p.checkpoints[k]| == ANCHOR_POOL_SIZE ==> p.established.Some? && p.established.value <= k))
  }

  lemma SeatingKeepsSize(live: set<Nullifier>, retired: set<Nullifier>, nf: Nullifier)
    requires retired <= live && |retired| == 1
    ensures |live - retired + {nf}| <= |live|
    ensures nf !in live ==> |live - retired + {nf}| == |live|
  {
    assert live == (live - retired) + retired;
    assert |live - retired| == |live| - 1;
    if nf in live - retired {
      assert live - retired + {nf} == live - retired;
    }
  }

  lemma RemovalSize(live: set<Nullifier>, retired: set<Nullifier>)
    requires retired <= live && retired != {}
    ensures |live - retired| < |live|
  {
    assert live == (live - retired) + retired;
  }

  lemma AdoptKeepsInv(p: Pool, height: Height, nf: Nullifier, tip: Height)
    requires PoolInv(p, tip) && tip <= height
    ensures PoolInv(Adopt(p, height, nf), height)
    ensures |p.live| <= |Adopt(p, height, nf).live| <= |p.live| + 1
  {
    LatestRaised(p.checkpoints, tip, height, {});
    if Adopt(p, height, nf) != p {
      LatestOfPut(p.checkpoints, height, p.live + {nf}, height, {});
    }
  }

  /** Authority cannot be minted: retiring never enlarges the live set. */
  lemma RetireKeepsInv(p: Pool, nfs: seq<Nullifier>, successor: Option<Nullifier>, height: Height, tip: Height)
    requires PoolInv(p, tip) && tip <= height
    ensures PoolInv(RetireSpent(p, nfs, successor, height), height)
    ensures |RetireSpent(p, nfs, successor, height).live| <= |p.live|
    ensures RetireSpent(p, nfs, successor, height).established == p.established
  {
    LatestRaised(p.checkpoints, tip, height, {});
    var retired := Retired(p, nfs);
    if retired != {} {
      var q := RetireSpent(p, nfs, successor, height);
      LatestOfPut(p.checkpoints, height, q.live, height, {});
      RemovalSize(p.live, retired);
      if |retired| == 1 && successor.Some? {
        SeatingKeepsSize(p.live, retired, successor.value);
      }
    }
  }

  /** Every spent anchor leaves; the successor takes the place of exactly one, and of no more than one. */
  lemma RetireSeats(p: Pool, nfs: seq<Nullifier>, successor: Option<Nullifier>, height: Height)
    ensures var after := RetireSpent(p, nfs, successor, height);
      && (forall nf | nf in nfs && nf in p.live && (forall x | x in nfs && x in p.live :: x == nf) ::
            after.live == p.live - {nf} + if successor.Some? then {successor.value} else {})
      && (forall nf, x | nf in nfs && nf in p.live && x in nfs && x in p.live && x != nf :: after.live == p.live - ToSet(nfs))
      && (if exists nf :: nf in nfs && nf in p.live then after.checkpoints == p.checkpoints[height := after.live] else after == p)
  {
    var retired := Retired(p, nfs);
    forall nf | nf in nfs && nf in p.live && (forall x | x in nfs && x in p.live :: x == nf)
      ensures RetireSpent(p, nfs, successor, height).live == p.live - {nf} + if successor.Some? then {successor.value} else {}
    {
      assert retired == {nf};
    }
    forall nf, x | nf in nfs && nf in p.live && x in nfs && x in p.live && x != nf
      ensures RetireSpent(p, nfs, successor, height).live == p.live - ToSet(nfs)
    {
      TwoApart(retired, nf, x);
      assert p.live - retired == p.live - ToSet(nfs);
    }
    if nf :| nf in nfs && nf in p.live { assert nf in retired; }
  }

  lemma TwoApart(s: set<Nullifier>, a: Nullifier, b: Nullifier)
    requires a in s && b in s && a != b
    ensures |s| >= 2
  {
    assert {a, b} <= s && s == {a, b} + (s - {a, b});
    assert |{a, b}| == 2;
  }

  /** Truncating at or above the tip changes nothing. */
  lemma TruncatePoolAtTip(p: Pool, tip: Height, height: Height)
    requires PoolInv(p, tip) && tip <= height
    ensures TruncatePool(p, height) == p
  {
    LatestRaised(p.checkpoints, tip, height, {});
    assert (map k | k in p.checkpoints && k <= height :: p.checkpoints[k]) == p.checkpoints;
  }

  /** A step above the truncation height leaves no trace. */
  lemma AdoptErased(p: Pool, at: Height, nf: Nullifier, height: Height)
    requires height < at
    ensures TruncatePool(Adopt(p, at, nf), height) == TruncatePool(p, height)
  {
    if Adopt(p, at, nf) != p {
      LatestAgree(p.checkpoints, p.checkpoints[at := p.live + {nf}], height, {});
    }
  }

  lemma RetireErased(p: Pool, nfs: seq<Nullifier>, successor: Option<Nullifier>, at: Height, height: Height)
    requires height < at
    ensures TruncatePool(RetireSpent(p, nfs, successor, at), height) == TruncatePool(p, height)
  {
    if RetireSpent(p, nfs, successor, at) != p {
      LatestAgree(p.checkpoints, RetireSpent(p, nfs, successor, at).checkpoints, height, {});
    }
  }

  /** Rewinding twice is rewinding once, to the lower height. */
  lemma TruncatePoolTwice(p: Pool, high: Height, low: Height)
    requires low <= high
    ensures TruncatePool(TruncatePool(p, high), low) == TruncatePool(p, low)
  {
    LatestAgree(p.checkpoints, TruncatePool(p, high).checkpoints, low, {});
  }

  lemma TruncateKeepsInv(p: Pool, tip: Height, height: Height)
    requires PoolInv(p, tip) && height <= tip
    ensures PoolInv(TruncatePool(p, height), height)
  {
    TruncatePoolTwice(p, height, height);
    var keys := set j | j in p.checkpoints && j <= height;
    assert forall j | j in p.checkpoints && j <= height :: j in keys;
    if keys != {} {
      assert IsLatest(p.checkpoints, height, Greatest(keys));
    }
  }

  /** The pool the Registry owns, updated in place. */
  class AnchorPool {
    var live: set<Nullifier>
    var checkpoints: map<Height, set<Nullifier>>
    var established: Option<Height>

    ghost function View(): Pool
      reads this
    {
      Pool(live, checkpoints, established)
    }

    constructor ()
      ensures View() == EMPTY_POOL
    {
      live, checkpoints, established := {}, map[], None;
    }

    method AdoptAnchor(height: Height, nf: Nullifier)
      modifies this
      ensures View() == Adopt(old(View()), height, nf)
    {
      if established.Some? || |live| >= ANCHOR_POOL_SIZE {
        return;
      }
      if nf !in live {
        live := live + {nf};
        if |live| == ANCHOR_POOL_SIZE {
          established := Some(height);
        }
        checkpoints := checkpoints[height := live];
      }
    }

    method Retire(nfs: seq<Nullifier>, successor: Option<Nullifier>, height: Height)
      modifies this
      ensures View() == RetireSpent(old(View()), nfs, successor, height)
    {
      var retired := 0;
      ghost var gone: set<Nullifier> := {};
      for i := 0 to |nfs|
        invariant checkpoints == old(checkpoints) && established == old(established)
        invariant gone == set nf | nf in nfs[..i] && nf in old(live)
        invariant live == old(live) - gone && retired == |gone|
      {
        assert nfs[..i + 1] == nfs[..i] + [nfs[i]];
        if nfs[i] in live {
          live := live - {nfs[i]};
          retired := retired + 1;
          gone := gone + {nfs[i]};
        }
      }
      assert nfs[..|nfs|] == nfs;
      assert gone == Retired(old(View()), nfs);
      var changed := retired > 0;
      if retired == 1 && successor.Some? {
        live := live + {successor.value};
      }
      if changed {
        checkpoints := checkpoints[height := live];
      }
    }

    method TruncateTo(height: Height)
      modifies this
      ensures View() == TruncatePool(old(View()), height)
    {
      if established.Some? && established.value > height {
        established := None;
      }
      checkpoints := map k | k in checkpoints && k <= height :: checkpoints[k];
      if checkpoints.Keys == {} {
        LatestAgree(old(checkpoints), checkpoints, height, {});
        live := {};
      } else {
        var top := Greatest(checkpoints.Keys);
        LatestAgree(old(checkpoints), checkpoints, height, {});
        assert IsLatest(checkpoints, height, top);
        live := checkpoints[top];
      }
    }
  }
}
