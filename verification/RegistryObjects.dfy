/** The registry as the mint holds it: maps updated in place, transaction by transaction. */
module RegistryObjects {
  import opened Basics
  import opened NameNotes
  import opened AnchorPools
  import opened Listings
  import opened Registries
  import opened RegistryLaws
  import opened MarketRules

  /** A strictly ascending sequence is determined by its elements. */
  lemma {:induction false} AscendingUnique(a: seq<nat>, b: seq<nat>)
    requires forall i, j | 0 <= i < j < |a| :: a[i] < a[j]
    requires forall i, j | 0 <= i < j < |b| :: b[i] < b[j]
    requires forall x :: x in a <==> x in b
    ensures a == b
  {
    assert (|b| > 0 ==> b[0] in a) && (|a| > 0 ==> a[0] in b);
    if a != [] {
      assert a[0] == b[0];
      assert a == [a[0]] + a[1..] && b == [b[0]] + b[1..];
      forall x ensures x in a[1..] <==> x in b[1..] {
        if x in a[1..] { assert x in a && x != a[0]; }
        if x in b[1..] { assert x in b && x != b[0]; }
      }
      AscendingUnique(a[1..], b[1..]);
    }
  }

  /** `names` are the members of `chosen` among `keys`, in the same rising order. */
  ghost predicate Picks(keys: seq<Name>, chosen: set<Name>, names: seq<Name>) {
    && (forall a, b | 0 <= a < b < |names| :: names[a] < names[b])
    && (forall x :: x in names <==> x in keys && x in chosen)
  }

  lemma PickNext(keys: seq<Name>, i: nat, chosen: set<Name>, names: seq<Name>)
    requires i < |keys| && Picks(keys[..i], chosen, names)
    requires forall a, b | 0 <= a < b < |keys| :: keys[a] < keys[b]
    ensures Picks(keys[..i + 1], chosen, if keys[i] in chosen then names + [keys[i]] else names)
  {
    assert keys[..i + 1] == keys[..i] + [keys[i]];
    forall a | 0 <= a < |names| ensures names[a] < keys[i] {
      assert names[a] in keys[..i];
    }
  }

  /** `cut` holds the chains of `names` that keep a record at or below `height`. */
  ghost predicate CutSoFar(history: History, names: seq<Name>, height: Height, cut: History) {
    && (forall n | n in names :: n in history)
    && (forall n :: n in cut <==> n in names && CutChain(history[n], height) != [])
    && (forall n | n in cut :: cut[n] == CutChain(history[n], height))
  }

  lemma CutNext(history: History, keys: seq<Name>, i: nat, height: Height, cut: History)
    requires i < |keys| && CutSoFar(history, keys[..i], height, cut) && keys[i] in history
    ensures var chain := CutChain(history[keys[i]], height);
      CutSoFar(history, keys[..i + 1], height, if chain != [] then cut[keys[i] := chain] else cut)
    ensures keys[i] !in keys[..i] ==> keys[i] !in cut
  {
    assert keys[..i + 1] == keys[..i] + [keys[i]];
  }

  lemma CutDone(history: History, keys: seq<Name>, height: Height, cut: History)
    requires CutSoFar(history, keys, height, cut) && forall n :: n in keys <==> n in history
    ensures cut == CutHistory(history, height)
  {
  }

  /** The walk over `names` split their listings into `kept` and `gone`. */
  ghost predicate SplitBy(listings: map<Name, Listing>, names: seq<Name>, drop: (Name, Listing) -> bool,
                           kept: map<Name, Listing>, gone: seq<Name>)
  {
    && (forall n | n in names :: n in listings)
    && (forall n :: n in gone <==> n in names && drop(n, listings[n]))
    && (forall i, j | 0 <= i < j < |gone| :: gone[i] < gone[j])
    && (forall n :: n in kept <==> n in names && !drop(n, listings[n]))
    && (forall n | n in kept :: kept[n] == listings[n])
  }

  lemma RetainNext(listings: map<Name, Listing>, keys: seq<Name>, i: nat, drop: (Name, Listing) -> bool,
                   kept: map<Name, Listing>, gone: seq<Name>)
    requires i < |keys| && SplitBy(listings, keys[..i], drop, kept, gone) && keys[i] in listings
    requires forall a, b | 0 <= a < b < |keys| :: keys[a] < keys[b]
    ensures var n := keys[i];
      if drop(n, listings[n]) then SplitBy(listings, keys[..i + 1], drop, kept, gone + [n])
      else SplitBy(listings, keys[..i + 1], drop, kept[n := listings[n]], gone)
  {
    assert keys[..i + 1] == keys[..i] + [keys[i]];
    forall a | 0 <= a < |gone| ensures gone[a] < keys[i] {
      assert gone[a] in keys[..i];
    }
  }

  function Spared(listings: map<Name, Listing>, drop: (Name, Listing) -> bool): map<Name, Listing> {
    map n | n in listings && !drop(n, listings[n]) :: listings[n]
  }

  lemma SplitDone(listings: map<Name, Listing>, keys: seq<Name>, drop: (Name, Listing) -> bool,
                  kept: map<Name, Listing>, gone: seq<Name>)
    requires SplitBy(listings, keys, drop, kept, gone) && forall n :: n in keys <==> n in listings
    ensures kept == Spared(listings, drop)
    ensures forall n :: n in gone <==> n in listings && drop(n, listings[n])
  {
  }

  /** Walks the listings in name order, keeps those `drop` spares and returns the names of the others, in order. */
  method Retain(held: map<Name, Listing>, drop: (Name, Listing) -> bool)
    returns (kept: map<Name, Listing>, gone: seq<Name>)
    ensures forall n :: n in gone <==> n in held && drop(n, held[n])
    ensures forall i, j | 0 <= i < j < |gone| :: gone[i] < gone[j]
    ensures kept == Spared(held, drop)
  {
    var keys := Ascending(held.Keys);
    kept, gone := map[], [];
    for i := 0 to |keys|
      invariant SplitBy(held, keys[..i], drop, kept, gone)
    {
      var n := keys[i];
      assert n in keys;
      RetainNext(held, keys, i, drop, kept, gone);
      if drop(n, held[n]) {
        gone := gone + [n];
      } else {
        kept := kept[n := held[n]];
      }
    }
    assert keys[..|keys|] == keys;
    SplitDone(held, keys, drop, kept, gone);
  }

  class Registry {
    var records: Records
    var history: History
    var listings: map<Name, Listing>
    const anchors: AnchorPool

    ghost function View(): Reg
      reads this, anchors
    {
      Reg(records, history, anchors.View())
    }

    constructor ()
      ensures View() == EMPTY_REG && listings == map[] && fresh(anchors)
    {
      records, history, listings := map[], map[], map[];
      anchors := new AnchorPool();
    }

    // -------------------------------------------------------------------------
    // The name chains
    // -------------------------------------------------------------------------

    method NamesSpent(nfs: seq<Nullifier>) returns (names: seq<Name>)
      ensures names == Ascending(NamesSpentBy(View(), nfs))
    {
      var keys := Ascending(records.Keys);
      names := [];
      ghost var spent := NamesSpentBy(View(), nfs);
      for i := 0 to |keys|
        invariant Picks(keys[..i], spent, names)
      {
        assert keys[i] in spent <==> records[keys[i]].nullifier in nfs;
        PickNext(keys, i, spent, names);
        if records[keys[i]].nullifier in nfs {
          names := names + [keys[i]];
        }
      }
      assert keys[..|keys|] == keys;
      AscendingUnique(names, Ascending(spent));
    }

    method PutRecord(rec: NameRecord)
      modifies this`records, this`history
      ensures View() == SetRecord(old(View()), rec)
    {
      var chain := if rec.name in history then history[rec.name] else [];
      history := history[rec.name := chain + [rec]];
      if rec.action.Release? {
        records := records - {rec.name};
      } else {
        records := records[rec.name := rec];
      }
    }

    method ReleaseName(name: Name, height: Height)
      modifies this`records, this`history
      ensures View() == if name in old(records) then SetRecord(old(View()), ReleasedCopy(old(records)[name], height)) else old(View())
    {
      if name in records {
        PutRecord(ReleasedCopy(records[name], height));
      }
    }

    method ReleaseSpent(nfs: seq<Nullifier>, height: Height)
      modifies this`records, this`history
      ensures View() == MarkReleased(old(View()), nfs, height)
    {
      var names := NamesSpent(nfs);
      ReleaseNames(names, height);
    }

    method ReleaseNames(names: seq<Name>, height: Height)
      modifies this`records, this`history
      ensures View() == ReleaseAll(old(View()), names, height)
    {
      for i := 0 to |names|
        invariant View() == ReleaseAll(old(View()), names[..i], height)
      {
        assert names[..i + 1][..i] == names[..i];
        ReleaseName(names[i], height);
      }
      assert names[..|names|] == names;
    }

    method Follow(nfs: seq<Nullifier>, height: Height)
      modifies this`records, this`history, anchors
      ensures View() == FollowSpends(old(View()), nfs, height)
    {
      anchors.Retire(nfs, None, height);
      ReleaseSpent(nfs, height);
    }

    method CountAnchors(nfs: seq<Nullifier>) returns (n: nat)
      ensures n == CountLive(anchors.View(), nfs)
    {
      n := 0;
      for i := 0 to |nfs|
        invariant n == CountLive(anchors.View(), nfs[..i])
      {
        assert nfs[..i + 1][..i] == nfs[..i];
        if nfs[i] in anchors.live {
          n := n + 1;
        }
      }
      assert nfs[..|nfs|] == nfs;
    }

    /** Offers a confirmed claim: spent anchors retire on any verdict, a successor is seated only on acceptance. */
    method OfferClaim(net: Network, note: NameNote, nullifier: Nullifier, successor: Option<Nullifier>,
                      nfs: seq<Nullifier>, height: Height, mtp: Timestamp, expiry: Height) returns (accepted: bool)
      requires note.ClaimNote?
      modifies this`records, this`history, anchors
      ensures (View(), accepted) == AcceptClaim(net, old(View()), note, nullifier, successor, nfs, height, mtp, expiry)
      ensures RegInv(old(View()), height) ==>
        ClaimRuled(net, old(View()), note, nullifier, successor, nfs, height, mtp, expiry, View(), accepted)
    {
      if RegInv(View(), height) { ClaimIsRuled(net, View(), note, nullifier, successor, nfs, height, mtp, expiry); }
      var spent := CountAnchors(nfs);
      var nameFree := note.name !in records;
      var names := NamesSpent(nfs);
      var chain := if note.name in history then history[note.name] else [];
      var early := chain != [] && chain[|chain| - 1].action.Release?
        && expiry <= chain[|chain| - 1].confirmedHeight + net.expiryDelta(chain[|chain| - 1].confirmedHeight);
      assert names == [] <==> NamesSpentBy(View(), nfs) == {};
      var seated := if spent == 1 && names == [] && nameFree && !early then successor else None;
      anchors.Retire(nfs, seated, height);
      assert NamesSpentBy(View(), nfs) == NamesSpentBy(old(View()), nfs);
      if successor.None? || spent != 1 || names != [] {
        ReleaseSpent(nfs, height);
        return false;
      }
      if !nameFree || early {
        return false;
      }
      PutRecord(Create(net, note, nullifier, height, mtp));
      return true;
    }

    /** Offers a confirmed update, release or sale. */
    method OfferSuccessor(net: Network, note: NameNote, nullifier: Nullifier, nfs: seq<Nullifier>,
                          height: Height, mtp: Timestamp) returns (accepted: bool)
      requires !note.ClaimNote?
      modifies this`records, this`history, anchors
      ensures (View(), accepted) == AcceptSuccessor(net, old(View()), note, nullifier, nfs, height, mtp)
      ensures RegInv(old(View()), height) ==>
        SuccessorRuled(net, old(View()), note, nullifier, nfs, height, mtp, View(), accepted)
    {
      if RegInv(View(), height) { SuccessorIsRuled(net, View(), note, nullifier, nfs, height, mtp); }
      var names := NamesSpent(nfs);
      var spent := CountAnchors(nfs);
      AnchorCount(anchors.View(), nfs);
      SingleName(NamesSpentBy(View(), nfs), note.name);
      if names != [note.name] || spent != 0 {
        Follow(nfs, height);
        return false;
      }
      assert note.name in NamesSpentBy(View(), nfs);
      var record := records[note.name];
      if note.prev != record.commitment {
        PutRecord(Create(net, ReleaseNote(note.name, record.ua, record.commitment), nullifier, height, mtp));
        return false;
      }
      PutRecord(Create(net, note, nullifier, height, mtp));
      return true;
    }

    method PopChain(full: seq<NameRecord>, height: Height) returns (chain: seq<NameRecord>)
      ensures chain == CutChain(full, height)
    {
      chain := full;
      while chain != [] && chain[|chain| - 1].confirmedHeight > height
        invariant CutChain(chain, height) == CutChain(full, height)
      {
        chain := chain[..|chain| - 1];
      }
    }

    /** Pops from every chain the records above `height`; a chain left empty goes. */
    method PopChains(height: Height)
      modifies this`history
      ensures history == CutHistory(old(history), height)
    {
      var keys := Ascending(history.Keys);
      var cut: History := map[];
      for i := 0 to |keys|
        invariant history == old(history)
        invariant CutSoFar(history, keys[..i], height, cut)
      {
        assert keys[i] in keys;
        var chain := PopChain(history[keys[i]], height);
        CutNext(history, keys, i, height, cut);
        if chain != [] {
          cut := cut[keys[i] := chain];
        }
      }
      assert keys[..|keys|] == keys;
      CutDone(history, keys, height, cut);
      history := cut;
    }

    /** Rewinds chains, live records and anchors together. */
    method TruncateToHeight(height: Height)
      modifies this`records, this`history, anchors
      ensures View() == TruncateReg(old(View()), height)
    {
      PopChains(height);
      records := LiveOf(history);
      anchors.TruncateTo(height);
    }

    // -------------------------------------------------------------------------
    // Listings, kept here and driven by the market
    // -------------------------------------------------------------------------

    /** A clock listing leaves on the block after its end. */
    method FinishClocks(height: Height) returns (done: seq<Name>)
      modifies this`listings
      ensures forall n :: n in done <==> n in old(listings) && ClockOver(old(listings)[n], height)
      ensures forall n | n in listings :: n in old(listings) && listings[n] == old(listings)[n] && !ClockOver(listings[n], height)
      ensures done == FinishedClocks(old(listings), height) && listings == old(listings) - ToSet(done)
    {
      listings, done := Retain(listings, (n: Name, l: Listing) => ClockOver(l, height));
      AscendingUnique(done, FinishedClocks(old(listings), height));
    }

    /** A listing leaves once its lister no longer holds the name. */
    method ReconcileListings() returns (lost: seq<Name>)
      modifies this`listings
      ensures forall n :: n in lost <==> n in old(listings) && !HeldBy(records, n, old(listings)[n].ua)
      ensures forall n | n in listings :: n in old(listings) && listings[n] == old(listings)[n] && HeldBy(records, n, listings[n].ua)
      ensures lost == LostListings(old(listings), records) && listings == old(listings) - ToSet(lost)
    {
      var live := records;
      listings, lost := Retain(listings, (n: Name, l: Listing) => !HeldBy(live, n, l.ua));
      AscendingUnique(lost, LostListings(old(listings), records));
    }

    method PutListing(l: Listing)
      modifies this`listings
      ensures listings == old(listings)[l.name := l]
    {
      listings := listings[l.name := l];
    }

    method RemoveListing(name: Name) returns (removed: bool)
      modifies this`listings
      ensures listings == old(listings) - {name} && removed == (name in old(listings))
    {
      removed := name in listings;
      listings := listings - {name};
    }

    method ClearListings()
      modifies this`listings
      ensures listings == map[]
    {
      listings := map[];
    }
  }

  lemma {:induction false} AnchorCount(p: Pool, nfs: seq<Nullifier>)
    ensures CountLive(p, nfs) == 0 <==> Retired(p, nfs) == {}
  {
    if nfs == [] {
      assert Retired(p, nfs) == {};
    } else {
      var rest, last := nfs[..|nfs| - 1], nfs[|nfs| - 1];
      AnchorCount(p, rest);
      assert nfs == rest + [last];
      if last in p.live {
        assert last in Retired(p, nfs);
      } else {
        assert Retired(p, nfs) == Retired(p, rest);
      }
    }
  }

  lemma SingleName(s: set<Name>, name: Name)
    ensures Ascending(s) == [name] <==> s == {name}
  {
    if s == {name} {
      AscendingUnique(Ascending(s), [name]);
    }
    if Ascending(s) == [name] {
      assert forall x :: x in s <==> x in [name];
    }
  }
}
