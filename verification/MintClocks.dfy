/**
 The expiry horizon through rewinds: an address-only update is never refused by it
 exactly when each note the registry accepts is within the horizon of its own block.
 */
module MintClocks {
  import opened Basics
  import opened NameNotes
  import opened Registries
  import opened OrderQueues
  import opened MintLoop
  import opened MintConsistency
  import opened MintExclusion
  import opened MintOrders
  import opened MintHorizon
  import opened MintExamples
  import R = RegistryRuns
  import B = BlockPasses
  import AnchorPools
  import MarketBooks

  // ---------------------------------------------------------------------------
  // The clock at each height of the applied chain
  // ---------------------------------------------------------------------------

  /** The clock of each applied height, boot's first. */
  function Clocks(turns: seq<Turn>): seq<Timestamp> {
    if turns == [] then [0] else Advance(Clocks(turns[..|turns| - 1]), turns[|turns| - 1])
  }

  function Advance(before: seq<Timestamp>, turn: Turn): seq<Timestamp> {
    match turn
    case Extend(block) => before + [block.mtp]
    case Rewind(to, _) => if to < |before| then before[..to + 1] else before
    case _ => before
  }

  /** A block's clock is no earlier than its predecessor's, and a rewind restores the clock of its height. */
  ghost predicate KeepsTime(clocks: seq<Timestamp>, t: Turn) {
    && (t.Extend? ==> clocks != [] && clocks[|clocks| - 1] <= t.block.mtp)
    && (t.Rewind? ==> t.to < |clocks| && t.mtp == clocks[t.to])
  }

  ghost predicate Clocked(turns: seq<Turn>) {
    turns != [] ==> Clocked(turns[..|turns| - 1]) && KeepsTime(Clocks(turns[..|turns| - 1]), turns[|turns| - 1])
  }

  ghost predicate Rising(clocks: seq<Timestamp>) {
    forall i, j | 0 <= i <= j < |clocks| :: clocks[i] <= clocks[j]
  }

  /** `clocks` never falls, and ends at this height and clock. */
  ghost predicate Follows(clocks: seq<Timestamp>, height: Height, mtp: Timestamp) {
    |clocks| == height + 1 && clocks[height] == mtp && Rising(clocks)
  }

  lemma ClockFollows(clocks: seq<Timestamp>, height: Height, mtp: Timestamp, turn: Turn)
    requires Follows(clocks, height, mtp)
    requires turn.Extend? ==> mtp <= turn.block.mtp
    requires turn.Rewind? ==> turn.to <= height && turn.mtp == clocks[turn.to]
    ensures turn.Extend? ==> Follows(Advance(clocks, turn), height + 1, turn.block.mtp)
    ensures turn.Rewind? ==> Follows(Advance(clocks, turn), turn.to, turn.mtp)
    ensures !turn.Extend? && !turn.Rewind? ==> Follows(Advance(clocks, turn), height, mtp)
  {
  }

  lemma {:induction false} ClocksFollow(net: Network, turns: seq<Turn>)
    requires Legal(net, turns) && Clocked(turns)
    ensures Follows(Clocks(turns), Run(net, turns).height, Run(net, turns).mtp)
  {
    if turns != [] {
      var rest, last := turns[..|turns| - 1], turns[|turns| - 1];
      ClocksFollow(net, rest);
      TurnFrame(net, Run(net, rest), last);
      ClockFollows(Clocks(rest), Run(net, rest).height, Run(net, rest).mtp, last);
    }
  }

  // ---------------------------------------------------------------------------
  // One block
  // ---------------------------------------------------------------------------

  /** Every record is within the horizon after each step of the block. */
  ghost predicate StepsWithin(net: Network, r: Reg, steps: seq<R.Step>, mtp: Timestamp) {
    forall i | 0 <= i <= |steps| :: RecordsWithin(R.ApplyAll(net, r, steps[..i]).records, mtp)
  }

  /** An accepted note that does not release its name is its name's live record. */
  lemma AcceptedIsLive(net: Network, r: Reg, s: R.Step)
    requires (s.ClaimStep? || s.SuccessorStep?) && B.Accepts(net, r, s) && !s.note.ReleaseNote?
    ensures var after := R.Apply(net, r, s).records;
      s.note.name in after && after[s.note.name].expiresAt == s.note.ExpiryOf()
  {
  }

  lemma AcceptedStepsWithin(net: Network, r: Reg, steps: seq<R.Step>, mtp: Timestamp)
    requires StepsWithin(net, r, steps, mtp)
    ensures AcceptsWithin(net, r, steps, mtp)
  {
    forall i | 0 <= i < |steps| && AcceptedAt(net, r, steps, i) ensures WithinHorizon(steps[i].note.ExpiryOf(), mtp) {
      if !steps[i].note.ReleaseNote? {
        AcceptedIsLive(net, R.ApplyAll(net, r, steps[..i]), steps[i]);
        assert steps[..i + 1][..i] == steps[..i];
        assert RecordsWithin(R.ApplyAll(net, r, steps[..i + 1]).records, mtp);
      }
    }
  }

  lemma BlockWithinIff(net: Network, r: Reg, steps: seq<R.Step>, mtp: Timestamp)
    requires RecordsWithin(r.records, mtp)
    ensures StepsWithin(net, r, steps, mtp) <==> AcceptsWithin(net, r, steps, mtp)
  {
    if StepsWithin(net, r, steps, mtp) { AcceptedStepsWithin(net, r, steps, mtp); }
    if AcceptsWithin(net, r, steps, mtp) {
      forall i | 0 <= i <= |steps| ensures RecordsWithin(R.ApplyAll(net, r, steps[..i]).records, mtp) {
        forall k | 0 <= k < i && AcceptedAt(net, r, steps[..i], k) ensures WithinHorizon(steps[..i][k].note.ExpiryOf(), mtp) {
          assert steps[..i][..k] == steps[..k];
          assert AcceptedAt(net, r, steps, k);
        }
        ApplyAllWithin(net, r, steps[..i], mtp);
      }
    }
  }

  // ---------------------------------------------------------------------------
  // Every run, rewinds included
  // ---------------------------------------------------------------------------

  /** The live records are within the horizon after every turn so far and after every step of its blocks. */
  ghost predicate AlwaysWithin(net: Network, turns: seq<Turn>) {
    && RecordsWithin(Run(net, turns).reg.records, Run(net, turns).mtp)
    && (turns != [] ==>
          var rest, last := turns[..|turns| - 1], turns[|turns| - 1];
          && AlwaysWithin(net, rest)
          && (last.Extend? ==> StepsWithin(net, Run(net, rest).reg, last.block.steps, last.block.mtp)))
  }

  /** Each note the registry accepted was within the horizon of the block that carried it. */
  ghost predicate AcceptedWithin(net: Network, turns: seq<Turn>) {
    turns != [] ==>
      var rest, last := turns[..|turns| - 1], turns[|turns| - 1];
      && AcceptedWithin(net, rest)
      && (last.Extend? ==> AcceptsWithin(net, Run(net, rest).reg, last.block.steps, last.block.mtp))
  }

  /** At every height a rewind can reach, the records of that height are within the horizon of its clock. */
  ghost predicate WithinAtHeights(r: Reg, clocks: seq<Timestamp>) {
    forall h: Height | h < |clocks| :: RecordsWithin(TruncateReg(r, h).records, clocks[h])
  }

  lemma LaterStillWithin(records: Records, a: Timestamp, b: Timestamp)
    requires RecordsWithin(records, a) && a <= b
    ensures RecordsWithin(records, b)
  {
  }

  lemma TipWithin(r: Reg, tip: Height, clocks: seq<Timestamp>)
    requires RegInv(r, tip) && |clocks| == tip + 1 && WithinAtHeights(r, clocks)
    ensures RecordsWithin(r.records, clocks[tip])
  {
    R.TruncateAtTip(r, tip, tip);
    assert RecordsWithin(TruncateReg(r, tip).records, clocks[tip]);
  }

  lemma BlockHeights(net: Network, r: Reg, tip: Height, steps: seq<R.Step>, clocks: seq<Timestamp>, mtp: Timestamp)
    requires RegInv(r, tip) && forall s | s in steps :: s.height == tip + 1
    requires |clocks| == tip + 1 && WithinAtHeights(r, clocks) && clocks[tip] <= mtp && AcceptsWithin(net, r, steps, mtp)
    ensures WithinAtHeights(R.ApplyAll(net, r, steps), clocks + [mtp])
  {
    var reg := R.ApplyAll(net, r, steps);
    TipWithin(r, tip, clocks);
    LaterStillWithin(r.records, clocks[tip], mtp);
    ApplyAllWithin(net, r, steps, mtp);
    BlockSteps(net, r, steps, tip);
    R.TruncateAtTip(reg, tip + 1, tip + 1);
    forall h: Height | h < tip + 2 ensures RecordsWithin(TruncateReg(reg, h).records, (clocks + [mtp])[h]) {
      if h <= tip { assert RecordsWithin(TruncateReg(r, h).records, clocks[h]); }
    }
  }

  lemma RewindHeights(r: Reg, to: Height, clocks: seq<Timestamp>)
    requires to < |clocks| && WithinAtHeights(r, clocks)
    ensures WithinAtHeights(TruncateReg(r, to), clocks[..to + 1])
  {
    forall h: Height | h <= to ensures RecordsWithin(TruncateReg(TruncateReg(r, to), h).records, clocks[h]) {
      R.TruncateTwice(r, to, h);
    }
  }

  /** What one turn makes of the records at each height. */
  lemma TurnHeights(net: Network, r: Reg, tip: Height, turn: Turn, clocks: seq<Timestamp>, after: Reg)
    requires RegInv(r, tip) && |clocks| == tip + 1 && WithinAtHeights(r, clocks)
    requires turn.Extend? ==>
      && after == R.ApplyAll(net, r, turn.block.steps) && (forall s | s in turn.block.steps :: s.height == tip + 1)
      && clocks[tip] <= turn.block.mtp && AcceptsWithin(net, r, turn.block.steps, turn.block.mtp)
    requires turn.Rewind? ==> after == TruncateReg(r, turn.to) && turn.to <= tip
    requires !turn.Extend? && !turn.Rewind? ==> after == r
    ensures WithinAtHeights(after, Advance(clocks, turn))
  {
    match turn
    case Extend(block) => BlockHeights(net, r, tip, block.steps, clocks, block.mtp);
    case Rewind(to, _) => RewindHeights(r, to, clocks);
    case _ =>
  }

  lemma {:induction false} HeightsWithin(net: Network, turns: seq<Turn>)
    requires Legal(net, turns) && Clocked(turns) && AcceptedWithin(net, turns)
    ensures WithinAtHeights(Run(net, turns).reg, Clocks(turns))
  {
    if turns != [] {
      var rest := turns[..|turns| - 1];
      HeightsWithin(net, rest);
      ClocksFollow(net, rest);
      EveryTurnIsConsistent(net, rest);
      TurnFrame(net, Run(net, rest), turns[|turns| - 1]);
      TurnHeights(net, Run(net, rest).reg, Run(net, rest).height, turns[|turns| - 1], Clocks(rest), Run(net, turns).reg);
    }
  }

  lemma TipOfRun(net: Network, turns: seq<Turn>)
    requires Legal(net, turns) && Clocked(turns) && AcceptedWithin(net, turns)
    ensures RecordsWithin(Run(net, turns).reg.records, Run(net, turns).mtp)
  {
    HeightsWithin(net, turns);
    ClocksFollow(net, turns);
    EveryTurnIsConsistent(net, turns);
    TipWithin(Run(net, turns).reg, Run(net, turns).height, Clocks(turns));
  }

  lemma {:induction false} AcceptedKeepsWithin(net: Network, turns: seq<Turn>)
    requires Legal(net, turns) && Clocked(turns) && AcceptedWithin(net, turns)
    ensures AlwaysWithin(net, turns)
  {
    TipOfRun(net, turns);
    if turns != [] {
      var rest, last := turns[..|turns| - 1], turns[|turns| - 1];
      AcceptedKeepsWithin(net, rest);
      if last.Extend? {
        ClocksFollow(net, rest);
        LaterStillWithin(Run(net, rest).reg.records, Run(net, rest).mtp, last.block.mtp);
        BlockWithinIff(net, Run(net, rest).reg, last.block.steps, last.block.mtp);
      }
    }
  }

  lemma {:induction false} WithinNeedsAccepted(net: Network, turns: seq<Turn>)
    requires Legal(net, turns) && Clocked(turns) && AlwaysWithin(net, turns)
    ensures AcceptedWithin(net, turns)
  {
    if turns != [] {
      var rest, last := turns[..|turns| - 1], turns[|turns| - 1];
      WithinNeedsAccepted(net, rest);
      ClocksFollow(net, rest);
      if last.Extend? {
        LaterStillWithin(Run(net, rest).reg.records, Run(net, rest).mtp, last.block.mtp);
        BlockWithinIff(net, Run(net, rest).reg, last.block.steps, last.block.mtp);
      }
    }
  }

  lemma AddressOnlyIff(e: Expiry, mtp: Timestamp)
    ensures NameNotes.Extend(e, None, mtp) == Some(e) <==> WithinHorizon(e, mtp)
  {
  }

  /** The horizon would refuse no address-only update, at any time so far. */
  ghost predicate NeverRefused(net: Network, turns: seq<Turn>) {
    && PassesAll(Run(net, turns).reg.records, Run(net, turns).mtp)
    && (turns != [] ==>
          var rest, last := turns[..|turns| - 1], turns[|turns| - 1];
          && NeverRefused(net, rest)
          && (last.Extend? ==> forall i | 0 <= i <= |last.block.steps| ::
                PassesAll(R.ApplyAll(net, Run(net, rest).reg, last.block.steps[..i]).records, last.block.mtp)))
  }

  ghost predicate PassesAll(records: Records, mtp: Timestamp) {
    forall n | n in records :: NameNotes.Extend(records[n].expiresAt, None, mtp) == Some(records[n].expiresAt)
  }

  lemma PassesIff(records: Records, mtp: Timestamp)
    ensures PassesAll(records, mtp) <==> RecordsWithin(records, mtp)
  {
    forall n | n in records
      ensures NameNotes.Extend(records[n].expiresAt, None, mtp) == Some(records[n].expiresAt) <==> WithinHorizon(records[n].expiresAt, mtp)
    {
      AddressOnlyIff(records[n].expiresAt, mtp);
    }
  }

  lemma {:induction false} RefusedIff(net: Network, turns: seq<Turn>)
    ensures NeverRefused(net, turns) <==> AlwaysWithin(net, turns)
  {
    PassesIff(Run(net, turns).reg.records, Run(net, turns).mtp);
    if turns != [] {
      var rest, last := turns[..|turns| - 1], turns[|turns| - 1];
      RefusedIff(net, rest);
      if last.Extend? {
        forall i | 0 <= i <= |last.block.steps|
          ensures var records := R.ApplyAll(net, Run(net, rest).reg, last.block.steps[..i]).records;
            PassesAll(records, last.block.mtp) <==> RecordsWithin(records, last.block.mtp)
        {
          PassesIff(R.ApplyAll(net, Run(net, rest).reg, last.block.steps[..i]).records, last.block.mtp);
        }
      }
    }
  }

  /**
   Over every run, rewinds included, the horizon never refuses an address-only update of
   a live name exactly when each note the registry accepted was within the horizon of
   the block that carried it.
   */
  lemma HorizonIff(net: Network, turns: seq<Turn>)
    requires Legal(net, turns) && Clocked(turns)
    ensures NeverRefused(net, turns) <==> AcceptedWithin(net, turns)
  {
    RefusedIff(net, turns);
    if AcceptedWithin(net, turns) { AcceptedKeepsWithin(net, turns); }
    if AlwaysWithin(net, turns) { WithinNeedsAccepted(net, turns); }
  }

  // ---------------------------------------------------------------------------
  // A clock rewound under a signature
  // ---------------------------------------------------------------------------

  /** A ninety-nine year claim, signed at clock 200. */
  function LongClaim(ua: UnifiedAddress): NameNote {
    ClaimNote(1, ua, ClaimExpiry(Years(MAX_TERM_YEARS), 200))
  }

  /** A run whose registry holds the adopted anchor and nothing else, at the end of these clocks. */
  ghost predicate JustAdopted(net: Network, turns: seq<Turn>, clocks: seq<Timestamp>) {
    && OnTime(net, turns) && Clocks(turns) == clocks
    && Run(net, turns).reg == R.Apply(net, EMPTY_REG, Adopting()) && Run(net, turns).height == |clocks| - 1
  }

  ghost predicate OnTime(net: Network, turns: seq<Turn>) {
    Legal(net, turns) && Clocked(turns)
  }

  lemma {:induction false} NextClock(turns: seq<Turn>, t: Turn)
    ensures Clocks(turns + [t]) == Advance(Clocks(turns), t)
  {
    assert (turns + [t])[..|turns|] == turns;
  }

  lemma {:induction false} NextClocked(turns: seq<Turn>, t: Turn)
    requires Clocked(turns) && KeepsTime(Clocks(turns), t)
    ensures Clocked(turns + [t])
  {
    assert (turns + [t])[..|turns|] == turns;
  }

  lemma {:induction false} Tick(net: Network, turns: seq<Turn>, t: Turn) returns (after: seq<Turn>)
    requires OnTime(net, turns) && LegalTurn(Run(net, turns), t)
    requires KeepsTime(Clocks(turns), t)
    ensures after == turns + [t] && OnTime(net, after)
    ensures Run(net, after) == MintLoop.Take(net, Run(net, turns), t) && Clocks(after) == Advance(Clocks(turns), t)
  {
    NextTurn(net, turns, t);
    NextClock(turns, t);
    NextClocked(turns, t);
    after := turns + [t];
  }

  lemma AdoptTurn(net: Network) returns (turns: seq<Turn>)
    ensures JustAdopted(net, turns, [0, 100])
    ensures Run(net, turns).orders == [] && Run(net, turns).market.book == MarketBooks.EMPTY_BOOK
  {
    AdoptBlock(net, 100);
    turns := Tick(net, [], Extend(Block(100, [Adopting()], [], [])));
    assert [0] + [100] == [0, 100];
  }

  lemma QuietTurn(net: Network, turns: seq<Turn>) returns (after: seq<Turn>)
    requires JustAdopted(net, turns, [0, 100])
    requires Run(net, turns).orders == [] && Run(net, turns).market.book == MarketBooks.EMPTY_BOOK
    ensures JustAdopted(net, after, [0, 100, 200])
    ensures Run(net, after).orders == [] && Run(net, after).market.book == MarketBooks.EMPTY_BOOK && Run(net, after).mtp == 200
  {
    QuietBlock(net, Run(net, turns), 200, []);
    after := Tick(net, turns, Extend(Block(200, [], [], [])));
    assert [0, 100] + [200] == [0, 100, 200];
  }

  lemma SignTurn(net: Network, turns: seq<Turn>, ua: UnifiedAddress) returns (after: seq<Turn>)
    requires JustAdopted(net, turns, [0, 100, 200])
    requires Run(net, turns).orders == [] && Run(net, turns).market.book == MarketBooks.EMPTY_BOOK && Run(net, turns).mtp == 200
    ensures JustAdopted(net, after, [0, 100, 200]) && Run(net, after).mtp == 200
    ensures LongClaim(ua) in Unresolved(Run(net, after).orders)
  {
    var claim, m := PaidClaim(1, ua, Years(MAX_TERM_YEARS), 1), Run(net, turns);
    var pass := QuietPass([claim], map[]);
    ClaimAccepted(net, LongClaim(ua), 2, 150);
    FirstClaimOrdered(m, claim);
    PassFrame(m, pass);
    after := Tick(net, turns, Decide(pass));
    assert Run(net, after).orders[0].note == LongClaim(ua);
  }

  lemma BackTurn(net: Network, turns: seq<Turn>) returns (after: seq<Turn>)
    requires JustAdopted(net, turns, [0, 100, 200])
    ensures JustAdopted(net, after, [0, 100]) && after == turns + [Rewind(1, 100)]
  {
    RewoundTo1(net, Run(net, turns), 100);
    assert [0, 100, 200][..2] == [0, 100];
    after := Tick(net, turns, Rewind(1, 100));
  }

  lemma MineTurn(net: Network, turns: seq<Turn>, ua: UnifiedAddress) returns (after: seq<Turn>)
    requires JustAdopted(net, turns, [0, 100])
    ensures Legal(net, after) && Clocked(after) && turns <= after
    ensures var m := Run(net, after);
      m.mtp == 150 && 1 in m.reg.records && m.reg.records[1].expiresAt == LongClaim(ua).expiresAt
  {
    LongClaimConfirmed(net, Run(net, turns), ua);
    after := Tick(net, turns, Extend(Block(150, [Claiming(LongClaim(ua), 2, 150)], [], [])));
  }

  lemma AdoptionSurvives(net: Network)
    ensures var r := R.Apply(net, EMPTY_REG, Adopting()); TruncateReg(r, 1) == r
  {
    var r := R.Apply(net, EMPTY_REG, Adopting());
    AnchorPools.AdoptKeepsInv(EMPTY_REG.pool, 1, ANCHOR, 1);
    assert RegInv(r, 1);
    R.TruncateAtTip(r, 1, 1);
  }

  lemma RewoundTo1(net: Network, m: Mint, mtp: Timestamp)
    requires m.reg == R.Apply(net, EMPTY_REG, Adopting())
    ensures RewindMint(net, m, 1, mtp).reg == m.reg && RewindMint(net, m, 1, mtp).height == 1
  {
    AdoptionSurvives(net);
  }

  lemma LongClaimConfirmed(net: Network, m: Mint, ua: UnifiedAddress)
    requires m.reg == R.Apply(net, EMPTY_REG, Adopting()) && m.height == 1
    ensures var after := ExtendBy(net, m, Block(150, [Claiming(LongClaim(ua), 2, 150)], [], []));
      && after.mtp == 150 && 1 in after.reg.records && after.reg.records[1].expiresAt == LongClaim(ua).expiresAt
  {
    var block := Block(150, [Claiming(LongClaim(ua), 2, 150)], [], []);
    ClaimAccepted(net, LongClaim(ua), 2, 150);
    OneStep(net, m.reg, Claiming(LongClaim(ua), 2, 150));
    SettledFaculties(net, m, block);
    ExtendFrame(net, m, block);
    assert RouteAll(Settle(net, m, block), []) == Settle(net, m, block);
  }

  /**
   The mint signs the claim at clock 200; a rewind moves the clock back to 100; the
   claim is mined at clock 150, where its expiry lies past the horizon, and the holder's
   address-only update is refused.
   */
  lemma RewoundClockRefuses(net: Network, ua: UnifiedAddress) returns (signing: seq<Turn>, turns: seq<Turn>)
    ensures Legal(net, turns) && Clocked(turns) && signing <= turns
    ensures LongClaim(ua) in Unresolved(Run(net, signing).orders)
    ensures WithinHorizon(LongClaim(ua).ExpiryOf(), Run(net, signing).mtp)
    ensures var m := Run(net, turns);
      1 in m.reg.records && NameNotes.Extend(m.reg.records[1].expiresAt, None, m.mtp) == None
  {
    var adopted := AdoptTurn(net);
    var quiet := QuietTurn(net, adopted);
    signing := SignTurn(net, quiet, ua);
    var back := BackTurn(net, signing);
    turns := MineTurn(net, back, ua);
  }
}
