/**
 The run loop on scanned blocks: its registry is always the one the confirmation pass
 makes of the blocks still on the chain, so nothing those blocks spent is live.
 */
module MintChain {
  import opened Basics
  import opened NameNotes
  import opened Registries
  import opened MarketRules
  import opened MintLoop
  import opened BlockPasses
  import R = RegistryRuns

  /** What drives the loop: a scanned block with its memos and payments, a pass, the boot seal, a rewind. */
  datatype Input =
    | Arrive(block: ScannedChainBlock, arrivals: seq<Arrival>, payments: Payments)
    | Pause(pass: Pass)
    | Booted
    | Reorganise(to: Height, mtp: Timestamp)

  function TurnOf(input: Input, birthday: Height): Turn {
    match input
    case Arrive(b, arrivals, payments) => Extend(MintLoop.Block(b.mtp, StepsOf(b, birthday), arrivals, payments))
    case Pause(pass) => Decide(pass)
    case Booted => Seal
    case Reorganise(to, mtp) => Rewind(to, mtp)
  }

  function TurnsOf(inputs: seq<Input>, birthday: Height): seq<Turn> {
    if inputs == [] then []
    else TurnsOf(inputs[..|inputs| - 1], birthday) + [TurnOf(inputs[|inputs| - 1], birthday)]
  }

  function Cut(chain: seq<ScannedChainBlock>, height: Height): seq<ScannedChainBlock> {
    if chain == [] then []
    else
      var rest, last := Cut(chain[..|chain| - 1], height), chain[|chain| - 1];
      if last.height <= height then rest + [last] else rest
  }

  function Next(chain: seq<ScannedChainBlock>, input: Input): seq<ScannedChainBlock> {
    match input
    case Arrive(b, _, _) => chain + [b]
    case Reorganise(to, _) => Cut(chain, to)
    case _ => chain
  }

  /** The blocks still on the applied chain. */
  function Chain(inputs: seq<Input>): seq<ScannedChainBlock> {
    if inputs == [] then [] else Next(Chain(inputs[..|inputs| - 1]), inputs[|inputs| - 1])
  }

  /** Each block arrives at the next height, and each rewind stays on the applied chain. */
  ghost predicate InOrder(net: Network, inputs: seq<Input>, birthday: Height) {
    inputs != [] ==>
      var rest, last := inputs[..|inputs| - 1], inputs[|inputs| - 1];
      && InOrder(net, rest, birthday)
      && (last.Arrive? ==> last.block.height == Run(net, TurnsOf(rest, birthday)).height + 1)
      && (last.Reorganise? ==> last.to <= Run(net, TurnsOf(rest, birthday)).height)
  }

  lemma {:induction false} InputTurn(net: Network, inputs: seq<Input>, birthday: Height)
    requires inputs != []
    ensures var rest, turn := TurnsOf(inputs[..|inputs| - 1], birthday), TurnOf(inputs[|inputs| - 1], birthday);
      Run(net, TurnsOf(inputs, birthday)) == MintLoop.Take(net, Run(net, rest), turn)
  {
    var rest, turn := TurnsOf(inputs[..|inputs| - 1], birthday), TurnOf(inputs[|inputs| - 1], birthday);
    assert (rest + [turn])[..|rest|] == rest;
  }

  lemma TurnIsLegal(m: Mint, input: Input, birthday: Height)
    requires input.Arrive? ==> input.block.height == m.height + 1
    requires input.Reorganise? ==> input.to <= m.height
    ensures LegalTurn(m, TurnOf(input, birthday))
  {
    if input.Arrive? { TxsAtHeight(input.block.txs, input.block.height, input.block.mtp); }
  }

  lemma {:induction false} LegalAppend(net: Network, turns: seq<Turn>, turn: Turn)
    requires Legal(net, turns) && LegalTurn(Run(net, turns), turn)
    ensures Legal(net, turns + [turn])
  {
    assert (turns + [turn])[..|turns|] == turns;
  }

  /** Scanned blocks drive the loop legally: the pass stamps every step with its block's height. */
  lemma {:induction false} InOrderIsLegal(net: Network, inputs: seq<Input>, birthday: Height)
    requires InOrder(net, inputs, birthday)
    ensures Legal(net, TurnsOf(inputs, birthday))
  {
    if inputs != [] {
      var rest, last := inputs[..|inputs| - 1], inputs[|inputs| - 1];
      InOrderIsLegal(net, rest, birthday);
      var before := TurnsOf(rest, birthday);
      TurnIsLegal(Run(net, before), last, birthday);
      LegalAppend(net, before, TurnOf(last, birthday));
    }
  }

  // ---------------------------------------------------------------------------
  // Cutting blocks is cutting steps
  // ---------------------------------------------------------------------------

  lemma {:induction false} UpToConcat(a: seq<R.Step>, b: seq<R.Step>, h: Height)
    ensures R.UpTo(a + b, h) == R.UpTo(a, h) + R.UpTo(b, h)
  {
    if b == [] {
      assert a + b == a;
    } else {
      assert (a + b)[..|a| + |b| - 1] == a + b[..|b| - 1];
      UpToConcat(a, b[..|b| - 1], h);
    }
  }

  lemma {:induction false} UpToNone(steps: seq<R.Step>, h: Height)
    requires forall s | s in steps :: s.height > h
    ensures R.UpTo(steps, h) == []
  {
    if steps != [] { UpToNone(steps[..|steps| - 1], h); }
  }

  lemma {:induction false} CutSteps(chain: seq<ScannedChainBlock>, birthday: Height, h: Height)
    ensures R.UpTo(StepsOfChain(chain, birthday), h) == StepsOfChain(Cut(chain, h), birthday)
  {
    if chain != [] {
      var rest, last := chain[..|chain| - 1], chain[|chain| - 1];
      CutSteps(rest, birthday, h);
      UpToConcat(StepsOfChain(rest, birthday), StepsOf(last, birthday), h);
      TxsAtHeight(last.txs, last.height, last.mtp);
      if last.height <= h {
        R.UpToAll(StepsOf(last, birthday), h);
        assert (Cut(rest, h) + [last])[..|Cut(rest, h)|] == Cut(rest, h);
      } else {
        UpToNone(StepsOf(last, birthday), h);
      }
    }
  }

  // ---------------------------------------------------------------------------
  // The registry of the loop
  // ---------------------------------------------------------------------------

  ghost predicate ChainFits(chain: seq<ScannedChainBlock>, tip: Height) {
    RisingChain(chain) && forall i | 0 <= i < |chain| :: chain[i].height <= tip
  }

  lemma {:induction false} CutFits(chain: seq<ScannedChainBlock>, tip: Height, h: Height)
    requires ChainFits(chain, tip)
    ensures ChainFits(Cut(chain, h), h)
    ensures forall b | b in Cut(chain, h) :: b in chain
  {
    if chain != [] {
      var n := |chain| - 1;
      CutFits(chain[..n], tip, h);
      forall i | 0 <= i < |Cut(chain[..n], h)| ensures Cut(chain[..n], h)[i].height < chain[n].height {
        assert Cut(chain[..n], h)[i] in chain[..n];
      }
    }
  }

  lemma NextFits(net: Network, m: Mint, chain: seq<ScannedChainBlock>, input: Input, birthday: Height)
    requires ChainFits(chain, m.height)
    requires input.Arrive? ==> input.block.height == m.height + 1
    ensures ChainFits(Next(chain, input), MintLoop.Take(net, m, TurnOf(input, birthday)).height)
  {
    TurnFrame(net, m, TurnOf(input, birthday));
    if input.Reorganise? { CutFits(chain, m.height, input.to); }
  }

  lemma {:induction false} ChainFollows(net: Network, inputs: seq<Input>, birthday: Height)
    requires InOrder(net, inputs, birthday)
    ensures ChainFits(Chain(inputs), Run(net, TurnsOf(inputs, birthday)).height)
  {
    if inputs != [] {
      var rest, last := inputs[..|inputs| - 1], inputs[|inputs| - 1];
      ChainFollows(net, rest, birthday);
      InputTurn(net, inputs, birthday);
      NextFits(net, Run(net, TurnsOf(rest, birthday)), Chain(rest), last, birthday);
    }
  }

  lemma GrowPass(net: Network, chain: seq<ScannedChainBlock>, b: ScannedChainBlock, birthday: Height)
    ensures R.ApplyAll(net, R.Run(net, StepsOfChain(chain, birthday)), StepsOf(b, birthday)) ==
      R.Run(net, StepsOfChain(chain + [b], birthday))
  {
    assert (chain + [b])[..|chain|] == chain;
    ApplyAllConcat(net, EMPTY_REG, StepsOfChain(chain, birthday), StepsOf(b, birthday));
  }

  lemma CutPass(net: Network, chain: seq<ScannedChainBlock>, birthday: Height, h: Height)
    requires RisingChain(chain)
    ensures TruncateReg(R.Run(net, StepsOfChain(chain, birthday)), h) ==
      R.Run(net, StepsOfChain(Cut(chain, h), birthday))
  {
    ChainIsOrdered(chain, birthday);
    R.RewindIsPrefixReplay(net, StepsOfChain(chain, birthday), h);
    CutSteps(chain, birthday, h);
  }

  lemma NextPass(net: Network, m: Mint, chain: seq<ScannedChainBlock>, input: Input, birthday: Height)
    requires RisingChain(chain) && m.reg == R.Run(net, StepsOfChain(chain, birthday))
    ensures MintLoop.Take(net, m, TurnOf(input, birthday)).reg == R.Run(net, StepsOfChain(Next(chain, input), birthday))
  {
    TurnFrame(net, m, TurnOf(input, birthday));
    match input
    case Arrive(b, _, _) => GrowPass(net, chain, b, birthday);
    case Reorganise(to, _) => CutPass(net, chain, birthday, to);
    case _ =>
  }

  /** After any blocks, passes and rewinds, the loop's registry is the confirmation pass over the blocks that survive. */
  lemma {:induction false} RegistryIsThePass(net: Network, inputs: seq<Input>, birthday: Height)
    requires InOrder(net, inputs, birthday)
    ensures Run(net, TurnsOf(inputs, birthday)).reg == R.Run(net, StepsOfChain(Chain(inputs), birthday))
  {
    if inputs != [] {
      var rest, last := inputs[..|inputs| - 1], inputs[|inputs| - 1];
      RegistryIsThePass(net, rest, birthday);
      ChainFollows(net, rest, birthday);
      InputTurn(net, inputs, birthday);
      NextPass(net, Run(net, TurnsOf(rest, birthday)), Chain(rest), last, birthday);
    }
  }

  /**
   Over every run of the loop, rewinds included: no live name and no live anchor carries
   a nullifier that a transaction still on the applied chain revealed.
   */
  lemma RevealedIsDeadInTheLoop(net: Network, inputs: seq<Input>, birthday: Height)
    requires InOrder(net, inputs, birthday) && R.FreshRun(StepsOfChain(Chain(inputs), birthday))
    ensures R.NoAuthorityIn(Run(net, TurnsOf(inputs, birthday)).reg, RevealedBy(Chain(inputs), birthday))
  {
    RegistryIsThePass(net, inputs, birthday);
    ChainFollows(net, inputs, birthday);
    RevealedIsDead(net, Chain(inputs), birthday);
  }
}
