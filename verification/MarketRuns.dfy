/**
 Whole runs of the market, reorganisations included: the live book always
 agrees with the replay of the log, at the tip and at every height below it.
 */
module MarketRuns {
  import opened Basics
  import opened Listings
  import opened Registries
  import opened MarketBooks
  import opened MarketRules
  import opened MarketInvariants

  datatype Step =
    | ObserveStep(records: Records, payments: Payments, mtp: Timestamp, height: Height)
    | ExpireStep(mtp: Timestamp, height: Height)
    | ReconcileStep(records: Records, height: Height)
    | PollStep(records: Records, pending: set<Name>, height: Height)
    | AdmitStep(records: Records, request: Request, feeOk: bool, busy: bool, code: OtpCode, mtp: Timestamp, height: Height)
    | AnswerStep(records: Records, response: Response, height: Height)
    | RelayBuyStep(name: Name, height: Height)
    | RelayChallengeStep(code: OtpCode, height: Height)
    | SealStep(height: Height)
    | RewindStep(height: Height)

  /** The book when a height ended; `sealed` says that the buys of the log were sealed since. */
  datatype PastBook = PastBook(book: Book, sealed: bool)

  const UNTOUCHED := PastBook(EMPTY_BOOK, false)

  /**
   The market beside what a reader of its history would note down: `why[k]` is
   the step that logged entry `k`, and `ended[h]` the book when height `h` ended.
   */
  datatype Tracked = Tracked(book: Book, log: seq<Stamped>, why: seq<Step>, ended: map<Height, PastBook>, height: Height)

  const START := Tracked(EMPTY_BOOK, [], [], map[], 0)

  function EffectOf(b: Book, s: Step): Effect
    requires !s.SealStep? && !s.RewindStep?
  {
    match s
    case ObserveStep(records, payments, mtp, _) => Observe(b, records, payments, mtp)
    case ExpireStep(mtp, height) => Expire(b, mtp, height)
    case ReconcileStep(records, _) => Reconcile(b, records)
    case PollStep(records, pending, _) => Poll(b, records, pending)
    case AdmitStep(records, request, feeOk, busy, code, mtp, height) =>
      Admit(b, records, request, feeOk, busy, code, mtp, height)
    case AnswerStep(records, response, height) => Answer(b, records, response, height).0
    case RelayBuyStep(name, _) => Effect(RelayBuy(b, name), [])
    case RelayChallengeStep(code, _) => Effect(RelayChallenge(b, code), [])
  }

  function Repeat(s: Step, n: nat): seq<Step> {
    seq(n, _ => s)
  }

  function Take(t: Tracked, s: Step): Tracked {
    match s
    case RewindStep(h) =>
      var log := UpTo(t.log, h);
      Tracked(Replay(log), log, if |log| <= |t.why| then t.why[..|log|] else t.why,
              map k | k in t.ended && k <= h :: t.ended[k], h)
    case SealStep(h) =>
      t.(book := SealBook(t.book), log := SealLog(t.log),
         ended := SealEnded(t.ended)[h := PastBook(SealBook(t.book), false)])
    case _ =>
      var e := EffectOf(t.book, s);
      Tracked(e.book, t.log + Stamp(s.height, e.events), t.why + Repeat(s, |e.events|),
              t.ended[s.height := PastBook(e.book, false)], s.height)
  }

  function SealEnded(ended: map<Height, PastBook>): map<Height, PastBook> {
    map k | k in ended :: ended[k].(sealed := true)
  }

  function Run(steps: seq<Step>): Tracked {
    if steps == [] then START else Take(Run(steps[..|steps| - 1]), steps[|steps| - 1])
  }

  /** Heights never fall except by a rewind, which never rises. */
  ghost predicate LegalStep(t: Tracked, s: Step) {
    if s.RewindStep? then s.height <= t.height
    else if s.SealStep? then s.height == t.height
    else t.height <= s.height
  }

  ghost predicate Legal(steps: seq<Step>) {
    steps != [] ==> Legal(steps[..|steps| - 1]) && LegalStep(Run(steps[..|steps| - 1]), steps[|steps| - 1])
  }

  /** Agreement of the live book, and of the book each height ended with, with the log. */
  ghost predicate Agrees(t: Tracked) {
    && LogOrdered(t.log) && LogWithin(t.log, t.height)
    && |t.why| == |t.log|
    && Sim(t.book, Replay(t.log), true)
    && (forall k | k in t.ended :: k <= t.height)
    && (forall h: Height :: AgreesAt(t, h))
  }

  /** The log, cut at `h`, replays to a lawful book: the one that held when `h` ended. */
  ghost predicate AgreesAt(t: Tracked, h: Height) {
    BookInv(Replay(UpTo(t.log, h))) && EndedSim(LatestAt(t.ended, h, UNTOUCHED), Replay(UpTo(t.log, h)))
  }

  predicate AllRelayed(sales: seq<OpenSale>) {
    forall i | 0 <= i < |sales| && sales[i].phase.Paying? :: sales[i].phase.relayed
  }

  /**
   Listings, sales and challenges of the replay are those of the book; a relay flag of
   a challenge, and without a seal of a buy, is set in the replay only if it was set in
   the book. Once sealed, every replayed buy is relayed.
   */
  ghost predicate EndedSim(e: PastBook, r: Book) {
    && Sim(e.book, r, false)
    && ChallengesSim(e.book.challenges, r.challenges, true)
    && (if e.sealed then AllRelayed(r.sales) else SalesSim(e.book.sales, r.sales, true))
  }

  /** The flags agree too exactly when no buy that was unrelayed in the book was sealed since. */
  lemma StrictIff(e: PastBook, r: Book)
    requires EndedSim(e, r)
    ensures Sim(e.book, r, true) <==> (e.sealed ==> AllRelayed(e.book.sales))
  {
    forall i | 0 <= i < |r.sales|
      ensures SaleSim(e.book.sales[i], r.sales[i], false)
      ensures e.book.sales[i].phase.Paying? <==> r.sales[i].phase.Paying?
    {
    }
    if e.sealed && Sim(e.book, r, true) {
      forall i | 0 <= i < |e.book.sales| && e.book.sales[i].phase.Paying? ensures e.book.sales[i].phase.relayed {
        assert SaleSim(e.book.sales[i], r.sales[i], true);
      }
    }
  }

  lemma StrictEnded(b: Book, r: Book)
    requires Sim(b, r, true)
    ensures EndedSim(PastBook(b, false), r)
  {
    SimWeaken(b, r);
  }

  lemma LiveInv(t: Tracked)
    requires Agrees(t)
    ensures BookInv(t.book)
  {
    UpToAll(t.log, t.height, t.height);
    assert AgreesAt(t, t.height);
    InvOfSim(t.book, Replay(t.log), true);
  }

  lemma EffectOk(b: Book, s: Step)
    requires BookInv(b) && !s.SealStep? && !s.RewindStep?
    ensures BookInv(EffectOf(b, s).book) && Logged(b, EffectOf(b, s))
  {
    match s
    case ObserveStep(records, payments, mtp, _) => ObserveOk(b, records, payments, mtp);
    case ExpireStep(mtp, height) => ExpireOk(b, mtp, height);
    case ReconcileStep(records, _) => ReconcileOk(b, records);
    case PollStep(records, pending, _) => PollOk(b, records, pending);
    case AdmitStep(records, request, feeOk, busy, code, mtp, height) =>
      AdmitOk(b, records, request, feeOk, busy, code, mtp, height);
    case AnswerStep(records, response, height) => AnswerOk(b, records, response, height);
    case RelayBuyStep(name, _) => InvOfSim(RelayBuy(b, name), b, true);
    case RelayChallengeStep(code, _) => InvOfSim(RelayChallenge(b, code), b, true);
  }

  lemma EffectAgrees(t: Tracked, s: Step)
    requires Agrees(t) && LegalStep(t, s) && !s.SealStep? && !s.RewindStep?
    ensures Agrees(Take(t, s))
  {
    var u := Take(t, s);
    var e := EffectOf(t.book, s);
    LiveInv(t);
    EffectOk(t.book, s);
    ApplyAllSim(t.book, Replay(t.log), e.events, true);
    ReplayStamped(t.log, s.height, e.events);
    SimTransitive(e.book, ApplyAll(t.book, e.events), Replay(u.log), true);
    SimWeaken(e.book, Replay(u.log));
    InvOfSim(Replay(u.log), e.book, false);
    forall h: Height
      ensures AgreesAt(u, h)
    {
      if h < s.height {
        UpToStamped(t.log, s.height, e.events, h);
        LatestAgree(t.ended, u.ended, h, UNTOUCHED);
        assert AgreesAt(t, h);
      } else {
        UpToAll(u.log, s.height, h);
        LatestOfPut(t.ended, s.height, PastBook(e.book, false), h, UNTOUCHED);
        StrictEnded(e.book, Replay(u.log));
      }
    }
  }

  lemma RewindAgrees(t: Tracked, s: Step)
    requires Agrees(t) && LegalStep(t, s) && s.RewindStep?
    ensures Agrees(Take(t, s))
  {
    var u := Take(t, s);
    UpToIsPrefix(t.log, s.height);
    SimSelf(u.book);
    forall h: Height
      ensures AgreesAt(u, h)
    {
      var low := if h <= s.height then h else s.height;
      RewoundLog(t, s, h, low);
      RewoundBooks(t, s, h, low);
      assert AgreesAt(t, low);
    }
  }

  lemma RewoundLog(t: Tracked, s: Step, h: Height, low: Height)
    requires LogOrdered(t.log) && s.RewindStep? && low == if h <= s.height then h else s.height
    ensures UpTo(Take(t, s).log, h) == UpTo(t.log, low)
  {
    var log := Take(t, s).log;
    UpToIsPrefix(t.log, s.height);
    UpToTwice(t.log, s.height, low);
    if s.height < h {
      UpToAll(log, s.height, h);
      UpToAll(log, s.height, low);
    }
  }

  lemma RewoundBooks(t: Tracked, s: Step, h: Height, low: Height)
    requires s.RewindStep? && low == if h <= s.height then h else s.height
    ensures LatestAt(Take(t, s).ended, h, UNTOUCHED) == LatestAt(t.ended, low, UNTOUCHED)
  {
    var ended := Take(t, s).ended;
    if s.height < h { LatestRaised(ended, s.height, h, UNTOUCHED); }
    LatestAgree(t.ended, ended, low, UNTOUCHED);
  }

  // ---------------------------------------------------------------------------
  // Sealing
  // ---------------------------------------------------------------------------

  lemma {:induction false} SealWithout(sales: seq<OpenSale>, gone: set<Name>)
    ensures WithoutNames(SealBook(Book(map[], sales, [])).sales, gone)
         == SealBook(Book(map[], WithoutNames(sales, gone), [])).sales
  {
    if sales != [] {
      var n := |sales| - 1;
      var sealed := SealBook(Book(map[], sales, [])).sales;
      assert sealed[..n] == SealBook(Book(map[], sales[..n], [])).sales;
      SealWithout(sales[..n], gone);
    }
  }

  /** Sealing the log seals whatever it replays to. */
  lemma {:induction false} SealReplay(log: seq<Stamped>)
    ensures Replay(SealLog(log)) == SealBook(Replay(log))
  {
    if log == [] {
      assert SealLog(log) == [];
    } else {
      var n := |log| - 1;
      assert SealLog(log)[..n] == SealLog(log[..n]);
      SealReplay(log[..n]);
      var b := Replay(log[..n]);
      match log[n].event
      case Opened(s) =>
        assert forall i | 0 <= i < |b.sales| :: SealBook(b).sales[i].name == b.sales[i].name;
        assert HasSale(SealBook(b).sales, s.name) <==> HasSale(b.sales, s.name);
      case Settled(name, code) =>
        assert MarkPaid(SealBook(b).sales, {(name, code)}) ==
               SealBook(b.(sales := MarkPaid(b.sales, {(name, code)}))).sales;
      case Lapsed(name) =>
        SealWithout(b.sales, {name});
      case Closed(name) =>
        SealWithout(b.sales, {name});
      case _ =>
    }
  }

  lemma {:induction false} SealUpTo(log: seq<Stamped>, h: Height)
    ensures UpTo(SealLog(log), h) == SealLog(UpTo(log, h))
  {
    if log == [] {
      assert SealLog(log) == [];
    } else {
      var n := |log| - 1;
      assert SealLog(log)[..n] == SealLog(log[..n]);
      SealUpTo(log[..n], h);
    }
  }

  lemma SealSim(b: Book, c: Book)
    requires Sim(b, c, false)
    ensures Sim(b, SealBook(c), false)
  {
    forall i | 0 <= i < |b.sales|
      ensures SaleSim(b.sales[i], SealBook(c).sales[i], false)
    {
      assert SaleSim(b.sales[i], c.sales[i], false);
    }
  }

  lemma SealAgrees(t: Tracked, s: Step)
    requires Agrees(t) && LegalStep(t, s) && s.SealStep?
    ensures Agrees(Take(t, s))
  {
    var u := Take(t, s);
    SealReplay(t.log);
    SealStrict(t.book, Replay(t.log));
    SimWeaken(u.book, Replay(u.log));
    forall h: Height
      ensures AgreesAt(u, h)
    {
      SealUpTo(t.log, h);
      SealReplay(UpTo(t.log, h));
      var b := Replay(UpTo(t.log, h));
      assert AgreesAt(t, h);
      SealSimBack(b);
      InvOfSim(SealBook(b), b, false);
      if h < t.height {
        LatestAgree(SealEnded(t.ended), u.ended, h, UNTOUCHED);
        LatestSealed(t.ended, h);
        SealEndedSim(LatestAt(t.ended, h, UNTOUCHED), b);
      } else {
        UpToAll(t.log, t.height, h);
        LatestOfPut(SealEnded(t.ended), t.height, PastBook(u.book, false), h, UNTOUCHED);
        StrictEnded(u.book, Replay(u.log));
      }
    }
  }

  lemma LatestSealed(ended: map<Height, PastBook>, h: Height)
    ensures var before, after := LatestAt(ended, h, UNTOUCHED), LatestAt(SealEnded(ended), h, UNTOUCHED);
      after == before.(sealed := true) || after == before == UNTOUCHED
  {
    assert (set k | k in ended && k <= h) == (set k | k in SealEnded(ended) && k <= h);
  }

  lemma SealEndedSim(e: PastBook, b: Book)
    requires EndedSim(e, b)
    ensures EndedSim(e.(sealed := true), SealBook(b))
    ensures e == UNTOUCHED ==> EndedSim(e, SealBook(b))
  {
    SealSim(e.book, b);
  }

  lemma SealSimBack(b: Book)
    ensures Sim(SealBook(b), b, false)
  {
  }

  lemma SealStrict(b: Book, c: Book)
    requires Sim(b, c, true)
    ensures Sim(SealBook(b), SealBook(c), true)
  {
    forall i | 0 <= i < |b.sales|
      ensures SaleSim(SealBook(b).sales[i], SealBook(c).sales[i], true)
    {
      assert SaleSim(b.sales[i], c.sales[i], true);
    }
  }

  // ---------------------------------------------------------------------------
  // Every reachable market
  // ---------------------------------------------------------------------------

  lemma StartAgrees()
    ensures Agrees(START)
  {
    forall h: Height
      ensures AgreesAt(START, h)
    {
    }
  }

  /** The live book agrees with the log in every reachable state, through any interleaving of rewinds. */
  lemma {:induction false} EveryRunAgrees(steps: seq<Step>)
    requires Legal(steps)
    ensures Agrees(Run(steps))
  {
    if steps == [] {
      StartAgrees();
    } else {
      var rest, last := steps[..|steps| - 1], steps[|steps| - 1];
      EveryRunAgrees(rest);
      match last
      case RewindStep(_) => RewindAgrees(Run(rest), last);
      case SealStep(_) => SealAgrees(Run(rest), last);
      case _ => EffectAgrees(Run(rest), last);
    }
  }

  /**
   A rollback to `h` restores the listings, open sales and challenges that held when
   height `h` ended, in the same order, with no attempt counted that was not and no
   challenge relayed that was not. The same holds of the relay flags of buys exactly
   when no buy unrelayed at the end of `h` was sealed since.
   */
  lemma RollbackRestoresHeight(steps: seq<Step>, h: Height)
    requires Legal(steps) && h <= Run(steps).height
    ensures var past, back := LatestAt(Run(steps).ended, h, UNTOUCHED), Take(Run(steps), RewindStep(h)).book;
      && BookInv(back)
      && Sim(past.book, back, false) && ChallengesSim(past.book.challenges, back.challenges, true)
      && (Sim(past.book, back, true) <==> (past.sealed ==> AllRelayed(past.book.sales)))
    ensures Sim(Run(steps).book, Replay(Run(steps).log), true)
  {
    EveryRunAgrees(steps);
    var t := Run(steps);
    assert AgreesAt(t, h);
    StrictIff(LatestAt(t.ended, h, UNTOUCHED), Replay(UpTo(t.log, h)));
  }

  /** The height of the last seal of a run, if any. */
  function LastSeal(steps: seq<Step>): Option<Height> {
    if steps == [] then None
    else if steps[|steps| - 1].SealStep? then Some(steps[|steps| - 1].height)
    else LastSeal(steps[..|steps| - 1])
  }

  ghost predicate SealedBelow(ended: map<Height, PastBook>, seal: Option<Height>) {
    forall k | k in ended && ended[k].sealed :: seal.Some? && k < seal.value
  }

  lemma StepSealsBelow(t: Tracked, s: Step, seal: Option<Height>)
    requires Agrees(t) && LegalStep(t, s) && SealedBelow(t.ended, seal)
    ensures SealedBelow(Take(t, s).ended, if s.SealStep? then Some(s.height) else seal)
  {
    var after := Take(t, s).ended;
    if s.SealStep? {
      assert forall k | k in after :: k in t.ended || k == s.height;
      assert forall k | k in t.ended :: k <= t.height;
    } else {
      assert forall k | k in after && after[k].sealed :: k in t.ended && t.ended[k] == after[k];
    }
  }

  /** Only heights below the last seal can have ended before it: without a seal, none did. */
  lemma {:induction false} SealedLieBelow(steps: seq<Step>)
    requires Legal(steps)
    ensures SealedBelow(Run(steps).ended, LastSeal(steps))
  {
    if steps != [] {
      var rest := steps[..|steps| - 1];
      SealedLieBelow(rest);
      EveryRunAgrees(rest);
      StepSealsBelow(Run(rest), steps[|steps| - 1], LastSeal(rest));
    }
  }

  /**
   Every height a step was taken at, from the last seal on and everywhere on a run
   without one, comes back strictly: a relay flag the replay sets was set in the book.
   */
  lemma UnsealedRollbackIsStrict(steps: seq<Step>, h: Height)
    requires Legal(steps) && h in Run(steps).ended
    requires LastSeal(steps).Some? ==> LastSeal(steps).value <= h
    ensures Sim(Run(steps).ended[h].book, Take(Run(steps), RewindStep(h)).book, true)
  {
    EveryRunAgrees(steps);
    SealedLieBelow(steps);
    assert IsLatest(Run(steps).ended, h, h);
    RollbackRestoresHeight(steps, h);
  }

  /** Uniqueness in every reachable book: sales, totals, codes, and names held by buys. */
  lemma EveryBookIsLawful(steps: seq<Step>)
    requires Legal(steps)
    ensures BookInv(Run(steps).book)
  {
    EveryRunAgrees(steps);
    LiveInv(Run(steps));
  }
}
