/**
 Why a sale note is owed: every one traces back through the log to the buy that
 opened it and to the payment that settled it.
 */
module SaleTraces {
  import opened Basics
  import opened NameNotes
  import opened Listings
  import opened Registries
  import opened MarketBooks
  import opened MarketRules
  import opened MarketInvariants
  import opened MarketLaws
  import opened MarketRuns

  /** The buy memo that opened `sale`, ruled on against book `b`: its terms, its captured note, and the price the listing asked at that height. */
  ghost predicate OpenedBy(b: Book, sale: OpenSale, s: Step) {
    && s.AdmitStep? && s.feeOk && !s.busy
    && s.request == BuyRequest(sale.name, sale.bob)
    && sale.name in s.records
    && var record := s.records[sale.name];
    && !ReleaseDue(record, s.mtp)
    && sale.alice == record.ua && sale.held == record.commitment && sale.term == record.expiresAt
    && sale.phase.Paying? && sale.phase.code == s.code
    && sale.name in b.listings
    && var l := b.listings[sale.name];
    && l.ua == record.ua && l.ua.transparent == Some(l.payTo) && sale.phase.payTo == l.payTo
    && Asks(l.ask, s.height, sale.phase.price, sale.dutch)
    && sale.phase.expiresAt == s.mtp + if sale.dutch then 600 else 1800
  }

  /** Entry `p` settled `sale`: a block before its deadline paid its exact total while the lister held the name. */
  ghost predicate SettledBy(log: seq<Stamped>, why: seq<Step>, sale: OpenSale, p: nat) {
    && p < |log| == |why|
    && sale.phase.Paying?
    && log[p].event == Settled(sale.name, sale.phase.code)
    && why[p].ObserveStep? && why[p].height == log[p].height
    && PaidBy(sale, why[p].records, why[p].payments, why[p].mtp)
  }

  predicate Closes(e: Event, name: Name) {
    e == Closed(name) || e == Lapsed(name)
  }

  /** `s` descends from the buy opened at entry `o`, never closed since, and is paid only if settled since. */
  ghost predicate Traced(log: seq<Stamped>, why: seq<Step>, s: OpenSale, o: nat) {
    && o < |log| == |why|
    && log[o].event.Opened?
    && var first := log[o].event.sale;
    && s == first.(phase := s.phase)
    && (s.phase.Paying? ==> s == first)
    && OpenedBy(Replay(log[..o]), first, why[o]) && why[o].height == log[o].height
    && (forall k | o < k < |log| :: !Closes(log[k].event, s.name))
    && (s.phase.Paid? ==> exists p | o < p < |log| :: SettledBy(log, why, first, p))
  }

  ghost predicate IsTraced(log: seq<Stamped>, why: seq<Step>, s: OpenSale) {
    exists o: nat :: Traced(log, why, s, o)
  }

  ghost predicate AllTraced(log: seq<Stamped>, why: seq<Step>) {
    |log| == |why| && forall s | s in Replay(log).sales :: IsTraced(log, why, s)
  }

  /** Every prefix of the log explains its own replay. */
  ghost predicate TraceOk(log: seq<Stamped>, why: seq<Step>) {
    |log| == |why| && forall k | 0 <= k <= |log| :: TracedUpTo(log, why, k)
  }

  ghost predicate TracedUpTo(log: seq<Stamped>, why: seq<Step>, k: nat)
    requires k <= |log| == |why|
  {
    AllTraced(log[..k], why[..k])
  }

  /** What an entry must bring with it. */
  ghost predicate EventSound(log: seq<Stamped>, e: Stamped, s: Step) {
    && e.height == s.height
    && match e.event
       case Opened(sale) => OpenedBy(Replay(log), sale, s)
       case Settled(name, code) =>
         && s.ObserveStep?
         && forall i | 0 <= i < |Replay(log).sales| ::
              var sale := Replay(log).sales[i];
              sale.name == name && sale.phase.Paying? && sale.phase.code == code ==>
                Matches(sale, s.records, s.payments, s.mtp)
       case Challenged(c) => !c.relayed && c.attempts == 0
       case _ => true
  }

  lemma TracedExtends(log: seq<Stamped>, why: seq<Step>, s: OpenSale, e: Stamped, w: Step)
    requires IsTraced(log, why, s) && !Closes(e.event, s.name)
    ensures IsTraced(log + [e], why + [w], s)
  {
    var log', why' := log + [e], why + [w];
    var o: nat :| Traced(log, why, s, o);
    assert log'[..o] == log[..o];
    if s.phase.Paid? {
      var p :| o < p < |log| && SettledBy(log, why, log[o].event.sale, p);
      assert SettledBy(log', why', log'[o].event.sale, p);
    }
    assert Traced(log', why', s, o);
  }

  lemma TracedSettles(log: seq<Stamped>, why: seq<Step>, s: OpenSale, e: Stamped, w: Step)
    requires IsTraced(log, why, s) && s.phase.Paying?
    requires e.event == Settled(s.name, s.phase.code) && w.ObserveStep? && w.height == e.height
    requires Matches(s, w.records, w.payments, w.mtp)
    ensures IsTraced(log + [e], why + [w], s.(phase := Paid))
  {
    var log', why' := log + [e], why + [w];
    var o: nat :| Traced(log, why, s, o);
    assert log'[..o] == log[..o];
    PaidIff(s, w.records, w.payments, w.mtp);
    assert SettledBy(log', why', log'[o].event.sale, |log|);
    assert Traced(log', why', s.(phase := Paid), o);
  }

  lemma AppendOpened(log: seq<Stamped>, why: seq<Step>, e: Stamped, w: Step)
    requires |log| == |why| && e.event.Opened? && EventSound(log, e, w)
    ensures IsTraced(log + [e], why + [w], e.event.sale)
  {
    assert (log + [e])[..|log|] == log;
    assert Traced(log + [e], why + [w], e.event.sale, |log|);
  }

  lemma AppendTraced(log: seq<Stamped>, why: seq<Step>, e: Stamped, w: Step)
    requires AllTraced(log, why) && EventSound(log, e, w)
    ensures AllTraced(log + [e], why + [w])
  {
    assert (log + [e])[..|log|] == log;
    var before, after := Replay(log).sales, Replay(log + [e]).sales;
    forall s | s in after
      ensures IsTraced(log + [e], why + [w], s)
    {
      match e.event
      case Opened(sale) =>
        if s in before { TracedExtends(log, why, s, e, w); } else { AppendOpened(log, why, e, w); }
      case Settled(name, code) =>
        var i :| 0 <= i < |after| && after[i] == s;
        assert before[i] in before;
        if s == before[i] { TracedExtends(log, why, s, e, w); } else { TracedSettles(log, why, before[i], e, w); }
      case Lapsed(name) =>
        WithoutNamesMembers(before, {name});
        TracedExtends(log, why, s, e, w);
      case Closed(name) =>
        WithoutNamesMembers(before, {name});
        TracedExtends(log, why, s, e, w);
      case _ =>
        TracedExtends(log, why, s, e, w);
    }
  }

  lemma AppendOk(log: seq<Stamped>, why: seq<Step>, e: Stamped, w: Step)
    requires TraceOk(log, why) && EventSound(log, e, w)
    ensures TraceOk(log + [e], why + [w])
  {
    var log', why' := log + [e], why + [w];
    assert log[..|log|] == log && why[..|why|] == why && TracedUpTo(log, why, |log|);
    AppendTraced(log, why, e, w);
    forall k | 0 <= k <= |log'|
      ensures TracedUpTo(log', why', k)
    {
      if k <= |log| {
        assert log'[..k] == log[..k] && why'[..k] == why[..k];
        assert TracedUpTo(log, why, k);
      } else {
        assert log'[..k] == log' && why'[..k] == why';
      }
    }
  }

  ghost predicate BatchSound(log: seq<Stamped>, height: Height, es: seq<Event>, s: Step) {
    forall m | 0 <= m < |es| :: EventSound(log + Stamp(height, es[..m]), Stamped(height, es[m]), s)
  }

  lemma {:induction false} AppendBatch(log: seq<Stamped>, why: seq<Step>, height: Height, es: seq<Event>, s: Step)
    requires TraceOk(log, why) && BatchSound(log, height, es, s)
    ensures TraceOk(log + Stamp(height, es), why + Repeat(s, |es|))
  {
    if es == [] {
      assert log + Stamp(height, es) == log && why + Repeat(s, |es|) == why;
    } else {
      var n := |es| - 1;
      assert forall m | 0 <= m < n :: es[..n][..m] == es[..m];
      AppendBatch(log, why, height, es[..n], s);
      AppendOk(log + Stamp(height, es[..n]), why + Repeat(s, n), Stamped(height, es[n]), s);
      assert log + Stamp(height, es[..n]) + [Stamped(height, es[n])] == log + Stamp(height, es);
      assert why + Repeat(s, n) + [s] == why + Repeat(s, |es|);
    }
  }

  // ---------------------------------------------------------------------------
  // Each step logs sound entries
  // ---------------------------------------------------------------------------

  predicate Quiet(e: Event) {
    !e.Opened? && !e.Settled? && !e.Challenged?
  }

  lemma ObserveSound(t: Tracked, s: Step)
    requires Agrees(t) && s.ObserveStep?
    ensures BatchSound(t.log, s.height, EffectOf(t.book, s).events, s)
  {
    LiveInv(t);
    var replayed := Replay(t.log);
    var paid := PaidPairs(t.book.sales, s.records, s.payments, s.mtp);
    var es := Settlements(paid);
    forall m | 0 <= m < |es|
      ensures EventSound(t.log + Stamp(s.height, es[..m]), Stamped(s.height, es[m]), s)
    {
      ReplayStamped(t.log, s.height, es[..m]);
      assert es[..m] == Settlements(paid[..m]);
      var now := Replay(t.log + Stamp(s.height, es[..m])).sales;
      forall i | 0 <= i < |now| && now[i].name == paid[m].0 && now[i].phase.Paying? && now[i].phase.code == paid[m].1
        ensures Matches(now[i], s.records, s.payments, s.mtp)
      {
        SettledMatches(t, s, replayed, paid, m, i);
      }
    }
  }

  /** The sale a settlement names matched a payment before any settlement of its batch. */
  lemma SettledMatches(t: Tracked, s: Step, replayed: Book, paid: seq<(Name, OtpCode)>, m: nat, i: nat)
    requires s.ObserveStep? && BookInv(t.book) && Sim(t.book, replayed, true)
    requires paid == PaidPairs(t.book.sales, s.records, s.payments, s.mtp) && m < |paid|
    requires var now := ApplyAll(replayed, Settlements(paid[..m])).sales;
      i < |now| && now[i].name == paid[m].0 && now[i].phase.Paying? && now[i].phase.code == paid[m].1
    ensures Matches(ApplyAll(replayed, Settlements(paid[..m])).sales[i], s.records, s.payments, s.mtp)
  {
    ApplySettlements(replayed, paid[..m]);
    var now := ApplyAll(replayed, Settlements(paid[..m])).sales;
    assert paid[m] in paid;
    var k :| 0 <= k < |t.book.sales| && Matches(t.book.sales[k], s.records, s.payments, s.mtp)
             && paid[m] == (t.book.sales[k].name, t.book.sales[k].phase.code);
    assert SaleSim(t.book.sales[i], replayed.sales[i], true) && SaleSim(t.book.sales[k], replayed.sales[k], true);
    assert now[i] == replayed.sales[i] && k == i;
  }

  lemma AdmitSound(t: Tracked, s: Step)
    requires Agrees(t) && s.AdmitStep?
    ensures BatchSound(t.log, s.height, EffectOf(t.book, s).events, s)
  {
    var es := EffectOf(t.book, s).events;
    if es != [] && es[0].Opened? {
      var record := s.records[s.request.name];
      var q := QuoteBuy(t.book, s.request.name, record.ua, ReleaseDue(record, s.mtp), s.busy, s.code, s.height);
      QuotedIsAsked(Replay(t.log), s.request.name, record.ua, s.height, q.price, q.dutch);
      assert t.log + Stamp(s.height, es[..0]) == t.log;
      assert forall m | 1 <= m < |es| :: Quiet(es[m]);
    }
  }

  lemma PerformQuiet(b: Book, records: Records, kind: ChallengeKind, height: Height)
    ensures forall e | e in Perform(b, records, kind, height).events :: Quiet(e)
  {
  }

  lemma StepSound(t: Tracked, s: Step)
    requires Agrees(t) && !s.SealStep? && !s.RewindStep?
    ensures BatchSound(t.log, s.height, EffectOf(t.book, s).events, s)
  {
    if s.ObserveStep? {
      ObserveSound(t, s);
    } else if s.AdmitStep? {
      AdmitSound(t, s);
    } else {
      QuietSteps(t.book, s);
      QuietBatch(t.log, s.height, EffectOf(t.book, s).events, s);
    }
  }

  lemma QuietBatch(log: seq<Stamped>, height: Height, es: seq<Event>, s: Step)
    requires s.height == height && forall e | e in es :: Quiet(e)
    ensures BatchSound(log, height, es, s)
  {
    forall m | 0 <= m < |es| ensures EventSound(log + Stamp(height, es[..m]), Stamped(height, es[m]), s) {
      assert Quiet(es[m]);
    }
  }

  /** Steps other than memos and payments open and settle nothing. */
  lemma QuietSteps(b: Book, s: Step)
    requires !s.SealStep? && !s.RewindStep? && !s.ObserveStep? && !s.AdmitStep?
    ensures forall e | e in EffectOf(b, s).events :: Quiet(e)
  {
    match s
    case AnswerStep(records, response, height) =>
      var found := Answered(b.challenges, response);
      if found.Some? {
        PerformQuiet(b.(challenges := WithoutCodes(b.challenges, {found.value.code})), records, found.value.kind, height);
      }
    case _ =>
  }

  // ---------------------------------------------------------------------------
  // Sealing and rewinding keep the traces
  // ---------------------------------------------------------------------------

  lemma SealTraced(log: seq<Stamped>, why: seq<Step>, s: OpenSale)
    requires IsTraced(log, why, s)
    ensures IsTraced(SealLog(log), why, RelaySale(s))
  {
    var log' := SealLog(log);
    var o: nat :| Traced(log, why, s, o);
    assert log'[..o] == SealLog(log[..o]);
    SealReplay(log[..o]);
    if s.phase.Paid? {
      var p :| o < p < |log| && SettledBy(log, why, log[o].event.sale, p);
      SealSettled(log, why, log[o].event.sale, p);
    }
    assert Traced(log', why, RelaySale(s), o);
  }

  lemma SealSettled(log: seq<Stamped>, why: seq<Step>, sale: OpenSale, p: nat)
    requires SettledBy(log, why, sale, p)
    ensures SettledBy(SealLog(log), why, RelaySale(sale), p)
  {
  }

  lemma SealTraceOk(log: seq<Stamped>, why: seq<Step>)
    requires TraceOk(log, why)
    ensures TraceOk(SealLog(log), why)
  {
    var log' := SealLog(log);
    forall k | 0 <= k <= |log'|
      ensures TracedUpTo(log', why, k)
    {
      assert log'[..k] == SealLog(log[..k]);
      SealReplay(log[..k]);
      assert TracedUpTo(log, why, k);
      forall s | s in Replay(log'[..k]).sales
        ensures IsTraced(log'[..k], why[..k], s)
      {
        var i :| 0 <= i < |Replay(log'[..k]).sales| && Replay(log'[..k]).sales[i] == s;
        var unsealed := Replay(log[..k]).sales[i];
        assert unsealed in Replay(log[..k]).sales;
        SealTraced(log[..k], why[..k], unsealed);
      }
    }
  }

  lemma PrefixTraceOk(log: seq<Stamped>, why: seq<Step>, n: nat)
    requires TraceOk(log, why) && n <= |log|
    ensures TraceOk(log[..n], why[..n])
  {
    forall k | 0 <= k <= n
      ensures TracedUpTo(log[..n], why[..n], k)
    {
      assert log[..n][..k] == log[..k] && why[..n][..k] == why[..k];
      assert TracedUpTo(log, why, k);
    }
  }

  lemma TakeKeepsTrace(t: Tracked, s: Step)
    requires Agrees(t) && TraceOk(t.log, t.why)
    ensures TraceOk(Take(t, s).log, Take(t, s).why)
  {
    match s
    case RewindStep(h) =>
      UpToIsPrefix(t.log, h);
      PrefixTraceOk(t.log, t.why, |UpTo(t.log, h)|);
      assert UpTo(t.log, h) == t.log[..|UpTo(t.log, h)|];
    case SealStep(_) =>
      SealTraceOk(t.log, t.why);
    case _ =>
      StepSound(t, s);
      AppendBatch(t.log, t.why, s.height, EffectOf(t.book, s).events, s);
  }

  lemma {:induction false} EveryRunIsTraced(steps: seq<Step>)
    requires Legal(steps)
    ensures TraceOk(Run(steps).log, Run(steps).why)
  {
    if steps == [] {
      assert AllTraced([], []);
    } else {
      var rest, last := steps[..|steps| - 1], steps[|steps| - 1];
      EveryRunAgrees(rest);
      EveryRunIsTraced(rest);
      TakeKeepsTrace(Run(rest), last);
    }
  }

  /** Entry `o` opened the sale `note` transfers and entry `p`, later, settled it. */
  ghost predicate Earned(log: seq<Stamped>, why: seq<Step>, note: NameNote, o: nat, p: nat) {
    && o < p < |log| == |why|
    && log[o].event.Opened?
    && var sale := log[o].event.sale;
    && note == SaleNoteOf(sale)
    && OpenedBy(Replay(log[..o]), sale, why[o])
    && SettledBy(log, why, sale, p)
    && forall k | o < k < |log| :: !Closes(log[k].event, sale.name)
  }

  /**
   Every sale note the market owes, in any reachable state, was opened by a buy
   memo with that buyer, term and captured note at the listed quote, and settled
   later by an output of exactly price plus code to the lister, before the
   deadline and while she held the name, with no lapse or close in between.
   */
  lemma SaleNotesAreEarned(steps: seq<Step>, records: Records, pending: set<Name>, note: NameNote)
    requires Legal(steps) && note in OwedNotes(Run(steps).book.sales, records, pending)
    ensures exists o: nat, p: nat :: Earned(Run(steps).log, Run(steps).why, note, o, p)
  {
    EveryRunAgrees(steps);
    EveryRunIsTraced(steps);
    EarnedByTrace(Run(steps), records, pending, note);
  }

  lemma EarnedByTrace(t: Tracked, records: Records, pending: set<Name>, note: NameNote)
    requires Agrees(t) && TraceOk(t.log, t.why) && note in OwedNotes(t.book.sales, records, pending)
    ensures exists o: nat, p: nat :: Earned(t.log, t.why, note, o, p)
  {
    var i :| 0 <= i < |t.book.sales| && Signable(t.book.sales[i], pending)
             && !SaleOver(t.book.sales[i], records) && note == SaleNoteOf(t.book.sales[i]);
    var s := Replay(t.log).sales[i];
    assert SaleSim(t.book.sales[i], s, true) && s in Replay(t.log).sales;
    assert IsTraced(t.log, t.why, s) by {
      assert t.log[..|t.log|] == t.log && t.why[..|t.why|] == t.why;
      assert TracedUpTo(t.log, t.why, |t.log|);
    }
    var o: nat :| Traced(t.log, t.why, s, o);
    var p :| o < p < |t.log| && SettledBy(t.log, t.why, t.log[o].event.sale, p);
    assert Earned(t.log, t.why, note, o, p);
  }

  // ---------------------------------------------------------------------------
  // Rolled-back challenges start afresh
  // ---------------------------------------------------------------------------

  ghost predicate FreshLog(log: seq<Stamped>) {
    forall k | 0 <= k < |log| && log[k].event.Challenged? ::
      !log[k].event.challenge.relayed && log[k].event.challenge.attempts == 0
  }

  lemma {:induction false} ReplayFresh(log: seq<Stamped>)
    requires FreshLog(log)
    ensures forall c | c in Replay(log).challenges :: !c.relayed && c.attempts == 0
  {
    if log != [] {
      var n := |log| - 1;
      ReplayFresh(log[..n]);
      if log[n].event.ChallengeClosed? {
        WithoutCodesMembers(Replay(log[..n]).challenges, {log[n].event.code});
      }
    }
  }

  lemma {:induction false} EveryLogIsFresh(steps: seq<Step>)
    requires Legal(steps)
    ensures FreshLog(Run(steps).log)
  {
    if steps != [] {
      var rest, last := steps[..|steps| - 1], steps[|steps| - 1];
      EveryRunAgrees(rest);
      EveryLogIsFresh(rest);
      if last.RewindStep? {
        UpToIsPrefix(Run(rest).log, last.height);
      } else if !last.SealStep? {
        StepSound(Run(rest), last);
        BatchFresh(Run(rest).log, last.height, EffectOf(Run(rest).book, last).events, last);
      }
    }
  }

  lemma BatchFresh(log: seq<Stamped>, height: Height, es: seq<Event>, s: Step)
    requires FreshLog(log) && BatchSound(log, height, es, s)
    ensures FreshLog(log + Stamp(height, es))
  {
    forall m | 0 <= m < |es| && es[m].Challenged?
      ensures !es[m].challenge.relayed && es[m].challenge.attempts == 0
    {
      assert EventSound(log + Stamp(height, es[..m]), Stamped(height, es[m]), s);
    }
  }

  /** A rollback submits every surviving challenge again, with no attempt counted. */
  lemma RollbackResetsChallenges(steps: seq<Step>, h: Height)
    requires Legal(steps) && h <= Run(steps).height
    ensures forall c | c in Take(Run(steps), RewindStep(h)).book.challenges :: !c.relayed && c.attempts == 0
  {
    EveryRunAgrees(steps);
    EveryLogIsFresh(steps);
    UpToIsPrefix(Run(steps).log, h);
    ReplayFresh(UpTo(Run(steps).log, h));
  }
}
