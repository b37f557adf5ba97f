/** The mint's own orders, tracked from authorization to canonical confirmation. */
module OrderQueues {
  import opened Basics
  import opened NameNotes
  import opened AnchorPools
  import opened Registries

  datatype OrderState = Authorized | Sent(expiry: Height) | Seen

  datatype Order = Order(note: NameNote, origin: Height, state: OrderState)

  type Orders = seq<Order>

  /** Whether an unresolved order owns this name. */
  predicate NotePending(orders: Orders, name: Name) {
    exists i | 0 <= i < |orders| :: !orders[i].state.Seen? && orders[i].note.name == name
  }

  function PendingNames(orders: Orders): (r: set<Name>)
    ensures forall n :: n in r <==> NotePending(orders, n)
  {
    set i | 0 <= i < |orders| && !orders[i].state.Seen? :: orders[i].note.name
  }

  function AdmitOrder(orders: Orders, origin: Height, note: NameNote): Orders {
    if NotePending(orders, note.name) then orders else orders + [Order(note, origin, Authorized)]
  }

  /** A record at or after the order's origin that is the order's own note. */
  predicate IsConfirmation(net: Network, rec: NameRecord, o: Order) {
    rec.confirmedHeight >= o.origin && rec.commitment == net.commit(o.note)
  }

  predicate Confirmed(net: Network, history: History, o: Order) {
    o.note.name in history &&
    exists i | 0 <= i < |history[o.note.name]| :: IsConfirmation(net, history[o.note.name][i], o)
  }

  function MarkSeen(net: Network, history: History, o: Order): Order {
    if Confirmed(net, history, o) then o.(state := Seen) else o
  }

  /** A claim waits for its name; any other unresolved order needs its predecessor current. */
  predicate Retained(records: Records, o: Order) {
    || o.state.Seen?
    || o.note.ClaimNote?
    || (o.note.name in records && o.note.PrevOf() == Some(records[o.note.name].commitment))
  }

  function ReconcileSeen(net: Network, r: Reg, orders: Orders): Orders {
    if orders == [] then []
    else
      var rest := ReconcileSeen(net, r, orders[..|orders| - 1]);
      var last := MarkSeen(net, r.history, orders[|orders| - 1]);
      if Retained(r.records, last) then rest + [last] else rest
  }

  function Reopened(o: Order): Order {
    if o.state.Seen? then o.(state := Authorized) else o
  }

  function RewindTo(orders: Orders, height: Height): Orders {
    if orders == [] then []
    else
      var rest, last := RewindTo(orders[..|orders| - 1], height), orders[|orders| - 1];
      if last.origin <= height then rest + [Reopened(last)] else rest
  }

  function ExpireOrder(o: Order, tip: Height): Order {
    if o.state.Sent? && tip + 1 >= o.state.expiry then o.(state := Authorized) else o
  }

  function ExpireSent(orders: Orders, tip: Height): Orders {
    seq(|orders|, i requires 0 <= i < |orders| => ExpireOrder(orders[i], tip))
  }

  /** The position of the first unresolved order of this name, from `k` on. */
  function FirstUnresolved(orders: Orders, name: Name, k: nat): (r: nat)
    requires k <= |orders|
    ensures k <= r <= |orders|
    ensures r < |orders| ==> !orders[r].state.Seen? && orders[r].note.name == name
    ensures forall i | k <= i < r :: !(!orders[i].state.Seen? && orders[i].note.name == name)
    decreases |orders| - k
  {
    if k == |orders| || (!orders[k].state.Seen? && orders[k].note.name == name) then k
    else FirstUnresolved(orders, name, k + 1)
  }

  function DropNote(orders: Orders, name: Name): Orders {
    var k := FirstUnresolved(orders, name, 0);
    if k < |orders| then orders[..k] + orders[k + 1..] else orders
  }

  function FirstAuthorized(orders: Orders, name: Name, k: nat): (r: nat)
    requires k <= |orders|
    ensures k <= r <= |orders|
    ensures r < |orders| ==> orders[r].state.Authorized? && orders[r].note.name == name
    ensures forall i | k <= i < r :: !(orders[i].state.Authorized? && orders[i].note.name == name)
    decreases |orders| - k
  {
    if k == |orders| || (orders[k].state.Authorized? && orders[k].note.name == name) then k
    else FirstAuthorized(orders, name, k + 1)
  }

  /** The first authorized order of this name was broadcast. */
  function MarkSent(orders: Orders, name: Name, expiry: Height): Orders {
    var k := FirstAuthorized(orders, name, 0);
    if k < |orders| then orders[k := orders[k].(state := Sent(expiry))] else orders
  }

  // ---------------------------------------------------------------------------
  // At most one unresolved order per name
  // ---------------------------------------------------------------------------

  predicate Compatible(a: Order, b: Order) {
    a.note.name == b.note.name ==> a.state.Seen? || b.state.Seen?
  }

  ghost predicate OneUnresolved(orders: Orders) {
    forall i, j | 0 <= i < j < |orders| :: Compatible(orders[i], orders[j])
  }

  lemma AdmitKeepsOne(orders: Orders, origin: Height, note: NameNote)
    requires OneUnresolved(orders)
    ensures OneUnresolved(AdmitOrder(orders, origin, note))
  {
  }

  lemma ExpireKeepsOne(orders: Orders, tip: Height)
    requires OneUnresolved(orders)
    ensures OneUnresolved(ExpireSent(orders, tip))
  {
    forall i, j | 0 <= i < j < |orders|
      ensures Compatible(ExpireSent(orders, tip)[i], ExpireSent(orders, tip)[j])
    {
      assert Compatible(orders[i], orders[j]);
    }
  }

  lemma MarkSentKeepsOne(orders: Orders, name: Name, expiry: Height)
    requires OneUnresolved(orders)
    ensures OneUnresolved(MarkSent(orders, name, expiry))
  {
    var after := MarkSent(orders, name, expiry);
    forall i, j | 0 <= i < j < |after|
      ensures Compatible(after[i], after[j])
    {
      assert Compatible(orders[i], orders[j]);
    }
  }

  function SkipAt(k: nat, i: nat): nat {
    if i < k then i else i + 1
  }

  lemma DropPositions(orders: Orders, name: Name)
    requires FirstUnresolved(orders, name, 0) < |orders|
    ensures |DropNote(orders, name)| == |orders| - 1
    ensures forall i | 0 <= i < |orders| - 1 ::
      DropNote(orders, name)[i] == orders[SkipAt(FirstUnresolved(orders, name, 0), i)]
  {
  }

  lemma DropStaysOne(orders: Orders, name: Name)
    requires OneUnresolved(orders)
    ensures OneUnresolved(DropNote(orders, name))
    ensures forall o | o in DropNote(orders, name) :: o in orders
  {
    var k := FirstUnresolved(orders, name, 0);
    if k < |orders| {
      DropPositions(orders, name);
      var after := DropNote(orders, name);
      forall i, j | 0 <= i < j < |after| ensures Compatible(after[i], after[j]) {
        assert Compatible(orders[SkipAt(k, i)], orders[SkipAt(k, j)]);
      }
    }
  }

  lemma DropKeepsOthers(orders: Orders, name: Name, n: Name)
    requires OneUnresolved(orders) && NotePending(orders, n) && n != name
    ensures NotePending(DropNote(orders, name), n)
  {
    var k := FirstUnresolved(orders, name, 0);
    if k < |orders| {
      DropPositions(orders, name);
      var i :| 0 <= i < |orders| && !orders[i].state.Seen? && orders[i].note.name == n;
      assert DropNote(orders, name)[if i < k then i else i - 1] == orders[i];
    }
  }

  lemma DropFrees(orders: Orders, name: Name, n: Name)
    requires OneUnresolved(orders)
    ensures NotePending(DropNote(orders, name), n) <==> NotePending(orders, n) && n != name
  {
    var k := FirstUnresolved(orders, name, 0);
    var after := DropNote(orders, name);
    if NotePending(orders, n) && n != name { DropKeepsOthers(orders, name, n); }
    if k < |orders| && NotePending(after, n) {
      DropPositions(orders, name);
      var i :| 0 <= i < |after| && !after[i].state.Seen? && after[i].note.name == n;
      var m := SkipAt(k, i);
      assert Compatible(orders[if m < k then m else k], orders[if m < k then k else m]);
    }
  }

  /** Dropping the unresolved order of a name frees that name and no other. */
  lemma DropKeepsOne(orders: Orders, name: Name)
    requires OneUnresolved(orders)
    ensures OneUnresolved(DropNote(orders, name))
    ensures forall o | o in DropNote(orders, name) :: o in orders
    ensures PendingNames(DropNote(orders, name)) == PendingNames(orders) - {name}
  {
    DropStaysOne(orders, name);
    forall n ensures n in PendingNames(DropNote(orders, name)) <==> n in PendingNames(orders) - {name} {
      DropFrees(orders, name, n);
    }
  }

  lemma {:induction false} ReconcileMembers(net: Network, r: Reg, orders: Orders)
    ensures forall o :: o in ReconcileSeen(net, r, orders) <==>
      exists i | 0 <= i < |orders| :: o == MarkSeen(net, r.history, orders[i]) && Retained(r.records, o)
  {
    if orders != [] {
      ReconcileMembers(net, r, orders[..|orders| - 1]);
    }
  }

  /** Reconciliation only resolves. */
  lemma {:induction false} ReconcileKeepsOne(net: Network, r: Reg, orders: Orders)
    requires OneUnresolved(orders)
    ensures OneUnresolved(ReconcileSeen(net, r, orders))
  {
    if orders != [] {
      var n := |orders| - 1;
      ReconcileKeepsOne(net, r, orders[..n]);
      ReconcileMembers(net, r, orders[..n]);
      var rest := ReconcileSeen(net, r, orders[..n]);
      forall i | 0 <= i < |rest|
        ensures Compatible(rest[i], MarkSeen(net, r.history, orders[n]))
      {
        assert rest[i] in rest;
        var k :| 0 <= k < n && rest[i] == MarkSeen(net, r.history, orders[..n][k]);
        assert Compatible(orders[k], orders[n]);
      }
    }
  }

  // ---------------------------------------------------------------------------
  // Rewinds
  // ---------------------------------------------------------------------------

  /** `a` was confirmed between its own origin and `b`'s. */
  ghost predicate ConfirmedBy(net: Network, history: History, a: Order, limit: Height) {
    a.note.name in history &&
    exists i | 0 <= i < |history[a.note.name]| ::
      IsConfirmation(net, history[a.note.name][i], a) && history[a.note.name][i].confirmedHeight <= limit
  }

  ghost predicate Follows(net: Network, history: History, a: Order, b: Order) {
    a.note.name == b.note.name ==> ConfirmedBy(net, history, a, b.origin)
  }

  /** Each later order of a name originates at or above the confirmation of every earlier one. */
  ghost predicate Chained(net: Network, history: History, orders: Orders) {
    forall i, j | 0 <= i < j < |orders| :: Follows(net, history, orders[i], orders[j])
  }

  lemma {:induction false} RewindMembers(orders: Orders, height: Height)
    ensures forall o :: o in RewindTo(orders, height) <==>
      exists i | 0 <= i < |orders| :: orders[i].origin <= height && o == Reopened(orders[i])
  {
    if orders != [] {
      RewindMembers(orders[..|orders| - 1], height);
    }
  }

  lemma {:induction false} CutChainMembers(chain: seq<NameRecord>, height: Height)
    requires forall i, j | 0 <= i < j < |chain| :: chain[i].confirmedHeight <= chain[j].confirmedHeight
    ensures forall i | 0 <= i < |chain| && chain[i].confirmedHeight <= height :: i < |CutChain(chain, height)|
  {
    if chain != [] && chain[|chain| - 1].confirmedHeight > height {
      CutChainMembers(chain[..|chain| - 1], height);
    }
  }

  lemma ConfirmedBySurvives(net: Network, r: Reg, tip: Height, a: Order, limit: Height, height: Height)
    requires RegInv(r, tip) && ConfirmedBy(net, r.history, a, limit) && limit <= height
    ensures ConfirmedBy(net, TruncateReg(r, height).history, a, limit)
  {
    var chain := r.history[a.note.name];
    assert ChainOk(chain, a.note.name, tip);
    var i :| 0 <= i < |chain| && IsConfirmation(net, chain[i], a) && chain[i].confirmedHeight <= limit;
    CutChainMembers(chain, height);
    assert CutChain(chain, height)[i] == chain[i];
  }

  lemma FollowsSurvives(net: Network, r: Reg, tip: Height, a: Order, b: Order, height: Height)
    requires RegInv(r, tip) && Follows(net, r.history, a, b) && b.origin <= height
    ensures Follows(net, TruncateReg(r, height).history, Reopened(a), Reopened(b))
  {
    if a.note.name == b.note.name {
      ConfirmedBySurvives(net, r, tip, a, b.origin, height);
      var cut := TruncateReg(r, height).history[a.note.name];
      var i :| 0 <= i < |cut| && IsConfirmation(net, cut[i], a) && cut[i].confirmedHeight <= b.origin;
      assert IsConfirmation(net, cut[i], Reopened(a));
    }
  }

  /** The chaining survives a rewind of both the orders and the registry. */
  lemma {:induction false} RewindKeepsChain(net: Network, r: Reg, tip: Height, orders: Orders, height: Height)
    requires RegInv(r, tip) && Chained(net, r.history, orders)
    ensures Chained(net, TruncateReg(r, height).history, RewindTo(orders, height))
  {
    if orders != [] {
      var n := |orders| - 1;
      RewindKeepsChain(net, r, tip, orders[..n], height);
      RewindMembers(orders[..n], height);
      var rest := RewindTo(orders[..n], height);
      forall i | 0 <= i < |rest| && orders[n].origin <= height
        ensures Follows(net, TruncateReg(r, height).history, rest[i], Reopened(orders[n]))
      {
        assert rest[i] in rest;
        var k :| 0 <= k < n && rest[i] == Reopened(orders[..n][k]);
        FollowsSurvives(net, r, tip, orders[k], orders[n], height);
      }
    }
  }

  lemma FollowsResolves(net: Network, history: History, a: Order, b: Order)
    requires Follows(net, history, a, b)
    ensures a.note.name == b.note.name ==> MarkSeen(net, history, a).state.Seen?
    ensures Follows(net, history, MarkSeen(net, history, a), MarkSeen(net, history, b))
  {
    if a.note.name == b.note.name {
      var chain := history[a.note.name];
      var i :| 0 <= i < |chain| && IsConfirmation(net, chain[i], a) && chain[i].confirmedHeight <= b.origin;
      assert IsConfirmation(net, chain[i], MarkSeen(net, history, a));
    }
  }

  /** Chained orders reconcile to at most one unresolved order per name, whatever their states were. */
  lemma {:induction false} ChainedReconcile(net: Network, r: Reg, orders: Orders)
    requires Chained(net, r.history, orders)
    ensures OneUnresolved(ReconcileSeen(net, r, orders))
    ensures Chained(net, r.history, ReconcileSeen(net, r, orders))
  {
    if orders != [] {
      var n := |orders| - 1;
      ChainedReconcile(net, r, orders[..n]);
      ReconcileMembers(net, r, orders[..n]);
      var rest := ReconcileSeen(net, r, orders[..n]);
      var last := MarkSeen(net, r.history, orders[n]);
      forall i | 0 <= i < |rest|
        ensures Compatible(rest[i], last) && Follows(net, r.history, rest[i], last)
      {
        assert rest[i] in rest;
        var k :| 0 <= k < n && rest[i] == MarkSeen(net, r.history, orders[..n][k]);
        FollowsResolves(net, r.history, orders[k], orders[n]);
      }
    }
  }

  /** A rewind followed by its reconciliation leaves at most one unresolved order per name. */
  lemma RewindKeepsOne(net: Network, r: Reg, tip: Height, orders: Orders, height: Height)
    requires RegInv(r, tip) && Chained(net, r.history, orders)
    ensures var cut := TruncateReg(r, height);
      var after := ReconcileSeen(net, cut, RewindTo(orders, height));
      OneUnresolved(after) && Chained(net, cut.history, after)
  {
    RewindKeepsChain(net, r, tip, orders, height);
    ChainedReconcile(net, TruncateReg(r, height), RewindTo(orders, height));
  }

  /** An order that comes back unresolved from a rewind to the registry `cut`. */
  ghost predicate Outstanding(net: Network, cut: Reg, o: Order, height: Height) {
    o.origin <= height && !Confirmed(net, cut.history, o) && Retained(cut.records, o.(state := Authorized))
  }

  lemma {:induction false} RewoundState(net: Network, cut: Reg, orders: Orders, height: Height)
    ensures forall o :: o in ReconcileSeen(net, cut, RewindTo(orders, height)) && !o.state.Seen? <==>
      exists i | 0 <= i < |orders| :: o == Reopened(orders[i]) && Outstanding(net, cut, orders[i], height)
  {
    ReconcileMembers(net, cut, RewindTo(orders, height));
    RewindMembers(orders, height);
    var back := RewindTo(orders, height);
    forall o
      ensures o in ReconcileSeen(net, cut, back) && !o.state.Seen? <==>
        exists i | 0 <= i < |orders| :: o == Reopened(orders[i]) && Outstanding(net, cut, orders[i], height)
    {
      if o in ReconcileSeen(net, cut, back) && !o.state.Seen? {
        var k :| 0 <= k < |back| && o == MarkSeen(net, cut.history, back[k]) && Retained(cut.records, o);
        assert back[k] in back;
        var i :| 0 <= i < |orders| && orders[i].origin <= height && back[k] == Reopened(orders[i]);
        assert o == Reopened(orders[i]) && Outstanding(net, cut, orders[i], height);
      }
      if i :| 0 <= i < |orders| && o == Reopened(orders[i]) && Outstanding(net, cut, orders[i], height) {
        assert o in back;
        var k :| 0 <= k < |back| && back[k] == o;
        assert o == MarkSeen(net, cut.history, back[k]);
      }
    }
  }

  /** What a rewind and its reconciliation make of the queue. */
  function ComeBack(net: Network, cut: Reg, orders: Orders, height: Height): Orders {
    ReconcileSeen(net, cut, RewindTo(orders, height))
  }

  lemma {:induction false} ComeBackSnoc(net: Network, cut: Reg, orders: Orders, height: Height)
    requires orders != []
    ensures var rest, last := ComeBack(net, cut, orders[..|orders| - 1], height), orders[|orders| - 1];
      var back := MarkSeen(net, cut.history, Reopened(last));
      && ComeBack(net, cut, orders, height) ==
           rest + (if last.origin <= height && Retained(cut.records, back) then [back] else [])
      && (Outstanding(net, cut, last, height) <==>
           last.origin <= height && Retained(cut.records, back) && !back.state.Seen?)
  {
    var before, last := RewindTo(orders[..|orders| - 1], height), orders[|orders| - 1];
    assert forall rec :: IsConfirmation(net, rec, last) <==> IsConfirmation(net, rec, Reopened(last));
    if last.origin <= height {
      assert RewindTo(orders, height) == before + [Reopened(last)];
      assert (before + [Reopened(last)])[..|before|] == before;
    }
  }

  /** Two orders of one name that both come back unresolved. */
  ghost predicate Collide(net: Network, cut: Reg, a: Order, b: Order, height: Height) {
    a.note.name == b.note.name && Outstanding(net, cut, a, height) && Outstanding(net, cut, b, height)
  }

  ghost predicate NoneCollide(net: Network, cut: Reg, orders: Orders, height: Height) {
    forall i, j | 0 <= i < j < |orders| :: !Collide(net, cut, orders[i], orders[j], height)
  }

  lemma OneMore(orders: Orders, last: Order)
    ensures OneUnresolved(orders + [last]) <==>
      OneUnresolved(orders) && (!last.state.Seen? ==> !NotePending(orders, last.note.name))
  {
    var all := orders + [last];
    if OneUnresolved(all) {
      forall i, j | 0 <= i < j < |orders| ensures Compatible(orders[i], orders[j]) {
        assert Compatible(all[i], all[j]);
      }
      forall i | 0 <= i < |orders| ensures Compatible(orders[i], last) {
        assert Compatible(all[i], all[|orders|]);
      }
    }
  }

  /** A name comes back from a rewind with an unresolved order iff one of its orders is outstanding there. */
  lemma RewindPendingIff(net: Network, cut: Reg, orders: Orders, height: Height, name: Name)
    ensures NotePending(ComeBack(net, cut, orders, height), name) <==>
      exists i | 0 <= i < |orders| :: orders[i].note.name == name && Outstanding(net, cut, orders[i], height)
  {
    RewoundState(net, cut, orders, height);
    var after := ComeBack(net, cut, orders, height);
    if NotePending(after, name) {
      var k :| 0 <= k < |after| && !after[k].state.Seen? && after[k].note.name == name;
      assert after[k] in after;
    }
    if i :| 0 <= i < |orders| && orders[i].note.name == name && Outstanding(net, cut, orders[i], height) {
      assert Reopened(orders[i]) in after && !Reopened(orders[i]).state.Seen?;
    }
  }

  /**
   After any rewind and its reconciliation at most one order per name is unresolved
   exactly when no two orders of one name are both outstanding at the height: admitted
   at or below it, unconfirmed there, and with their authority current there.
   */
  lemma {:induction false} RewindOneIff(net: Network, cut: Reg, orders: Orders, height: Height)
    ensures OneUnresolved(ComeBack(net, cut, orders, height)) <==> NoneCollide(net, cut, orders, height)
  {
    if orders != [] {
      var n := |orders| - 1;
      var rest, last := orders[..n], orders[n];
      RewindOneIff(net, cut, rest, height);
      ComeBackSnoc(net, cut, orders, height);
      RewindPendingIff(net, cut, rest, height, last.note.name);
      OneMore(ComeBack(net, cut, rest, height), MarkSeen(net, cut.history, Reopened(last)));
      CollideSnoc(net, cut, orders, height);
    }
  }

  lemma CollideSnoc(net: Network, cut: Reg, orders: Orders, height: Height)
    requires orders != []
    ensures var n := |orders| - 1;
      NoneCollide(net, cut, orders, height) <==>
        && NoneCollide(net, cut, orders[..n], height)
        && forall i | 0 <= i < n :: !Collide(net, cut, orders[i], orders[n], height)
  {
    var n := |orders| - 1;
    if NoneCollide(net, cut, orders, height) {
      forall i, j | 0 <= i < j < n ensures !Collide(net, cut, orders[..n][i], orders[..n][j], height) {
        assert !Collide(net, cut, orders[i], orders[j], height);
      }
    }
    if NoneCollide(net, cut, orders[..n], height) {
      forall i, j | 0 <= i < j < n ensures !Collide(net, cut, orders[i], orders[j], height) {
        assert !Collide(net, cut, orders[..n][i], orders[..n][j], height);
      }
    }
  }
}
