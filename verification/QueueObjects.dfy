/** The order queue as the mint holds it, updated in place. */
module QueueObjects {
  import opened Basics
  import opened NameNotes
  import opened Registries
  import opened OrderQueues
  import opened MintLoop
  import opened RegistryObjects

  class NameNoteQueue {
    var orders: Orders

    constructor ()
      ensures orders == []
    {
      orders := [];
    }

    method Pending(name: Name) returns (pending: bool)
      ensures pending == NotePending(orders, name)
    {
      pending := false;
      for i := 0 to |orders|
        invariant pending == NotePending(orders[..i], name)
      {
        assert orders[..i + 1] == orders[..i] + [orders[i]];
        if !orders[i].state.Seen? && orders[i].note.name == name {
          assert orders[..i + 1][i] == orders[i];
          pending := true;
        } else {
          assert NotePending(orders[..i], name) ==> NotePending(orders[..i + 1], name) by {
            if NotePending(orders[..i], name) {
              var k :| 0 <= k < i && !orders[..i][k].state.Seen? && orders[..i][k].note.name == name;
              assert orders[..i + 1][k] == orders[k];
            }
          }
        }
      }
      assert orders[..|orders|] == orders;
    }

    /** Records a decision unless an unresolved order already owns the name. */
    method Admit(origin: Height, note: NameNote) returns (admitted: bool)
      modifies this
      ensures orders == AdmitOrder(old(orders), origin, note)
      ensures admitted == !NotePending(old(orders), note.name)
      ensures OneUnresolved(old(orders)) ==> OneUnresolved(orders)
    {
      var pending := Pending(note.name);
      admitted := !pending;
      if admitted {
        orders := orders + [Order(note, origin, Authorized)];
      }
    }

    method HasConfirmation(net: Network, registry: Registry, o: Order) returns (found: bool)
      ensures found == Confirmed(net, registry.history, o)
    {
      if o.note.name !in registry.history { return false; }
      var chain := registry.history[o.note.name];
      for i := 0 to |chain|
        invariant forall k | 0 <= k < i :: !IsConfirmation(net, chain[k], o)
      {
        if chain[i].confirmedHeight >= o.origin && chain[i].commitment == net.commit(o.note) { return true; }
      }
      return false;
    }

    /** Marks what the chain confirmed, then drops orders whose predecessor moved on. */
    method ReconcileWith(net: Network, registry: Registry)
      modifies this
      ensures orders == ReconcileSeen(net, registry.View(), old(orders))
      ensures OneUnresolved(old(orders)) ==> OneUnresolved(orders)
    {
      var kept: Orders := [];
      for i := 0 to |orders|
        invariant orders == old(orders)
        invariant kept == ReconcileSeen(net, registry.View(), orders[..i])
      {
        assert orders[..i + 1][..i] == orders[..i];
        var o := orders[i];
        var seen := HasConfirmation(net, registry, o);
        if seen { o := o.(state := Seen); }
        if Retained(registry.records, o) { kept := kept + [o]; }
      }
      assert orders[..|orders|] == orders;
      if OneUnresolved(orders) { ReconcileKeepsOne(net, registry.View(), orders); }
      orders := kept;
    }

    /** Drops orders admitted above the ancestor and reopens the seen ones. */
    method Rewind(ancestor: Height)
      modifies this
      ensures orders == RewindTo(old(orders), ancestor)
    {
      var kept: Orders := [];
      for i := 0 to |orders|
        invariant orders == old(orders)
        invariant kept == RewindTo(orders[..i], ancestor)
      {
        assert orders[..i + 1][..i] == orders[..i];
        if orders[i].origin <= ancestor {
          kept := kept + [if orders[i].state.Seen? then orders[i].(state := Authorized) else orders[i]];
        }
      }
      assert orders[..|orders|] == orders;
      orders := kept;
    }

    /** The name's authorized order was broadcast; the caller holds one. */
    method Broadcast(name: Name, expiry: Height)
      requires exists i | 0 <= i < |orders| :: orders[i].state.Authorized? && orders[i].note.name == name
      modifies this
      ensures orders == MarkSent(old(orders), name, expiry)
      ensures OneUnresolved(old(orders)) ==> OneUnresolved(orders)
    {
      if OneUnresolved(orders) { MarkSentKeepsOne(orders, name, expiry); }
      var k := FirstAuthorized(orders, name, 0);
      if k < |orders| {
        orders := orders[k := orders[k].(state := Sent(expiry))];
      }
    }

    /** A broadcast order the tip can no longer mine is authorized again. */
    method Expire(tip: Height)
      modifies this
      ensures orders == ExpireSent(old(orders), tip)
      ensures OneUnresolved(old(orders)) ==> OneUnresolved(orders)
    {
      if OneUnresolved(orders) { ExpireKeepsOne(orders, tip); }
      for i := 0 to |orders|
        invariant |orders| == |old(orders)|
        invariant forall k | 0 <= k < i :: orders[k] == ExpireOrder(old(orders)[k], tip)
        invariant forall k | i <= k < |orders| :: orders[k] == old(orders)[k]
      {
        if orders[i].state.Sent? && tip + 1 >= orders[i].state.expiry {
          orders := orders[i := orders[i].(state := Authorized)];
        }
      }
    }

    /** Removes the unresolved order owning this name; the caller knows there is one. */
    method Drop(name: Name)
      requires NotePending(orders, name)
      modifies this
      ensures orders == DropNote(old(orders), name)
      ensures OneUnresolved(old(orders)) ==> OneUnresolved(orders) && !NotePending(orders, name)
    {
      if OneUnresolved(orders) {
        DropKeepsOne(orders, name);
        assert name !in PendingNames(DropNote(orders, name));
      }
      var k := FirstUnresolved(orders, name, 0);
      if k < |orders| {
        orders := orders[..k] + orders[k + 1..];
      }
    }

    method Outstanding() returns (notes: seq<NameNote>)
      ensures notes == AuthorizedNotes(orders)
    {
      notes := [];
      for i := 0 to |orders|
        invariant notes == AuthorizedNotes(orders[..i])
      {
        assert orders[..i + 1][..i] == orders[..i];
        if orders[i].state.Authorized? { notes := notes + [orders[i].note]; }
      }
      assert orders[..|orders|] == orders;
    }
  }
}
