/** The unresolved orders of one name, and what each queue operation makes of them. */
module OrderStanding {
  import opened Basics
  import opened NameNotes
  import opened Registries
  import opened MarketBooks
  import opened MarketRules
  import opened OrderQueues
  import opened MintLoop

  /** The unresolved orders of name `n`, in admission order. */
  function Standing(orders: Orders, n: Name): Orders {
    if orders == [] then []
    else
      var rest, last := Standing(orders[..|orders| - 1], n), orders[|orders| - 1];
      if !last.state.Seen? && last.note.name == n then rest + [last] else rest
  }

  lemma {:induction false} StandingMembers(orders: Orders, n: Name)
    ensures forall o :: o in Standing(orders, n) <==> o in orders && !o.state.Seen? && o.note.name == n
  {
    if orders != [] {
      var k := |orders| - 1;
      assert orders == orders[..k] + [orders[k]];
      StandingMembers(orders[..k], n);
    }
  }

  lemma PendingIff(orders: Orders, n: Name)
    ensures NotePending(orders, n) <==> Standing(orders, n) != []
  {
    StandingMembers(orders, n);
    if NotePending(orders, n) {
      var i :| 0 <= i < |orders| && !orders[i].state.Seen? && orders[i].note.name == n;
      assert orders[i] in orders;
    }
    if Standing(orders, n) != [] {
      var o := Standing(orders, n)[0];
      assert o in Standing(orders, n);
      var i :| 0 <= i < |orders| && orders[i] == o;
    }
  }

  lemma {:induction false} StandingConcat(a: Orders, b: Orders, n: Name)
    ensures Standing(a + b, n) == Standing(a, n) + Standing(b, n)
  {
    if b == [] {
      assert a + b == a;
    } else {
      var k := |b| - 1;
      assert (a + b)[..|a| + k] == a + b[..k];
      StandingConcat(a, b[..k], n);
    }
  }

  lemma StandingOne(o: Order, n: Name)
    ensures Standing([o], n) == if !o.state.Seen? && o.note.name == n then [o] else []
  {
    assert [o][..0] == [];
  }

  lemma StandingAdmit(orders: Orders, origin: Height, note: NameNote, n: Name)
    ensures Standing(AdmitOrder(orders, origin, note), n) ==
      if note.name == n && Standing(orders, n) == [] then [Order(note, origin, Authorized)] else Standing(orders, n)
  {
    PendingIff(orders, note.name);
    var o := Order(note, origin, Authorized);
    StandingConcat(orders, [o], n);
    StandingOne(o, n);
  }

  lemma {:induction false} StandingExpire(orders: Orders, tip: Height, n: Name)
    ensures Standing(ExpireSent(orders, tip), n) == ExpireSent(Standing(orders, n), tip)
  {
    if orders != [] {
      var k := |orders| - 1;
      StandingExpire(orders[..k], tip, n);
      assert ExpireSent(orders, tip)[..k] == ExpireSent(orders[..k], tip);
    }
  }

  lemma StandingAround(orders: Orders, k: nat, n: Name)
    requires k < |orders|
    ensures Standing(orders, n) ==
      Standing(orders[..k], n) + (if !orders[k].state.Seen? && orders[k].note.name == n then [orders[k]] else []) + Standing(orders[k + 1..], n)
  {
    assert orders == orders[..k] + [orders[k]] + orders[k + 1..];
    StandingConcat(orders[..k] + [orders[k]], orders[k + 1..], n);
    StandingConcat(orders[..k], [orders[k]], n);
    StandingOne(orders[k], n);
  }

  lemma {:induction false} NoneStands(orders: Orders, n: Name)
    requires forall o | o in orders :: o.state.Seen? || o.note.name != n
    ensures Standing(orders, n) == []
  {
    if orders != [] {
      var k := |orders| - 1;
      assert orders == orders[..k] + [orders[k]];
      NoneStands(orders[..k], n);
    }
  }

  lemma FirstStands(orders: Orders, n: Name)
    ensures var k := FirstUnresolved(orders, n, 0);
      if k < |orders| then Standing(orders, n) == [orders[k]] + Standing(orders[k + 1..], n) && Standing(orders[..k], n) == []
      else Standing(orders, n) == []
  {
    var k := FirstUnresolved(orders, n, 0);
    forall o | o in orders[..k] ensures o.state.Seen? || o.note.name != n {
      var i :| 0 <= i < k && orders[..k][i] == o;
      assert orders[i] == o;
    }
    NoneStands(orders[..k], n);
    if k < |orders| { StandingAround(orders, k, n); } else { assert orders[..k] == orders; }
  }

  /** A drop takes the first unresolved order of its name and no other. */
  lemma StandingDrop(orders: Orders, name: Name, n: Name)
    ensures Standing(DropNote(orders, name), n) ==
      if name == n && Standing(orders, n) != [] then Standing(orders, n)[1..] else Standing(orders, n)
  {
    var k := FirstUnresolved(orders, name, 0);
    FirstStands(orders, name);
    if k < |orders| {
      StandingAround(orders, k, n);
      StandingConcat(orders[..k], orders[k + 1..], n);
    }
  }

  ghost predicate SentOnly(before: Orders, after: Orders, expiry: Height) {
    && |after| == |before|
    && forall i | 0 <= i < |before| ::
         after[i] == before[i] || (before[i].state.Authorized? && after[i] == before[i].(state := Sent(expiry)))
  }

  lemma SentAround(p: Orders, o: Order, q: Orders, expiry: Height)
    requires o.state.Authorized?
    ensures SentOnly(p + [o] + q, p + [o.(state := Sent(expiry))] + q, expiry)
    ensures |p + [o] + q| == 1 ==> p + [o.(state := Sent(expiry))] + q == [(p + [o] + q)[0].(state := Sent(expiry))]
  {
  }

  /** A broadcast changes no order of another name, and of its own only the state of one that was authorized. */
  lemma StandingSent(orders: Orders, name: Name, expiry: Height, n: Name)
    ensures var before, after := Standing(orders, n), Standing(MarkSent(orders, name, expiry), n);
      && SentOnly(before, after, expiry) && (name != n ==> after == before)
      && (name == n && |before| == 1 && before[0].state.Authorized? ==> after == [before[0].(state := Sent(expiry))])
  {
    var k := FirstAuthorized(orders, name, 0);
    if k < |orders| {
      var sent := MarkSent(orders, name, expiry);
      StandingAround(orders, k, n);
      StandingAround(sent, k, n);
      assert sent[..k] == orders[..k] && sent[k + 1..] == orders[k + 1..];
      if name == n { SentAround(Standing(orders[..k], n), orders[k], Standing(orders[k + 1..], n), expiry); }
    } else {
      StandingMembers(orders, n);
      forall o | o in Standing(orders, n) ensures name == n ==> !o.state.Authorized? {
        var i :| 0 <= i < |orders| && orders[i] == o;
      }
      assert Standing(orders, n) != [] ==> Standing(orders, n)[0] in Standing(orders, n);
    }
  }

  // ---------------------------------------------------------------------------
  // Notes on one name
  // ---------------------------------------------------------------------------

  /** The notes of `notes` on name `n`. */
  function NotesOn(notes: seq<NameNote>, n: Name): seq<NameNote> {
    if notes == [] then []
    else
      var k := |notes| - 1;
      var rest := NotesOn(notes[..k], n);
      if notes[k].name == n then rest + [notes[k]] else rest
  }

  lemma {:induction false} AuthorizedOn(orders: Orders, n: Name)
    ensures NotesOn(AuthorizedNotes(orders), n) == AuthorizedNotes(Standing(orders, n))
  {
    if orders != [] {
      var k := |orders| - 1;
      AuthorizedOn(orders[..k], n);
      var rest := AuthorizedNotes(orders[..k]);
      if orders[k].state.Authorized? {
        assert (rest + [orders[k].note])[..|rest|] == rest;
      }
      if !orders[k].state.Seen? && orders[k].note.name == n {
        var s := Standing(orders[..k], n);
        assert (s + [orders[k]])[..|s|] == s;
      }
    }
  }

  // ---------------------------------------------------------------------------
  // The parts of a pass
  // ---------------------------------------------------------------------------

  /** How many of the notes are updates. */
  function Updates(notes: seq<NameNote>): nat {
    if notes == [] then 0 else Updates(notes[..|notes| - 1]) + if notes[|notes| - 1].UpdateNote? then 1 else 0
  }

  function Dropped(s: Orders, k: nat): Orders {
    if k >= |s| then [] else s[k..]
  }

  lemma DropOneMore(s: Orders, k: nat)
    ensures Dropped(s, k + 1) == if Dropped(s, k) != [] then Dropped(s, k)[1..] else Dropped(s, k)
  {
  }

  /** On a due name, as many of the first orders go as authorized updates were found. */
  lemma {:induction false} StandingDropDue(orders: Orders, records: Records, mtp: Timestamp, notes: seq<NameNote>, n: Name)
    ensures Standing(DropDueUpdates(orders, records, mtp, notes), n) ==
      if n in records && ReleaseDue(records[n], mtp) then Dropped(Standing(orders, n), Updates(NotesOn(notes, n))) else Standing(orders, n)
  {
    if notes != [] {
      var k := |notes| - 1;
      var before, note := DropDueUpdates(orders, records, mtp, notes[..k]), notes[k];
      StandingDropDue(orders, records, mtp, notes[..k], n);
      if note.UpdateNote? && note.name in records && ReleaseDue(records[note.name], mtp) {
        StandingDrop(before, note.name, n);
      }
      if note.name == n {
        var rest := NotesOn(notes[..k], n);
        assert (rest + [note])[..|rest|] == rest;
        DropOneMore(Standing(orders, n), Updates(rest));
      }
    }
  }

  lemma {:induction false} UpdatesOf(s: Orders)
    ensures Updates(AuthorizedNotes(s)) <= |s|
    ensures Updates(AuthorizedNotes(s)) == |s| <==> forall o | o in s :: o.state.Authorized? && o.note.UpdateNote?
    ensures (forall o | o in s :: !o.note.UpdateNote?) ==> Updates(AuthorizedNotes(s)) == 0
  {
    if s != [] {
      var k := |s| - 1;
      UpdatesOf(s[..k]);
      assert s == s[..k] + [s[k]];
      var rest := AuthorizedNotes(s[..k]);
      if s[k].state.Authorized? { assert (rest + [s[k].note])[..|rest|] == rest; }
      assert (forall o | o in s :: o.state.Authorized? && o.note.UpdateNote?) <==>
        (forall o | o in s[..k] :: o.state.Authorized? && o.note.UpdateNote?) && s[k].state.Authorized? && s[k].note.UpdateNote?;
    }
  }

  /** A live name without an open buy. */
  predicate Unheld(records: Records, sales: seq<OpenSale>, n: Name) {
    n in records && !HasSale(sales, n)
  }

  function ReleaseOrder(records: Records, tip: Height, n: Name): Order
    requires n in records
  {
    Order(ReleaseNote(n, records[n].ua, records[n].commitment), tip, Authorized)
  }

  lemma ReleaseOne(before: Orders, records: Records, sales: seq<OpenSale>, tip: Height, name: Name, n: Name)
    ensures Standing(AdmitRelease(before, records, sales, tip, name), n) ==
      if name == n && Standing(before, n) == [] && Unheld(records, sales, n) then [ReleaseOrder(records, tip, n)] else Standing(before, n)
  {
    PendingIff(before, name);
    if name in records { StandingAdmit(before, tip, ReleaseNote(name, records[name].ua, records[name].commitment), n); }
  }

  /** A release joins for a listed live name without an unresolved order and without an open buy. */
  lemma {:induction false} StandingRelease(orders: Orders, records: Records, sales: seq<OpenSale>, tip: Height,
                                           names: seq<Name>, n: Name)
    ensures Standing(AdmitReleases(orders, records, sales, tip, names), n) ==
      if n in names && Standing(orders, n) == [] && Unheld(records, sales, n)
      then [ReleaseOrder(records, tip, n)] else Standing(orders, n)
  {
    if names != [] {
      var k := |names| - 1;
      StandingRelease(orders, records, sales, tip, names[..k], n);
      ReleaseOne(AdmitReleases(orders, records, sales, tip, names[..k]), records, sales, tip, names[k], n);
      assert n in names <==> n in names[..k] || n == names[k];
    }
  }

  /** Every order of `b` is one of `a` in some state. */
  ghost predicate FromOnly(a: Orders, b: Orders) {
    forall o | o in b :: exists p :: p in a && p.note == o.note && p.origin == o.origin
  }

  lemma FromTrans(a: Orders, b: Orders, c: Orders)
    requires FromOnly(a, b) && FromOnly(b, c)
    ensures FromOnly(a, c)
  {
    forall o | o in c ensures exists p :: p in a && p.note == o.note && p.origin == o.origin {
      var q :| q in b && q.note == o.note && q.origin == o.origin;
    }
  }

  lemma SentFrom(before: Orders, after: Orders, expiry: Height)
    requires SentOnly(before, after, expiry)
    ensures FromOnly(before, after)
  {
    forall o | o in after ensures exists p :: p in before && p.note == o.note && p.origin == o.origin {
      var i :| 0 <= i < |after| && after[i] == o;
      assert before[i] in before;
    }
  }

  lemma DropFrom(orders: Orders, name: Name, n: Name)
    ensures FromOnly(Standing(orders, n), Standing(DropNote(orders, name), n))
  {
    StandingDrop(orders, name, n);
    assert forall o | o in Standing(DropNote(orders, name), n) :: o in Standing(orders, n);
  }

  /** Submission brings no order of its own: what is left was there, in some state. */
  lemma {:induction false} StandingSubmit(orders: Orders, records: Records, broadcast: map<Name, Height>, notes: seq<NameNote>, n: Name)
    ensures FromOnly(Standing(orders, n), Standing(Submit(orders, records, broadcast, notes), n))
  {
    if notes != [] {
      var k := |notes| - 1;
      var before, note := Submit(orders, records, broadcast, notes[..k]), notes[k];
      StandingSubmit(orders, records, broadcast, notes[..k], n);
      if Stranded(records, note) {
        DropFrom(before, note.name, n);
      } else if note.name in broadcast {
        StandingSent(before, note.name, broadcast[note.name], n);
        SentFrom(Standing(before, n), Standing(MarkSent(before, note.name, broadcast[note.name]), n), broadcast[note.name]);
      }
      FromTrans(Standing(orders, n), Standing(before, n), Standing(Submit(orders, records, broadcast, notes), n));
    }
  }

  /** The state of an order that was up for submission: out, when the node took it. */
  function Out(broadcast: map<Name, Height>, n: Name): OrderState {
    if n in broadcast then Sent(broadcast[n]) else Authorized
  }

  /** Notes on other names submit nothing of this one. */
  lemma {:induction false} StandingSubmitOthers(orders: Orders, records: Records, broadcast: map<Name, Height>, notes: seq<NameNote>, n: Name)
    requires NotesOn(notes, n) == []
    ensures Standing(Submit(orders, records, broadcast, notes), n) == Standing(orders, n)
  {
    if notes != [] {
      var k := |notes| - 1;
      var before, note := Submit(orders, records, broadcast, notes[..k]), notes[k];
      StandingSubmitOthers(orders, records, broadcast, notes[..k], n);
      OtherNote(before, records, broadcast, note, n);
    }
  }

  /** One note of the list, on its own name or another. */
  lemma SubmitNext(before: Orders, records: Records, broadcast: map<Name, Height>, note: NameNote, n: Name, o: Order)
    requires Standing(before, n) == [o] && o.state.Authorized? && o.note.name == n
    ensures Standing(SubmitNote(before, records, broadcast, note), n) ==
        if note.name != n then [o] else if Stranded(records, note) then [] else [o.(state := Out(broadcast, n))]
  {
    StandingDrop(before, note.name, n);
    if note.name in broadcast { StandingSent(before, note.name, broadcast[note.name], n); }
  }

  /** The one order of a name is dropped when stranded, and otherwise stays, sent when the node took it. */
  lemma {:induction false} StandingSubmitOne(orders: Orders, records: Records, broadcast: map<Name, Height>, notes: seq<NameNote>,
                                             n: Name, o: Order)
    requires Standing(orders, n) == [o] && o.state.Authorized? && o.note.name == n && NotesOn(notes, n) == [o.note]
    ensures Standing(Submit(orders, records, broadcast, notes), n) ==
      if Stranded(records, o.note) then [] else [o.(state := Out(broadcast, n))]
  {
    var k := |notes| - 1;
    var before, note := Submit(orders, records, broadcast, notes[..k]), notes[k];
    if note.name == n {
      var rest := NotesOn(notes[..k], n);
      assert rest + [note] == [o.note] && |rest| == 0;
      assert note == (rest + [note])[0];
      StandingSubmitOthers(orders, records, broadcast, notes[..k], n);
      SubmitNext(before, records, broadcast, note, n, o);
    } else {
      StandingSubmitOne(orders, records, broadcast, notes[..k], n, o);
      OtherNote(before, records, broadcast, note, n);
    }
  }

  lemma OtherNote(before: Orders, records: Records, broadcast: map<Name, Height>, note: NameNote, n: Name)
    requires note.name != n
    ensures Standing(SubmitNote(before, records, broadcast, note), n) == Standing(before, n)
  {
    StandingDrop(before, note.name, n);
    if note.name in broadcast { StandingSent(before, note.name, broadcast[note.name], n); }
  }
}
