// Every step of the MQTT-SN client keeps the invariant of SnLedger.
module SnInvariant {
  import opened Bits
  import opened Wrappers
  import opened SnProtocol
  import opened SnLedger

  ghost predicate Below(c: Client, l: Ledger) {
    && (forall k :: k in c.messages ==> k <= c.counter && (k == 0 ==> !c.messages[k].Publish?))
    && forall p :: p in l.sent && Numbered(p) ==> 0 < NumberOf(p) <= c.counter
  }

  lemma KeysBelow(c: Client, l: Ledger)
    requires NumbersUnique(c, l) && Keyed(c, l)
    ensures Below(c, l)
  {
    forall k | k in c.messages
      ensures k <= c.counter && (k == 0 ==> !c.messages[k].Publish?)
    {
      assert KeyedAt(c, l, k) && Exists(c, l, c.messages[k]);
    }
    forall p | p in l.sent && Numbered(p)
      ensures 0 < NumberOf(p) <= c.counter
    {
      assert Exists(c, l, p);
    }
  }

  // The number of an open REGISTER is no key of the map.
  lemma NoPublishAt(c: Client, l: Ledger, m: nat)
    requires NumbersUnique(c, l) && Keyed(c, l) && Paired(c, l) && m in l.open
    ensures m !in c.messages
  {
    assert PairedAt(c, l, m);
    var r := Register(m, c.messages[m - 1].topicName);
    assert Exists(c, l, r);
    if m in c.messages {
      assert KeyedAt(c, l, m) && Exists(c, l, c.messages[m]);
    }
  }

  lemma OpenInjective(c: Client, l: Ledger, m: nat)
    requires Paired(c, l) && Owed(c, l) && m in l.open
    ensures l.open[m] !in (l.open - {m}).Values
    ensures c.structs !in l.open.Values
  {
    forall n | n in l.open
      ensures l.open[n] != c.structs && (n != m ==> l.open[n] != l.open[m])
    {
      assert PairedAt(c, l, n) && PairedAt(c, l, m);
      assert Holds(c, l.open[m], m - 1) && Holds(c, l.open[n], n - 1);
    }
  }

  // A waiting publish has never been sent.
  lemma NotYetSent(c: Client, l: Ledger, m: nat)
    requires Inv(c, l) && m in l.open
    ensures forall q :: q in l.sent && q.Publish? ==> q.ref != l.open[m]
  {
    assert PairedAt(c, l, m) && Holds(c, l.open[m], m - 1);
    forall q | q in l.sent && q.Publish? && q.ref == l.open[m]
      ensures false
    {
      assert Holds(c, q.ref, q.messageId);
      assert KeyedAt(c, l, m - 1) && Exists(c, l, q) && Exists(c, l, c.messages[m - 1]);
    }
  }

  lemma FreshNotOpen(c: Client, l: Ledger)
    requires Paired(c, l) && Owed(c, l)
    ensures c.structs !in l.open.Values
  {
    if m :| m in l.open && l.open[m] == c.structs {
      OpenInjective(c, l, m);
    }
  }

  // The changes the steps make to the map and the ledger, one predicate a kind.

  // A new SUBSCRIBE or UNSUBSCRIBE.
  predicate Requested(c: Client, l: Ledger, c': Client, l': Ledger, p: Packet) {
    && (p.Subscribe? || p.Unsubscribe?) && NumberOf(p) == c.counter + 1
    && c'.counter == c.counter + 1 && c'.structs == c.structs
    && c'.messages == c.messages[c.counter + 1 := p]
    && l' == l.(sent := l.sent + {p})
  }

  // A publish that waits for its topic id, and its REGISTER.
  predicate Registered(c: Client, l: Ledger, c': Client, l': Ledger, p: Packet) {
    && p.Publish? && p.ref == c.structs && p.messageId == c.counter + 1 && p.topicId == 0
    && c'.counter == c.counter + 2 && c'.structs == c.structs + 1
    && c'.messages == c.messages[c.counter + 1 := p][0 := Register(c.counter + 2, p.topicName)]
    && l' == l.(sent := l.sent + {Register(c.counter + 2, p.topicName)},
                issued := l.issued[p.ref := p.qos],
                open := l.open[c.counter + 2 := p.ref])
  }

  // A publish whose topic id is known.
  predicate Published(c: Client, l: Ledger, c': Client, l': Ledger, p: Packet) {
    && p.Publish? && p.ref == c.structs && p.messageId == c.counter + 2
    && c'.counter == c.counter + 2 && c'.structs == c.structs + 1
    && c'.messages == (if p.qos == NO_QOS then c.messages else c.messages[c.counter + 2 := p])
    && l' == l.(sent := l.sent + {p},
                issued := l.issued[p.ref := p.qos],
                released := if p.qos == NO_QOS then l.released + {p.ref} else l.released)
  }

  // A waiting publish gets its topic id and a new number.
  predicate Moved(c: Client, l: Ledger, c': Client, l': Ledger, m: nat, p: Packet) {
    && m in l.open && m > 1 && Holds(c, l.open[m], m - 1)
    && p.Publish? && p.ref == l.open[m]
    && p.messageId == c.counter + 1 && p.qos == c.messages[m - 1].qos
    && c'.counter == c.counter + 1 && c'.structs == c.structs
    && c'.messages == (if p.qos == NO_QOS then c.messages else c.messages[c.counter + 1 := p]) - {m - 1, m}
    && l' == l.(sent := l.sent + {p},
                open := l.open - {m},
                released := if p.qos == NO_QOS then l.released + {p.ref} else l.released)
  }

  // A waiting publish is given up.
  predicate Refused(c: Client, l: Ledger, c': Client, l': Ledger, m: nat) {
    && m in l.open && m > 1 && Holds(c, l.open[m], m - 1)
    && c'.counter == c.counter && c'.structs == c.structs
    && c'.messages == c.messages - {m - 1, m}
    && l' == l.(open := l.open - {m}, released := l.released + {l.open[m]})
  }

  // A publish is acknowledged.
  predicate Acked(c: Client, l: Ledger, c': Client, l': Ledger, id: nat) {
    && SentPublish(l, id)
    && c'.counter == c.counter && c'.structs == c.structs
    && c'.messages == c.messages - {id}
    && l' == l.(released := l.released + Acknowledged(l, id))
  }

  // A subscription or unsubscription is answered.
  predicate Answered(c: Client, l: Ledger, c': Client, l': Ledger, id: nat) {
    && (id in c.messages ==> !c.messages[id].Publish?)
    && c'.counter == c.counter && c'.structs == c.structs
    && c'.messages == c.messages - {id}
    && l' == l
  }

  // ----- Every step keeps the invariant, part by part -----

  lemma RequestedNumbers(c: Client, l: Ledger, c': Client, l': Ledger, p: Packet)
    requires Requested(c, l, c', l', p)
    requires NumbersUnique(c, l)
    ensures NumbersUnique(c', l')
  {
  }

  lemma RegisteredNumbers(c: Client, l: Ledger, c': Client, l': Ledger, p: Packet)
    requires Registered(c, l, c', l', p)
    requires NumbersUnique(c, l)
    ensures NumbersUnique(c', l')
  {
  }

  lemma PublishedNumbers(c: Client, l: Ledger, c': Client, l': Ledger, p: Packet)
    requires Published(c, l, c', l', p)
    requires NumbersUnique(c, l)
    ensures NumbersUnique(c', l')
  {
  }

  lemma MovedNumbers(c: Client, l: Ledger, c': Client, l': Ledger, m: nat, p: Packet)
    requires Moved(c, l, c', l', m, p)
    requires NumbersUnique(c, l)
    ensures NumbersUnique(c', l')
  {
  }

  lemma RefusedNumbers(c: Client, l: Ledger, c': Client, l': Ledger, m: nat)
    requires Refused(c, l, c', l', m)
    requires NumbersUnique(c, l)
    ensures NumbersUnique(c', l')
  {
  }

  lemma AckedNumbers(c: Client, l: Ledger, c': Client, l': Ledger, id: nat)
    requires Acked(c, l, c', l', id)
    requires NumbersUnique(c, l)
    ensures NumbersUnique(c', l')
  {
  }

  lemma AnsweredNumbers(c: Client, l: Ledger, c': Client, l': Ledger, id: nat)
    requires Answered(c, l, c', l', id)
    requires NumbersUnique(c, l)
    ensures NumbersUnique(c', l')
  {
  }

  lemma RequestedKeys(c: Client, l: Ledger, c': Client, l': Ledger, p: Packet)
    requires Requested(c, l, c', l', p)
    requires Keyed(c, l) && Below(c, l)
    ensures Keyed(c', l')
  {
    forall k | k in c'.messages && k in c.messages && c'.messages[k] == c.messages[k]
      ensures KeyedAt(c', l', k)
    {
      assert KeyedAt(c, l, k);
    }
  }

  lemma RegisteredKeys(c: Client, l: Ledger, c': Client, l': Ledger, p: Packet)
    requires Registered(c, l, c', l', p)
    requires Keyed(c, l) && Below(c, l) && Owed(c, l)
    ensures Keyed(c', l')
  {
    forall k | k in c'.messages && k in c.messages && c'.messages[k] == c.messages[k]
      ensures KeyedAt(c', l', k)
    {
      assert KeyedAt(c, l, k);
      if c.messages[k].Publish? {
        assert Holds(c, c.messages[k].ref, k);
      }
    }
  }

  lemma PublishedKeys(c: Client, l: Ledger, c': Client, l': Ledger, p: Packet)
    requires Published(c, l, c', l', p)
    requires Keyed(c, l) && Below(c, l) && p.ref !in l.open.Values
    ensures Keyed(c', l')
  {
    forall k | k in c'.messages && k in c.messages && c'.messages[k] == c.messages[k]
      ensures KeyedAt(c', l', k)
    {
      assert KeyedAt(c, l, k);
    }
  }

  lemma MovedKeys(c: Client, l: Ledger, c': Client, l': Ledger, m: nat, p: Packet)
    requires Moved(c, l, c', l', m, p)
    requires Keyed(c, l) && Below(c, l) && p.ref !in l'.open.Values
    ensures Keyed(c', l')
  {
    forall k | k in c'.messages && k in c.messages && c'.messages[k] == c.messages[k]
      ensures KeyedAt(c', l', k)
    {
      assert KeyedAt(c, l, k);
    }
  }

  lemma RefusedKeys(c: Client, l: Ledger, c': Client, l': Ledger, m: nat)
    requires Refused(c, l, c', l', m)
    requires Keyed(c, l) && Below(c, l)
    ensures Keyed(c', l')
  {
    forall k | k in c'.messages && k in c.messages && c'.messages[k] == c.messages[k]
      ensures KeyedAt(c', l', k)
    {
      assert KeyedAt(c, l, k);
    }
  }

  lemma AckedKeys(c: Client, l: Ledger, c': Client, l': Ledger, id: nat)
    requires Acked(c, l, c', l', id)
    requires Keyed(c, l) && Below(c, l)
    ensures Keyed(c', l')
  {
    forall k | k in c'.messages && k in c.messages && c'.messages[k] == c.messages[k]
      ensures KeyedAt(c', l', k)
    {
      assert KeyedAt(c, l, k);
    }
  }

  lemma AnsweredKeys(c: Client, l: Ledger, c': Client, l': Ledger, id: nat)
    requires Answered(c, l, c', l', id)
    requires Keyed(c, l) && Below(c, l)
    ensures Keyed(c', l')
  {
    forall k | k in c'.messages && k in c.messages && c'.messages[k] == c.messages[k]
      ensures KeyedAt(c', l', k)
    {
      assert KeyedAt(c, l, k);
    }
  }

  lemma RequestedPairs(c: Client, l: Ledger, c': Client, l': Ledger, p: Packet)
    requires Requested(c, l, c', l', p)
    requires Paired(c, l) && Below(c, l)
    ensures Paired(c', l')
  {
    forall m | m in l.open
      ensures PairedAt(c', l', m)
    {
      assert PairedAt(c, l, m);
    }
  }

  lemma RegisteredPairs(c: Client, l: Ledger, c': Client, l': Ledger, p: Packet)
    requires Registered(c, l, c', l', p)
    requires Paired(c, l) && Below(c, l)
    ensures Paired(c', l')
  {
    forall m | m in l.open
      ensures PairedAt(c', l', m)
    {
      assert PairedAt(c, l, m);
    }
  }

  lemma PublishedPairs(c: Client, l: Ledger, c': Client, l': Ledger, p: Packet)
    requires Published(c, l, c', l', p)
    requires Paired(c, l) && Below(c, l)
    ensures Paired(c', l')
  {
    forall m | m in l.open
      ensures PairedAt(c', l', m)
    {
      assert PairedAt(c, l, m);
    }
  }

  lemma AnsweredPairs(c: Client, l: Ledger, c': Client, l': Ledger, id: nat)
    requires Answered(c, l, c', l', id)
    requires Paired(c, l) && Below(c, l)
    ensures Paired(c', l')
  {
    forall m | m in l.open
      ensures PairedAt(c', l', m)
    {
      assert PairedAt(c, l, m);
    }
  }

  lemma AckedPairs(c: Client, l: Ledger, c': Client, l': Ledger, id: nat)
    requires Acked(c, l, c', l', id)
    requires Inv(c, l)
    ensures Paired(c', l')
  {
    var q :| q in l.sent && q.Publish? && q.messageId == id;
    forall m | m in l.open
      ensures PairedAt(c', l', m)
    {
      assert PairedAt(c, l, m);
      if m - 1 == id {
        assert KeyedAt(c, l, id) && Exists(c, l, q) && Exists(c, l, c.messages[id]);
      }
    }
  }

  lemma RefusedPairs(c: Client, l: Ledger, c': Client, l': Ledger, m: nat)
    requires Refused(c, l, c', l', m)
    requires Paired(c, l) && Below(c, l) && m !in c.messages
    ensures Paired(c', l')
  {
    forall n | n in l'.open
      ensures PairedAt(c', l', n)
    {
      assert PairedAt(c, l, n);
    }
  }

  lemma MovedPairs(c: Client, l: Ledger, c': Client, l': Ledger, m: nat, p: Packet)
    requires Moved(c, l, c', l', m, p)
    requires Paired(c, l) && Below(c, l) && m !in c.messages
    ensures Paired(c', l')
  {
    forall n | n in l'.open
      ensures PairedAt(c', l', n)
    {
      assert PairedAt(c, l, n);
    }
  }

  lemma RequestedSettles(c: Client, l: Ledger, c': Client, l': Ledger, p: Packet)
    requires Requested(c, l, c', l', p)
    requires Settled(c, l) && Below(c, l)
    ensures Settled(c', l')
  {
  }

  lemma RegisteredSettles(c: Client, l: Ledger, c': Client, l': Ledger, p: Packet)
    requires Registered(c, l, c', l', p)
    requires Settled(c, l) && Below(c, l)
    ensures Settled(c', l')
  {
  }

  lemma PublishedSettles(c: Client, l: Ledger, c': Client, l': Ledger, p: Packet)
    requires Published(c, l, c', l', p)
    requires Settled(c, l) && Below(c, l)
    ensures Settled(c', l')
  {
  }

  lemma MovedSettles(c: Client, l: Ledger, c': Client, l': Ledger, m: nat, p: Packet)
    requires Moved(c, l, c', l', m, p)
    requires Settled(c, l) && Below(c, l)
    ensures Settled(c', l')
  {
  }

  lemma RefusedSettles(c: Client, l: Ledger, c': Client, l': Ledger, m: nat)
    requires Refused(c, l, c', l', m)
    requires Settled(c, l) && Below(c, l)
    ensures Settled(c', l')
  {
  }

  lemma AckedSettles(c: Client, l: Ledger, c': Client, l': Ledger, id: nat)
    requires Acked(c, l, c', l', id)
    requires Settled(c, l) && Below(c, l)
    ensures Settled(c', l')
  {
  }

  lemma AnsweredSettles(c: Client, l: Ledger, c': Client, l': Ledger, id: nat)
    requires Answered(c, l, c', l', id)
    requires Settled(c, l) && Below(c, l)
    ensures Settled(c', l')
  {
  }

  lemma RequestedOwes(c: Client, l: Ledger, c': Client, l': Ledger, p: Packet)
    requires Requested(c, l, c', l', p)
    requires Owed(c, l) && Below(c, l)
    ensures Owed(c', l')
  {
    assert forall r, k :: Holds(c', r, k) ==> Holds(c, r, k);
  }

  lemma RegisteredOwes(c: Client, l: Ledger, c': Client, l': Ledger, p: Packet)
    requires Registered(c, l, c', l', p)
    requires Owed(c, l) && Below(c, l)
    ensures Owed(c', l')
  {
    assert forall r, k :: Holds(c', r, k) ==> Holds(c, r, k) || (k == c.counter + 1 && r == p.ref);
  }

  lemma PublishedOwes(c: Client, l: Ledger, c': Client, l': Ledger, p: Packet)
    requires Published(c, l, c', l', p)
    requires Owed(c, l) && Below(c, l)
    ensures Owed(c', l')
  {
    assert forall r, k :: Holds(c', r, k) ==> Holds(c, r, k) || (k == c.counter + 2 && r == p.ref);
  }

  lemma MovedOwes(c: Client, l: Ledger, c': Client, l': Ledger, m: nat, p: Packet)
    requires Moved(c, l, c', l', m, p)
    requires Owed(c, l) && Below(c, l)
    ensures Owed(c', l')
  {
    forall r, k | Holds(c', r, k)
      ensures if k == c.counter + 1 then r == p.ref && p.qos != NO_QOS else Holds(c, r, k) && r != p.ref
    {
      if k != c.counter + 1 {
        assert Holds(c, r, k) && Holds(c, p.ref, m - 1);
      }
    }
  }

  lemma RefusedOwes(c: Client, l: Ledger, c': Client, l': Ledger, m: nat)
    requires Refused(c, l, c', l', m)
    requires Owed(c, l) && Below(c, l)
    ensures Owed(c', l')
  {
    assert forall r, k :: Holds(c', r, k) ==> Holds(c, r, k) && r != l.open[m];
  }

  lemma AckedOwes(c: Client, l: Ledger, c': Client, l': Ledger, id: nat)
    requires Acked(c, l, c', l', id)
    requires Owed(c, l) && Kept(c, l)
    ensures Owed(c', l')
  {
    forall r, k | Holds(c', r, k)
      ensures Holds(c, r, k) && r !in Acknowledged(l, id)
    {
      assert Holds(c, r, k) && !Holds(c, r, id);
    }
  }

  lemma AnsweredOwes(c: Client, l: Ledger, c': Client, l': Ledger, id: nat)
    requires Answered(c, l, c', l', id)
    requires Owed(c, l) && Below(c, l)
    ensures Owed(c', l')
  {
    assert forall r, k :: Holds(c', r, k) ==> Holds(c, r, k);
  }

  lemma RequestedKeeps(c: Client, l: Ledger, c': Client, l': Ledger, p: Packet)
    requires Requested(c, l, c', l', p)
    requires Owed(c, l) && Kept(c, l) && Below(c, l)
    ensures Kept(c', l')
  {
    forall r | r in l'.issued && r !in l'.released
      ensures exists k :: Holds(c', r, k)
    {
      var k :| Holds(c, r, k);
      assert Holds(c', r, k);
    }
  }

  lemma RegisteredKeeps(c: Client, l: Ledger, c': Client, l': Ledger, p: Packet)
    requires Registered(c, l, c', l', p)
    requires Owed(c, l) && Kept(c, l) && Below(c, l)
    ensures Kept(c', l')
  {
    forall r | r in l'.issued && r !in l'.released
      ensures exists k :: Holds(c', r, k)
    {
      if r == p.ref {
        assert Holds(c', r, c.counter + 1);
      } else {
        var k :| Holds(c, r, k);
        assert Holds(c', r, k);
      }
    }
  }

  lemma PublishedKeeps(c: Client, l: Ledger, c': Client, l': Ledger, p: Packet)
    requires Published(c, l, c', l', p)
    requires Owed(c, l) && Kept(c, l) && Below(c, l)
    ensures Kept(c', l')
  {
    forall r | r in l'.issued && r !in l'.released
      ensures exists k :: Holds(c', r, k)
    {
      if r == p.ref {
        assert Holds(c', r, c.counter + 2);
      } else {
        var k :| Holds(c, r, k);
        assert Holds(c', r, k);
      }
    }
  }

  lemma MovedKeeps(c: Client, l: Ledger, c': Client, l': Ledger, m: nat, p: Packet)
    requires Moved(c, l, c', l', m, p)
    requires Owed(c, l) && Kept(c, l) && Below(c, l) && m !in c.messages && m <= c.counter
    requires forall q :: q in l.sent && q.Publish? ==> q.ref != p.ref
    ensures Kept(c', l')
  {
    forall r | r in l'.issued && r !in l'.released
      ensures exists k :: Holds(c', r, k)
    {
      if r == p.ref {
        assert Holds(c', r, c.counter + 1);
      } else {
        var k :| Holds(c, r, k);
        assert Holds(c', r, k);
      }
    }
  }

  lemma RefusedKeeps(c: Client, l: Ledger, c': Client, l': Ledger, m: nat)
    requires Refused(c, l, c', l', m)
    requires Owed(c, l) && Kept(c, l) && Below(c, l) && m !in c.messages
    ensures Kept(c', l')
  {
    forall r | r in l'.issued && r !in l'.released
      ensures exists k :: Holds(c', r, k)
    {
      var k :| Holds(c, r, k);
      assert Holds(c', r, k);
    }
  }

  lemma AckedKeeps(c: Client, l: Ledger, c': Client, l': Ledger, id: nat)
    requires Acked(c, l, c', l', id)
    requires Inv(c, l)
    ensures Kept(c', l')
  {
    var q :| q in l.sent && q.Publish? && q.messageId == id;
    forall r | r in l'.issued && r !in l'.released
      ensures exists k :: Holds(c', r, k)
    {
      var k :| Holds(c, r, k);
      if k == id {
        assert KeyedAt(c, l, id) && Exists(c, l, q) && Exists(c, l, c.messages[id]);
      }
      assert Holds(c', r, k);
    }
  }

  lemma AnsweredKeeps(c: Client, l: Ledger, c': Client, l': Ledger, id: nat)
    requires Answered(c, l, c', l', id)
    requires Owed(c, l) && Kept(c, l) && Below(c, l)
    ensures Kept(c', l')
  {
    forall r | r in l'.issued && r !in l'.released
      ensures exists k :: Holds(c', r, k)
    {
      var k :| Holds(c, r, k);
      assert Holds(c', r, k);
    }
  }

  lemma RequestedKept(c: Client, l: Ledger, c': Client, l': Ledger, p: Packet)
    requires Inv(c, l) && Requested(c, l, c', l', p)
    ensures Inv(c', l')
  {
    KeysBelow(c, l);
    RequestedNumbers(c, l, c', l', p);
    RequestedKeys(c, l, c', l', p);
    RequestedPairs(c, l, c', l', p);
    RequestedSettles(c, l, c', l', p);
    RequestedOwes(c, l, c', l', p);
    RequestedKeeps(c, l, c', l', p);
  }

  lemma RegisteredKept(c: Client, l: Ledger, c': Client, l': Ledger, p: Packet)
    requires Inv(c, l) && Registered(c, l, c', l', p)
    ensures Inv(c', l')
  {
    KeysBelow(c, l);
    RegisteredNumbers(c, l, c', l', p);
    RegisteredKeys(c, l, c', l', p);
    RegisteredPairs(c, l, c', l', p);
    RegisteredSettles(c, l, c', l', p);
    RegisteredOwes(c, l, c', l', p);
    RegisteredKeeps(c, l, c', l', p);
  }

  lemma PublishedKept(c: Client, l: Ledger, c': Client, l': Ledger, p: Packet)
    requires Inv(c, l) && Published(c, l, c', l', p)
    ensures Inv(c', l')
  {
    KeysBelow(c, l);
    FreshNotOpen(c, l);
    PublishedNumbers(c, l, c', l', p);
    PublishedKeys(c, l, c', l', p);
    PublishedPairs(c, l, c', l', p);
    PublishedSettles(c, l, c', l', p);
    PublishedOwes(c, l, c', l', p);
    PublishedKeeps(c, l, c', l', p);
  }

  lemma MovedKept(c: Client, l: Ledger, c': Client, l': Ledger, m: nat, p: Packet)
    requires Inv(c, l) && Moved(c, l, c', l', m, p)
    ensures Inv(c', l')
  {
    KeysBelow(c, l);
    NoPublishAt(c, l, m);
    OpenInjective(c, l, m);
    assert PairedAt(c, l, m);
    NotYetSent(c, l, m);
    MovedNumbers(c, l, c', l', m, p);
    MovedKeys(c, l, c', l', m, p);
    MovedPairs(c, l, c', l', m, p);
    MovedSettles(c, l, c', l', m, p);
    MovedOwes(c, l, c', l', m, p);
    MovedKeeps(c, l, c', l', m, p);
  }

  lemma RefusedKept(c: Client, l: Ledger, c': Client, l': Ledger, m: nat)
    requires Inv(c, l) && Refused(c, l, c', l', m)
    ensures Inv(c', l')
  {
    KeysBelow(c, l);
    NoPublishAt(c, l, m);
    OpenInjective(c, l, m);
    assert PairedAt(c, l, m);
    RefusedNumbers(c, l, c', l', m);
    RefusedKeys(c, l, c', l', m);
    RefusedPairs(c, l, c', l', m);
    RefusedSettles(c, l, c', l', m);
    RefusedOwes(c, l, c', l', m);
    RefusedKeeps(c, l, c', l', m);
  }

  lemma AckedKept(c: Client, l: Ledger, c': Client, l': Ledger, id: nat)
    requires Inv(c, l) && Acked(c, l, c', l', id)
    ensures Inv(c', l')
  {
    KeysBelow(c, l);
    AckedNumbers(c, l, c', l', id);
    AckedKeys(c, l, c', l', id);
    AckedPairs(c, l, c', l', id);
    AckedSettles(c, l, c', l', id);
    AckedOwes(c, l, c', l', id);
    AckedKeeps(c, l, c', l', id);
  }

  lemma AnsweredKept(c: Client, l: Ledger, c': Client, l': Ledger, id: nat)
    requires Inv(c, l) && Answered(c, l, c', l', id)
    ensures Inv(c', l')
  {
    KeysBelow(c, l);
    AnsweredNumbers(c, l, c', l', id);
    AnsweredKeys(c, l, c', l', id);
    AnsweredPairs(c, l, c', l', id);
    AnsweredSettles(c, l, c', l', id);
    AnsweredOwes(c, l, c', l', id);
    AnsweredKeeps(c, l, c', l', id);
  }

  // Nothing changes but for packets that carry no number of the client, or
  // were sent before.
  lemma ChatterKept(c: Client, l: Ledger, c': Client, l': Ledger, p: Packet)
    requires Inv(c, l) && (!Numbered(p) || p in l.sent)
    requires c'.counter == c.counter && c'.structs == c.structs && c'.messages == c.messages
    requires l' == l.(sent := l.sent + {p})
    ensures Inv(c', l')
  {
    if p in l.sent {
      assert l' == l;
      SameTables(c, l, c');
    } else {
      assert forall q :: Exists(c', l', q) <==> Exists(c, l, q);
      assert forall k :: k in c.messages ==> (KeyedAt(c', l', k) <==> KeyedAt(c, l, k));
      assert forall m :: m in l.open ==> (PairedAt(c', l', m) <==> PairedAt(c, l, m));
      assert forall r, k :: Holds(c', r, k) <==> Holds(c, r, k);
    }
  }

  lemma SameTables(c: Client, l: Ledger, c': Client)
    requires Inv(c, l)
    requires c'.counter == c.counter && c'.structs == c.structs && c'.messages == c.messages
    ensures Inv(c', l)
  {
    assert forall q :: Exists(c', l, q) <==> Exists(c, l, q);
    assert forall k :: k in c.messages ==> (KeyedAt(c', l, k) <==> KeyedAt(c, l, k));
    assert forall m :: m in l.open ==> (PairedAt(c', l, m) <==> PairedAt(c, l, m));
    assert forall r, k :: Holds(c', r, k) <==> Holds(c, r, k);
  }

  function Observed(c: Client, l: Ledger, e: Event): Ledger
    requires Step(c, e).sent.Some?
  {
    Observe(l, c.structs, e, Step(c, e).sent.value)
  }

  lemma SendMessageKept(c: Client, l: Ledger, e: Event)
    requires Inv(c, l) && e.SendMessage? && c.counter + 2 < USHORT
    ensures Step(c, e).sent.Some? && Inv(Step(c, e).client, Observed(c, l, e))
  {
    var c', l' := Step(c, e).client, Observed(c, l, e);
    var sent := Step(c, e).sent.value;
    assert (set p | p in sent) == {sent[0]};
    if TopicId(c, e.topic) == 0 {
      RegisteredKept(c, l, c', l', Publish(c.structs, c.counter + 1, 0, e.topic, e.qos, e.content));
    } else {
      PublishedKept(c, l, c', l', sent[0]);
    }
  }

  // An accepted registration sends the waiting publish with a new number.
  lemma RegackMoves(c: Client, l: Ledger, m: nat, topicId: nat)
    requires 1 < m < USHORT && c.counter + 1 < USHORT
    requires m in l.open && Holds(c, l.open[m], m - 1)
    requires l.open[m] in l.issued && l.issued[l.open[m]] == c.messages[m - 1].qos
    ensures var e := RxRegack(m, topicId, true);
      && Step(c, e).sent.Some? && |Step(c, e).sent.value| == 1
      && Moved(c, l, Step(c, e).client, Observed(c, l, e), m, Step(c, e).sent.value[0])
      && Step(c, e).sent.value[0].topicId == topicId
  {
    var sent := Step(c, RxRegack(m, topicId, true)).sent.value;
    assert (set p | p in sent) == {sent[0]};
  }

  lemma RegackRefuses(c: Client, l: Ledger, m: nat, topicId: nat)
    requires 1 < m < USHORT && m in l.open && Holds(c, l.open[m], m - 1)
    ensures var e := RxRegack(m, topicId, false);
      Step(c, e).sent.Some? && Refused(c, l, Step(c, e).client, Observed(c, l, e), m)
  {
  }

  lemma RegackIgnored(c: Client, l: Ledger, m: nat, topicId: nat, accepted: bool)
    requires 1 < m < USHORT && m !in l.open && m - 1 !in c.messages
    ensures var e := RxRegack(m, topicId, accepted);
      Step(c, e) == Effect(c, Some([])) && Observed(c, l, e) == l
  {
    assert (set p: Packet | p in []) == {};
  }

  lemma RegackOpenKept(c: Client, l: Ledger, m: nat, topicId: nat, accepted: bool)
    requires Inv(c, l) && m in l.open && 1 < m < USHORT && Holds(c, l.open[m], m - 1)
    requires accepted ==> c.counter + 1 < USHORT
    ensures var e := RxRegack(m, topicId, accepted);
      Step(c, e).sent.Some? && Inv(Step(c, e).client, Observed(c, l, e))
  {
    var e := RxRegack(m, topicId, accepted);
    if accepted {
      RegackMoves(c, l, m, topicId);
      MovedKept(c, l, Step(c, e).client, Observed(c, l, e), m, Step(c, e).sent.value[0]);
    } else {
      RegackRefuses(c, l, m, topicId);
      RefusedKept(c, l, Step(c, e).client, Observed(c, l, e), m);
    }
  }

  // The entry found for a REGACK is the publish behind that REGISTER, or there
  // is none when the REGISTER was answered before.
  lemma RegackFindsItsPublish(c: Client, l: Ledger, m: nat)
    requires Inv(c, l) && c.counter < USHORT
    requires exists p :: p in l.sent && p.Register? && p.msgId == m
    ensures 1 < m < USHORT
    ensures m - 1 in c.messages <==> m in l.open
    ensures m in l.open ==> Holds(c, l.open[m], m - 1) && Register(m, c.messages[m - 1].topicName) in l.sent
  {
    KeysBelow(c, l);
    if m in l.open {
      assert PairedAt(c, l, m);
    }
  }

  lemma RegackCounts(c: Client, ref: nat, m: nat, topicId: nat)
    requires 1 < m < USHORT && Holds(c, ref, m - 1)
    ensures Step(c, RxRegack(m, topicId, true)).client.counter == c.counter + 1
  {
  }

  lemma RegackKept(c: Client, l: Ledger, m: nat, topicId: nat, accepted: bool)
    requires Inv(c, l) && Answers(l, RxRegack(m, topicId, accepted)) && c.counter < USHORT
    requires Step(c, RxRegack(m, topicId, accepted)).client.counter < USHORT
    ensures var e := RxRegack(m, topicId, accepted);
      Step(c, e).sent.Some? && Inv(Step(c, e).client, Observed(c, l, e))
  {
    RegackFindsItsPublish(c, l, m);
    if m in l.open {
      if accepted {
        RegackCounts(c, l.open[m], m, topicId);
      }
      RegackOpenKept(c, l, m, topicId, accepted);
    } else {
      RegackIgnored(c, l, m, topicId, accepted);
    }
  }

  lemma RequestKept(c: Client, l: Ledger, e: Event)
    requires Inv(c, l) && (e.SendSubscribe? || e.SendUnsubscribe?) && c.counter + 1 < USHORT
    ensures Step(c, e).sent.Some? && Inv(Step(c, e).client, Observed(c, l, e))
  {
    var sent := Step(c, e).sent.value;
    assert (set p | p in sent) == {sent[0]};
    RequestedKept(c, l, Step(c, e).client, Observed(c, l, e), sent[0]);
  }

  // A sent packet and the map entry with its number are the same packet.
  lemma SentIsStored(c: Client, l: Ledger, p: Packet)
    requires NumbersUnique(c, l) && Keyed(c, l)
    requires p in l.sent && Numbered(p) && NumberOf(p) in c.messages
    ensures c.messages[NumberOf(p)] == p
  {
    var id := NumberOf(p);
    assert Exists(c, l, p);
    assert KeyedAt(c, l, id) && Exists(c, l, c.messages[id]);
  }

  lemma NothingSent()
    ensures (set p: Packet | p in []) == {}
  {
  }

  lemma PublishAckKept(c: Client, l: Ledger, e: Event)
    requires Inv(c, l) && (e.RxPuback? || e.RxPubcomp?) && Answers(l, e)
    ensures Step(c, e).sent == None <==> e.RxPubcomp? && e.messageId !in c.messages
    ensures Step(c, e).sent.Some? ==> Inv(Step(c, e).client, Observed(c, l, e))
  {
    var q :| q in l.sent && q.Publish? && q.messageId == e.messageId;
    if e.messageId in c.messages {
      SentIsStored(c, l, q);
    }
    if Step(c, e).sent.Some? {
      NothingSent();
      AckedKept(c, l, Step(c, e).client, Observed(c, l, e), e.messageId);
    }
  }

  lemma SubackKept(c: Client, l: Ledger, e: Event)
    requires Inv(c, l) && e.RxSuback? && Answers(l, e)
    ensures Step(c, e).sent == None <==>
      && e.accepted && e.messageId in c.messages
      && c.messages[e.messageId].Subscribe? && c.messages[e.messageId].topic.Known?
    ensures Step(c, e).sent.Some? ==> Inv(Step(c, e).client, Observed(c, l, e))
  {
    var q :| q in l.sent && q.Subscribe? && q.messageId == e.messageId;
    NothingSent();
    if e.messageId in c.messages {
      SentIsStored(c, l, q);
    }
    if e.messageId !in c.messages || !e.accepted {
      assert Step(c, e) == Effect(c, Some([])) && Observed(c, l, e) == l;
    } else if q.topic.Named? {
      AnsweredKept(c, l, Step(c, e).client, l, e.messageId);
      assert Observed(c, l, e) == l;
    }
  }

  lemma UnsubackKept(c: Client, l: Ledger, e: Event)
    requires Inv(c, l) && e.RxUnsuback? && Answers(l, e)
    ensures Step(c, e).sent == None <==> e.messageId !in c.messages
    ensures Step(c, e).sent.Some? ==> Inv(Step(c, e).client, Observed(c, l, e))
  {
    var q :| q in l.sent && q.Unsubscribe? && q.messageId == e.messageId;
    NothingSent();
    if e.messageId in c.messages {
      SentIsStored(c, l, q);
      AnsweredKept(c, l, Step(c, e).client, l, e.messageId);
      assert Observed(c, l, e) == l;
    }
  }

  lemma OtherKept(c: Client, l: Ledger, e: Event)
    requires Inv(c, l) && (e.Resend? || e.RxRegister? || e.RxPublish? || e.RxPubrec? || e.RxPubrel?)
    ensures Step(c, e).sent.Some? && Inv(Step(c, e).client, Observed(c, l, e))
  {
    var c', l', sent := Step(c, e).client, Observed(c, l, e), Step(c, e).sent.value;
    if sent == [] {
      NothingSent();
      assert l' == l;
      SameTables(c, l, c');
    } else {
      assert (set p | p in sent) == {sent[0]};
      if e.Resend? {
        assert KeyedAt(c, l, e.key);
      }
      ChatterKept(c, l, c', l', sent[0]);
    }
  }
}
