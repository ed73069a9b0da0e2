// The id-keyed maps of src/mqttsn/mqtt_sn_timers.c and src/amqp/amqp_timers.c:
// an unsigned short printed with "%d" is the key of a hash table. Callers cut
// their ids to an unsigned short.
module TimerMaps {
  import opened HashMap
  import opened Bits
  import opened Wrappers

  // sprintf("%d") of a number that is not negative.
  function Decimal(n: nat): (s: string)
    ensures s != [] && (|s| == 1 <==> n < 10)
  {
    var digit := ['0' + (n % 10) as char];
    if n < 10 then digit else Decimal(n / 10) + digit
  }

  // Two ids never share a key.
  lemma {:induction false} DecimalInjective(m: nat, n: nat)
    requires Decimal(m) == Decimal(n)
    ensures m == n
  {
    var s := Decimal(m);
    var digit := s[|s| - 1];
    assert digit == '0' + (m % 10) as char && digit == '0' + (n % 10) as char;
    if m >= 10 {
      assert Decimal(m / 10) == s[..|s| - 1] == Decimal(n / 10);
      DecimalInjective(m / 10, n / 10);
    }
  }

  // The map from ids that a table with decimal keys stands for.
  ghost function ById<V>(contents: map<string, V>): map<nat, V> {
    map id: nat | id < USHORT && Decimal(id) in contents :: contents[Decimal(id)]
  }

  lemma ByIdEmpty<V>()
    ensures ById<V>(map[]) == map[]
  {
  }

  lemma ByIdUpdate<V>(contents: map<string, V>, id: nat, value: V)
    requires id < USHORT
    ensures ById(contents[Decimal(id) := value]) == ById(contents)[id := value]
  {
    forall other: nat | Decimal(other) == Decimal(id)
      ensures other == id
    {
      DecimalInjective(other, id);
    }
  }

  // sn_add_message_in_map, amqp_add_message_in_map_by_handler and their like.
  method AddById<V>(m: Table<V>, id: nat, value: V)
    requires m.Valid() && id < USHORT
    modifies m.Repr
    ensures m.Valid() && fresh(m.Repr - old(m.Repr))
    ensures ById(m.contents) == old(ById(m.contents))[id := value]
  {
    ByIdUpdate(m.contents, id, value);
    var rc := m.Set(Decimal(id), value, true, true);
  }

  // sn_get_message_from_map and its like: a scan that compares keys.
  method GetById<V>(m: Table<V>, id: nat) returns (r: Option<V>)
    requires m.Valid() && id < USHORT
    ensures r == if id in ById(m.contents) then Some(ById(m.contents)[id]) else None
  {
    r := ScanLookup(m, Decimal(id));
  }

  ghost function Less<V>(m: map<nat, V>, id: nat): map<nat, V> {
    m - {id}
  }

  // sn_remove_message_from_map and its like.
  method RemoveById<V>(m: Table<V>, id: nat)
    requires m.Valid() && id < USHORT
    modifies m.Repr
    ensures m.Valid() && m.Repr == old(m.Repr)
    ensures ById(m.contents) == Less(old(ById(m.contents)), id)
  {
    ByIdRemove(m.contents, id);
    m.Remove(Decimal(id));
  }

  lemma ByIdRemove<V>(contents: map<string, V>, id: nat)
    requires id < USHORT
    ensures ById(contents - {Decimal(id)}) == ById(contents) - {id}
  {
    KeyOfOne(id);
    RemoveKey(contents, Decimal(id), id);
  }

  ghost predicate IsKeyOf(key: string, id: nat) {
    forall other: nat :: Decimal(other) == key <==> other == id
  }

  lemma KeyOfOne(id: nat)
    ensures IsKeyOf(Decimal(id), id)
  {
    forall other: nat | Decimal(other) == Decimal(id) ensures other == id {
      DecimalInjective(other, id);
    }
  }

  lemma RemoveKey<V>(contents: map<string, V>, key: string, id: nat)
    requires IsKeyOf(key, id)
    ensures ById(contents - {key}) == ById(contents) - {id}
  {
    var left, right := ById(contents - {key}), ById(contents) - {id};
    forall other: nat ensures other in left <==> other in right {
    }
    assert left.Keys == right.Keys;
  }
}
