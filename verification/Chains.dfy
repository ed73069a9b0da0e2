// The chains of src/map/map.c as mathematical values: sequences of nodes.
// A node's key and hash never change after map_newnode, so what is said here
// about chains does not depend on the heap.
module Chains {
  import opened Bits

  // map_hash: the xor variant of djb2 in 32-bit unsigned arithmetic.
  function HashStep(hash: nat, c: char): nat {
    Xor((hash * 33) % TWO_TO_THE_32, c as nat)
  }

  function HashFrom(hash: nat, key: string): nat
    decreases |key|
  {
    if key == [] then hash else HashFrom(HashStep(hash, key[0]), key[1..])
  }

  function Hash(key: string): nat {
    HashFrom(5381, key)
  }

  // The hash fits the unsigned int it is computed in.
  lemma HashFits(key: string)
    ensures Hash(key) < TWO_TO_THE_32
  {
    HashFromFits(5381, key);
  }

  lemma {:induction false} HashFromFits(hash: nat, key: string)
    requires hash < TWO_TO_THE_32
    ensures HashFrom(hash, key) < TWO_TO_THE_32
    decreases |key|
  {
    if key != [] {
      WordIsPower();
      XorBelow((hash * 33) % TWO_TO_THE_32, key[0] as nat, TWO_TO_THE_32);
      HashFromFits(HashStep(hash, key[0]), key[1..]);
    }
  }

  // map_bucketidx
  function Slot(hash: nat, nbuckets: nat): (b: nat)
    requires nbuckets > 0
    ensures b < nbuckets
  {
    And(hash, nbuckets - 1)
  }

  class Node<V> {
    const key: string
    const hash: nat
    var value: V
    var next: Node?<V>

    constructor (key: string, value: V)
      ensures this.key == key && this.hash == Hash(key) && this.value == value && this.next == null
    {
      this.key, this.hash, this.value, this.next := key, Hash(key), value, null;
    }
  }

  type Chain<V> = seq<Node<V>>

  ghost function Members<V>(c: Chain<V>): set<Node<V>> {
    set n | n in c
  }

  // The next pointers run through exactly the nodes of c.
  ghost predicate Chained<V>(c: Chain<V>)
    reads c
  {
    forall i {:trigger c[i].next} :: 0 <= i < |c| ==> c[i].next == if i + 1 < |c| then c[i + 1] else null
  }

  ghost predicate Linked<V>(c: Chain<V>, head: Node?<V>)
    reads c
  {
    head == (if c == [] then null else c[0]) && Chained(c)
  }

  twostate lemma StaysChained<V>(c: Chain<V>)
    requires old(Chained(c)) && forall n :: n in Members(c) ==> n.next == old(n.next)
    ensures Chained(c)
  {
    forall i | 0 <= i < |c|
      ensures c[i].next == old(c[i].next)
    {
      assert c[i] in Members(c);
    }
  }

  ghost predicate HasKey<V>(c: Chain<V>, key: string) {
    exists i :: 0 <= i < |c| && c[i].key == key
  }

  ghost predicate DistinctKeys<V>(c: Chain<V>) {
    forall i, j :: 0 <= i < j < |c| ==> c[i].key != c[j].key
  }

  ghost predicate InSlot<V>(n: Node<V>, nbuckets: nat, b: nat)
    requires nbuckets > 0
  {
    n.hash == Hash(n.key) && Slot(n.hash, nbuckets) == b
  }

  // Every node is in the bucket its hash selects.
  ghost predicate Placed<V>(chains: seq<Chain<V>>) {
    forall b, i :: 0 <= b < |chains| && 0 <= i < |chains[b]| ==> InSlot(chains[b][i], |chains|, b)
  }

  ghost predicate Unique<V>(chains: seq<Chain<V>>) {
    forall b :: 0 <= b < |chains| ==> DistinctKeys(chains[b])
  }

  ghost function All<V>(chains: seq<Chain<V>>): Chain<V> {
    if chains == [] then [] else chains[0] + All(chains[1..])
  }

  ghost function Total<V>(chains: seq<Chain<V>>): nat {
    if chains == [] then 0 else |chains[0]| + Total(chains[1..])
  }

  lemma {:induction false} TotalUpdate<V>(chains: seq<Chain<V>>, b: nat, c: Chain<V>)
    requires b < |chains|
    ensures Total(chains[b := c]) == Total(chains) - |chains[b]| + |c|
  {
    if b == 0 {
      assert chains[b := c][1..] == chains[1..];
    } else {
      assert chains[b := c][1..] == chains[1..][b - 1 := c];
      TotalUpdate(chains[1..], b - 1, c);
    }
  }

  // ----- map_addnode and the two halves of map_resize -----

  ghost function Added<V>(chains: seq<Chain<V>>, n: Node<V>): (r: seq<Chain<V>>)
    requires chains != []
    ensures |r| == |chains|
  {
    var b := Slot(n.hash, |chains|);
    chains[b := [n] + chains[b]]
  }

  ghost function Reverse<V>(c: Chain<V>): (r: Chain<V>)
    ensures |r| == |c|
  {
    if c == [] then [] else Reverse(c[1..]) + [c[0]]
  }

  // "Chain all nodes together": each node is pushed in front, buckets taken
  // from the last to the first.
  ghost function Strung<V>(chains: seq<Chain<V>>): Chain<V> {
    if chains == [] then [] else Reverse(chains[0]) + Strung(chains[1..])
  }

  // "Re-add nodes to buckets", in the order of the list.
  ghost function Rebuilt<V>(list: Chain<V>, nbuckets: nat): (r: seq<Chain<V>>)
    requires nbuckets > 0
    ensures |r| == nbuckets
  {
    if list == [] then seq(nbuckets, _ => [])
    else Added(Rebuilt(list[..|list| - 1], nbuckets), list[|list| - 1])
  }

  lemma LinkedTail<V>(c: Chain<V>, head: Node<V>)
    requires Linked(c, head)
    ensures Linked(c[1..], head.next)
  {
    forall i {:trigger c[1..][i].next} | 0 <= i < |c[1..]|
      ensures c[1..][i].next == if i + 1 < |c[1..]| then c[1..][i + 1] else null
    {
      assert c[1..][i] == c[i + 1];
      assert c[i + 1].next == if i + 2 < |c| then c[i + 2] else null;
    }
  }

  lemma LinkedCons<V>(n: Node<V>, c: Chain<V>)
    requires Linked(c, n.next)
    ensures Linked([n] + c, n)
  {
    var d := [n] + c;
    forall i {:trigger d[i].next} | 0 <= i < |d|
      ensures d[i].next == if i + 1 < |d| then d[i + 1] else null
    {
      if i > 0 {
        assert d[i] == c[i - 1];
      }
    }
  }

  lemma AllContains<V>(chains: seq<Chain<V>>, b: nat)
    requires b < |chains|
    ensures Members(chains[b]) <= Members(All(chains))
  {
    forall x | x in chains[b]
      ensures x in All(chains)
    {
      InAll(chains, x);
    }
  }

  lemma {:induction false} ReverseSameNodes<V>(c: Chain<V>)
    ensures multiset(Reverse(c)) == multiset(c)
  {
    if c != [] {
      assert c == [c[0]] + c[1..];
      ReverseSameNodes(c[1..]);
    }
  }

  lemma {:induction false} StrungSameNodes<V>(chains: seq<Chain<V>>)
    ensures multiset(Strung(chains)) == multiset(All(chains))
  {
    if chains != [] {
      ReverseSameNodes(chains[0]);
      StrungSameNodes(chains[1..]);
    }
  }

  lemma {:induction false} AllUpdate<V>(chains: seq<Chain<V>>, b: nat, n: Node<V>)
    requires b < |chains|
    ensures multiset(All(chains[b := [n] + chains[b]])) == multiset(All(chains)) + multiset{n}
  {
    var u := chains[b := [n] + chains[b]];
    if b == 0 {
      assert u[1..] == chains[1..];
    } else {
      assert u[1..] == chains[1..][b - 1 := [n] + chains[1..][b - 1]];
      AllUpdate(chains[1..], b - 1, n);
    }
  }

  lemma {:induction false} EmptyAll<V>(chains: seq<Chain<V>>)
    requires forall b :: 0 <= b < |chains| ==> chains[b] == []
    ensures All(chains) == [] && Total(chains) == 0
  {
    if chains != [] {
      EmptyAll(chains[1..]);
    }
  }

  lemma {:induction false} RebuiltSameNodes<V>(list: Chain<V>, nbuckets: nat)
    requires nbuckets > 0
    ensures multiset(All(Rebuilt(list, nbuckets))) == multiset(list)
  {
    if list == [] {
      EmptyAll(Rebuilt(list, nbuckets));
    } else {
      var front, last := list[..|list| - 1], list[|list| - 1];
      RebuiltSameNodes(front, nbuckets);
      assert list == front + [last];
      AllUpdate(Rebuilt(front, nbuckets), Slot(last.hash, nbuckets), last);
    }
  }

  // A resize neither loses nor duplicates a node.
  lemma ResizeSameNodes<V>(chains: seq<Chain<V>>, nbuckets: nat)
    requires nbuckets > 0
    ensures multiset(All(Rebuilt(Strung(chains), nbuckets))) == multiset(All(chains))
  {
    StrungSameNodes(chains);
    RebuiltSameNodes(Strung(chains), nbuckets);
  }

  lemma {:induction false} TotalIsLength<V>(chains: seq<Chain<V>>)
    ensures Total(chains) == |All(chains)|
  {
    if chains != [] {
      TotalIsLength(chains[1..]);
    }
  }

  lemma ResizeSameTotal<V>(chains: seq<Chain<V>>, nbuckets: nat)
    requires nbuckets > 0
    ensures Total(Rebuilt(Strung(chains), nbuckets)) == Total(chains)
  {
    var after := Rebuilt(Strung(chains), nbuckets);
    ResizeSameNodes(chains, nbuckets);
    TotalIsLength(chains);
    TotalIsLength(after);
    assert |multiset(All(after))| == |All(after)|;
    assert |multiset(All(chains))| == |All(chains)|;
  }

  lemma {:induction false} InAll<V>(chains: seq<Chain<V>>, n: Node<V>)
    ensures n in All(chains) <==> exists b :: 0 <= b < |chains| && n in chains[b]
  {
    if chains != [] {
      InAll(chains[1..], n);
      if n in All(chains[1..]) {
        var b :| 0 <= b < |chains[1..]| && n in chains[1..][b];
        assert n in chains[b + 1];
      }
      if b :| 0 <= b < |chains| && n in chains[b] {
        if b > 0 {
          assert n in chains[1..][b - 1];
        }
      }
    }
  }

  lemma HashesOf<V>(chains: seq<Chain<V>>, b: nat)
    requires Placed(chains) && b < |chains|
    ensures forall i :: 0 <= i < |chains[b]| ==> chains[b][i].hash == Hash(chains[b][i].key)
  {
    forall i | 0 <= i < |chains[b]|
      ensures chains[b][i].hash == Hash(chains[b][i].key)
    {
      assert InSlot(chains[b][i], |chains|, b);
    }
  }

  lemma SlotOfMember<V>(chains: seq<Chain<V>>, b: nat, x: Node<V>)
    requires Placed(chains) && b < |chains| && x in chains[b]
    ensures InSlot(x, |chains|, b)
  {
    var i :| 0 <= i < |chains[b]| && chains[b][i] == x;
    assert InSlot(chains[b][i], |chains|, b);
  }

  // Nodes of different buckets are different nodes.
  lemma BucketsDisjoint<V>(chains: seq<Chain<V>>, b: nat, c: nat)
    requires Placed(chains) && b < |chains| && c < |chains| && b != c
    ensures Members(chains[b]) !! Members(chains[c])
  {
    forall x | x in chains[b]
      ensures x !in chains[c]
    {
      SlotOfMember(chains, b, x);
      if x in chains[c] {
        SlotOfMember(chains, c, x);
      }
    }
  }

  lemma StrungDisjoint<V>(chains: seq<Chain<V>>, i: nat)
    requires Placed(chains) && i < |chains|
    ensures Members(chains[i]) !! Members(Strung(chains[i + 1..]))
  {
    var rest := chains[i + 1..];
    StrungSameNodes(rest);
    SameMembers(Strung(rest), All(rest));
    forall x | x in chains[i]
      ensures x !in All(rest)
    {
      InAll(rest, x);
      forall b | 0 <= b < |rest|
        ensures x !in rest[b]
      {
        BucketsDisjoint(chains, i, i + 1 + b);
        assert x in Members(chains[i]);
      }
    }
  }

  lemma {:induction false} AllDistinct<V>(chains: seq<Chain<V>>, lo: nat, nbuckets: nat)
    requires nbuckets > 0
    requires forall b, i :: 0 <= b < |chains| && 0 <= i < |chains[b]| ==> InSlot(chains[b][i], nbuckets, lo + b)
    requires Unique(chains)
    ensures DistinctKeys(All(chains))
  {
    if chains != [] {
      var rest := chains[1..];
      AllDistinct(rest, lo + 1, nbuckets);
      forall i, j | 0 <= i < |chains[0]| && 0 <= j < |All(rest)|
        ensures chains[0][i].key != All(rest)[j].key
      {
        InAll(rest, All(rest)[j]);
        var b :| 0 <= b < |rest| && All(rest)[j] in rest[b];
        var k :| 0 <= k < |rest[b]| && rest[b][k] == All(rest)[j];
        assert InSlot(chains[0][i], nbuckets, lo);
        assert InSlot(rest[b][k], nbuckets, lo + 1 + b);
      }
    }
  }

  // The same nodes with distinct keys, in another order.
  lemma DistinctPermutation<V>(a: Chain<V>, b: Chain<V>)
    requires multiset(a) == multiset(b) && DistinctKeys(a)
    ensures DistinctKeys(b)
  {
    forall i, j | 0 <= i < j < |b|
      ensures b[i].key != b[j].key
    {
      if b[i].key == b[j].key {
        assert b[i] in multiset(b) && b[j] in multiset(b);
        assert b[i] in a && b[j] in a;
        assert b[i] == b[j];
        TwiceInSeq(b, i, j);
        OnceInDistinct(a, b[i]);
      }
    }
  }

  lemma TwiceInSeq<T>(s: seq<T>, i: nat, j: nat)
    requires i < j < |s| && s[i] == s[j]
    ensures multiset(s)[s[i]] >= 2
  {
    assert s == s[..i] + [s[i]] + s[i + 1..j] + [s[j]] + s[j + 1..];
  }

  lemma {:induction false} OnceInDistinct<V>(c: Chain<V>, n: Node<V>)
    requires DistinctKeys(c)
    ensures multiset(c)[n] <= 1
  {
    if c != [] {
      assert c == [c[0]] + c[1..];
      OnceInDistinct(c[1..], n);
    }
  }

  // Re-adding a list of nodes puts every node where its hash says.
  lemma {:induction false} RebuiltPlaced<V>(list: Chain<V>, nbuckets: nat)
    requires nbuckets > 0
    requires DistinctKeys(list)
    requires forall i :: 0 <= i < |list| ==> list[i].hash == Hash(list[i].key)
    ensures Placed(Rebuilt(list, nbuckets))
    ensures Unique(Rebuilt(list, nbuckets))
    ensures forall b, i :: 0 <= b < nbuckets && 0 <= i < |Rebuilt(list, nbuckets)[b]| ==>
      Rebuilt(list, nbuckets)[b][i] in list
    ensures forall i :: 0 <= i < |list| ==> list[i] in Rebuilt(list, nbuckets)[Slot(list[i].hash, nbuckets)]
  {
    if list != [] {
      var front, last := list[..|list| - 1], list[|list| - 1];
      RebuiltPlaced(front, nbuckets);
      var before, after := Rebuilt(front, nbuckets), Rebuilt(list, nbuckets);
      var s := Slot(last.hash, nbuckets);
      forall b, i | 0 <= b < nbuckets && 0 <= i < |after[b]|
        ensures InSlot(after[b][i], nbuckets, b) && after[b][i] in list
      {
        if b != s {
          assert after[b][i] == before[b][i];
        } else if i > 0 {
          assert after[b][i] == before[b][i - 1];
        }
      }
      forall b | 0 <= b < nbuckets
        ensures DistinctKeys(after[b])
      {
        if b == s {
          forall j | 0 <= j < |before[b]|
            ensures before[b][j].key != last.key
          {
            assert before[b][j] in front;
          }
        }
      }
      forall i | 0 <= i < |list|
        ensures list[i] in after[Slot(list[i].hash, nbuckets)]
      {
        if i < |front| {
          assert list[i] == front[i];
        }
      }
    }
  }

  lemma SameMembers<V>(a: Chain<V>, b: Chain<V>)
    requires multiset(a) == multiset(b)
    ensures Members(a) == Members(b)
  {
    assert forall x :: x in a <==> x in multiset(a);
    assert forall x :: x in b <==> x in multiset(b);
  }

  // A node found anywhere sits in the bucket of its hash.
  lemma InOwnBucket<V>(chains: seq<Chain<V>>, n: Node<V>)
    requires Placed(chains) && n in All(chains)
    ensures chains != [] && n in chains[Slot(Hash(n.key), |chains|)]
  {
    InAll(chains, n);
    var b :| 0 <= b < |chains| && n in chains[b];
    var i :| 0 <= i < |chains[b]| && chains[b][i] == n;
    assert InSlot(chains[b][i], |chains|, b);
  }

  // What map_resize does to the chains, all in one place.
  lemma ResizeKeepsShape<V>(chains: seq<Chain<V>>, nbuckets: nat)
    requires nbuckets > 0 && Placed(chains) && Unique(chains)
    ensures DistinctKeys(Strung(chains)) && Members(Strung(chains)) == Members(All(chains))
    ensures forall i :: 0 <= i < |Strung(chains)| ==> Strung(chains)[i].hash == Hash(Strung(chains)[i].key)
    ensures var after := Rebuilt(Strung(chains), nbuckets);
      && Placed(after) && Unique(after)
      && Total(after) == Total(chains)
      && Members(All(after)) == Members(All(chains))
  {
    var list := Strung(chains);
    if chains != [] {
      AllDistinct(chains, 0, |chains|);
    }
    StrungSameNodes(chains);
    SameMembers(list, All(chains));
    DistinctPermutation(All(chains), list);
    forall i | 0 <= i < |list|
      ensures list[i].hash == Hash(list[i].key)
    {
      assert list[i] in Members(list);
      InAll(chains, list[i]);
      var b :| 0 <= b < |chains| && list[i] in chains[b];
      HashesOf(chains, b);
    }
    RebuiltPlaced(list, nbuckets);
    ResizeSameNodes(chains, nbuckets);
    SameMembers(All(Rebuilt(list, nbuckets)), All(chains));
    ResizeSameTotal(chains, nbuckets);
  }

  // The next node of the list is not yet in a bucket.
  lemma NotYetAdded<V>(list: Chain<V>, k: nat, nbuckets: nat)
    requires nbuckets > 0 && k < |list| && DistinctKeys(list)
    requires forall i :: 0 <= i < |list| ==> list[i].hash == Hash(list[i].key)
    ensures Placed(Rebuilt(list[..k], nbuckets))
    ensures forall b :: 0 <= b < nbuckets ==> list[k] !in Rebuilt(list[..k], nbuckets)[b]
    ensures Rebuilt(list[..k + 1], nbuckets) == Added(Rebuilt(list[..k], nbuckets), list[k])
    ensures list[k] !in Members(list[k + 1..])
  {
    RebuiltPlaced(list[..k], nbuckets);
    assert list[..k + 1][..k] == list[..k];
    forall j | 0 <= j < |list| && j != k
      ensures list[j] != list[k]
    {
      assert list[j].key != list[k].key;
    }
  }

  lemma MembersPlus<V>(a: Chain<V>, b: Chain<V>, n: Node<V>)
    requires multiset(a) == multiset(b) + multiset{n}
    ensures Members(a) == Members(b) + {n}
  {
    assert forall x :: x in a <==> x in multiset(a);
    assert forall x :: x in b <==> x in multiset(b);
  }

  // ----- Unlinking -----

  ghost function Without<V>(c: Chain<V>, i: nat): Chain<V>
    requires i < |c|
  {
    c[..i] + c[i + 1..]
  }

  ghost function Removed<V>(chains: seq<Chain<V>>, b: nat, i: nat): seq<Chain<V>>
    requires b < |chains| && i < |chains[b]|
  {
    chains[b := Without(chains[b], i)]
  }

  lemma RemovedKeepsShape<V>(chains: seq<Chain<V>>, b: nat, i: nat)
    requires Placed(chains) && Unique(chains)
    requires b < |chains| && i < |chains[b]|
    ensures Placed(Removed(chains, b, i)) && Unique(Removed(chains, b, i))
    ensures Total(Removed(chains, b, i)) == Total(chains) - 1
    ensures Members(All(Removed(chains, b, i))) == Members(All(chains)) - {chains[b][i]}
  {
    var c, d, n := chains[b], Without(chains[b], i), chains[b][i];
    var after := Removed(chains, b, i);
    TotalUpdate(chains, b, d);
    forall j | 0 <= j < |d|
      ensures InSlot(d[j], |chains|, b) && d[j] != n && d[j] in c
    {
      var k := if j < i then j else j + 1;
      assert d[j] == c[k] && InSlot(c[k], |chains|, b) && c[k].key != c[i].key;
    }
    assert DistinctKeys(d) by {
      forall j, k | 0 <= j < k < |d|
        ensures d[j].key != d[k].key
      {
        assert d[j] == c[if j < i then j else j + 1] && d[k] == c[if k < i then k else k + 1];
      }
    }
    RemovedMembers(chains, b, i);
  }

  lemma RemovedMembers<V>(chains: seq<Chain<V>>, b: nat, i: nat)
    requires Placed(chains) && Unique(chains)
    requires b < |chains| && i < |chains[b]|
    ensures Members(All(Removed(chains, b, i))) == Members(All(chains)) - {chains[b][i]}
  {
    var after := Removed(chains, b, i);
    forall x | x in All(after)
      ensures x in All(chains) && x != chains[b][i]
    {
      InAll(after, x);
      InAll(chains, x);
      RemovedFromOne(chains, b, i, x);
    }
    forall x | x in All(chains) && x != chains[b][i]
      ensures x in All(after)
    {
      InAll(after, x);
      InAll(chains, x);
      RemovedFromOne(chains, b, i, x);
    }
  }

  lemma RemovedFromOne<V>(chains: seq<Chain<V>>, b: nat, i: nat, x: Node<V>)
    requires Placed(chains) && Unique(chains)
    requires b < |chains| && i < |chains[b]|
    ensures (exists e :: 0 <= e < |chains| && x in Removed(chains, b, i)[e])
      <==> x != chains[b][i] && exists e :: 0 <= e < |chains| && x in chains[e]
  {
    var c, d, after := chains[b], Without(chains[b], i), Removed(chains, b, i);
    assert c == c[..i] + [c[i]] + c[i + 1..];
    assert forall j :: 0 <= j < |c| && j != i ==> c[j] != c[i];
    assert x in d <==> x in c && x != c[i];
    if e :| 0 <= e < |chains| && x in after[e] {
      if e != b {
        BucketsDisjoint(chains, e, b);
        assert x in Members(chains[e]) && c[i] in Members(c);
      }
      assert x in chains[e];
    }
    if x != c[i] {
      if e :| 0 <= e < |chains| && x in chains[e] {
        assert x in after[e];
      }
    }
  }

  lemma AddedKeepsShape<V>(chains: seq<Chain<V>>, n: Node<V>)
    requires chains != [] && Placed(chains) && Unique(chains)
    requires n.hash == Hash(n.key) && !HasKey(chains[Slot(n.hash, |chains|)], n.key)
    ensures Placed(Added(chains, n)) && Unique(Added(chains, n))
    ensures Total(Added(chains, n)) == Total(chains) + 1
    ensures Members(All(Added(chains, n))) == Members(All(chains)) + {n}
  {
    var s := Slot(n.hash, |chains|);
    AllUpdate(chains, s, n);
    MembersPlus(All(Added(chains, n)), All(chains), n);
    TotalUpdate(chains, s, [n] + chains[s]);
    WithNewFirst(chains, s, n);
    ReplacedKeepsShape(chains, s, [n] + chains[s]);
  }

  lemma WithNewFirst<V>(chains: seq<Chain<V>>, s: nat, n: Node<V>)
    requires Placed(chains) && Unique(chains) && s < |chains|
    requires InSlot(n, |chains|, s) && !HasKey(chains[s], n.key)
    ensures DistinctKeys([n] + chains[s])
    ensures forall i :: 0 <= i < 1 + |chains[s]| ==> InSlot(([n] + chains[s])[i], |chains|, s)
  {
    var c := [n] + chains[s];
    assert forall i :: 0 < i < |c| ==> c[i] == chains[s][i - 1];
    assert forall j :: 0 <= j < |chains[s]| ==> chains[s][j].key != n.key;
  }

  lemma ReplacedKeepsShape<V>(chains: seq<Chain<V>>, s: nat, c: Chain<V>)
    requires Placed(chains) && Unique(chains) && s < |chains|
    requires DistinctKeys(c) && forall i :: 0 <= i < |c| ==> InSlot(c[i], |chains|, s)
    ensures Placed(chains[s := c]) && Unique(chains[s := c])
  {
  }

  // ----- Scanning -----

  // The nodes a scan has still to visit after the at-th node of bucket b.
  ghost function After<V>(chains: seq<Chain<V>>, b: nat, at: nat): Chain<V>
    requires b < |chains| && at < |chains[b]|
  {
    chains[b][at + 1..] + All(chains[b + 1..])
  }

  lemma {:induction false} SkipEmpty<V>(chains: seq<Chain<V>>, lo: nat, hi: nat)
    requires lo <= hi <= |chains|
    requires forall b :: lo <= b < hi ==> chains[b] == []
    ensures All(chains[lo..]) == All(chains[hi..])
    decreases hi - lo
  {
    if lo < hi {
      assert chains[lo..][1..] == chains[lo + 1..];
      SkipEmpty(chains, lo + 1, hi);
    }
  }

  lemma FirstOfBucket<V>(chains: seq<Chain<V>>, b: nat)
    requires b < |chains| && chains[b] != []
    ensures All(chains[b..]) == [chains[b][0]] + After(chains, b, 0)
  {
    assert chains[b..][1..] == chains[b + 1..];
    assert chains[b] == [chains[b][0]] + chains[b][1..];
  }

  lemma NextInBucket<V>(chains: seq<Chain<V>>, b: nat, at: nat)
    requires b < |chains| && at < |chains[b]|
    ensures if at + 1 < |chains[b]|
      then After(chains, b, at) == [chains[b][at + 1]] + After(chains, b, at + 1)
      else After(chains, b, at) == All(chains[b + 1..])
  {
    if at + 1 < |chains[b]| {
      assert chains[b][at + 1..] == [chains[b][at + 1]] + chains[b][at + 2..];
    }
  }
}
