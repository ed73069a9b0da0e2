// src/map/map.c: the chained hash table under every protocol client.
module HashMap {
  import opened Bits
  import opened Chains
  import opened Wrappers

  class Table<V> {
    var buckets: array<Node?<V>>
    var nbuckets: nat
    var nnodes: nat

    ghost var chains: seq<Chain<V>>     // the nodes hanging from each bucket
    ghost var stored: set<Node<V>>      // all of them
    ghost var contents: map<string, V>  // the finite map the table stands for
    ghost var Repr: set<object>

    // The pointers agree with the ghost chains.
    ghost predicate WellLinked()
      reads `buckets, `nbuckets, `chains, `Repr, Repr - {this}
    {
      && this in Repr && buckets in Repr
      && buckets.Length == nbuckets == |chains|
      && (forall b, i :: 0 <= b < |chains| && 0 <= i < |chains[b]| ==> chains[b][i] in Repr)
      && forall b :: 0 <= b < nbuckets ==> Linked(chains[b], buckets[b])
    }

    // Every node is in the bucket of its hash, and no key occurs twice.
    ghost predicate Shaped()
      reads `chains, `stored
    {
      Placed(chains) && Unique(chains) && stored == Members(All(chains))
    }

    // The stored pairs are those of contents.
    ghost predicate Holds()
      reads `stored, `contents, `Repr, Repr - {this}
    {
      && (forall n :: n in stored ==> n in Repr)
      && (forall n :: n in stored ==> n.key in contents && contents[n.key] == n.value)
      && forall k :: k in contents ==> exists n :: n in stored && n.key == k
    }

    ghost predicate Valid()
      reads this, Repr
      ensures Valid() ==> this in Repr
    {
      && WellLinked()
      && Shaped()
      && Holds()
      && nnodes == Total(chains) == |contents|
      && nnodes <= nbuckets
      && (nbuckets == 0 || IsPowerOfTwo(nbuckets))
    }

    // map_init
    constructor ()
      ensures Valid() && fresh(Repr) && contents == map[] && nbuckets == 0
    {
      buckets := new Node?<V>[0];
      nbuckets, nnodes := 0, 0;
      chains, stored, contents := [], {}, map[];
      new;
      Repr := {this, buckets};
    }

    lemma ContainsKey(key: string)
      requires Valid()
      ensures key in contents <==> nbuckets > 0 && HasKey(chains[Slot(Hash(key), nbuckets)], key)
    {
      if key in contents {
        var n :| n in stored && n.key == key;
        InOwnBucket(chains, n);
      }
      if nbuckets > 0 && HasKey(chains[Slot(Hash(key), nbuckets)], key) {
        var b := Slot(Hash(key), nbuckets);
        var i :| 0 <= i < |chains[b]| && chains[b][i].key == key;
        InAll(chains, chains[b][i]);
        assert chains[b][i] in stored;
      }
    }

    // map_getref: the slot of the node with this key. The C code returns the
    // address of the pointer to the node; here prev is the node that holds
    // that pointer, or null when it is the bucket itself.
    method GetRef(key: string) returns (prev: Node?<V>, node: Node?<V>, ghost b: nat, ghost i: nat)
      requires Valid()
      ensures node == null <==> key !in contents
      ensures node != null ==>
        && b < nbuckets && b == Slot(Hash(key), nbuckets)
        && i < |chains[b]| && chains[b][i] == node && node.key == key
        && prev == if i == 0 then null else chains[b][i - 1]
    {
      prev, node, b, i := null, null, 0, 0;
      ContainsKey(key);
      if nbuckets > 0 {
        b := Slot(Hash(key), nbuckets);
        HashesOf(chains, b);
        prev, node, i := Walk(buckets[Slot(Hash(key), nbuckets)], key, chains[b]);
      }
    }

    // The loop of map_getref along one chain.
    static method Walk(head: Node?<V>, key: string, ghost c: Chain<V>)
      returns (prev: Node?<V>, node: Node?<V>, ghost i: nat)
      requires Linked(c, head)
      requires forall j :: 0 <= j < |c| ==> c[j].hash == Hash(c[j].key)
      ensures i <= |c| && node == (if i < |c| then c[i] else null)
      ensures prev == if i == 0 then null else c[i - 1]
      ensures if i < |c| then c[i].key == key else !HasKey(c, key)
    {
      var hash := Hash(key);
      prev, node, i := null, head, 0;
      while node != null
        invariant i <= |c|
        invariant node == if i < |c| then c[i] else null
        invariant prev == if i == 0 then null else c[i - 1]
        invariant forall j :: 0 <= j < i ==> c[j].key != key
        decreases |c| - i
      {
        if node.hash == hash && node.key == key {
          return;
        }
        assert c[i].next == if i + 1 < |c| then c[i + 1] else null;
        prev, node := node, node.next;
        i := i + 1;
      }
    }

    // map_get_
    method Get(key: string) returns (r: Option<V>)
      requires Valid()
      ensures r == if key in contents then Some(contents[key]) else None
    {
      var prev, node, b, i := GetRef(key);
      if node != null {
        InAll(chains, node);
        assert node in stored;
      }
      r := if node != null then Some(node.value) else None;
    }

    // map_addnode
    method AddNode(node: Node<V>)
      requires WellLinked() && nbuckets > 0 && node in Repr
      requires forall b :: 0 <= b < |chains| ==> node !in chains[b]
      requires Placed(chains) && node.hash == Hash(node.key)
      modifies `chains, buckets, node`next
      ensures WellLinked() && chains == Added(old(chains), node)
    {
      var n := Slot(node.hash, nbuckets);
      node.next := buckets[n];
      buckets[n] := node;
      ghost var before := chains;
      chains := Added(chains, node);
      forall b | 0 <= b < nbuckets
        ensures Linked(chains[b], buckets[b])
      {
        assert old(Linked(before[b], buckets[b]));
        assert forall j :: 0 <= j < |before[b]| ==> before[b][j] != node;
        if b == n {
          assert chains[b] == [node] + before[b];
        }
      }
    }

    // First half of map_resize: all nodes in one list.
    method StringTogether() returns (list: Node?<V>)
      requires WellLinked() && Shaped()
      modifies stored`next
      ensures Linked(Strung(chains), list)
    {
      list := null;
      var i: nat := nbuckets;
      while i > 0
        invariant i <= nbuckets
        invariant Linked(Strung(chains[i..]), list)
        invariant forall b :: 0 <= b < i ==> Linked(chains[b], buckets[b])
      {
        i := i - 1;
        list := StringBucket(i, list);
      }
      assert chains[0..] == chains;
    }

    // The nodes of bucket i in front of those of the buckets behind it.
    method StringBucket(i: nat, list: Node?<V>) returns (nodes: Node?<V>)
      requires Shaped() && i < nbuckets == |chains| == buckets.Length
      requires Linked(Strung(chains[i + 1..]), list)
      requires forall b :: 0 <= b <= i ==> Linked(chains[b], buckets[b])
      modifies stored`next
      ensures Linked(Strung(chains[i..]), nodes)
      ensures forall b :: 0 <= b < i ==> Linked(chains[b], buckets[b])
    {
      assert chains[i..][1..] == chains[i + 1..];
      AllContains(chains, i);
      StrungDisjoint(chains, i);
      nodes := PushAll(buckets[i], list, chains[i], Strung(chains[i + 1..]));
      forall b | 0 <= b < i
        ensures Linked(chains[b], buckets[b])
      {
        BucketsDisjoint(chains, b, i);
        StaysChained(chains[b]);
      }
    }

    // The inner loop: the nodes of one bucket are pushed in front of the list.
    static method PushAll(first: Node?<V>, rest: Node?<V>, ghost c: Chain<V>, ghost list: Chain<V>)
      returns (nodes: Node?<V>)
      requires Linked(c, first) && Linked(list, rest)
      requires DistinctKeys(c)
      requires Members(c) !! Members(list)
      modifies Members(c)`next
      ensures Linked(Reverse(c) + list, nodes)
    {
      var node := first;
      nodes := rest;
      ghost var todo: Chain<V>, done: Chain<V> := c, list;
      while node != null
        invariant Linked(todo, node) && Linked(done, nodes)
        invariant Reverse(todo) + done == Reverse(c) + list
        invariant DistinctKeys(todo) && Members(todo) !! Members(done)
        invariant Members(todo) <= Members(c)
        decreases |todo|
      {
        ghost var n, tail := todo[0], todo[1..];
        assert n == node && todo == [n] + tail;
        assert n !in Members(tail) && n !in Members(done) && n in Members(todo);
        assert Members(tail) <= Members(todo);
        LinkedTail(todo, n);
        var next := node.next;
        label before:
        node.next := nodes;
        StaysChained@before(tail);
        StaysChained@before(done);
        nodes := node;
        LinkedCons(n, done);
        assert Reverse(todo) + done == Reverse(tail) + ([n] + done);
        assert Members([n] + done) == {n} + Members(done);
        todo, done := tail, [n] + done;
        node := next;
      }
      assert Reverse(c) + list == done;
    }

    // Between the halves of map_resize: the nodes hang in one list, and the
    // buckets still have to be filled.
    ghost predicate Emptied(nodes: Node?<V>)
      reads this, Repr
    {
      && this in Repr && buckets in Repr && buckets.Length == nbuckets
      && Shaped() && Holds()
      && Members(Strung(chains)) <= Repr && Linked(Strung(chains), nodes)
      && nnodes == Total(chains) == |contents|
      && nnodes <= nbuckets && |chains| <= nbuckets
      && (nbuckets == 0 || IsPowerOfTwo(nbuckets))
    }

    // map_resize. When realloc fails the nodes go back into the old buckets.
    method Resize(n: nat, reallocSucceeds: bool) returns (err: int)
      requires Valid() && n >= nbuckets && IsPowerOfTwo(n)
      modifies Repr
      ensures Valid() && fresh(Repr - old(Repr)) && old(Repr) <= Repr
      ensures contents == old(contents) && nnodes == old(nnodes)
      ensures nbuckets == if reallocSucceeds then n else old(nbuckets)
      ensures err == if reallocSucceeds then 0 else -1
    {
      var nodes := EmptyBuckets();
      Realloc(n, reallocSucceeds, nodes);
      ReAddAll(nodes);
      err := if reallocSucceeds then 0 else -1;
    }

    method EmptyBuckets() returns (nodes: Node?<V>)
      requires Valid()
      modifies stored`next
      ensures Emptied(nodes)
    {
      AllInRepr();
      nodes := StringTogether();
    }

    method Realloc(n: nat, reallocSucceeds: bool, ghost nodes: Node?<V>)
      requires Emptied(nodes) && n >= nbuckets && IsPowerOfTwo(n)
      modifies this
      ensures Emptied(nodes) && fresh(Repr - old(Repr)) && old(Repr) <= Repr
      ensures contents == old(contents) && nnodes == old(nnodes) && chains == old(chains)
      ensures nbuckets == if reallocSucceeds then n else old(nbuckets)
    {
      hide Shaped;
      hide Linked;
      if reallocSucceeds {
        buckets := new Node?<V>[n];
        nbuckets := n;
        Repr := Repr + {buckets};
      }
    }

    // Second half of map_resize: the buckets are cleared and the nodes put back.
    method ReAddAll(nodes: Node?<V>)
      requires Emptied(nodes)
      modifies Repr
      ensures Valid() && Repr == old(Repr)
      ensures contents == old(contents) && nnodes == old(nnodes) && nbuckets == old(nbuckets)
      ensures chains == if nbuckets == 0 then [] else Rebuilt(Strung(old(chains)), nbuckets)
    {
      if nbuckets > 0 {
        ResizeKeepsShape(chains, nbuckets);
        ReAdd(nodes, Strung(chains));
      }
    }

    lemma AllInRepr()
      requires WellLinked() && Shaped()
      ensures stored <= Repr && Members(Strung(chains)) == stored
    {
      StrungSameNodes(chains);
      SameMembers(Strung(chains), All(chains));
      forall n | n in All(chains)
        ensures n in Repr
      {
        InAll(chains, n);
      }
    }

    // The loop that re-adds a list of nodes to cleared buckets.
    method ReAdd(nodes: Node?<V>, ghost list: Chain<V>)
      requires this in Repr && buckets in Repr && buckets.Length == nbuckets > 0
      requires Linked(list, nodes) && DistinctKeys(list) && Members(list) <= Repr
      requires forall j :: 0 <= j < |list| ==> list[j].hash == Hash(list[j].key)
      modifies `chains, buckets, Members(list)`next
      ensures WellLinked() && chains == Rebuilt(list, nbuckets)
    {
      forall b | 0 <= b < nbuckets {
        buckets[b] := null;
      }
      chains := seq(nbuckets, _ => []);
      var node := nodes;
      ghost var k: nat := 0;
      while node != null
        invariant k <= |list| && WellLinked()
        invariant Linked(list[k..], node)
        invariant chains == Rebuilt(list[..k], nbuckets)
        decreases |list| - k
      {
        NotYetAdded(list, k, nbuckets);
        LinkedTail(list[k..], node);
        assert list[k..][1..] == list[k + 1..];
        node := AddAndStep(node, list[k + 1..]);
        k := k + 1;
      }
      assert list[..k] == list;
    }

    method AddAndStep(node: Node<V>, ghost tail: Chain<V>) returns (next: Node?<V>)
      requires WellLinked() && nbuckets > 0 && node in Repr
      requires forall b :: 0 <= b < |chains| ==> node !in chains[b]
      requires Placed(chains) && node.hash == Hash(node.key)
      requires Linked(tail, node.next) && node !in Members(tail)
      modifies `chains, buckets, node`next
      ensures WellLinked() && chains == Added(old(chains), node)
      ensures Linked(tail, next)
    {
      next := node.next;
      AddNode(node);
      StaysChained(tail);
    }

    // map_set_: malloc or realloc may fail, and then nothing changes.
    method Set(key: string, value: V, mallocSucceeds: bool, reallocSucceeds: bool) returns (rc: int)
      requires Valid()
      modifies Repr
      ensures Valid() && fresh(Repr - old(Repr))
      ensures rc == (if key in old(contents) || (mallocSucceeds && (old(nnodes) < old(nbuckets) || reallocSucceeds))
        then 0 else -1)
      ensures contents == if rc == 0 then old(contents)[key := value] else old(contents)
    {
      var prev, node, b, i := GetRef(key);
      if node != null {
        InAll(chains, node);
        Overwrite(node, value);
        return 0;
      }
      rc := Add(key, value, mallocSucceeds, reallocSucceeds);
    }

    // "Add new node", growing the table first when it is full.
    method Add(key: string, value: V, mallocSucceeds: bool, reallocSucceeds: bool) returns (rc: int)
      requires Valid() && key !in contents
      modifies Repr
      ensures Valid() && fresh(Repr - old(Repr))
      ensures rc == if mallocSucceeds && (old(nnodes) < old(nbuckets) || reallocSucceeds) then 0 else -1
      ensures contents == if rc == 0 then old(contents)[key := value] else old(contents)
    {
      if !mallocSucceeds {
        return -1;
      }
      if nnodes >= nbuckets {
        var err := Grow(reallocSucceeds);
        if err != 0 {
          return -1;
        }
      }
      InsertNew(key, value);
      return 0;
    }

    method Grow(reallocSucceeds: bool) returns (err: int)
      requires Valid() && nnodes >= nbuckets
      modifies Repr
      ensures Valid() && fresh(Repr - old(Repr)) && old(Repr) <= Repr
      ensures contents == old(contents)
      ensures if reallocSucceeds then err == 0 && nnodes < nbuckets else err == -1
    {
      var n := 1;
      if nbuckets > 0 {
        n := 2 * nbuckets;
        DoublePower(nbuckets);
      }
      err := Resize(n, reallocSucceeds);
    }

    // "Find & replace existing node"
    method Overwrite(node: Node<V>, value: V)
      requires Valid() && node in stored
      modifies this`contents, node`value
      ensures Valid() && contents == old(contents)[node.key := value]
    {
      AllInRepr();
      NodesByKey(node);
      contents := contents[node.key := value];
      node.value := value;
      StaysLinked();
      HoldsOver(node);
    }

    twostate lemma StaysLinked()
      requires old(WellLinked()) && buckets == old(buckets) && nbuckets == old(nbuckets)
      requires chains == old(chains) && Repr == old(Repr)
      requires buckets[..] == old(buckets[..])
      requires forall n: Node<V> :: n in old(Repr) ==> n.next == old(n.next)
      ensures WellLinked()
    {
      forall b | 0 <= b < nbuckets ensures Linked(chains[b], buckets[b]) {
        assert old(Linked(chains[b], buckets[b]));
        assert buckets[b] == buckets[..][b] == old(buckets[..])[b];
        assert forall n :: n in Members(chains[b]) ==> n.next == old(n.next);
        StaysChained(chains[b]);
      }
    }

    twostate lemma HoldsOver(node: Node<V>)
      requires old(Holds()) && Repr == old(Repr) && stored == old(stored)
      requires node in stored && contents == old(contents)[node.key := node.value]
      requires forall n :: n in old(stored) && n != node ==> n.value == old(n.value) && n.key != node.key
      ensures Holds()
    {
      forall k | k in contents
        ensures exists n :: n in stored && n.key == k
      {
        if k != node.key {
          var n :| n in old(stored) && n.key == k;
          assert n in stored;
        }
      }
    }

    lemma NodesByKey(n: Node<V>)
      requires Shaped() && n in stored
      ensures forall m :: m in stored && m.key == n.key ==> m == n
    {
      forall m | m in stored && m.key == n.key
        ensures m == n
      {
        InOwnBucket(chains, n);
        InOwnBucket(chains, m);
      }
    }

    // map_newnode and map_addnode
    method InsertNew(key: string, value: V)
      requires Valid() && key !in contents && nnodes < nbuckets
      modifies Repr
      ensures Valid() && fresh(Repr - old(Repr))
      ensures contents == old(contents)[key := value]
    {
      var node := new Node(key, value);
      LinkNew(node);
    }

    method LinkNew(node: Node<V>)
      requires Valid() && node.key !in contents && nnodes < nbuckets
      requires node !in Repr && node.hash == Hash(node.key)
      modifies this, buckets, node`next
      ensures Valid() && Repr == old(Repr) + {node}
      ensures contents == old(contents)[node.key := node.value]
    {
      ContainsKey(node.key);
      ghost var before := contents;
      Repr := Repr + {node};
      AddToShape(node);
      CountOne(before, node.key, node.value);
    }

    method CountOne(ghost before: map<string, V>, ghost key: string, ghost value: V)
      requires WellLinked() && Shaped() && Holds()
      requires key !in before && contents == before[key := value]
      requires nnodes == |before| == Total(chains) - 1 && nnodes < nbuckets && IsPowerOfTwo(nbuckets)
      modifies `nnodes
      ensures Valid()
    {
      assert contents.Keys == before.Keys + {key};
      nnodes := nnodes + 1;
      assert WellLinked() == old(WellLinked()) && Shaped() == old(Shaped()) && Holds() == old(Holds());
    }

    method AddToShape(node: Node<V>)
      requires WellLinked() && Shaped() && Holds() && nbuckets > 0
      requires node in Repr && node !in stored && node.hash == Hash(node.key)
      requires node.key !in contents
      requires !HasKey(chains[Slot(Hash(node.key), nbuckets)], node.key)
      modifies `chains, `stored, `contents, buckets, node`next
      ensures WellLinked() && Shaped() && Holds()
      ensures Total(chains) == Total(old(chains)) + 1
      ensures contents == old(contents)[node.key := node.value]
    {
      stored, contents := stored + {node}, contents[node.key := node.value];
      AddedKeepsShape(chains, node);
      forall b | 0 <= b < |chains|
        ensures node !in chains[b]
      {
        AllContains(chains, b);
        assert node !in Members(chains[b]);
      }
      AddNode(node);
      HoldsWith(node);
    }

    method RemoveFromShape(prev: Node?<V>, node: Node<V>, ghost b: nat, ghost i: nat)
      requires WellLinked() && Shaped() && Holds()
      requires b < nbuckets && b == Slot(Hash(node.key), nbuckets)
      requires i < |chains[b]| && chains[b][i] == node
      requires prev == if i == 0 then null else chains[b][i - 1]
      modifies `chains, `stored, `contents, buckets, Members(chains[b])`next
      ensures WellLinked() && Shaped() && Holds()
      ensures Total(chains) == Total(old(chains)) - 1
      ensures contents == old(contents) - {node.key}
    {
      AllContains(chains, b);
      assert node in Members(chains[b]);
      NodesByKey(node);
      stored, contents := stored - {node}, contents - {node.key};
      RemoveNode(prev, node, b, i);
      HoldsWithout(node);
    }

    method RemoveNode(prev: Node?<V>, node: Node<V>, ghost b: nat, ghost i: nat)
      requires WellLinked() && Placed(chains) && Unique(chains)
      requires b < nbuckets && b == Slot(Hash(node.key), nbuckets)
      requires i < |chains[b]| && chains[b][i] == node
      requires prev == if i == 0 then null else chains[b][i - 1]
      requires stored == Members(All(chains)) - {node}
      modifies `chains, buckets, Members(chains[b])`next
      ensures WellLinked() && Shaped()
      ensures Total(chains) == Total(old(chains)) - 1
    {
      RemovedKeepsShape(chains, b, i);
      UnlinkPointer(prev, node, b, i);
    }

    twostate lemma HoldsWith(node: Node<V>)
      requires old(Holds()) && old(Repr) <= Repr && node in Repr
      requires stored == old(stored) + {node}
      requires node.key !in old(contents) && contents == old(contents)[node.key := node.value]
      requires forall n :: n in old(stored) ==> n.value == old(n.value)
      ensures Holds()
    {
      forall k | k in contents
        ensures exists n :: n in stored && n.key == k
      {
        if k == node.key {
          assert node in stored;
        } else {
          var n :| n in old(stored) && n.key == k;
          assert n in stored;
        }
      }
    }

    twostate lemma HoldsWithout(node: Node<V>)
      requires old(Holds()) && old(Repr) <= Repr
      requires node in old(stored) && stored == old(stored) - {node}
      requires forall n :: n in old(stored) && n.key == node.key ==> n == node
      requires contents == old(contents) - {node.key}
      requires forall n :: n in old(stored) ==> n.value == old(n.value)
      ensures Holds()
    {
      forall k | k in contents
        ensures exists n :: n in stored && n.key == k
      {
        var n :| n in old(stored) && n.key == k;
        assert n in stored;
      }
    }

    // map_remove_
    method Remove(key: string)
      requires Valid()
      modifies Repr
      ensures Valid() && Repr == old(Repr)
      ensures contents == old(contents) - {key}
    {
      hide Shaped;
      hide Holds;
      hide Linked;
      var prev, node, b, i := GetRef(key);
      if node != null {
        Unlink(prev, node, b, i);
      }
    }

    method Unlink(prev: Node?<V>, node: Node<V>, ghost b: nat, ghost i: nat)
      requires Valid() && node.key in contents && b < nbuckets && b == Slot(Hash(node.key), nbuckets)
      requires i < |chains[b]| && chains[b][i] == node
      requires prev == if i == 0 then null else chains[b][i - 1]
      modifies `nnodes, `chains, `stored, `contents, buckets, Members(chains[b])`next
      ensures Valid() && contents == old(contents) - {node.key}
    {
      ghost var before := contents;
      RemoveFromShape(prev, node, b, i);
      Discount(before, node.key);
    }

    method Discount(ghost before: map<string, V>, ghost key: string)
      requires WellLinked() && Shaped() && Holds()
      requires key in before && contents == before - {key}
      requires nnodes == Total(chains) + 1 == |before| && nnodes <= nbuckets && IsPowerOfTwo(nbuckets)
      modifies `nnodes
      ensures Valid()
    {
      SmallerWithout(before, key);
      nnodes := nnodes - 1;
      assert WellLinked() == old(WellLinked()) && Shaped() == old(Shaped()) && Holds() == old(Holds());
    }

    // The pointer to the node, in the bucket or in the node before, skips it.
    method UnlinkPointer(prev: Node?<V>, node: Node<V>, ghost b: nat, ghost i: nat)
      requires WellLinked() && Placed(chains) && Unique(chains)
      requires b < nbuckets && b == Slot(Hash(node.key), nbuckets)
      requires i < |chains[b]| && chains[b][i] == node
      requires prev == if i == 0 then null else chains[b][i - 1]
      modifies `chains, buckets, Members(chains[b])`next
      ensures WellLinked()
      ensures chains == Removed(old(chains), b, i)
    {
      SkipPointer(prev, node, b, i);
      chains := Removed(chains, b, i);
    }

    method SkipPointer(prev: Node?<V>, node: Node<V>, ghost b: nat, ghost i: nat)
      requires WellLinked() && Placed(chains) && Unique(chains)
      requires b < nbuckets && b == Slot(Hash(node.key), nbuckets)
      requires i < |chains[b]| && chains[b][i] == node
      requires prev == if i == 0 then null else chains[b][i - 1]
      modifies buckets, Members(chains[b])`next
      ensures Linked(Without(chains[b], i), buckets[b])
      ensures forall e :: 0 <= e < nbuckets && e != b ==> Linked(chains[e], buckets[e])
    {
      assert DistinctKeys(chains[b]);
      if prev == null {
        buckets[Slot(Hash(node.key), nbuckets)] := node.next;
      } else {
        assert prev in Members(chains[b]);
        prev.next := node.next;
      }
      ghost var c, d := chains[b], Without(chains[b], i);
      assert old(Chained(c));
      forall j {:trigger d[j].next} | 0 <= j < |d|
        ensures d[j].next == if j + 1 < |d| then d[j + 1] else null
      {
        var k := if j < i then j else j + 1;
        assert d[j] == c[k];
        assert old(c[k].next) == if k + 1 < |c| then c[k + 1] else null;
        assert old(c[i].next) == if i + 1 < |c| then c[i + 1] else null;
      }
      forall e | 0 <= e < nbuckets && e != b
        ensures Linked(chains[e], buckets[e])
      {
        assert old(Linked(chains[e], buckets[e]));
        BucketsDisjoint(chains, e, b);
        StaysChained(chains[e]);
      }
    }
  }

  lemma SmallerWithout<V>(m: map<string, V>, key: string)
    requires key in m
    ensures |m - {key}| == |m| - 1
  {
    assert (m - {key}).Keys == m.Keys - {key};
  }

  ghost predicate Heads<V>(buckets: array<Node?<V>>, chains: seq<Chain<V>>)
    reads buckets
  {
    && buckets.Length == |chains|
    && forall b :: 0 <= b < |chains| ==> buckets[b] == if chains[b] == [] then null else chains[b][0]
  }

  lemma HeadsOf<V>(m: Table<V>)
    requires m.WellLinked()
    ensures Heads(m.buckets, m.chains)
  {
    forall b | 0 <= b < |m.chains|
      ensures m.buckets[b] == if m.chains[b] == [] then null else m.chains[b][0]
    {
      assert Linked(m.chains[b], m.buckets[b]);
    }
  }

  lemma NextOf<V>(m: Table<V>, b: nat, at: nat)
    requires m.WellLinked() && b < |m.chains| && at < |m.chains[b]|
    ensures m.chains[b][at].next == if at + 1 < |m.chains[b]| then m.chains[b][at + 1] else null
  {
    assert Linked(m.chains[b], m.buckets[b]);
  }

  // map_iter_t: the place where a scan over the table stands.
  class Iterator<V> {
    var bucketidx: int
    var node: Node?<V>
    ghost var chains: seq<Chain<V>>  // the table being scanned
    ghost var at: nat                // the place of node in its bucket

    ghost predicate Valid()
      reads this
    {
      && -1 <= bucketidx
      && if node == null then bucketidx == -1 || bucketidx >= |chains|
         else
           && 0 <= bucketidx < |chains|
           && at < |chains[bucketidx]| && chains[bucketidx][at] == node
    }

    // The nodes still to be visited.
    ghost function Rest(): Chain<V>
      requires Valid()
      reads this
    {
      if node != null then After(chains, bucketidx, at)
      else if bucketidx == -1 then All(chains)
      else []
    }

    // map_iter_
    constructor (ghost chains: seq<Chain<V>>)
      ensures Valid() && this.chains == chains && Rest() == All(chains)
    {
      bucketidx, node := -1, null;
      this.chains, at := chains, 0;
    }

    // map_next_
    method Next(m: Table<V>) returns (key: Option<string>)
      requires Valid() && m.Valid() && this !in m.Repr && m.chains == chains
      modifies `bucketidx, `node, `at
      ensures Valid()
      ensures if old(Rest()) == [] then key == None && Rest() == []
        else key == Some(old(Rest())[0].key) && Rest() == old(Rest())[1..]
      ensures m.Valid() == old(m.Valid())
    {
      HeadsOf(m);
      if node != null {
        NextOf(m, bucketidx, at);
      }
      key := Advance(m.buckets, m.nbuckets);
    }

    method Advance(buckets: array<Node?<V>>, nbuckets: nat) returns (key: Option<string>)
      requires Valid() && nbuckets == |chains| && Heads(buckets, chains)
      requires node != null ==>
        node.next == if at + 1 < |chains[bucketidx]| then chains[bucketidx][at + 1] else null
      modifies `bucketidx, `node, `at
      ensures Valid()
      ensures if old(Rest()) == [] then key == None && Rest() == []
        else key == Some(old(Rest())[0].key) && Rest() == old(Rest())[1..]
    {
      ghost var rest := Rest();
      if node != null {
        NextInBucket(chains, bucketidx, at);
        node := node.next;
        if node != null {
          at := at + 1;
          return Some(node.key);
        }
      }
      assert chains[0..] == chains;
      ghost var from := bucketidx + 1;
      NextBucket(buckets, nbuckets);
      if node != null {
        SkipEmpty(chains, from, bucketidx);
        FirstOfBucket(chains, bucketidx);
        return Some(node.key);
      }
      if from < nbuckets {
        SkipEmpty(chains, from, nbuckets);
      }
      return None;
    }

    // The do-while under the label nextBucket.
    method NextBucket(buckets: array<Node?<V>>, nbuckets: nat)
      requires nbuckets == |chains| && Heads(buckets, chains) && node == null && -1 <= bucketidx
      modifies `bucketidx, `node, `at
      ensures Valid() && bucketidx > old(bucketidx)
      ensures forall b :: old(bucketidx) < b < bucketidx && b < nbuckets ==> chains[b] == []
      ensures if node == null then bucketidx >= nbuckets else at == 0 && bucketidx < nbuckets
    {
      while true
        invariant old(bucketidx) <= bucketidx && node == null
        invariant forall b :: old(bucketidx) < b <= bucketidx && b < nbuckets ==> chains[b] == []
        decreases nbuckets - bucketidx
      {
        bucketidx := bucketidx + 1;
        if bucketidx >= nbuckets {
          return;
        }
        node := buckets[bucketidx];
        if node != null {
          at := 0;
          return;
        }
      }
    }
  }

  // What a scan visits: every stored key, and none twice.
  lemma ScanVisitsEachKeyOnce<V>(m: Table<V>)
    requires m.Valid()
    ensures DistinctKeys(All(m.chains))
    ensures |All(m.chains)| == |m.contents|
    ensures forall k :: k in m.contents <==> HasKey(All(m.chains), k)
  {
    if m.nbuckets > 0 {
      AllDistinct(m.chains, 0, m.nbuckets);
    }
    TotalIsLength(m.chains);
    forall k
      ensures k in m.contents <==> HasKey(All(m.chains), k)
    {
      KeyVisited(m, k);
    }
  }

  lemma KeyVisited<V>(m: Table<V>, k: string)
    requires m.Valid()
    ensures k in m.contents <==> HasKey(All(m.chains), k)
  {
    if k in m.contents {
      var n :| n in m.stored && n.key == k;
      assert n in All(m.chains);
    }
    if HasKey(All(m.chains), k) {
      var i :| 0 <= i < |All(m.chains)| && All(m.chains)[i].key == k;
      assert All(m.chains)[i] in m.stored;
    }
  }

  // The clients look a key up by scanning all keys and comparing strings; the
  // answer is that of the hashed lookup.
  method ScanLookup<V>(m: Table<V>, key: string) returns (r: Option<V>)
    requires m.Valid()
    ensures r == if key in m.contents then Some(m.contents[key]) else None
  {
    KeyVisited(m, key);
    var iter := new Iterator(m.chains);
    while true
      invariant m.Valid() && iter !in m.Repr && fresh(iter)
      invariant iter.Valid() && iter.chains == m.chains
      invariant key in m.contents ==> HasKey(iter.Rest(), key)
      decreases |iter.Rest()|
    {
      ghost var rest := iter.Rest();
      var k, value := NextPair(m, iter);
      if k == None {
        return None;
      }
      if k.value == key {
        return value;
      }
      KeyLater(rest, key);
    }
  }

  // One round of the scans: map_next, then map_get of the key found.
  method NextPair<V>(m: Table<V>, iter: Iterator<V>) returns (k: Option<string>, value: Option<V>)
    requires m.Valid() && iter !in m.Repr
    requires iter.Valid() && iter.chains == m.chains
    modifies iter`bucketidx, iter`node, iter`at
    ensures m.Valid() && iter.Valid() && iter.chains == m.chains
    ensures if old(iter.Rest()) == [] then k == None
      else k == Some(old(iter.Rest())[0].key) && iter.Rest() == old(iter.Rest())[1..]
    ensures k.Some? ==> value == if k.value in m.contents then Some(m.contents[k.value]) else None
  {
    value := None;
    k := iter.Next(m);
    if k.Some? {
      value := m.Get(k.value);
    }
  }

  lemma KeyLater<V>(c: Chain<V>, key: string)
    requires c != [] && c[0].key != key
    ensures HasKey(c, key) ==> HasKey(c[1..], key)
  {
    if i :| 0 <= i < |c| && c[i].key == key {
      assert c[1..][i - 1].key == key;
    }
  }
}
