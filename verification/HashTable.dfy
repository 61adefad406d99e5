/** A hash table of chained buckets that doubles when it is more than 80 percent full. */
module HashTables {
  import opened Basics

  const FACTOR: nat := 80

  datatype Elem<K, V> = Elem(hash: nat, key: K, value: V)

  /** A chain and the element count kept beside it. */
  datatype Bucket<K, V> = Bucket(chain: seq<Elem<K, V>>, count: nat)

  type Same<!K> = (K, K) -> bool

  /** Keys that compare equal hash alike. */
  ghost predicate Compatible<K(!new)>(hash: K -> nat, same: Same<K>) {
    && (forall x :: same(x, x))
    && (forall x, y :: same(x, y) ==> same(y, x) && hash(x) == hash(y))
    && (forall x, y, z :: same(x, y) && same(y, z) ==> same(x, z))
  }

  lemma SameLaws<K(!new)>(hash: K -> nat, same: Same<K>, x: K, y: K, z: K)
    requires Compatible(hash, same)
    ensures same(x, x) && (same(x, y) ==> same(y, x) && hash(x) == hash(y)) && (same(x, y) && same(y, z) ==> same(x, z))
  {
  }

  // ----- Chains -----

  /** The value of the first element whose key compares equal. */
  ghost function Lookup<K, V>(same: Same<K>, c: seq<Elem<K, V>>, k: K): Option<V> {
    if c == [] then None else if same(c[0].key, k) then Some(c[0].value) else Lookup(same, c[1..], k)
  }

  ghost predicate Absent<K, V>(same: Same<K>, c: seq<Elem<K, V>>, k: K) {
    forall i :: 0 <= i < |c| ==> !same(c[i].key, k)
  }

  ghost predicate Unique<K, V>(same: Same<K>, c: seq<Elem<K, V>>) {
    forall i, j :: 0 <= i < j < |c| ==> !same(c[i].key, c[j].key)
  }

  lemma {:induction false} LookupAbsent<K, V>(same: Same<K>, c: seq<Elem<K, V>>, k: K)
    ensures Absent(same, c, k) <==> Lookup(same, c, k) == None
    decreases |c|
  {
    if c != [] {
      LookupAbsent(same, c[1..], k);
      if !same(c[0].key, k) && Absent(same, c[1..], k) {
        forall i | 0 <= i < |c| ensures !same(c[i].key, k) { if i > 0 { assert c[i] == c[1..][i - 1]; } }
      }
    }
  }

  lemma {:induction false} LookupConcat<K, V>(same: Same<K>, c: seq<Elem<K, V>>, d: seq<Elem<K, V>>, k: K)
    ensures Lookup(same, c + d, k) == if Lookup(same, c, k) == None then Lookup(same, d, k) else Lookup(same, c, k)
    decreases |c|
  {
    if c == [] {
      assert c + d == d;
    } else {
      assert (c + d)[1..] == c[1..] + d;
      LookupConcat(same, c[1..], d, k);
    }
  }

  lemma LookupOne<K, V>(same: Same<K>, e: Elem<K, V>, k: K)
    ensures Lookup(same, [e], k) == if same(e.key, k) then Some(e.value) else None
  {
  }

  /** Chain `c` with element `i` replaced by `mid`, seen through any key. */
  lemma LookupAround<K, V>(same: Same<K>, c: seq<Elem<K, V>>, i: nat, k: K)
    requires i < |c|
    ensures var before, rest := Lookup(same, c[..i], k), Lookup(same, c[i + 1..], k);
            Lookup(same, c, k) == if before != None then before else if same(c[i].key, k) then Some(c[i].value) else rest
  {
    hide Lookup;
    assert c == c[..i] + ([c[i]] + c[i + 1..]);
    LookupConcat(same, c[..i], [c[i]] + c[i + 1..], k);
    LookupConcat(same, [c[i]], c[i + 1..], k);
    LookupOne(same, c[i], k);
  }

  /** Elements sit in the bucket their stored hash names, which is that of their key. */
  ghost predicate Placed<K, V>(hash: K -> nat, c: seq<Elem<K, V>>, n: nat, i: int)
    requires n > 0
  {
    forall j :: 0 <= j < |c| ==> c[j].hash == hash(c[j].key) && c[j].hash % n == i
  }

  // ----- Tables -----

  ghost predicate BucketOk<K, V>(hash: K -> nat, same: Same<K>, bs: seq<Bucket<K, V>>, i: int)
    requires 0 <= i < |bs|
  {
    Placed(hash, bs[i].chain, |bs|, i) && Unique(same, bs[i].chain) && bs[i].count >= |bs[i].chain|
  }

  ghost predicate TableOk<K, V>(hash: K -> nat, same: Same<K>, bs: seq<Bucket<K, V>>) {
    |bs| > 0 && forall i :: 0 <= i < |bs| ==> BucketOk(hash, same, bs, i)
  }

  ghost function ValueIn<K, V>(hash: K -> nat, same: Same<K>, bs: seq<Bucket<K, V>>, k: K): Option<V>
    requires |bs| > 0
  {
    Lookup(same, bs[hash(k) % |bs|].chain, k)
  }

  /** Elements in all chains. */
  ghost function Total<K, V>(bs: seq<Bucket<K, V>>): nat {
    if bs == [] then 0 else |bs[0].chain| + Total(bs[1..])
  }

  lemma {:induction false} TotalUpdate<K, V>(bs: seq<Bucket<K, V>>, i: nat, b: Bucket<K, V>)
    requires i < |bs|
    ensures Total(bs[i := b]) == Total(bs) - |bs[i].chain| + |b.chain|
    decreases i
  {
    if i == 0 {
      assert bs[0 := b][1..] == bs[1..];
    } else {
      assert bs[i := b][1..] == bs[1..][i - 1 := b];
      TotalUpdate(bs[1..], i - 1, b);
    }
  }

  lemma {:induction false} TotalSplit<K, V>(bs: seq<Bucket<K, V>>, i: nat)
    requires i < |bs|
    ensures Total(bs[..i + 1]) == Total(bs[..i]) + |bs[i].chain|
    decreases i
  {
    if i == 0 {
      assert bs[..1] == [bs[0]] && bs[..0] == [];
      assert [bs[0]][1..] == [];
    } else {
      assert bs[..i + 1][1..] == bs[1..][..i] && bs[..i][1..] == bs[1..][..i - 1];
      TotalSplit(bs[1..], i - 1);
    }
  }

  /** What replacing bucket `h` does to the table, seen through any key. */
  lemma ReplaceBucket<K, V>(hash: K -> nat, same: Same<K>, bs: seq<Bucket<K, V>>, h: nat, b: Bucket<K, V>)
    requires h < |bs| && TableOk(hash, same, bs)
    requires Placed(hash, b.chain, |bs|, h) && Unique(same, b.chain) && b.count >= |b.chain|
    ensures TableOk(hash, same, bs[h := b]) && Total(bs[h := b]) == Total(bs) - |bs[h].chain| + |b.chain|
    ensures forall k :: ValueIn(hash, same, bs[h := b], k) ==
                        if hash(k) % |bs| == h then Lookup(same, b.chain, k) else ValueIn(hash, same, bs, k)
  {
    TotalUpdate(bs, h, b);
    var after := bs[h := b];
    forall i | 0 <= i < |after| ensures BucketOk(hash, same, after, i) {
      assert BucketOk(hash, same, bs, i);
    }
  }

  /** The chain after its element `i` gets a new value, or loses the element. */
  lemma ChangeAt<K(!new), V>(hash: K -> nat, same: Same<K>, c: seq<Elem<K, V>>, i: nat, key: K, data: V, k: K)
    requires Compatible(hash, same) && i < |c| && Unique(same, c) && same(c[i].key, key)
    ensures Lookup(same, c[i := c[i].(value := data)], k) == if same(key, k) then Some(data) else Lookup(same, c, k)
    ensures Lookup(same, c[..i] + c[i + 1..], k) == if same(key, k) then None else Lookup(same, c, k)
  {
    hide Compatible, Lookup;
    var d := c[i := c[i].(value := data)];
    assert d[..i] == c[..i] && d[i + 1..] == c[i + 1..];
    LookupAround(same, c, i, k);
    LookupAround(same, d, i, k);
    LookupConcat(same, c[..i], c[i + 1..], k);
    SameLaws(hash, same, c[i].key, key, k);
    SameLaws(hash, same, key, k, c[i].key);
    SameLaws(hash, same, key, c[i].key, k);
    if same(key, k) {
      AbsentOthers(hash, same, c, i, k);
      LookupAbsent(same, c[..i], k);
      LookupAbsent(same, c[i + 1..], k);
    }
  }

  lemma AbsentOthers<K(!new), V>(hash: K -> nat, same: Same<K>, c: seq<Elem<K, V>>, i: nat, k: K)
    requires Compatible(hash, same) && i < |c| && Unique(same, c) && same(c[i].key, k)
    ensures Absent(same, c[..i], k) && Absent(same, c[i + 1..], k)
  {
    hide Compatible;
    forall j | 0 <= j < |c| && j != i ensures !same(c[j].key, k) {
      SameLaws(hash, same, c[j].key, k, c[i].key);
      SameLaws(hash, same, c[i].key, k, c[j].key);
      SameLaws(hash, same, k, c[i].key, c[j].key);
      SameLaws(hash, same, c[i].key, c[j].key, k);
      SameLaws(hash, same, k, c[j].key, c[i].key);
    }
  }

  lemma AppendUnique<K(!new), V>(hash: K -> nat, same: Same<K>, c: seq<Elem<K, V>>, e: Elem<K, V>, k: K)
    requires Compatible(hash, same) && Unique(same, c) && Absent(same, c, e.key)
    ensures Unique(same, c + [e]) && Unique(same, [e] + c)
    ensures Lookup(same, c + [e], k) == (if same(e.key, k) then Some(e.value) else Lookup(same, c, k))
    ensures Lookup(same, [e] + c, k) == (if same(e.key, k) then Some(e.value) else Lookup(same, c, k))
  {
    hide Compatible, Lookup;
    LookupConcat(same, c, [e], k);
    LookupConcat(same, [e], c, k);
    LookupOne(same, e, k);
    forall i | 0 <= i < |c| ensures !same(e.key, c[i].key) && (same(e.key, k) ==> !same(c[i].key, k)) {
      SameLaws(hash, same, e.key, c[i].key, k);
      SameLaws(hash, same, e.key, k, c[i].key);
      SameLaws(hash, same, c[i].key, k, e.key);
      SameLaws(hash, same, k, e.key, c[i].key);
    }
    if same(e.key, k) { LookupAbsent(same, c, k); }
  }

  class HashTable<K(!new), V> {
    const hash: K -> nat
    const same: Same<K>
    var node: array<Bucket<K, V>>
    var count: nat

    constructor (buckets: nat, hash: K -> nat, same: Same<K>)
      requires buckets > 0 && Compatible(hash, same)
      ensures Valid() && fresh(node) && node.Length == buckets && forall k :: Value(k) == None
    {
      this.hash, this.same := hash, same;
      node := new Bucket[buckets](_ => Bucket([], 0));
      count := 0;
      new;
      NothingStored(hash, same, node[..]);
    }

    ghost predicate Valid()
      reads this, node
    {
      && Compatible(hash, same) && TableOk(hash, same, node[..])
      && count == Total(node[..]) && count <= FACTOR * node.Length / 100
    }

    /** The map the table stands for. */
    ghost function Value(k: K): Option<V>
      requires node.Length > 0
      reads this, node
    {
      ValueIn(hash, same, node[..], k)
    }

    /** Position of a key in a chain, or the length of the chain. */
    method Search(c: seq<Elem<K, V>>, key: K) returns (i: nat)
      ensures i <= |c| && Absent(same, c[..i], key) && (i < |c| ==> same(c[i].key, key))
    {
      i := 0;
      while i < |c|
        invariant 0 <= i <= |c| && Absent(same, c[..i], key)
      {
        if same(c[i].key, key) {
          return;
        }
        i := i + 1;
      }
    }

    method Get(key: K) returns (r: Option<V>)
      requires Valid()
      ensures r == Value(key)
    {
      hide Compatible, Lookup, Total;
      var h := hash(key) % node.Length;
      assert BucketOk(hash, same, node[..], h);
      var c := node[h].chain;
      LookupAbsent(same, c, key);
      if node[h].count == 0 {
        return None;
      }
      var i := Search(c, key);
      if i == |c| {
        assert c[..i] == c;
        return None;
      }
      LookupAround(same, c, i, key);
      LookupAbsent(same, c[..i], key);
      return Some(c[i].value);
    }

    /** Changes the value of an element. */
    method SetElem(h: nat, i: nat, key: K, data: V)
      requires Valid() && h < node.Length && h == hash(key) % node.Length && i < |node[h].chain| && same(node[h].chain[i].key, key)
      modifies node
      ensures Valid() && forall k :: Value(k) == if same(key, k) then Some(data) else old(Value(k))
    {
      hide Compatible, Lookup, Total;
      ghost var bs := node[..];
      assert BucketOk(hash, same, bs, h);
      var c, n := node[h].chain, node[h].count;
      SameHash(hash, same, key, h, node.Length);
      forall k ensures Lookup(same, c[i := c[i].(value := data)], k) == if same(key, k) then Some(data) else Lookup(same, c, k) {
        ChangeAt(hash, same, c, i, key, data, k);
      }
      ReplaceBucket(hash, same, bs, h, Bucket(c[i := c[i].(value := data)], n));
      node[h] := Bucket(c[i := c[i].(value := data)], n);
      assert node[..] == bs[h := Bucket(c[i := c[i].(value := data)], n)];
    }

    /** Adds an element for a key that has none. */
    method AddElem(h: nat, key: K, data: V)
      requires Valid() && h < node.Length && h == hash(key) % node.Length && Absent(same, node[h].chain, key)
      modifies this`count, node
      ensures Compatible(hash, same) && TableOk(hash, same, node[..]) && count == Total(node[..]) == old(count) + 1
      ensures forall k :: Value(k) == if same(key, k) then Some(data) else old(Value(k))
    {
      hide Compatible, Lookup, Total;
      ghost var bs := node[..];
      assert BucketOk(hash, same, bs, h);
      var c, n := node[h].chain, node[h].count;
      SameHash(hash, same, key, h, node.Length);
      var e := Elem(hash(key), key, data);
      forall k ensures Unique(same, c + [e]) && Lookup(same, c + [e], k) == if same(key, k) then Some(data) else Lookup(same, c, k) {
        AppendUnique(hash, same, c, e, k);
      }
      assert Unique(same, c + [e]) by { AppendUnique(hash, same, c, e, key); }
      ReplaceBucket(hash, same, bs, h, Bucket(c + [e], n + 1));
      node[h] := Bucket(c + [e], n + 1);
      assert node[..] == bs[h := Bucket(c + [e], n + 1)];
      count := count + 1;
    }

    method Set(key: K, data: V)
      requires Valid()
      modifies this`node, this`count, node
      ensures Valid() && (node == old(node) || fresh(node))
      ensures forall k :: Value(k) == if same(key, k) then Some(data) else old(Value(k))
    {
      hide Compatible, Lookup, Total;
      var h := hash(key) % node.Length;
      assert BucketOk(hash, same, node[..], h);
      var c := node[h].chain;
      var i := Search(c, key);
      if i < |c| {
        SetElem(h, i, key, data);
      } else {
        assert c[..i] == c;
        AddElem(h, key, data);
        if count > FACTOR * node.Length / 100 {
          Grow();
        }
      }
    }

    method Delete(key: K)
      requires Valid()
      modifies this`count, node
      ensures Valid() && node == old(node)
      ensures forall k :: Value(k) == if same(key, k) then None else old(Value(k))
    {
      hide Compatible, Lookup, Total;
      var h := hash(key) % node.Length;
      ghost var bs := node[..];
      assert BucketOk(hash, same, bs, h);
      var c, n := node[h].chain, node[h].count;
      SameHash(hash, same, key, h, node.Length);
      var i := Search(c, key);
      if i == |c| {
        assert c[..i] == c;
        forall k ensures same(key, k) ==> Value(k) == None {
          if same(key, k) { AbsentSame(hash, same, c, key, k); }
        }
        return;
      }
      forall k ensures Lookup(same, c[..i] + c[i + 1..], k) == if same(key, k) then None else Lookup(same, c, k) {
        ChangeAt(hash, same, c, i, key, c[i].value, k);
      }
      RemoveOne(hash, same, c, i, node.Length, h);
      ReplaceBucket(hash, same, bs, h, Bucket(c[..i] + c[i + 1..], n - 1));
      node[h] := Bucket(c[..i] + c[i + 1..], n - 1);
      assert node[..] == bs[h := Bucket(c[..i] + c[i + 1..], n - 1)];
      count := count - 1;
    }

    /** Empties every chain; the counts beside the chains keep their old values. */
    method Clear()
      requires Valid()
      modifies this`count, node
      ensures Valid() && node == old(node) && count == 0 && forall k :: Value(k) == None
      ensures forall i :: 0 <= i < node.Length ==> node[i] == Bucket([], old(node[i].count))
    {
      hide Compatible;
      var i := 0;
      while i < node.Length
        invariant 0 <= i <= node.Length
        invariant forall j :: 0 <= j < node.Length ==> node[j] == if j < i then Bucket([], old(node[j].count)) else old(node[j])
      {
        while node[i].chain != []
          invariant node[i].count == old(node[i].count)
          invariant forall j :: 0 <= j < node.Length && j != i ==>
                      node[j] == if j < i then Bucket([], old(node[j].count)) else old(node[j])
          decreases |node[i].chain|
        {
          node[i] := Bucket(node[i].chain[1..], node[i].count);
        }
        i := i + 1;
      }
      count := 0;
      NothingStored(hash, same, node[..]);
    }

    /** Rehashes every element into twice as many buckets. */
    method Grow()
      requires Compatible(hash, same) && TableOk(hash, same, node[..]) && count == Total(node[..])
      modifies this`node
      ensures fresh(node) && node.Length == 2 * old(node.Length)
      ensures TableOk(hash, same, node[..]) && count == Total(node[..])
      ensures forall k :: Value(k) == old(Value(k))
    {
      hide Compatible, Lookup, Total;
      ghost var bs := node[..];
      var size := node.Length * 2;
      var grown := new Bucket[size](_ => Bucket([], 0));
      NothingStored(hash, same, grown[..]);
      RehashedNothing(hash, same, bs, grown[..]);
      var i := 0;
      while i < node.Length
        invariant 0 <= i <= node.Length && node[..] == bs && fresh(grown) && grown.Length == size
        invariant Rehashed(hash, same, bs, grown[..], i, 0)
      {
        var c := node[i].chain;
        var j := 0;
        while j < |c|
          invariant 0 <= j <= |c| && node[..] == bs && c == bs[i].chain
          invariant Rehashed(hash, same, bs, grown[..], i, j)
        {
          var e := c[j];
          var index := e.hash % size;
          RehashOne(hash, same, bs, grown[..], i, j);
          var b := grown[index];
          grown[index] := Bucket([e] + b.chain, b.count + 1);
          j := j + 1;
        }
        RehashedBucket(hash, same, bs, grown[..], i);
        i := i + 1;
      }
      RehashedAll(hash, same, bs, grown[..]);
      node := grown;
    }
  }

  /** The new buckets hold the elements of the first `i` old buckets and the first `j`
      of bucket `i`. */
  ghost predicate Rehashed<K(!new), V>(hash: K -> nat, same: Same<K>, bs: seq<Bucket<K, V>>, grown: seq<Bucket<K, V>>, i: nat, j: nat) {
    && TableOk(hash, same, bs) && TableOk(hash, same, grown) && i <= |bs| && |grown| == 2 * |bs|
    && (i == |bs| ==> j == 0) && (i < |bs| ==> j <= |bs[i].chain|)
    && Total(grown) == Total(bs[..i]) + j
    && forall k :: ValueIn(hash, same, grown, k) == Partial(hash, same, bs, i, j, k)
  }

  ghost function Partial<K, V>(hash: K -> nat, same: Same<K>, bs: seq<Bucket<K, V>>, i: nat, j: nat, k: K): Option<V>
    requires |bs| > 0 && (i < |bs| ==> j <= |bs[i].chain|)
  {
    var b := hash(k) % |bs|;
    if b < i then ValueIn(hash, same, bs, k) else if b == i then Lookup(same, bs[i].chain[..j], k) else None
  }

  lemma RehashedNothing<K(!new), V>(hash: K -> nat, same: Same<K>, bs: seq<Bucket<K, V>>, grown: seq<Bucket<K, V>>)
    requires TableOk(hash, same, bs) && TableOk(hash, same, grown) && |grown| == 2 * |bs|
    requires Total(grown) == 0 && forall k :: ValueIn(hash, same, grown, k) == None
    ensures Rehashed(hash, same, bs, grown, 0, 0)
  {
  }

  lemma RehashedBucket<K(!new), V>(hash: K -> nat, same: Same<K>, bs: seq<Bucket<K, V>>, grown: seq<Bucket<K, V>>, i: nat)
    requires i < |bs| && Rehashed(hash, same, bs, grown, i, |bs[i].chain|)
    ensures Rehashed(hash, same, bs, grown, i + 1, 0)
  {
    hide TableOk;
    TotalSplit(bs, i);
    assert bs[i].chain[..|bs[i].chain|] == bs[i].chain;
    forall k ensures ValueIn(hash, same, grown, k) == Partial(hash, same, bs, i + 1, 0, k) {
      assert ValueIn(hash, same, grown, k) == Partial(hash, same, bs, i, |bs[i].chain|, k);
    }
  }

  lemma RehashedAll<K(!new), V>(hash: K -> nat, same: Same<K>, bs: seq<Bucket<K, V>>, grown: seq<Bucket<K, V>>)
    requires Rehashed(hash, same, bs, grown, |bs|, 0)
    ensures TableOk(hash, same, grown) && Total(grown) == Total(bs)
    ensures forall k :: ValueIn(hash, same, grown, k) == ValueIn(hash, same, bs, k)
  {
    assert bs[..|bs|] == bs;
    forall k ensures ValueIn(hash, same, grown, k) == ValueIn(hash, same, bs, k) {
      assert ValueIn(hash, same, grown, k) == Partial(hash, same, bs, |bs|, 0, k);
    }
  }

  /** Moving the next element keeps the correspondence. */
  lemma RehashOne<K(!new), V>(hash: K -> nat, same: Same<K>, bs: seq<Bucket<K, V>>, grown: seq<Bucket<K, V>>, i: nat, j: nat)
    requires Compatible(hash, same) && i < |bs| && j < |bs[i].chain| && Rehashed(hash, same, bs, grown, i, j)
    ensures var e := bs[i].chain[j]; var index := e.hash % |grown|; var b := grown[index];
            Rehashed(hash, same, bs, grown[index := Bucket([e] + b.chain, b.count + 1)], i, j + 1)
  {
    hide Compatible, Lookup, Total, TableOk;
    var c := bs[i].chain;
    var e := c[j];
    TablePart(hash, same, bs, i);
    var index := e.hash % |grown|;
    var b := grown[index];
    TablePart(hash, same, grown, index);
    assert Absent(same, b.chain, e.key) by {
      SameLaws(hash, same, e.key, e.key, e.key);
      assert ValueIn(hash, same, grown, e.key) == Partial(hash, same, bs, i, j, e.key);
      AbsentBefore(same, c, j);
      LookupAbsent(same, c[..j], e.key);
      LookupAbsent(same, b.chain, e.key);
    }
    AppendUnique(hash, same, b.chain, e, e.key);
    var after := grown[index := Bucket([e] + b.chain, b.count + 1)];
    ReplaceBucket(hash, same, grown, index, Bucket([e] + b.chain, b.count + 1));
    forall k ensures ValueIn(hash, same, after, k) == Partial(hash, same, bs, i, j + 1, k) {
      assert ValueIn(hash, same, grown, k) == Partial(hash, same, bs, i, j, k);
      AppendUnique(hash, same, b.chain, e, k);
      SameLaws(hash, same, e.key, k, k);
      NextInChain(hash, same, c, j, k);
    }
  }

  lemma TablePart<K, V>(hash: K -> nat, same: Same<K>, bs: seq<Bucket<K, V>>, i: nat)
    requires TableOk(hash, same, bs) && i < |bs|
    ensures BucketOk(hash, same, bs, i)
  {
  }

  lemma AbsentBefore<K, V>(same: Same<K>, c: seq<Elem<K, V>>, j: nat)
    requires Unique(same, c) && j < |c|
    ensures Absent(same, c[..j], c[j].key)
  {
  }

  lemma NextInChain<K(!new), V>(hash: K -> nat, same: Same<K>, c: seq<Elem<K, V>>, j: nat, k: K)
    requires Compatible(hash, same) && Unique(same, c) && j < |c|
    ensures Lookup(same, c[..j + 1], k) == if same(c[j].key, k) then Some(c[j].value) else Lookup(same, c[..j], k)
  {
    hide Compatible, Lookup;
    assert c[..j + 1] == c[..j] + [c[j]];
    AbsentBefore(same, c, j);
    assert Unique(same, c[..j]);
    AppendUnique(hash, same, c[..j], c[j], k);
  }

  lemma AbsentSame<K(!new), V>(hash: K -> nat, same: Same<K>, c: seq<Elem<K, V>>, key: K, k: K)
    requires Compatible(hash, same) && Absent(same, c, key) && same(key, k)
    ensures Lookup(same, c, k) == None
  {
    hide Compatible;
    forall i | 0 <= i < |c| ensures !same(c[i].key, k) {
      SameLaws(hash, same, key, k, k);
      SameLaws(hash, same, c[i].key, k, key);
    }
    LookupAbsent(same, c, k);
  }

  lemma RemoveOne<K, V>(hash: K -> nat, same: Same<K>, c: seq<Elem<K, V>>, i: nat, n: nat, h: int)
    requires i < |c| && n > 0 && Placed(hash, c, n, h) && Unique(same, c)
    ensures Placed(hash, c[..i] + c[i + 1..], n, h) && Unique(same, c[..i] + c[i + 1..])
  {
    var d := c[..i] + c[i + 1..];
    forall j | 0 <= j < |d| ensures d[j] == c[if j < i then j else j + 1] {}
  }

  lemma SameHash<K(!new)>(hash: K -> nat, same: Same<K>, key: K, h: nat, n: nat)
    requires Compatible(hash, same) && n > 0 && h == hash(key) % n
    ensures forall k :: same(key, k) ==> hash(k) % n == h
  {
  }

  lemma {:induction false} NothingStored<K, V>(hash: K -> nat, same: Same<K>, bs: seq<Bucket<K, V>>)
    requires |bs| > 0 && forall i :: 0 <= i < |bs| ==> bs[i].chain == []
    ensures TableOk(hash, same, bs) && Total(bs) == 0 && forall k :: ValueIn(hash, same, bs, k) == None
  {
    NoElements(bs);
  }

  lemma {:induction false} NoElements<K, V>(bs: seq<Bucket<K, V>>)
    requires forall i :: 0 <= i < |bs| ==> bs[i].chain == []
    ensures Total(bs) == 0
    decreases |bs|
  {
    if bs != [] { NoElements(bs[1..]); }
  }
}
