/** The chained byte buffer: fixed-size blocks linked in a list. */
module Streams {
  import opened Basics

  const BUFSIZE: nat := 4096
  const SIZE_MODULUS: int := 0x1_0000_0000_0000_0000

  // ----- Blocks as values -----

  /** Bytes are written at `head` and read at `tail`. */
  datatype Block = Block(data: seq<byte>, tail: int, head: int)

  ghost predicate Ok(b: Block) {
    |b.data| == BUFSIZE && 0 <= b.tail <= b.head <= BUFSIZE && b.tail < BUFSIZE
  }

  ghost function Bytes(b: Block): seq<byte> {
    if Ok(b) then b.data[b.tail..b.head] else []
  }

  /** What a chain of blocks holds. */
  ghost function Content(bs: seq<Block>): seq<byte> {
    if bs == [] then [] else Bytes(bs[0]) + Content(bs[1..])
  }

  /** Blocks before `k` are full, those behind it are empty; only the first one may
      have been read from. */
  ghost predicate Packed(bs: seq<Block>, k: int) {
    forall i :: 0 <= i < |bs| ==>
      Ok(bs[i]) && (i < k ==> bs[i].head == BUFSIZE) && (i > k ==> bs[i].head == 0) && (i > 0 ==> bs[i].tail == 0)
  }

  lemma {:induction false} ContentConcat(a: seq<Block>, b: seq<Block>)
    ensures Content(a + b) == Content(a) + Content(b)
    decreases |a|
  {
    hide Bytes;
    if a == [] {
      assert a + b == b;
    } else {
      assert (a + b)[1..] == a[1..] + b;
      ContentConcat(a[1..], b);
    }
  }

  lemma {:induction false} ContentEmpty(bs: seq<Block>)
    requires forall i :: 0 <= i < |bs| ==> Bytes(bs[i]) == []
    ensures Content(bs) == []
    decreases |bs|
  {
    if bs != [] { ContentEmpty(bs[1..]); }
  }

  lemma NoContent()
    ensures Content([]) == []
  {
  }

  lemma ContentFrom(bs: seq<Block>, k: nat)
    requires k < |bs| && Ok(bs[k])
    ensures Content(bs[k..]) == bs[k].data[bs[k].tail..bs[k].head] + Content(bs[k + 1..])
  {
    assert bs[k..][1..] == bs[k + 1..];
  }

  lemma PeekStep(was: seq<byte>, buf: seq<byte>, data: seq<byte>, tail: nat, head: nat, rest: seq<byte>, block: nat)
    requires tail <= head <= |data| && block <= head - tail && was == buf + (data[tail..head] + rest)
    ensures buf + data[tail..tail + block] <= was
    ensures block == head - tail ==> was == (buf + data[tail..tail + block]) + rest
  {
    var bytes := data[tail..head];
    assert data[tail..tail + block] == bytes[..block];
    assert was == (buf + bytes[..block]) + (bytes[block..] + rest);
  }

  lemma ContentSplit(bs: seq<Block>, k: nat)
    requires k < |bs|
    ensures Content(bs) == Content(bs[..k]) + (Bytes(bs[k]) + Content(bs[k + 1..]))
  {
    hide Bytes;
    assert bs == bs[..k] + bs[k..];
    ContentConcat(bs[..k], bs[k..]);
    assert bs[k..][1..] == bs[k + 1..];
  }

  function Written(b: Block, chunk: seq<byte>): Block
    requires |b.data| == BUFSIZE && 0 <= b.head && b.head + |chunk| <= BUFSIZE
  {
    Block(b.data[..b.head] + chunk + b.data[b.head + |chunk|..], b.tail, b.head + |chunk|)
  }

  lemma WrittenBytes(b: Block, chunk: seq<byte>)
    requires Ok(b) && b.head + |chunk| <= BUFSIZE
    ensures Ok(Written(b, chunk)) && Bytes(Written(b, chunk)) == Bytes(b) + chunk
  {
    var d := Written(b, chunk).data;
    assert d[b.tail..b.head + |chunk|] == d[b.tail..b.head] + d[b.head..b.head + |chunk|];
    assert d[b.tail..b.head] == b.data[b.tail..b.head] && d[b.head..b.head + |chunk|] == chunk;
  }

  /** Writing into block `k` of a packed chain appends. */
  lemma WriteAppends(bs: seq<Block>, k: nat, chunk: seq<byte>)
    requires k < |bs| && Packed(bs, k) && bs[k].head + |chunk| <= BUFSIZE
    ensures Packed(bs[k := Written(bs[k], chunk)], k)
    ensures Content(bs[k := Written(bs[k], chunk)]) == Content(bs) + chunk
  {
    hide Written, Bytes, Content;
    var b := bs[k];
    WrittenBytes(b, chunk);
    WrittenFields(b, chunk);
    var after := bs[k := Written(b, chunk)];
    assert after[..k] == bs[..k] && after[k + 1..] == bs[k + 1..];
    ContentSplit(bs, k);
    ContentSplit(after, k);
    NothingBehind(bs, k);
    ThreeWay(Content(bs[..k]), Bytes(b), chunk);
  }

  lemma WrittenFields(b: Block, chunk: seq<byte>)
    requires Ok(b) && b.head + |chunk| <= BUFSIZE
    ensures Written(b, chunk).tail == b.tail && Written(b, chunk).head == b.head + |chunk|
  {
  }

  lemma ThreeWay(a: seq<byte>, b: seq<byte>, c: seq<byte>)
    ensures a + ((b + c) + []) == (a + (b + [])) + c
  {
  }

  lemma NothingBehind(bs: seq<Block>, k: nat)
    requires k < |bs| && Packed(bs, k)
    ensures Content(bs[k + 1..]) == []
  {
    ContentEmpty(bs[k + 1..]);
  }

  /** A full block hands over to the next one. */
  lemma MoveOn(bs: seq<Block>, k: nat)
    requires k + 1 < |bs| && Packed(bs, k) && bs[k].head == BUFSIZE
    ensures Packed(bs, k + 1) && bs[k + 1].head == 0
  {
  }

  function Emptied(bs: seq<Block>, c: nat): seq<Block>
    requires bs != []
  {
    [bs[0].(tail := bs[0].tail + c)] + bs[1..]
  }

  /** Reading `c` bytes of the first block drops them from the front. */
  lemma ReadDrops(bs: seq<Block>, c: nat)
    requires bs != [] && Packed(bs, |bs| - 1) && c <= bs[0].head - bs[0].tail
    ensures c <= |Content(bs)| && Bytes(bs[0])[..c] == Content(bs)[..c]
    ensures bs[0].tail + c < BUFSIZE ==> Packed(Emptied(bs, c), |bs| - 1) && Content(Emptied(bs, c)) == Content(bs)[c..]
    ensures bs[0].tail + c == BUFSIZE ==> Packed(bs[1..], |bs| - 2) && Content(bs[1..]) == Content(bs)[c..]
  {
    hide Bytes;
    var b := bs[0];
    BytesLength(b);
    assert Content(bs) == Bytes(b) + Content(bs[1..]);
    if b.tail + c < BUFSIZE {
      var after := Emptied(bs, c);
      assert after[1..] == bs[1..];
      TailBytes(b, c);
    }
  }

  lemma BytesLength(b: Block)
    requires Ok(b)
    ensures |Bytes(b)| == b.head - b.tail
  {
  }

  lemma TailBytes(b: Block, c: nat)
    requires Ok(b) && c <= b.head - b.tail && b.tail + c < BUFSIZE
    ensures Bytes(b.(tail := b.tail + c)) == Bytes(b)[c..]
  {
  }

  // ----- How many blocks -----

  /** Blocks that `c` more bytes need when the last block has room for `cap`. */
  function Needed(c: nat, cap: nat): nat {
    if c <= cap then 0 else (c - cap + (BUFSIZE - 1)) / BUFSIZE
  }

  /** The block count as computed in 64-bit unsigned arithmetic. */
  function BlockCount(c: nat, cap: nat): nat {
    (((c - cap) % SIZE_MODULUS + (BUFSIZE - 1)) % SIZE_MODULUS) / BUFSIZE
  }

  /** A request smaller than the room left wraps around twice and gives 0. */
  lemma BlockCountExact(c: nat, cap: nat)
    requires 0 < c && c + (BUFSIZE - 1) < SIZE_MODULUS && cap <= BUFSIZE
    ensures BlockCount(c, cap) == Needed(c, cap)
  {
    if c < cap {
      assert (c - cap) % SIZE_MODULUS == SIZE_MODULUS - (cap - c);
      assert (SIZE_MODULUS - (cap - c) + (BUFSIZE - 1)) % SIZE_MODULUS == BUFSIZE - 1 - (cap - c);
    }
  }

  /** Exactly the blocks needed: one fewer would not hold the bytes. */
  lemma NeededExact(c: nat, cap: nat)
    ensures c <= cap + BUFSIZE * Needed(c, cap)
    ensures Needed(c, cap) > 0 ==> cap + BUFSIZE * (Needed(c, cap) - 1) < c
  {
  }

  lemma AttachEmpty(bs: seq<Block>, more: seq<Block>)
    requires Packed(bs, |bs| - 1) && forall i :: 0 <= i < |more| ==> more[i] == EMPTY
    ensures Packed(bs + more, if bs == [] then 0 else |bs| - 1) && Content(bs + more) == Content(bs)
  {
    ContentConcat(bs, more);
    ContentEmpty(more);
  }

  lemma PackedAt(bs: seq<Block>, k: int, i: nat)
    requires Packed(bs, k) && i < |bs|
    ensures Ok(bs[i])
  {
  }

  /** A chain that cannot lose its first block to reading is read to its end. */
  lemma ReadOut(bs: seq<Block>)
    requires bs != [] && Packed(bs, |bs| - 1) && bs[0].tail == bs[0].head
    ensures Content(bs) == []
  {
    assert |bs| == 1;
    ContentEmpty(bs);
  }

  // ----- The linked chain -----

  const EMPTY: Block := Block(seq(BUFSIZE, _ => 0), 0, 0)

  /** `serial` numbers the nodes in the order in which they are linked. */
  class StreamNode {
    var next: StreamNode?
    var data: seq<byte>
    var tail: int
    var head: int
    ghost const serial: int

    constructor (ghost serial: int)
      ensures next == null && View() == EMPTY && this.serial == serial
    {
      next, data, tail, head := null, seq(BUFSIZE, _ => 0), 0, 0;
      this.serial := serial;
    }

    ghost function View(): Block
      reads this
    {
      Block(data, tail, head)
    }
  }

  /** Node `i` is numbered from `base`, holds block `i` and links to the next node. */
  ghost predicate NodeAt(ns: seq<StreamNode>, base: int, bs: seq<Block>, end: StreamNode?, i: int)
    requires 0 <= i < |ns| == |bs|
    reads ns[i]
  {
    && ns[i].serial == base + i && ns[i].View() == bs[i]
    && ns[i].next == (if i + 1 < |ns| then ns[i + 1] else end)
  }

  ghost predicate Chain(ns: seq<StreamNode>, base: int, bs: seq<Block>, end: StreamNode?)
    reads ns
  {
    |ns| == |bs| && forall i :: 0 <= i < |ns| ==> NodeAt(ns, base, bs, end, i)
  }

  lemma ChainConcat(ns: seq<StreamNode>, ms: seq<StreamNode>, base: int, bs: seq<Block>, cs: seq<Block>)
    requires ms != [] && Chain(ns, base, bs, ms[0]) && Chain(ms, base + |ns|, cs, null)
    ensures Chain(ns + ms, base, bs + cs, null)
  {
    forall i | 0 <= i < |ns + ms| ensures NodeAt(ns + ms, base, bs + cs, null, i) {
      if i < |ns| {
        assert NodeAt(ns, base, bs, ms[0], i);
      } else {
        assert NodeAt(ms, base + |ns|, cs, null, i - |ns|);
      }
    }
  }

  lemma ChainTail(ns: seq<StreamNode>, base: int, bs: seq<Block>)
    requires ns != [] && Chain(ns, base, bs, null)
    ensures Chain(ns[1..], base + 1, bs[1..], null) && ns[0] !in ns[1..]
    ensures NodeAt(ns, base, bs, null, 0)
  {
    forall i | 0 <= i < |ns| - 1 ensures NodeAt(ns[1..], base + 1, bs[1..], null, i) && ns[1..][i] != ns[0] {
      assert NodeAt(ns, base, bs, null, i + 1) && NodeAt(ns, base, bs, null, 0);
    }
  }

  lemma ChainCons(ns: seq<StreamNode>, base: int, bs: seq<Block>)
    requires ns != [] && |ns| == |bs| && Chain(ns[1..], base + 1, bs[1..], null) && NodeAt(ns, base, bs, null, 0)
    ensures Chain(ns, base, bs, null)
  {
    forall i | 0 <= i < |ns| ensures NodeAt(ns, base, bs, null, i) {
      if i > 0 { assert NodeAt(ns[1..], base + 1, bs[1..], null, i - 1); }
    }
  }

  lemma ChainAt(ns: seq<StreamNode>, base: int, bs: seq<Block>, k: nat)
    requires Chain(ns, base, bs, null) && k < |ns|
    ensures NodeAt(ns, base, bs, null, k)
  {
  }

  lemma OtherNodes(ns: seq<StreamNode>, base: int, bs: seq<Block>, k: nat)
    requires Chain(ns, base, bs, null) && k < |ns|
    ensures forall i :: 0 <= i < |ns| && i != k ==> ns[i] != ns[k]
  {
    forall i | 0 <= i < |ns| && i != k ensures ns[i] != ns[k] {
      assert NodeAt(ns, base, bs, null, i) && NodeAt(ns, base, bs, null, k);
    }
  }

  /** Nodes numbered from the end of a chain are not in it. */
  lemma NotInside(ns: seq<StreamNode>, base: int, bs: seq<Block>, ms: seq<StreamNode>, cs: seq<Block>, n: StreamNode)
    requires Chain(ns, base, bs, null) && Chain(ms, base + |ns|, cs, null) && n in ns
    ensures n !in ms
  {
    var k :| 0 <= k < |ns| && ns[k] == n;
    assert NodeAt(ns, base, bs, null, k);
    forall i | 0 <= i < |ms| ensures ms[i] != n { assert NodeAt(ms, base + |ns|, cs, null, i); }
  }

  lemma NoNodes(base: int, end: StreamNode?)
    ensures Chain([], base, [], end)
  {
  }

  /** Links the last node of a chain to `next`. */
  method Link(last: StreamNode, next: StreamNode, ghost ns: seq<StreamNode>, ghost base: int, ghost bs: seq<Block>)
    requires ns != [] && Chain(ns, base, bs, null) && last == ns[|ns| - 1]
    modifies last`next
    ensures Chain(ns, base, bs, next)
  {
    OtherNodes(ns, base, bs, |ns| - 1);
    last.next := next;
    forall i | 0 <= i < |ns| ensures NodeAt(ns, base, bs, next, i) {
      assert old(NodeAt(ns, base, bs, null, i));
    }
  }

  /** Allocates `num` linked nodes, or none when fewer are available. */
  method Allocate(num: nat, available: nat, ghost base: int) returns (chain: StreamNode?, ghost ns: seq<StreamNode>, ghost bs: seq<Block>)
    requires num > 0
    ensures chain == null <==> num > available
    ensures chain != null ==> |ns| == num && chain == ns[0] && Chain(ns, base, bs, null)
    ensures (forall n <- ns :: fresh(n)) && forall i :: 0 <= i < |bs| ==> bs[i] == EMPTY
  {
    chain, ns, bs := null, [], [];
    var last: StreamNode? := null;
    var i := 0;
    while i < num
      invariant 0 <= i <= num && i <= available && |ns| == i && (forall n <- ns :: fresh(n))
      invariant forall k :: 0 <= k < |bs| ==> bs[k] == EMPTY
      invariant last == (if i == 0 then null else ns[i - 1]) && chain == (if i == 0 then null else ns[0])
      invariant (last != null ==> fresh(last)) && Chain(ns, base, bs, null)
    {
      if i == available {
        return null, [], [];
      }
      var ptr := new StreamNode(base + i);
      if last == null {
        chain := ptr;
      } else {
        Link(last, ptr, ns, base, bs);
      }
      ChainConcat(ns, [ptr], base, bs, [EMPTY]);
      last := ptr;
      ns, bs := ns + [ptr], bs + [EMPTY];
      i := i + 1;
    }
  }

  class Stream {
    var first: StreamNode?
    var last: StreamNode?
    var count: nat
    ghost var nodes: seq<StreamNode>
    ghost var blocks: seq<Block>
    ghost var base: int
    ghost var repr: set<StreamNode>

    constructor ()
      ensures Valid() && Contents() == [] && repr == {}
    {
      first, last, count, nodes, blocks, base, repr := null, null, 0, [], [], 0, {};
    }

    ghost function Contents(): seq<byte>
      reads this
    {
      Content(blocks)
    }

    ghost predicate Owned()
      reads this
    {
      forall i :: 0 <= i < |nodes| ==> nodes[i] in repr
    }

    /** The node that is being filled is number `k`. */
    ghost predicate Filling(k: int)
      reads this, repr
    {
      && |nodes| == |blocks| && Owned() && Chain(nodes, base, blocks, null) && Packed(blocks, k) && (k == -1 ==> nodes == []) && -1 <= k < |nodes|
      && first == (if nodes == [] then null else nodes[0])
      && last == (if k == -1 then null else nodes[k])
    }

    /** While reading, `last` is stale once all nodes are gone. */
    ghost predicate Draining()
      reads this, repr
    {
      && |nodes| == |blocks| && Owned() && Chain(nodes, base, blocks, null) && Packed(blocks, |nodes| - 1)
      && first == (if nodes == [] then null else nodes[0])
      && (nodes != [] ==> last == nodes[|nodes| - 1])
    }

    /** Every node but the last is full and every node but the first unread. */
    ghost predicate Valid()
      reads this, repr
    {
      Filling(|nodes| - 1) && count == |Contents()|
    }

    /** Room left in the last node. */
    ghost function Room(): int
      reads this
    {
      if blocks == [] then 0 else BUFSIZE - blocks[|blocks| - 1].head
    }

    /** Copies a chunk into the node that is being filled. */
    method Write(chunk: seq<byte>, ghost k: nat)
      requires k < |nodes| && Filling(k) && blocks[k].head + |chunk| <= BUFSIZE
      modifies this`blocks, last`data, last`head
      ensures Filling(k) && blocks[k].head == old(blocks[k].head) + |chunk| && Contents() == old(Contents()) + chunk
    {
      hide Packed, Content;
      PackedAt(blocks, k, k);
      ChainAt(nodes, base, blocks, k);
      OtherNodes(nodes, base, blocks, k);
      WriteAppends(blocks, k, chunk);
      last.data := last.data[..last.head] + chunk + last.data[last.head + |chunk|..];
      last.head := last.head + |chunk|;
      blocks := blocks[k := Written(blocks[k], chunk)];
      forall i | 0 <= i < |nodes| ensures NodeAt(nodes, base, blocks, null, i) {
        assert old(NodeAt(nodes, base, blocks, null, i));
      }
    }

    /** Copies `data` behind what is there, moving on to the next node when one is full. */
    method Fill(data: seq<byte>, ghost k0: nat)
      requires k0 < |nodes| && Filling(k0) && count == |Contents()| + |data| && data != []
      requires |data| <= BUFSIZE - blocks[k0].head + BUFSIZE * (|nodes| - 1 - k0)
      requires k0 < |nodes| - 1 ==> BUFSIZE - blocks[k0].head + BUFSIZE * (|nodes| - 2 - k0) < |data|
      modifies this`last, this`blocks, repr
      ensures Valid() && Contents() == old(Contents()) + data
    {
      hide Packed, Content, Chain;
      ghost var k: nat := k0;
      var i := 0;
      ghost var was := Contents();
      assert data[..0] == [];
      while i < |data|
        invariant 0 <= i <= |data| && 0 <= k < |nodes| && Filling(k) && Contents() == was + data[..i]
        invariant |data| - i <= BUFSIZE - blocks[k].head + BUFSIZE * (|nodes| - 1 - k)
        invariant k < |nodes| - 1 ==> BUFSIZE - blocks[k].head + BUFSIZE * (|nodes| - 2 - k) < |data| - i
        decreases |data| - i
      {
        ChainAt(nodes, base, blocks, k);
        PackedAt(blocks, k, k);
        var block := BUFSIZE - last.head;
        if block == 0 {
          MoveOn(blocks, k);
          last := last.next;
          k := k + 1;
          block := BUFSIZE;
        }
        if |data| - i < block {
          block := |data| - i;
        }
        Write(data[i..i + block], k);
        assert data[..i + block] == data[..i] + data[i..i + block];
        i := i + block;
      }
      assert data[..i] == data;
      PackedAt(blocks, k, k);
    }

    /** Links an empty chain behind the last node. */
    method Attach(chain: StreamNode, ghost added: seq<StreamNode>, ghost more: seq<Block>)
      requires Valid() && added != [] && chain == added[0] && Chain(added, base + |nodes|, more, null)
      requires forall i :: 0 <= i < |more| ==> more[i] == EMPTY
      modifies this`first, this`last, this`nodes, this`blocks, this`repr, repr
      ensures nodes == old(nodes) + added && repr == old(repr) + set n | n in added
      ensures blocks == old(blocks) + more && Contents() == old(Contents())
      ensures Filling(if old(nodes) == [] then 0 else |old(nodes)| - 1)
    {
      hide Packed, Content, Chain;
      AttachEmpty(blocks, more);
      if last != null {
        NotInside(nodes, base, blocks, added, more, last);
        Link(last, chain, nodes, base, blocks);
      } else {
        first, last := chain, chain;
      }
      assert Chain(nodes, base, blocks, chain) by { NoNodes(base, chain); }
      ChainConcat(nodes, added, base, blocks, more);
      nodes, blocks, repr := nodes + added, blocks + more, repr + set n | n in added;
    }

    /** Appends the bytes, or changes nothing when `available` nodes are too few. */
    method Put(data: seq<byte>, available: nat) returns (ok: bool)
      requires Valid() && |data| + (BUFSIZE - 1) < SIZE_MODULUS
      modifies this, repr
      ensures Valid() && fresh(repr - old(repr))
      ensures ok <==> data == [] || old(Needed(|data|, Room())) <= available
      ensures ok ==> Contents() == old(Contents()) + data
      ensures ok && data != [] ==> |nodes| == old(|nodes| + Needed(|data|, Room()))
      ensures !ok ==> unchanged(this) && forall n <- repr :: unchanged(n)
    {
      hide Packed, Content, Needed, BlockCount, Chain;
      if |data| == 0 {
        assert Contents() + data == Contents();
        return true;
      }
      var cap := 0;
      if last != null {
        ChainAt(nodes, base, blocks, |nodes| - 1);
        PackedAt(blocks, |nodes| - 1, |nodes| - 1);
        cap := BUFSIZE - last.head;
      }
      var num := BlockCount(|data|, cap);
      BlockCountExact(|data|, cap);
      NeededExact(|data|, cap);
      ghost var k := if nodes == [] then 0 else |nodes| - 1;
      if num > 0 {
        var chain: StreamNode?;
        ghost var added: seq<StreamNode>, more: seq<Block>;
        chain, added, more := Allocate(num, available, base + |nodes|);
        if chain == null {
          return false;
        }
        Attach(chain, added, more);
      }
      count := count + |data|;
      Fill(data, k);
      return true;
    }

    /** Drops the first `c0` bytes, or all when there are fewer. */
    method Consume(c0: nat)
      requires Valid()
      modifies this, repr
      ensures Valid() && repr == old(repr) && Contents() == old(Contents()[Min(c0, |Contents()|)..])
    {
      hide Packed, Content;
      ghost var was := Contents();
      var c := c0;
      if c > count {
        c := count;
      }
      count := count - c;
      ghost var n := c;
      var ptr := first;
      assert was[0..] == was;
      while c > 0 && ptr != null
        invariant 0 <= c <= n <= |was| && Draining() && (c > 0 ==> ptr == first)
        invariant Contents() == was[n - c..] && repr == old(repr) && count == |was| - n
        decreases |nodes|, c
      {
        var block, next := Take(c);
        assert was[n - c..][block..] == was[n - c + block..];
        c := c - block;
        ptr := next;
      }
      NoContent();
      if first == null {
        last := null;
      }
    }

    /** Reads and drops up to `c0` bytes. */
    method Get(c0: nat) returns (buf: seq<byte>)
      requires Valid()
      modifies this, repr
      ensures Valid() && repr == old(repr) && old(Contents()) == buf + Contents()
      ensures |buf| == Min(c0, old(count))
    {
      hide Packed, Content, Chain;
      if count == 0 {
        return [];
      }
      var c := c0;
      if c > count {
        c := count;
      }
      buf := Peek(c);
      Consume(c);
    }

    /** Copies the first `c0` bytes. */
    method Peek(c0: nat) returns (buf: seq<byte>)
      requires Valid() && c0 <= count
      ensures buf == Contents()[..c0]
    {
      hide Packed, Content, Chain;
      buf := [];
      var c := c0;
      var ptr := first;
      ghost var k, was := 0, Contents();
      NoContent();
      assert blocks[0..] == blocks;
      while c > 0 && ptr != null
        invariant 0 <= c <= c0 && 0 <= k <= |nodes| && ptr == (if k < |nodes| then nodes[k] else null)
        invariant |buf| == c0 - c && (c > 0 ==> was == buf + Content(blocks[k..])) && buf <= was
        decreases |nodes| - k
      {
        ChainAt(nodes, base, blocks, k);
        PackedAt(blocks, |nodes| - 1, k);
        ContentFrom(blocks, k);
        if ptr.tail != BUFSIZE {
          var block := ptr.head - ptr.tail;
          if c < block {
            block := c;
          }
          PeekStep(was, buf, ptr.data, ptr.tail, ptr.head, Content(blocks[k + 1..]), block);
          buf := buf + ptr.data[ptr.tail..ptr.tail + block];
          c := c - block;
        }
        k := k + 1;
        ptr := ptr.next;
      }
      assert k == |blocks| ==> blocks[k..] == [];
    }

    /** Takes up to `c` bytes off the first node and unlinks it when it is used up. */
    method Take(c: nat) returns (block: nat, next: StreamNode?)
      requires Draining() && first != null && 0 < c <= |Contents()|
      modifies this`first, this`nodes, this`blocks, this`base, repr
      ensures Draining() && |nodes| <= |old(nodes)|
      ensures block <= c && Contents() == old(Contents())[block..]
      ensures |nodes| < |old(nodes)| || block == c
      ensures block < c ==> next == first
    {
      hide Packed, Content, Chain;
      PackedAt(blocks, |nodes| - 1, 0);
      ChainTail(nodes, base, blocks);
      var ptr := first;
      next := ptr.next;
      block := ptr.head - ptr.tail;
      if c < block {
        block := c;
      }
      ReadDrops(blocks, block);
      ptr.tail := ptr.tail + block;
      if ptr.tail == BUFSIZE {
        first := next;
        nodes, blocks, base := nodes[1..], blocks[1..], base + 1;
      } else {
        ghost var was := blocks;
        blocks := Emptied(blocks, block);
        assert blocks[1..] == was[1..];
        ChainCons(nodes, base, blocks);
        if block < c { ReadOut(blocks); }
      }
    }
  }
}
