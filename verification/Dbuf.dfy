/**
 The dynamic byte queue of `src/dbuf.c`: a list of fixed-size blocks, filled at the
 back and shifted at the front, that must behave as one flat byte string.
 */
module Dbuf {
  import opened Framing
  import Ring
  import Seqs

  const DBUF_BLOCK_SIZE := 4072 + 4096

  // ---------------------------------------------------------------------
  // Lists of chunks and the byte string they stand for.

  function Flat(chunks: seq<seq<byte>>): seq<byte> {
    if chunks == [] then [] else Flat(chunks[..|chunks| - 1]) + chunks[|chunks| - 1]
  }

  lemma {:induction false} FlatAppend(a: seq<seq<byte>>, b: seq<seq<byte>>)
    ensures Flat(a + b) == Flat(a) + Flat(b)
  {
    if b == [] {
      assert a + b == a;
    } else {
      var n := |b| - 1;
      FlatAppend(a, b[..n]);
      assert (a + b)[..|a + b| - 1] == a + b[..n];
      FlatLast(a + b);
      FlatLast(b);
      hide Flat;
      Seqs.Assoc(Flat(a), Flat(b[..n]), b[n]);
    }
  }

  lemma FlatLast(chunks: seq<seq<byte>>)
    requires chunks != []
    ensures var n := |chunks| - 1; Flat(chunks) == Flat(chunks[..n]) + chunks[n]
  {
  }

  lemma FlatNone()
    ensures Flat([]) == []
  {
  }

  lemma FlatOne(c: seq<byte>)
    ensures Flat([c]) == c
  {
    assert [c][..0] == [];
    assert Flat([]) + c == c;
  }

  lemma FlatSplit(chunks: seq<seq<byte>>, k: nat)
    requires k < |chunks|
    ensures Flat(chunks) == Flat(chunks[..k]) + chunks[k] + Flat(chunks[k + 1..])
  {
    hide Flat;
    FlatOne(chunks[k]);
    FlatAppend(chunks[..k], [chunks[k]]);
    Seqs.TakeOneMore(chunks, k);
    FlatAppend(chunks[..k + 1], chunks[k + 1..]);
    Seqs.TakeDrop(chunks, k + 1);
  }

  lemma TakeMore(s: seq<byte>, t: seq<byte>, n: nat, m: nat)
    requires n + m <= |t|
    ensures s + t[..n] + t[n..][..m] == s + t[..n + m]
  {
    Seqs.Assoc(s, t[..n], t[n..][..m]);
    assert t[..n] + t[n..][..m] == t[..n + m];
  }

  lemma TakeStart(s: seq<byte>, t: seq<byte>)
    ensures s == s + t[..0] && s + t[..|t|] == s + t
  {
    assert t[..|t|] == t;
  }

  /** t is what is left of s behind the first k bytes. */
  ghost predicate Rest(t: seq<byte>, s: seq<byte>, k: nat) {
    k <= |s| && t == s[k..]
  }

  lemma RestAll(s: seq<byte>)
    ensures Rest(s, s, 0)
  {
  }

  lemma RestDrop(t: seq<byte>, s: seq<byte>, k: nat, n: nat)
    requires Rest(t, s, k) && n <= |t|
    ensures Rest(t[n..], s, k + n)
  {
    Seqs.DropDrop(s, k, n);
  }

  lemma RestSize(t: seq<byte>, s: seq<byte>, k: nat)
    requires Rest(t, s, k)
    ensures |t| == |s| - k
  {
  }

  /** No chunk is empty or too large, and every chunk that is neither first nor last is full. */
  predicate WellFilled(chunks: seq<seq<byte>>) {
    && (forall k | 0 <= k < |chunks| :: 1 <= |chunks[k]| <= DBUF_BLOCK_SIZE)
    && (forall k | 0 < k < |chunks| - 1 :: |chunks[k]| == DBUF_BLOCK_SIZE)
  }

  /** Well filled, up to a last chunk that is about to be filled. */
  predicate Fillable(chunks: seq<seq<byte>>) {
    && chunks != []
    && var n := |chunks| - 1;
    && (forall k | 0 <= k < n :: 1 <= |chunks[k]| <= DBUF_BLOCK_SIZE)
    && (forall k | 0 < k < n :: |chunks[k]| == DBUF_BLOCK_SIZE)
  }

  /** More bytes in the last chunk. */
  ghost function Extended(chunks: seq<seq<byte>>, bytes: seq<byte>): seq<seq<byte>>
    requires chunks != []
  {
    chunks[|chunks| - 1 := chunks[|chunks| - 1] + bytes]
  }

  /** The first n bytes gone from the first chunk. */
  ghost function Shortened(chunks: seq<seq<byte>>, n: nat): seq<seq<byte>>
    requires chunks != [] && n <= |chunks[0]|
  {
    chunks[0 := chunks[0][n..]]
  }

  lemma FillKeepsFilled(chunks: seq<seq<byte>>, bytes: seq<byte>)
    requires Fillable(chunks)
    requires bytes != [] && |chunks[|chunks| - 1]| + |bytes| <= DBUF_BLOCK_SIZE
    ensures WellFilled(Extended(chunks, bytes)) && Fillable(Extended(chunks, bytes))
  {
  }

  lemma AppendKeepsFillable(chunks: seq<seq<byte>>)
    requires Fillable(chunks) && |chunks[|chunks| - 1]| == DBUF_BLOCK_SIZE
    ensures Fillable(chunks + [[]])
  {
  }

  lemma ShortenKeepsFilled(chunks: seq<seq<byte>>, n: nat)
    requires WellFilled(chunks) && chunks != [] && n < |chunks[0]|
    ensures WellFilled(Shortened(chunks, n))
  {
  }

  lemma DropFirstKeepsFilled(chunks: seq<seq<byte>>)
    requires WellFilled(chunks) && chunks != []
    ensures WellFilled(chunks[1..]) && |chunks[0]| >= 1
    ensures Flat(chunks) == chunks[0] + Flat(chunks[1..])
    ensures chunks[1..] == [] <==> Flat(chunks[1..]) == []
  {
    FirstChunk(chunks);
    BlockCountBound(chunks[1..]);
  }

  lemma {:induction false} FullLength(chunks: seq<seq<byte>>)
    requires forall k | 0 <= k < |chunks| :: |chunks[k]| == DBUF_BLOCK_SIZE
    ensures |Flat(chunks)| == |chunks| * DBUF_BLOCK_SIZE
  {
    if chunks != [] {
      FullLength(chunks[..|chunks| - 1]);
    }
  }

  /** Storage is bounded by contents: n blocks (n >= 2) hold at least 2 + (n-2) * DBUF_BLOCK_SIZE
      bytes, and one block holds at least one. */
  lemma BlockCountBound(chunks: seq<seq<byte>>)
    requires WellFilled(chunks)
    ensures |chunks| >= 2 ==> |chunks| <= 2 + (|Flat(chunks)| - 2) / DBUF_BLOCK_SIZE
    ensures |chunks| == 0 <==> Flat(chunks) == []
  {
    hide Flat;
    FlatNone();
    var n := |chunks|;
    if n == 1 {
      FirstChunk(chunks);
    }
    if n >= 2 {
      var middle := chunks[1..n - 1];
      FlatSplit(chunks, 0);
      FlatSplit(chunks[1..], n - 2);
      assert chunks[1..][..n - 2] == middle;
      assert chunks[1..][n - 2] == chunks[n - 1];
      FullLength(middle);
      assert |Flat(chunks)| >= 2 + (n - 2) * DBUF_BLOCK_SIZE;
    }
  }

  /** Extending the last chunk extends the byte string. */
  lemma ExtendLast(chunks: seq<seq<byte>>, bytes: seq<byte>)
    requires chunks != []
    ensures Flat(Extended(chunks, bytes)) == Flat(chunks) + bytes
  {
    var n := |chunks| - 1;
    var longer := Extended(chunks, bytes);
    assert longer[..n] == chunks[..n];
    Seqs.Assoc(Flat(chunks[..n]), chunks[n], bytes);
  }

  lemma AppendEmpty(chunks: seq<seq<byte>>)
    ensures Flat(chunks + [[]]) == Flat(chunks)
  {
    FlatAppend(chunks, [[]]);
    FlatOne([]);
  }

  /** Dropping bytes from the first chunk drops them from the byte string. */
  lemma ShortenFirst(chunks: seq<seq<byte>>, n: nat)
    requires chunks != [] && n <= |chunks[0]|
    ensures n <= |Flat(chunks)|
    ensures Flat(Shortened(chunks, n)) == Flat(chunks)[n..]
  {
    FirstChunk(chunks);
    var shorter := Shortened(chunks, n);
    FirstChunk(shorter);
    assert shorter[1..] == chunks[1..];
    Seqs.DropConcat(chunks[0], Flat(chunks[1..]), n);
  }

  lemma ShortenRest(chunks: seq<seq<byte>>, n: nat, s: seq<byte>, k: nat)
    requires WellFilled(chunks) && chunks != [] && n < |chunks[0]| && Rest(Flat(chunks), s, k)
    ensures WellFilled(Shortened(chunks, n)) && Rest(Flat(Shortened(chunks, n)), s, k + n)
    ensures |Flat(chunks)| == n + |Flat(Shortened(chunks, n))|
  {
    hide Flat, WellFilled, Rest, Shortened;
    ShortenFirst(chunks, n);
    ShortenKeepsFilled(chunks, n);
    RestDrop(Flat(chunks), s, k, n);
  }

  lemma DropRest(chunks: seq<seq<byte>>, s: seq<byte>, k: nat)
    requires WellFilled(chunks) && chunks != [] && Rest(Flat(chunks), s, k)
    ensures WellFilled(chunks[1..]) && |chunks[0]| > 0 && Rest(Flat(chunks[1..]), s, k + |chunks[0]|)
    ensures |Flat(chunks)| == |chunks[0]| + |Flat(chunks[1..])|
  {
    hide Flat, WellFilled, Rest;
    DropFirstKeepsFilled(chunks);
    RestDrop(Flat(chunks), s, k, |chunks[0]|);
    Seqs.DropConcat(chunks[0], Flat(chunks[1..]), |chunks[0]|);
    Seqs.EmptyUnits(Flat(chunks[1..]));
  }

  lemma FirstChunk(chunks: seq<seq<byte>>)
    requires chunks != []
    ensures Flat(chunks) == chunks[0] + Flat(chunks[1..])
  {
    FlatSplit(chunks, 0);
    Seqs.EmptyUnits(chunks[0]);
  }

  /** Where chunk k sits in the byte string. */
  lemma ChunkPlace(chunks: seq<seq<byte>>, k: nat)
    requires k < |chunks|
    ensures var start := |Flat(chunks[..k])|;
      && start + |chunks[k]| == |Flat(chunks[..k + 1])| <= |Flat(chunks)|
      && Flat(chunks)[start..start + |chunks[k]|] == chunks[k]
  {
    FlatSplit(chunks, k);
    assert chunks[..k + 1][..k] == chunks[..k];
  }

  // ---------------------------------------------------------------------
  // The structure itself.

  class Block {
    var size: nat
    const data: array<byte>

    constructor ()
      ensures size == 0 && fresh(data) && data.Length == DBUF_BLOCK_SIZE
    {
      size := 0;
      data := new byte[DBUF_BLOCK_SIZE];
    }

    ghost predicate Holds(bytes: seq<byte>)
      reads this, data
    {
      && data.Length == DBUF_BLOCK_SIZE
      && size == |bytes| <= DBUF_BLOCK_SIZE
      && data[..size] == bytes
    }

    /** The memcpy of dbuf_put: copies bytes behind the contents. */
    method Append(bytes: seq<byte>, ghost held: seq<byte>)
      requires Holds(held) && size + |bytes| <= DBUF_BLOCK_SIZE
      modifies this, data
      ensures Holds(held + bytes)
    {
      forall i | 0 <= i < |bytes| {
        data[size + i] := bytes[i];
      }
      size := size + |bytes|;
    }

    /** The memmove of dbuf_delete: drops the first n bytes and moves the rest down. */
    method Shift(n: nat, ghost held: seq<byte>)
      requires Holds(held) && n <= size
      modifies this, data
      ensures Holds(held[n..])
    {
      size := size - n;
      forall i | 0 <= i < size {
        data[i] := data[n + i];
      }
    }
  }

  /** Every node is a member of its block, and nothing is shared. */
  ghost predicate Owned(repr: set<object>, nodes: seq<Ring.Node>, blocks: seq<Block>) {
    && |nodes| == |blocks|
    && (forall n | n in nodes :: n in repr)
    && (forall b | b in blocks :: b in repr && b.data in repr)
    && (forall k | 0 <= k < |blocks| :: nodes[k].owner == blocks[k])
    && (forall i, j | 0 <= i < j < |blocks| :: blocks[i] != blocks[j] && blocks[i].data != blocks[j].data)
  }

  lemma OwnAppend(repr: set<object>, nodes: seq<Ring.Node>, blocks: seq<Block>, n: Ring.Node, b: Block)
    requires Owned(repr, nodes, blocks) && b !in repr && b.data !in repr && n.owner == b
    ensures Owned(repr + {n, b, b.data}, nodes + [n], blocks + [b])
  {
    assert forall x | x in blocks :: x != b && x.data != b.data;
  }

  lemma OwnRest(repr: set<object>, nodes: seq<Ring.Node>, blocks: seq<Block>)
    requires Owned(repr, nodes, blocks) && blocks != []
    ensures Owned(repr, nodes[1..], blocks[1..])
  {
  }

  ghost predicate HoldAll(blocks: seq<Block>, chunks: seq<seq<byte>>)
    reads blocks, set b | b in blocks :: b.data
  {
    |blocks| == |chunks| && forall k | 0 <= k < |blocks| :: blocks[k] in blocks && blocks[k].Holds(chunks[k])
  }

  lemma HoldAppend(blocks: seq<Block>, chunks: seq<seq<byte>>, b: Block, c: seq<byte>)
    requires HoldAll(blocks, chunks) && b.Holds(c)
    ensures HoldAll(blocks + [b], chunks + [c])
  {
  }

  lemma HoldRest(blocks: seq<Block>, chunks: seq<seq<byte>>)
    requires HoldAll(blocks, chunks) && blocks != []
    ensures HoldAll(blocks[1..], chunks[1..])
  {
  }

  /** Block k now holds something else. */
  lemma HoldUpdate(blocks: seq<Block>, k: nat, chunks: seq<seq<byte>>, c: seq<byte>)
    requires k < |blocks| == |chunks| && blocks[k].Holds(c)
    requires forall i | 0 <= i < |blocks| && i != k :: blocks[i].Holds(chunks[i])
    ensures HoldAll(blocks, chunks[k := c])
  {
  }

  class Queue {
    var length: nat
    const list: Ring.Node             // head of the list of blocks
    ghost var nodes: seq<Ring.Node>   // the entries of the list
    ghost var blocks: seq<Block>      // the blocks that they are members of
    ghost var chunks: seq<seq<byte>>  // what each block holds
    ghost var repr: set<object>       // all these nodes, blocks and their data

    /** The list leads through the blocks, and they hold the chunks. */
    ghost predicate Shape()
      reads this`nodes, this`blocks, this`chunks, this`repr, repr
    {
      && this !in repr && list in repr && Owned(repr, nodes, blocks)
      && Ring.Ring(list, nodes) && HoldAll(blocks, chunks)
    }

    ghost predicate Valid()
      reads this, repr
    {
      && Shape()
      && WellFilled(chunks)
      && length == |Contents()|
    }

    /** The flat byte string the queue stands for. */
    ghost function Contents(): seq<byte>
      reads this`chunks
    {
      Flat(chunks)
    }

    /** dbuf_queue_init */
    constructor ()
      ensures Valid() && Contents() == [] && fresh(repr)
    {
      length := 0;
      var head := new Ring.Node(null);
      list := head;
      nodes, blocks, chunks, repr := [], [], [], {head};
    }

    /** The node at position i, where the head comes behind the last one. */
    ghost function NodeAt(i: nat): Ring.Node
      reads this`nodes
    {
      if i < |nodes| then nodes[i] else list
    }

    /** Walking the list. */
    lemma Walk(i: nat)
      requires Shape() && i <= |blocks|
      ensures list.next == NodeAt(0)
      ensures NodeAt(i) == list <==> i == |blocks|
      ensures i < |blocks| ==> NodeAt(i).next == NodeAt(i + 1) && NodeAt(i).owner == blocks[i]
    {
      hide Ring.Ring, HoldAll;
      Ring.LengthTests(list, nodes);
      Ring.NotHead(list, nodes);
      if i < |nodes| {
        assert nodes[i] in nodes;
        Ring.InverseAt(list, nodes, i + 1);
      }
    }

    lemma SameLength()
      requires Shape()
      ensures |chunks| == |blocks|
    {
    }

    lemma At(k: nat)
      requires Shape() && k < |blocks|
      ensures |chunks| == |blocks| && blocks[k].Holds(chunks[k])
      ensures blocks[k] in repr && blocks[k].data in repr
    {
      hide Ring.Ring;
    }

    /** The nodes that operations at the ends of the list touch. */
    lemma BackOwned()
      requires Shape()
      ensures list.prev in repr
    {
      hide Ring.Ring, HoldAll;
      Ring.MutualInverses(list, nodes, list);
    }

    lemma FrontOwned()
      requires Shape() && blocks != []
      ensures |nodes| == |blocks| && list.next == nodes[0] && nodes[0] in repr
      ensures nodes[0].prev == list && nodes[0].next in repr
    {
      hide Ring.Ring, HoldAll;
      Ring.LengthTests(list, nodes);
      Ring.MutualInverses(list, nodes, list);
      Ring.MutualInverses(list, nodes, nodes[0]);
    }

    /** container_of the head's next node. */
    method First() returns (block: Block)
      requires Shape() && blocks != []
      ensures |chunks| == |blocks| && block == blocks[0] && block.Holds(chunks[0])
    {
      hide Shape;
      Walk(0);
      At(0);
      return list.next.owner as Block;
    }

    /** container_of the head's previous node. */
    method Last() returns (block: Block)
      requires Shape() && blocks != []
      ensures |chunks| == |blocks| && block == blocks[|blocks| - 1] && block.Holds(chunks[|blocks| - 1])
    {
      At(|blocks| - 1);
      hide HoldAll, Ring.Ring;
      Ring.LengthTests(list, nodes);
      return list.prev.owner as Block;
    }

    /** A block and its list_head. */
    method NewBlock() returns (n: Ring.Node, ghost bs: seq<Block>, ghost r: set<object>)
      requires Owned(repr, nodes, blocks) && HoldAll(blocks, chunks)
      ensures repr <= r && fresh(r - repr) && fresh(n)
      ensures Owned(r, nodes + [n], bs) && HoldAll(bs, chunks + [[]])
    {
      hide HoldAll, Owned;
      var b := new Block();
      n := new Ring.Node(b);
      assert b.Holds([]);
      bs, r := blocks + [b], repr + {n, b, b.data};
      OwnAppend(repr, nodes, blocks, n, b);
      HoldAppend(blocks, chunks, b, []);
    }

    /** dbuf_alloc: a new empty block at the back. */
    method Alloc()
      requires Shape()
      modifies this`nodes, this`blocks, this`chunks, this`repr, repr
      ensures Shape() && fresh(repr - old(repr)) && chunks == old(chunks) + [[]]
    {
      BackOwned();
      hide Ring.Ring, HoldAll, Owned;
      ghost var cs := chunks + [[]];
      var n, bs, r := NewBlock();
      LinkLast(n, list, nodes, bs, cs);
      nodes, blocks, chunks, repr := nodes + [n], bs, cs, r;
    }

    /** Linking and unlinking nodes leaves the contents of blocks alone. */
    static method LinkLast(n: Ring.Node, head: Ring.Node, ghost nodes: seq<Ring.Node>,
                           ghost blocks: seq<Block>, ghost chunks: seq<seq<byte>>)
      requires Ring.Ring(head, nodes) && n !in nodes && n != head && HoldAll(blocks, chunks)
      modifies n, head, head.prev
      ensures Ring.Ring(head, nodes + [n]) && HoldAll(blocks, chunks)
    {
      hide Ring.Ring, HoldAll;
      Ring.ListAddTail(n, head, nodes);
    }

    static method Unlink(node: Ring.Node, ghost head: Ring.Node, ghost rest: seq<Ring.Node>,
                         ghost blocks: seq<Block>, ghost chunks: seq<seq<byte>>)
      requires Ring.Ring(head, [node] + rest) && HoldAll(blocks, chunks)
      modifies node, node.prev, node.next
      ensures Ring.Ring(head, rest) && HoldAll(blocks, chunks)
    {
      hide Ring.Ring, HoldAll;
      Seqs.EmptyUnits([node] + rest);
      Seqs.EmptyUnits(rest);
      Ring.ListDel(node, head, [], rest);
    }

    /** dbuf_free: unlinks the first block. */
    method FreeFirst()
      requires Shape() && blocks != [] && |blocks| == |chunks|
      modifies this`nodes, this`blocks, this`chunks, repr
      ensures Shape() && repr == old(repr) && chunks == old(chunks[1..])
    {
      FrontOwned();
      SameLength();
      hide Ring.Ring, HoldAll, Owned;
      OwnRest(repr, nodes, blocks);
      HoldRest(blocks, chunks);
      ghost var ns, bs, cs := nodes[1..], blocks[1..], chunks[1..];
      Seqs.FirstRest(nodes);
      Unlink(list.next, list, ns, bs, cs);
      nodes, blocks, chunks := ns, bs, cs;
    }

    /** Copies bytes behind the contents of the last block. */
    method FillLast(bytes: seq<byte>)
      requires Shape() && blocks != []
      requires |blocks| == |chunks| && |chunks[|blocks| - 1]| + |bytes| <= DBUF_BLOCK_SIZE
      modifies this`chunks, repr
      ensures Shape()
      ensures chunks == old(Extended(chunks, bytes))
    {
      hide Ring.Ring;
      ghost var last := |blocks| - 1;
      var block := Last();
      block.Append(bytes, chunks[last]);
      HoldUpdate(blocks, last, chunks, chunks[last] + bytes);
      chunks := chunks[last := chunks[last] + bytes];
    }

    /** Drops the first n bytes of the first block. */
    method ShiftFirst(n: nat)
      requires Shape() && blocks != [] && |blocks| == |chunks| && n <= |chunks[0]|
      modifies this`chunks, repr
      ensures Shape() && repr == old(repr)
      ensures chunks == old(Shortened(chunks, n))
    {
      hide Ring.Ring;
      var block := First();
      block.Shift(n, chunks[0]);
      HoldUpdate(blocks, 0, chunks, chunks[0][n..]);
      chunks := chunks[0 := chunks[0][n..]];
    }

    /** dbuf_put: appends. */
    method Put(buf: seq<byte>)
      requires Valid() && |buf| > 0
      modifies this, repr
      ensures Valid() && fresh(repr - old(repr))
      ensures Contents() == old(Contents()) + buf
    {
      StartPut();
      hide Shape, Flat, WellFilled, Fillable;
      TakeStart(old(Contents()), buf);
      var done := 0;
      while done < |buf|
        invariant done <= |buf|
        invariant Shape() && fresh(repr - old(repr)) && Fillable(chunks)
        invariant done > 0 ==> WellFilled(chunks)
        invariant Contents() == old(Contents()) + buf[..done]
        invariant length == |Contents()|
      {
        var amount := PutSome(buf[done..]);
        TakeMore(old(Contents()), buf, done, amount);
        done := done + amount;
      }
    }

    /** Before the loop of dbuf_put: there is a block. */
    method StartPut()
      requires Valid()
      modifies this`nodes, this`blocks, this`chunks, this`repr, repr
      ensures Shape() && fresh(repr - old(repr)) && Fillable(chunks) && Contents() == old(Contents())
    {
      hide Shape;
      SameLength();
      Walk(0);
      if Ring.ListEmpty(list) {
        AppendEmpty(chunks);
        Alloc();
      }
    }

    /** Makes room at the back: appends a block when the last one is full. */
    method Room() returns (room: nat)
      requires Shape() && Fillable(chunks)
      modifies this`nodes, this`blocks, this`chunks, this`repr, repr
      ensures Shape() && fresh(repr - old(repr)) && Fillable(chunks)
      ensures Contents() == old(Contents())
      ensures room == DBUF_BLOCK_SIZE - |chunks[|chunks| - 1]| > 0
    {
      hide Flat;
      var block := Last();
      assert block.Holds(chunks[|blocks| - 1]);
      room := DBUF_BLOCK_SIZE - block.size;
      if room == 0 {
        AppendEmpty(chunks);
        AppendKeepsFillable(chunks);
        Alloc();
        assert blocks[|blocks| - 1].Holds([]);
        room := DBUF_BLOCK_SIZE;
      }
    }

    /** One round of dbuf_put. */
    method PutSome(buf: seq<byte>) returns (amount: nat)
      requires Shape() && Fillable(chunks) && buf != []
      modifies this, repr
      ensures Shape() && fresh(repr - old(repr)) && WellFilled(chunks) && Fillable(chunks)
      ensures 0 < amount <= |buf|
      ensures Contents() == old(Contents()) + buf[..amount]
      ensures length == old(length) + amount
    {
      amount := Room();
      assert chunks != [];
      hide Flat, Shape, WellFilled, Fillable, Extended;
      if amount > |buf| {
        amount := |buf|;
      }
      SameLength();
      var part := buf[..amount];
      ExtendLast(chunks, part);
      FillKeepsFilled(chunks, part);
      FillLast(part);
      length := length + amount;
    }

    /** One round of dbuf_delete: drops the first block. */
    method DropBlock(ghost s: seq<byte>, ghost k: nat)
      requires Valid() && blocks != [] && |blocks| == |chunks| && Rest(Contents(), s, k)
      modifies this, repr
      ensures Valid() && repr == old(repr)
      ensures |old(chunks[0])| > 0 && Rest(Contents(), s, k + |old(chunks[0])|)
    {
      assert this !in repr;
      hide Flat, WellFilled, Shape, Rest;
      DropRest(chunks, s, k);
      var size := FirstSize();
      ghost var rest := chunks[1..];
      hide Contents;
      length := length - size;
      FreeFirst();
      assert chunks == rest;
      ContentsAre();
    }

    lemma ContentsAre()
      ensures Contents() == Flat(chunks)
    {
    }

    /** The end of dbuf_delete: drops bytes from the first block. */
    method DropBytes(n: nat, ghost s: seq<byte>, ghost k: nat)
      requires Valid() && blocks != [] && |blocks| == |chunks| && Rest(Contents(), s, k)
      requires n < |chunks[0]|
      modifies this, repr
      ensures Valid() && repr == old(repr) && Rest(Contents(), s, k + n)
    {
      assert this !in repr;
      hide Flat, WellFilled, Shape, Rest, Shortened;
      ShortenRest(chunks, n, s, k);
      ghost var rest := Shortened(chunks, n);
      hide Contents;
      length := length - n;
      ShiftFirst(n);
      assert chunks == rest;
      ContentsAre();
    }

    method FirstSize() returns (size: nat)
      requires Valid() && blocks != []
      ensures |chunks| == |blocks| && size == |chunks[0]|
    {
      hide Flat, Shape;
      var block := First();
      return block.size;
    }

    /** dbuf_delete: drops the first n bytes. */
    method Delete(n: nat)
      requires Valid() && n <= length
      modifies this, repr
      ensures Valid() && repr == old(repr)
      ensures Contents() == old(Contents())[n..]
    {
      ghost var s := Contents();
      DeleteFrom(n, s);
    }

    /** Its loop. */
    method DeleteFrom(n: nat, ghost s: seq<byte>)
      requires Valid() && n <= length && s == Contents()
      modifies this, repr
      ensures Valid() && repr == old(repr) && Rest(Contents(), s, n)
    {
      hide Flat, Valid, Rest;
      RestAll(s);
      BlocksLeft();
      var left: nat := n;
      while left > 0
        invariant Valid() && repr == old(repr) && left <= n && Rest(Contents(), s, n - left)
        decreases left
      {
        RestSize(Contents(), s, n - left);
        BlocksLeft();
        var size := FirstSize();
        if left < size {
          DropBytes(left, s, n - left);
          return;
        }
        DropBlock(s, n - left);
        left := left - size;
      }
    }

    /** There are blocks as long as there are bytes. */
    lemma BlocksLeft()
      requires Valid()
      ensures length == |Contents()| && (|Contents()| > 0 ==> blocks != [])
    {
      SameLength();
      BlockCountBound(chunks);
    }

    /** Stores byte c at the line's end, unless the line is already cut. */
    static method CopyByte(buf: array<byte>, line: nat, c: byte)
      requires buf.Length >= READBUFSIZE - 1
      modifies buf
      ensures buf[..Kept(line + 1)] == old(buf[..Kept(line)]) + if line < MAX_MESSAGE then [c] else []
    {
      if line < MAX_MESSAGE {
        buf[line] := c;
      }
    }

    /** The inner loop of dbuf_getmsg: scans one block, stopping at the byte behind a complete line. */
    static method ScanBlock(block: Block, buf: array<byte>, phase0: nat, line0: nat, empty0: nat,
                            ghost s: seq<byte>, ghost start: nat, ghost chunk: seq<byte>)
      returns (phase: nat, line: nat, empty: nat, stopped: bool)
      requires block.Holds(chunk) && block.data != buf && buf.Length >= READBUFSIZE - 1
      requires start + |chunk| <= |s| && s[start..start + |chunk|] == chunk
      requires Scanned(s, start, phase0, line0, empty0) && Copied(s, phase0, line0, buf[..Kept(line0)])
      modifies buf
      ensures Copied(s, phase, line, buf[..Kept(line)])
      ensures if stopped then ScanDone(s, line + empty, line) && phase == 2
              else Scanned(s, start + |chunk|, phase, line, empty)
    {
      hide Extract, ScanDone, Scanned, Copied;
      phase, line, empty, stopped := phase0, line0, empty0, false;
      var idx := 0;
      while idx < block.size
        invariant idx <= block.size
        invariant Scanned(s, start + idx, phase, line, empty)
        invariant Copied(s, phase, line, buf[..Kept(line)])
      {
        var c := block.data[idx];
        assert c == chunk[idx] == s[start + idx];
        ScanStep(s, start + idx, phase, line, empty);
        if c == CR || c == LF || (c == SPACE && phase != 1) {
          empty := empty + 1;
          CopiedStill(s, line, buf[..Kept(line)], phase);
          if phase == 1 {
            phase := 2;
          }
        } else if phase < 2 {
          CopyStep(s, start + idx, phase, line, empty, buf[..Kept(line)]);
          phase := 1;
          CopyByte(buf, line, c);
          line := line + 1;
        } else {
          stopped := true;
          return;
        }
        idx := idx + 1;
      }
    }

    /** What is at position i of the list. */
    lemma Visit(i: nat)
      requires Valid() && i < |blocks| == |chunks|
      ensures NodeAt(i).owner == blocks[i] && blocks[i].Holds(chunks[i]) && blocks[i].data in repr
      ensures var start := |Flat(chunks[..i])|;
        && start + |chunks[i]| == |Flat(chunks[..i + 1])| <= |Contents()|
        && Contents()[start..start + |chunks[i]|] == chunks[i]
    {
      hide Flat, WellFilled, Shape;
      Walk(i);
      At(i);
      ChunkPlace(chunks, i);
    }

    /** The body of the outer loop of dbuf_getmsg. */
    method ScanNode(node: Ring.Node, ghost i: nat, buf: array<byte>, phase0: nat, line0: nat, empty0: nat)
      returns (phase: nat, line: nat, empty: nat, stopped: bool)
      requires Valid() && i < |blocks| == |chunks| && node == NodeAt(i)
      requires buf.Length >= READBUFSIZE - 1 && buf !in repr
      requires Scanned(Contents(), |Flat(chunks[..i])|, phase0, line0, empty0)
      requires Copied(Contents(), phase0, line0, buf[..Kept(line0)])
      modifies buf
      ensures Valid() && Copied(Contents(), phase, line, buf[..Kept(line)])
      ensures if stopped then ScanDone(Contents(), line + empty, line) && phase == 2
              else Scanned(Contents(), |Flat(chunks[..i + 1])|, phase, line, empty)
    {
      hide ScanDone, Scanned, Copied, WellFilled, Flat, Shape;
      Visit(i);
      phase, line, empty, stopped := ScanBlock(node.owner as Block, buf, phase0, line0, empty0,
                                               Contents(), |Flat(chunks[..i])|, chunks[i]);
    }

    /** The loops of dbuf_getmsg: only the caller's buffer is written. */
    method Scan(buf: array<byte>) returns (phase: nat, line: nat, empty: nat)
      requires Valid() && buf.Length >= READBUFSIZE - 1 && buf !in repr
      modifies buf
      ensures Valid() && Copied(Contents(), phase, line, buf[..Kept(line)])
      ensures if phase == 2 then ScanDone(Contents(), line + empty, line)
              else Extract(Contents()) == Extraction([], empty)
    {
      SameLength();
      hide Extract, ScanDone, Scanned, Copied, WellFilled, Flat, Shape;
      ghost var s := Contents();
      var stopped := false;
      line, empty, phase := 0, 0, 0;
      ScanStart(s, buf[..0]);
      Walk(0);
      var node := list.next;
      ghost var i := 0;
      assert chunks[..0] == [] && Flat([]) == [] by { FlatNone(); }
      while node != list && !stopped
        invariant i <= |blocks| && Valid() && node == NodeAt(i)
        invariant Copied(s, phase, line, buf[..Kept(line)])
        invariant if stopped then ScanDone(s, line + empty, line) && phase == 2
                  else Scanned(s, |Flat(chunks[..i])|, phase, line, empty)
        decreases |blocks| - i
      {
        Walk(i);
        phase, line, empty, stopped := ScanNode(node, i, buf, phase, line, empty);
        node, i := node.next, i + 1;
      }
      Walk(i);
      if !stopped {
        assert chunks[..i] == chunks;
        ScanEnd(s, phase, line, empty);
      }
    }

    /** dbuf_getmsg: extracts the first complete message into buf and drops what the scan consumed. */
    method GetMsg(buf: array<byte>) returns (r: nat)
      requires Valid() && buf.Length >= READBUFSIZE - 1 && buf !in repr
      modifies this, repr, buf
      ensures Valid() && fresh(repr - old(repr))
      ensures var x := Extract(old(Contents()));
        && Contents() == old(Contents())[x.dropped..]
        && r == |x.msg|
        && buf[..r] == x.msg && buf[r] == 0
    {
      hide Extract, LeadingBlanks, WellFilled, Flat;
      var phase, line, empty := Scan(buf);
      ghost var x := Extract(Contents());
      if phase != 2 {
        line := 0;
        buf[0] := 0;
      } else {
        CopiedLine(Contents(), line, buf[..Kept(line)]);
        buf[Kept(line)] := 0;
      }
      Delete(line + empty);
      return Kept(line);
    }

    /** The first loop of dbuf_get: the room needed. */
    method Size() returns (bytes: nat)
      requires Valid()
      ensures bytes == |Contents()|
    {
      SameLength();
      hide Flat, WellFilled, Shape;
      FlatNone();
      bytes := 0;
      Walk(0);
      var node := list.next;
      ghost var i := 0;
      assert chunks[..0] == [];
      while node != list
        invariant i <= |blocks| && node == NodeAt(i)
        invariant bytes == |Flat(chunks[..i])|
        decreases |blocks| - i
      {
        Walk(i);
        Visit(i);
        var block := node.owner as Block;
        bytes := bytes + block.size;
        node, i := node.next, i + 1;
      }
      Walk(i);
      assert chunks[..i] == chunks;
    }

    /** The memcpy of dbuf_get. */
    static method CopyBlock(b: Block, buf: array<byte>, d: nat, ghost chunk: seq<byte>) returns (d': nat)
      requires b.Holds(chunk) && b.data != buf && d + |chunk| <= buf.Length
      modifies buf
      ensures d' == d + |chunk| && buf[..d'] == old(buf[..d]) + chunk
    {
      d' := d + b.size;
      forall k | 0 <= k < b.size {
        buf[d + k] := b.data[k];
      }
      assert forall k | 0 <= k < |chunk| :: buf[d + k] == chunk[k];
    }

    /** The body of the second loop of dbuf_get. */
    method CopyNode(node: Ring.Node, ghost i: nat, buf: array<byte>, d: nat) returns (d': nat)
      requires Valid() && i < |blocks| == |chunks| && node == NodeAt(i)
      requires buf !in repr && buf.Length == |Contents()| + 1
      requires d == |Flat(chunks[..i])| <= |Contents()| && buf[..d] == Contents()[..d]
      modifies buf
      ensures Valid() && d' == |Flat(chunks[..i + 1])| <= |Contents()| && buf[..d'] == Contents()[..d']
    {
      hide WellFilled, Flat, Shape;
      Visit(i);
      d' := CopyBlock(node.owner as Block, buf, d, chunks[i]);
      assert Contents()[..d'] == Contents()[..d] + chunks[i];
    }

    /** The second loop of dbuf_get: copies the blocks out one after the other. */
    method CopyOut(buf: array<byte>)
      requires Valid() && buf !in repr && buf.Length == |Contents()| + 1
      modifies buf
      ensures Valid() && buf[..|Contents()|] == Contents() && buf[|Contents()|] == 0
    {
      SameLength();
      hide Flat, WellFilled, Shape, Block.Holds;
      FlatNone();
      var d := 0;
      Walk(0);
      var node := list.next;
      ghost var i := 0;
      assert chunks[..0] == [];
      while node != list
        invariant i <= |blocks| && Valid() && node == NodeAt(i)
        invariant d == |Flat(chunks[..i])| <= |Contents()|
        invariant buf[..d] == Contents()[..d]
        decreases |blocks| - i
      {
        Walk(i);
        d := CopyNode(node, i, buf, d);
        node, i := node.next, i + 1;
      }
      Walk(i);
      Seqs.TakeAll(chunks);
      Seqs.TakeAll(Contents());
      buf[d] := 0;
    }

    /** dbuf_get: moves all contents to a new zero-terminated string. */
    method Get() returns (buf: array<byte>, bytes: nat)
      requires Valid()
      modifies this, repr
      ensures Valid() && fresh(repr - old(repr)) && Contents() == []
      ensures fresh(buf) && bytes == |old(Contents())| && buf.Length == bytes + 1
      ensures buf[..bytes] == old(Contents()) && buf[bytes] == 0
    {
      hide Flat, WellFilled;
      bytes := Size();
      buf := new byte[bytes + 1];
      CopyOut(buf);
      Delete(bytes);
    }

    /** Any interleaving of arrivals and extractions behaves as Framing.Run does on flat strings. */
    method Execute(ops: seq<Op>) returns (delivered: seq<seq<byte>>)
      requires Valid() && forall op | op in ops && op.Put? :: op.chunk != []
      modifies this, repr
      ensures Valid() && fresh(repr - old(repr))
      ensures Outcome(delivered, Contents()) == Run(old(Contents()), ops)
      decreases ops
    {
      hide Extract, WellFilled, Flat;
      if ops == [] {
        return [];
      }
      match ops[0]
      case Put(chunk) =>
        Put(chunk);
        delivered := Execute(ops[1..]);
      case GetMsg =>
        var buf := new byte[READBUFSIZE];
        var r := GetMsg(buf);
        var first := if r == 0 then [] else [buf[..r]];
        var later := Execute(ops[1..]);
        delivered := first + later;
    }
  }
}
