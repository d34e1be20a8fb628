/** The packet queue itself: lfq_create, lfq_push and lfq_pop each run on their own, over a buffer of
    packet nodes that are copied in part. */
module PacketQueue {
  import opened Pdef
  import opened ByteOrder
  import opened PowerOfTwo
  import opened Ring

  const DATA_SIZE: nat := 65536

  /** A packet node: only the first caplen bytes of `data` belong to the packet, and `appData` is the place
      of the application data inside `data`, if any. */
  datatype PacketNode = PacketNode(
    header: int, caplen: nat, data: seq<Byte>, srcPort: nat, dstPort: nat,
    appData: Option<int>, appLen: nat, valid: bool)

  ghost predicate WellFormed(n: PacketNode) { |n.data| == DATA_SIZE && n.caplen <= DATA_SIZE }

  /** Copying a node over another: bytes past caplen keep the old contents of the target, and the pointer to
      the application data is rebased, or dropped when the node is not valid. */
  function CopyOf(src: PacketNode, dst: PacketNode): PacketNode
    requires WellFormed(src) && WellFormed(dst)
  {
    PacketNode(src.header, src.caplen, src.data[..src.caplen] + dst.data[src.caplen..], src.srcPort, src.dstPort,
               if src.appData.Some? && src.valid then src.appData else None, src.appLen, src.valid)
  }

  /** What a node tells a reader. */
  function View(n: PacketNode): PacketNode
    requires WellFormed(n)
  {
    n.(data := n.data[..n.caplen], appData := if n.valid then n.appData else None)
  }

  /** A copy shows a reader what the original shows, and has a place for the application data only when it is valid. */
  lemma CopyView(src: PacketNode, dst: PacketNode)
    requires WellFormed(src) && WellFormed(dst)
    ensures WellFormed(CopyOf(src, dst)) && View(CopyOf(src, dst)) == View(src)
    ensures CopyOf(src, dst).appData.Some? <==> src.appData.Some? && src.valid
  {
    assert CopyOf(src, dst).data[..src.caplen] == src.data[..src.caplen];
  }

  /** Two nodes show a reader the same exactly when they agree in everything but the bytes that are not part of the
      packet and, where the packet is not valid, the place of the application data. */
  lemma ViewsExactly(a: PacketNode, b: PacketNode)
    requires WellFormed(a) && WellFormed(b)
    ensures View(a) == View(b) <==>
      a.header == b.header && a.caplen == b.caplen && a.data[..a.caplen] == b.data[..b.caplen] &&
      a.srcPort == b.srcPort && a.dstPort == b.dstPort && a.appLen == b.appLen && a.valid == b.valid &&
      (a.valid ==> a.appData == b.appData)
  {
  }

  /** What a reader sees of the nodes at positions r to w. */
  function Unread(nodes: seq<PacketNode>, r: nat, w: nat): (c: seq<PacketNode>)
    requires nodes != [] && r <= w && forall i :: 0 <= i < |nodes| ==> WellFormed(nodes[i])
    ensures |c| == w - r
    decreases w - r
  {
    if r == w then [] else [View(nodes[r % |nodes|])] + Unread(nodes, r + 1, w)
  }

  /** A node written at position w joins the unread nodes and changes none of them. */
  lemma {:induction false} UnreadPush(nodes: seq<PacketNode>, r: nat, w: nat, node: PacketNode)
    requires nodes != [] && r <= w < r + |nodes| && forall i :: 0 <= i < |nodes| ==> WellFormed(nodes[i])
    requires WellFormed(node)
    ensures Unread(nodes[w % |nodes| := node], r, w + 1) == Unread(nodes, r, w) + [View(node)]
    decreases w - r
  {
    hide View;
    var more := nodes[w % |nodes| := node];
    if r == w {
      assert Unread(more, w + 1, w + 1) == [];
    } else {
      DifferentSlots(r, w, |nodes|);
      UnreadPush(nodes, r + 1, w, node);
    }
  }

  class LockFreeQueue {
    const capacity: nat
    const mask: nat
    const buffer: array<PacketNode>
    /** The exponent of the capacity. */
    ghost const exponent: nat
    var writePos: nat
    var readPos: nat

    ghost predicate Valid()
      reads this, buffer
    {
      capacity == Pow2(exponent) == buffer.Length && mask == capacity - 1 &&
      readPos <= writePos <= readPos + capacity &&
      forall i :: 0 <= i < buffer.Length ==> WellFormed(buffer[i])
    }

    /** What has been pushed and not yet popped. */
    ghost function Contents(): (c: seq<PacketNode>)
      requires Valid()
      reads this, buffer
      ensures |c| == writePos - readPos
    {
      Unread(buffer[..], readPos, writePos)
    }

    /** Room for at least the requested number of nodes: the least power of two that is. */
    constructor (requested: nat, blank: PacketNode)
      requires 0 < requested <= TWO_TO_32 / 2 && WellFormed(blank)
      ensures Valid() && Contents() == [] && fresh(buffer)
      ensures LeastPower(requested, capacity, exponent)
    {
      var rounded := NextPowerOf2(requested);
      ghost var k :| LeastPower(requested, rounded, k);
      capacity := rounded;
      mask := rounded - 1;
      exponent := k;
      buffer := new PacketNode[rounded](_ => blank);
      writePos, readPos := 0, 0;
    }

    method Push(item: PacketNode) returns (ok: bool)
      requires Valid() && WellFormed(item)
      modifies this`writePos, buffer
      ensures Valid() && ok == (|old(Contents())| < capacity)
      ensures Contents() == if ok then old(Contents()) + [View(item)] else old(Contents())
    {
      hide View, Unread, CopyOf;
      var w := writePos;
      var r := readPos;
      if w - r >= capacity {
        return false;
      }
      MaskIsRemainder(w, exponent);
      var index := BitAnd(w, mask);
      CopyView(item, buffer[index]);
      UnreadPush(buffer[..], r, w, CopyOf(item, buffer[index]));
      buffer[index] := CopyOf(item, buffer[index]);
      writePos := w + 1;
      return true;
    }

    method Pop(into: PacketNode) returns (ok: bool, item: PacketNode)
      requires Valid() && WellFormed(into)
      modifies this`readPos
      ensures Valid() && ok == (old(Contents()) != [])
      ensures !ok ==> Contents() == old(Contents()) && item == into
      ensures ok ==> WellFormed(item) && [View(item)] + Contents() == old(Contents())
    {
      hide View, CopyOf;
      item := into;
      var r := readPos;
      var w := writePos;
      if r >= w {
        return false, item;
      }
      MaskIsRemainder(r, exponent);
      var index := BitAnd(r, mask);
      CopyView(buffer[index], into);
      item := CopyOf(buffer[index], into);
      readPos := r + 1;
      return true, item;
    }
  }
}
