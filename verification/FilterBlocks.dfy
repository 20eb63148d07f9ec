/** syscall_filter.c: filters under construction are singly linked lists of instruction
    blocks whose head caches the tail and the total length. */
module FilterBlocks {
  import opened BpfMachine

  // The instructions of a list of blocks, in order.
  function Concat(blocks: seq<Code>): Code {
    if blocks == [] then [] else blocks[0] + Concat(blocks[1..])
  }

  lemma {:induction false} ConcatAppend(a: seq<Code>, b: seq<Code>)
    ensures Concat(a + b) == Concat(a) + Concat(b)
  {
    if a == [] {
      assert a + b == b;
    } else {
      assert (a + b)[0] == a[0] && (a + b)[1..] == a[1..] + b;
      ConcatAppend(a[1..], b);
    }
  }

  lemma ConcatSnoc(a: seq<Code>, c: Code)
    ensures Concat(a + [c]) == Concat(a) + c
  {
    ConcatAppend(a, [c]);
    assert [c][1..] == [];
    assert Concat([c]) == c + Concat([c][1..]) == c;
  }

  class FilterBlock {
    var filled: bool          // instrs != NULL
    var instrs: Code
    var len: nat
    var next: FilterBlock?
    var last: FilterBlock?      // meaningful in a list head only
    var totalLen: nat           // meaningful in a list head only
    ghost const owner: int      // which list the block is made for

    // new_filter_block
    constructor (ghost owner: int)
      ensures IsEmpty() && this.owner == owner
    {
      this.owner := owner;
      filled, instrs, len, next, last, totalLen := false, [], 0, null, null, 0;
    }

    ghost predicate IsEmpty()
      reads this
    {
      !filled && next == null && last == null && len == totalLen == 0
    }
  }

  ghost predicate Linked(nodes: seq<FilterBlock>, end: FilterBlock?, i: nat)
    requires i < |nodes|
    reads nodes
  {
    var n := nodes[i];
    n.filled && n.len == |n.instrs| && n.next == if i + 1 < |nodes| then nodes[i + 1] else end
  }

  ghost predicate Distinct(nodes: seq<FilterBlock>) {
    forall i, j :: 0 <= i < j < |nodes| ==> nodes[i] != nodes[j]
  }

  // Distinct nodes linked through `next`, the last one to `end`.
  ghost predicate Segment(nodes: seq<FilterBlock>, end: FilterBlock?)
    reads nodes
  {
    Distinct(nodes) && forall i :: 0 <= i < |nodes| ==> Linked(nodes, end, i)
  }

  lemma SegmentsJoin(a: seq<FilterBlock>, b: seq<FilterBlock>, end: FilterBlock?)
    requires b != [] && Segment(a, b[0]) && Segment(b, end)
    requires forall x :: x in a ==> x !in b
    ensures Segment(a + b, end)
  {
    var c := a + b;
    forall i | 0 <= i < |c| ensures Linked(c, end, i) {
      if i < |a| {
        assert Linked(a, b[0], i);
      } else {
        assert Linked(b, end, i - |a|);
      }
    }
    forall i, j | 0 <= i < j < |c| ensures c[i] != c[j] {
      if i < |a| <= j {
        assert a[i] in a && b[j - |a|] in b;
      }
    }
  }

  ghost function Blocks(nodes: seq<FilterBlock>): (b: seq<Code>)
    reads nodes
    ensures |b| == |nodes|
    ensures forall i :: 0 <= i < |nodes| ==> b[i] == nodes[i].instrs
  {
    seq(|nodes|, i requires 0 <= i < |nodes| reads nodes => nodes[i].instrs)
  }

  /** `head` is a list made of exactly these nodes: its cached tail is the true tail and its
      cached length is the number of instructions. A head without instructions is empty. */
  ghost predicate IsList(head: FilterBlock, nodes: seq<FilterBlock>)
    reads head, nodes
  {
    if nodes == [] then head.IsEmpty()
    else
      && nodes[0] == head
      && Segment(nodes, null)
      && head.last == (if |nodes| == 1 then null else nodes[|nodes| - 1])
      && head.totalLen == |Concat(Blocks(nodes))|
  }

  datatype Listing = NoList | Listing(blocks: seq<Code>)

  /** The blocks of the list `head` made of these nodes. */
  ghost function List(head: FilterBlock, nodes: seq<FilterBlock>): Listing
    reads head, nodes
  {
    if IsList(head, nodes) then Listing(Blocks(nodes)) else NoList
  }

  // A list's nodes after appending: those it had, and new ones of the same owner.
  twostate predicate Grown(head: FilterBlock, nodes: seq<FilterBlock>, new nodes': seq<FilterBlock>) {
    forall i :: 0 <= i < |nodes'| ==>
      nodes'[i] == head || nodes'[i] in nodes || (fresh(nodes'[i]) && nodes'[i].owner == head.owner)
  }

  /** append_filter_block: the list grows by one block at its end. */
  method Append(head: FilterBlock, code: Code, ghost nodes: seq<FilterBlock>)
    returns (ghost nodes': seq<FilterBlock>)
    requires List(head, nodes).Listing?
    modifies head, nodes
    ensures List(head, nodes') == Listing(old(List(head, nodes)).blocks + [code])
    ensures nodes' != [] && Grown(head, nodes, nodes')
  {
    ghost var blocks := Blocks(nodes);
    ConcatSnoc(blocks, code);
    assert nodes != [] ==> Linked(nodes, null, 0);
    if !head.filled {
      head.filled, head.instrs, head.len := true, code, |code|;
      head.totalLen, head.last, head.next := |code|, null, null;
      nodes' := [head];
    } else {
      var newLast := AppendNode(head, code, nodes);
      nodes' := nodes + [newLast];
    }
    assert Blocks(nodes') == blocks + [code];
  }

  // The case of a list that already has a block.
  method AppendNode(head: FilterBlock, code: Code, ghost nodes: seq<FilterBlock>) returns (newLast: FilterBlock)
    requires nodes != [] && IsList(head, nodes)
    modifies head, nodes
    ensures fresh(newLast) && newLast.instrs == code && newLast.owner == head.owner
    ensures nodes[0] == head && Segment(nodes + [newLast], null)
    ensures head.last == newLast && head.totalLen == old(head.totalLen) + |code|
    ensures forall i :: 0 <= i < |nodes| ==> nodes[i].instrs == old(nodes[i].instrs)
  {
    newLast := new FilterBlock(head.owner);
    newLast.filled, newLast.instrs, newLast.len := true, code, |code|;
    newLast.totalLen, newLast.last, newLast.next := |code|, null, null;
    assert Linked(nodes, null, 0);
    if head.next != null {
      head.last.next := newLast;
      head.last := newLast;
    } else {
      head.last, head.next := newLast, newLast;
    }
    head.totalLen := head.totalLen + |code|;
    forall i | 0 <= i < |nodes| ensures Linked(nodes, newLast, i) {
      assert old(Linked(nodes, null, i));
    }
    hide Concat, Blocks;
    assert Linked([newLast], null, 0);
    hide Linked;
    SegmentsJoin(nodes, [newLast], null);
  }

  /** extend_filter_block_list: another list is hung onto the end. The result is again a list
      exactly when the other list has at least two blocks, because the other head's cached
      tail, which a one-block list does not have, becomes the tail. */
  method Extend(list: FilterBlock, another: FilterBlock,
                ghost nodes: seq<FilterBlock>, ghost more: seq<FilterBlock>)
    requires nodes != [] && more != [] && IsList(list, nodes) && IsList(another, more)
    requires forall n :: n in nodes ==> n !in more
    modifies nodes
    ensures Blocks(nodes + more) == old(Blocks(nodes)) + old(Blocks(more))
    ensures IsList(list, nodes + more) <==> |more| >= 2
  {
    hide Segment, Concat, IsList, Blocks;
    ListParts(list, nodes);
    ListParts(another, more);
    ConcatAppend(Blocks(nodes), Blocks(more));
    ExtendLinks(list, another, nodes, more);
    ListByTail(list, nodes + more);
  }

  // What a list caches.
  lemma ListParts(head: FilterBlock, nodes: seq<FilterBlock>)
    requires nodes != [] && IsList(head, nodes)
    ensures nodes[0] == head && head.last == (if |nodes| == 1 then null else nodes[|nodes| - 1])
    ensures head.totalLen == |Concat(Blocks(nodes))|
  {
  }

  // Linked nodes with the right length are a list exactly when the cached tail is right.
  lemma ListByTail(head: FilterBlock, nodes: seq<FilterBlock>)
    requires |nodes| > 1 && nodes[0] == head && Segment(nodes, null) && head.totalLen == |Concat(Blocks(nodes))|
    ensures IsList(head, nodes) <==> head.last == nodes[|nodes| - 1]
  {
  }

  // Extend, for a list of at least two blocks.
  method ExtendList(list: FilterBlock, another: FilterBlock,
                    ghost nodes: seq<FilterBlock>, ghost more: seq<FilterBlock>)
    requires nodes != [] && List(list, nodes).Listing?
    requires List(another, more).Listing? && |List(another, more).blocks| >= 2
    requires forall i :: 0 <= i < |more| ==> more[i] !in nodes
    modifies nodes
    ensures List(list, nodes + more) == Listing(old(List(list, nodes)).blocks + old(List(another, more)).blocks)
  {
    Extend(list, another, nodes, more);
  }

  // The pointer updates of Extend.
  method ExtendLinks(list: FilterBlock, another: FilterBlock,
                     ghost nodes: seq<FilterBlock>, ghost more: seq<FilterBlock>)
    requires nodes != [] && more != [] && IsList(list, nodes) && IsList(another, more)
    requires forall n :: n in nodes ==> n !in more
    modifies nodes
    ensures Segment(nodes + more, null)
    ensures list.last == another.last == old(another.last)
    ensures list.totalLen == old(list.totalLen) + old(another.totalLen)
    ensures Blocks(nodes + more) == old(Blocks(nodes)) + old(Blocks(more))
  {
    ghost var b1, b2, tail := Blocks(nodes), Blocks(more), nodes[|nodes| - 1];
    assert list in nodes && tail in nodes;
    assert Linked(nodes, null, 0);
    assert another in more;
    if list.last != null {
      list.last.next := another;
      list.last := another.last;
    } else {
      list.next := another;
      list.last := another.last;
    }
    list.totalLen := list.totalLen + another.totalLen;
    forall i | 0 <= i < |nodes| ensures Linked(nodes, another, i) {
      assert old(Linked(nodes, null, i));
    }
    forall i | 0 <= i < |more| ensures Linked(more, null, i) {
      assert more[i] in more;
      assert old(Linked(more, null, i));
    }
    SegmentsJoin(nodes, more, null);
    hide Linked;
    BlocksAre(nodes + more, b1 + b2);
  }

  lemma BlocksAre(nodes: seq<FilterBlock>, blocks: seq<Code>)
    requires |blocks| == |nodes| && forall i :: 0 <= i < |nodes| ==> nodes[i].instrs == blocks[i]
    ensures Blocks(nodes) == blocks
  {
  }

  lemma ConcatPrefix(blocks: seq<Code>, i: nat)
    requires i <= |blocks|
    ensures |Concat(blocks[..i])| <= |Concat(blocks)|
  {
    var a, b := blocks[..i], blocks[i..];
    ConcatAppend(a, b);
    assert blocks == a + b;
  }

  lemma ConcatTake(blocks: seq<Code>, i: nat)
    requires i < |blocks|
    ensures Concat(blocks[..i + 1]) == Concat(blocks[..i]) + blocks[i]
  {
    var a, c := blocks[..i], blocks[i];
    ConcatSnoc(a, c);
    assert blocks[..i + 1] == a + [c];
  }

  /** flatten_block_list: copy the instructions of a list, in order, into `filter` from `index`
      on; it fails exactly when they would pass `cap`. */
  method Flatten(head: FilterBlock?, filter: array<Instr>, index: nat, cap: nat, ghost nodes: seq<FilterBlock>)
    returns (ok: bool)
    requires if head == null then nodes == [] else nodes != [] && nodes[0] == head && Segment(nodes, null)
    requires cap <= filter.Length
    modifies filter
    ensures ok <==> Concat(Blocks(nodes)) == [] || index + |Concat(Blocks(nodes))| <= cap
    ensures ok ==> Copied(filter[..], old(filter[..]), index, Concat(Blocks(nodes)))
  {
    ghost var blocks, before := Blocks(nodes), filter[..];
    var curr, at := head, index;
    ghost var done, copied := 0, [];
    assert blocks[..0] == [];
    while curr != null
      invariant done <= |nodes| && curr == if done < |nodes| then nodes[done] else null
      invariant copied == Concat(blocks[..done])
      invariant at == index + |copied|
      invariant at == index || at <= cap
      invariant Copied(filter[..], before, index, copied)
      decreases |nodes| - done
    {
      assert Linked(nodes, null, done);
      ConcatTake(blocks, done);
      ConcatPrefix(blocks, done + 1);
      ghost var mid := filter[..];
      var fits := CopyBlock(curr.instrs, filter, at, cap);
      if !fits {
        return false;
      }
      CopiedTwice(before, mid, filter[..], index, copied, curr.instrs);
      copied := copied + curr.instrs;
      at := at + |curr.instrs|;
      curr := curr.next;
      done := done + 1;
    }
    assert blocks[..done] == blocks;
    ok := true;
  }

  // The inner loop of flatten_block_list.
  method CopyBlock(instrs: Code, filter: array<Instr>, index: nat, cap: nat) returns (ok: bool)
    requires cap <= filter.Length
    modifies filter
    ensures ok <==> instrs == [] || index + |instrs| <= cap
    ensures ok ==> Copied(filter[..], old(filter[..]), index, instrs)
  {
    var i := 0;
    while i < |instrs|
      invariant 0 <= i <= |instrs|
      invariant i > 0 ==> index + i <= cap
      invariant forall j :: 0 <= j < filter.Length ==>
                  filter[j] == if index <= j < index + i then instrs[j - index] else old(filter[j])
    {
      if index + i >= cap {
        return false;
      }
      filter[index + i] := instrs[i];
      i := i + 1;
    }
    ok := true;
  }
}
