/** The allocator of uuconf: regions handed out of a chain of blocks (uuconf/alloc.c), given back
    (uuconf/free.c), lists of further buffers whose nodes are regions themselves (uuconf/addblk.c),
    chains joined (uuconf/mrgblk.c) and released (uuconf/freblk.c). */
module Arena {
  import opened Wrappers

  const CALLOC_SIZE: nat := 1008

  /** sizeof (double) and sizeof (struct sadded). */
  const ALIGN: nat := 8
  const NODE_SIZE: nat := 16

  /** A pointer into a block. */
  datatype Ptr = Ptr(block: Block, off: nat)

  /** What malloc and uuconf_malloc return; what malloc itself returns is numbered. */
  datatype Memory = Region(at: Ptr) | Heap(n: int)

  /** A list of added buffers, from malloc; each node is in the arena, at a pointer. Nodes are never
      changed once they are linked. */
  datatype List = Nil | Node(at: Ptr, padded: int, next: List)

  ghost function Nodes(l: List): set<Ptr> {
    if l.Nil? then {} else {l.at} + Nodes(l.next)
  }

  /** No node comes twice. */
  ghost predicate Straight(l: List) {
    l.Node? ==> l.at !in Nodes(l.next) && Straight(l.next)
  }

  function Buffers(l: List): seq<int> {
    if l.Nil? then [] else [l.padded] + Buffers(l.next)
  }

  /** The buffers in several lists, in the order of the lists. */
  function AllBuffers(lists: seq<List>): seq<int> {
    if lists == [] then [] else Buffers(lists[0]) + AllBuffers(lists[1..])
  }

  predicate Different(s: seq<int>) { forall i, j | 0 <= i < j < |s| :: s[i] != s[j] }

  lemma DifferentTogether(s: seq<int>, t: seq<int>)
    ensures Different(s + t) <==> Different(s) && Different(t) && forall x | x in s :: x !in t
  {
    var all := s + t;
    assert forall i | 0 <= i < |t| :: t[i] == all[|s| + i];
    if Different(all) {
      forall i, j | 0 <= i < j < |s| ensures s[i] != s[j] { assert all[i] != all[j]; }
      forall i, j | 0 <= i < j < |t| ensures t[i] != t[j] { assert all[|s| + i] != all[|s| + j]; }
      forall x | x in s ensures x !in t {
        var i :| 0 <= i < |s| && s[i] == x;
        forall j | 0 <= j < |t| ensures t[j] != x { assert all[i] != all[|s| + j]; }
      }
    } else if Different(s) && Different(t) {
      var i, j :| 0 <= i < j < |all| && all[i] == all[j];
      assert s[i] in s && s[i] == t[j - |s|];
    }
  }

  /** An empty list behind the others adds nothing, and one buffer more in the first is the first. */
  lemma BuffersAdded(was: seq<List>, now: seq<List>, first: seq<int>)
    requires 0 < |was| <= |now| && Buffers(now[0]) == first + Buffers(was[0])
    requires (forall i | 1 <= i < |was| :: now[i] == was[i]) && forall i | |was| <= i < |now| :: now[i] == Nil
    ensures AllBuffers(now) == first + AllBuffers(was)
  {
    SameBehind(was, now);
    BuffersTogether(was[1..], now[|was|..]);
    NoBuffers(now[|was|..]);
    Regroup(first, Buffers(was[0]), AllBuffers(was[1..]));
  }

  lemma Regroup<T>(a: seq<T>, b: seq<T>, c: seq<T>)
    ensures a + (b + c) == (a + b) + c
  {
  }

  lemma SameBehind(was: seq<List>, now: seq<List>)
    requires 0 < |was| <= |now| && forall i | 1 <= i < |was| :: now[i] == was[i]
    ensures now[1..] == was[1..] + now[|was|..]
  {
  }

  lemma {:induction false} NoBuffers(lists: seq<List>)
    requires forall i | 0 <= i < |lists| :: lists[i] == Nil
    ensures AllBuffers(lists) == []
  {
    if lists != [] { NoBuffers(lists[1..]); }
  }

  lemma {:induction false} BuffersTogether(ls: seq<List>, ms: seq<List>)
    ensures AllBuffers(ls + ms) == AllBuffers(ls) + AllBuffers(ms)
  {
    if ls == [] {
      assert ls + ms == ms;
    } else {
      assert (ls + ms)[1..] == ls[1..] + ms;
      BuffersTogether(ls[1..], ms);
    }
  }

  function Aligned(c: nat): (a: nat)
    ensures a % ALIGN == 0 && c <= a < c + ALIGN
  {
    (c + ALIGN - 1) / ALIGN * ALIGN
  }

  class Block {
    var next: Block?
    var ifree: nat
    var plast: Option<Memory>
    var added: List
    /** The size of the buffer, and the regions in use: offset and length. */
    ghost const size: nat
    ghost var live: map<nat, nat>
    /** Which of them hold list nodes. */
    ghost var pinned: set<nat>
    ghost var released: bool

    constructor (ghost size: nat)
      requires size >= CALLOC_SIZE
      ensures next == null && ifree == 0 && plast == None && added == Nil
      ensures this.size == size && live == map[] && pinned == {} && !released
    {
      this.size := size;
      next, ifree, plast, added := null, 0, None, Nil;
      live, pinned, released := map[], {}, false;
    }

    /** Regions in use are inside the buffer, aligned and apart from each other; the last one that
        was allocated is the topmost, and if it is out of use, rolled back. */
    ghost predicate Ok()
      reads this
    {
      && !released && CALLOC_SIZE <= size && ifree <= size && ifree % ALIGN == 0
      && (forall o | o in live :: o % ALIGN == 0 && live[o] > 0 && o + live[o] <= ifree)
      && (forall o, p | o in live && p in live && o < p :: o + live[o] <= p)
      && (plast.Some? ==> plast.value.Region? && plast.value.at.block == this && IsTop(plast.value.at.off))
      && pinned <= live.Keys
    }

    ghost predicate IsTop(o: nat)
      reads this
    {
      o + (if o in live then live[o] else 0) == ifree
    }

    /** A region at the end of what is used. */
    method Take(c: nat) returns (p: Ptr)
      requires Ok() && c > 0 && c % ALIGN == 0 && ifree + c <= size
      modifies this
      ensures Ok() && p == Ptr(this, old(ifree)) && p.off !in old(live) && live == old(live)[p.off := c]
      ensures unchanged(this`next, this`added, this`pinned, this`released)
      ensures plast == Some(Region(p)) && ifree == p.off + c
    {
      p := Ptr(this, ifree);
      live := live[ifree := c];
      ifree := ifree + c;
      plast := Some(Region(p));
    }

    /** The last region is out of use, if it was not before. */
    method RollBack(o: nat)
      requires Ok() && o !in pinned && plast == Some(Region(Ptr(this, o)))
      modifies this`ifree, this`live
      ensures Ok() && live == old(live) - {o} && ifree == o
    {
      ifree := o;
      live := live - {o};
    }

    /** Another region is out of use, and lost. */
    ghost method Drop(o: nat)
      requires Ok() && o !in pinned && plast != Some(Region(Ptr(this, o)))
      modifies this`live
      ensures Ok() && live == old(live) - {o}
    {
      live := live - {o};
    }
  }

  // ---------- chains ----------

  ghost predicate Distinct(chain: seq<Block>) {
    forall i, j | 0 <= i < j < |chain| :: chain[i] != chain[j]
  }

  /** Each block leads to the next, and the last one to end. */
  ghost predicate Leads(chain: seq<Block>, end: Block?)
    requires chain != []
    reads chain
  {
    && (forall i, j | 0 <= i < j < |chain| && j == i + 1 :: chain[i].next == chain[j])
    && chain[|chain| - 1].next == end
  }

  /** The blocks from q on. */
  ghost predicate Linked(q: Block?, chain: seq<Block>)
    reads chain
  {
    && Distinct(chain)
    && q == (if chain == [] then null else chain[0])
    && (chain != [] ==> Leads(chain, null))
  }

  lemma Successor(chain: seq<Block>, i: nat)
    requires i < |chain| && Leads(chain, null)
    ensures chain[i].next == if i + 1 < |chain| then chain[i + 1] else null
  {
    if i + 1 < |chain| { assert chain[i].next == chain[i + 1]; }
  }

  /** The nodes of a list are regions of blocks of the chain that are never given back. */
  ghost predicate Listed(l: List, chain: seq<Block>)
    reads chain
  {
    forall p | p in Nodes(l) :: p.block in chain && p.off in p.block.pinned
  }

  /** The lists of a chain have no node in common. */
  ghost predicate Apart(chain: seq<Block>)
    reads chain
  {
    forall b, c | b in chain && c in chain && b != c :: Nodes(b.added) !! Nodes(c.added)
  }

  ghost function Lists(chain: seq<Block>): (lists: seq<List>)
    reads chain
    ensures |lists| == |chain| && forall i | 0 <= i < |chain| :: lists[i] == chain[i].added
  {
    seq(|chain|, i requires 0 <= i < |chain| reads chain => chain[i].added)
  }

  /** The buffers that the chain will release. */
  ghost function Contents(chain: seq<Block>): seq<int>
    reads chain
  {
    AllBuffers(Lists(chain))
  }

  ghost predicate Valid(q: Block?, chain: seq<Block>)
    reads chain
  {
    && Linked(q, chain) && Apart(chain)
    && forall b | b in chain :: b.Ok() && Listed(b.added, chain) && Straight(b.added)
  }

  /** Blocks whose lists stay as they are. */
  twostate predicate SameLists(chain: seq<Block>)
    reads chain
  {
    forall b | b in chain :: b.pinned == old(b.pinned) && b.added == old(b.added)
  }

  twostate predicate SameLive(chain: seq<Block>)
    reads chain
  {
    forall b | b in chain :: b.live == old(b.live)
  }

  /** A new block at the end of the chain. */
  method Extend(q: Block, last: Block, n: nat, ghost chain: seq<Block>) returns (b: Block, ghost more: seq<Block>)
    requires Valid(q, chain) && chain != [] && last == chain[|chain| - 1]
    modifies last`next
    ensures fresh(b) && more == chain + [b] && Valid(q, more) && SameLists(chain) && SameLive(chain)
    ensures b.ifree == 0 && b.size >= n && b.live == map[] && b.pinned == {} && b.added == Nil
  {
    b := new Block(if n > CALLOC_SIZE then n else CALLOC_SIZE);
    more := chain + [b];
    assert Valid(b, [b]);
    Join(q, last, b, chain, [b]);
  }

  /** A region in a block of the chain. */
  method TakeIn(q: Block?, b: Block, n: nat, ghost chain: seq<Block>) returns (p: Ptr)
    requires Valid(q, chain) && b in chain && n > 0 && n % ALIGN == 0 && b.ifree + n <= b.size
    modifies b
    ensures Valid(q, chain) && SameLists(chain)
    ensures b.plast == Some(Region(p)) && b.ifree == p.off + n
    ensures p == Ptr(b, old(b.ifree)) && p.off !in old(b.live) && b.live == old(b.live)[p.off := n]
  {
    p := b.Take(n);
  }

  /** The first block from q on with room for n more, or else the last block. */
  method FindRoom(q: Block, n: nat, ghost chain: seq<Block>) returns (b: Block, ghost i: nat)
    requires Valid(q, chain)
    ensures i < |chain| && b == chain[i] && forall k | 0 <= k < i :: chain[k].ifree + n > CALLOC_SIZE
    ensures b.ifree + n <= CALLOC_SIZE || i == |chain| - 1
  {
    b := q;
    i := 0;
    while b.ifree + n > CALLOC_SIZE && b.next != null
      invariant i < |chain| && b == chain[i] && forall k | 0 <= k < i :: chain[k].ifree + n > CALLOC_SIZE
      modifies {}
      decreases |chain| - i
    {
      Successor(chain, i);
      b := b.next;
      i := i + 1;
    }
    Successor(chain, i);
  }

  /** uuconf_malloc; malloced is what malloc returns if it is called. The chain may grow by a block. */
  method Malloc(pblock: Block?, c: nat, malloced: Option<int>, ghost chain: seq<Block>)
    returns (pret: Option<Memory>, ghost more: seq<Block>)
    requires Valid(pblock, chain)
    modifies chain
    ensures Valid(pblock, more) && SameLists(chain)
    ensures pret == None <==> c == 0 || (malloced == None && old(Full(chain, Aligned(c))))
    ensures pblock == null && pret.Some? ==> pret == Some(Heap(malloced.value))
    ensures pret == None || pblock == null ==> more == chain && SameLive(chain)
    ensures more == chain || exists b :: fresh(b) && more == chain + [b] && b.pinned == {} && b.added == Nil
                                        && old(Full(chain, Aligned(c))) && pret == Some(Region(Ptr(b, 0)))
    ensures pret.Some? && pblock != null ==>
              && pret.value.Region?
              && var p := pret.value.at;
              && p.block in more && (p.block in chain ==> p.off !in old(p.block.live))
              && p.block.plast == pret && p.block.ifree == p.off + Aligned(c)
              && p.block.live == (if p.block in chain then old(p.block.live) else map[])[p.off := Aligned(c)]
              && forall b | b in chain && b != p.block :: b.live == old(b.live)
  {
    more, pret := chain, None;
    if c == 0 {
      return;
    }
    if pblock == null {
      if malloced.Some? { pret := Some(Heap(malloced.value)); }
      return;
    }
    var n := Aligned(c);
    var q;
    ghost var i;
    q, i := FindRoom(pblock, n, chain);
    if q.ifree + n > CALLOC_SIZE {
      assert Full(chain, n);
      if malloced == None {
        return;
      }
      q, more := Extend(pblock, q, n, chain);
    } else {
      assert q in chain && !Full(chain, n);
    }
    var p := TakeIn(pblock, q, n, more);
    pret := Some(Region(p));
  }

  /** No block has room for n more. */
  ghost predicate Full(chain: seq<Block>, n: nat)
    reads chain
  {
    forall b | b in chain :: b.ifree + n > CALLOC_SIZE
  }

  /** Where in the block a pointer points. */
  function Offsets(p: Option<Memory>, b: Block): set<nat> {
    if p.Some? && p.value.Region? && p.value.at.block == b then {p.value.at.off} else {}
  }

  /** uuconf_free: the region, if it is one in use, is out of use; it can be used again if it was the
      last of its block. The result is what is passed to free. */
  method Free(pblock: Block?, pbuf: Option<Memory>, ghost chain: seq<Block>) returns (freed: Option<Memory>)
    requires Valid(pblock, chain) && forall b | b in chain :: Offsets(pbuf, b) !! b.pinned
    modifies chain
    ensures Valid(pblock, chain) && SameLists(chain)
    ensures freed == if pblock == null then pbuf else None
    ensures forall b | b in chain :: b.live == old(b.live) - Offsets(pbuf, b)
    ensures forall b | b in chain ::
              b.ifree == if pbuf.Some? && old(b.plast) == pbuf then pbuf.value.at.off else old(b.ifree)
  {
    freed := None;
    if pbuf == None {
      return;
    }
    if pblock == null {
      return pbuf;
    }
    var q := FindLast(pblock, pbuf, chain);
    if pbuf.value.Region? {
      GiveBackIn(pblock, q, pbuf.value.at, chain);
    }
  }

  /** The block whose last region this was, if there is one. */
  method FindLast(pblock: Block, pbuf: Option<Memory>, ghost chain: seq<Block>) returns (q: Block?)
    requires Valid(pblock, chain) && pbuf.Some?
    ensures q != null ==> q in chain && q.plast == pbuf && pbuf.value.Region? && q == pbuf.value.at.block
    ensures q == null ==> forall b | b in chain :: b.plast != pbuf
  {
    q := pblock;
    ghost var i := 0;
    while q != null && q.plast != pbuf
      invariant 0 <= i <= |chain| && (q == null <==> i == |chain|) && (i < |chain| ==> q == chain[i])
      invariant forall k | 0 <= k < i :: chain[k].plast != pbuf
      modifies {}
      decreases |chain| - i
    {
      Successor(chain, i);
      q := q.next;
      i := i + 1;
    }
    assert q != null ==> q in chain && q.Ok();
  }

  /** The block found rolls back; its plast is left as it is. */
  method GiveBackIn(pblock: Block, q: Block?, pbuf: Ptr, ghost chain: seq<Block>)
    requires Valid(pblock, chain)
    requires pbuf.block in chain ==> pbuf.off !in pbuf.block.pinned
    requires q != null ==> q in chain && q == pbuf.block && q.plast == Some(Region(pbuf))
    requires q == null ==> forall b | b in chain :: b.plast != Some(Region(pbuf))
    modifies chain
    ensures Valid(pblock, chain) && SameLists(chain)
    ensures forall b | b in chain :: b.live == old(b.live) - Offsets(Some(Region(pbuf)), b)
    ensures forall b | b in chain ::
              b.ifree == if old(b.plast) == Some(Region(pbuf)) then pbuf.off else old(b.ifree)
  {
    if q != null {
      q.RollBack(pbuf.off);
    } else if pbuf.block in chain {
      pbuf.block.Drop(pbuf.off);
    }
  }

  /** uuconf_add_block: the list node is a region, so it lives as long as the arena. The buffers stay
      different exactly if this one is in no list yet. */
  method AddBlock(pblock: Block, padd: int, malloced: Option<int>, ghost chain: seq<Block>)
    returns (failed: bool, ghost more: seq<Block>)
    requires Valid(pblock, chain)
    modifies chain
    ensures Valid(pblock, more) && (more == chain || exists b :: fresh(b) && more == chain + [b])
    ensures Contents(more) == (if failed then [] else [padd]) + old(Contents(chain))
    ensures Different(Contents(more)) <==>
              Different(old(Contents(chain))) && (failed || padd !in old(Contents(chain)))
    ensures failed <==> malloced == None && old(Full(chain, NODE_SIZE))
    ensures Buffers(pblock.added) == (if failed then [] else [padd]) + Buffers(old(pblock.added))
    ensures forall b | b in chain && b != pblock :: b.added == old(b.added)
    ensures forall b, o | b in chain && o in old(b.live) :: o in b.live && b.live[o] == old(b.live[o])
  {
    ghost var was, first := Lists(chain), [padd];
    failed, more := AddNode(pblock, padd, malloced, chain);
    if failed { first := []; }
    BuffersAdded(was, Lists(more), first);
    DifferentTogether(first, AllBuffers(was));
  }

  method AddNode(pblock: Block, padd: int, malloced: Option<int>, ghost chain: seq<Block>)
    returns (failed: bool, ghost more: seq<Block>)
    requires Valid(pblock, chain)
    modifies chain
    ensures Valid(pblock, more) && (more == chain || exists b :: fresh(b) && more == chain + [b])
    ensures failed <==> malloced == None && old(Full(chain, NODE_SIZE))
    ensures Buffers(pblock.added) == (if failed then [] else [padd]) + Buffers(old(pblock.added))
    ensures pblock == chain[0] == more[0] && forall b | b in chain && b != pblock :: b.added == old(b.added)
    ensures forall i | |chain| <= i < |more| :: more[i].added == Nil
    ensures forall b, o | b in chain && o in old(b.live) :: o in b.live && b.live[o] == old(b.live[o])
  {
    var qnew;
    qnew, more := Malloc(pblock, NODE_SIZE, malloced, chain);
    failed := qnew == None;
    assert pblock == chain[0];
    if !failed {
      Pin(pblock, qnew.value.at, padd, more);
    }
  }

  method Pin(q: Block, p: Ptr, padd: int, ghost chain: seq<Block>)
    requires Valid(q, chain) && p.block in chain && p.off in p.block.live && p.off !in p.block.pinned
    modifies q, p.block
    ensures Valid(q, chain) && q.added == Node(p, padd, old(q.added))
    ensures forall b | b in chain && b != q :: b.added == old(b.added)
    ensures forall b | b in chain :: b.live == old(b.live)
  {
    assert forall b | b in chain :: Listed(b.added, chain) && p !in Nodes(b.added);
    PinRegion(q, p, chain);
    LinkNode(q, p, padd, chain);
  }

  method LinkNode(q: Block, p: Ptr, padd: int, ghost chain: seq<Block>)
    requires Valid(q, chain) && p.block in chain && p.off in p.block.pinned
    requires forall b | b in chain :: p !in Nodes(b.added)
    modifies q`added
    ensures Valid(q, chain) && q.added == Node(p, padd, old(q.added))
  {
    assert forall b | b in chain :: b != q ==> Nodes(q.added) !! Nodes(b.added);
    q.added := Node(p, padd, q.added);
    assert Nodes(q.added) == {p} + Nodes(old(q.added));
    assert Apart(chain);
    assert forall b | b in chain :: b.Ok();
    assert forall b | b in chain :: Listed(b.added, chain);
  }

  ghost method PinRegion(q: Block, p: Ptr, chain: seq<Block>)
    requires Valid(q, chain) && p.block in chain && p.off in p.block.live
    modifies p.block`pinned
    ensures Valid(q, chain) && p.off in p.block.pinned
  {
    p.block.pinned := p.block.pinned + {p.off};
    assert forall b | b in chain :: b.Ok();
    assert forall b | b in chain :: Listed(b.added, chain);
  }

  /** _uuconf_pmalloc_block_merge. */
  method Merge(p1: Block?, p2: Block?, ghost chain1: seq<Block>, ghost chain2: seq<Block>) returns (q: Block?)
    requires Valid(p1, chain1) && Valid(p2, chain2)
    requires forall b | b in chain1 :: b !in chain2
    modifies chain1
    ensures Valid(q, chain1 + chain2) && SameLists(chain1 + chain2) && SameLive(chain1 + chain2)
    ensures Contents(chain1 + chain2) == old(Contents(chain1)) + old(Contents(chain2))
    ensures Different(Contents(chain1 + chain2)) <==>
              && Different(old(Contents(chain1))) && Different(old(Contents(chain2)))
              && forall x | x in old(Contents(chain1)) :: x !in old(Contents(chain2))
  {
    ghost var lists := Lists(chain1 + chain2);
    ContentsTogether(chain1, chain2);
    q := MergeChains(p1, p2, chain1, chain2);
    forall i | 0 <= i < |lists| ensures (chain1 + chain2)[i].added == lists[i] {
      assert (chain1 + chain2)[i] in chain1 + chain2;
    }
    SameBuffers(chain1 + chain2, lists);
  }

  lemma ContentsTogether(chain1: seq<Block>, chain2: seq<Block>)
    ensures Contents(chain1 + chain2) == Contents(chain1) + Contents(chain2)
    ensures Different(Contents(chain1 + chain2)) <==>
              && Different(Contents(chain1)) && Different(Contents(chain2))
              && forall x | x in Contents(chain1) :: x !in Contents(chain2)
  {
    ListsTogether(chain1, chain2);
    BuffersTogether(Lists(chain1), Lists(chain2));
    DifferentTogether(Contents(chain1), Contents(chain2));
  }

  lemma ListsTogether(chain1: seq<Block>, chain2: seq<Block>)
    ensures Lists(chain1 + chain2) == Lists(chain1) + Lists(chain2)
  {
  }

  lemma SameBuffers(chain: seq<Block>, lists: seq<List>)
    requires |lists| == |chain| && forall i | 0 <= i < |chain| :: chain[i].added == lists[i]
    ensures Contents(chain) == AllBuffers(lists)
  {
    assert Lists(chain) == lists;
  }

  method MergeChains(p1: Block?, p2: Block?, ghost chain1: seq<Block>, ghost chain2: seq<Block>) returns (q: Block?)
    requires Valid(p1, chain1) && Valid(p2, chain2)
    requires forall b | b in chain1 :: b !in chain2
    modifies chain1
    ensures Valid(q, chain1 + chain2) && SameLists(chain1 + chain2) && SameLive(chain1 + chain2)
  {
    if p1 == null {
      assert chain1 + chain2 == chain2;
      return p2;
    }
    var last := Last(p1, chain1);
    Join(p1, last, p2, chain1, chain2);
    q := p1;
  }

  method Last(p1: Block, ghost chain: seq<Block>) returns (last: Block)
    requires Linked(p1, chain)
    ensures chain != [] && last == chain[|chain| - 1]
  {
    last := p1;
    ghost var i := 0;
    while last.next != null
      invariant 0 <= i < |chain| && last == chain[i]
      modifies {}
      decreases |chain| - i
    {
      Successor(chain, i);
      last := last.next;
      i := i + 1;
    }
    Successor(chain, i);
  }

  method Join(p1: Block, last: Block, p2: Block?, ghost chain1: seq<Block>, ghost chain2: seq<Block>)
    requires Valid(p1, chain1) && Valid(p2, chain2) && chain1 != [] && last == chain1[|chain1| - 1]
    requires forall b | b in chain1 :: b !in chain2
    modifies last`next
    ensures Valid(p1, chain1 + chain2)
  {
    ghost var all := chain1 + chain2;
    assert last in chain1 && last !in chain2;
    last.next := p2;
    assert chain2 != [] ==> chain2[|chain2| - 1] in chain2;
    LinkedTogether(p1, p2, chain1, chain2);
    JoinedApart(chain1, chain2);
    forall b | b in all ensures b.Ok() && Listed(b.added, all) && Straight(b.added) {
      assert b in chain1 || b in chain2;
      assert b in chain1 ==> Listed(b.added, chain1);
      assert b in chain2 ==> Listed(b.added, chain2);
    }
  }

  lemma JoinedApart(chain1: seq<Block>, chain2: seq<Block>)
    requires Apart(chain1) && Apart(chain2) && forall b | b in chain1 :: b !in chain2
    requires forall b | b in chain1 :: Listed(b.added, chain1)
    requires forall b | b in chain2 :: Listed(b.added, chain2)
    ensures Apart(chain1 + chain2)
  {
    forall b, c | b in chain1 + chain2 && c in chain1 + chain2 && b != c
      ensures Nodes(b.added) !! Nodes(c.added)
    {
      assert b in chain1 || b in chain2;
      assert c in chain1 || c in chain2;
      forall p | p in Nodes(b.added) ensures p !in Nodes(c.added) {
        assert p.block in if b in chain1 then chain1 else chain2;
      }
    }
  }

  lemma LinkedTogether(p1: Block, p2: Block?, chain1: seq<Block>, chain2: seq<Block>)
    requires chain1 != [] && p1 == chain1[0] && Distinct(chain1) && Linked(p2, chain2)
    requires forall b | b in chain1 :: b !in chain2
    requires Leads(chain1, p2)
    ensures Linked(p1, chain1 + chain2)
  {
    var all := chain1 + chain2;
    assert all[0] == p1;
    forall i, j | 0 <= i < j < |all| ensures all[i] != all[j] {
      if i < |chain1| <= j {
        assert all[i] in chain1 && all[j] in chain2;
      }
    }
    var n := |chain1|;
    forall i, j | 0 <= i < j < |all| && j == i + 1 ensures all[i].next == all[j] {
      if j < n {
        assert chain1[i].next == chain1[j];
      } else if i >= n {
        assert chain2[i - n].next == chain2[j - n];
      }
    }
  }

  /** Regions in use never overlap and are where the buffers are. */
  lemma RegionsApart(q: Block, chain: seq<Block>, p: Ptr, r: Ptr)
    requires Valid(q, chain) && p != r && p.block in chain && r.block in chain
    requires p.off in p.block.live && r.off in r.block.live
    ensures p.off % ALIGN == 0 && p.off + p.block.live[p.off] <= p.block.size
    ensures p.block != r.block || p.off + p.block.live[p.off] <= r.off || r.off + r.block.live[r.off] <= p.off
  {
    assert p.block.Ok() && r.block.Ok();
  }

  // ---------- releasing everything ----------

  /** What has been given to free: added buffers, and blocks. */
  datatype Freed = Buffer(padded: int) | Whole(b: Block)

  function BuffersFreed(s: seq<int>): seq<Freed> {
    seq(|s|, i requires 0 <= i < |s| => Buffer(s[i]))
  }

  function Wholes(chain: seq<Block>): seq<Freed> {
    if chain == [] then [] else [Whole(chain[0])] + Wholes(chain[1..])
  }

  /** Nothing is given to free twice. */
  ghost predicate Once(s: seq<Freed>) { forall i, j | 0 <= i < j < |s| :: s[i] != s[j] }

  lemma OnceTogether(s: seq<Freed>, t: seq<Freed>)
    requires Once(s) && Once(t) && forall f | f in s :: f !in t
    ensures Once(s + t)
  {
    forall i, j | 0 <= i < j < |s + t| ensures (s + t)[i] != (s + t)[j] {
      if i < |s| <= j { assert (s + t)[i] in s && (s + t)[j] in t; }
    }
  }

  /** Nothing is given to free twice exactly if the buffers are different. */
  lemma FreedOnce(s: seq<int>, chain: seq<Block>)
    requires Distinct(chain)
    ensures Once(BuffersFreed(s) + Wholes(chain)) <==> Different(s)
  {
    var b, all := BuffersFreed(s), BuffersFreed(s) + Wholes(chain);
    WholesOnce(chain);
    if Different(s) {
      OnceTogether(b, Wholes(chain));
    } else {
      var i, j :| 0 <= i < j < |s| && s[i] == s[j];
      assert all[i] == b[i] == b[j] == all[j];
    }
  }

  lemma {:induction false} WholesOnce(chain: seq<Block>)
    requires Distinct(chain)
    ensures Once(Wholes(chain)) && forall f | f in Wholes(chain) :: f.Whole? && f.b in chain
  {
    if chain != [] {
      var rest := chain[1..];
      assert chain[0] !in rest && forall c | c in rest :: c in chain;
      WholesOnce(rest);
      OnceTogether([Whole(chain[0])], Wholes(rest));
    }
  }

  /** uuconf_free_block: every added buffer, then every block, and nothing twice exactly if the buffers
      are different. The nodes of the lists are read while all blocks are still there. */
  method FreeBlock(pblock: Block, ghost chain: seq<Block>) returns (ghost freed: seq<Freed>)
    requires Valid(pblock, chain)
    modifies chain
    ensures freed == BuffersFreed(old(Contents(chain))) + Wholes(chain)
    ensures Once(freed) <==> Different(old(Contents(chain)))
    ensures forall b | b in chain :: b.released
  {
    ghost var buffers := FreeAdded(pblock, chain);
    FreedOnce(buffers, chain);
    ghost var blocks := FreeChain(pblock, chain);
    freed := BuffersFreed(buffers) + blocks;
  }

  /** A life of an arena: buffers are added one by one, then everything is released. Nothing is given
      to free twice exactly if the buffers were different from each other and from those there. */
  method AddAndFree(q: Block, padds: seq<int>, ghost chain: seq<Block>) returns (ghost freed: seq<Freed>)
    requires Valid(q, chain)
    modifies chain
    ensures Once(freed) <==> Different(padds + old(Contents(chain)))
    decreases |padds|
  {
    ghost var was := Contents(chain);
    if padds == [] {
      freed := FreeBlock(q, chain);
      assert padds + was == was;
    } else {
      ghost var more := AddGranted(q, padds[0], chain);
      freed := AddAndFree(q, padds[1..], more);
      DifferentMoved(padds, was);
    }
  }

  /** uuconf_add_block when malloc has memory. */
  method AddGranted(q: Block, padd: int, ghost chain: seq<Block>) returns (ghost more: seq<Block>)
    requires Valid(q, chain)
    modifies chain
    ensures Valid(q, more) && Contents(more) == [padd] + old(Contents(chain))
    ensures forall i | 0 <= i < |more| :: more[i] in chain || fresh(more[i])
  {
    var failed;
    failed, more := AddBlock(q, padd, Some(0), chain);
  }

  lemma DifferentMoved(s: seq<int>, t: seq<int>)
    requires s != []
    ensures Different(s + t) <==> Different(s[1..] + ([s[0]] + t))
  {
    var p, r := [s[0]], s[1..];
    assert s + t == p + (r + t);
    DifferentTogether(p, r + t);
    DifferentTogether(r, t);
    DifferentTogether(r, p + t);
    DifferentTogether(p, t);
    assert forall x :: x in p + t <==> x == s[0] || x in t;
    assert forall x :: x in r + t <==> x in r || x in t;
  }

  /** A buffer that is added twice is freed twice. */
  method AddedTwice(padd: int) returns (ghost freed: seq<Freed>)
    ensures !Once(freed)
  {
    var q := new Block(CALLOC_SIZE);
    ghost var chain := [q];
    NoBuffers(Lists(chain));
    freed := AddAndFree(q, [padd, padd], chain);
    assert ([padd, padd] + [])[0] == ([padd, padd] + [])[1];
  }

  method FreeAdded(pblock: Block, ghost chain: seq<Block>) returns (ghost freed: seq<int>)
    requires Valid(pblock, chain)
    ensures freed == Contents(chain)
  {
    freed := [];
    var qloop: Block? := pblock;
    ghost var i: nat, lists := 0, Lists(chain);
    while qloop != null
      invariant i <= |chain| && (qloop == null <==> i == |chain|) && (i < |chain| ==> qloop == chain[i])
      invariant freed + AllBuffers(lists[i..]) == AllBuffers(lists)
      modifies {}
      decreases |chain| - i
    {
      Successor(chain, i);
      ghost var buffers := FreeList(qloop, chain);
      assert qloop.added == lists[i];
      NextFreed(freed, lists, i);
      freed := freed + buffers;
      qloop := qloop.next;
      i := i + 1;
    }
    assert lists[i..] == [];
  }

  lemma NextFreed(freed: seq<int>, lists: seq<List>, i: nat)
    requires i < |lists|
    ensures freed + AllBuffers(lists[i..]) == (freed + Buffers(lists[i])) + AllBuffers(lists[i + 1..])
  {
    assert lists[i..][1..] == lists[i + 1..];
  }

  method FreeList(b: Block, ghost chain: seq<Block>) returns (ghost freed: seq<int>)
    requires b in chain && !b.released && Listed(b.added, chain)
    requires forall c | c in chain :: !c.released
    ensures freed == Buffers(b.added)
  {
    freed := [];
    var qadd := b.added;
    while !qadd.Nil?
      invariant Nodes(qadd) <= Nodes(b.added)
      invariant freed + Buffers(qadd) == Buffers(b.added)
      decreases qadd
    {
      assert qadd.at in Nodes(qadd) && Readable(qadd.at, chain);
      Regroup(freed, [qadd.padded], Buffers(qadd.next));
      freed := freed + [qadd.padded];
      qadd := qadd.next;
    }
  }

  /** The memory of the node is that of a block that has not been released. */
  ghost predicate Readable(at: Ptr, chain: seq<Block>)
    reads at.block
  {
    at.block in chain && !at.block.released
  }

  method FreeChain(pblock: Block, ghost chain: seq<Block>) returns (ghost freed: seq<Freed>)
    requires Linked(pblock, chain) && forall b | b in chain :: !b.released
    modifies chain
    ensures freed == Wholes(chain) && forall b | b in chain :: b.released
  {
    freed := [];
    var q: Block? := pblock;
    ghost var i: nat := 0;
    while q != null
      invariant i <= |chain| && (q == null <==> i == |chain|) && (i < |chain| ==> q == chain[i])
      invariant Distinct(chain) && (chain != [] ==> Leads(chain, null))
      invariant freed + Wholes(chain[i..]) == Wholes(chain)
      invariant Progress(chain, i)
      decreases |chain| - i
    {
      Regroup(freed, [Whole(q)], Wholes(chain[i + 1..]));
      assert chain[i..][1..] == chain[i + 1..];
      freed := freed + [Whole(q)];
      q := Release(q, chain, i);
      i := i + 1;
    }
    assert forall b | b in chain :: b.released by {
      forall b | b in chain ensures b.released {
        var k :| 0 <= k < |chain| && chain[k] == b;
      }
    }
  }

  /** The first i blocks have been released. */
  ghost predicate Progress(chain: seq<Block>, i: nat)
    reads chain
  {
    forall k | 0 <= k < |chain| :: chain[k].released <==> k < i
  }

  method Release(b: Block, ghost chain: seq<Block>, ghost i: nat) returns (next: Block?)
    requires i < |chain| && b == chain[i] && Distinct(chain) && Leads(chain, null) && Progress(chain, i)
    modifies b`released
    ensures Leads(chain, null) && Progress(chain, i + 1)
    ensures next == if i + 1 < |chain| then chain[i + 1] else null
  {
    Successor(chain, i);
    next := b.next;
    b.released := true;
  }
}
