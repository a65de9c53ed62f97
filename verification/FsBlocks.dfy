/** The file system's block table: one array of links that is free list, directory and file
    chains at once. */
module FsBlocks {
  import opened Words
  import opened Chains

  const NB_BLOCKS := 128
  const NAME_SIZE := 22

  const KIND_FREE: Byte := 0
  const KIND_DIR: Byte := 1
  const KIND_INODE: Byte := 2
  const KIND_DBLK: Byte := 2

  type Name = s: seq<Byte> | |s| == NAME_SIZE witness seq(NAME_SIZE, _ => 0)

  /** A block; `data` is the frame its page lies in. */
  datatype Block = Block(kind: Byte, flags: Byte, dnext: Byte, next: Byte, size: Word, data: Byte, name: Name)

  /** A file of the directory: its stored name, its blocks in order, and its bytes. */
  datatype File = File(name: Name, chain: seq<Byte>, body: seq<Byte>)

  function Nexts(bs: seq<Block>): (r: seq<Byte>)
    ensures |r| == |bs| && forall i :: 0 <= i < |bs| ==> r[i] == bs[i].next
  {
    seq(|bs|, i requires 0 <= i < |bs| => bs[i].next)
  }

  function DNexts(bs: seq<Block>): (r: seq<Byte>)
    ensures |r| == |bs| && forall i :: 0 <= i < |bs| ==> r[i] == bs[i].dnext
  {
    seq(|bs|, i requires 0 <= i < |bs| => bs[i].dnext)
  }

  function Head(f: File): Byte {
    if f.chain == [] then 0 else f.chain[0]
  }

  function Heads(files: seq<File>): (r: seq<Byte>)
    ensures |r| == |files| && forall k :: 0 <= k < |files| ==> r[k] == Head(files[k])
  {
    seq(|files|, k requires 0 <= k < |files| => Head(files[k]))
  }

  /** The blocks of all files. */
  function Owned(files: seq<File>): seq<Byte> {
    if files == [] then [] else files[0].chain + Owned(files[1..])
  }

  lemma {:induction false} OwnedMember(files: seq<File>, k: nat, x: Byte)
    requires k < |files| && x in files[k].chain
    ensures x in Owned(files)
    decreases k
  {
    if k > 0 {
      OwnedMember(files[1..], k - 1, x);
    }
  }

  /** Root, free list, open file and files share out the 128 blocks, each exactly once. */
  ghost predicate Partition(free: seq<Byte>, open: seq<Byte>, files: seq<File>) {
    && 1 + |free| + |open| + |Owned(files)| == NB_BLOCKS
    && {0} + Elements(free) + Elements(open) + Elements(Owned(files)) == Range(0, NB_BLOCKS)
  }

  lemma PartitionApart(free: seq<Byte>, open: seq<Byte>, files: seq<File>)
    requires Partition(free, open, files)
    ensures Distinct(free) && Distinct(open) && Distinct(Owned(files))
    ensures 0 !in Elements(free) && 0 !in Elements(open) && 0 !in Elements(Owned(files))
    ensures Elements(free) !! Elements(open) && Elements(free) !! Elements(Owned(files))
    ensures Elements(open) !! Elements(Owned(files))
    ensures forall x :: x in free || x in open || x in Owned(files) ==> x < NB_BLOCKS
  {
    hide Distinct;
    var own := Owned(files);
    var a, b := [0] + free, open + own;
    ElementsConcat([0], free);
    ElementsConcat(open, own);
    ElementsConcat(a, b);
    assert Elements([0]) == {0};
    assert Elements(a + b) == Range(0, NB_BLOCKS);
    RangeCount(0, NB_BLOCKS);
    DistinctByCount(a + b);
    DistinctApart(a, b);
    DistinctApart([0], free);
    DistinctApart(open, own);
    forall x | x in free || x in open || x in own
      ensures x < NB_BLOCKS
    {
      assert x in Elements(a + b);
      assert InRange(x, 0, NB_BLOCKS);
    }
  }

  /** Each file's chain of links is its list of blocks. */
  predicate FilesLinked(next: seq<Byte>, files: seq<File>) {
    forall k :: 0 <= k < |files| ==> files[k].chain != [] && Linked(next, files[k].chain[0], files[k].chain)
  }

  /** No file under reception. */
  ghost predicate Laid(bs: seq<Block>, first: Byte, free: seq<Byte>, files: seq<File>) {
    && |bs| == NB_BLOCKS && Partition(free, [], files)
    && Linked(Nexts(bs), first, free) && Linked(DNexts(bs), bs[0].next, Heads(files)) && FilesLinked(Nexts(bs), files)
  }

  /** A file with blocks `open` is being received: the last of them still links to the free
      list, as it did when it was taken from there. */
  ghost predicate Open(bs: seq<Block>, first: Byte, free: seq<Byte>, open: seq<Byte>, files: seq<File>) {
    && |bs| == NB_BLOCKS && open != [] && Partition(free, open, files)
    && Linked(Nexts(bs), first, free) && Linked(Nexts(bs), open[0], open + free)
    && Linked(DNexts(bs), bs[0].next, [open[0]] + Heads(files)) && FilesLinked(Nexts(bs), files)
  }

  /** Links of the files survive writes to other links. */
  lemma FilesFrame(next: seq<Byte>, next': seq<Byte>, files: seq<File>)
    requires FilesLinked(next, files) && |next'| == |next|
    requires forall x :: x in Owned(files) && x < |next| ==> next'[x] == next[x]
    ensures FilesLinked(next', files)
  {
    forall k | 0 <= k < |files|
      ensures Linked(next', files[k].chain[0], files[k].chain)
    {
      var xs := files[k].chain;
      forall j | 0 <= j < |xs| && xs[j] < |next|
        ensures next'[xs[j]] == next[xs[j]]
      {
        OwnedMember(files, k, xs[j]);
      }
      LinkedFrame(next, next', xs[0], xs);
    }
  }

  lemma HeadsOwned(files: seq<File>, next: seq<Byte>)
    requires FilesLinked(next, files)
    ensures forall k :: 0 <= k < |files| ==> Heads(files)[k] in Owned(files)
  {
    forall k | 0 <= k < |files|
      ensures Heads(files)[k] in Owned(files)
    {
      OwnedMember(files, k, files[k].chain[0]);
    }
  }

  // ----- The steps of a reception -----

  /** The block table after a new inode has been made of the first free block. */
  function WithInode(bs: seq<Block>, b: Byte, name: Name): (r: seq<Block>)
    requires |bs| == NB_BLOCKS && b < NB_BLOCKS && b != 0
    ensures |r| == NB_BLOCKS
  {
    bs[b := bs[b].(kind := KIND_INODE, flags := 1, dnext := bs[0].next, name := name)][0 := bs[0].(next := b)]
  }

  lemma FirstIsFree(bs: seq<Block>, first: Byte, free: seq<Byte>)
    requires |bs| == NB_BLOCKS && Linked(Nexts(bs), first, free)
    ensures first == 0 <==> free == []
    ensures free != [] ==> free[0] == first && first < NB_BLOCKS && Linked(Nexts(bs), bs[first].next, free[1..])
  {
  }

  lemma InodeOpens(bs: seq<Block>, first: Byte, free: seq<Byte>, files: seq<File>, name: Name)
    requires Laid(bs, first, free, files) && first != 0
    ensures first < NB_BLOCKS && free != []
    ensures Open(WithInode(bs, first, name), bs[first].next, free[1..], [first], files)
  {
    hide Distinct, Partition, FilesLinked;
    FirstIsFree(bs, first, free);
    PartitionApart(free, [], files);
    var bs', rest := WithInode(bs, first, name), free[1..];
    var next, next' := Nexts(bs), Nexts(bs');
    assert free == [first] + rest;
    ElementsConcat([first], rest);
    DistinctApart([first], rest);
    LinkedFrame(next, next', bs[first].next, rest);
    FilesFrame(next, next', files);
    assert [first] + rest == free && free[1..] == rest;
    HeadsOwned(files, next);
    assert first in Elements(free);
    LinkedFrame(DNexts(bs), DNexts(bs'), bs[0].next, Heads(files));
    assert ([first] + Heads(files))[1..] == Heads(files);
    PartitionMoves(free, [], files);
    assert [] + [first] == [first];
  }

  /** Moving the first free block to the open file. */
  lemma PartitionMoves(free: seq<Byte>, open: seq<Byte>, files: seq<File>)
    requires Partition(free, open, files) && free != []
    ensures Partition(free[1..], open + [free[0]], files)
  {
    var b, rest := free[0], free[1..];
    assert free == [b] + rest;
    ElementsConcat([b], rest);
    ElementsConcat(open, [b]);
  }

  /** Writing a block's page, size or kind touches no link. */
  lemma FillKeeps(bs: seq<Block>, first: Byte, free: seq<Byte>, open: seq<Byte>, files: seq<File>, bs': seq<Block>)
    requires Open(bs, first, free, open, files) && Nexts(bs') == Nexts(bs) && DNexts(bs') == DNexts(bs) && |bs'| == |bs|
    ensures Open(bs', first, free, open, files)
  {
    assert bs'[0].next == Nexts(bs')[0] == bs[0].next;
  }

  function Last(open: seq<Byte>): Byte
    requires open != []
  {
    open[|open| - 1]
  }

  /** The table after the last block of the open file has been linked to the next free one. */
  function WithNext(bs: seq<Block>, b: Byte, nb: Byte): (r: seq<Block>)
    requires |bs| == NB_BLOCKS && b < NB_BLOCKS && nb < NB_BLOCKS
    ensures |r| == NB_BLOCKS
  {
    var bs1 := bs[b := bs[b].(next := nb)];
    bs1[nb := bs1[nb].(kind := KIND_DBLK)]
  }

  /** Linking changes no link: the block already leads to the head of the free list. */
  lemma NextExtends(bs: seq<Block>, first: Byte, free: seq<Byte>, open: seq<Byte>, files: seq<File>)
    requires Open(bs, first, free, open, files) && first != 0
    ensures first < NB_BLOCKS && free != [] && Last(open) < NB_BLOCKS
    ensures Open(WithNext(bs, Last(open), first), bs[first].next, free[1..], open + [first], files)
  {
    hide Distinct, Partition, FilesLinked;
    FirstIsFree(bs, first, free);
    LinkedSplit(Nexts(bs), open[0], open, free);
    var bs' := WithNext(bs, Last(open), first);
    FirstOf(Nexts(bs)[Last(open)], Nexts(bs), free);
    assert Nexts(bs') == Nexts(bs) && DNexts(bs') == DNexts(bs);
    assert bs'[0].next == Nexts(bs')[0] == bs[0].next;
    assert (open + [first]) + free[1..] == open + free;
    PartitionMoves(free, open, files);
  }

  lemma FirstOf(i: Byte, next: seq<Byte>, xs: seq<Byte>)
    requires Linked(next, i, xs) && xs != []
    ensures i == xs[0]
  {
  }

  /** Ending the open file cuts it off the free list and makes it the first of the directory. */
  lemma ClosedIsLaid(bs: seq<Block>, first: Byte, free: seq<Byte>, open: seq<Byte>, files: seq<File>, f: File)
    requires Open(bs, first, free, open, files) && f.chain == open
    ensures Last(open) < NB_BLOCKS
    ensures Laid(bs[Last(open) := bs[Last(open)].(next := 0)], first, free, [f] + files)
  {
    hide Distinct, FilesLinked, Linked, Partition;
    PartitionApart(free, open, files);
    var next := Nexts(bs);
    LinkedSplit(next, open[0], open, free);
    LinkedCut(next, open[0], open, free);
    var bs' := bs[Last(open) := bs[Last(open)].(next := 0)];
    var next' := Nexts(bs');
    assert next' == next[Last(open) := 0] && DNexts(bs') == DNexts(bs);
    assert Last(open) in Elements(open);
    LinkedFrame(next, next', first, free);
    FilesFrame(next, next', files);
    FilesMore(next', f, files);
    assert Heads([f] + files) == [open[0]] + Heads(files);
    PartitionCloses(free, open, files, f);
  }

  lemma PartitionCloses(free: seq<Byte>, open: seq<Byte>, files: seq<File>, f: File)
    requires Partition(free, open, files) && f.chain == open
    ensures Partition(free, [], [f] + files)
  {
    assert ([f] + files)[1..] == files;
    ElementsConcat(open, Owned(files));
    assert Elements([]) == {};
  }

  lemma FilesMore(next: seq<Byte>, f: File, files: seq<File>)
    requires FilesLinked(next, files) && f.chain != [] && Linked(next, f.chain[0], f.chain)
    ensures FilesLinked(next, [f] + files)
  {
    assert forall k :: 0 < k < |[f] + files| ==> ([f] + files)[k] == files[k - 1];
  }

  // ----- The table at start -----

  function InitBlocks(bs: seq<Block>): (r: seq<Block>)
    requires |bs| == NB_BLOCKS
    ensures |r| == NB_BLOCKS
  {
    seq(NB_BLOCKS, i requires 0 <= i < NB_BLOCKS =>
      if i == 0 then bs[0].(kind := KIND_DIR, flags := 0, next := 0, size := 0, dnext := 0)
      else bs[i].(kind := KIND_FREE, next := if i == NB_BLOCKS - 1 then 0 else i + 1, dnext := 0))
  }

  /** The blocks from `i` up, in order. */
  function BlocksFrom(i: nat): (xs: seq<Byte>)
    requires i <= NB_BLOCKS
    ensures |xs| == NB_BLOCKS - i && forall k :: 0 <= k < |xs| ==> xs[k] == i + k
  {
    seq(NB_BLOCKS - i, k requires 0 <= k < NB_BLOCKS - i => i + k)
  }

  lemma {:induction false} InitChain(bs: seq<Block>, i: Byte)
    requires |bs| == NB_BLOCKS && 0 < i < NB_BLOCKS
    ensures Linked(Nexts(InitBlocks(bs)), i, BlocksFrom(i))
    decreases NB_BLOCKS - i
  {
    hide Nexts;
    if i < NB_BLOCKS - 1 {
      InitChain(bs, i + 1);
      assert BlocksFrom(i)[1..] == BlocksFrom(i + 1);
    } else {
      assert BlocksFrom(i)[1..] == [];
    }
  }

  /** After initialisation: one free chain of 127 blocks, and an empty root directory. */
  lemma InitIsLaid(bs: seq<Block>)
    requires |bs| == NB_BLOCKS
    ensures Laid(InitBlocks(bs), 1, BlocksFrom(1), [])
  {
    InitChain(bs, 1);
    assert Heads([]) == [];
    forall x: Byte | InRange(x, 0, NB_BLOCKS)
      ensures x in {0} + Elements(BlocksFrom(1))
    {
      if x > 0 {
        assert BlocksFrom(1)[x - 1] == x;
      }
    }
    assert {0} + Elements(BlocksFrom(1)) + Elements([]) + Elements(Owned([])) == Range(0, NB_BLOCKS);
  }

  // ----- Names -----

  predicate IsRoot(b: Block) {
    b.kind == KIND_DIR && b.flags == 0
  }

  /** The flag says the inode is in use. */
  predicate IsInode(b: Block) {
    b.kind == KIND_INODE && b.flags == 1
  }

  predicate SameSort(b: Block, b': Block) {
    b.kind == b'.kind && b.flags == b'.flags
  }

  /** The root says it is a directory, the inodes say they are files and carry their names. */
  predicate Named(bs: seq<Block>, files: seq<File>) {
    && |bs| == NB_BLOCKS && IsRoot(bs[0])
    && forall k :: 0 <= k < |files| ==>
         Head(files[k]) < NB_BLOCKS && bs[Head(files[k])].name == files[k].name && IsInode(bs[Head(files[k])])
  }

  lemma NamedFrame(bs: seq<Block>, bs': seq<Block>, files: seq<File>)
    requires Named(bs, files) && |bs'| == |bs| && SameSort(bs[0], bs'[0])
    requires forall k :: 0 <= k < |files| ==>
               var x := Head(files[k]); x < |bs| ==> bs'[x].name == bs[x].name && SameSort(bs[x], bs'[x])
    ensures Named(bs', files)
  {
  }

  lemma NamedMore(bs: seq<Block>, f: File, files: seq<File>)
    requires Named(bs, files) && Head(f) < NB_BLOCKS && bs[Head(f)].name == f.name && IsInode(bs[Head(f)])
    ensures Named(bs, [f] + files)
  {
    assert forall k :: 0 < k < |[f] + files| ==> ([f] + files)[k] == files[k - 1];
  }

  /** A new inode leaves the other files' inodes alone. */
  lemma InodeKeepsNames(bs: seq<Block>, first: Byte, free: seq<Byte>, files: seq<File>, name: Name)
    requires Laid(bs, first, free, files) && first != 0 && first < NB_BLOCKS && Named(bs, files)
    ensures Named(WithInode(bs, first, name), files)
    ensures WithInode(bs, first, name)[first].name == name && IsInode(WithInode(bs, first, name)[first])
  {
    hide Partition, Distinct;
    FirstIsFree(bs, first, free);
    PartitionApart(free, [], files);
    HeadsOwned(files, Nexts(bs));
    assert first in Elements(free);
    var bs' := WithInode(bs, first, name);
    forall k | 0 <= k < |files|
      ensures bs'[Head(files[k])].name == bs[Head(files[k])].name && SameSort(bs[Head(files[k])], bs'[Head(files[k])])
    {
      assert Heads(files)[k] == Head(files[k]);
      assert Head(files[k]) in Elements(Owned(files));
    }
  }

  lemma InitIsNamed(bs: seq<Block>)
    requires |bs| == NB_BLOCKS
    ensures Named(InitBlocks(bs), [])
  {
  }

  /** What an abort within a body leaves: the chain of the file runs on through the whole free
      list, so the block handed out next is part of the file already. */
  lemma AbortAliases(bs: seq<Block>, first: Byte, free: seq<Byte>, open: seq<Byte>, files: seq<File>, chain: seq<Byte>)
    requires Open(bs, first, free, open, files) && Linked(Nexts(bs), open[0], chain)
    ensures chain == open + free
    ensures free != [] ==> first in chain && first !in open
  {
    hide Partition, FilesLinked;
    LinkedOnce(Nexts(bs), open[0], chain, open + free);
    FirstIsFree(bs, first, free);
    PartitionApart(free, open, files);
    if free != [] {
      assert first in Elements(free) && first in chain by {
        assert chain[|open|] == first;
      }
      assert first !in Elements(open);
    }
  }
}
