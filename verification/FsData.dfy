/** The bytes of files, in the pages their blocks point to. */
module FsData {
  import opened Words
  import opened Chains
  import opened FsBlocks
  import opened Cpio

  function Chunk(bs: seq<Block>, pages: seq<Page>, x: Byte): seq<Byte> {
    if x < |bs| && bs[x].data < |pages| && bs[x].size <= PAGE_SIZE then pages[bs[x].data][..bs[x].size] else []
  }

  /** The bytes of a chain of blocks, block after block. */
  function BytesOf(bs: seq<Block>, pages: seq<Page>, xs: seq<Byte>): seq<Byte> {
    if xs == [] then [] else Chunk(bs, pages, xs[0]) + BytesOf(bs, pages, xs[1..])
  }

  lemma {:induction false} BytesConcat(bs: seq<Block>, pages: seq<Page>, xs: seq<Byte>, ys: seq<Byte>)
    ensures BytesOf(bs, pages, xs + ys) == BytesOf(bs, pages, xs) + BytesOf(bs, pages, ys)
    decreases |xs|
  {
    hide Chunk;
    if xs == [] {
      assert xs + ys == ys;
    } else {
      assert (xs + ys)[1..] == xs[1..] + ys;
      BytesConcat(bs, pages, xs[1..], ys);
      var a, b, c := Chunk(bs, pages, xs[0]), BytesOf(bs, pages, xs[1..]), BytesOf(bs, pages, ys);
      assert a + (b + c) == (a + b) + c;
    }
  }

  /** Block `x` shows the same bytes before and after. */
  predicate SameChunk(bs: seq<Block>, pages: seq<Page>, bs': seq<Block>, pages': seq<Page>, x: Byte) {
    && |bs'| == |bs| && |pages'| == |pages|
    && (x < |bs| ==> bs'[x].data == bs[x].data && bs'[x].size == bs[x].size
                     && (bs[x].data < |pages| ==> pages'[bs[x].data] == pages[bs[x].data]))
  }

  lemma {:induction false} BytesFrame(bs: seq<Block>, pages: seq<Page>, bs': seq<Block>, pages': seq<Page>,
                                      xs: seq<Byte>)
    requires forall x :: x in xs ==> SameChunk(bs, pages, bs', pages', x)
    ensures BytesOf(bs', pages', xs) == BytesOf(bs, pages, xs)
    decreases |xs|
  {
    if xs != [] {
      assert forall x :: x in xs[1..] ==> x in xs;
      BytesFrame(bs, pages, bs', pages', xs[1..]);
      assert xs[0] in xs;
      assert SameChunk(bs, pages, bs', pages', xs[0]);
    }
  }

  /** The blocks of the files that have a body. */
  function Filled(files: seq<File>): set<Byte> {
    if files == [] then {} else (if files[0].body != [] then Elements(files[0].chain) else {}) + Filled(files[1..])
  }

  lemma {:induction false} FilledMember(files: seq<File>, k: nat)
    requires k < |files| && files[k].body != []
    ensures Elements(files[k].chain) <= Filled(files)
    decreases k
  {
    if k > 0 {
      FilledMember(files[1..], k - 1);
    }
  }

  lemma {:induction false} FilledOwned(files: seq<File>)
    ensures forall x :: x in Filled(files) ==> x in Owned(files)
    decreases |files|
  {
    if files != [] {
      FilledOwned(files[1..]);
    }
  }

  /** Every file with a body reads back as that body. */
  ghost predicate Stored(bs: seq<Block>, pages: seq<Page>, files: seq<File>) {
    forall k :: 0 <= k < |files| && files[k].body != [] ==> BytesOf(bs, pages, files[k].chain) == files[k].body
  }

  lemma StoredFrame(bs: seq<Block>, pages: seq<Page>, bs': seq<Block>, pages': seq<Page>, files: seq<File>)
    requires Stored(bs, pages, files)
    requires forall x :: x in Filled(files) ==> SameChunk(bs, pages, bs', pages', x)
    ensures Stored(bs', pages', files)
  {
    hide SameChunk;
    forall k | 0 <= k < |files| && files[k].body != []
      ensures BytesOf(bs', pages', files[k].chain) == files[k].body
    {
      FilledMember(files, k);
      forall x | x in files[k].chain
        ensures SameChunk(bs, pages, bs', pages', x)
      {
        assert x in Elements(files[k].chain);
      }
      BytesFrame(bs, pages, bs', pages', files[k].chain);
    }
  }

  /** The pages of the blocks `xs` are in use, differ from each other, and are none of `kept`. */
  ghost predicate Apart(bs: seq<Block>, refs: seq<Byte>, xs: set<Byte>, kept: set<Byte>) {
    && |refs| == 256
    && (forall f :: f in kept ==> refs[f] != 0)
    && (forall x :: x in xs ==> x < |bs| && refs[bs[x].data] != 0 && bs[x].data !in kept && bs[x].size <= PAGE_SIZE)
    && (forall x, y :: x in xs && y in xs && x != y ==> bs[x].data != bs[y].data)
  }

  lemma ApartFrame(bs: seq<Block>, bs': seq<Block>, refs: seq<Byte>, xs: set<Byte>, kept: set<Byte>)
    requires Apart(bs, refs, xs, kept) && |bs'| == |bs|
    requires forall x :: x in xs && x < |bs| ==> bs'[x].data == bs[x].data && bs'[x].size == bs[x].size
    ensures Apart(bs', refs, xs, kept)
  {
  }

  /** Giving a block a frame nobody used before. */
  lemma ApartMore(bs: seq<Block>, refs: seq<Byte>, xs: set<Byte>, kept: set<Byte>, b: Byte, f: Byte, size: Word)
    requires Apart(bs, refs, xs, kept) && b < |bs| && b !in xs && refs[f] == 0 && size <= PAGE_SIZE
    ensures Apart(bs[b := bs[b].(data := f, size := size)], refs[f := 1], xs + {b}, kept)
  {
  }

  /** The receive buffer is a frame nobody used before. */
  lemma ApartKept(bs: seq<Block>, refs: seq<Byte>, xs: set<Byte>, kept: set<Byte>, f: Byte)
    requires Apart(bs, refs, xs, kept) && refs[f] == 0
    ensures Apart(bs, refs[f := 1], xs, kept + {f})
  {
  }

  /** And may be given back, whatever becomes of its count. */
  lemma ApartLess(bs: seq<Block>, refs: seq<Byte>, xs: set<Byte>, kept: set<Byte>, f: Byte, count: Byte)
    requires Apart(bs, refs, xs, kept + {f}) && f !in kept
    ensures Apart(bs, refs[f := count], xs, kept)
  {
  }

  // ----- A file under reception -----

  /** All but the last block of the open file. */
  function Front(open: seq<Byte>): seq<Byte>
    requires open != []
  {
    open[..|open| - 1]
  }

  /** The bytes of the pages `done` are `received`, and the files before are as they were. */
  ghost predicate Kept(bs: seq<Block>, pages: seq<Page>, refs: seq<Byte>, kept: set<Byte>, done: seq<Byte>,
                       received: seq<Byte>,
                       files: seq<File>) {
    && Apart(bs, refs, Filled(files) + Elements(done), kept)
    && BytesOf(bs, pages, done) == received && Stored(bs, pages, files)
  }

  /** The block after it has been given frame `f` for `size` bytes. */
  function WithData(bs: seq<Block>, b: Byte, f: Byte, size: Word): (r: seq<Block>)
    requires b < |bs|
    ensures |r| == |bs|
  {
    bs[b := bs[b].(data := f, size := size)]
  }

  lemma LastApart(free: seq<Byte>, open: seq<Byte>, files: seq<File>)
    requires Partition(free, open, files) && open != []
    ensures Last(open) < NB_BLOCKS && Last(open) !in Front(open) && Last(open) !in Filled(files)
  {
    hide Partition;
    PartitionApart(free, open, files);
    FilledOwned(files);
    assert Last(open) in open && Last(open) in Elements(open);
    forall x | x in Filled(files)
      ensures x != Last(open)
    {
      assert x in Owned(files);
      assert x in Elements(Owned(files));
    }
  }

  /** Receiving one page into the last block of the open file. */
  lemma PageReceived(bs: seq<Block>, pages: seq<Page>, pages': seq<Page>, refs: seq<Byte>, kept: set<Byte>, first: Byte,
                     free: seq<Byte>, open: seq<Byte>, files: seq<File>, received: seq<Byte>, f: Byte, chunk: seq<Byte>)
    requires Open(bs, first, free, open, files) && Kept(bs, pages, refs, kept, Front(open), received, files)
    requires |pages| == |pages'| == 256 && |chunk| <= PAGE_SIZE && refs[f] == 0
    requires pages'[f][..|chunk|] == chunk && forall g: Byte :: g != f ==> pages'[g] == pages[g]
    ensures Last(open) < NB_BLOCKS
    ensures var bs' := WithData(bs, Last(open), f, |chunk|);
      Open(bs', first, free, open, files) && Kept(bs', pages', refs[f := 1], kept, open, received + chunk, files)
  {
    hide Partition, FilesLinked, Linked, Distinct, Kept;
    LastApart(free, open, files);
    var bs' := WithData(bs, Last(open), f, |chunk|);
    assert Nexts(bs') == Nexts(bs) && DNexts(bs') == DNexts(bs);
    FillKeeps(bs, first, free, open, files, bs');
    PageKept(bs, pages, pages', refs, kept, open, files, received, f, chunk);
  }

  lemma PageKept(bs: seq<Block>, pages: seq<Page>, pages': seq<Page>, refs: seq<Byte>, kept: set<Byte>, open: seq<Byte>,
                 files: seq<File>, received: seq<Byte>, f: Byte, chunk: seq<Byte>)
    requires open != [] && Last(open) < |bs| && Last(open) !in Front(open) && Last(open) !in Filled(files)
    requires Kept(bs, pages, refs, kept, Front(open), received, files)
    requires |pages| == |pages'| == 256 && |chunk| <= PAGE_SIZE && refs[f] == 0
    requires pages'[f][..|chunk|] == chunk && forall g: Byte :: g != f ==> pages'[g] == pages[g]
    ensures Kept(WithData(bs, Last(open), f, |chunk|), pages', refs[f := 1], kept, open, received + chunk, files)
  {
    hide Chunk, BytesOf, Stored;
    var b, front := Last(open), Front(open);
    var bs' := WithData(bs, b, f, |chunk|);
    var s := Filled(files) + Elements(front);
    ApartMore(bs, refs, s, kept, b, f, |chunk|);
    assert open == front + [b];
    ElementsConcat(front, [b]);
    assert Filled(files) + Elements(open) == s + {b};
    forall x | x in s
      ensures SameChunk(bs, pages, bs', pages', x)
    {
    }
    StoredFrame(bs, pages, bs', pages', files);
    BytesFrame(bs, pages, bs', pages', front);
    BytesConcat(bs', pages', front, [b]);
    OneChunk(bs', pages', b, chunk);
  }

  /** A page cut off: the frame it goes to was nobody's, so whatever landed in it, the pages
      before it and the files before keep their bytes. */
  lemma PageCut(bs: seq<Block>, pages: seq<Page>, pages': seq<Page>, refs: seq<Byte>, kept: set<Byte>, first: Byte,
                free: seq<Byte>, open: seq<Byte>, files: seq<File>, received: seq<Byte>, f: Byte, size: Word)
    requires Open(bs, first, free, open, files) && Kept(bs, pages, refs, kept, Front(open), received, files)
    requires |pages| == |pages'| == 256 && size <= PAGE_SIZE && refs[f] == 0
    requires forall g: Byte :: g != f ==> pages'[g] == pages[g]
    ensures Last(open) < NB_BLOCKS
    ensures Kept(WithData(bs, Last(open), f, size), pages', refs[f := 1], kept, Front(open), received, files)
  {
    hide Partition, FilesLinked, Linked, Distinct, BytesOf, Stored;
    LastApart(free, open, files);
    var b, front := Last(open), Front(open);
    var bs', xs := WithData(bs, b, f, size), Filled(files) + Elements(front);
    ApartMore(bs, refs, xs, kept, b, f, size);
    assert Apart(bs', refs[f := 1], xs, kept);
    forall x | x in xs
      ensures SameChunk(bs, pages, bs', pages', x)
    {
    }
    StoredFrame(bs, pages, bs', pages', files);
    BytesFrame(bs, pages, bs', pages', front);
  }

  lemma OneChunk(bs: seq<Block>, pages: seq<Page>, b: Byte, chunk: seq<Byte>)
    requires b < |bs| && bs[b].data < |pages| && bs[b].size == |chunk| <= PAGE_SIZE
    requires pages[bs[b].data][..|chunk|] == chunk
    ensures BytesOf(bs, pages, [b]) == chunk
  {
    assert BytesOf(bs, pages, [b]) == Chunk(bs, pages, b) + BytesOf(bs, pages, []);
    assert chunk + [] == chunk;
  }

  /** Links, kinds and names do not matter to the bytes. */
  lemma KeptFrame(bs: seq<Block>, bs': seq<Block>, pages: seq<Page>, refs: seq<Byte>, kept: set<Byte>, done: seq<Byte>,
                  received: seq<Byte>, files: seq<File>)
    requires Kept(bs, pages, refs, kept, done, received, files) && |bs'| == |bs|
    requires forall x :: 0 <= x < |bs| ==> bs'[x].data == bs[x].data && bs'[x].size == bs[x].size
    ensures Kept(bs', pages, refs, kept, done, received, files)
  {
    ApartFrame(bs, bs', refs, Filled(files) + Elements(done), kept);
    StoredFrame(bs, pages, bs', pages, files);
    BytesFrame(bs, pages, bs', pages, done);
  }

  /** Once a file is closed, it is one of the files stored. */
  lemma KeptIsStored(bs: seq<Block>, pages: seq<Page>, refs: seq<Byte>, kept: set<Byte>, f: File, files: seq<File>)
    requires Kept(bs, pages, refs, kept, if f.body != [] then f.chain else [], f.body, files)
    ensures Apart(bs, refs, Filled([f] + files), kept) && Stored(bs, pages, [f] + files)
  {
    hide BytesOf;
    assert ([f] + files)[1..] == files;
    assert Filled([f] + files) == Filled(files) + Elements(if f.body != [] then f.chain else []);
    assert forall k :: 0 < k < |[f] + files| ==> ([f] + files)[k] == files[k - 1];
  }

  /** The sizes of a chain of blocks, added up. */
  function SizeOf(bs: seq<Block>, xs: seq<Byte>): nat {
    if xs == [] then 0 else (if xs[0] < |bs| then bs[xs[0]].size else 0) + SizeOf(bs, xs[1..])
  }

  /** In a file, they are the number of its bytes. */
  lemma {:induction false} SizesAreBytes(bs: seq<Block>, pages: seq<Page>, xs: seq<Byte>)
    requires |pages| == 256 && forall x :: x in xs ==> x < |bs| && bs[x].size <= PAGE_SIZE
    ensures |BytesOf(bs, pages, xs)| == SizeOf(bs, xs)
    decreases |xs|
  {
    if xs != [] {
      assert xs[0] in xs && forall x :: x in xs[1..] ==> x in xs;
      SizesAreBytes(bs, pages, xs[1..]);
    }
  }

  // ----- Names -----

  /** strncpy into a name field: up to `n` bytes, zero-filled after a terminator; the rest of
      the field keeps what it held. */
  function StrNCpy(dest: seq<Byte>, src: seq<Byte>, n: nat): (r: seq<Byte>)
    requires n <= |dest| && n <= |src|
    ensures |r| == |dest|
  {
    seq(|dest|, i requires 0 <= i < |dest| => if i >= n then dest[i] else if 0 in src[..i] then 0 else src[i])
  }

  /** strncmp says equal. */
  predicate SameName(a: seq<Byte>, b: seq<Byte>, n: nat)
    decreases n
  {
    n == 0 || (a != [] && b != [] && a[0] == b[0] && (a[0] == 0 || SameName(a[1..], b[1..], n - 1)))
  }

  /** The bytes of a name before its terminator, at most `n`. */
  function NameOf(x: seq<Byte>, n: nat): seq<Byte> {
    if n == 0 || x == [] || x[0] == 0 then [] else [x[0]] + NameOf(x[1..], n - 1)
  }

  /** A name that ends within `n` bytes, or fills them. */
  predicate Terminated(x: seq<Byte>, n: nat) {
    n == 0 || (x != [] && (x[0] == 0 || Terminated(x[1..], n - 1)))
  }

  /** Two names compare equal exactly when they are the same up to `n` bytes. */
  lemma {:induction false} SameNameMeans(a: seq<Byte>, b: seq<Byte>, n: nat)
    requires Terminated(a, n) && Terminated(b, n)
    ensures SameName(a, b, n) <==> NameOf(a, n) == NameOf(b, n)
    decreases n
  {
    if n > 0 && a[0] != 0 && b[0] != 0 {
      SameNameMeans(a[1..], b[1..], n - 1);
      assert NameOf(a, n)[1..] == NameOf(a[1..], n - 1) && NameOf(b, n)[1..] == NameOf(b[1..], n - 1);
      assert NameOf(a, n)[0] == a[0] && NameOf(b, n)[0] == b[0];
    }
  }

  /** The first bytes of `stored` are those of `sent`, zero after a terminator. */
  predicate CopiedName(stored: seq<Byte>, sent: seq<Byte>, n: nat) {
    n <= |stored| && forall i :: 0 <= i < n && i < |sent| ==> stored[i] == if 0 in sent[..i] then 0 else sent[i]
  }

  /** A terminated name is stored as itself, cut at `n` bytes. */
  lemma {:induction false} StoredName(stored: seq<Byte>, sent: seq<Byte>, n: nat)
    requires CopiedName(stored, sent, n) && Terminated(sent, n)
    ensures Terminated(stored, n) && NameOf(stored, n) == NameOf(sent, n)
    decreases n
  {
    if n > 0 {
      assert sent[..0] == [] && stored[0] == sent[0];
      if sent[0] != 0 {
        forall i | 0 <= i < n - 1 && i < |sent[1..]|
          ensures stored[1..][i] == if 0 in sent[1..][..i] then 0 else sent[1..][i]
        {
          assert sent[..i + 1] == [sent[0]] + sent[1..][..i];
        }
        StoredName(stored[1..], sent[1..], n - 1);
      }
    }
  }

  lemma {:induction false} EndsTerminated(x: seq<Byte>, n: nat)
    requires x != [] && x[|x| - 1] == 0
    ensures Terminated(x, n)
    decreases |x|
  {
    if n > 0 && x[0] != 0 {
      EndsTerminated(x[1..], n - 1);
    }
  }
}
