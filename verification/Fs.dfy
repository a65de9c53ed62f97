/** The block file system in its page, and the reception of an archive into it. */
module Fs {
  import opened Words
  import opened Wrappers
  import opened Chains
  import opened FrameAlloc
  import opened FsBlocks
  import opened FsData
  import opened Cpio

  /** How a reception ended: at the trailer, by the operator, or in a panic. */
  datatype Status = Received | Aborted | Panicked

  /** Blocks and frames a file takes. */
  function PagesFor(size: nat): nat {
    (size + PAGE_SIZE - 1) / PAGE_SIZE
  }

  /** An inode takes a block even if it is empty. */
  function BlocksFor(size: nat): nat {
    if size == 0 then 1 else PagesFor(size)
  }

  /** Names are unchanged, and inodes and data blocks are still that. */
  predicate SameLabels(bs: seq<Block>, bs': seq<Block>) {
    && |bs'| == |bs| && (bs != [] ==> SameSort(bs[0], bs'[0]))
    && forall x :: 0 <= x < |bs| ==>
         bs'[x].name == bs[x].name && (IsInode(bs[x]) ==> IsInode(bs'[x]))
  }

  /** A name field after strncpy of the first bytes of `src`: at most 22, none past `n`. */
  predicate Labelled(stored: Name, src: seq<Byte>, n: nat)
    requires n <= |src|
  {
    CopiedName(stored, src[..n], NAME_SIZE)
  }

  // ----- What a reception adds -----

  predicate NamedAfter(stored: Name, sent: seq<Byte>) {
    Labelled(stored, sent, |sent|)
  }

  /** The file made of a member. */
  predicate MadeOf(f: File, e: Entry) {
    f.body == e.body && NamedAfter(f.name, e.name) && |f.chain| == BlocksFor(|e.body|)
  }

  /** The directory `now` is `before` with the members `es` put in front, the last one first. */
  predicate Shelved(now: seq<File>, before: seq<File>, es: seq<Entry>) {
    && |now| == |es| + |before| && now[|es|..] == before
    && forall j :: 0 <= j < |es| ==> MadeOf(now[|es| - 1 - j], es[j])
  }

  function BlocksNeeded(es: seq<Entry>): nat {
    if es == [] then 0 else BlocksNeeded(es[..|es| - 1]) + BlocksFor(|es[|es| - 1].body|)
  }

  function FramesNeeded(es: seq<Entry>): nat {
    if es == [] then 0 else FramesNeeded(es[..|es| - 1]) + PagesFor(|es[|es| - 1].body|)
  }

  /** The members received and one abandoned in its body, as if it had come in full. */
  function Asked(es: seq<Entry>, ending: Ending): seq<Entry> {
    if ending.Abort? && ending.partial.Some?
    then es + [Entry(ending.partial.value.name, seq(ending.partial.value.size, _ => 0))]
    else es
  }

  /** The archive asks for more blocks or frames than there are, or for too long a name. One
      frame is the receive page. */
  predicate Short(es: seq<Entry>, ending: Ending, blocks: nat, available: nat) {
    ending.TooLong? || blocks < BlocksNeeded(Asked(es, ending)) || available < 1 + FramesNeeded(Asked(es, ending))
  }

  /** How many bytes the pages of a file hold before its last block. */
  function WholePages(open: seq<Byte>): nat
    requires open != []
  {
    PAGE_SIZE * (|open| - 1)
  }

  function NameOfBlock(bs: seq<Block>, b: Byte): Name {
    if b < |bs| then bs[b].name else seq(NAME_SIZE, _ => 0)
  }

  /** A file cut off in its body: its blocks so far, under the name it has. */
  function Cut(bs: seq<Block>, open: seq<Byte>): seq<File> {
    if open == [] then [] else [File(NameOfBlock(bs, open[0]), open, [])]
  }

  /** Every file has the blocks it takes. */
  predicate Fitting(files: seq<File>) {
    forall k :: 0 <= k < |files| ==> |files[k].chain| == BlocksFor(|files[k].body|)
  }

  lemma FittingMore(f: File, files: seq<File>)
    requires Fitting(files) && |f.chain| == BlocksFor(|f.body|)
    ensures Fitting([f] + files)
  {
    assert forall k :: 0 < k < |[f] + files| ==> ([f] + files)[k] == files[k - 1];
  }

  /** Outside `xs`, every block has the size and page it had. */
  ghost predicate Untouched(bs0: seq<Block>, bs: seq<Block>, xs: set<Byte>) {
    |bs| == |bs0| && forall x: Byte :: x < |bs| && x !in xs ==> bs[x].size == bs0[x].size && bs[x].data == bs0[x].data
  }

  /** Every empty file shows the size and page its block had in `bs0`. */
  ghost predicate ShowsOld(bs0: seq<Block>, bs: seq<Block>, files: seq<File>) {
    && |bs| == |bs0|
    && forall k :: 0 <= k < |files| && files[k].body == [] && Head(files[k]) < |bs| ==>
         var x := Head(files[k]); bs[x].size == bs0[x].size && bs[x].data == bs0[x].data
  }

  datatype NameResult = Title(n: nat, size: nat) | NoTitle(st: Status)

  datatype Progress = More | Done(st: Status)

  /** The position of the first file whose name compares equal, or the number of files. */
  function FirstNamed(files: seq<File>, path: seq<Byte>): (k: nat)
    ensures k <= |files| && (k < |files| ==> SameName(files[k].name, path, NAME_SIZE))
    ensures forall j :: 0 <= j < k ==> !SameName(files[j].name, path, NAME_SIZE)
  {
    if files == [] || SameName(files[0].name, path, NAME_SIZE) then 0 else 1 + FirstNamed(files[1..], path)
  }

  class FileSystem {
    const frames: FrameTable

    /** The pages of the frames, reached through the page window. */
    const pages: array<Page>

    /** The block table, the contents of the page of frame `fsFrame`. */
    const fs: array<Block>
    var fsFrame: Byte
    var firstFree: Byte

    /** What will arrive on the line before the operator aborts. */
    var rx: seq<Byte>

    ghost var free: seq<Byte>
    ghost var files: seq<File>

    ghost predicate Base()
      reads this, frames, frames.refs, frames.next
    {
      && fs.Length == NB_BLOCKS && pages.Length == 256 && frames.Valid()
      && (frames.refs as object) != fs && (frames.next as object) != fs && (frames.refs as object) != pages
      && (frames.next as object) != pages && (fs as object) != pages
    }

    /** The frames the system keeps for itself are not on the free list. */
    ghost predicate Keeps(kept: set<Byte>)
      reads frames
    {
      forall f :: f in kept ==> f != 0 && f !in frames.free
    }

    /** A file cut off in its body: its whole pages hold what was received, and names and bytes
        of the files before it are as they were. */
    ghost predicate CutOff(open: seq<Byte>, partial: Partial, kept: set<Byte>)
      requires open != []
      reads this, frames, frames.refs, fs, pages
    {
      && WholePages(open) <= |partial.received|
      && Kept(fs[..], pages[..], frames.refs[..], kept, Front(open), partial.received[..WholePages(open)], files)
      && Named(fs[..], files) && Fitting(files) && NamedAfter(NameOfBlock(fs[..], open[0]), partial.name)
    }

    /** No reception under way. */
    ghost predicate Valid()
      reads this, frames, frames.refs, frames.next, fs, pages
    {
      && Base() && Keeps({fsFrame})
      && Laid(fs[..], firstFree, free, files)
      && Kept(fs[..], pages[..], frames.refs[..], {fsFrame}, [], [], files)
      && Named(fs[..], files) && Fitting(files)
    }

    constructor (frames: FrameTable, rx: seq<Byte>)
      requires frames.Valid()
      ensures Base() && this.frames == frames && this.rx == rx && fresh(fs) && fresh(pages)
    {
      this.frames, this.rx := frames, rx;
      fs, pages := new Block[NB_BLOCKS], new Page[256];
      free, files := [], [];
      fsFrame, firstFree := 0, 0;
    }

    method InitTable()
      requires fs.Length == NB_BLOCKS
      modifies fs
      ensures fs[..] == InitBlocks(old(fs[..]))
    {
      ghost var before := fs[..];
      for i := 0 to NB_BLOCKS
        invariant forall k :: 0 <= k < i ==> fs[k] == before[k].(kind := KIND_FREE, next := k + 1, dnext := 0)
        invariant forall k :: i <= k < NB_BLOCKS ==> fs[k] == before[k]
      {
        fs[i] := fs[i].(kind := KIND_FREE, next := i + 1, dnext := 0);
      }
      fs[NB_BLOCKS - 1] := fs[NB_BLOCKS - 1].(next := 0);
      fs[0] := fs[0].(kind := KIND_DIR, flags := 0, next := 0, size := 0, dnext := 0);
    }

    /** `false` is a panic. */
    method InitFs() returns (ok: bool)
      requires Base()
      modifies this, frames, frames.refs, fs
      ensures ok <==> old(frames.Available()) > 0
      ensures ok ==> Valid() && files == [] && |free| == 127 && frames.Available() == old(frames.Available()) - 1
      ensures rx == old(rx)
    {
      hide Laid, Zeros, Linked, Distinct, Alloc, InitBlocks, Kept, FirstFree;
      var f := frames.AllocFrame();
      if f.None? {
        return false;
      }
      fsFrame := f.value;
      ghost var before := fs[..];
      InitTable();
      firstFree := 1;
      free, files := BlocksFrom(1), [];
      InitIsLaid(before);
      InitIsNamed(before);
      NothingKept(fs[..], pages[..], frames.refs[..], fsFrame);
      return true;
    }

    /** The next byte on the line, or `None` when the operator aborts. */
    method RecvByte() returns (c: Option<Byte>)
      modifies this`rx
      ensures c.None? ==> old(rx) == [] && rx == []
      ensures c.Some? ==> old(rx) != [] && c.value == old(rx)[0] && rx == old(rx)[1..]
    {
      if rx == [] {
        return None;
      }
      c := Some(rx[0]);
      rx := rx[1..];
    }

    /** `n` bytes into a page from offset `at`; `false` if the operator aborts. */
    method RecvInto(f: Byte, at: nat, n: nat) returns (ok: bool)
      requires pages.Length == 256 && at + n <= PAGE_SIZE
      modifies this`rx, pages
      ensures ok <==> n <= |old(rx)|
      ensures ok ==> rx == old(rx)[n..] && pages[f] == old(pages[f])[..at] + old(rx)[..n] + old(pages[f])[at + n..]
      ensures !ok ==> rx == []
      ensures forall g: Byte :: g != f ==> pages[g] == old(pages[g])
    {
      for i := 0 to n
        invariant i <= |old(rx)| && rx == old(rx)[i..]
        invariant pages[f] == old(pages[f])[..at] + old(rx)[..i] + old(pages[f])[at + i..]
        invariant forall g: Byte :: g != f ==> pages[g] == old(pages[g])
      {
        var c := RecvByte();
        if c.None? {
          return false;
        }
        ghost var was := pages[f];
        assert c.value == old(rx)[i] && old(rx)[..i + 1] == old(rx)[..i] + [old(rx)[i]];
        pages[f] := pages[f][at + i := c.value];
        assert pages[f] == was[..at + i] + [c.value] + was[at + i + 1..];
        assert was[..at + i] == old(pages[f])[..at] + old(rx)[..i];
        assert was[at + i + 1..] == old(pages[f])[at + i + 1..];
      }
      return true;
    }

    /** The head of the free list leaves it; `None` is a panic. */
    method FindFreeBlock() returns (b: Option<Byte>)
      requires fs.Length == NB_BLOCKS && firstFree < NB_BLOCKS
      modifies this`firstFree
      ensures b == if old(firstFree) == 0 then None else Some(old(firstFree))
      ensures firstFree == if old(firstFree) == 0 then 0 else fs[old(firstFree)].next
    {
      if firstFree == 0 {
        return None;
      }
      b := Some(firstFree);
      firstFree := fs[firstFree].next;
    }

    /** One page of a body, into a new frame for the last block of the open file. */
    method ReceivePage(ghost open: seq<Byte>, b: Byte, size: nat, ghost buf: Byte,
                       ghost received: seq<Byte>) returns (st: Status)
      requires Base() && Keeps({fsFrame, buf}) && 0 < size <= PAGE_SIZE
      requires Open(fs[..], firstFree, free, open, files) && b == Last(open)
      requires Kept(fs[..], pages[..], frames.refs[..], {fsFrame, buf}, Front(open), received, files)
      modifies this`rx, fs, pages, frames, frames.refs
      ensures Base() && Keeps({fsFrame, buf}) && pages[buf] == old(pages[buf])
      ensures frames.refs[buf] == old(frames.refs[buf])
      ensures st.Panicked? ==> old(frames.Available()) == 0
      ensures !st.Panicked? ==>
                && frames.Available() == old(frames.Available()) - 1
                && Open(fs[..], firstFree, free, open, files)
                && SameLabels(old(fs[..]), fs[..]) && Untouched(old(fs[..]), fs[..], {b})
      ensures st.Aborted? ==>
                && |old(rx)| < size && rx == []
                && Kept(fs[..], pages[..], frames.refs[..], {fsFrame, buf}, Front(open), received, files)
      ensures st.Received? ==>
                && size <= |old(rx)| && rx == old(rx)[size..]
                && Kept(fs[..], pages[..], frames.refs[..], {fsFrame, buf}, open, received + old(rx)[..size], files)
    {
      hide Open, Kept, Zeros, Linked, Distinct, Alloc, FirstFree;
      ghost var bs0, pages0, refs0 := fs[..], pages[..], frames.refs[..];
      OpenInTable(bs0, firstFree, free, open, files);
      BufferInUse(bs0, pages0, refs0, {fsFrame, buf}, Front(open), received, files);
      var f := frames.AllocFrame();
      if f.None? {
        return Panicked;
      }
      fs[b] := fs[b].(data := f.value);
      fs[b] := fs[b].(size := size);
      assert fs[..] == WithData(bs0, b, f.value, size);
      OpenWithData(bs0, firstFree, free, open, files, f.value, size);
      var ok := RecvInto(f.value, 0, size);
      if !ok {
        PageCut(bs0, pages0, pages[..], refs0, {fsFrame, buf}, firstFree, free, open, files, received, f.value, size);
        return Aborted;
      }
      var chunk := old(rx)[..size];
      assert pages[f.value][..size] == chunk;
      PageReceived(bs0, pages0, pages[..], refs0, {fsFrame, buf}, firstFree, free, open, files, received, f.value,
                   chunk);
      return Received;
    }

    /** The open file goes on in the next free block. */
    method NextBlock(ghost open: seq<Byte>, b: Byte, ghost buf: Byte,
                     ghost received: seq<Byte>) returns (nb: Option<Byte>)
      requires Base() && Open(fs[..], firstFree, free, open, files) && b == Last(open)
      requires Kept(fs[..], pages[..], frames.refs[..], {fsFrame, buf}, open, received, files)
      modifies this`firstFree, this`free, fs
      ensures Base()
      ensures nb.None? ==> old(free) == []
      ensures nb.Some? ==>
                && old(free) != [] && free == old(free)[1..]
                && Open(fs[..], firstFree, free, open + [nb.value], files)
                && Kept(fs[..], pages[..], frames.refs[..], {fsFrame, buf}, open, received, files)
                && SameLabels(old(fs[..]), fs[..]) && Untouched(old(fs[..]), fs[..], {})
    {
      hide Open, Kept, Linked, Distinct;
      ghost var bs0 := fs[..];
      OpenInTable(bs0, firstFree, free, open, files);
      if firstFree != 0 {
        NextExtends(bs0, firstFree, free, open, files);
      }
      nb := FindFreeBlock();
      if nb.None? {
        return None;
      }
      fs[b] := fs[b].(next := nb.value);
      fs[nb.value] := fs[nb.value].(kind := KIND_DBLK);
      assert fs[..] == WithNext(bs0, b, nb.value);
      free := free[1..];
      KeptFrame(bs0, fs[..], pages[..], frames.refs[..], {fsFrame, buf}, open, received, files);
    }

    /** A body, page by page. The new inode is `b0`; `open` is the chain it grows into. */
    method ReceiveBody(b0: Byte, filesize: nat, ghost buf: Byte) returns (st: Status, b: Byte, ghost open: seq<Byte>)
      requires Base() && Keeps({fsFrame, buf})
      requires Open(fs[..], firstFree, free, [b0], files)
      requires Kept(fs[..], pages[..], frames.refs[..], {fsFrame, buf}, [], [], files)
      modifies this`rx, this`firstFree, this`free, fs, pages, frames, frames.refs
      ensures Base() && Keeps({fsFrame, buf}) && pages[buf] == old(pages[buf])
      ensures frames.refs[buf] == old(frames.refs[buf])
      ensures st.Panicked? ==> |old(free)| + 1 < PagesFor(filesize) || old(frames.Available()) < PagesFor(filesize)
      ensures !st.Panicked? ==>
                && open != [] && open[0] == b0 && b == Last(open) && Open(fs[..], firstFree, free, open, files)
                && SameLabels(old(fs[..]), fs[..]) && |free| + |open| == |old(free)| + 1
                && Untouched(old(fs[..]), fs[..], if filesize > 0 then Elements(open) else {})
      ensures st.Aborted? ==>
                && |old(rx)| < filesize && rx == [] && frames.Available() + |open| == old(frames.Available())
                && WholePages(open) <= |old(rx)|
                && Kept(fs[..], pages[..], frames.refs[..], {fsFrame, buf}, Front(open), old(rx)[..WholePages(open)],
                        files)
      ensures st.Received? ==>
                && filesize <= |old(rx)| && rx == old(rx)[filesize..]
                && Kept(fs[..], pages[..], frames.refs[..], {fsFrame, buf}, if filesize > 0 then open else [],
                        old(rx)[..filesize], files)
                && |open| == BlocksFor(filesize)
                && frames.Available() + PagesFor(filesize) == old(frames.Available())
    {
      hide Open, Kept, Zeros, Linked, Distinct, SameLabels, Untouched, PagesFor, BlocksFor, Elements;
      ghost var bs0, left, n := fs[..], rx, PagesFor(filesize);
      SameSelf(bs0);
      PageCount(filesize);
      var cur := 0;
      b, open := b0, [b0];
      ghost var done: seq<Byte> := [];
      assert rx[..0] == [] && rx == rx[0..];
      while cur < filesize
        invariant Base() && Keeps({fsFrame, buf}) && pages[buf] == old(pages[buf])
        invariant cur <= filesize && cur <= |left| && rx == left[cur..]
        invariant open != [] && open[0] == b0 && b == Last(open) && Open(fs[..], firstFree, free, open, files)
        invariant Kept(fs[..], pages[..], frames.refs[..], {fsFrame, buf}, done, left[..cur], files)
        invariant done == if cur < filesize || filesize == 0 then Front(open) else open
        invariant cur < filesize ==> cur == PAGE_SIZE * |done|
        invariant if cur < filesize then |done| < n else |done| == n
        invariant |free| + |open| == |old(free)| + 1 && frames.Available() + |done| == old(frames.Available())
        invariant SameLabels(bs0, fs[..]) && Untouched(bs0, fs[..], Elements(done))
        invariant frames.refs[buf] == old(frames.refs[buf])
      {
        var size := if PAGE_SIZE > filesize - cur then filesize - cur else PAGE_SIZE;
        ghost var bs := fs[..];
        PageStep(filesize, |done|, size);
        st := ReceivePage(open, b, size, buf, left[..cur]);
        if !st.Panicked? {
          SameLabelsMore(bs0, bs, fs[..]);
          UntouchedMore(bs0, bs, fs[..], Elements(done), {b});
          assert open == done + [b];
          ElementsMore(done, b);
        }
        if st != Received {
          return;
        }
        assert left[..cur] + left[cur..][..size] == left[..cur + size];
        cur := cur + size;
        done := open;
        if cur < filesize {
          bs := fs[..];
          var nb := NextBlock(open, b, buf, left[..cur]);
          if nb.None? {
            st := Panicked;
            return;
          }
          SameLabelsMore(bs0, bs, fs[..]);
          UntouchedMore(bs0, bs, fs[..], Elements(done), {});
          b := nb.value;
          open := open + [b];
          assert Front(open) == done;
        }
      }
      st := Received;
    }

    /** One file of the archive: a new inode at the head of the directory, then its body. */
    method ReceiveFile(src: seq<Byte>, n: nat, filesize: nat, ghost buf: Byte) returns (st: Status,
                       ghost open: seq<Byte>)
      requires Base() && Keeps({fsFrame, buf}) && Laid(fs[..], firstFree, free, files) && Named(fs[..], files)
      requires Fitting(files)
      requires Kept(fs[..], pages[..], frames.refs[..], {fsFrame, buf}, [], [], files) && n <= |src|
      requires NAME_SIZE <= |src|
      modifies this`rx, this`firstFree, this`free, this`files, fs, pages, frames, frames.refs
      ensures Base() && Keeps({fsFrame, buf}) && pages[buf] == old(pages[buf])
      ensures frames.refs[buf] == old(frames.refs[buf])
      ensures st.Panicked? ==> |old(free)| < BlocksFor(filesize) || old(frames.Available()) < PagesFor(filesize)
      ensures !st.Received? ==> files == old(files)
      ensures st.Aborted? ==>
                && |old(rx)| < filesize && rx == [] && open != [] && Open(fs[..], firstFree, free, open, files)
                && |free| + |open| == |old(free)| && frames.Available() + |open| == old(frames.Available())
                && WholePages(open) <= |old(rx)| && Named(fs[..], files) && Fitting(files)
                && Kept(fs[..], pages[..], frames.refs[..], {fsFrame, buf}, Front(open), old(rx)[..WholePages(open)],
                        files)
                && Untouched(old(fs[..]), fs[..], Elements(open)) && Labelled(NameOfBlock(fs[..], open[0]), src, n)
      ensures st.Received? ==>
                && filesize <= |old(rx)| && rx == old(rx)[filesize..]
                && Laid(fs[..], firstFree, free, files) && Named(fs[..], files) && Fitting(files)
                && Kept(fs[..], pages[..], frames.refs[..], {fsFrame, buf}, [], [], files)
                && |files| == |old(files)| + 1 && files[1..] == old(files)
                && files[0].body == old(rx)[..filesize] && Labelled(files[0].name, src, n)
                && |files[0].chain| == BlocksFor(filesize) && |free| == |old(free)| - BlocksFor(filesize)
                && frames.Available() + PagesFor(filesize) == old(frames.Available())
                && Untouched(old(fs[..]), fs[..], Filled(files))
    {
      hide Laid, Open, Kept, Zeros, Linked, Distinct, Named, StrNCpy, Labelled, Untouched, Filled, Fitting, Elements,
           SameLabels, WholePages;
      ghost var bs0 := fs[..];
      LaidInTable(bs0, firstFree, free, files);
      if firstFree != 0 {
        ghost var name := StrNCpy(fs[firstFree].name, src[..NAME_SIZE], if NAME_SIZE > n then n else NAME_SIZE);
        InodeOpens(bs0, firstFree, free, files, name);
        InodeKeepsNames(bs0, firstFree, free, files, name);
      }
      var inode := FindFreeBlock();
      if inode.None? {
        return Panicked, [];
      }
      var b0 := inode.value;
      fs[b0] := fs[b0].(kind := KIND_INODE, flags := 1, dnext := fs[0].next);
      fs[0] := fs[0].(next := b0);
      ghost var was := fs[b0].name;
      fs[b0] := fs[b0].(name := StrNCpy(fs[b0].name, src[..NAME_SIZE], if NAME_SIZE > n then n else NAME_SIZE));
      LabelledBy(was, src, n);
      free := free[1..];
      assert fs[..] == WithInode(bs0, b0, fs[b0].name);
      KeptFrame(bs0, fs[..], pages[..], frames.refs[..], {fsFrame, buf}, [], [], files);
      ghost var bs1 := fs[..];
      var b;
      st, b, open := ReceiveBody(b0, filesize, buf);
      if st != Received {
        if st == Aborted {
          CutFile(bs0, bs1, fs[..], b0, firstFree, free, open, files, filesize);
        }
        return;
      }
      ghost var bs2, f := fs[..], File(fs[b0].name, open, old(rx)[..filesize]);
      LabelKept(bs1, bs2, b0);
      ClosedIsLaid(bs2, firstFree, free, open, files, f);
      fs[b] := fs[b].(next := 0);
      assert fs[..] == bs2[b := bs2[b].(next := 0)];
      KeptFrame(bs2, fs[..], pages[..], frames.refs[..], {fsFrame, buf}, if filesize > 0 then open else [],
                f.body, files);
      ClosedIsKept(fs[..], pages[..], frames.refs[..], {fsFrame, buf}, f, files);
      assert (f.body != []) == (filesize > 0);
      OpenKinds(bs1, bs2, fs[..], b, f, files);
      FittingMore(f, files);
      files := [f] + files;
      ClosedUntouched(bs0, bs1, bs2, b0, b, f, files[1..]);
    }

    // ----- The receive buffer -----

    /** Reading into the receive page moves no byte of a file. */
    method RecvBuffer(buf: Byte, at: nat, n: nat) returns (ok: bool)
      requires Base() && at + n <= PAGE_SIZE && Keeps({fsFrame, buf})
      requires Kept(fs[..], pages[..], frames.refs[..], {fsFrame, buf}, [], [], files)
      modifies this`rx, pages
      ensures Base() && Keeps({fsFrame, buf})
      ensures Kept(fs[..], pages[..], frames.refs[..], {fsFrame, buf}, [], [], files)
      ensures ok <==> n <= |old(rx)|
      ensures ok ==> rx == old(rx)[n..]
      ensures ok ==> pages[buf] == old(pages[buf])[..at] + old(rx)[..n] + old(pages[buf])[at + n..]
      ensures !ok ==> rx == []
    {
      hide Kept;
      ghost var before := pages[..];
      ok := RecvInto(buf, at, n);
      KeptBuffer(fs[..], before, pages[..], frames.refs[..], {fsFrame, buf}, buf, files);
    }

    /** Up to and past the next magic number; `false` if the operator aborts first. */
    method SeekMagic(buf: Byte) returns (ok: bool)
      requires Base() && Keeps({fsFrame, buf})
      requires Kept(fs[..], pages[..], frames.refs[..], {fsFrame, buf}, [], [], files)
      modifies this`rx, pages
      ensures Base() && Keeps({fsFrame, buf})
      ensures Kept(fs[..], pages[..], frames.refs[..], {fsFrame, buf}, [], [], files)
      ensures ok ==>
                && Parse(old(rx), old(pages[buf])) == ParseAfterMagic(rx, pages[buf]) && |rx| < |old(rx)|
                && pages[buf][..2] == [MAGIC0, MAGIC1]
      ensures !ok ==> Parse(old(rx), old(pages[buf])) == ([], Abort(None)) && rx == []
    {
      hide Kept, Parse, ParseAfterMagic, Zeros, Linked, Distinct;
      ghost var page := pages[buf];
      while true
        invariant Base() && Keeps({fsFrame, buf})
        invariant Kept(fs[..], pages[..], frames.refs[..], {fsFrame, buf}, [], [], files)
        invariant |rx| <= |old(rx)| && pages[buf][2..] == page[2..] && Parse(old(rx), page) == Parse(rx, page)
        decreases |rx|
      {
        ghost var r, whole := rx, pages[buf];
        ParseSkips(r, page);
        ok := RecvBuffer(buf, 0, 1);
        if !ok {
          return;
        }
        BehindHead(whole, r, 0, pages[buf]);
        assert pages[buf][0] == r[0];
        if pages[buf][0] != MAGIC0 {
          continue;
        }
        ghost var half := pages[buf];
        ok := RecvBuffer(buf, 1, 1);
        if !ok {
          assert r == [MAGIC0];
          return;
        }
        BehindHead(half, r[1..], 1, pages[buf]);
        assert pages[buf][0] == r[0] && pages[buf][1] == r[1] && rx == r[2..];
        if pages[buf][1] != MAGIC1 {
          continue;
        }
        ParseSamePage(r, page, pages[buf]);
        ParseMagic(r, pages[buf]);
        assert pages[buf][..2] == [pages[buf][0], pages[buf][1]];
        return true;
      }
    }

    /** The receive page goes back to the allocator. */
    method FreeBuffer(buf: Byte, ghost done: seq<Byte>, ghost received: seq<Byte>)
      requires Base() && Keeps({fsFrame, buf}) && buf != fsFrame
      modifies frames, frames.refs, frames.next
      ensures Base() && Keeps({fsFrame})
      ensures old(frames.refs[buf]) == 1 ==>
                frames.Available() == old(frames.Available()) + if frames.design.Intended? then 1 else 0
      ensures old(Kept(fs[..], pages[..], frames.refs[..], {fsFrame, buf}, done, received, files)) ==>
                Kept(fs[..], pages[..], frames.refs[..], {fsFrame}, done, received, files)
    {
      hide Zeros, Linked, Distinct, BytesOf, Stored;
      ghost var refs := frames.refs[..];
      frames.FreeFrame(buf);
      if Kept(fs[..], pages[..], refs, {fsFrame, buf}, done, received, files) {
        assert {fsFrame, buf} == {fsFrame} + {buf};
        ApartLess(fs[..], refs, Filled(files) + Elements(done), {fsFrame}, buf, Released(frames.design, refs[buf]));
      }
    }

    // ----- Receiving an archive -----

    /** The next member's header and name. */
    method RecvName(buf: Byte) returns (r: NameResult)
      requires Base() && Keeps({fsFrame, buf})
      requires Kept(fs[..], pages[..], frames.refs[..], {fsFrame, buf}, [], [], files)
      modifies this`rx, pages
      ensures Base() && Keeps({fsFrame, buf})
      ensures Kept(fs[..], pages[..], frames.refs[..], {fsFrame, buf}, [], [], files)
      ensures r.Title? ==>
                && HDR_SIZE + r.n <= PAGE_SIZE && |rx| < |old(rx)|
                && Parse(old(rx), old(pages[buf])) == ParseAfterName(rx, pages[buf][HDR_SIZE..][..r.n], r.size,
                                                                     pages[buf])
      ensures r == NoTitle(Aborted) ==> Parse(old(rx), old(pages[buf])) == ([], Abort(None))
      ensures r == NoTitle(Panicked) ==> Parse(old(rx), old(pages[buf])) == ([], TooLong)
      ensures r != NoTitle(Received)
    {
      hide Kept, Zeros, Linked, Distinct, Parse, IsTrailer, Landed, NameSize, FileSize;
      var ok := SeekMagic(buf);
      if !ok {
        return NoTitle(Aborted);
      }
      ghost var bytes, there := rx, pages[buf];
      ok := RecvBuffer(buf, 2, 24);
      if !ok {
        return NoTitle(Aborted);
      }
      HeaderIn(there, bytes, pages[buf]);
      var n, size := NameSize(pages[buf][2..HDR_SIZE]), FileSize(pages[buf][2..HDR_SIZE]);
      if n + HDR_SIZE > PAGE_SIZE {
        return NoTitle(Panicked);
      }
      ghost var upto := pages[buf];
      ok := RecvBuffer(buf, HDR_SIZE, n);
      if !ok {
        return NoTitle(Aborted);
      }
      NameIn(there, bytes, upto, pages[buf], n);
      return Title(n, size);
    }

    /** One member: `More` if a file was received, otherwise how the reception ends. */
    method RecvMember(buf: Byte) returns (p: Progress, ghost e: Entry, ghost open: seq<Byte>)
      requires Base() && Keeps({fsFrame, buf}) && Laid(fs[..], firstFree, free, files) && Named(fs[..], files)
      requires Fitting(files)
      requires Kept(fs[..], pages[..], frames.refs[..], {fsFrame, buf}, [], [], files)
      modifies this`rx, this`firstFree, this`free, this`files, fs, pages, frames, frames.refs
      ensures Base() && Keeps({fsFrame, buf})
      ensures p.More? ==>
                && |rx| < |old(rx)| && |files| == |old(files)| + 1 && files[1..] == old(files) && MadeOf(files[0], e)
                && var more := Parse(rx, pages[buf]); Parse(old(rx), old(pages[buf])) == ([e] + more.0, more.1)
      ensures frames.refs[buf] == old(frames.refs[buf])
      ensures p.More? ==>
                && |free| + BlocksFor(|e.body|) == |old(free)|
                   && frames.Available() + PagesFor(|e.body|) == old(frames.Available())
                && Untouched(old(fs[..]), fs[..], Filled(files)) && Filled(old(files)) <= Filled(files)
      ensures p.Done? && !p.st.Panicked? ==>
                && |free| + |open| == |old(free)| && frames.Available() + |open| == old(frames.Available())
                && (open == [] ==> fs[..] == old(fs[..]))
      ensures p == Done(Received) ==> Parse(old(rx), old(pages[buf])) == ([], Trailer(rx)) && open == []
      ensures var (es, ending) := Parse(old(rx), old(pages[buf]));
        && (p == Done(Aborted) ==>
              && es == [] && ending.Abort?
              && if ending.partial.None? then open == []
                 else && open != [] && Open(fs[..], firstFree, free, open, files)
                      && CutOff(open, ending.partial.value, {fsFrame, buf})
                      && Untouched(old(fs[..]), fs[..], Elements(open)))
        && (p == Done(Panicked) ==>
              || ending.TooLong? || |old(free)| < BlocksNeeded(Asked(es, ending))
              || old(frames.Available()) < FramesNeeded(Asked(es, ending)))
        && (p.More? || p == Done(Received) || (p == Done(Aborted) && ending.partial.None?) ==>
              && Laid(fs[..], firstFree, free, files) && Named(fs[..], files) && Fitting(files)
              && Kept(fs[..], pages[..], frames.refs[..], {fsFrame, buf}, [], [], files))
      ensures p.Done? ==> files == old(files)
    {
      hide Laid, Open, Kept, Zeros, Linked, Distinct, Named, Parse, IsTrailer, Labelled, Asked, BlocksNeeded,
           FramesNeeded;
      e, open := Entry([], []), [];
      var r := RecvName(buf);
      if r.NoTitle? {
        return Done(r.st), e, open;
      }
      TrailerSeen(pages[buf]);
      if pages[buf][HDR_SIZE..HDR_SIZE + 11] == TRAILER {
        return Done(Received), e, open;
      }
      ghost var t := rx;
      var src := pages[buf][HDR_SIZE..];
      e := Entry(src[..r.n], if r.size <= |t| then t[..r.size] else t);
      var st;
      st, open := ReceiveFile(src, r.n, r.size, buf);
      if st == Panicked {
        ghost var more := Parse(if r.size <= |t| then t[r.size..] else [], pages[buf]);
        ghost var whole := Parse(old(rx), old(pages[buf]));
        assert [] + ([e] + more.0) == [e] + more.0;
        MoreNeeded([], whole.0, whole.1, src[..r.n], t, r.size, more);
        NothingNeeded();
        return Done(Panicked), e, open;
      }
      if st == Aborted {
        NameBy(NameOfBlock(fs[..], open[0]), src, r.n);
        return Done(Aborted), e, open;
      }
      NameBy(files[0].name, src, r.n);
      return More, e, open;
    }

    /** Receive members until the trailer. `page` is what the receive page held at first, `open`
        the blocks of a file that was not finished. Besides the pages of the files, the receive
        page stays taken if freeing counts up. */
    method FsRecvCpio() returns (st: Status, ghost page: Page, ghost open: seq<Byte>)
      requires Valid()
      modifies this`rx, this`firstFree, this`free, this`files, fs, pages, frames, frames.refs, frames.next
      ensures var (es, ending) := Parse(old(rx), page);
        && (st.Received? ==> ending == Trailer(rx) && open == [])
        && (st.Aborted? ==> ending.Abort? && (ending.partial.None? <==> open == []))
        && (st.Panicked? ==> Short(es, ending, |old(free)|, old(frames.Available())))
        && (!st.Panicked? ==>
              && Shelved(files, old(files), es) && |free| + BlocksNeeded(es) + |open| == |old(free)|
              && frames.Available() + FramesNeeded(es) + |open| + (if frames.design.Intended? then 0 else 1)
                 == old(frames.Available())
              && ShowsOld(old(fs[..]), fs[..], files)
              && if open == [] then Valid()
                 else && Base() && Keeps({fsFrame}) && Open(fs[..], firstFree, free, open, files)
                      && ending.Abort? && ending.partial.Some? && CutOff(open, ending.partial.value, {fsFrame}))
      ensures !st.Panicked? ==>
                (Laid(fs[..], firstFree, free, Cut(fs[..], open) + files) <==> open == [] || free == [])
    {
      hide Laid, Open, Kept, Zeros, Linked, Distinct, Named, Alloc, FirstFree, Parse, MadeOf, Short, BlocksNeeded,
           FramesNeeded, Shelved, Untouched, ShowsOld, Fitting, Filled, PagesFor, BlocksFor;
      open, page := [], pages[0];
      ghost var refs0, bs0 := frames.refs[..], fs[..];
      NothingDone(bs0, files);
      KeptUse(fs[..], pages[..], refs0, {fsFrame}, files);
      var frame := frames.AllocFrame();
      if frame.None? {
        NoFrame(Parse(rx, page).0, Parse(rx, page).1, |free|);
        return Panicked, page, open;
      }
      var buf := frame.value;
      page := pages[buf];
      BufferKept(fs[..], pages[..], refs0, fsFrame, buf, files);
      ghost var es: seq<Entry> := [];
      ghost var all := Parse(rx, page);
      assert [] + all.0 == all.0;
      NothingNeeded();
      while true
        invariant Base() && Keeps({fsFrame, buf}) && buf != fsFrame && Laid(fs[..], firstFree, free, files)
        invariant Named(fs[..], files) && Fitting(files)
        invariant Kept(fs[..], pages[..], frames.refs[..], {fsFrame, buf}, [], [], files)
        invariant all == (es + Parse(rx, pages[buf]).0, Parse(rx, pages[buf]).1)
        invariant Shelved(files, old(files), es) && |free| + BlocksNeeded(es) == |old(free)|
        invariant frames.Available() + 1 + FramesNeeded(es) == old(frames.Available()) && frames.refs[buf] == 1
        invariant Untouched(bs0, fs[..], Filled(files))
        decreases |rx|
      {
        ghost var rest, had, before, bs := Parse(rx, pages[buf]), es, files, fs[..];
        var p;
        ghost var e;
        p, e, open := RecvMember(buf);
        if p.More? {
          ShelfMore(before, files, old(files), es, e);
          NeededMore(es, e);
          FittingNext(before, files, e);
          UntouchedMore(bs0, bs, fs[..], Filled(before), Filled(files));
          es := es + [e];
          assert had + ([e] + Parse(rx, pages[buf]).0) == es + Parse(rx, pages[buf]).0;
        } else if p.st == Panicked {
          ShortLater(es, rest.0, rest.1, |old(free)|, old(frames.Available()));
          return Panicked, page, open;
        } else {
          assert es + [] == es;
          ghost var done, received: seq<Byte> := [], [];
          if open == [] {
            EmptyKeepsSize(bs0, fs[..], firstFree, free, files);
            assert Cut(fs[..], open) + files == files;
          } else {
            done, received := Front(open), rest.1.partial.value.received[..WholePages(open)];
            UntouchedMore(bs0, bs, fs[..], Filled(files), Elements(open));
            CutKeepsSize(bs0, fs[..], firstFree, free, open, files);
            CutIsLaidExactly(fs[..], firstFree, free, open, files);
          }
          FreeBuffer(buf, done, received);
          return p.st, page, open;
        }
      }
    }

    /** A well-formed archive that fits is received whole, every file as sent, whatever the
        receive page held. */
    method ReceiveArchive(ghost ms: seq<Member>, ghost last: Member, ghost rest: seq<Byte>) returns (st: Status)
      requires Valid()
      requires forall i :: 0 <= i < |ms| ==> Good(ms[i]) && !Ends(ms[i])
      requires Good(last) && Ends(last) && rx == Stream(ms) + (Encode(last) + rest)
      requires BlocksNeeded(Entries(ms)) <= |free| && 1 + FramesNeeded(Entries(ms)) <= frames.Available()
      modifies this`rx, this`firstFree, this`free, this`files, fs, pages, frames, frames.refs, frames.next
      ensures st == Received && rx == last.body + rest
      ensures Valid() && Shelved(files, old(files), Entries(ms)) && |free| + BlocksNeeded(Entries(ms)) == |old(free)|
      ensures frames.Available() + FramesNeeded(Entries(ms)) + (if frames.design.Intended? then 0 else 1)
              == old(frames.Available())
      ensures ShowsOld(old(fs[..]), fs[..], files)
    {
      hide Parse, Stream, Encode, Entries, Shelved, BlocksNeeded, FramesNeeded, Valid, ShowsOld;
      ghost var page, open;
      st, page, open := FsRecvCpio();
      ParseStream(ms, last, rest, page);
    }

    // ----- Reading -----

    /** The newest file of that name, or 0. */
    method FsFind(path: seq<Byte>) returns (i: Byte)
      requires Valid()
      ensures i == var k := FirstNamed(files, path); if k < |files| then Head(files[k]) else 0
    {
      hide Kept, Zeros, Distinct, Partition, FilesLinked, SameName, Linked;
      ghost var k := 0;
      assert Heads(files)[0..] == Heads(files) && files[0..] == files;
      i := fs[0].next;
      while i != 0
        invariant k <= |files| && Linked(DNexts(fs[..]), i, Heads(files)[k..])
        invariant FirstNamed(files, path) == k + FirstNamed(files[k..], path)
        decreases |files| - k
      {
        LinkedStep(DNexts(fs[..]), i, Heads(files)[k..]);
        assert Heads(files)[k..][0] == Head(files[k]) && files[k..][0] == files[k] && files[k..][1..] == files[k + 1..];
        assert fs[Head(files[k])].name == files[k].name;
        if SameName(fs[i].name, path, NAME_SIZE) {
          return;
        }
        assert Heads(files)[k..][1..] == Heads(files)[k + 1..];
        i := fs[i].dnext;
        k := k + 1;
      }
      LinkedStep(DNexts(fs[..]), i, Heads(files)[k..]);
    }

    /** The size of file `k`, whose inode is `inode`; 0 for the root directory. An empty file
        shows whatever its block says. */
    method FsGetFileSize(inode: Byte, ghost k: nat) returns (s: nat)
      requires Valid() && (inode == 0 || (k < |files| && inode == Head(files[k])))
      ensures inode == 0 ==> s == 0
      ensures inode != 0 ==> s == if files[k].body != [] then |files[k].body| else fs[inode].size
    {
      hide Kept, Zeros, Distinct, Partition, Linked, BytesOf;
      if inode != 0 {
        assert IsInode(fs[Head(files[k])]);
      }
      if fs[inode].kind != KIND_INODE {
        return 0;
      }
      ghost var xs := files[k].chain;
      assert Linked(Nexts(fs[..]), inode, xs);
      assert xs[0..] == xs;
      s := 0;
      ghost var j := 0;
      var i := inode;
      while i != 0
        invariant j <= |xs| && Linked(Nexts(fs[..]), i, xs[j..]) && s + SizeOf(fs[..], xs[j..]) == SizeOf(fs[..], xs)
        decreases |xs| - j
      {
        LinkedStep(Nexts(fs[..]), i, xs[j..]);
        assert xs[j..][1..] == xs[j + 1..];
        s := s + fs[i].size;
        i := fs[i].next;
        j := j + 1;
      }
      LinkedStep(Nexts(fs[..]), i, xs[j..]);
      if files[k].body != [] {
        FileBytes(fs[..], pages[..], frames.refs[..], {fsFrame}, files, k);
      } else {
        EmptyIsOneBlock(fs[..], pages[..], files, k);
      }
    }

    /** The bytes of one block's page, one by one. */
    method PrintBlock(d: Byte) returns (text: seq<Byte>)
      requires Base() && d < NB_BLOCKS
      ensures text == Chunk(fs[..], pages[..], d)
    {
      text := [];
      if fs[d].size <= PAGE_SIZE {
        var page := pages[fs[d].data];
        for i := 0 to fs[d].size
          invariant text == page[..i]
        {
          text := text + [page[i]];
          assert page[..i + 1] == page[..i] + [page[i]];
        }
      }
    }

    /** What printing the file of that name puts out; `None` if there is none. Bytes come out
        page by page along the chain. */
    method FsPrintFile(path: seq<Byte>) returns (out: Option<seq<Byte>>)
      requires Valid()
      ensures var k := FirstNamed(files, path);
        && (out.None? <==> k == |files|)
        && (k < |files| && files[k].body != [] ==> out == Some(files[k].body))
        && (k < |files| && files[k].body == [] ==> out == Some(Chunk(fs[..], pages[..], Head(files[k]))))
    {
      hide Kept, Zeros, Distinct, Partition, Linked, SameName, Chunk;
      var d := FsFind(path);
      ghost var k := FirstNamed(files, path);
      if k < |files| {
        HeadNotRoot(fs[..], firstFree, free, files, k);
      }
      if d == 0 {
        return None;
      }
      assert IsInode(fs[Head(files[k])]);
      if fs[d].kind != KIND_INODE {
        return None;
      }
      ghost var xs := files[k].chain;
      assert Linked(Nexts(fs[..]), d, xs);
      assert xs[0..] == xs;
      if files[k].body != [] {
        FileBytes(fs[..], pages[..], frames.refs[..], {fsFrame}, files, k);
      } else {
        EmptyIsOneBlock(fs[..], pages[..], files, k);
      }
      var text: seq<Byte> := [];
      ghost var whole := BytesOf(fs[..], pages[..], xs);
      assert text + whole == whole;
      ghost var j := 0;
      while d != 0
        invariant j <= |xs| && Linked(Nexts(fs[..]), d, xs[j..])
        invariant text + BytesOf(fs[..], pages[..], xs[j..]) == whole
        decreases |xs| - j
      {
        LinkedStep(Nexts(fs[..]), d, xs[j..]);
        assert xs[j..][1..] == xs[j + 1..];
        var chunk := PrintBlock(d);
        ghost var more := BytesOf(fs[..], pages[..], xs[j + 1..]);
        assert text + (chunk + more) == (text + chunk) + more;
        text := text + chunk;
        d := fs[d].next;
        j := j + 1;
      }
      LinkedStep(Nexts(fs[..]), d, xs[j..]);
      assert text + [] == text;
      return Some(text);
    }

    /** The whole way: receive an archive, print a name, and out comes the body last sent under
        it; an empty one prints what its one block showed before. */
    method ReceiveThenPrint(ghost ms: seq<Member>, ghost last: Member, ghost rest: seq<Byte>, path: seq<Byte>,
                            ghost j: nat) returns (out: Option<seq<Byte>>)
      requires Valid() && j < |ms| && Terminated(path, NAME_SIZE)
      requires forall i :: 0 <= i < |ms| ==> Good(ms[i]) && !Ends(ms[i])
      requires Good(last) && Ends(last) && rx == Stream(ms) + (Encode(last) + rest)
      requires BlocksNeeded(Entries(ms)) <= |free| && 1 + FramesNeeded(Entries(ms)) <= frames.Available()
      requires NameOf(ms[j].name, NAME_SIZE) == NameOf(path, NAME_SIZE)
      requires forall i :: j < i < |ms| ==> NameOf(ms[i].name, NAME_SIZE) != NameOf(path, NAME_SIZE)
      modifies this`rx, this`firstFree, this`free, this`files, fs, pages, frames, frames.refs, frames.next
      ensures Valid() && out.Some? && (ms[j].body != [] ==> out == Some(ms[j].body))
      ensures ShowsOld(old(fs[..]), fs[..], files) && |ms| - 1 - j < |files|
      ensures ms[j].body == [] ==> out == Some(Chunk(fs[..], pages[..], Head(files[|ms| - 1 - j])))
    {
      hide Stream, Encode, Entries, Shelved, BlocksNeeded, FramesNeeded, NameOf, Terminated, FirstNamed, Chunk,
           ShowsOld, Valid;
      var st := ReceiveArchive(ms, last, rest);
      NewestOfArchive(files, old(files), ms, path, j);
      out := FsPrintFile(path);
    }

    /** Used and free blocks make up the table. */
    method FsStats() returns (used: int, unused: nat)
      requires Valid()
      ensures unused == |free| && used == 1 + |Owned(files)| && used + unused == NB_BLOCKS
    {
      hide Kept, Zeros, Distinct, FilesLinked, Linked;
      unused := 0;
      assert free[0..] == free;
      var i := firstFree;
      while i != 0
        invariant unused <= |free| && Linked(Nexts(fs[..]), i, free[unused..])
        decreases |free| - unused
      {
        LinkedStep(Nexts(fs[..]), i, free[unused..]);
        assert free[unused..][1..] == free[unused + 1..];
        unused := unused + 1;
        i := fs[i].next;
      }
      LinkedStep(Nexts(fs[..]), i, free[unused..]);
      used := NB_BLOCKS - unused;
    }
  }

  lemma OpenInTable(bs: seq<Block>, first: Byte, free: seq<Byte>, open: seq<Byte>, files: seq<File>)
    requires Open(bs, first, free, open, files)
    ensures |bs| == NB_BLOCKS && open != [] && Last(open) < NB_BLOCKS && first < NB_BLOCKS
    ensures first == 0 <==> free == []
  {
    hide Partition, FilesLinked;
    LastApart(free, open, files);
    FirstIsFree(bs, first, free);
  }

  lemma BufferInUse(bs: seq<Block>, pages: seq<Page>, refs: seq<Byte>, kept: set<Byte>, done: seq<Byte>,
                    received: seq<Byte>,
                    files: seq<File>)
    requires Kept(bs, pages, refs, kept, done, received, files)
    ensures |refs| == 256 && forall f :: f in kept ==> refs[f] != 0
  {
    hide BytesOf, Stored;
  }

  lemma OpenWithData(bs: seq<Block>, first: Byte, free: seq<Byte>, open: seq<Byte>, files: seq<File>, f: Byte,
                     size: Word)
    requires Open(bs, first, free, open, files) && Last(open) < NB_BLOCKS
    ensures Open(WithData(bs, Last(open), f, size), first, free, open, files)
  {
    hide Partition, FilesLinked, Linked;
    var bs' := WithData(bs, Last(open), f, size);
    assert Nexts(bs') == Nexts(bs) && DNexts(bs') == DNexts(bs);
    FillKeeps(bs, first, free, open, files, bs');
  }

  lemma NothingKept(bs: seq<Block>, pages: seq<Page>, refs: seq<Byte>, f: Byte)
    requires |refs| == 256 && refs[f] != 0
    ensures Kept(bs, pages, refs, {f}, [], [], [])
  {
  }

  lemma LabelledBy(was: Name, src: seq<Byte>, n: nat)
    requires n <= |src| && NAME_SIZE <= |src|
    ensures Labelled(StrNCpy(was, src[..NAME_SIZE], if NAME_SIZE > n then n else NAME_SIZE), src, n)
  {
    assert forall i :: 0 <= i <= NAME_SIZE ==> src[..NAME_SIZE][..i] == src[..i];
    assert forall i :: 0 <= i <= n ==> src[..n][..i] == src[..i];
  }

  lemma LaidInTable(bs: seq<Block>, first: Byte, free: seq<Byte>, files: seq<File>)
    requires Laid(bs, first, free, files)
    ensures |bs| == NB_BLOCKS && first < NB_BLOCKS && (first == 0 <==> free == [])
  {
    hide Partition, FilesLinked;
    FirstIsFree(bs, first, free);
  }

  lemma NothingDone(bs: seq<Block>, files: seq<File>)
    ensures Untouched(bs, bs, Filled(files)) && Shelved(files, files, [])
  {
  }

  lemma FittingNext(before: seq<File>, now: seq<File>, e: Entry)
    requires Fitting(before) && |now| == |before| + 1 && now[1..] == before && MadeOf(now[0], e)
    ensures Fitting(now)
  {
    assert now == [now[0]] + before;
    FittingMore(now[0], before);
  }

  lemma ClosedIsKept(bs: seq<Block>, pages: seq<Page>, refs: seq<Byte>, kept: set<Byte>, f: File, files: seq<File>)
    requires Kept(bs, pages, refs, kept, if f.body != [] then f.chain else [], f.body, files)
    ensures Kept(bs, pages, refs, kept, [], [], [f] + files)
  {
    KeptIsStored(bs, pages, refs, kept, f, files);
    assert Filled([f] + files) + Elements([]) == Filled([f] + files);
  }

  /** Names and kinds survive a reception. */
  lemma OpenKinds(bs1: seq<Block>, bs2: seq<Block>, bs3: seq<Block>, b: Byte, f: File, files: seq<File>)
    requires Named(bs1, files) && |bs2| == NB_BLOCKS && b < NB_BLOCKS && f.chain != [] && f.chain[0] < NB_BLOCKS
    requires SameLabels(bs1, bs2)
    requires IsInode(bs1[f.chain[0]]) && f.name == bs2[f.chain[0]].name
    requires bs3 == bs2[b := bs2[b].(next := 0)]
    ensures Named(bs3, [f] + files)
  {
    NamedFrame(bs1, bs3, files);
    NamedMore(bs3, f, files);
  }

  lemma KeptBuffer(bs: seq<Block>, pages: seq<Page>, pages': seq<Page>, refs: seq<Byte>, kept: set<Byte>, buf: Byte,
                   files: seq<File>)
    requires Kept(bs, pages, refs, kept, [], [], files) && buf in kept && |pages| == |pages'| == 256
    requires forall g: Byte :: g != buf ==> pages'[g] == pages[g]
    ensures Kept(bs, pages', refs, kept, [], [], files)
  {
    hide BytesOf;
    forall x | x in Filled(files)
      ensures SameChunk(bs, pages, bs, pages', x)
    {
      assert x in Filled(files) + Elements([]);
    }
    StoredFrame(bs, pages, bs, pages', files);
    BytesFrame(bs, pages, bs, pages', []);
  }

  lemma KeptUse(bs: seq<Block>, pages: seq<Page>, refs: seq<Byte>, kept: set<Byte>, files: seq<File>)
    requires Kept(bs, pages, refs, kept, [], [], files)
    ensures |refs| == 256 && forall f :: f in kept ==> refs[f] != 0
  {
    BufferInUse(bs, pages, refs, kept, [], [], files);
  }

  lemma BufferKept(bs: seq<Block>, pages: seq<Page>, refs: seq<Byte>, f: Byte, buf: Byte, files: seq<File>)
    requires Kept(bs, pages, refs, {f}, [], [], files) && |refs| == 256 && refs[buf] == 0
    ensures Kept(bs, pages, refs[buf := 1], {f, buf}, [], [], files)
  {
    hide BytesOf;
    ApartKept(bs, refs, Filled(files) + Elements([]), {f}, buf);
    assert {f} + {buf} == {f, buf};
  }

  lemma BehindHead(was: Page, r: seq<Byte>, at: nat, page: Page)
    requires at < 2 && r != []
    ensures page == was[..at] + r[..1] + was[at + 1..] ==>
              page[2..] == was[2..] && page[at] == r[0] && page[..at] == was[..at]
  {
  }

  lemma HeaderIn(there: Page, r: seq<Byte>, page: Page)
    requires 24 <= |r| && page == there[..2] + r[..24] + there[2 + 24..]
    ensures page[2..HDR_SIZE] == r[..24]
  {
  }

  lemma NameIn(there: Page, r: seq<Byte>, upto: Page, page: Page, n: nat)
    requires 24 + n <= |r| && HDR_SIZE + n <= PAGE_SIZE && there[..2] == [MAGIC0, MAGIC1]
    requires upto == there[..2] + r[..24] + there[2 + 24..]
    requires page == upto[..HDR_SIZE] + r[24..][..n] + upto[HDR_SIZE + n..]
    ensures page == Landed(there, r[..24 + n]) && page[HDR_SIZE..][..n] == r[24..24 + n] && r[24..][n..] == r[24 + n..]
  {
    var whole := Landed(there, r[..24 + n]);
    assert upto[..HDR_SIZE] == [MAGIC0, MAGIC1] + r[..24];
    assert upto[HDR_SIZE + n..] == there[HDR_SIZE + n..];
    assert r[..24 + n] == r[..24] + r[24..][..n];
  }

  lemma TrailerSeen(page: Page)
    ensures IsTrailer(page) <==> page[HDR_SIZE..HDR_SIZE + 11] == TRAILER
  {
  }

  lemma NameBy(stored: Name, src: seq<Byte>, n: nat)
    requires n <= |src| && Labelled(stored, src, n)
    ensures NamedAfter(stored, src[..n])
  {
    assert src[..n][..|src[..n]|] == src[..n];
  }

  lemma ShelfMore(before: seq<File>, now: seq<File>, files0: seq<File>, es: seq<Entry>, e: Entry)
    requires Shelved(before, files0, es) && |now| == |before| + 1 && now[1..] == before && MadeOf(now[0], e)
    ensures Shelved(now, files0, es + [e])
  {
    hide MadeOf;
    assert now[|es| + 1..] == now[1..][|es|..];
    forall j | 0 <= j < |es + [e]|
      ensures MadeOf(now[|es + [e]| - 1 - j], (es + [e])[j])
    {
      if j < |es| {
        assert now[|es| - j] == now[1..][|es| - 1 - j];
      }
    }
  }

  lemma NeededMore(es: seq<Entry>, e: Entry)
    ensures BlocksNeeded(es + [e]) == BlocksNeeded(es) + BlocksFor(|e.body|)
    ensures FramesNeeded(es + [e]) == FramesNeeded(es) + PagesFor(|e.body|)
  {
    assert (es + [e])[..|es|] == es;
  }

  lemma {:induction false} NeededGrows(es: seq<Entry>, more: seq<Entry>)
    ensures BlocksNeeded(es) <= BlocksNeeded(es + more) && FramesNeeded(es) <= FramesNeeded(es + more)
    decreases |more|
  {
    if more == [] {
      assert es + more == es;
    } else {
      var k := |more| - 1;
      NeededGrows(es, more[..k]);
      NeededMore(es + more[..k], more[k]);
      assert es + more == (es + more[..k]) + [more[k]];
    }
  }

  /** A file that does not fit is part of what is asked for. */
  lemma MoreNeeded(es: seq<Entry>, all: seq<Entry>, ending: Ending, name: seq<Byte>, t: seq<Byte>, size: nat,
                   tail: (seq<Entry>, Ending))
    requires (all, ending) ==
             if |t| < size then (es, Abort(Some(Partial(name, t, size))))
               else (es + ([Entry(name, t[..size])] + tail.0), tail.1)
    ensures BlocksNeeded(es) + BlocksFor(size) <= BlocksNeeded(Asked(all, ending))
    ensures FramesNeeded(es) + PagesFor(size) <= FramesNeeded(Asked(all, ending))
  {
    if |t| < size {
      NeededMore(es, Entry(name, seq(size, _ => 0)));
    } else {
      var e := Entry(name, t[..size]);
      NeededMore(es, e);
      var more := Asked(all, ending)[|es| + 1..];
      assert Asked(all, ending) == (es + [e]) + more;
      NeededGrows(es + [e], more);
    }
  }

  lemma NothingNeeded()
    ensures BlocksNeeded([]) == 0 && FramesNeeded([]) == 0
  {
  }

  lemma NoFrame(es: seq<Entry>, ending: Ending, blocks: nat)
    ensures Short(es, ending, blocks, 0)
  {
  }

  /** What is short for the rest is short for the whole. */
  lemma ShortLater(es: seq<Entry>, rest: seq<Entry>, ending: Ending, blocks: nat, available: nat)
    requires BlocksNeeded(es) <= blocks && 1 + FramesNeeded(es) <= available
    requires || ending.TooLong? || blocks - BlocksNeeded(es) < BlocksNeeded(Asked(rest, ending))
             || available - 1 - FramesNeeded(es) < FramesNeeded(Asked(rest, ending))
    ensures Short(es + rest, ending, blocks, available)
  {
    var more := Asked(rest, ending);
    assert Asked(es + rest, ending) == es + more;
    NeededSum(es, more);
  }

  lemma {:induction false} NeededSum(es: seq<Entry>, more: seq<Entry>)
    ensures BlocksNeeded(es + more) == BlocksNeeded(es) + BlocksNeeded(more)
    ensures FramesNeeded(es + more) == FramesNeeded(es) + FramesNeeded(more)
    decreases |more|
  {
    if more == [] {
      assert es + more == es;
    } else {
      var k := |more| - 1;
      NeededSum(es, more[..k]);
      NeededMore(es + more[..k], more[k]);
      NeededMore(more[..k], more[k]);
      assert more == more[..k] + [more[k]];
      assert es + more == (es + more[..k]) + [more[k]];
    }
  }

  lemma FileBytes(bs: seq<Block>, pages: seq<Page>, refs: seq<Byte>, kept: set<Byte>, files: seq<File>, k: nat)
    requires Kept(bs, pages, refs, kept, [], [], files) && |pages| == 256 && k < |files| && files[k].body != []
    ensures BytesOf(bs, pages, files[k].chain) == files[k].body && SizeOf(bs, files[k].chain) == |files[k].body|
  {
    hide BytesOf, SizeOf;
    FilledMember(files, k);
    forall x | x in files[k].chain
      ensures x < |bs| && bs[x].size <= PAGE_SIZE
    {
      assert x in Elements(files[k].chain);
    }
    SizesAreBytes(bs, pages, files[k].chain);
  }

  lemma HeadNotRoot(bs: seq<Block>, first: Byte, free: seq<Byte>, files: seq<File>, k: nat)
    requires Laid(bs, first, free, files) && k < |files|
    ensures 0 < Head(files[k]) < NB_BLOCKS
  {
    hide Partition, Linked;
    PartitionApart(free, [], files);
    HeadsOwned(files, Nexts(bs));
    assert Heads(files)[k] == Head(files[k]);
    assert Head(files[k]) in Elements(Owned(files));
  }

  /** After a reception, looking up a name finds the last member sent under it, names being
      compared by their first 22 bytes. */
  lemma FoundNewest(now: seq<File>, before: seq<File>, es: seq<Entry>, path: seq<Byte>, j: nat)
    requires Shelved(now, before, es) && j < |es| && Terminated(path, NAME_SIZE)
    requires forall i :: 0 <= i < |es| ==> Terminated(es[i].name, NAME_SIZE)
    requires NameOf(es[j].name, NAME_SIZE) == NameOf(path, NAME_SIZE)
    requires forall i :: j < i < |es| ==> NameOf(es[i].name, NAME_SIZE) != NameOf(path, NAME_SIZE)
    ensures var k := FirstNamed(now, path); k == |es| - 1 - j && k < |now| && now[k].body == es[j].body
  {
    hide SameName, NameOf, Terminated, Shelved;
    var last := |es| - 1 - j;
    ShelvedIsLonger(now, before, es);
    forall p | 0 <= p <= last
      ensures SameName(now[p].name, path, NAME_SIZE) <==> p == last
    {
      NameMatches(now, before, es, path, |es| - 1 - p);
    }
    NameMatches(now, before, es, path, j);
    assert FirstNamed(now, path) == last;
  }

  /** After the reception of a well-formed archive. */
  lemma NewestOfArchive(now: seq<File>, before: seq<File>, ms: seq<Member>, path: seq<Byte>, j: nat)
    requires Shelved(now, before, Entries(ms)) && j < |ms| && Terminated(path, NAME_SIZE)
    requires forall i :: 0 <= i < |ms| ==> Good(ms[i])
    requires NameOf(ms[j].name, NAME_SIZE) == NameOf(path, NAME_SIZE)
    requires forall i :: j < i < |ms| ==> NameOf(ms[i].name, NAME_SIZE) != NameOf(path, NAME_SIZE)
    ensures var k := FirstNamed(now, path); k == |ms| - 1 - j && k < |now| && now[k].body == ms[j].body
  {
    hide NameOf, Terminated, Shelved, FirstNamed;
    forall i | 0 <= i < |ms|
      ensures Terminated(ms[i].name, NAME_SIZE)
    {
      EndsTerminated(ms[i].name, NAME_SIZE);
    }
    FoundNewest(now, before, Entries(ms), path, j);
  }

  lemma ShelvedIsLonger(now: seq<File>, before: seq<File>, es: seq<Entry>)
    requires Shelved(now, before, es)
    ensures |es| <= |now|
  {
  }

  lemma NameMatches(now: seq<File>, before: seq<File>, es: seq<Entry>, path: seq<Byte>, i: nat)
    requires Shelved(now, before, es) && i < |es| && Terminated(path, NAME_SIZE) && Terminated(es[i].name, NAME_SIZE)
    ensures |es| <= |now| && now[|es| - 1 - i].body == es[i].body
    ensures SameName(now[|es| - 1 - i].name, path, NAME_SIZE) <==>
              NameOf(es[i].name, NAME_SIZE) == NameOf(path, NAME_SIZE)
  {
    hide SameName, NameOf, CopiedName, Terminated;
    assert MadeOf(now[|es| - 1 - i], es[i]);
    assert es[i].name[..|es[i].name|] == es[i].name;
    StoredName(now[|es| - 1 - i].name, es[i].name, NAME_SIZE);
    SameNameMeans(now[|es| - 1 - i].name, path, NAME_SIZE);
  }

  lemma EmptyIsOneBlock(bs: seq<Block>, pages: seq<Page>, files: seq<File>, k: nat)
    requires k < |files| && Fitting(files) && files[k].body == [] && Head(files[k]) < |bs|
    ensures files[k].chain == [Head(files[k])]
    ensures SizeOf(bs, files[k].chain) == bs[Head(files[k])].size
    ensures BytesOf(bs, pages, files[k].chain) == Chunk(bs, pages, Head(files[k]))
  {
    var xs := files[k].chain;
    assert xs == [xs[0]] && xs[1..] == [];
    assert Chunk(bs, pages, xs[0]) + [] == Chunk(bs, pages, xs[0]);
  }

  lemma UntouchedMore(bs0: seq<Block>, bs1: seq<Block>, bs2: seq<Block>, xs: set<Byte>, ys: set<Byte>)
    requires Untouched(bs0, bs1, xs) && Untouched(bs1, bs2, ys)
    ensures Untouched(bs0, bs2, xs + ys)
    ensures ys <= xs ==> Untouched(bs0, bs2, xs)
    ensures xs <= ys ==> Untouched(bs0, bs2, ys)
  {
    assert xs <= ys ==> xs + ys == ys;
    assert ys <= xs ==> xs + ys == xs;
  }

  /** A file cut off in its body leaves names and other sizes alone. */
  lemma CutFile(bs0: seq<Block>, bs1: seq<Block>, bs2: seq<Block>, b0: Byte, first: Byte, free: seq<Byte>,
                open: seq<Byte>, files: seq<File>, filesize: nat)
    requires |bs0| == |bs1| == NB_BLOCKS && 0 < b0 < NB_BLOCKS && bs1 == WithInode(bs0, b0, bs1[b0].name)
    requires Named(bs1, files) && Open(bs2, first, free, open, files) && open[0] == b0 && SameLabels(bs1, bs2)
    requires Untouched(bs1, bs2, if filesize > 0 then Elements(open) else {})
    ensures Named(bs2, files) && NameOfBlock(bs2, open[0]) == bs1[b0].name && Untouched(bs0, bs2, Elements(open))
  {
    hide Partition, Linked, FilesLinked;
    forall k | 0 <= k < |files|
      ensures var x := Head(files[k]); x < |bs1| ==> bs2[x].name == bs1[x].name && SameSort(bs1[x], bs2[x])
    {
    }
    NamedFrame(bs1, bs2, files);
  }

  /** A new inode and the end of its chain touch no size and no page. */
  lemma ClosedUntouched(bs0: seq<Block>, bs1: seq<Block>, bs2: seq<Block>, b0: Byte, b: Byte, f: File, files: seq<File>)
    requires |bs0| == |bs1| == NB_BLOCKS && 0 < b0 < NB_BLOCKS && b < NB_BLOCKS
    requires bs1 == WithInode(bs0, b0, bs1[b0].name)
    requires Untouched(bs1, bs2, if f.body != [] then Elements(f.chain) else {})
    ensures Untouched(bs0, bs2[b := bs2[b].(next := 0)], Filled([f] + files))
  {
    assert ([f] + files)[1..] == files;
  }

  lemma ElementsMore(xs: seq<Byte>, x: Byte)
    ensures Elements(xs + [x]) == Elements(xs) + {x}
  {
    ElementsConcat(xs, [x]);
  }

  lemma SameSelf(bs: seq<Block>)
    ensures SameLabels(bs, bs) && Untouched(bs, bs, {}) && Elements([]) == {}
  {
  }

  lemma LabelKept(bs: seq<Block>, bs': seq<Block>, b: Byte)
    requires SameLabels(bs, bs') && b < |bs|
    ensures |bs'| == |bs| && bs'[b].name == bs[b].name
  {
  }

  lemma SameLabelsMore(bs0: seq<Block>, bs1: seq<Block>, bs2: seq<Block>)
    requires SameLabels(bs0, bs1) && SameLabels(bs1, bs2)
    ensures SameLabels(bs0, bs2)
  {
  }

  lemma PageCount(size: nat)
    ensures BlocksFor(size) == if size == 0 then 1 else PagesFor(size)
    ensures PagesFor(size) == 0 <==> size == 0
  {
  }

  /** After `n` whole pages and one more, the body is in, or there are pages to come. */
  lemma PageStep(filesize: nat, n: nat, size: nat)
    requires PAGE_SIZE * n < filesize
    requires var left := filesize - PAGE_SIZE * n; size == if PAGE_SIZE > left then left else PAGE_SIZE
    ensures var cur := PAGE_SIZE * n + size;
      if cur < filesize then cur == PAGE_SIZE * (n + 1) && n + 1 < PagesFor(filesize) else n + 1 == PagesFor(filesize)
  {
  }

  /** A reception gives an empty file no size: it shows the size its block had before. */
  lemma EmptyKeepsSize(bs0: seq<Block>, bs: seq<Block>, first: Byte, free: seq<Byte>, files: seq<File>)
    requires Laid(bs, first, free, files) && Untouched(bs0, bs, Filled(files))
    ensures ShowsOld(bs0, bs, files)
  {
    hide Partition, FilesLinked, Linked, Distinct;
    PartitionApart(free, [], files);
    forall k | 0 <= k < |files| && files[k].body == [] && Head(files[k]) < |bs|
      ensures Head(files[k]) !in Filled(files)
    {
      EmptyUnfilled(bs, files, k);
    }
  }

  /** The same after a body was cut off. */
  lemma CutKeepsSize(bs0: seq<Block>, bs: seq<Block>, first: Byte, free: seq<Byte>, open: seq<Byte>, files: seq<File>)
    requires Open(bs, first, free, open, files) && Untouched(bs0, bs, Filled(files) + Elements(open))
    ensures ShowsOld(bs0, bs, files)
  {
    hide Partition, FilesLinked, Linked, Distinct;
    PartitionApart(free, open, files);
    HeadsOwned(files, Nexts(bs));
    forall k | 0 <= k < |files| && files[k].body == [] && Head(files[k]) < |bs|
      ensures Head(files[k]) !in Filled(files) + Elements(open)
    {
      EmptyUnfilled(bs, files, k);
      assert Heads(files)[k] in Elements(Owned(files));
    }
  }

  /** The blocks received of a file cut off in its body are a file of a well-laid table exactly
      if no block is free: otherwise their chain runs on into the free list. */
  lemma CutIsLaidExactly(bs: seq<Block>, first: Byte, free: seq<Byte>, open: seq<Byte>, files: seq<File>)
    requires Open(bs, first, free, open, files)
    ensures Laid(bs, first, free, Cut(bs, open) + files) <==> free == []
  {
    hide Partition;
    var f := Cut(bs, open)[0];
    assert Cut(bs, open) + files == [f] + files && f.chain == open;
    if free == [] {
      assert open + free == open;
      FilesMore(Nexts(bs), f, files);
      PartitionCloses(free, open, files, f);
      assert Heads([f] + files) == [open[0]] + Heads(files);
    } else if Laid(bs, first, free, [f] + files) {
      assert ([f] + files)[0] == f;
      LinkedOnce(Nexts(bs), open[0], open, open + free);
    }
  }

  lemma EmptyUnfilled(bs: seq<Block>, files: seq<File>, k: nat)
    requires Distinct(Owned(files)) && k < |files| && files[k].body == [] && FilesLinked(Nexts(bs), files)
    ensures Head(files[k]) !in Filled(files)
  {
    hide Linked, Distinct;
    UnfilledApart(files, k, files[k].chain[0]);
  }

  lemma {:induction false} UnfilledApart(files: seq<File>, k: nat, x: Byte)
    requires Distinct(Owned(files)) && k < |files| && files[k].body == [] && x in files[k].chain
    ensures x !in Filled(files)
    decreases k
  {
    hide Distinct;
    DistinctApart(files[0].chain, Owned(files[1..]));
    FilledOwned(files[1..]);
    var own := Elements(Owned(files[1..]));
    if k == 0 {
      assert x in Elements(files[0].chain);
      assert x in Filled(files[1..]) ==> x in own;
    } else {
      UnfilledApart(files[1..], k - 1, x);
      OwnedMember(files[1..], k - 1, x);
      assert x in own;
    }
  }
}
