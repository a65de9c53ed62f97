/** The archive stream the file system receives: old binary cpio members, as the receiver
    reads them. */
module Cpio {
  import opened Words
  import opened Wrappers

  const MAGIC0: Byte := 0xC7
  const MAGIC1: Byte := 0x71
  const HDR_SIZE := 26
  const PAGE_SIZE := 4096

  /** "TRAILER!!!" with its terminating NUL. */
  const TRAILER: seq<Byte> := [0x54, 0x52, 0x41, 0x49, 0x4C, 0x45, 0x52, 0x21, 0x21, 0x21, 0x00]

  type Page = s: seq<Byte> | |s| == 4096 witness seq(4096, _ => 0)

  /** A member received: its name as sent, and its body. */
  datatype Entry = Entry(name: seq<Byte>, body: seq<Byte>)

  /** How a reception ends: at the trailer; by the operator's abort, perhaps within a body;
      or in a panic over a name longer than a page. */
  datatype Ending = Trailer(rest: seq<Byte>) | Abort(partial: Option<Partial>) | TooLong
  datatype Partial = Partial(name: seq<Byte>, received: seq<Byte>, size: nat)

  /** Up to and past the next magic number. A byte that fails to follow the first magic byte
      is consumed with it. */
  function Scan(rx: seq<Byte>): (r: Option<seq<Byte>>)
    ensures r.Some? ==> |r.value| + 2 <= |rx|
    decreases |rx|
  {
    if rx == [] then None
    else if rx[0] != MAGIC0 then Scan(rx[1..])
    else if |rx| == 1 then None
    else if rx[1] != MAGIC1 then Scan(rx[2..])
    else Some(rx[2..])
  }

  function NameSize(hdr: seq<Byte>): nat
    requires |hdr| == 24
  {
    Join(hdr[18], hdr[19])
  }

  function FileSize(hdr: seq<Byte>): nat
    requires |hdr| == 24
  {
    Join(hdr[20], hdr[21]) * 0x1_0000 + Join(hdr[22], hdr[23])
  }

  /** The receive page after a header and a name have been read into it. */
  function Landed(page: Page, bytes: seq<Byte>): Page
    requires |bytes| <= PAGE_SIZE - 2
  {
    [MAGIC0, MAGIC1] + bytes + page[2 + |bytes|..]
  }

  /** The string comparison with the trailer's name runs over whatever the page holds. */
  predicate IsTrailer(page: Page) {
    page[HDR_SIZE..HDR_SIZE + 11] == TRAILER
  }

  /** The members of a stream, and how it ends, with `page` in the receive page. */
  function Parse(rx: seq<Byte>, page: Page): (r: (seq<Entry>, Ending))
    decreases |rx|
  {
    match Scan(rx)
    case None => ([], Abort(None))
    case Some(r) =>
      if |r| < 24 then ([], Abort(None))
      else
        var n, size := NameSize(r[..24]), FileSize(r[..24]);
        if HDR_SIZE + n > PAGE_SIZE then ([], TooLong)
        else if |r| < 24 + n then ([], Abort(None))
        else
          var page', t := Landed(page, r[..24 + n]), r[24 + n..];
          if IsTrailer(page') then ([], Trailer(t))
          else if |t| < size then ([], Abort(Some(Partial(r[24..24 + n], t, size))))
          else
            var (es, ending) := Parse(t[size..], page');
            ([Entry(r[24..24 + n], t[..size])] + es, ending)
  }

  // ----- Writing a stream -----

  /** A member as an archiver writes it. `gap` is what precedes its header, such as padding;
      `fields` are the nine header words the receiver ignores. */
  datatype Member = Member(gap: seq<Byte>, fields: seq<Byte>, name: seq<Byte>, body: seq<Byte>)

  function Encode(m: Member): seq<Byte>
    requires |m.name| < 0x1_0000 && |m.body| < 0x1_0000_0000
  {
    m.gap + ([MAGIC0, MAGIC1] + (Header(m) + (m.name + m.body)))
  }

  function Header(m: Member): seq<Byte>
    requires |m.name| < 0x1_0000 && |m.body| < 0x1_0000_0000
  {
    m.fields + Bytes16(|m.name|) + Bytes16(|m.body| / 0x1_0000) + Bytes16(|m.body| % 0x1_0000)
  }

  /** No magic byte in the gap, nine words of fields, and a terminated name that fits. */
  predicate Good(m: Member) {
    && MAGIC0 !in m.gap && |m.fields| == 18 && |m.body| < 0x1_0000_0000
    && m.name != [] && m.name[|m.name| - 1] == 0 && HDR_SIZE + |m.name| <= PAGE_SIZE
  }

  predicate Ends(m: Member) {
    TRAILER <= m.name
  }

  function Stream(ms: seq<Member>): seq<Byte>
    requires forall i :: 0 <= i < |ms| ==> Good(ms[i])
  {
    if ms == [] then []
    else
      assert Good(ms[0]);
      Encode(ms[0]) + Stream(ms[1..])
  }

  function Entries(ms: seq<Member>): seq<Entry> {
    seq(|ms|, i requires 0 <= i < |ms| => Entry(ms[i].name, ms[i].body))
  }

  // ----- Round trip -----

  lemma {:induction false} ScanGap(gap: seq<Byte>, rest: seq<Byte>)
    requires MAGIC0 !in gap
    ensures Scan(gap + ([MAGIC0, MAGIC1] + rest)) == Some(rest)
    decreases |gap|
  {
    var rx := gap + ([MAGIC0, MAGIC1] + rest);
    if gap == [] {
      assert rx == [MAGIC0, MAGIC1] + rest;
      assert rx[2..] == rest;
    } else {
      ScanGap(gap[1..], rest);
      assert rx[1..] == gap[1..] + ([MAGIC0, MAGIC1] + rest);
      assert gap[0] in gap && rx[0] == gap[0];
    }
  }

  /** Bytes of the first magic value, `k` of them. */
  function Marks(k: nat): (s: seq<Byte>)
    ensures |s| == k && forall i :: 0 <= i < k ==> s[i] == 0xC7
  {
    seq(k, _ => 0xC7)
  }

  /** A byte that fails to follow the first magic byte is consumed with it. So after a run of first
      magic bytes the header's own is found if and only if the run is even: after an odd one its
      first byte is taken with the last of the run, and the scan goes on behind the second. */
  lemma {:induction false} ScanAfterMarks(k: nat, rest: seq<Byte>)
    ensures Scan(Marks(k) + ([0xC7, 0x71] + rest)) == if k % 2 == 0 then Some(rest) else Scan([0x71] + rest)
    decreases k
  {
    var rx := Marks(k) + ([0xC7, 0x71] + rest);
    if k == 0 {
      assert rx == [0xC7, 0x71] + rest && rx[2..] == rest;
    } else if k == 1 {
      assert rx[..2] == [0xC7, 0xC7] && rx[2..] == [0x71] + rest;
    } else {
      assert rx[2..] == Marks(k - 2) + ([0xC7, 0x71] + rest);
      ScanAfterMarks(k - 2, rest);
    }
  }

  lemma HeaderFields(m: Member)
    requires Good(m)
    ensures |Header(m)| == 24 && NameSize(Header(m)) == |m.name| && FileSize(Header(m)) == |m.body|
  {
    var h, n, size := Header(m), |m.name|, |m.body|;
    assert h[18] == n % 0x100 && h[19] == n / 0x100;
    assert h[20] == size / 0x1_0000 % 0x100 && h[21] == size / 0x1_0000 / 0x100;
    assert h[22] == size % 0x1_0000 % 0x100 && h[23] == size % 0x1_0000 / 0x100;
  }

  lemma TrailerLast(i: nat)
    requires i < 10
    ensures TRAILER[i] != 0
  {
  }

  /** The text with a NUL behind it, and perhaps more. */
  predicate Spells(name: seq<Byte>, text: string) {
    |name| > |text| && name[|text|] == 0 && forall i :: 0 <= i < |text| ==> name[i] == text[i] as int
  }

  lemma TrailerSpelt(name: seq<Byte>)
    ensures TRAILER <= name <==> Spells(name, "TRAILER!!!")
  {
    var text := "TRAILER!!!";
    assert text[0] == 'T' && text[1] == 'R' && text[2] == 'A' && text[3] == 'I' && text[4] == 'L' && text[5] == 'E';
    assert text[6] == 'R' && text[7] == '!' && text[8] == '!' && text[9] == '!';
    assert forall i :: 0 <= i < 10 ==> TRAILER[i] == text[i] as int;
    if Spells(name, text) {
      assert forall i :: 0 <= i < 11 ==> name[i] == TRAILER[i];
      assert name[..11] == TRAILER;
    }
  }

  /** The comparison with the trailer's name is decided by a terminated name alone. */
  lemma TrailerByName(page: Page, hdr: seq<Byte>, name: seq<Byte>)
    requires |hdr| == 24 && name != [] && name[|name| - 1] == 0 && HDR_SIZE + |name| <= PAGE_SIZE
    ensures IsTrailer(Landed(page, hdr + name)) <==> TRAILER <= name
    ensures TRAILER <= name <==> Spells(name, "TRAILER!!!")
  {
    hide Landed;
    TrailerSpelt(name);
    var landed := Landed(page, hdr + name);
    NameLands(page, hdr, name);
    var seen := landed[HDR_SIZE..HDR_SIZE + 11];
    if |name| >= 11 {
      assert seen == landed[HDR_SIZE..HDR_SIZE + |name|][..11] == name[..11];
    } else {
      var last := |name| - 1;
      assert seen[last] == landed[HDR_SIZE..HDR_SIZE + |name|][last] == 0;
      TrailerLast(last);
    }
  }

  lemma NameLands(page: Page, hdr: seq<Byte>, name: seq<Byte>)
    requires |hdr| == 24 && HDR_SIZE + |name| <= PAGE_SIZE
    ensures Landed(page, hdr + name)[HDR_SIZE..HDR_SIZE + |name|] == name
  {
    assert Landed(page, hdr + name) == ([MAGIC0, MAGIC1] + hdr) + name + page[2 + |hdr + name|..];
  }

  lemma EncodeThen(m: Member, rest: seq<Byte>)
    requires Good(m)
    ensures Encode(m) + rest == m.gap + ([MAGIC0, MAGIC1] + (Header(m) + (m.name + (m.body + rest))))
  {
    hide Header;
    var a, b, c, d: seq<Byte> := m.gap, [MAGIC0, MAGIC1], Header(m), m.name + m.body;
    assert d + rest == m.name + (m.body + rest);
    assert (c + d) + rest == c + (d + rest);
    assert (b + (c + d)) + rest == b + ((c + d) + rest);
    assert (a + (b + (c + d))) + rest == a + ((b + (c + d)) + rest);
  }

  lemma Slices(h: seq<Byte>, n: seq<Byte>, t: seq<Byte>)
    ensures var r, k := h + (n + t), |h| + |n|;
      r[..|h|] == h && r[|h|..k] == n && r[..k] == h + n && r[k..] == t
  {
    var r, k := h + (n + t), |h| + |n|;
    assert r == (h + n) + t;
    assert r[..k] == h + n;
    assert r[|h|..] == n + t;
  }

  /** One member at the head of a stream. */
  lemma ParseMember(m: Member, rest: seq<Byte>, page: Page)
    requires Good(m)
    ensures var page' := Landed(page, Header(m) + m.name);
      Parse(Encode(m) + rest, page) ==
      if Ends(m) then ([], Trailer(m.body + rest))
      else
        var (es, ending) := Parse(rest, page');
        ([Entry(m.name, m.body)] + es, ending)
  {
    hide Scan, Header, IsTrailer, NameSize, FileSize;
    var r := Header(m) + (m.name + (m.body + rest));
    EncodeThen(m, rest);
    ScanGap(m.gap, r);
    HeaderFields(m);
    var n := |m.name|;
    Slices(Header(m), m.name, m.body + rest);
    TrailerByName(page, Header(m), m.name);
    assert (m.body + rest)[..|m.body|] == m.body && (m.body + rest)[|m.body|..] == rest;
  }

  /** Whatever is in the receive page: a stream of good members up to the first trailer is
      read back member by member, and everything after the trailer's name is left. */
  lemma {:induction false} ParseStream(ms: seq<Member>, last: Member, rest: seq<Byte>, page: Page)
    requires forall i :: 0 <= i < |ms| ==> Good(ms[i]) && !Ends(ms[i])
    requires Good(last) && Ends(last)
    ensures Parse(Stream(ms) + (Encode(last) + rest), page) == (Entries(ms), Trailer(last.body + rest))
    decreases |ms|
  {
    hide Parse, Encode, Landed, Ends;
    if ms == [] {
      assert Stream(ms) + (Encode(last) + rest) == Encode(last) + rest && Entries(ms) == [];
      ParseMember(last, rest, page);
    } else {
      var more := Stream(ms[1..]) + (Encode(last) + rest);
      assert Stream(ms) + (Encode(last) + rest) == Encode(ms[0]) + more;
      HeaderFields(ms[0]);
      ParseMember(ms[0], more, page);
      ParseStream(ms[1..], last, rest, Landed(page, Header(ms[0]) + ms[0].name));
      assert [Entry(ms[0].name, ms[0].body)] + Entries(ms[1..]) == Entries(ms);
    }
  }

  // ----- Reading a stream piece by piece -----

  /** The first two bytes of the page do not matter. */
  lemma ParseSamePage(rx: seq<Byte>, page: Page, page': Page)
    requires page[2..] == page'[2..]
    ensures Parse(rx, page) == Parse(rx, page')
  {
    hide IsTrailer, Scan;
    if Scan(rx).Some? && |Scan(rx).value| >= 24 {
      var r := Scan(rx).value;
      var n := NameSize(r[..24]);
      if HDR_SIZE + n <= PAGE_SIZE && 24 + n <= |r| {
        assert page[2 + (24 + n)..] == page[2..][24 + n..] == page'[2..][24 + n..] == page'[2 + (24 + n)..];
        assert Landed(page, r[..24 + n]) == Landed(page', r[..24 + n]);
      }
    }
  }

  /** Bytes that are no header are passed over. */
  lemma ParseSkips(rx: seq<Byte>, page: Page)
    ensures rx != [] && rx[0] != MAGIC0 ==> Parse(rx, page) == Parse(rx[1..], page)
    ensures |rx| >= 2 && rx[0] == MAGIC0 && rx[1] != MAGIC1 ==> Parse(rx, page) == Parse(rx[2..], page)
    ensures rx == [] || rx == [MAGIC0] ==> Parse(rx, page) == ([], Abort(None))
  {
    hide IsTrailer, Landed, NameSize, FileSize;
  }

  /** After a magic number. */
  function ParseAfterMagic(r: seq<Byte>, page: Page): (seq<Entry>, Ending) {
    if |r| < 24 then ([], Abort(None))
    else if HDR_SIZE + NameSize(r[..24]) > PAGE_SIZE then ([], TooLong)
    else ParseAfterHeader(r, NameSize(r[..24]), FileSize(r[..24]), page)
  }

  function ParseAfterHeader(r: seq<Byte>, n: nat, size: nat, page: Page): (seq<Entry>, Ending)
    requires 24 <= |r| && HDR_SIZE + n <= PAGE_SIZE
  {
    if |r| < 24 + n then ([], Abort(None))
    else ParseAfterName(r[24 + n..], r[24..24 + n], size, Landed(page, r[..24 + n]))
  }

  function ParseAfterName(t: seq<Byte>, name: seq<Byte>, size: nat, page: Page): (seq<Entry>, Ending) {
    if IsTrailer(page) then ([], Trailer(t))
    else if |t| < size then ([], Abort(Some(Partial(name, t, size))))
    else
      var (es, ending) := Parse(t[size..], page);
      ([Entry(name, t[..size])] + es, ending)
  }

  lemma ParseMagic(rx: seq<Byte>, page: Page)
    requires |rx| >= 2 && rx[0] == MAGIC0 && rx[1] == MAGIC1
    ensures Parse(rx, page) == ParseAfterMagic(rx[2..], page)
  {
    hide IsTrailer, Landed, NameSize, FileSize;
  }
}
