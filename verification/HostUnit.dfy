/** The host library as its code is written: it reads the line in pieces of any size. */
module HostUnit {
  import opened Words
  import opened Wrappers
  import opened Proto
  import opened Session
  import HostWire

  /** The bytes an unsuccessful or successful sequence of syncs leaves, and how many syncs it
      took; `None` if none was acknowledged. */
  function SyncLeft(input: seq<Byte>, tries: nat): Option<(seq<Byte>, nat)>
    decreases tries
  {
    if tries == 0 then None
    else if |input| >= 2 && input[..2] == [HostWire.SYN, HostWire.ACK] then Some((input[2..], 1))
    else
      match SyncLeft(if |input| >= 2 then input[2..] else [], tries - 1)
      case None => None
      case Some((left, n)) => Some((left, n + 1))
  }

  /** What `n` unsuccessful syncs leave: each has eaten two bytes, or the last ones. */
  function Eaten(input: seq<Byte>, n: nat): seq<Byte> {
    if 2 * n <= |input| then input[2 * n..] else []
  }

  lemma SyncStep(input: seq<Byte>, tries: nat)
    requires tries > 0
    ensures var ok := |input| >= 2 && input[..2] == [HostWire.SYN, HostWire.ACK];
      var rest := if |input| >= 2 then input[2..] else [];
      SyncLeft(input, tries) ==
      if ok then Some((rest, 1))
      else
        match SyncLeft(rest, tries - 1)
        case None => None
        case Some((left, n)) => Some((left, n + 1))
  {
  }

  lemma NoSyncs(input: seq<Byte>)
    ensures SyncLeft(input, 0) == None
  {
  }

  lemma EatenMore(input: seq<Byte>, i: nat)
    ensures Eaten(input, 0) == input
    ensures var left := Eaten(input, i); Eaten(input, i + 1) == if |left| >= 2 then left[2..] else []
  {
  }

  function Syns(n: nat): (s: seq<Byte>)
    ensures |s| == n
  {
    seq(n, _ => HostWire.SYN)
  }

  class Library {
    /** What will arrive on the line, what has been written to it, and the sizes of the
        pieces in which the line delivers; an exhausted list delivers byte by byte. */
    var rx: seq<Byte>
    var tx: seq<Byte>
    var pieces: seq<nat>

    constructor (rx: seq<Byte>, pieces: seq<nat>)
      ensures this.rx == rx && tx == [] && this.pieces == pieces
    {
      this.rx, tx, this.pieces := rx, [], pieces;
    }

    /** select, then read: at least one byte and at most `size`, or a timeout. */
    method ReadSome(size: nat) returns (b: Option<seq<Byte>>)
      modifies this`rx, this`pieces
      ensures b.None? <==> old(rx) == []
      ensures b.None? ==> rx == []
      ensures b.Some? ==> old(rx) == b.value + rx && |b.value| <= size && (size > 0 ==> b.value != [])
    {
      if rx == [] {
        return None;
      }
      var k := if pieces == [] || pieces[0] == 0 then 1 else pieces[0];
      if pieces != [] {
        pieces := pieces[1..];
      }
      if k > size {
        k := size;
      }
      if k > |rx| {
        k := |rx|;
      }
      b := Some(rx[..k]);
      rx := rx[k..];
    }

    /** Exactly `size` bytes, however the line fragments them; `None` is -ETIME. */
    method LsepcRead(size: nat) returns (b: Option<seq<Byte>>)
      modifies this`rx, this`pieces
      ensures b.Some? <==> size <= |old(rx)| && old(rx) != []
      ensures b.Some? ==> b.value == old(rx)[..size] && rx == old(rx)[size..]
      ensures b.None? ==> rx == []
    {
      var piece := ReadSome(size);
      if piece.None? {
        return None;
      }
      var buff := piece.value;
      while |buff| < size
        invariant old(rx) == buff + rx && |buff| <= size
        decreases size - |buff|
      {
        piece := ReadSome(size - |buff|);
        if piece.None? {
          return None;
        }
        assert old(rx) == buff + piece.value + rx;
        buff := buff + piece.value;
      }
      return Some(buff);
    }

    method Write(b: seq<Byte>)
      modifies this`tx
      ensures tx == old(tx) + b
    {
      tx := tx + b;
    }

    method LsepcSync() returns (ok: bool)
      modifies this
      ensures tx == old(tx) + [HostWire.SYN]
      ensures ok <==> |old(rx)| >= 2 && old(rx)[..2] == [HostWire.SYN, HostWire.ACK]
      ensures rx == if |old(rx)| >= 2 then old(rx)[2..] else []
    {
      Write([HostWire.SYN]);
      var synack := LsepcRead(2);
      if synack.None? {
        return false;
      }
      return synack.value[0] == HostWire.SYN && synack.value[1] == HostWire.ACK;
    }

    method LsepcGetSync() returns (ok: bool)
      modifies this
      ensures var spec := SyncLeft(old(rx), 3);
        ok == spec.Some?
        && (ok ==> rx == spec.value.0 && tx == old(tx) + Syns(spec.value.1))
        && (!ok ==> rx == Eaten(old(rx), 3) && tx == old(tx) + Syns(3))
    {
      hide SyncLeft, Eaten;
      EatenMore(rx, 0);
      for i := 0 to SYNC_FAILS
        invariant tx == old(tx) + Syns(i) && rx == Eaten(old(rx), i)
        invariant var now, spec := SyncLeft(rx, SYNC_FAILS - i), SyncLeft(old(rx), SYNC_FAILS);
          now.Some? == spec.Some? && (now.Some? ==> spec.value == (now.value.0, now.value.1 + i))
      {
        SyncStep(rx, SYNC_FAILS - i);
        EatenMore(old(rx), i);
        ok := LsepcSync();
        assert Syns(i + 1) == Syns(i) + [HostWire.SYN];
        if ok {
          return true;
        }
      }
      NoSyncs(rx);
      return false;
    }

    /** A command on the line: the syncs it took, then its frame and nothing else. */
    method LsepcSendCmd(cmd: Byte, args: seq<Byte>) returns (error: Option<Answer>)
      modifies this
      ensures 5 + |args| > 32 ==> error == Some(EMsgSize) && tx == old(tx) && rx == old(rx)
      ensures 5 + |args| <= 32 ==>
                var spec := SyncLeft(old(rx), 3);
                error == (if spec.Some? then None else Some(ERemoteIo))
                && (spec.Some? ==> rx == spec.value.0 && tx == old(tx) + Syns(spec.value.1) + Frame(cmd, args))
                && (spec.None? ==> rx == Eaten(old(rx), 3) && tx == old(tx) + Syns(3))
    {
      hide SyncLeft;
      var buffSize := 5 + |args|;
      if buffSize > CMD_SIZE {
        return Some(EMsgSize);
      }
      var ok := LsepcGetSync();
      if !ok {
        return Some(ERemoteIo);
      }
      Write([HostWire.ENQ, HostWire.SOH, cmd, HostWire.STX] + args + [HostWire.EOT]);
      return None;
    }

    /** The receiver consumes bytes up to the first point at which `Receive` is decided, and
        returns that decision; `None` is -ETIME, when all that will arrive decides nothing. */
    method LsepcRecvResp(room: nat) returns (r: Option<Answer>)
      modifies this`rx, this`pieces
      ensures r.Some? ==>
                var n := |old(rx)| - |rx|;
                && 0 <= n && rx == old(rx)[n..] && Receive(old(rx)[..n], room) == r
                && forall j :: 0 <= j < n ==> Receive(old(rx)[..j], room).None?
      ensures r.None? ==> Receive(old(rx), room).None?
    {
      hide Receive, Deciding;
      ghost var input := rx;
      StillWanting(input, room);
      DecidingCases(input, room);
      var ack := LsepcRead(1);
      if ack.None? {
        return None;
      }
      if ack.value[0] == HostWire.NAK {
        return Some(ECanceled);
      }
      if ack.value[0] != HostWire.ACK {
        return Some(EBadMsg);
      }
      var hdr := LsepcRead(2);
      if hdr.None? {
        return None;
      }
      assert hdr.value[0] == input[1] && hdr.value[1] == input[2] && rx == input[3..];
      if hdr.value[1] != HostWire.STX {
        return Some(EBadMsg);
      }
      var size: nat := hdr.value[0];
      if size > room {
        return Some(EMsgSize);
      }
      var resp := LsepcRead(size);
      if resp.None? {
        return None;
      }
      assert rx == input[3 + size..] && resp.value == input[3..3 + size];
      var ftr := LsepcRead(1);
      if ftr.None? {
        return None;
      }
      assert ftr.value[0] == input[3 + size];
      assert rx == input[4 + size..];
      if ftr.value[0] != HostWire.EOT {
        return Some(EBadMsg);
      }
      return Some(Received(resp.value));
    }
  }

  /** How many bytes of `input` decide an answer: acknowledgement, header, payload with its end. */
  function Deciding(input: seq<Byte>, room: nat): nat {
    if input == [] || input[0] != HostWire.ACK then 1
    else if |input| < 3 || input[2] != HostWire.STX || input[1] > room then 3
    else
      var n: nat := input[1];
      4 + n
  }

  lemma DecidingCases(input: seq<Byte>, room: nat)
    ensures Deciding(input, room) > 0
    ensures input != [] && input[0] != HostWire.ACK ==> Deciding(input, room) == 1
    ensures input != [] && input[0] == HostWire.ACK ==> Deciding(input, room) >= 3
    ensures |input| >= 3 && input[0] == HostWire.ACK && (input[2] != HostWire.STX || input[1] > room) ==>
              Deciding(input, room) == 3
    ensures |input| >= 3 && input[0] == HostWire.ACK && input[2] == HostWire.STX && input[1] <= room ==>
              var n: nat := input[1]; Deciding(input, room) == 4 + n
  {
  }

  /** Fewer bytes leave the receiver wanting more; so many decide. */
  lemma StillWanting(input: seq<Byte>, room: nat)
    ensures forall j :: 0 <= j < Deciding(input, room) && j <= |input| ==> Receive(input[..j], room).None?
    ensures |input| < Deciding(input, room) ==> Receive(input, room).None?
    ensures Deciding(input, room) <= |input| ==>
              Receive(input[..Deciding(input, room)], room) ==
              if input[0] == HostWire.NAK then Some(ECanceled)
              else if input[0] != HostWire.ACK then Some(EBadMsg)
              else if input[2] != HostWire.STX then Some(EBadMsg)
              else if input[1] > room then Some(EMsgSize)
              else if input[Deciding(input, room) - 1] != HostWire.EOT then Some(EBadMsg)
              else Some(Received(input[3..Deciding(input, room) - 1]))
  {
    var n := Deciding(input, room);
    assert input[..|input|] == input;
    if n <= |input| {
      var heard := input[..n];
      assert n >= 4 && input[0] == HostWire.ACK && input[2] == HostWire.STX && input[1] <= room ==>
               heard[3..n - 1] == input[3..n - 1];
    }
  }

  /** An answer decided: enough bytes have been heard, and none to spare. */
  predicate JustDecided(heard: seq<Byte>, room: nat) {
    Receive(heard, room).Some? && forall j :: 0 <= j < |heard| ==> Receive(heard[..j], room).None?
  }

  lemma DecidedLength(heard: seq<Byte>, room: nat)
    requires JustDecided(heard, room)
    ensures Deciding(heard, room) == |heard|
    ensures Receive(heard, room).value ==
            if heard[0] == HostWire.NAK then ECanceled
            else if heard[0] != HostWire.ACK then EBadMsg
            else if heard[2] != HostWire.STX then EBadMsg
            else if heard[1] > room then EMsgSize
            else if heard[|heard| - 1] != HostWire.EOT then EBadMsg
            else Received(heard[3..|heard| - 1])
  {
    hide Receive;
    StillWanting(heard, room);
    DecidingCases(heard, room);
    assert heard[..|heard|] == heard;
    assert !(Deciding(heard, room) < |heard|);
  }

  /** What decides an answer, byte for byte: a NAK; a header that announces more than fits; the
      whole answer to its EOT; anything else is no message. */
  lemma ReceiverExact(heard: seq<Byte>, room: nat, p: seq<Byte>)
    requires JustDecided(heard, room)
    ensures var a := Receive(heard, room).value;
      && (a == ECanceled <==> heard == [0x15])
      && (a == EMsgSize <==> |heard| == 3 && heard[0] == 0x06 && heard[2] == 0x02 && heard[1] > room)
      && (a == Received(p) <==> |p| <= room && |p| < 0x100 && heard == [0x06, |p|, 0x02] + p + [0x04])
  {
    hide Receive, JustDecided;
    DecidedLength(heard, room);
    DecidingCases(heard, room);
    hide Deciding;
    if |heard| >= 4 {
      assert heard == [heard[0], heard[1], heard[2]] + heard[3..|heard| - 1] + [heard[|heard| - 1]];
    }
    if |p| < 0x100 && heard == [0x06, |p|, 0x02] + p + [0x04] {
      assert heard[3..|heard| - 1] == p;
    }
  }

  /** The bytes after sync `j`, the others before it having had two each, are SYN ACK. */
  predicate Acknowledged(input: seq<Byte>, j: nat) {
    j >= 1 && 2 * j <= |input| && input[2 * j - 2] == 0x16 && input[2 * j - 1] == 0x06
  }

  /** Syncs are sent up to the first that is acknowledged, or all of them if none is. */
  lemma {:induction false} SyncExact(input: seq<Byte>, tries: nat)
    ensures var r := SyncLeft(input, tries);
      if r.None? then forall j :: 1 <= j <= tries ==> !Acknowledged(input, j)
      else
        var (left, n) := r.value;
        && n <= tries && Acknowledged(input, n) && left == input[2 * n..]
        && forall j :: 1 <= j < n ==> !Acknowledged(input, j)
    decreases tries
  {
    if tries > 0 {
      FirstPair(input);
      if !Acknowledged(input, 1) {
        var rest := if |input| >= 2 then input[2..] else [];
        SyncExact(rest, tries - 1);
        forall j: nat | j >= 1
          ensures Acknowledged(input, j + 1) <==> Acknowledged(rest, j)
        {
        }
        if SyncLeft(rest, tries - 1).None? {
          forall j | 1 <= j <= tries
            ensures !Acknowledged(input, j)
          {
            assert j > 1 ==> !Acknowledged(rest, j - 1);
          }
        } else {
          var n := SyncLeft(rest, tries - 1).value.1;
          assert rest[2 * n..] == input[2 * (n + 1)..];
          forall j | 1 <= j < n + 1
            ensures !Acknowledged(input, j)
          {
            assert j > 1 ==> !Acknowledged(rest, j - 1);
          }
        }
      }
    }
  }

  lemma FirstPair(input: seq<Byte>)
    ensures Acknowledged(input, 1) <==> |input| >= 2 && input[..2] == [HostWire.SYN, HostWire.ACK]
  {
    if |input| >= 2 {
      assert input[..2] == [input[0], input[1]];
    }
  }
}
