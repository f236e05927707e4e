/** A whole TFTP transfer through both ends' buffers, packet after packet. */
module TftpTransfer {
  import opened Basics
  import opened Netascii
  import opened Stdio
  import opened TftpBuffers
  import Net = TftpProtocol

  ghost predicate Apart(sender: Buffers, src: File, receiver: Buffers, dst: File) {
    && sender.Parts !! receiver.Parts && src != dst
    && {src, dst} !! sender.Parts && {src, dst} !! receiver.Parts
  }

  /** One turn of the loops of tftpd_sendfile and recvfile, with read_ahead and write_behind called
      or not called: the receiver gets the next block of the sender's stream. */
  method OneBlock(sender: Buffers, src: File, receiver: Buffers, dst: File, convert: bool) returns (size: int)
    requires Apart(sender, src, receiver, dst) && sender.Valid() && receiver.Valid()
    requires sender.Reading(src, convert) && receiver.Writing(dst, convert)
    modifies sender.Parts, receiver.Parts, src, dst
    ensures sender.Valid() && receiver.Valid() && sender.Reading(src, convert) && receiver.Writing(dst, convert)
    ensures sender.source == old(sender.source) && sender.handed == old(sender.handed) + 1
    ensures receiver.base == old(receiver.base)
    ensures receiver.blocks == old(receiver.blocks) + [Chunk(sender.Stream(convert), old(sender.handed))]
    ensures size == |Chunk(sender.Stream(convert), old(sender.handed))|
  {
    hide Chunk, Encode, Decode, Flat, Buffers.Reading, Buffers.Writing;
    var n, block := sender.ReadIt(src, convert);
    if * {
      sender.ReadAheadAtLeisure(src, convert);
    }
    if * {
      var r := receiver.WriteBehindAtLeisure(dst, convert);
    }
    var packet := block[..n];
    assert packet == Chunk(sender.Stream(convert), old(sender.handed)) && |packet| == n;
    receiver.Arrive(dst, convert, packet);
    size, block := receiver.WriteIt(dst, n, convert);
  }

  /** A whole transfer: the receiver's file grows by exactly the sender's file. */
  method TransferFile(sender: Buffers, src: File, receiver: Buffers, dst: File, convert: bool)
    requires sender.Valid() && receiver.Valid() && Apart(sender, src, receiver, dst)
    requires src.pos == 0 && dst.pos == |dst.data|
    modifies sender.Parts, receiver.Parts, src, dst
    ensures src.data == old(src.data) && dst.data == old(dst.data) + old(src.data)
  {
    hide Chunk, Encode, Decode, Flat, Buffers.Reading, Buffers.Writing;
    ghost var original := src.data;
    sender.RInit(src, convert);
    receiver.WInit(dst, convert);
    if * {
      sender.ReadAheadAtLeisure(src, convert);
    }
    ghost var e := sender.Stream(convert);
    var size := SEGSIZE;
    while size == SEGSIZE
      invariant sender.Valid() && receiver.Valid()
      invariant sender.Reading(src, convert) && sender.source == original && e == sender.Stream(convert)
      invariant receiver.Writing(dst, convert) && receiver.base == old(dst.data)
      invariant sender.handed == |receiver.blocks|
      invariant forall i :: 0 <= i < |receiver.blocks| ==> receiver.blocks[i] == Chunk(e, i)
      invariant size == SEGSIZE ==> SEGSIZE * sender.handed <= |e|
      invariant size != SEGSIZE ==> receiver.blocks != [] && size == |receiver.blocks[|receiver.blocks| - 1]|
      decreases size == SEGSIZE, |e| - SEGSIZE * sender.handed
    {
      ChunkSize(e, sender.handed);
      size := OneBlock(sender, src, receiver, dst, convert);
    }
    var r := receiver.WriteBehindAtLeisure(dst, convert);
    sender.Unchanged(src, convert);
    receiver.NothingWaits(dst, convert);
    ChunksFlatten(e, receiver.blocks);
    DecodeInvertsEncode(original);
  }

  /** The stream of octets that a file is sent as, and the file that such octets are written as. */
  function Coded(file: seq<Octet>, convert: bool): seq<Octet> { if convert then Encode(file) else file }

  function Decoded(e: seq<Octet>, convert: bool): seq<Octet> { if convert then Decode(e) else e }

  /** Both ends' buffers after some of the actions of a run that has come to state s. */
  ghost predicate Follow(s: Net.State, sender: Buffers, src: File, receiver: Buffers, dst: File, convert: bool)
    reads sender, sender.Parts, src, receiver, receiver.Parts, dst
  {
    && sender.Valid() && receiver.Valid() && Apart(sender, src, receiver, dst)
    && sender.Reading(src, convert) && sender.handed == s.sending && sender.Stream(convert) == s.e
    && receiver.Writing(dst, convert) && receiver.blocks == s.got
  }

  /** The routines that one action calls.  What is sent is the block in the sender's buffer in use. */
  method OneAction(s: Net.State, a: Net.Action, sender: Buffers, src: File, receiver: Buffers, dst: File, convert: bool)
    requires Net.Inv(s) && s.sending > 0 && s.awaiting > 0 && Follow(s, sender, src, receiver, dst, convert)
    modifies sender.Parts, receiver.Parts, src, dst
    ensures Follow(Net.Step(s, a), sender, src, receiver, dst, convert)
    ensures sender.source == old(sender.source) && receiver.base == old(receiver.base)
  {
    hide Chunk, Encode, Decode, Flat, Buffers.Reading, Buffers.Writing, Net.Inv;
    match a
    case Send =>
      sender.BlockInUse(src, convert);
      assert sender.InUse() == Net.Current(s).data;
      sender.ReadAheadAtLeisure(src, convert);
    case Remind =>
      if !s.received {
        var r := receiver.WriteBehindAtLeisure(dst, convert);
      }
    case Hear(p) =>
      if p in s.net && p.DataPacket? && !s.received {
        Small(s, p);
        receiver.Arrive(dst, convert, p.data);
        if p.num == s.awaiting {
          var size, block := receiver.WriteIt(dst, |p.data|, convert);
        }
        var r := receiver.WriteBehindAtLeisure(dst, convert);
      }
    case Acked(p) =>
      if p in s.net && p.Ack? && !s.sent && Net.Confirms(s, p.num) && |Chunk(s.e, s.sending - 1)| == SEGSIZE {
        var n, block := sender.ReadIt(src, convert);
      }
    case Lose(p) =>
  }

  lemma Small(s: Net.State, p: Net.Packet)
    requires Net.Inv(s) && p in s.net && p.DataPacket?
    ensures |p.data| <= SEGSIZE
  {
  }

  /** A transfer over any network, through both ends' buffers: at all times the receiver's file, once
      its buffer is flushed, has grown by exactly the decoding of the blocks that came through, and
      when the receiver stops it has grown by the sender's file. */
  method TransferOverNetwork(role: Net.Role, actions: seq<Net.Action>, sender: Buffers, src: File,
                             receiver: Buffers, dst: File, convert: bool)
    returns (s: Net.State)
    requires sender.Valid() && receiver.Valid() && Apart(sender, src, receiver, dst)
    requires src.pos == 0 && dst.pos == |dst.data|
    modifies sender.Parts, receiver.Parts, src, dst
    ensures s == Net.Run(Net.Init(role, Coded(src.data, convert)), actions) && src.data == old(src.data)
    ensures dst.data == old(dst.data) + Decoded(Flat(s.got), convert)
    ensures s.received ==> dst.data == old(dst.data) + src.data
    ensures s.received && convert ==> IsNetascii(Flat(s.got))
  {
    hide Chunk, Encode, Decode, Flat, IsNetascii, Buffers.Reading, Buffers.Writing, Net.Inv, Net.Step;
    sender.RInit(src, convert);
    receiver.WInit(dst, convert);
    var start := Net.Init(role, Coded(src.data, convert));
    ghost var original := src.data;
    if * {
      sender.ReadAheadAtLeisure(src, convert);
    }
    var n, block := sender.ReadIt(src, convert);
    s := start;
    Net.RunKeeps(role, start.e, []);
    Net.RunNothing(start);
    for i := 0 to |actions|
      invariant s.sending > 0 && s.awaiting > 0
      invariant s == Net.Run(start, actions[..i]) && Net.Inv(s) && Follow(s, sender, src, receiver, dst, convert)
      invariant sender.source == original && receiver.base == old(dst.data)
    {
      Net.StepKeeps(s, actions[i]);
      assert actions[..i + 1][..i] == actions[..i];
      OneAction(s, actions[i], sender, src, receiver, dst, convert);
      s := Net.Step(s, actions[i]);
    }
    assert actions[..|actions|] == actions;
    var r := receiver.WriteBehindAtLeisure(dst, convert);
    sender.Unchanged(src, convert);
    receiver.NothingWaits(dst, convert);
    Net.NothingIsLostOrRepeated(role, start.e, actions);
    DecodeInvertsEncode(original);
    EncodedIsNetascii(original);
  }

  lemma ChunkSize(e: seq<Octet>, k: nat)
    ensures |Chunk(e, k)| == SEGSIZE ==> SEGSIZE * (k + 1) <= |e|
  {
  }
}
