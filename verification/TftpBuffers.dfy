/** The two packet buffers of libinetutils/tftpsubs.c: reading ahead of the network, or writing
    behind it, with the netascii conversion carried across the block boundaries. */
module TftpBuffers {
  import opened Basics
  import opened Netascii
  import opened Stdio

  const SEGSIZE := 512
  const BF_ALLOC := -3
  const BF_FREE := -2

  // ----- files cut into blocks -----

  function Min(a: int, b: int): int { if a < b then a else b }

  /** What is left of a stream after k blocks. */
  function Skip(e: seq<Octet>, k: nat): seq<Octet> { e[Min(SEGSIZE * k, |e|)..] }

  /** Block k of a stream: 512 octets, fewer at the end, none behind it. */
  function Chunk(e: seq<Octet>, k: nat): (c: seq<Octet>)
    ensures |c| <= SEGSIZE
  {
    e[Min(SEGSIZE * k, |e|)..Min(SEGSIZE * (k + 1), |e|)]
  }

  lemma NextChunk(e: seq<Octet>, k: nat, block: seq<Octet>, rest: seq<Octet>)
    requires block + rest == Skip(e, k) && |block| <= SEGSIZE && (|block| < SEGSIZE ==> rest == [])
    ensures block == Chunk(e, k) && rest == Skip(e, k + 1)
  {
    var s := Skip(e, k);
    assert block == s[..|block|] && rest == s[|block|..];
    assert |s| == |e| - Min(SEGSIZE * k, |e|);
    if |block| == SEGSIZE {
      assert SEGSIZE * (k + 1) <= |e|;
    } else {
      assert |e| < SEGSIZE * (k + 1);
    }
  }

  /** Blocks in order give back the stream, and every block but the last is full. */
  lemma {:induction false} ChunksFlatten(e: seq<Octet>, blocks: seq<seq<Octet>>)
    requires forall i :: 0 <= i < |blocks| ==> blocks[i] == Chunk(e, i)
    ensures Flat(blocks) == e[..Min(SEGSIZE * |blocks|, |e|)]
    ensures blocks != [] && |blocks[|blocks| - 1]| < SEGSIZE ==> Flat(blocks) == e
    decreases |blocks|
  {
    if blocks != [] {
      var n := |blocks| - 1;
      ChunksFlatten(e, blocks[..n]);
      var from, to := Min(SEGSIZE * n, |e|), Min(SEGSIZE * (n + 1), |e|);
      assert blocks[n] == e[from..to];
      assert e[..from] + e[from..to] == e[..to];
      assert to == |e| ==> e[..to] == e;
    }
  }

  // ----- the buffers -----

  /** The blocks of an encoded file, in order, are netascii: always a beginning of such a text, which can
      only end in the middle of a pair, and with the short block at the end all of it. */
  lemma BlocksAreNetascii(file: seq<Octet>, blocks: seq<seq<Octet>>)
    requires forall i :: 0 <= i < |blocks| ==> blocks[i] == Chunk(Encode(file), i)
    ensures exists rest :: IsNetascii(Flat(blocks) + rest)
    ensures forall i :: 0 <= i < |Flat(blocks)| && Flat(blocks)[i] == 10 ==> i > 0 && Flat(blocks)[i - 1] == 13
    ensures blocks != [] && |blocks[|blocks| - 1]| < SEGSIZE ==> IsNetascii(Flat(blocks))
  {
    hide Chunk, Flat, Encode;
    var e := Encode(file);
    EncodedIsNetascii(file);
    ChunksFlatten(e, blocks);
    var n := Min(SEGSIZE * |blocks|, |e|);
    assert Flat(blocks) + e[n..] == e;
  }

  class Bf {
    var counter: int
    const data: array<Octet>

    constructor ()
      ensures counter == BF_FREE && data.Length == SEGSIZE && fresh(data)
    {
      counter := BF_FREE;
      data := new Octet[SEGSIZE];
    }
  }

  class Buffers {
    const bf0: Bf
    const bf1: Bf
    var nextone: nat
    var current: nat
    var newline: bool
    var prevchar: int

    /** What a reader has been given to send, and how many blocks it has handed out. */
    ghost var source: seq<Octet>
    ghost var handed: nat

    /** What a writer found in the file, and the blocks it has been given since. */
    ghost var base: seq<Octet>
    ghost var blocks: seq<seq<Octet>>

    ghost const Parts: set<object>

    constructor ()
      ensures Valid() && fresh(Parts)
    {
      var a := new Bf();
      var b := new Bf();
      bf0, bf1 := a, b;
      nextone, current, newline, prevchar := 0, 0, false, -1;
      Parts := {this, a, b, a.data, b.data};
    }

    ghost predicate Valid()
      reads this
    {
      && Parts == {this, bf0, bf1, bf0.data, bf1.data}
      && bf0 != bf1 && bf0.data != bf1.data
      && bf0.data.Length == bf1.data.Length == SEGSIZE
      && nextone < 2 && current < 2
    }

    function Buf(i: nat): Bf { if i == 0 then bf0 else bf1 }

    /** rw_init */
    method RwInit(x: nat)
      requires Valid() && x < 2
      modifies this, bf0, bf1
      ensures Valid() && nextone == x && current == 0 && !newline && prevchar == -1
      ensures bf0.counter == BF_ALLOC && bf1.counter == BF_FREE
    {
      newline, prevchar := false, -1;
      bf0.counter := BF_ALLOC;
      current := 0;
      bf1.counter := BF_FREE;
      nextone := x;
    }

    // ----- reading ahead -----

    /** The octet of a pair that did not fit into the last block. */
    function Pending(): seq<Octet>
      reads `newline, `prevchar
    {
      if newline then [if prevchar == LF then LF else NUL] else []
    }

    ghost function Stream(convert: bool): seq<Octet>
      reads this
    {
      if convert then Encode(source) else source
    }

    ghost function Remaining(file: File, convert: bool): seq<Octet>
      requires file.pos <= |file.data|
      reads `newline, `prevchar, file
    {
      if convert then Pending() + Encode(file.data[file.pos..]) else file.data[file.pos..]
    }

    ghost function Filled(): nat
      reads this
    {
      if nextone == current then handed + 1 else handed
    }

    /** The block in use is the last one handed out; the other buffer is free or holds the next. */
    ghost predicate Reading(file: File, convert: bool)
      reads this, Parts, file
    {
      && Valid() && file !in Parts
      && file.data == source && file.pos <= |file.data| && (!convert ==> !newline)
      && Remaining(file, convert) == Skip(Stream(convert), Filled())
      && Buf(current).counter != BF_FREE
      && (handed > 0 ==> Holds(current, Chunk(Stream(convert), handed - 1)))
      && (nextone == current ==> Holds(1 - current, Chunk(Stream(convert), handed)))
      && (nextone != current ==> Buf(1 - current).counter == BF_FREE)
    }

    ghost predicate Holds(i: nat, block: seq<Octet>)
      reads this, Buf(i), Buf(i).data
    {
      Buf(i).counter == |block| && |block| <= Buf(i).data.Length && Buf(i).data[..|block|] == block
    }

    /** r_init */
    method RInit(file: File, convert: bool)
      requires Valid() && file !in Parts && file.pos == 0
      modifies Parts
      ensures Valid() && Reading(file, convert) && source == file.data && handed == 0
    {
      RwInit(1);
      source, handed := file.data, 0;
      assert file.data[0..] == file.data && Skip(Stream(convert), 0) == Stream(convert);
    }

    /** The converting loop of read_ahead. */
    method FillAscii(file: File, data: array<Octet>) returns (n: nat)
      requires file.pos <= |file.data| && data.Length == SEGSIZE
      modifies this`newline, this`prevchar, file`pos, data
      ensures n <= SEGSIZE && file.pos <= |file.data|
      ensures data[..n] + Remaining(file, true) == old(Remaining(file, true))
      ensures n < SEGSIZE ==> Remaining(file, true) == []
    {
      hide Remaining;
      n := 0;
      ghost var whole := Remaining(file, true);
      while n < SEGSIZE
        invariant n <= SEGSIZE && file.pos <= |file.data|
        invariant data[..n] + Remaining(file, true) == whole
      {
        ghost var before, rest := data[..n], Remaining(file, true);
        var c := NextChar(file);
        if c == -1 {
          break;
        }
        data[n] := c;
        n := n + 1;
        assert data[..n] == before + [c];
        assert before + ([c] + Remaining(file, true)) == data[..n] + Remaining(file, true);
      }
    }

    /** One turn of that loop: the rest of a pair that was begun, or the next character of the file. */
    method NextChar(file: File) returns (c: int)
      requires file.pos <= |file.data|
      modifies this`newline, this`prevchar, file`pos
      ensures file.pos <= |file.data| && -1 <= c < 256
      ensures c == -1 ==> old(Remaining(file, true)) == [] && Remaining(file, true) == []
      ensures c != -1 ==> [c] + Remaining(file, true) == old(Remaining(file, true))
    {
      ghost var rest := file.data[file.pos..];
      if newline {
        c := if prevchar == LF then LF else NUL;
        newline := false;
      } else {
        c := file.Getc();
        if c != -1 {
          EncodeStep(rest);
          assert rest[0] == c && rest[1..] == file.data[file.pos..];
          if c == LF || c == CR {
            prevchar := c;
            c := CR;
            newline := true;
          }
        }
      }
    }

    lemma EncodeStep(s: seq<Octet>)
      ensures s != [] ==> Encode(s) == EncodeByte(s[0]) + Encode(s[1..])
    {
    }

    /** Fill one buffer, with or without conversion. */
    method Fill(file: File, convert: bool, b: Bf)
      requires b.data.Length == SEGSIZE && file.pos <= |file.data| && (!convert ==> !newline)
      modifies this`newline, this`prevchar, b, b.data, file`pos
      ensures file.pos <= |file.data| && (!convert ==> !newline)
      ensures 0 <= b.counter <= SEGSIZE
      ensures b.data[..b.counter] + Remaining(file, convert) == old(Remaining(file, convert))
      ensures b.counter < SEGSIZE ==> Remaining(file, convert) == []
    {
      if !convert {
        b.counter := file.Read(b.data, SEGSIZE);
      } else {
        b.counter := FillAscii(file, b.data);
      }
    }

    /** read_ahead: fill the next buffer, unless it is not free. */
    method ReadAhead(file: File, convert: bool)
      requires Valid() && file !in Parts && file.pos <= |file.data| && (!convert ==> !newline)
      modifies this`nextone, this`newline, this`prevchar, Buf(nextone), Buf(nextone).data, file`pos
      ensures Valid() && file.pos <= |file.data| && (!convert ==> !newline)
      ensures old(Buf(nextone).counter) != BF_FREE ==>
        && nextone == old(nextone) && newline == old(newline) && prevchar == old(prevchar) && file.pos == old(file.pos)
        && Buf(nextone).counter == old(Buf(nextone).counter) && Buf(nextone).data[..] == old(Buf(nextone).data[..])
      ensures old(Buf(nextone).counter) == BF_FREE ==>
        && nextone == 1 - old(nextone)
        && Filling(1 - nextone, file, convert, old(Remaining(file, convert)))
    {
      var b := Buf(nextone);
      if b.counter != BF_FREE {
        return;
      }
      nextone := 1 - nextone;
      Fill(file, convert, b);
    }

    /** Buffer i has taken the next block of what was left. */
    ghost predicate Filling(i: nat, file: File, convert: bool, was: seq<Octet>)
      requires file.pos <= |file.data|
      reads this, Buf(i), Buf(i).data, file
    {
      var b := Buf(i);
      && 0 <= b.counter <= b.data.Length && b.counter <= SEGSIZE
      && b.data[..b.counter] + Remaining(file, convert) == was
      && (b.counter < SEGSIZE ==> Remaining(file, convert) == [])
    }

    /** readit: free the block just acknowledged and hand out the next one. */
    method ReadIt(file: File, convert: bool) returns (n: nat, block: array<Octet>)
      requires Reading(file, convert)
      modifies Parts, file`pos
      ensures Valid() && Reading(file, convert) && source == old(source) && handed == old(handed) + 1
      ensures block == Buf(current).data && n <= SEGSIZE && block[..n] == Chunk(Stream(convert), old(handed))
    {
      hide Chunk, Skip, Encode, Pending;
      ghost var was := Remaining(file, convert);
      Buf(current).counter := BF_FREE;
      current := 1 - current;
      var b := Buf(current);
      assert Remaining(file, convert) == was;
      if b.counter == BF_FREE {
        ReadAhead(file, convert);
        NextChunk(Stream(convert), handed, b.data[..b.counter], Remaining(file, convert));
      }
      handed := handed + 1;
      n, block := b.counter, b.data;
    }

    /** Any call of read_ahead between two calls of readit keeps what a reader relies on, and does
        not touch the block in use. */
    method ReadAheadAtLeisure(file: File, convert: bool)
      requires Reading(file, convert)
      modifies Parts, file`pos
      ensures Valid() && Reading(file, convert) && nextone == current && current == old(current)
      ensures source == old(source) && handed == old(handed)
      ensures Buf(current).data[..] == old(Buf(current).data[..]) && Buf(current).counter == old(Buf(current).counter)
    {
      hide Chunk, Skip, Encode, Pending;
      ghost var free := Buf(nextone).counter == BF_FREE;
      ReadAhead(file, convert);
      if free {
        var b := Buf(1 - current);
        NextChunk(Stream(convert), handed, b.data[..b.counter], Remaining(file, convert));
      }
    }

    /** The octets of the block handed out last. */
    ghost function InUse(): seq<Octet>
      requires Valid()
      reads this, Parts
    {
      var b := Buf(current);
      if 0 <= b.counter <= SEGSIZE then b.data[..b.counter] else []
    }

    /** They are still the octets of that block, whatever was read ahead since. */
    lemma BlockInUse(file: File, convert: bool)
      requires Reading(file, convert) && handed > 0
      ensures InUse() == Chunk(Stream(convert), handed - 1)
    {
    }

    /** Reading never changes the file that is read. */
    lemma Unchanged(file: File, convert: bool)
      requires Reading(file, convert)
      ensures file.data == source
    {
    }

    /** A sender's loop without the network: every block is handed out once, up to the first short one.
        With conversion, what is handed out is the file in netascii. */
    method HandOutAll(file: File, convert: bool) returns (all: seq<seq<Octet>>)
      requires Valid() && file !in Parts && file.pos == 0
      modifies Parts, file`pos
      ensures all != [] && |all[|all| - 1]| < SEGSIZE
      ensures forall i :: 0 <= i < |all| - 1 ==> |all[i]| == SEGSIZE
      ensures convert ==> IsNetascii(Flat(all)) && Decode(Flat(all)) == file.data
      ensures !convert ==> Flat(all) == file.data
    {
      hide Chunk, Encode, Decode, Flat, Reading, IsNetascii;
      RInit(file, convert);
      ghost var e := Stream(convert);
      var n := SEGSIZE;
      all := [];
      while n == SEGSIZE
        invariant Valid() && Reading(file, convert) && source == file.data && handed == |all| && e == Stream(convert)
        invariant forall i :: 0 <= i < |all| ==> all[i] == Chunk(e, i)
        invariant forall i :: 0 <= i < |all| - 1 ==> |all[i]| == SEGSIZE
        invariant if n == SEGSIZE then SEGSIZE * |all| <= |e| && (all != [] ==> |all[|all| - 1]| == SEGSIZE)
                  else all != [] && n == |all[|all| - 1]| < SEGSIZE
        decreases n == SEGSIZE, |e| - SEGSIZE * |all|
      {
        WholeChunk(e, |all|);
        var block;
        n, block := ReadIt(file, convert);
        all := all + [block[..n]];
      }
      ChunksFlatten(e, all);
      if convert {
        BlocksAreNetascii(file.data, all);
        DecodeInvertsEncode(file.data);
      }
    }

    lemma WholeChunk(e: seq<Octet>, k: nat)
      ensures |Chunk(e, k)| == SEGSIZE ==> SEGSIZE * (k + 1) <= |e|
    {
    }

    // ----- writing behind -----

    /** The octets of a block that was received with count ct. */
    function Block(i: nat, ct: int): seq<Octet>
      requires ct <= Buf(i).data.Length
      reads this, Buf(i).data
    {
      if ct > 0 then Buf(i).data[..ct] else []
    }

    /** The blocks that have reached the file: all, or all but the one that is waiting. */
    ghost function Flushed(): seq<seq<Octet>>
      reads this
    {
      if nextone == current || blocks == [] then blocks else blocks[..|blocks| - 1]
    }

    ghost predicate InFile(file: File, convert: bool, done: seq<seq<Octet>>)
      reads this, file
    {
      if convert then Writer(file.data, prevchar) == PutAll(Writer(base, -1), Flat(done))
      else file.data == base + Flat(done)
    }

    /** The buffer in use is set aside for the network; the other one is free or waits to be written. */
    ghost predicate Writing(file: File, convert: bool)
      reads this, Parts, file
    {
      && Valid() && file !in Parts && file.pos == |file.data|
      && InFile(file, convert, Flushed())
      && Buf(current).counter == BF_ALLOC
      && (nextone == current ==> Buf(1 - current).counter == BF_FREE)
      && (nextone != current ==>
            && -1 <= Buf(1 - current).counter <= SEGSIZE && blocks != []
            && blocks[|blocks| - 1] == Block(1 - current, Buf(1 - current).counter))
    }

    /** w_init */
    method WInit(file: File, convert: bool)
      requires Valid() && file !in Parts && file.pos == |file.data|
      modifies Parts
      ensures Valid() && Writing(file, convert) && base == file.data && blocks == []
    {
      RwInit(0);
      base, blocks := file.data, [];
    }

    /** The converting loop of write_behind. */
    method PutOut(file: File, buf: array<Octet>, count: nat)
      requires count <= buf.Length && file.pos == |file.data| && Sound(Writer(file.data, prevchar))
      modifies this`prevchar, file
      ensures file.pos == |file.data|
      ensures Writer(file.data, prevchar) == PutAll(Writer(old(file.data), old(prevchar)), buf[..count])
    {
      ghost var w := Writer(file.data, prevchar);
      for p := 0 to count
        invariant file.pos == |file.data|
        invariant Writer(file.data, prevchar) == PutAll(w, buf[..p])
      {
        PutAllSound(w, buf[..p]);
        assert buf[..p + 1][..p] == buf[..p];
        var c := buf[p];
        if prevchar == CR && c == LF {
          file.BackOne();
        }
        if !(prevchar == CR && c == NUL) {
          file.Putc(c);
        }
        prevchar := c;
      }
    }

    /** write_behind: flush the next buffer, if it has been filled. */
    method WriteBehind(file: File, convert: bool) returns (r: int)
      requires Valid() && file !in Parts && file.pos == |file.data|
          && Sound(Writer(file.data, if convert then prevchar else -1))
      requires Buf(nextone).counter <= SEGSIZE
      modifies this`nextone, this`prevchar, Buf(nextone)`counter, file
      ensures Valid() && file.pos == |file.data|
      ensures old(Buf(nextone).counter) < -1 ==>
        r == 0 && nextone == old(nextone) && prevchar == old(prevchar) && file.data == old(file.data)
        && Buf(nextone).counter == old(Buf(nextone).counter)
      ensures old(Buf(nextone).counter) >= -1 ==>
        && nextone == 1 - old(nextone) && Buf(1 - nextone).counter == BF_FREE
        && r == (if old(Buf(nextone).counter) > 0 then old(Buf(nextone).counter) else -1)
        && var block := old(Block(nextone, Buf(nextone).counter));
           if convert then Writer(file.data, prevchar) == PutAll(Writer(old(file.data), old(prevchar)), block)
           else file.data == old(file.data) + block && prevchar == old(prevchar)
    {
      var b := Buf(nextone);
      if b.counter < -1 {
        return 0;
      }
      var count := b.counter;
      b.counter := BF_FREE;
      nextone := 1 - nextone;
      if count <= 0 {
        return -1;
      }
      if convert {
        PutOut(file, b.data, count);
      } else {
        file.Write(b.data, count);
      }
      r := count;
    }

    lemma FlatAppend(done: seq<seq<Octet>>, block: seq<Octet>)
      ensures Flat(done + [block]) == Flat(done) + block
    {
      assert (done + [block])[..|done + [block]| - 1] == done;
    }

    /** Once a block has been put out it counts as flushed. */
    lemma OneMore(start: Writer, done: seq<seq<Octet>>, block: seq<Octet>)
      ensures PutAll(PutAll(start, Flat(done)), block) == PutAll(start, Flat(done + [block]))
    {
      FlatAppend(done, block);
      PutAllSplits(start, Flat(done), block);
    }

    /** What one write_behind does to the file, in terms of the blocks it had before. */
    lemma Advances(file: File, convert: bool, done: seq<seq<Octet>>, all: seq<seq<Octet>>, was: Writer)
      requires all != [] && done == all[..|all| - 1]
      requires if convert then was == PutAll(Writer(base, -1), Flat(done)) else was.file == base + Flat(done)
      requires var block := all[|all| - 1];
               if convert then Writer(file.data, prevchar) == PutAll(was, block) else file.data == was.file + block
      ensures InFile(file, convert, all)
    {
      hide PutAll, Flat;
      assert all == done + [all[|all| - 1]];
      OneMore(Writer(base, -1), done, all[|all| - 1]);
      FlatAppend(done, all[|all| - 1]);
    }

    /** A call of write_behind at any time empties the waiting buffer and loses nothing. */
    method WriteBehindAtLeisure(file: File, convert: bool) returns (r: int)
      requires Writing(file, convert)
      modifies Parts, file
      ensures Valid() && Writing(file, convert) && nextone == current && current == old(current)
      ensures base == old(base) && blocks == old(blocks)
      ensures Buf(current).data[..] == old(Buf(current).data[..])
    {
      hide PutAll, Flat;
      ghost var done := Flushed();
      PutAllSound(Writer(base, -1), Flat(done));
      ghost var waits, was := nextone != current, Writer(file.data, prevchar);
      r := WriteBehind(file, convert);
      if waits {
        Advances(file, convert, done, blocks, was);
      }
    }

    /** A packet arrives in the buffer that is set aside for the network. */
    method Arrive(file: File, convert: bool, packet: seq<Octet>)
      requires Writing(file, convert) && |packet| <= SEGSIZE
      modifies Parts
      ensures Valid() && Writing(file, convert) && base == old(base) && blocks == old(blocks)
      ensures Block(current, |packet|) == packet
    {
      var room := Buf(current).data;
      for i := 0 to |packet|
        invariant Valid() && Writing(file, convert) && base == old(base) && blocks == old(blocks)
        invariant room == Buf(current).data && room[..i] == packet[..i]
      {
        room[i] := packet[i];
      }
    }

    /** writeit: the buffer in use now holds ct octets; hand out the other one. */
    method WriteIt(file: File, ct: int, convert: bool) returns (r: int, block: array<Octet>)
      requires Writing(file, convert) && -1 <= ct <= SEGSIZE
      modifies Parts, file
      ensures Valid() && Writing(file, convert) && base == old(base) && r == ct && block == Buf(current).data
      ensures blocks == old(blocks) + [old(Block(current, ct))]
    {
      hide PutAll, Flat;
      ghost var done := Flushed();
      ghost var last := Block(current, ct);
      PutAllSound(Writer(base, -1), Flat(done));
      Buf(current).counter := ct;
      current := 1 - current;
      if Buf(current).counter != BF_FREE {
        ghost var was := Writer(file.data, prevchar);
        var n := WriteBehind(file, convert);
        Advances(file, convert, done, blocks, was);
      }
      Buf(current).counter := BF_ALLOC;
      blocks := blocks + [last];
      assert Flushed() == old(blocks);
      r, block := ct, Buf(current).data;
    }

    /** When nothing waits, the file holds the decoding of all blocks in order. */
    lemma NothingWaits(file: File, convert: bool)
      requires Writing(file, convert) && nextone == current
      ensures file.data == base + if convert then Decode(Flat(blocks)) else Flat(blocks)
    {
      PutAllDecodes(base, -1, Flat(blocks));
    }
  }
}
