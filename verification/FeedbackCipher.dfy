/** The 64-bit DES feedback streams of the Telnet ENCRYPT option (libtelnet/enc_des.c).

    A stream turns a block cipher into a byte cipher, either in cipher feedback (CFB) or in
    output feedback (OFB).  The block cipher itself is a parameter: nothing below depends on
    what DES computes, only on both ends computing the same function. */
module FeedbackCipher {
  import opened Basics

  const BLOCK_SIZE := 8

  const ZERO_BLOCK: seq<Octet> := [0, 0, 0, 0, 0, 0, 0, 0]

  type Block = b: seq<Octet> | |b| == BLOCK_SIZE witness [0, 0, 0, 0, 0, 0, 0, 0]

  /** Bitwise exclusive or of two numbers, lowest bit first. */
  function Bits(x: nat, y: nat): nat
    decreases x + y
  {
    if x == 0 && y == 0 then 0 else (x + y) % 2 + 2 * Bits(x / 2, y / 2)
  }

  lemma {:induction false} BitsBound(x: nat, y: nat, limit: nat)
    requires x < limit && y < limit && limit in {1, 2, 4, 8, 16, 32, 64, 128, 256}
    ensures Bits(x, y) < limit
    decreases limit
  {
    if limit > 1 {
      BitsBound(x / 2, y / 2, limit / 2);
    }
  }

  lemma BitsStep(x: nat, y: nat, h: nat)
    ensures var b := (x + y) % 2 + 2 * h;
            b / 2 == h && (b + x) % 2 == (x + b) % 2 == y % 2
  {
  }

  lemma {:induction false} BitsCancel(x: nat, y: nat)
    ensures Bits(Bits(x, y), x) == y && Bits(x, Bits(x, y)) == y
    decreases x + y
  {
    if x == 0 && y == 0 {
    } else {
      var h := Bits(x / 2, y / 2);
      BitsCancel(x / 2, y / 2);
      BitsStep(x, y, h);
    }
  }

  /** Bit i of a number. */
  function BitOf(x: nat, i: nat): nat { if i == 0 then x % 2 else BitOf(x / 2, i - 1) }

  lemma {:induction false} BitsOfBits(x: nat, y: nat, i: nat)
    ensures BitOf(Bits(x, y), i) == 1 <==> BitOf(x, i) != BitOf(y, i)
    ensures BitOf(x, i) < 2
    decreases i
  {
    BitsStep(x, y, Bits(x / 2, y / 2));
    if i > 0 {
      BitsOfBits(x / 2, y / 2, i - 1);
    }
  }

  function Xor(x: Octet, y: Octet): Octet {
    BitsBound(x, y, 256);
    Bits(x, y)
  }

  /** A bit of the exclusive or is set exactly if one of the two bits is, and no more than eight are. */
  lemma XorIsBitwise(x: Octet, y: Octet, i: nat)
    ensures BitOf(Xor(x, y), i) == 1 <==> BitOf(x, i) != BitOf(y, i)
    ensures BitOf(Xor(x, y), i) < 2 && Xor(x, y) < 256
  {
    BitsOfBits(x, y, i);
    BitsOfBits(Xor(x, y), 0, i);
  }

  /** A key schedule is known by the key it was computed from; memory that was only cleared
      holds the schedule of no key. */
  datatype Schedule = Cleared | Of(key: Block)

  /** DES encryption of one block under a schedule. */
  type BlockCipher = (Schedule, Block) -> Block

  datatype Kind = Cfb | Ofb

  type Index = n: nat | n <= BLOCK_SIZE

  /** struct stinfo.  `index` counts the bytes of `feed` already used; 8 asks for a new block. */
  datatype Stream = Stream(output: Block, feed: Block, iv: Block, ikey: Block, sched: Schedule, index: Index)

  const CLEARED := Stream(ZERO_BLOCK, ZERO_BLOCK, ZERO_BLOCK, ZERO_BLOCK, Cleared, 0)

  // ----- what each C function does to a stream -----

  function Seeded(s: Stream, seed: Block): Stream {
    s.(iv := seed, output := seed, sched := Of(s.ikey), index := BLOCK_SIZE)
  }

  function Rekeyed(s: Stream, key: Block): Stream {
    s.(ikey := key, sched := Of(key), output := s.iv, index := BLOCK_SIZE)
  }

  /** Start a new feed block when the present one is used up. */
  function Refilled(k: Kind, des: BlockCipher, s: Stream): (t: Stream)
    ensures t.index < BLOCK_SIZE
  {
    if s.index == BLOCK_SIZE then
      s.(feed := des(s.sched, if k.Cfb? then s.output else s.feed), index := 0)
    else s
  }

  /** Note one byte of cipher text: only CFB feeds it back. */
  function Absorbed(k: Kind, s: Stream, cipher: Octet): (t: Stream)
    requires s.index < BLOCK_SIZE
  {
    s.(output := if k.Cfb? then s.output[s.index := cipher] else s.output, index := s.index + 1)
  }

  function EncryptByte(k: Kind, des: BlockCipher, s: Stream, plain: Octet): (r: (Stream, Octet))
  {
    var t := Refilled(k, des, s);
    var cipher := Xor(t.feed[t.index], plain);
    (Absorbed(k, t, cipher), cipher)
  }

  function DecryptByte(k: Kind, des: BlockCipher, s: Stream, cipher: Octet): (r: (Stream, Octet))
  {
    var t := Refilled(k, des, s);
    (Absorbed(k, t, cipher), Xor(cipher, t.feed[t.index]))
  }

  function BackedUp(s: Stream): (t: Stream)
  {
    if s.index > 0 then s.(index := s.index - 1) else s
  }

  function Encrypt(k: Kind, des: BlockCipher, s: Stream, plain: seq<Octet>): (r: (Stream, seq<Octet>))
    ensures |r.1| == |plain|
    decreases |plain|
  {
    if plain == [] then (s, []) else
      var n := |plain| - 1;
      var (t, cs) := Encrypt(k, des, s, plain[..n]);
      var (u, c) := EncryptByte(k, des, t, plain[n]);
      (u, cs + [c])
  }

  function Decrypt(k: Kind, des: BlockCipher, s: Stream, cipher: seq<Octet>): (r: (Stream, seq<Octet>))
    ensures |r.1| == |cipher|
    decreases |cipher|
  {
    if cipher == [] then (s, []) else
      var n := |cipher| - 1;
      var (t, ps) := Decrypt(k, des, s, cipher[..n]);
      var (u, p) := DecryptByte(k, des, t, cipher[n]);
      (u, ps + [p])
  }

  /** One encrypt_output call per chunk. */
  function EncryptChunks(k: Kind, des: BlockCipher, s: Stream, chunks: seq<seq<Octet>>): (r: (Stream, seq<seq<Octet>>))
    decreases |chunks|
  {
    if chunks == [] then (s, []) else
      var n := |chunks| - 1;
      var (t, cs) := EncryptChunks(k, des, s, chunks[..n]);
      var (u, c) := Encrypt(k, des, t, chunks[n]);
      (u, cs + [c])
  }

  // ----- decryption inverts encryption and keeps the two streams equal -----

  lemma XorCancels(x: Octet, y: Octet)
    ensures Xor(Xor(x, y), x) == Xor(x, Xor(x, y)) == y
  {
    BitsCancel(x, y);
  }

  lemma ByteInverse(k: Kind, des: BlockCipher, s: Stream, plain: Octet)
    ensures DecryptByte(k, des, s, EncryptByte(k, des, s, plain).1) == (EncryptByte(k, des, s, plain).0, plain)
  {
    var t := Refilled(k, des, s);
    XorCancels(t.feed[t.index], plain);
  }

  /** Two equal streams stay equal, byte for byte, and the plain text comes back. */
  lemma {:induction false} DecryptInverts(k: Kind, des: BlockCipher, s: Stream, plain: seq<Octet>)
    ensures Decrypt(k, des, s, Encrypt(k, des, s, plain).1) == (Encrypt(k, des, s, plain).0, plain)
    decreases |plain|
  {
    if plain == [] {
    } else {
      var n := |plain| - 1;
      DecryptInverts(k, des, s, plain[..n]);
      var (t, cs) := Encrypt(k, des, s, plain[..n]);
      var (u, c) := EncryptByte(k, des, t, plain[n]);
      ByteInverse(k, des, t, plain[n]);
      assert (cs + [c])[..n] == cs;
      assert plain[..n] + [plain[n]] == plain;
    }
  }

  lemma {:induction false} EncryptSplits(k: Kind, des: BlockCipher, s: Stream, a: seq<Octet>, b: seq<Octet>)
    ensures var (t, ca) := Encrypt(k, des, s, a);
            var (u, cb) := Encrypt(k, des, t, b);
            Encrypt(k, des, s, a + b) == (u, ca + cb)
    decreases |b|
  {
    hide EncryptByte;
    if b == [] {
      assert a + b == a;
      assert Encrypt(k, des, s, a).1 + [] == Encrypt(k, des, s, a).1;
    } else {
      var n := |b| - 1;
      EncryptSplits(k, des, s, a, b[..n]);
      assert (a + b)[..|a + b| - 1] == a + b[..n];
      var (t, ca) := Encrypt(k, des, s, a);
      var (v, cb) := Encrypt(k, des, t, b[..n]);
      var (u, c) := EncryptByte(k, des, v, b[n]);
      assert Encrypt(k, des, t, b) == (u, cb + [c]);
      assert (a + b)[|a + b| - 1] == b[n];
      assert Encrypt(k, des, s, a + b) == (u, (ca + cb) + [c]);
      assert (ca + cb) + [c] == ca + (cb + [c]);
    }
  }

  lemma {:induction false} EncryptChunksIsEncrypt(k: Kind, des: BlockCipher, s: Stream, chunks: seq<seq<Octet>>)
    ensures var (t, cs) := EncryptChunks(k, des, s, chunks);
            Encrypt(k, des, s, Flat(chunks)) == (t, Flat(cs))
    decreases |chunks|
  {
    if chunks == [] {
    } else {
      var n := |chunks| - 1;
      EncryptChunksIsEncrypt(k, des, s, chunks[..n]);
      EncryptSplits(k, des, s, Flat(chunks[..n]), chunks[n]);
      var (t, cs) := EncryptChunks(k, des, s, chunks[..n]);
      var (u, c) := Encrypt(k, des, t, chunks[n]);
      assert (cs + [c])[..|cs + [c]| - 1] == cs;
    }
  }

  /** However the sender cuts its output into encrypt_output calls, decrypting the bytes on the
      line one at a time gives back the plain text and leaves both streams equal. */
  lemma ChunkedRoundTrip(k: Kind, des: BlockCipher, s: Stream, chunks: seq<seq<Octet>>)
    ensures var (t, cs) := EncryptChunks(k, des, s, chunks);
            Decrypt(k, des, s, Flat(cs)) == (t, Flat(chunks))
  {
    EncryptChunksIsEncrypt(k, des, s, chunks);
    DecryptInverts(k, des, s, Flat(chunks));
  }

  /** decrypt(-1) takes back exactly one byte: decrypting that byte again gives the same plain
      text and the same stream, also when the byte had opened a new feed block. */
  lemma BackUpThenRedo(k: Kind, des: BlockCipher, s: Stream, cipher: Octet)
    ensures var once := DecryptByte(k, des, s, cipher);
            DecryptByte(k, des, BackedUp(once.0), cipher) == once
  {
    var t := Refilled(k, des, s);
    var once := DecryptByte(k, des, s, cipher);
    assert BackedUp(once.0).index == t.index;
    if k.Cfb? {
      assert t.output[t.index := cipher][t.index := cipher] == t.output[t.index := cipher];
    }
  }

  /** The key and the IV may reach a fresh receiver in either order. */
  lemma KeyAndIvCommute(s: Stream, key: Block, seed: Block)
    ensures Rekeyed(Seeded(s, seed), key) == Seeded(Rekeyed(s, key), seed)
  {
  }

  // ----- OFB starts from the feed, which no initialisation touches -----

  /** The n-th feed block that OFB uses on a stream whose feed is `start`. */
  function Keystream(des: BlockCipher, sched: Schedule, start: Block, n: nat): Block {
    if n == 0 then start else des(sched, Keystream(des, sched, start, n - 1))
  }

  /** The mask OFB lays over the byte at position i. */
  function OfbMask(des: BlockCipher, sched: Schedule, start: Block, i: nat): Octet {
    Keystream(des, sched, start, i / 8 + 1)[i % 8]
  }

  /** Where an OFB stream stands after n bytes, seen from the feed it started with. */
  predicate OfbAt(des: BlockCipher, sched: Schedule, start: Block, n: nat, s: Stream) {
    && s.sched == sched
    && s.feed == Keystream(des, sched, start, (n + 7) / 8)
    && s.index == (if n % 8 == 0 then 8 else n % 8)
  }

  lemma OfbAdvances(des: BlockCipher, sched: Schedule, start: Block, n: nat, s: Stream, plain: Octet)
    requires OfbAt(des, sched, start, n, s)
    ensures var (t, c) := EncryptByte(Ofb, des, s, plain);
            OfbAt(des, sched, start, n + 1, t) && c == Xor(OfbMask(des, sched, start, n), plain)
  {
    var q, r := n / 8, n % 8;
    assert n == 8 * q + r;
    if r == 0 {
      assert (n + 7) / 8 == q && (n + 8) / 8 == q + 1;
    } else {
      assert (n + 7) / 8 == q + 1 && (n + 8) / 8 == q + 1;
    }
  }

  /** OFB output depends on the key and the position only: the byte at position i is masked with
      the iterated encryption of the old feed, whatever IV was exchanged. */
  lemma {:induction false} OfbIgnoresIv(des: BlockCipher, s: Stream, seed: Block, plain: seq<Octet>)
    ensures var (t, cs) := Encrypt(Ofb, des, Seeded(s, seed), plain);
            && OfbAt(des, Of(s.ikey), s.feed, |plain|, t)
            && forall i :: 0 <= i < |plain| ==> cs[i] == Xor(OfbMask(des, Of(s.ikey), s.feed, i), plain[i])
    decreases |plain|
  {
    if plain == [] {
    } else {
      var n := |plain| - 1;
      OfbIgnoresIv(des, s, seed, plain[..n]);
      var (t, cs) := Encrypt(Ofb, des, Seeded(s, seed), plain[..n]);
      OfbAdvances(des, Of(s.ikey), s.feed, n, t, plain[n]);
    }
  }

  // ----- CFB: section 4 of RFC 2952 -----

  /** The eight octets that block q of the cipher text is made from: the IV, and then always the cipher
      text of the block before. */
  function Fed(iv: Block, cs: seq<Octet>, q: nat): Block
    requires 8 * q <= |cs|
  {
    if q == 0 then iv else cs[8 * q - 8..8 * q]
  }

  /** Where a CFB stream stands after the cipher text cs. */
  predicate CfbAt(des: BlockCipher, sched: Schedule, iv: Block, cs: seq<Octet>, s: Stream) {
    var q, r := |cs| / 8, |cs| % 8;
    && s.sched == sched
    && if r == 0 then s.index == 8 && s.output == Fed(iv, cs, q)
       else s.index == r && s.feed == des(sched, Fed(iv, cs, q)) && s.output == cs[8 * q..] + Fed(iv, cs, q)[r..]
  }

  /** The mask CFB lays over the octet at position i of a text whose cipher text is cs. */
  function CfbMask(des: BlockCipher, sched: Schedule, iv: Block, cs: seq<Octet>, i: nat): Octet
    requires i <= |cs|
  {
    des(sched, Fed(iv, cs, i / 8))[i % 8]
  }

  /** The stream with its new feed, if it needed one: what CFB works with inside a block. */
  lemma CfbRefilled(des: BlockCipher, sched: Schedule, iv: Block, cs: seq<Octet>, s: Stream)
    requires CfbAt(des, sched, iv, cs, s)
    ensures var t, q, r := Refilled(Cfb, des, s), |cs| / 8, |cs| % 8;
            && t.sched == sched && t.index == r && t.feed == des(sched, Fed(iv, cs, q))
            && t.output == cs[8 * q..] + Fed(iv, cs, q)[r..]
  {
    if |cs| % 8 == 0 {
      assert cs[8 * (|cs| / 8)..] == [];
      assert Fed(iv, cs, |cs| / 8)[0..] == Fed(iv, cs, |cs| / 8);
    }
  }

  /** One more octet of cipher text: what the output block holds then. */
  lemma OutputGrows(old': seq<Octet>, tail: seq<Octet>, fed: Block, r: nat, c: Octet)
    requires r < 8 && |tail| == r && old' == tail + fed[r..]
    ensures old'[r := c] == tail + [c] + fed[r + 1..]
  {
  }

  /** Inside a block, and at its end. */
  lemma CfbGrows(des: BlockCipher, sched: Schedule, iv: Block, cs: seq<Octet>, c: Octet, t: Stream, u: Stream)
    requires var q, r := |cs| / 8, |cs| % 8;
             && t.sched == sched && t.index == r && t.feed == des(sched, Fed(iv, cs, q))
             && t.output == cs[8 * q..] + Fed(iv, cs, q)[r..]
    requires u == t.(output := t.output[t.index := c], index := t.index + 1)
    ensures CfbAt(des, sched, iv, cs + [c], u)
  {
    hide Fed, CfbAt;
    var q, r := |cs| / 8, |cs| % 8;
    var now, fed := cs + [c], Fed(iv, cs, q);
    FedStays(iv, cs, now, q);
    OutputGrows(t.output, cs[8 * q..], fed, r, c);
    assert now[8 * q..] == cs[8 * q..] + [c];
    if r == 7 {
      CfbBlockDone(des, sched, iv, now, u, q);
    } else {
      CfbInBlock(des, sched, iv, now, u, q);
    }
  }

  lemma CfbBlockDone(des: BlockCipher, sched: Schedule, iv: Block, now: seq<Octet>, u: Stream, q: nat)
    requires |now| == 8 * q + 8 && u.sched == sched && u.index == 8
    requires u.output == now[8 * q..] + Fed(iv, now, q)[8..]
    ensures CfbAt(des, sched, iv, now, u)
  {
    assert |now| / 8 == q + 1 && |now| % 8 == 0;
    assert Fed(iv, now, q + 1) == now[8 * q..];
  }

  lemma CfbInBlock(des: BlockCipher, sched: Schedule, iv: Block, now: seq<Octet>, u: Stream, q: nat)
    requires 8 * q < |now| < 8 * q + 8 && u.sched == sched && u.index == |now| - 8 * q
    requires u.feed == des(sched, Fed(iv, now, q))
    requires u.output == now[8 * q..] + Fed(iv, now, q)[|now| - 8 * q..]
    ensures CfbAt(des, sched, iv, now, u)
  {
    assert |now| / 8 == q && |now| % 8 == |now| - 8 * q;
  }

  lemma CfbAdvances(des: BlockCipher, sched: Schedule, iv: Block, cs: seq<Octet>, s: Stream, plain: Octet)
    requires CfbAt(des, sched, iv, cs, s)
    ensures var (t, c) := EncryptByte(Cfb, des, s, plain);
            c == Xor(CfbMask(des, sched, iv, cs, |cs|), plain) && CfbAt(des, sched, iv, cs + [c], t)
  {
    hide Xor, CfbAt, Refilled;
    CfbRefilled(des, sched, iv, cs, s);
    var (t, c) := EncryptByte(Cfb, des, s, plain);
    CfbGrows(des, sched, iv, cs, c, Refilled(Cfb, des, s), t);
  }

  /** From a stream that stands at its IV: octet i of the cipher text is the plain octet under the encryption
      of the IV for the first block, and of the cipher text of the block before for every other. */
  lemma {:induction false} CfbFrom(des: BlockCipher, sched: Schedule, iv: Block, s: Stream, plain: seq<Octet>)
    requires CfbAt(des, sched, iv, [], s)
    ensures var (t, cs) := Encrypt(Cfb, des, s, plain);
            && CfbAt(des, sched, iv, cs, t)
            && forall i :: 0 <= i < |plain| ==> cs[i] == Xor(CfbMask(des, sched, iv, cs, i), plain[i])
    decreases |plain|
  {
    hide EncryptByte, CfbAt, Xor, CfbMask;
    if plain != [] {
      var n := |plain| - 1;
      CfbFrom(des, sched, iv, s, plain[..n]);
      var (t, cs) := Encrypt(Cfb, des, s, plain[..n]);
      CfbAdvances(des, sched, iv, cs, t, plain[n]);
      var all := Encrypt(Cfb, des, s, plain).1;
      forall i | 0 <= i < |plain|
        ensures all[i] == Xor(CfbMask(des, sched, iv, all, i), plain[i])
      {
        MaskStays(des, sched, iv, cs, all, i);
      }
    }
  }

  /** CFB output under the key of the stream and the IV it was given. */
  lemma CfbFeedsBack(des: BlockCipher, s: Stream, iv: Block, plain: seq<Octet>)
    ensures var (t, cs) := Encrypt(Cfb, des, Seeded(s, iv), plain);
            && CfbAt(des, Of(s.ikey), iv, cs, t)
            && forall i :: 0 <= i < |plain| ==> cs[i] == Xor(CfbMask(des, Of(s.ikey), iv, cs, i), plain[i])
  {
    hide Encrypt, CfbMask, Xor;
    CfbFrom(des, Of(s.ikey), iv, Seeded(s, iv), plain);
  }

  /** A new key starts CFB again from the IV that was exchanged, however far the stream has come. */
  lemma CfbRestartsWithKey(des: BlockCipher, s: Stream, iv: Block, said: seq<Octet>, key: Block, plain: seq<Octet>)
    ensures var t := Rekeyed(Encrypt(Cfb, des, Seeded(s, iv), said).0, key);
            var (u, cs) := Encrypt(Cfb, des, t, plain);
            && CfbAt(des, Of(key), iv, cs, u)
            && forall i :: 0 <= i < |plain| ==> cs[i] == Xor(CfbMask(des, Of(key), iv, cs, i), plain[i])
  {
    hide CfbMask, Xor, Encrypt;
    IvStays(des, Seeded(s, iv), said);
    CfbFrom(des, Of(key), iv, Rekeyed(Encrypt(Cfb, des, Seeded(s, iv), said).0, key), plain);
  }

  lemma {:induction false} IvStays(des: BlockCipher, s: Stream, plain: seq<Octet>)
    ensures Encrypt(Cfb, des, s, plain).0.iv == s.iv
    decreases |plain|
  {
    if plain != [] {
      IvStays(des, s, plain[..|plain| - 1]);
    }
  }

  lemma MaskStays(des: BlockCipher, sched: Schedule, iv: Block, a: seq<Octet>, b: seq<Octet>, i: nat)
    requires a <= b && i <= |a|
    ensures CfbMask(des, sched, iv, a, i) == CfbMask(des, sched, iv, b, i)
  {
    FedStays(iv, a, b, i / 8);
  }

  lemma FedStays(iv: Block, a: seq<Octet>, b: seq<Octet>, q: nat)
    requires a <= b && 8 * q <= |a|
    ensures Fed(iv, a, q) == Fed(iv, b, q)
  {
  }
}
