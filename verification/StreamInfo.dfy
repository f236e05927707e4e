/** The stream records of libtelnet/enc_des.c as objects that are updated in place.  The four
    block members are embedded in the record, so nothing else can point into them. */
module StreamInfo {
  import opened Basics
  import opened FeedbackCipher

  /** What a decryption routine is handed: a byte of cipher text, or -1 to back up. */
  datatype Input = Byte(b: Octet) | MinusOne

  function Received(k: Kind, des: BlockCipher, s: Stream, data: Input): (Stream, Octet)
  {
    match data
    case MinusOne => (BackedUp(s), 0)
    case Byte(b) => DecryptByte(k, des, s, b)
  }

  class Stinfo {
    const des: BlockCipher
    var output: Block
    var feed: Block
    var iv: Block
    var ikey: Block
    var sched: Schedule
    var index: Index

    ghost function Value(): (s: Stream)
      reads this
    {
      Stream(output, feed, iv, ikey, sched, index)
    }

    constructor (des: BlockCipher)
      ensures Value() == CLEARED && this.des == des
    {
      this.des := des;
      output, feed, iv, ikey := ZERO_BLOCK, ZERO_BLOCK, ZERO_BLOCK, ZERO_BLOCK;
      sched, index := Cleared, 0;
    }

    /** fb64_stream_iv */
    method StreamIv(seed: Block)
      modifies this
      ensures Value() == Seeded(old(Value()), seed)
    {
      iv := seed;
      output := seed;
      sched := Of(ikey);
      index := BLOCK_SIZE;
    }

    /** fb64_stream_key */
    method StreamKey(key: Block)
      modifies this
      ensures Value() == Rekeyed(old(Value()), key)
    {
      ikey := key;
      sched := Of(key);
      output := iv;
      index := BLOCK_SIZE;
    }

    /** cfb64_encrypt: the first c bytes of s are replaced by their cipher text. */
    method CfbEncrypt(s: array<Octet>, c: nat)
      requires c <= s.Length
      modifies this, s
      ensures Encrypt(Cfb, des, old(Value()), old(s[..c])) == (Value(), s[..c])
      ensures s[c..] == old(s[c..])
    {
      ghost var was := s[..];
      ghost var start := Value();
      var i: Index := index;
      for n := 0 to c
        invariant forall j :: n <= j < s.Length ==> s[j] == was[j]
        invariant Encrypt(Cfb, des, start, was[..n]) == (Value().(index := i), s[..n])
      {
        ghost var before := Value().(index := i);
        if i == BLOCK_SIZE {
          feed := des(sched, output);
          i := 0;
        }
        output := output[i := Xor(feed[i], s[n])];
        s[n] := output[i];
        i := i + 1;
        assert (Value().(index := i), s[n]) == EncryptByte(Cfb, des, before, was[n]);
        assert was[..n + 1][..n] == was[..n] && was[..n + 1][n] == was[n];
        assert s[..n + 1] == s[..n] + [s[n]];
      }
      index := i;
    }

    /** ofb64_encrypt */
    method OfbEncrypt(s: array<Octet>, c: nat)
      requires c <= s.Length
      modifies this, s
      ensures Encrypt(Ofb, des, old(Value()), old(s[..c])) == (Value(), s[..c])
      ensures s[c..] == old(s[c..])
    {
      ghost var was := s[..];
      ghost var start := Value();
      var i: Index := index;
      for n := 0 to c
        invariant forall j :: n <= j < s.Length ==> s[j] == was[j]
        invariant Encrypt(Ofb, des, start, was[..n]) == (Value().(index := i), s[..n])
      {
        ghost var before := Value().(index := i);
        if i == BLOCK_SIZE {
          feed := des(sched, feed);
          i := 0;
        }
        assert Value().(index := i) == Refilled(Ofb, des, before) && s[n] == was[n];
        s[n] := Xor(feed[i], s[n]);
        i := i + 1;
        assert (Value().(index := i), s[n]) == EncryptByte(Ofb, des, before, was[n]);
        assert was[..n + 1][..n] == was[..n] && was[..n + 1][n] == was[n];
        assert s[..n + 1] == s[..n] + [s[n]];
      }
      index := i;
    }

    /** cfb64_decrypt */
    method CfbDecrypt(data: Input) returns (plain: Octet)
      modifies this
      ensures (Value(), plain) == Received(Cfb, des, old(Value()), data)
    {
      if data.MinusOne? {
        if index > 0 {
          index := index - 1;
        }
        return 0;
      }
      var i := index;
      if i == BLOCK_SIZE {
        feed := des(sched, output);
        index := 1;
        i := 0;
      } else {
        index := index + 1;
      }
      output := output[i := data.b];
      plain := Xor(data.b, feed[i]);
    }

    /** ofb64_decrypt */
    method OfbDecrypt(data: Input) returns (plain: Octet)
      modifies this
      ensures (Value(), plain) == Received(Ofb, des, old(Value()), data)
    {
      if data.MinusOne? {
        if index > 0 {
          index := index - 1;
        }
        return 0;
      }
      var i := index;
      if i == BLOCK_SIZE {
        feed := des(sched, feed);
        index := 1;
        i := 0;
      } else {
        index := index + 1;
      }
      plain := Xor(data.b, feed[i]);
    }
  }
}
