/** ICMP messages (RFC 792) as the encoder and the decoder of libicmp write and read them. */
module IcmpEcho {
  import opened Basics
  import opened IcmpChecksum

  const ICMP_MINLEN := 8

  const ICMP_ECHO := 8

  /** htons of an int, in memory */
  function Net(n: int): (s: seq<Octet>)
    ensures |s| == 2
  {
    [n % 0x1_0000 / 256, n % 256]
  }

  /** ntohs of two octets */
  function Host(a: Octet, b: Octet): Word { 256 * a + b }

  /** The message with zero for its checksum, and with the checksum it ought to have. */
  function Blank(m: seq<Octet>): seq<Octet>
    requires |m| >= ICMP_MINLEN
  {
    m[..2] + [0, 0] + m[4..]
  }

  function Stamp(o: Order, m: seq<Octet>): (s: seq<Octet>)
    requires |m| >= ICMP_MINLEN
    ensures |s| == |m|
  {
    m[..2] + Stored(o, Checksum(o, Blank(m))) + m[4..]
  }

  /** The decoder finds nothing wrong with the checksum of m. */
  predicate Intact(o: Order, m: seq<Octet>)
    requires |m| >= ICMP_MINLEN
  {
    WordOf(o, m[2], m[3]) == Checksum(o, Blank(m))
  }

  function Encoded(o: Order, typ: int, ident: int, seqno: int, data: seq<Octet>): seq<Octet> {
    Stamp(o, [typ % 256, 0, 0, 0] + Net(ident) + Net(seqno) + data)
  }

  /** icmp_generic_encode: the first bufsize octets of the buffer become the message, its data kept. */
  method GenericEncode(o: Order, buffer: array<Octet>, bufsize: nat, typ: int, ident: int, seqno: int)
    returns (rc: int)
    requires bufsize <= buffer.Length && bufsize <= 0xffff
    modifies buffer
    ensures bufsize < ICMP_MINLEN ==> rc == -1 && buffer[..] == old(buffer[..])
    ensures bufsize >= ICMP_MINLEN ==>
              && rc == 0 && buffer[bufsize..] == old(buffer[bufsize..])
              && buffer[..bufsize] == Encoded(o, typ, ident, seqno, old(buffer[ICMP_MINLEN..bufsize]))
  {
    hide Checksum, Stored;
    if bufsize < ICMP_MINLEN {
      return -1;
    }
    ghost var data := buffer[ICMP_MINLEN..bufsize];
    WriteHeader(buffer, typ, ident, seqno);
    ghost var m := buffer[..bufsize];
    assert m == [typ % 256, 0, 0, 0] + Net(ident) + Net(seqno) + data && Blank(m) == m by {
      assert m == m[..ICMP_MINLEN] + data;
    }
    assert buffer[0..0 + bufsize] == m;
    var cksum := Cksum(o, buffer, 0, bufsize);
    buffer[2], buffer[3] := Stored(o, cksum)[0], Stored(o, cksum)[1];
    assert buffer[..bufsize] == Stamp(o, m);
    return 0;
  }

  method WriteHeader(buffer: array<Octet>, typ: int, ident: int, seqno: int)
    requires buffer.Length >= ICMP_MINLEN
    modifies buffer
    ensures buffer[..ICMP_MINLEN] == [typ % 256, 0, 0, 0] + Net(ident) + Net(seqno)
    ensures buffer[ICMP_MINLEN..] == old(buffer[ICMP_MINLEN..])
  {
    hide Net;
    buffer[0], buffer[1] := typ % 256, 0;
    buffer[2], buffer[3] := 0, 0;
    buffer[6], buffer[7] := Net(seqno)[0], Net(seqno)[1];
    buffer[4], buffer[5] := Net(ident)[0], Net(ident)[1];
  }

  /** Where the message starts behind the IP header: four times the low half of its first octet. */
  function HeaderLength(first: Octet): nat { first % 16 * 4 }

  /** icmp_generic_decode: `icmpp` is the place of the message, whose checksum field is made right.
      The first octet is looked at even when bufsize is zero. */
  method GenericDecode(o: Order, buffer: array<Octet>, bufsize: nat) returns (rc: int, icmpp: nat)
    requires 0 < buffer.Length && bufsize <= buffer.Length && bufsize <= 0xffff
    modifies buffer
    ensures icmpp == HeaderLength(old(buffer[0]))
    ensures bufsize < icmpp + ICMP_MINLEN ==> rc == -1 && buffer[..] == old(buffer[..])
    ensures bufsize >= icmpp + ICMP_MINLEN ==>
              && rc == (if Intact(o, old(buffer[icmpp..bufsize])) then 0 else 1)
              && buffer[icmpp..bufsize] == Stamp(o, old(buffer[icmpp..bufsize]))
              && buffer[..icmpp] == old(buffer[..icmpp]) && buffer[bufsize..] == old(buffer[bufsize..])
  {
    hide Checksum, Stored, WordOf;
    var hlen := HeaderLength(buffer[0]);
    icmpp := hlen;
    if bufsize < hlen + ICMP_MINLEN {
      return -1, hlen;
    }
    ghost var m := buffer[hlen..bufsize];
    var cksum := WordOf(o, buffer[hlen + 2], buffer[hlen + 3]);
    buffer[hlen + 2], buffer[hlen + 3] := 0, 0;
    assert buffer[hlen..bufsize] == Blank(m);
    assert buffer[hlen..hlen + (bufsize - hlen)] == Blank(m);
    var right := Cksum(o, buffer, hlen, bufsize - hlen);
    buffer[hlen + 2], buffer[hlen + 3] := Stored(o, right)[0], Stored(o, right)[1];
    assert buffer[hlen..bufsize] == Stamp(o, m);
    rc := if right != cksum then 1 else 0;
  }

  // ----- what the two mean for each other -----

  lemma StampedIsIntact(o: Order, m: seq<Octet>)
    requires |m| >= ICMP_MINLEN
    ensures Intact(o, Stamp(o, m)) && Blank(Stamp(o, m)) == Blank(m)
  {
    hide Checksum;
    assert Blank(Stamp(o, m)) == Blank(m);
  }

  /** Two octets mean the same checksum to hosts of either order exactly if they are the same octets. */
  lemma StoredIsUnique(o: Order, a: Octet, b: Octet)
    ensures Stored(o, WordOf(o, a, b)) == [a, b]
  {
  }

  lemma IntactEverywhere(o: Order, p: Order, m: seq<Octet>)
    requires |m| >= ICMP_MINLEN
    ensures Intact(o, m) == Intact(p, m)
  {
    hide Checksum, Blank, Stored, WordOf;
    var s := Blank(m);
    ByteOrderIndependent(s);
    StoredIsUnique(o, m[2], m[3]);
    StoredIsUnique(p, m[2], m[3]);
  }

  /** A message encoded on one host and put behind any IP header decodes without complaint on a host
      of the same or the other byte order, with the same identifier, sequence number and data. */
  lemma EncodedDecodes(o: Order, p: Order, typ: int, ident: int, seqno: int, data: seq<Octet>)
    ensures var m := Encoded(o, typ, ident, seqno, data);
            && |m| == ICMP_MINLEN + |data| && Intact(p, m) && Stamp(p, m) == m
            && m[0] == typ % 256 && m[1] == 0
            && m[4] == ident % 0x1_0000 / 256 && m[5] == ident % 256
            && m[6] == seqno % 0x1_0000 / 256 && m[7] == seqno % 256
            && Host(m[4], m[5]) == ident % 0x1_0000 && Host(m[6], m[7]) == seqno % 0x1_0000
            && m[ICMP_MINLEN..] == data
  {
    hide Checksum, Stored;
    var blank := [typ % 256, 0, 0, 0] + Net(ident) + Net(seqno) + data;
    var m := Encoded(o, typ, ident, seqno, data);
    StampedIsIntact(o, blank);
    IntactEverywhere(o, p, m);
    StoredIsUnique(p, m[2], m[3]);
    assert m[2..4] == [m[2], m[3]];
    assert m == m[..2] + m[2..4] + m[4..];
    NetHost(ident);
    NetHost(seqno);
  }

  lemma NetHost(n: int)
    ensures Host(Net(n)[0], Net(n)[1]) == n % 0x1_0000
  {
    var w := n % 0x1_0000;
    assert w % 256 == n % 256 by {
      assert n == 0x1_0000 * (n / 0x1_0000) + w;
      assert n - w == 256 * (256 * (n / 0x1_0000));
    }
  }

  /** An IP header of n words: version 4, and its length in the low half of the first octet. */
  predicate IsHeader(h: seq<Octet>, n: nat) { 5 <= n <= 15 && |h| == 4 * n && h[0] == 64 + n }

  /** The buffer after a reply has been received: a header of n words and a message from a host of order p. */
  predicate Holds(buf: seq<Octet>, h: seq<Octet>, n: nat, p: Order, typ: int, ident: int, seqno: int,
                  data: seq<Octet>)
  {
    IsHeader(h, n) && buf == h + Encoded(p, typ, ident, seqno, data)
  }

  /** icmp_echo_decode: a message behind any IP header, whatever the byte order of the host it was encoded
      on, is found right behind the header and decodes without complaint; nothing in the buffer changes. */
  method EchoDecode(o: Order, buffer: array<Octet>, bufsize: nat) returns (rc: int, icmpp: nat)
    requires 0 < buffer.Length && bufsize <= buffer.Length && bufsize <= 0xffff
    modifies buffer
    ensures forall h, n: nat, p, typ, ident, seqno, data ::
              Holds(old(buffer[..bufsize]), h, n, p, typ, ident, seqno, data) ==>
                && rc == 0 && icmpp == |h| && buffer[..] == old(buffer[..])
                && Host(buffer[|h| + 4], buffer[|h| + 5]) == ident % 0x1_0000
                && Host(buffer[|h| + 6], buffer[|h| + 7]) == seqno % 0x1_0000
                && buffer[|h| + ICMP_MINLEN..bufsize] == data
  {
    hide Encoded, Intact, Stamp, HeaderLength, Holds;
    ghost var was := buffer[..];
    rc, icmpp := GenericDecode(o, buffer, bufsize);
    forall h, n: nat, p, typ, ident, seqno, data |
      Holds(old(buffer[..bufsize]), h, n, p, typ, ident, seqno, data)
      ensures rc == 0 && icmpp == |h| && buffer[..] == was
      ensures Host(buffer[|h| + 4], buffer[|h| + 5]) == ident % 0x1_0000
      ensures Host(buffer[|h| + 6], buffer[|h| + 7]) == seqno % 0x1_0000
      ensures buffer[|h| + ICMP_MINLEN..bufsize] == data
    {
      Found(o, was[..bufsize], h, n, p, typ, ident, seqno, data);
      var m := Encoded(p, typ, ident, seqno, data);
      assert was[|h|..bufsize] == was[..bufsize][|h|..];
      assert buffer[..] == buffer[..icmpp] + buffer[icmpp..bufsize] + buffer[bufsize..];
      assert was == was[..|h|] + was[|h|..bufsize] + was[bufsize..];
      assert buffer[|h|..bufsize] == m;
      assert m[ICMP_MINLEN..] == buffer[|h| + ICMP_MINLEN..bufsize];
      assert m[4] == buffer[|h| + 4] && m[5] == buffer[|h| + 5];
      assert m[6] == buffer[|h| + 6] && m[7] == buffer[|h| + 7];
    }
  }

  /** What the decoder finds behind a header. */
  lemma Found(o: Order, buf: seq<Octet>, h: seq<Octet>, n: nat, p: Order, typ: int, ident: int, seqno: int,
              data: seq<Octet>)
    requires Holds(buf, h, n, p, typ, ident, seqno, data)
    ensures var m := Encoded(p, typ, ident, seqno, data);
            && |buf| >= |h| + ICMP_MINLEN && |h| > 0 && HeaderLength(buf[0]) == |h| && buf[|h|..] == m
            && |m| == ICMP_MINLEN + |data| && Intact(o, m) && Stamp(o, m) == m
            && Host(m[4], m[5]) == ident % 0x1_0000 && Host(m[6], m[7]) == seqno % 0x1_0000
            && m[ICMP_MINLEN..] == data
  {
    hide Encoded, Intact, Stamp;
    EncodedDecodes(p, o, typ, ident, seqno, data);
    assert (64 + n) % 16 == n;
  }

  /** The verification rule of the standard accepts everything the decoder accepts and one thing
      more: an all-ones checksum on a message whose sum is all ones, where the decoder wants zero. */
  lemma DecoderAndStandard(o: Order, m: seq<Octet>)
    requires |m| >= ICMP_MINLEN
    ensures OnesSum(o, m) == 0xffff <==>
              (Intact(o, m) || (OnesSum(o, Blank(m)) == 0xffff && WordOf(o, m[2], m[3]) == 0xffff))
  {
    hide OnesSum, Norm, WordOf;
    var w := WordOf(o, m[2], m[3]);
    SetWordSum(o, Blank(m), 2, m[2], m[3]);
    assert SetWord(Blank(m), 2, m[2], m[3]) == m;
    SumFolds(o, m);
    SumFolds(o, Blank(m));
    ZeroWord(o);
    NormAdds(Sum(o, Blank(m)), w);
  }

  lemma ZeroWord(o: Order)
    ensures WordOf(o, 0, 0) == 0
  {
  }

  // ----- damage to a single word -----

  /** The message with other octets in the word at k; the last word may be a single octet. */
  function SetWord(m: seq<Octet>, k: nat, a: Octet, b: Octet): (s: seq<Octet>)
    requires k < |m|
    ensures |s| == |m|
  {
    if k + 1 < |m| then m[k := a][k + 1 := b] else m[k := a]
  }

  function WordAt(o: Order, m: seq<Octet>, k: nat): Word
    requires k < |m|
  {
    WordOf(o, m[k], if k + 1 < |m| then m[k + 1] else 0)
  }

  lemma {:induction false} SetWordSum(o: Order, m: seq<Octet>, k: nat, a: Octet, b: Octet)
    requires k < |m| && k % 2 == 0 && (k + 1 == |m| ==> b == 0)
    ensures Sum(o, SetWord(m, k, a, b)) == Sum(o, m) - WordAt(o, m, k) + WordOf(o, a, b)
    decreases k
  {
    hide WordOf;
    var n := SetWord(m, k, a, b);
    if k > 0 {
      assert n[2..] == SetWord(m[2..], k - 2, a, b);
      assert n[0] == m[0] && n[1] == m[1];
      SetWordSum(o, m[2..], k - 2, a, b);
    } else if |m| > 1 {
      assert n[2..] == m[2..];
    }
  }

  lemma {:induction false} WordInSum(o: Order, m: seq<Octet>, k: nat)
    requires k < |m| && k % 2 == 0
    ensures WordAt(o, m, k) <= Sum(o, m)
    decreases k
  {
    hide WordOf;
    if k > 0 {
      WordInSum(o, m[2..], k - 2);
    }
  }

  predicate Opposite(v: Word, w: Word) { (v == 0 && w == 0xffff) || (v == 0xffff && w == 0) }

  /** Adding a word to the same sum gives the same checksum only for equal words, or when one is
      zero and the other all ones and the rest of the sum is not zero. */
  lemma SameChecksum(rest: nat, v: Word, w: Word)
    ensures Norm(v + rest) == Norm(w + rest) <==> (v == w || (Opposite(v, w) && rest > 0))
  {
    hide Norm;
    NormAdds(rest, v);
    NormAdds(rest, w);
    NormZero(rest);
  }

  lemma NormZero(n: nat)
    ensures Norm(n) == 0 <==> n == 0
  {
  }

  /** Damage to one word is noticed, except a change between 0x0000 and 0xffff outside the checksum
      field of a message that is not zero everywhere else. */
  lemma SingleWordDamage(o: Order, m: seq<Octet>, k: nat, a: Octet, b: Octet)
    requires |m| >= ICMP_MINLEN && Intact(o, m)
    requires k < |m| && k % 2 == 0 && (k + 1 == |m| ==> b == 0)
    ensures var v, w := WordAt(o, m, k), WordOf(o, a, b);
            Intact(o, SetWord(m, k, a, b)) <==>
              (v == w || (k != 2 && Opposite(v, w) && Sum(o, Blank(m)) > v))
  {
    hide OnesSum, Norm, WordOf;
    var n := SetWord(m, k, a, b);
    var v, w := WordAt(o, m, k), WordOf(o, a, b);
    if k == 2 {
      assert Blank(n) == Blank(m);
    } else {
      assert Blank(n) == SetWord(Blank(m), k, a, b);
      assert WordAt(o, Blank(m), k) == v;
      SetWordSum(o, Blank(m), k, a, b);
      WordInSum(o, Blank(m), k);
      SumFolds(o, Blank(m));
      SumFolds(o, Blank(n));
      SameChecksum(Sum(o, Blank(m)) - v, v, w);
    }
  }

  /** Nothing that an ordinary echo request can suffer in one word behind its first is hidden from
      the decoder but a change between 0x0000 and 0xffff. */
  lemma EchoDamage(o: Order, p: Order, ident: int, seqno: int, data: seq<Octet>, k: nat, a: Octet, b: Octet)
    requires 2 <= k < ICMP_MINLEN + |data| && k % 2 == 0 && (k + 1 == ICMP_MINLEN + |data| ==> b == 0)
    ensures var m := Encoded(o, ICMP_ECHO, ident, seqno, data);
            var v, w := WordAt(p, m, k), WordOf(p, a, b);
            Intact(p, SetWord(m, k, a, b)) <==> v == w || (k != 2 && Opposite(v, w))
  {
    hide OnesSum, Norm, Encoded, Stored;
    var m := Encoded(o, ICMP_ECHO, ident, seqno, data);
    EncodedDecodes(o, p, ICMP_ECHO, ident, seqno, data);
    SingleWordDamage(p, m, k, a, b);
    if k != 2 {
      var s := Blank(m);
      SetWordSum(p, s, 0, 0, 0);
      assert WordAt(p, s, 0) > 0;
      assert WordAt(p, s, k) == WordAt(p, m, k) == WordAt(p, SetWord(s, 0, 0, 0), k);
      WordInSum(p, SetWord(s, 0, 0, 0), k);
      ZeroWord(p);
    }
  }
}
