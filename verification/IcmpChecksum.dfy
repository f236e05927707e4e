/** The Internet checksum (section 1 of RFC 1071), on hosts of either byte order. */
module IcmpChecksum {
  import opened Basics

  const INT_MAX := 0x7fff_ffff

  type Word = n: int | 0 <= n < 0x1_0000

  datatype Order = Little | Big

  /** Two octets of memory read as an unsigned short. */
  function WordOf(o: Order, first: Octet, second: Octet): Word {
    if o.Little? then first + 256 * second else 256 * first + second
  }

  /** An unsigned short stored to memory. */
  function Stored(o: Order, w: Word): (s: seq<Octet>)
    ensures |s| == 2 && WordOf(o, s[0], s[1]) == w
  {
    if o.Little? then [w % 256, w / 256] else [w / 256, w % 256]
  }

  // ----- the standard: one's complement addition, with the carry taken around -----

  function Add(a: Word, b: Word): Word {
    if a + b > 0xffff then a + b - 0xffff else a + b
  }

  /** The one's complement sum of the words of s; an odd octet at the end is padded with zero. */
  function OnesSum(o: Order, s: seq<Octet>): Word {
    if s == [] then 0
    else if |s| == 1 then WordOf(o, s[0], 0)
    else Add(WordOf(o, s[0], s[1]), OnesSum(o, s[2..]))
  }

  function Checksum(o: Order, s: seq<Octet>): Word { 0xffff - OnesSum(o, s) }

  /** The example of section 3 of RFC 1071. */
  lemma StandardExample()
    ensures OnesSum(Big, [0x00, 0x01, 0xf2, 0x03, 0xf4, 0xf5, 0xf6, 0xf7]) == 0xddf2
    ensures OnesSum(Little, [0x00, 0x01, 0xf2, 0x03, 0xf4, 0xf5, 0xf6, 0xf7]) == 0xf2dd
  {
    var s: seq<Octet> := [0x00, 0x01, 0xf2, 0x03, 0xf4, 0xf5, 0xf6, 0xf7];
    assert s[2..] == [0xf2, 0x03, 0xf4, 0xf5, 0xf6, 0xf7];
    assert s[2..][2..] == [0xf4, 0xf5, 0xf6, 0xf7];
    assert s[2..][2..][2..] == [0xf6, 0xf7];
    assert s[2..][2..][2..][2..] == [];
    assert OnesSum(Big, s[2..][2..][2..]) == 0xf6f7 && OnesSum(Little, s[2..][2..][2..]) == 0xf7f6;
    assert OnesSum(Big, s[2..][2..]) == Add(0xf4f5, 0xf6f7) && OnesSum(Little, s[2..][2..]) == Add(0xf5f4, 0xf7f6);
  }

  /** An odd octet at the end counts as if a zero were behind it (RFC 1071, section 1). */
  lemma {:induction false} OddOctetIsPadded(o: Order, s: seq<Octet>)
    requires |s| % 2 == 1
    ensures OnesSum(o, s) == OnesSum(o, s + [0])
    decreases |s|
  {
    if |s| == 1 {
      assert (s + [0])[2..] == [];
    } else {
      OddOctetIsPadded(o, s[2..]);
      assert (s + [0])[2..] == s[2..] + [0];
    }
  }

  // ----- plain sums, folded at the end -----

  function Sum(o: Order, s: seq<Octet>): nat {
    if s == [] then 0
    else if |s| == 1 then WordOf(o, s[0], 0)
    else WordOf(o, s[0], s[1]) + Sum(o, s[2..])
  }

  /** The word that a sum of words comes down to. */
  function Norm(n: nat): (w: Word)
    ensures w == 0 <==> n == 0
  {
    if n == 0 then 0 else (n - 1) % 0xffff + 1
  }

  lemma NormOf(n: nat, h: nat, w: Word)
    requires n == 0xffff * h + w && (w == 0 ==> n == 0)
    ensures Norm(n) == w
  {
    if n != 0 {
      assert n - 1 == 0xffff * h + (w - 1);
    }
  }

  /** Every sum is a multiple of 0xffff above its word. */
  lemma NormShape(n: nat) returns (h: nat)
    ensures n == 0xffff * h + Norm(n)
  {
    h := if n == 0 then 0 else (n - 1) / 0xffff;
  }

  lemma NormAdds(n: nat, w: Word)
    ensures Norm(w + n) == Add(w, Norm(n))
  {
    var h := NormShape(n);
    var t := w + Norm(n);
    if t > 0xffff {
      NormOf(w + n, h + 1, t - 0xffff);
    } else {
      NormOf(w + n, h, t);
    }
  }

  /** Adding in the integers and folding once at the end is the one's complement sum. */
  lemma {:induction false} SumFolds(o: Order, s: seq<Octet>)
    ensures OnesSum(o, s) == Norm(Sum(o, s))
    decreases |s|
  {
    hide Norm;
    if |s| == 1 {
      NormOf(Sum(o, s), 0, WordOf(o, s[0], 0));
    } else if |s| > 1 {
      SumFolds(o, s[2..]);
      NormAdds(Sum(o, s[2..]), WordOf(o, s[0], s[1]));
    } else {
      NormOf(0, 0, 0);
    }
  }

  lemma {:induction false} SumIsSmall(o: Order, s: seq<Octet>)
    ensures Sum(o, s) <= 0xffff * ((|s| + 1) / 2)
    decreases |s|
  {
    if |s| > 1 {
      SumIsSmall(o, s[2..]);
      assert (|s| + 1) / 2 == (|s[2..]| + 1) / 2 + 1;
    }
  }

  lemma TwoFoldsSuffice(n: nat)
    requires n <= INT_MAX
    ensures var t := n / 0x1_0000 + n % 0x1_0000; (t + t / 0x1_0000) % 0x1_0000 == Norm(n)
  {
    var h, l := n / 0x1_0000, n % 0x1_0000;
    var t := h + l;
    assert n == 0xffff * h + t;
    if t < 0x1_0000 {
      NormOf(n, h, t);
    } else {
      assert t / 0x1_0000 == 1;
      NormOf(n, h + 1, t - 0xffff);
    }
  }

  /** icmp_cksum: for a datagram of legal size the accumulator stays a signed 32-bit number. */
  method Cksum(o: Order, addr: array<Octet>, at: nat, length: nat) returns (answer: Word)
    requires at + length <= addr.Length && length <= 0xffff
    ensures answer == Checksum(o, addr[at..at + length])
  {
    hide Norm, OnesSum;
    ghost var s := addr[at..at + length];
    var sum, wp, len := 0, at, length;
    while len > 1
      invariant wp == at + length - len && 0 <= len <= length
      invariant sum + Sum(o, s[length - len..]) == Sum(o, s)
      invariant 0 <= sum <= INT_MAX
    {
      ghost var rest := s[length - len..];
      assert rest[2..] == s[length - len + 2..];
      assert rest[0] == addr[wp] && rest[1] == addr[wp + 1];
      sum := sum + WordOf(o, addr[wp], addr[wp + 1]);
      wp, len := wp + 2, len - 2;
      SumIsSmall(o, s);
    }
    if len == 1 {
      assert s[length - len..] == [addr[wp]];
      sum := sum + WordOf(o, addr[wp], 0);
    }
    SumIsSmall(o, s);
    SumFolds(o, s);
    TwoFoldsSuffice(sum);
    sum := sum / 0x1_0000 + sum % 0x1_0000;
    sum := sum + sum / 0x1_0000;
    answer := 0xffff - sum % 0x1_0000;
  }

  // ----- both byte orders compute the same two octets -----

  function Swap(w: Word): Word { w / 256 + 256 * (w % 256) }

  lemma SwapIsTimes256(w: Word)
    ensures 256 * w == 0xffff * (w / 256) + Swap(w) && (Swap(w) == 0 <==> w == 0)
  {
    assert w == 256 * (w / 256) + w % 256;
  }

  lemma {:induction false} BigIsLittleTimes256(s: seq<Octet>) returns (h: nat)
    ensures 256 * Sum(Little, s) == 0xffff * h + Sum(Big, s)
    ensures Sum(Little, s) == 0 <==> Sum(Big, s) == 0
    decreases |s|
  {
    if s == [] {
      return 0;
    }
    var second: Octet := if |s| == 1 then 0 else s[1];
    var w := WordOf(Little, s[0], second);
    SwapIsTimes256(w);
    assert Swap(w) == WordOf(Big, s[0], second);
    if |s| == 1 {
      return w / 256;
    }
    var more := BigIsLittleTimes256(s[2..]);
    h := more + w / 256;
  }

  /** What is stored to memory as the checksum does not depend on the byte order of the host. */
  lemma ByteOrderIndependent(s: seq<Octet>)
    ensures Stored(Little, Checksum(Little, s)) == Stored(Big, Checksum(Big, s))
  {
    hide OnesSum, Norm;
    SumFolds(Little, s);
    SumFolds(Big, s);
    var little, big := Sum(Little, s), Sum(Big, s);
    var h := BigIsLittleTimes256(s);
    var k := NormShape(little);
    var j := NormShape(big);
    var w := Norm(little);
    SwapIsTimes256(w);
    SameWord(0xffff * j + Norm(big) + 0xffff * h, 0xffff * k * 256 + 0xffff * (w / 256) + Swap(w),
             j + h, 256 * k + w / 256, Norm(big), Swap(w));
    SwappedComplement(w);
  }

  /** A positive number has only one word above a multiple of 0xffff. */
  lemma SameWord(n: nat, m: nat, h: nat, k: nat, a: Word, b: Word)
    requires n == m && n == 0xffff * h + a && m == 0xffff * k + b
    requires a == 0 <==> b == 0
    ensures a == b
  {
  }

  lemma SwappedComplement(w: Word)
    ensures Stored(Little, 0xffff - w) == Stored(Big, 0xffff - Swap(w))
  {
    var a, b := w % 256, w / 256;
    assert 0xffff - w == 256 * (255 - b) + (255 - a);
    assert 0xffff - Swap(w) == 256 * (255 - a) + (255 - b);
  }
}
