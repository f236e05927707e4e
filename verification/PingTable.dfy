/** The counters of ping and ping6, and the bit table that tells duplicate replies from first ones. */
module PingTable {
  import opened IcmpChecksum

  const PING_CKTABSIZE := 128

  const BITS := 8 * PING_CKTABSIZE

  // ----- bits in octets -----

  /** One octet of the table, as its bits from the lowest up. */
  type OctetBits = s: seq<bool> | |s| == 8 witness [false, false, false, false, false, false, false, false]

  const ZERO: OctetBits := [false, false, false, false, false, false, false, false]

  function BitsOf(table: seq<OctetBits>): (bits: seq<bool>)
    ensures |bits| == 8 * |table|
  {
    seq(8 * |table|, n requires 0 <= n < 8 * |table| => table[n / 8][n % 8])
  }

  lemma BitsAfter(table: seq<OctetBits>, n: nat, value: bool)
    requires n < 8 * |table|
    ensures BitsOf(table[n / 8 := table[n / 8][n % 8 := value]]) == BitsOf(table)[n := value]
  {
    var after := table[n / 8 := table[n / 8][n % 8 := value]];
    forall k | 0 <= k < 8 * |table|
      ensures BitsOf(after)[k] == BitsOf(table)[n := value][k]
    {
      if k != n && k / 8 == n / 8 {
        assert k == 8 * (k / 8) + k % 8 && n == 8 * (n / 8) + n % 8;
      }
    }
  }

  // ----- one step -----

  /** _C_IND */
  function Slot(n: nat): (k: nat)
    ensures k < BITS
  {
    n % BITS
  }

  datatype Counts = Counts(bits: seq<bool>, xmit: nat, recv: nat, rept: nat)

  predicate Sized(t: Counts) { |t.bits| == BITS }

  /** A transmission; when sendto fails the bit is cleared all the same. */
  function Xmitted(t: Counts, sent: bool): Counts
    requires Sized(t)
  {
    t.(bits := t.bits[Slot(t.xmit) := false], xmit := if sent then t.xmit + 1 else t.xmit)
  }

  /** An accepted reply with this sequence number. */
  function Received(t: Counts, number: Word): Counts
    requires Sized(t)
  {
    if t.bits[Slot(number)] then t.(rept := t.rept + 1)
    else t.(bits := t.bits[Slot(number) := true], recv := t.recv + 1)
  }

  /** struct ping_data, the part that counts. */
  class Ping {
    const cktab: array<OctetBits>
    var xmit: nat
    var recv: nat
    var rept: nat

    predicate Valid()
      reads this, cktab
    {
      cktab.Length == PING_CKTABSIZE
    }

    function View(): (t: Counts)
      requires Valid()
      reads this, cktab
      ensures Sized(t)
    {
      Counts(BitsOf(cktab[..]), xmit, recv, rept)
    }

    constructor ()
      ensures Valid() && fresh(cktab) && View() == Counts(seq(BITS, i => false), 0, 0, 0)
    {
      cktab := new OctetBits[PING_CKTABSIZE](i => ZERO);
      xmit, recv, rept := 0, 0, 0;
      new;
      assert BitsOf(cktab[..]) == seq(BITS, i => false);
    }

    method Set(bit: nat)
      requires Valid()
      modifies cktab
      ensures BitsOf(cktab[..]) == old(BitsOf(cktab[..]))[Slot(bit) := true]
    {
      hide BitsOf;
      var n := Slot(bit);
      BitsAfter(cktab[..], n, true);
      cktab[n / 8] := cktab[n / 8][n % 8 := true];
      assert cktab[..] == old(cktab[..])[n / 8 := old(cktab[n / 8])[n % 8 := true]];
    }

    method Clear(bit: nat)
      requires Valid()
      modifies cktab
      ensures BitsOf(cktab[..]) == old(BitsOf(cktab[..]))[Slot(bit) := false]
    {
      hide BitsOf;
      var n := Slot(bit);
      BitsAfter(cktab[..], n, false);
      cktab[n / 8] := cktab[n / 8][n % 8 := false];
      assert cktab[..] == old(cktab[..])[n / 8 := old(cktab[n / 8])[n % 8 := false]];
    }

    method Test(bit: nat) returns (r: bool)
      requires Valid()
      ensures r == View().bits[Slot(bit)]
    {
      var n := Slot(bit);
      r := cktab[n / 8][n % 8];
      assert cktab[..][n / 8] == cktab[n / 8];
    }

    /** ping_xmit; `sent` is whether sendto succeeds, and `number` what goes into the packet. */
    method Xmit(sent: bool) returns (rc: int, number: Word)
      requires Valid()
      modifies this, cktab
      ensures Valid() && View() == Xmitted(old(View()), sent)
      ensures rc == (if sent then 0 else -1) && number == old(xmit) % 0x1_0000
    {
      hide BitsOf;
      Clear(xmit);
      number := xmit % 0x1_0000;
      if !sent {
        return -1, number;
      }
      xmit := xmit + 1;
      return 0, number;
    }

    /** ping_recv of ping: counts first, and takes it back for a duplicate. */
    method Recv(number: Word) returns (dupflag: bool)
      requires Valid()
      modifies this, cktab
      ensures Valid() && View() == Received(old(View()), number)
      ensures dupflag == old(View().bits[Slot(number)])
    {
      hide BitsOf;
      recv := recv + 1;
      var seen := Test(number);
      if seen {
        rept := rept + 1;
        recv := recv - 1;
        dupflag := true;
      } else {
        Set(number);
        dupflag := false;
      }
    }

    /** ping_recv of ping6: tests first. */
    method Recv6(number: Word) returns (dupflag: bool)
      requires Valid()
      modifies this, cktab
      ensures Valid() && View() == Received(old(View()), number)
      ensures dupflag == old(View().bits[Slot(number)])
    {
      hide BitsOf;
      var seen := Test(number);
      if seen {
        rept := rept + 1;
        dupflag := true;
      } else {
        Set(number);
        recv := recv + 1;
        dupflag := false;
      }
    }

    /** ping_reset: the table keeps what it holds. */
    method Reset()
      requires Valid()
      modifies this
      ensures Valid() && View() == Step(old(View()), Restart)
      ensures View().bits == old(View()).bits && xmit == recv == rept == 0
    {
      xmit, recv, rept := 0, 0, 0;
    }
  }

  // ----- runs -----

  /** What happens: a packet goes out, a reply to the transmission of this number comes in, a reset.
      An attempt to send that fails is no event of a run: it ends the process. */
  datatype Event = Send | Reply(to: nat) | Restart

  /** What has happened since the last reset: how many packets went out, which were answered, and how
      many answers came in all. */
  datatype Past = Past(xmit: nat, answered: set<nat>, answers: nat)

  function After(p: Past, e: Event): Past {
    match e
    case Send => p.(xmit := p.xmit + 1)
    case Reply(to) => p.(answered := p.answered + {to}, answers := p.answers + 1)
    case Restart => Past(0, {}, 0)
  }

  /** Replies carry the low sixteen bits of the number of the transmission. */
  function Step(t: Counts, e: Event): (u: Counts)
    requires Sized(t)
    ensures Sized(u)
  {
    match e
    case Send => Xmitted(t, true)
    case Reply(to) => Received(t, to % 0x1_0000)
    case Restart => t.(xmit := 0, recv := 0, rept := 0)
  }

  /** The transmissions that still own their bit: the last 1024. */
  predicate Current(p: Past, to: nat) { to < p.xmit <= to + BITS }

  predicate Legal(p: Past, e: Event) { e.Reply? ==> Current(p, e.to) }

  /** The table and the counters tell the truth about the past. */
  ghost predicate Truthful(t: Counts, p: Past) {
    && Sized(t) && t.xmit == p.xmit
    && (forall to: nat | Current(p, to) :: t.bits[Slot(to)] == (to in p.answered))
    && (forall to: nat | to in p.answered :: to < p.xmit)
    && t.recv == |p.answered| && t.recv + t.rept == p.answers
  }

  lemma NothingYet(bits: seq<bool>)
    requires |bits| == BITS
    ensures Truthful(Counts(bits, 0, 0, 0), Past(0, {}, 0))
  {
  }

  lemma SixteenBitsSuffice(to: nat)
    ensures Slot(to % 0x1_0000) == Slot(to)
  {
    var h := to / 0x1_0000;
    assert to == BITS * (64 * h) + to % 0x1_0000;
    SameResidue(64 * h, to % 0x1_0000);
  }

  lemma SameResidue(h: nat, n: nat)
    ensures Slot(BITS * h + n) == Slot(n)
  {
    if h > 0 {
      SameResidue(h - 1, n);
      assert (BITS * h + n) == (BITS * (h - 1) + n) + BITS;
    }
  }

  /** Two current transmissions, or a current one and the next, do not share a bit. */
  lemma OwnBits(a: nat, b: nat)
    requires a < b < a + BITS
    ensures Slot(a) != Slot(b)
  {
    assert b - a == BITS * (b / BITS - a / BITS) + (b % BITS - a % BITS);
  }

  lemma SendKeeps(t: Counts, p: Past)
    requires Truthful(t, p)
    ensures Truthful(Step(t, Send), After(p, Send))
  {
    hide Slot;
    var u, q := Step(t, Send), After(p, Send);
    forall to: nat | Current(q, to)
      ensures u.bits[Slot(to)] == (to in q.answered)
    {
      if to < p.xmit {
        OwnBits(to, p.xmit);
        assert Current(p, to);
      }
    }
  }

  lemma OtherBits(p: Past, to: nat, other: nat)
    requires Current(p, to) && Current(p, other) && other != to
    ensures Slot(to) != Slot(other)
  {
    if other < to {
      OwnBits(other, to);
    } else {
      OwnBits(to, other);
    }
  }

  lemma ReplyKeeps(t: Counts, p: Past, to: nat)
    requires Truthful(t, p) && Current(p, to)
    ensures Truthful(Step(t, Reply(to)), After(p, Reply(to)))
  {
    hide Slot;
    var u, q := Step(t, Reply(to)), After(p, Reply(to));
    SixteenBitsSuffice(to);
    forall other: nat | Current(q, other)
      ensures u.bits[Slot(other)] == (other in q.answered)
    {
      assert Current(p, other);
      if other != to {
        OtherBits(p, to, other);
      }
    }
    if to in p.answered {
      assert p.answered + {to} == p.answered;
    }
  }

  lemma StepKeeps(t: Counts, p: Past, e: Event)
    requires Truthful(t, p) && Legal(p, e)
    ensures Truthful(Step(t, e), After(p, e))
  {
    match e
    case Send => SendKeeps(t, p);
    case Reply(to) => ReplyKeeps(t, p, to);
    case Restart =>
  }

  function Run(t: Counts, es: seq<Event>): (u: Counts)
    requires Sized(t)
    ensures Sized(u)
    decreases |es|
  {
    if es == [] then t else Step(Run(t, es[..|es| - 1]), es[|es| - 1])
  }

  function History(es: seq<Event>): Past
    decreases |es|
  {
    if es == [] then Past(0, {}, 0) else After(History(es[..|es| - 1]), es[|es| - 1])
  }

  predicate AllLegal(es: seq<Event>)
    decreases |es|
  {
    es == [] || (AllLegal(es[..|es| - 1]) && Legal(History(es[..|es| - 1]), es[|es| - 1]))
  }

  /** An attempt to send that fails has cleared its bit all the same: of the transmissions in the table, the
      one 1024 before it is forgotten, and no other. */
  lemma FailedSendForgets(t: Counts, p: Past, to: nat)
    requires Truthful(t, p) && Current(p, to)
    ensures var u := Xmitted(t, false);
            && u.bits[Slot(to)] == (to in p.answered && to + 1024 != p.xmit)
            && u.xmit == t.xmit && u.recv == t.recv && u.rept == t.rept
  {
    assert Slot(to) == Slot(p.xmit) <==> to + BITS == p.xmit;
  }

  function Percentage(t: Counts): nat
    requires 0 < t.xmit && t.recv <= t.xmit
  {
    (t.xmit - t.recv) * 100 / t.xmit
  }

  /** Whatever is left in the table from before: as long as each reply is to a current transmission,
      ping counts as received the distinct transmissions that were answered, and as duplicates all
      other answers. */
  lemma {:induction false} CountsTellTheTruth(bits: seq<bool>, es: seq<Event>)
    requires |bits| == BITS && AllLegal(es)
    ensures Truthful(Run(Counts(bits, 0, 0, 0), es), History(es))
    decreases |es|
  {
    hide Truthful, Step, After;
    if es == [] {
      NothingYet(bits);
    } else {
      var front := es[..|es| - 1];
      CountsTellTheTruth(bits, front);
      StepKeeps(Run(Counts(bits, 0, 0, 0), front), History(front), es[|es| - 1]);
    }
  }

  /** No run of that kind accuses the other side of forging, and the loss is a percentage; it is 0
      exactly if less than one in a hundred is missing, 100 exactly if nothing was answered, and
      otherwise the greatest whole number of hundredths that are missing. */
  lemma LossIsAPercentage(bits: seq<bool>, es: seq<Event>)
    requires |bits| == BITS && AllLegal(es)
    ensures var t := Run(Counts(bits, 0, 0, 0), es);
            && t.recv <= t.xmit
            && (t.xmit > 0 ==>
                  && 0 <= Percentage(t) <= 100
                  && Percentage(t) * t.xmit <= 100 * (t.xmit - t.recv) < (Percentage(t) + 1) * t.xmit
                  && (Percentage(t) == 100 <==> History(es).answered == {})
                  && (Percentage(t) == 0 <==> 100 * (t.xmit - t.recv) < t.xmit))
  {
    hide Run, History, AllLegal;
    CountsTellTheTruth(bits, es);
    var t, p := Run(Counts(bits, 0, 0, 0), es), History(es);
    Bounded(p.answered, p.xmit);
    if t.xmit > 0 {
      Quotient(t.xmit, t.recv);
    }
  }

  lemma Quotient(n: nat, r: nat)
    requires r <= n && n > 0
    ensures var q := (n - r) * 100 / n;
            && 0 <= q <= 100 && (q == 100 <==> r == 0) && (q == 0 <==> 100 * (n - r) < n)
            && q * n <= 100 * (n - r) < (q + 1) * n
  {
    AtLeast(100 * (n - r), n, 101);
    AtLeast(100 * (n - r), n, 100);
    AtLeast(100 * (n - r), n, 1);
    var q := (n - r) * 100 / n;
    AtLeast(100 * (n - r), n, q);
    AtLeast(100 * (n - r), n, q + 1);
  }

  lemma AtLeast(x: nat, n: nat, k: nat)
    requires n > 0
    ensures x / n >= k <==> x >= k * n
  {
    var q := x / n;
    assert q * n <= x < (q + 1) * n;
    if q >= k {
      assert q * n >= k * n;
    } else {
      assert (q + 1) * n <= k * n;
    }
  }

  lemma {:induction false} Bounded(s: set<nat>, n: nat)
    requires forall k | k in s :: k < n
    ensures |s| <= n
    decreases n
  {
    if n > 0 {
      Bounded(s - {n - 1}, n - 1);
    } else {
      assert s == {};
    }
  }

  /** The last of the transmissions that have used the bit of `to`. */
  function Owner(p: Past, to: nat): nat
    requires to < p.xmit
    decreases p.xmit - to
  {
    if p.xmit <= to + BITS then to else Owner(p, to + BITS)
  }

  /** A reply that comes too late is taken for a reply to whatever transmission owns its bit by then,
      so it is called a duplicate exactly if that one was answered. */
  lemma LateReplies(t: Counts, p: Past, to: nat)
    requires Truthful(t, p) && to < p.xmit
    ensures Current(p, Owner(p, to)) && Slot(Owner(p, to)) == Slot(to)
    ensures Received(t, to % 0x1_0000).rept > t.rept <==> Owner(p, to) in p.answered
  {
    OwnerResidue(p, to);
    SixteenBitsSuffice(to);
  }

  lemma {:induction false} OwnerResidue(p: Past, to: nat)
    requires to < p.xmit
    ensures Slot(Owner(p, to)) == Slot(to) && Owner(p, to) < p.xmit <= Owner(p, to) + BITS
    decreases p.xmit - to
  {
    if to + BITS < p.xmit {
      OwnerResidue(p, to + BITS);
      SameResidue(1, to);
    }
  }
}
