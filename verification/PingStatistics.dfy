/** The round-trip statistics of ping, over exact real numbers. */
module PingStatistics {
  import PingTable
  import IcmpChecksum

  // ----- square root -----

  function Abs(a: real): real { if a < 0.0 then -a else a }

  function Square(x: real): real { x * x }

  function Newton(a: real, x: real): real
    requires x > 0.0
  {
    (x + a / x) / 2.0
  }

  /** One step of Newton's iteration: how far it goes is how far the square is off. */
  lemma NewtonStep(a: real, x: real)
    requires a > 0.0 && x > 0.0
    ensures var y := Newton(a, x);
            y > 0.0 && Square(y) - a == Square(y - x) >= 0.0 && (Square(x) >= a ==> y <= x)
  {
    var q := a / x;
    Quotient(a, x);
    var y := Newton(a, x);
    Squares(x, q, y);
    Scaled(x, q);
    Near(y - x, 1.0);
  }

  lemma Quotient(a: real, x: real)
    requires x > 0.0
    ensures a / x * x == a && (a > 0.0 ==> a / x > 0.0) && (a >= 0.0 ==> a / x >= 0.0)
  {
    var q := a / x;
    assert q * x == a;
    Scaled(x, q);
  }

  /** Multiplying by a positive number keeps the order. */
  lemma Scaled(x: real, q: real)
    requires x > 0.0
    ensures q <= 0.0 ==> q * x <= 0.0
    ensures q < 0.0 ==> q * x < 0.0
    ensures q > x ==> q * x > Square(x)
  {
    if q > x {
      assert (q - x) * x > 0.0;
    }
  }

  lemma Squares(x: real, q: real, y: real)
    requires y == (x + q) / 2.0
    ensures Square(y) - q * x == Square(y - x)
  {
    var d := (q - x) / 2.0;
    assert y == x + d && q == x + 2.0 * d;
    assert (x + d) * (x + d) == x * x + 2.0 * (x * d) + d * d;
    assert q * x == x * x + 2.0 * (x * d) by {
      assert (x + 2.0 * d) * x == x * x + 2.0 * (d * x);
    }
  }

  lemma Near(d: real, prec: real)
    requires prec > 0.0
    ensures Square(d) >= 0.0 && (Abs(d) <= prec ==> Square(d) <= Square(prec))
  {
    var e := Abs(d);
    assert e * e == d * d;
    if e <= prec {
      assert e * e <= e * prec <= prec * prec;
    }
  }

  /** The whole part of a length, with the precision as the unit. */
  function Units(x: real, prec: real): int
    requires prec > 0.0
  {
    (x / prec).Floor
  }

  /** A step further than the precision lowers the whole part. */
  lemma UnitsDrop(x: real, y: real, prec: real)
    requires prec > 0.0 && 0.0 < y < x - prec
    ensures 0 <= Units(y, prec) < Units(x, prec)
  {
    Quotient(y, prec);
    Quotient(x, prec);
    var u, v := x / prec, y / prec;
    var w := u - v - 1.0;
    assert w * prec == u * prec - v * prec - prec;
    Scaled(prec, w);
  }

  /** nsqrt: zero below the precision, and otherwise a number whose square is not below a and at most
      the square of the precision above it. The iteration ends because every round but the first and
      the last comes down by more than the precision. */
  method Nsqrt(a: real, prec: real) returns (r: real)
    requires prec > 0.0
    ensures a < prec ==> r == 0.0
    ensures a >= prec ==> r > 0.0 && 0.0 <= Square(r) - a <= Square(prec)
  {
    hide Square, Newton, Units;
    if a < 0.0 {
      return 0.0;
    }
    if a < prec {
      return 0.0;
    }
    var x0, x1 := 0.0, a / 2.0;
    NewtonStep(a, x1);
    x0 := x1;
    x1 := Newton(a, x0);
    Near(x1 - x0, prec);
    while Abs(x1 - x0) > prec
      invariant x1 > 0.0 && Square(x1) >= a
      invariant Abs(x1 - x0) <= prec ==> Square(x1) - a <= Square(prec)
      decreases if Abs(x1 - x0) > prec then 1 + Units(x1, prec) else 0
    {
      NewtonStep(a, x1);
      ghost var before := x1;
      x0 := x1;
      x1 := Newton(a, x0);
      Near(x1 - x0, prec);
      NotNegative(before, prec);
      if Abs(x1 - x0) > prec {
        UnitsDrop(before, x1, prec);
      }
    }
    return x1;
  }

  lemma NotNegative(x: real, prec: real)
    requires prec > 0.0 && x > 0.0
    ensures Units(x, prec) >= 0
  {
    Quotient(x, prec);
  }

  // ----- what the accumulators stand for -----

  function Sum(ts: seq<real>): real
    decreases |ts|
  {
    if ts == [] then 0.0 else Sum(ts[..|ts| - 1]) + ts[|ts| - 1]
  }

  function SumOfSquares(ts: seq<real>): real
    decreases |ts|
  {
    if ts == [] then 0.0 else SumOfSquares(ts[..|ts| - 1]) + Square(ts[|ts| - 1])
  }

  /** The sum of the squared distances from c. */
  function Deviation(ts: seq<real>, c: real): (d: real)
    ensures d >= 0.0
    decreases |ts|
  {
    if ts == [] then 0.0
    else
      Near(ts[|ts| - 1] - c, 1.0);
      Deviation(ts[..|ts| - 1], c) + Square(ts[|ts| - 1] - c)
  }

  predicate IsLeast(m: real, ts: seq<real>) { m in ts && forall i :: 0 <= i < |ts| ==> m <= ts[i] }

  predicate IsGreatest(m: real, ts: seq<real>) { m in ts && forall i :: 0 <= i < |ts| ==> ts[i] <= m }

  /** q - 2cs + ncc, the squared distances from c in terms of the sums */
  function Expanded(q: real, s: real, n: real, c: real): real { q - 2.0 * (c * s) + n * Square(c) }

  lemma ExpandedStep(q: real, s: real, n: real, c: real, x: real)
    ensures Expanded(q + Square(x), s + x, n + 1.0, c) == Expanded(q, s, n, c) + Square(x - c)
  {
    assert c * (s + x) == c * s + c * x;
    assert (n + 1.0) * Square(c) == n * Square(c) + Square(c);
    assert (x - c) * (x - c) == x * x - 2.0 * (c * x) + c * c;
  }

  lemma {:induction false} DeviationExpands(ts: seq<real>, c: real)
    ensures Deviation(ts, c) == Expanded(SumOfSquares(ts), Sum(ts), |ts| as real, c)
    decreases |ts|
  {
    hide Square;
    if ts == [] {
      assert Expanded(0.0, 0.0, 0.0, c) == 0.0;
    } else {
      hide Expanded;
      var n := |ts| - 1;
      DeviationExpands(ts[..n], c);
      ExpandedStep(SumOfSquares(ts[..n]), Sum(ts[..n]), n as real, c, ts[n]);
      assert |ts| as real == n as real + 1.0;
    }
  }

  lemma {:induction false} SumIsBetween(ts: seq<real>, low: real, high: real)
    requires forall i :: 0 <= i < |ts| ==> low <= ts[i] <= high
    ensures |ts| as real * low <= Sum(ts) <= |ts| as real * high
    decreases |ts|
  {
    if ts != [] {
      var n := |ts| - 1;
      SumIsBetween(ts[..n], low, high);
      assert |ts| as real == n as real + 1.0;
      assert (n as real + 1.0) * low == n as real * low + low;
      assert (n as real + 1.0) * high == n as real * high + high;
    }
  }

  lemma SumsAppend(ts: seq<real>, x: real)
    ensures Sum(ts + [x]) == Sum(ts) + x && SumOfSquares(ts + [x]) == SumOfSquares(ts) + Square(x)
  {
    var us := ts + [x];
    assert us[..|us| - 1] == ts;
  }

  const FIRST_TMIN := 999999999.0

  // ----- the accumulators -----

  /** struct ping_stat */
  class PingStat {
    var tmin: real
    var tmax: real
    var tsum: real
    var tsumsq: real
    ghost var times: seq<real>

    ghost predicate Valid()
      reads this
    {
      && tsum == Sum(times) && tsumsq == SumOfSquares(times)
      && (tmin == FIRST_TMIN || tmin in times) && tmin <= FIRST_TMIN
      && (tmax == 0.0 || tmax in times) && tmax >= 0.0
      && forall i :: 0 <= i < |times| ==> tmin <= times[i] <= tmax
    }

    constructor ()
      ensures Valid() && times == []
    {
      tmin, tmax, tsum, tsumsq := FIRST_TMIN, 0.0, 0.0, 0.0;
      times := [];
    }

    /** The timing part of print_echo. */
    method Record(triptime: real)
      requires Valid()
      modifies this
      ensures Valid() && times == old(times) + [triptime]
    {
      hide Sum, SumOfSquares, Square;
      SumsAppend(times, triptime);
      tsum := tsum + triptime;
      tsumsq := tsumsq + Square(triptime);
      if triptime < tmin {
        tmin := triptime;
      }
      if triptime > tmax {
        tmax := triptime;
      }
      times := times + [triptime];
      assert triptime in times && forall t :: t in old(times) ==> t in times;
    }
  }

  /** The extremes are those of the samples exactly if no trip took longer than the first tmin, or,
      for the greatest, if some trip took no negative time. */
  lemma ExtremesAreExact(s: PingStat)
    requires s.Valid() && s.times != []
    ensures IsLeast(s.tmin, s.times) <==> exists i :: 0 <= i < |s.times| && s.times[i] <= 999999999.0
    ensures IsGreatest(s.tmax, s.times) <==> exists i :: 0 <= i < |s.times| && s.times[i] >= 0.0
  {
  }

  function Mean(ts: seq<real>): real
    requires ts != []
  {
    Sum(ts) / |ts| as real
  }

  /** The mean squared distance from the mean. */
  function Variance(ts: seq<real>): (v: real)
    requires ts != []
    ensures v >= 0.0
  {
    Quotient(Deviation(ts, Mean(ts)), |ts| as real);
    Deviation(ts, Mean(ts)) / |ts| as real
  }

  lemma MeanIsBetween(ts: seq<real>, low: real, high: real)
    requires ts != [] && forall i :: 0 <= i < |ts| ==> low <= ts[i] <= high
    ensures low <= Mean(ts) <= high
  {
    var n, avg := |ts| as real, Mean(ts);
    hide Sum;
    Quotient(Sum(ts), n);
    SumIsBetween(ts, low, high);
    Lies(low, avg, n);
    Lies(avg, high, n);
  }

  lemma Lies(x: real, y: real, n: real)
    requires n > 0.0 && x * n <= y * n
    ensures x <= y
  {
    assert (y - x) * n == y * n - x * n;
    Scaled(n, y - x);
  }

  /** The mean of the squares less the square of the mean is the variance. */
  lemma VarianceBySums(ts: seq<real>)
    requires ts != []
    ensures SumOfSquares(ts) / |ts| as real - Square(Mean(ts)) == Variance(ts)
  {
    hide Sum, SumOfSquares, Deviation;
    var n, avg, q := |ts| as real, Mean(ts), SumOfSquares(ts);
    DeviationExpands(ts, avg);
    Quotient(Sum(ts), n);
    Quotient(q, n);
    Centred(q, Sum(ts), n, avg);
    var d := Deviation(ts, avg);
    Quotient(d, n);
    Cancel(q / n - Square(avg), d / n, n, q / n);
  }

  lemma Centred(q: real, s: real, n: real, avg: real)
    requires s == avg * n
    ensures Expanded(q, s, n, avg) == q - n * Square(avg)
  {
    assert avg * (avg * n) == n * (avg * avg);
  }

  lemma Cancel(u: real, v: real, n: real, w: real)
    requires n > 0.0 && (w - u) * n == w * n - v * n
    ensures u == v
  {
    assert (u - v) * n == 0.0 by {
      assert (w - u) * n == w * n - u * n;
    }
    Scaled(n, u - v);
    Scaled(n, v - u);
    assert (v - u) * n == 0.0;
  }

  // ----- a whole run -----

  /** sizeof (struct timeval): what the data of a packet must hold to be timed. */
  const TIMEVAL := 16

  /** PING_TIMING */
  predicate Timing(length: nat) { length >= TIMEVAL }

  function Zeros(n: nat): (z: seq<real>)
    ensures |z| == n
  {
    seq(n, i => 0.0)
  }

  /** A reply without a time counts like one that took no time. */
  lemma {:induction false} ZerosAddNothing(ts: seq<real>, n: nat)
    ensures Sum(ts + Zeros(n)) == Sum(ts) && SumOfSquares(ts + Zeros(n)) == SumOfSquares(ts)
    decreases n
  {
    hide Sum, SumOfSquares;
    if n == 0 {
      assert ts + Zeros(0) == ts;
    } else {
      ZerosAddNothing(ts, n - 1);
      SumsAppend(ts + Zeros(n - 1), 0.0);
      assert ts + Zeros(n) == (ts + Zeros(n - 1)) + [0.0];
    }
  }

  /** When, exactly, a number is not above the mean of the samples: the timed replies have to make up
      for the others. */
  lemma MeanIsAbove(ts: seq<real>, u: nat, m: real)
    requires |ts| + u > 0
    ensures m <= Mean(ts + Zeros(u)) <==> u as real * m <= Sum(ts) - |ts| as real * m
  {
    hide Sum, SumOfSquares, Mean, Zeros;
    var all := ts + Zeros(u);
    ZerosAddNothing(ts, u);
    assert |all| == |ts| + u;
    MeanTimes(all);
    Balance(|ts| as real, u as real, m, Mean(all), Sum(ts));
  }

  lemma MeanTimes(ts: seq<real>)
    requires ts != []
    ensures Mean(ts) * |ts| as real == Sum(ts)
  {
    Quotient(Sum(ts), |ts| as real);
  }

  lemma Balance(a: real, b: real, m: real, avg: real, s: real)
    requires a + b > 0.0 && avg * (a + b) == s
    ensures m <= avg <==> b * m <= s - a * m
  {
    var d := avg - m;
    assert d * (a + b) == s - a * m - b * m by {
      assert (avg - m) * (a + b) == avg * (a + b) - m * (a + b);
      assert m * (a + b) == a * m + b * m;
    }
    Scaled(a + b, d);
    if d > 0.0 {
      Scaled(a + b, -d);
      assert (-d) * (a + b) == -(d * (a + b));
    }
  }

  function Alike(n: nat, t: real): seq<real> { seq(n, i => t) }

  lemma {:induction false} SumOfAlike(n: nat, t: real)
    ensures Sum(Alike(n, t)) == n as real * t
    decreases n
  {
    hide Sum;
    if n == 0 {
      assert Alike(0, t) == [];
      SumOfNone();
    } else {
      SumOfAlike(n - 1, t);
      SumsAppend(Alike(n - 1, t), t);
      assert Alike(n, t) == Alike(n - 1, t) + [t];
      assert n as real * t == (n - 1) as real * t + t;
    }
  }

  lemma SumOfNone()
    ensures Sum([]) == 0.0
  {
  }

  /** Whatever the trip times, the least of them is not above the printed mean, if and only if every
      reply was timed: u is the number of replies that were not. */
  lemma LeastIsBelowMeanIffAllTimed(n: nat, u: nat)
    requires n > 0
    ensures (forall ts, m :: |ts| == n && IsLeast(m, ts) ==> m <= Mean(ts + Zeros(u))) <==> u == 0
  {
    hide Sum, Mean;
    if u == 0 {
      forall ts: seq<real>, m | |ts| == n && IsLeast(m, ts) ensures m <= Mean(ts + Zeros(u)) {
        SumIsAtLeast(ts, m);
        MeanIsAbove(ts, u, m);
      }
    } else {
      var ts := Alike(n, 1.0);
      assert ts[0] in ts && IsLeast(1.0, ts);
      SumOfAlike(n, 1.0);
      MeanIsAbove(ts, u, 1.0);
    }
  }

  lemma {:induction false} SumIsAtLeast(ts: seq<real>, low: real)
    requires forall i :: 0 <= i < |ts| ==> low <= ts[i]
    ensures |ts| as real * low <= Sum(ts)
    decreases |ts|
  {
    if ts != [] {
      var n := |ts| - 1;
      SumIsAtLeast(ts[..n], low);
      assert |ts| as real == n as real + 1.0;
      assert (n as real + 1.0) * low == n as real * low + low;
    }
  }

  /** ping with its statistics: replies are counted, and timed when they are long enough. */
  class Echo {
    const ping: PingTable.Ping
    const stat: PingStat
    const dataLength: nat
    var exited: bool
    ghost var untimed: nat

    ghost predicate Valid()
      reads this, ping, ping.cktab, stat
    {
      ping.Valid() && stat.Valid() && |stat.times| + untimed == ping.recv + ping.rept
    }

    /** The times of all replies, with zero for those that carry none. */
    ghost function Samples(): seq<real>
      reads this, stat
    {
      stat.times + Zeros(untimed)
    }

    constructor (dataLength: nat)
      ensures Valid() && fresh(ping) && fresh(ping.cktab) && fresh(stat)
      ensures this.dataLength == dataLength && untimed == 0 && !exited
    {
      ping := new PingTable.Ping();
      stat := new PingStat();
      this.dataLength, exited, untimed := dataLength, false, 0;
    }

    /** send_echo: a packet that cannot be sent ends the process. */
    method SendEcho(sent: bool)
      requires Valid() && !exited
      modifies this, ping, ping.cktab
      ensures Valid() && exited == !sent && untimed == old(untimed) && stat.times == old(stat.times)
      ensures ping.View() == PingTable.Xmitted(old(ping.View()), sent)
    {
      var rc, number := ping.Xmit(sent);
      if rc < 0 {
        exited := true;
      }
    }

    /** A reply with this much data: ping_recv calls the handler for first replies and duplicates
        alike, and it times those that are long enough. */
    method HandleReply(number: IcmpChecksum.Word, length: nat, triptime: real)
      requires Valid() && !exited
      modifies this, ping, ping.cktab, stat
      ensures Valid() && !exited && ping.View() == PingTable.Received(old(ping.View()), number)
      ensures if length >= 16 then stat.times == old(stat.times) + [triptime] && untimed == old(untimed)
              else stat.times == old(stat.times) && untimed == old(untimed) + 1
    {
      var dupflag := ping.Recv(number);
      if Timing(length) {
        stat.Record(triptime);
      } else {
        untimed := untimed + 1;
      }
    }

    /** echo_finish: after any run in which something came back, the root is taken of the true variance
        of the samples, which is not negative, and their mean is not above the greatest time.  It is not
        below the least time either, exactly if the timed replies make up for those too short for that. */
    method EchoFinish() returns (rc: int, avg: real, vari: real, stddev: real)
      requires Valid() && !exited
      ensures rc == (if ping.recv == 0 then 1 else 0)
      ensures ping.recv > 0 && dataLength >= 16 ==>
                && avg == Mean(Samples()) && avg <= stat.tmax
                && (stat.tmin <= avg <==>
                      untimed as real * stat.tmin <= Sum(stat.times) - |stat.times| as real * stat.tmin)
                && (untimed == 0 || stat.tmin <= 0.0 ==> stat.tmin <= avg)
                && vari == Variance(Samples())
                && (if vari < 0.0005 then stddev == 0.0
                    else stddev > 0.0 && 0.0 <= Square(stddev) - vari <= Square(0.0005))
    {
      hide Sum, SumOfSquares, Square, Variance;
      avg, vari, stddev := 0.0, 0.0, 0.0;
      if ping.recv > 0 && Timing(dataLength) {
        var total := (ping.recv + ping.rept) as real;
        ghost var low := if untimed == 0 || stat.tmin <= 0.0 then stat.tmin else 0.0;
        MeanIsAbove(stat.times, untimed, stat.tmin);
        ZerosAddNothing(stat.times, untimed);
        MeanIsBetween(Samples(), low, stat.tmax);
        VarianceBySums(Samples());
        avg := stat.tsum / total;
        vari := stat.tsumsq / total - Square(avg);
        stddev := Nsqrt(vari, 0.0005);
      }
      rc := if ping.recv == 0 then 1 else 0;
    }
  }
}
