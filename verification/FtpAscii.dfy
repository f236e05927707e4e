/** ASCII transfers of ftp and ftpd (section 3.1.1.1 of RFC 959): the loops that turn files into lines
    on the wire and back. */
module FtpAscii {
  import opened Basics
  import opened Netascii
  import opened Stdio

  // ----- the conversions as functions -----

  /** Only line feeds are expanded; a carriage return of the file travels as it is. */
  function ToWire(s: seq<Octet>): seq<Octet> {
    if s == [] then [] else (if s[0] == LF then [CR, LF] else [s[0]]) + ToWire(s[1..])
  }

  /** `keepCr` is the client's setting that leaves CR LF alone. */
  function FromWire(w: seq<Octet>, keepCr: bool): seq<Octet> {
    if w == [] then []
    else if w[0] == CR && |w| > 1 && w[1] == LF then (if keepCr then [CR, LF] else [LF]) + FromWire(w[2..], keepCr)
    else if w[0] == CR && |w| > 1 && w[1] == NUL then [CR] + FromWire(w[2..], keepCr)
    else [w[0]] + FromWire(w[1..], keepCr)
  }

  /** Line feeds that no carriage return announces. */
  function BareLfs(w: seq<Octet>): nat {
    if w == [] then 0
    else if w[0] == CR && |w| > 1 && (w[1] == LF || w[1] == NUL) then BareLfs(w[2..])
    else (if w[0] == LF then 1 else 0) + BareLfs(w[1..])
  }

  /** A file without the NULs that directly follow a CR. */
  function WithoutCrNul(s: seq<Octet>): seq<Octet> {
    if s == [] then []
    else if s[0] == CR && |s| > 1 && s[1] == NUL then [CR] + WithoutCrNul(s[2..])
    else [s[0]] + WithoutCrNul(s[1..])
  }

  predicate HasCrNul(s: seq<Octet>) {
    exists i :: 0 <= i < |s| - 1 && s[i] == CR && s[i + 1] == NUL
  }

  // ----- what a transfer does to a file -----

  lemma {:induction false} TransferStripsNul(s: seq<Octet>)
    ensures FromWire(ToWire(s), false) == WithoutCrNul(s)
  {
    if s != [] {
      var w := ToWire(s);
      if s[0] == LF {
        TransferStripsNul(s[1..]);
        assert w[2..] == ToWire(s[1..]);
      } else if s[0] == CR && |s| > 1 && s[1] == NUL {
        TransferStripsNul(s[2..]);
        assert s[1..][1..] == s[2..];
        assert ToWire(s[1..]) == [NUL] + ToWire(s[2..]);
        assert w[2..] == ToWire(s[2..]);
      } else {
        TransferStripsNul(s[1..]);
        assert w[1..] == ToWire(s[1..]);
        if s[0] == CR && |s| > 1 {
          assert w[1] == if s[1] == LF then CR else s[1];
        }
      }
    }
  }

  lemma {:induction false} NoBareLfs(s: seq<Octet>)
    ensures BareLfs(ToWire(s)) == 0
  {
    if s != [] {
      var w := ToWire(s);
      if s[0] == LF {
        NoBareLfs(s[1..]);
        assert w[2..] == ToWire(s[1..]);
      } else if s[0] == CR && |s| > 1 && s[1] == NUL {
        NoBareLfs(s[2..]);
        assert s[1..][1..] == s[2..];
        assert ToWire(s[1..]) == [NUL] + ToWire(s[2..]);
        assert w[2..] == ToWire(s[2..]);
      } else {
        NoBareLfs(s[1..]);
        assert w[1..] == ToWire(s[1..]);
        if s[0] == CR && |s| > 1 {
          assert w[1] == if s[1] == LF then CR else s[1];
        }
      }
    }
  }

  lemma {:induction false} StripShortens(s: seq<Octet>)
    ensures |WithoutCrNul(s)| <= |s| && (HasCrNul(s) ==> |WithoutCrNul(s)| < |s|)
  {
    if s != [] {
      if s[0] == CR && |s| > 1 && s[1] == NUL {
        StripShortens(s[2..]);
      } else {
        StripShortens(s[1..]);
        if HasCrNul(s) {
          var i :| 0 <= i < |s| - 1 && s[i] == CR && s[i + 1] == NUL;
          assert s[1..][i - 1] == CR && s[1..][i] == NUL;
        }
      }
    }
  }

  lemma {:induction false} StripKeeps(s: seq<Octet>)
    requires !HasCrNul(s)
    ensures WithoutCrNul(s) == s
  {
    if s != [] {
      assert !(s[0] == CR && |s| > 1 && s[1] == NUL);
      StripKeeps(s[1..]);
    }
  }

  /** An ASCII transfer is the identity on exactly the files without CR NUL. */
  lemma IdentityIffNoCrNul(s: seq<Octet>)
    ensures FromWire(ToWire(s), false) == s <==> !HasCrNul(s)
  {
    TransferStripsNul(s);
    StripShortens(s);
    if !HasCrNul(s) {
      StripKeeps(s);
    }
  }

  // ----- what is on the wire -----

  /** Every line feed on the wire has a CR in front of it, and what is sent besides the file is one CR for
      each of its line feeds. */
  lemma {:induction false} WireHasLineEnds(s: seq<Octet>)
    ensures forall i :: 0 <= i < |ToWire(s)| && ToWire(s)[i] == 10 ==> i > 0 && ToWire(s)[i - 1] == 13
    ensures |ToWire(s)| == |s| + Count(s, 10)
  {
    if s != [] {
      WireHasLineEnds(s[1..]);
      var rest, w := ToWire(s[1..]), ToWire(s);
      var k := |w| - |rest|;
      assert w[k..] == rest;
      forall i | 0 <= i < |w| && w[i] == 10 ensures i > 0 && w[i - 1] == 13 {
        if i >= k {
          assert rest[i - k] == 10 && rest[i - k - 1] == 13;
        }
      }
    }
  }

  /** The line feeds with no CR directly in front of them, counted one by one. */
  function Loose(w: seq<Octet>, before: int): nat
    decreases |w|
  {
    if w == [] then 0 else (if w[0] == 10 && before != 13 then 1 else 0) + Loose(w[1..], w[0])
  }

  /** The bare line feeds that a receiver counts are those. */
  lemma {:induction false} BareLfsAreLoose(w: seq<Octet>, before: int)
    requires before != 13
    ensures BareLfs(w) == Loose(w, before)
    decreases |w|, 0
  {
    if w != [] {
      if w[0] == CR && |w| > 1 && (w[1] == LF || w[1] == NUL) {
        assert w[1..][1..] == w[2..];
        BareLfsAreLoose(w[2..], w[1]);
      } else if w[0] == CR {
        BareAfterCr(w[1..]);
      } else {
        BareLfsAreLoose(w[1..], w[0]);
      }
    }
  }

  lemma {:induction false} BareAfterCr(w: seq<Octet>)
    requires w == [] || (w[0] != LF && w[0] != NUL)
    ensures BareLfs(w) == Loose(w, 13)
    decreases |w|, 1
  {
    if w != [] {
      BareLfsAreLoose(w, 0);
      assert Loose(w, 13) == Loose(w, 0);
    }
  }

  /** Whatever comes over the line, a client that is told to keep carriage returns (`cr`) takes out the NULs
      that directly follow one, and nothing else. */
  lemma {:induction false} KeptCrs(w: seq<Octet>)
    ensures FromWire(w, true) == WithoutCrNul(w)
    decreases |w|
  {
    if w == [] {
    } else if w[0] == CR && |w| > 1 && w[1] == LF {
      KeptCrs(w[2..]);
      assert w[1..][1..] == w[2..];
      assert WithoutCrNul(w[1..]) == [LF] + WithoutCrNul(w[2..]);
      assert [CR] + ([LF] + WithoutCrNul(w[2..])) == [CR, LF] + WithoutCrNul(w[2..]);
    } else if w[0] == CR && |w| > 1 && w[1] == NUL {
      KeptCrs(w[2..]);
    } else {
      KeptCrs(w[1..]);
    }
  }

  // ----- the sending loops -----

  lemma {:induction false} ToWireAppend(s: seq<Octet>, c: Octet)
    ensures ToWire(s + [c]) == ToWire(s) + (if c == LF then [CR, LF] else [c])
  {
    if s == [] {
      assert s + [c] == [c] && [c][1..] == [];
      assert ToWire([c]) == (if c == LF then [CR, LF] else [c]) + ToWire([]);
    } else {
      var t := s + [c];
      ToWireAppend(s[1..], c);
      assert t[0] == s[0] && t[1..] == s[1..] + [c];
      var first := if s[0] == LF then [CR, LF] else [s[0]];
      assert ToWire(t) == first + ToWire(t[1..]) && ToWire(s) == first + ToWire(s[1..]);
    }
  }

  /** send_data, the branch that maps the file into memory */
  method SendMapped(buf: seq<Octet>, net: File) returns (byteCount: nat)
    requires net.pos == |net.data|
    modifies net
    ensures net.data == old(net.data) + ToWire(buf) && net.pos == |net.data| && byteCount == |buf|
  {
    byteCount := 0;
    var len := 0;
    while len < |buf|
      invariant len <= |buf| && byteCount == len && net.pos == |net.data|
      invariant net.data == old(net.data) + ToWire(buf[..len])
    {
      ToWireAppend(buf[..len], buf[len]);
      assert buf[..len + 1] == buf[..len] + [buf[len]];
      byteCount := byteCount + 1;
      if buf[len] == LF {
        net.Putc(CR);
      }
      net.Putc(buf[len]);
      len := len + 1;
    }
    assert buf[..|buf|] == buf;
  }

  /** send_data of ftpd, the branch that reads character by character */
  method SendGetc(file: File, net: File) returns (byteCount: nat)
    requires file != net && file.pos <= |file.data| && net.pos == |net.data|
    modifies file`pos, net
    ensures net.data == old(net.data) + ToWire(old(file.data[file.pos..])) && net.pos == |net.data|
    ensures byteCount == |old(file.data[file.pos..])|
  {
    byteCount := 0;
    ghost var s, start := file.data[file.pos..], file.pos;
    var c := file.Getc();
    while c != -1
      invariant start <= file.pos <= |file.data| && net.pos == |net.data|
      invariant 0 <= byteCount <= |s| && file.pos == start + (if c == -1 then byteCount else byteCount + 1)
      invariant if c == -1 then byteCount == |s| else byteCount < |s| && c == s[byteCount]
      invariant net.data == old(net.data) + ToWire(s[..byteCount])
      decreases |s| - byteCount, c != -1
    {
      ToWireAppend(s[..byteCount], c);
      assert s[..byteCount + 1] == s[..byteCount] + [c];
      byteCount := byteCount + 1;
      if c == LF {
        net.Putc(CR);
      }
      net.Putc(c);
      c := file.Getc();
    }
    assert s[..|s|] == s;
  }

  /** sendrequest of ftp: it counts what goes over the wire */
  method SendRequest(file: File, net: File) returns (bytes: nat)
    requires file != net && file.pos <= |file.data| && net.pos == |net.data|
    modifies file`pos, net
    ensures net.data == old(net.data) + ToWire(old(file.data[file.pos..])) && net.pos == |net.data|
    ensures bytes == |ToWire(old(file.data[file.pos..]))|
  {
    bytes := 0;
    ghost var s, start, n := file.data[file.pos..], file.pos, 0;
    var c := file.Getc();
    while c != -1
      invariant start <= file.pos <= |file.data| && net.pos == |net.data|
      invariant 0 <= n <= |s| && file.pos == start + (if c == -1 then n else n + 1)
      invariant if c == -1 then n == |s| else n < |s| && c == s[n]
      invariant net.data == old(net.data) + ToWire(s[..n]) && bytes == |ToWire(s[..n])|
      decreases |s| - n, c != -1
    {
      ToWireAppend(s[..n], c);
      assert s[..n + 1] == s[..n] + [c];
      n := n + 1;
      if c == LF {
        net.Putc(CR);
        bytes := bytes + 1;
      }
      net.Putc(c);
      bytes := bytes + 1;
      c := file.Getc();
    }
    assert s[..|s|] == s;
  }

  // ----- the receiving loops -----

  /** What the octet c and the octets behind it still have to become. */
  function Ahead(c: int, rest: seq<Octet>): seq<Octet> {
    if 0 <= c < 256 then [c] + rest else rest
  }

  /** Bare line feeds still to be counted, when c itself has been looked at already. */
  function BareAhead(c: int, rest: seq<Octet>): nat {
    if c == CR then BareLfs([CR] + rest) else BareLfs(rest)
  }

  lemma AfterCr(rest: seq<Octet>, keepCr: bool)
    ensures var w := [CR] + rest;
            if rest != [] && rest[0] == LF then
              && FromWire(w, keepCr) == (if keepCr then [CR] else []) + FromWire(rest, keepCr)
              && BareLfs(w) == BareLfs(rest[1..])
            else if rest != [] && rest[0] == NUL then
              FromWire(w, keepCr) == [CR] + FromWire(rest[1..], keepCr) && BareLfs(w) == BareLfs(rest[1..])
            else
              FromWire(w, keepCr) == [CR] + FromWire(rest, keepCr) && BareLfs(w) == BareLfs(rest)
  {
    var w := [CR] + rest;
    assert w[1..] == rest;
    if rest != [] {
      assert w[2..] == rest[1..];
      assert FromWire(rest, keepCr) == [rest[0]] + FromWire(rest[1..], keepCr) || rest[0] == CR;
    }
  }

  lemma NotCr(c: Octet, rest: seq<Octet>, keepCr: bool)
    requires c != CR
    ensures FromWire([c] + rest, keepCr) == [c] + FromWire(rest, keepCr)
    ensures BareLfs([c] + rest) == (if c == LF then 1 else 0) + BareLfs(rest)
  {
    assert ([c] + rest)[1..] == rest;
  }

  /** One turn of the inner loop: a CR has been read and counted, c follows it.  What c leads to is
      the CR that is kept, and the octets still ahead; at a NUL or the end nothing is left of c. */
  lemma TurnAfterCr(c: int, rest: seq<Octet>, keepCr: bool, after: seq<Octet>)
    requires if c == -1 then rest == [] && after == [] else 0 <= c < 256 && rest == [c] + after
    ensures var kept := if c != LF || keepCr then [CR] else [];
            var left := if c == NUL || c == -1 then FromWire(after, keepCr) else FromWire([c] + after, keepCr);
            FromWire([CR] + rest, keepCr) == kept + left
    ensures BareLfs([CR] + rest) == BareAhead(c, after)
  {
    AfterCr(rest, keepCr);
    if c != -1 {
      assert rest[1..] == after;
      if c != CR {
        NotCr(c, after, keepCr);
      }
    }
  }

  /** The inner loop of recvrequest in ftp, entered with a CR in hand: the octet to put next, or -1.
      `put` is what the loop itself has written. */
  method SkipCrs(net: File, out: File, keepCr: bool) returns (c: int, bytes: nat, ghost put: seq<Octet>)
    requires net != out && net.pos <= |net.data| && out.pos <= |out.data|
    modifies net`pos, out
    ensures old(net.pos) <= net.pos <= |net.data| && out.pos == old(out.pos) + |put| && out.pos <= |out.data|
    ensures c == -1 || (0 <= c < 256 && c != CR && net.pos > old(net.pos))
    ensures out.data == Overwrite(old(out.data), old(out.pos), put)
    ensures put + FromWire(Ahead(c, net.data[net.pos..]), keepCr) == FromWire([CR] + old(net.data[net.pos..]), keepCr)
    ensures BareLfs(net.data[net.pos..]) == BareLfs([CR] + old(net.data[net.pos..]))
    ensures bytes == net.pos - old(net.pos) + (if c == -1 then 1 else 0)
  {
    hide FromWire, BareLfs;
    c, bytes, put := CR, 0, [];
    ghost var goal := FromWire([CR] + net.data[net.pos..], keepCr);
    while c == CR
      invariant 0 <= c < 256 && old(net.pos) <= net.pos <= |net.data|
      invariant out.pos == old(out.pos) + |put| && out.pos <= |out.data|
      invariant out.data == Overwrite(old(out.data), old(out.pos), put)
      invariant c != CR ==> net.pos > old(net.pos)
      invariant bytes == net.pos - old(net.pos)
      invariant goal == put + FromWire([c] + net.data[net.pos..], keepCr)
      invariant BareLfs([CR] + old(net.data[net.pos..])) == BareAhead(c, net.data[net.pos..])
      decreases |net.data| - net.pos, c == CR
    {
      ghost var rest, before := net.data[net.pos..], put;
      bytes := bytes + 1;
      c := net.Getc();
      TurnAfterCr(c, rest, keepCr, net.data[net.pos..]);
      if c != LF || keepCr {
        OverwriteTwice(old(out.data), old(out.pos), put, [CR]);
        out.Putc(CR);
        put := put + [CR];
        if c == NUL {
          return -1, bytes + 1, put;
        }
        if c == -1 {
          return;
        }
      }
    }
  }

  /** The ASCII branch of recvrequest in ftp: the octets received are written over the local file
      from its position on. */
  method ReceiveClient(net: File, out: File, keepCr: bool) returns (bytes: nat, bareLfs: nat)
    requires net != out && net.pos == 0 && out.pos <= |out.data|
    modifies net`pos, out
    ensures out.data == Overwrite(old(out.data), old(out.pos), FromWire(net.data, keepCr))
    ensures bytes == |net.data| && bareLfs == BareLfs(net.data)
  {
    hide FromWire, BareLfs, Overwrite;
    bytes, bareLfs := 0, 0;
    ghost var put: seq<Octet> := [];
    assert net.data[0..] == net.data;
    OverwriteNothing(out.data, out.pos);
    while true
      invariant net.pos <= |net.data| && bytes == net.pos
      invariant out.pos == old(out.pos) + |put| && out.pos <= |out.data|
      invariant out.data == Overwrite(old(out.data), old(out.pos), put)
      invariant put + FromWire(net.data[net.pos..], keepCr) == FromWire(net.data, keepCr)
      invariant BareLfs(net.data) == bareLfs + BareLfs(net.data[net.pos..])
      decreases |net.data| - net.pos
    {
      var c, n;
      ghost var more;
      c, n, bareLfs, more := ReceiveNext(net, out, keepCr, bareLfs);
      OverwriteTwice(old(out.data), old(out.pos), put, more);
      assert (put + more) + FromWire(net.data[net.pos..], keepCr)
          == put + (more + FromWire(net.data[net.pos..], keepCr));
      put := put + more;
      bytes := bytes + n;
      if c == -1 {
        NothingLeft(keepCr);
        assert net.data[net.pos..] == [];
        break;
      }
    }
  }

  /** One turn of the outer loop of recvrequest; -1 at the end of the data. */
  method ReceiveNext(net: File, out: File, keepCr: bool, seen: nat)
    returns (first: int, bytes: nat, bareLfs: nat, ghost put: seq<Octet>)
    requires net != out && net.pos <= |net.data| && out.pos <= |out.data|
    modifies net`pos, out
    ensures old(net.pos) <= net.pos <= |net.data| && bytes == net.pos - old(net.pos)
    ensures first == -1 ==> net.pos == |net.data| == old(net.pos)
    ensures first != -1 ==> net.pos > old(net.pos)
    ensures out.pos == old(out.pos) + |put| && out.pos <= |out.data|
    ensures out.data == Overwrite(old(out.data), old(out.pos), put)
    ensures put + FromWire(net.data[net.pos..], keepCr) == FromWire(old(net.data[net.pos..]), keepCr)
    ensures bareLfs + BareLfs(net.data[net.pos..]) == seen + BareLfs(old(net.data[net.pos..]))
  {
    hide FromWire, BareLfs, Overwrite;
    ghost var rest := net.data[net.pos..];
    OverwriteNothing(out.data, out.pos);
    bytes, bareLfs, put := 0, seen, [];
    first := net.Getc();
    if first == -1 {
      assert net.data[net.pos..] == rest;
      return;
    }
    assert rest == [first] + net.data[net.pos..];
    if first == LF {
      bareLfs := bareLfs + 1;
    }
    var c := first;
    if c == CR {
      c, bytes, put := SkipCrs(net, out, keepCr);
    } else {
      NotCr(c, net.data[net.pos..], keepCr);
    }
    if c != -1 {
      ghost var after := FromWire(net.data[net.pos..], keepCr);
      NotCr(c, net.data[net.pos..], keepCr);
      OverwriteTwice(old(out.data), old(out.pos), put, [c]);
      out.Putc(c);
      assert put + ([c] + after) == (put + [c]) + after;
      put := put + [c];
      bytes := bytes + 1;
    }
  }

  lemma NothingLeft(keepCr: bool)
    ensures FromWire([], keepCr) == [] && BareLfs([]) == 0
  {
  }

  /** What is left behind the turn of the server's outer loop that began with a CR: any more of them
      are skipped, and one octet besides. */
  function BehindCrs(rest: seq<Octet>): (left: seq<Octet>)
    ensures |left| <= |rest|
  {
    if rest == [] then [] else if rest[0] == CR then BehindCrs(rest[1..]) else rest[1..]
  }

  /** How often that loop turns, which is what byte_count counts. */
  function Turns(w: seq<Octet>): nat
    decreases |w|
  {
    if w == [] then 0 else 1 + Turns(if w[0] == CR then BehindCrs(w[1..]) else w[1..])
  }

  /** For a file without carriage returns, whatever its line ends, that is the length of the file. */
  lemma {:induction false} TurnsCountTheFile(s: seq<Octet>)
    requires CR !in s
    ensures Turns(ToWire(s)) == |s|
  {
    if s != [] {
      TurnsCountTheFile(s[1..]);
      var w := ToWire(s);
      if s[0] == LF {
        assert w[1..] == [LF] + ToWire(s[1..]);
        assert BehindCrs(w[1..]) == ToWire(s[1..]);
      } else {
        assert w[1..] == ToWire(s[1..]);
      }
    }
  }

  /** The inner loop of receive_data in ftpd: a CR is put back only when no line feed follows it.
      False means that nothing is left to put, because a NUL or the end of the data was next. */
  method ServerCrs(net: File, out: File) returns (goesOn: bool, c: int, ghost put: seq<Octet>)
    requires net != out && net.pos <= |net.data| && out.pos <= |out.data|
    modifies net`pos, out
    ensures old(net.pos) <= net.pos <= |net.data| && out.pos == old(out.pos) + |put| && out.pos <= |out.data|
    ensures goesOn ==> 0 <= c < 256 && c != CR
    ensures out.data == Overwrite(old(out.data), old(out.pos), put)
    ensures put + FromWire(Ahead(if goesOn then c else -1, net.data[net.pos..]), false)
         == FromWire([CR] + old(net.data[net.pos..]), false)
    ensures BareLfs(net.data[net.pos..]) == BareLfs([CR] + old(net.data[net.pos..]))
    ensures net.data[net.pos..] == BehindCrs(old(net.data[net.pos..]))
  {
    hide FromWire, BareLfs, BehindCrs, BareAhead, Overwrite;
    goesOn, c, put := true, CR, [];
    ghost var start, left := net.data[net.pos..], net.data[net.pos..];
    BareStart(start);
    OverwriteNothing(out.data, out.pos);
    while c == CR
      invariant 0 <= c < 256 && old(net.pos) <= net.pos <= |net.data| && left == net.data[net.pos..]
      invariant out.pos == old(out.pos) + |put| && out.pos <= |out.data|
      invariant out.data == Overwrite(old(out.data), old(out.pos), put)
      invariant put + FromWire([c] + left, false) == FromWire([CR] + start, false)
      invariant BareLfs([CR] + start) == BareAhead(c, left)
      invariant BehindCrs(start) == if c == CR then BehindCrs(left) else left
      decreases |net.data| - net.pos, c == CR
    {
      ghost var rest := left;
      c := net.Getc();
      left := net.data[net.pos..];
      TurnAfterCr(c, rest, false, left);
      BehindOne(rest, c, left);
      BareStart(rest);
      if c != LF {
        OverwriteTwice(old(out.data), old(out.pos), put, [CR]);
        out.Putc(CR);
        put := put + [CR];
        if c == NUL || c == -1 {
          BareEnd(c, left);
          return false, c, put;
        }
      }
    }
    BareEnd(c, left);
  }

  lemma BareStart(rest: seq<Octet>)
    ensures BareAhead(CR, rest) == BareLfs([CR] + rest)
  {
  }

  lemma BareEnd(c: int, rest: seq<Octet>)
    requires c != CR
    ensures BareAhead(c, rest) == BareLfs(rest)
  {
  }

  lemma BehindOne(rest: seq<Octet>, c: int, after: seq<Octet>)
    requires if c == -1 then rest == [] && after == [] else 0 <= c < 256 && rest == [c] + after
    ensures BehindCrs(rest) == if c == CR then BehindCrs(after) else after
  {
    if c != -1 {
      assert rest[1..] == after;
    }
  }

  /** The ASCII branch of receive_data in ftpd; it never keeps the CR of a line end. */
  method ReceiveServer(net: File, out: File) returns (byteCount: nat, bareLfs: nat)
    requires net != out && net.pos == 0 && out.pos <= |out.data|
    modifies net`pos, out
    ensures out.data == Overwrite(old(out.data), old(out.pos), FromWire(net.data, false))
    ensures byteCount == Turns(net.data) && bareLfs == BareLfs(net.data)
  {
    hide FromWire, BareLfs, Overwrite, Ahead, Turns, BehindCrs;
    byteCount, bareLfs := 0, 0;
    ghost var put, left := [], net.data;
    OverwriteNothing(out.data, out.pos);
    assert put + FromWire(left, false) == FromWire(net.data, false);
    var c := net.Getc();
    AheadIs(net.data, 0, c);
    while c != -1
      invariant -1 <= c < 256 && net.pos <= |net.data| && left == Ahead(c, net.data[net.pos..])
      invariant c == -1 ==> net.pos == |net.data|
      invariant out.pos == old(out.pos) + |put| && out.pos <= |out.data|
      invariant out.data == Overwrite(old(out.data), old(out.pos), put)
      invariant put + FromWire(left, false) == FromWire(net.data, false)
      invariant BareLfs(net.data) == bareLfs + BareLfs(left) && Turns(net.data) == byteCount + Turns(left)
      decreases c != -1, |net.data| - net.pos
    {
      byteCount := byteCount + 1;
      if c == LF {
        bareLfs := bareLfs + 1;
      }
      assert left == [c] + net.data[net.pos..] by { AheadOne(c, net.data[net.pos..]); }
      TurnsStep(c, net.data[net.pos..]);
      ghost var more := ServerTurn(net, out, c);
      ghost var rest := net.data[net.pos..];
      OverwriteTwice(old(out.data), old(out.pos), put, more);
      Onward(put, more, FromWire(rest, false), FromWire(left, false));
      put, left := put + more, rest;
      ghost var at := net.pos;
      c := net.Getc();
      AheadIs(net.data, at, c);
    }
    NothingLeft(false);
    AheadNothing();
    NoTurns();
    assert net.data[net.pos..] == [] && put + [] == put;
  }

  lemma TurnsStep(c: Octet, rest: seq<Octet>)
    ensures Turns([c] + rest) == 1 + Turns(if c == CR then BehindCrs(rest) else rest)
  {
    assert ([c] + rest)[1..] == rest;
  }

  lemma NoTurns()
    ensures Turns([]) == 0
  {
  }

  /** After one more getc, the character and what is behind it are what was left. */
  lemma AheadIs(data: seq<Octet>, pos: nat, c: int)
    requires pos <= |data| && (if pos < |data| then c == data[pos] else c == -1)
    ensures Ahead(c, data[if pos < |data| then pos + 1 else pos..]) == data[pos..]
  {
  }

  lemma AheadOne(c: int, rest: seq<Octet>)
    requires 0 <= c < 256
    ensures Ahead(c, rest) == [c] + rest
  {
  }

  lemma AheadNothing()
    ensures Ahead(-1, []) == []
  {
  }

  lemma Onward(put: seq<Octet>, more: seq<Octet>, rest: seq<Octet>, before: seq<Octet>)
    requires more + rest == before
    ensures (put + more) + rest == put + before
  {
  }

  /** What one turn of the outer loop does with the character it has read. */
  method ServerTurn(net: File, out: File, first: Octet) returns (ghost put: seq<Octet>)
    requires net != out && net.pos <= |net.data| && out.pos <= |out.data|
    modifies net`pos, out
    ensures old(net.pos) <= net.pos <= |net.data|
    ensures out.pos == old(out.pos) + |put| && out.pos <= |out.data|
    ensures out.data == Overwrite(old(out.data), old(out.pos), put)
    ensures put + FromWire(net.data[net.pos..], false) == FromWire([first] + old(net.data[net.pos..]), false)
    ensures (if first == LF then 1 else 0) + BareLfs(net.data[net.pos..]) == BareLfs([first] + old(net.data[net.pos..]))
    ensures net.data[net.pos..] == if first == CR then BehindCrs(old(net.data[net.pos..])) else old(net.data[net.pos..])
  {
    hide FromWire, BareLfs, Overwrite, BehindCrs;
    var c, goesOn := first, true;
    put := [];
    OverwriteNothing(out.data, out.pos);
    if c == CR {
      var d;
      goesOn, d, put := ServerCrs(net, out);
      if !goesOn {
        return;
      }
      c := d;
    } else {
      NotCr(c, net.data[net.pos..], false);
    }
    ghost var after := FromWire(net.data[net.pos..], false);
    NotCr(c, net.data[net.pos..], false);
    OverwriteTwice(old(out.data), old(out.pos), put, [c]);
    out.Putc(c);
    assert put + ([c] + after) == (put + [c]) + after;
    put := put + [c];
  }
}
