/** Restarted ASCII transfers of ftp and ftpd (section 3.5 of RFC 959): both ends skip to the
    restart point by counting the file as it would look on the wire. */
module FtpRestart {
  import opened Basics
  import opened Netascii
  import opened Stdio
  import opened FtpAscii

  /** The least offset whose beginning of the file takes up at least n octets on the wire. */
  predicate IsOffset(s: seq<Octet>, n: nat, k: nat) {
    && k <= |s| && |ToWire(s[..k])| >= n
    && forall j :: 0 <= j < k ==> |ToWire(s[..j])| < n
  }

  lemma WireGrows(s: seq<Octet>, k: nat)
    requires k < |s|
    ensures |ToWire(s[..k + 1])| == |ToWire(s[..k])| + (if s[k] == LF then 2 else 1)
  {
    ToWireAppend(s[..k], s[k]);
    assert s[..k + 1] == s[..k] + [s[k]];
  }

  /** The loop of retrieve and store in ftpd; false is the reply 554. */
  method SkipServer(file: File, restart: nat) returns (ok: bool)
    requires file.pos == 0
    modifies file`pos
    ensures ok <==> |ToWire(file.data)| >= restart
    ensures ok ==> IsOffset(file.data, restart, file.pos)
  {
    var i := 0;
    assert file.data[..0] == [];
    while i < restart
      invariant file.pos <= |file.data| && i == |ToWire(file.data[..file.pos])|
      invariant forall j :: 0 <= j < file.pos ==> |ToWire(file.data[..j])| < restart
    {
      i := i + 1;
      var c := file.Getc();
      if c == -1 {
        assert file.data[..file.pos] == file.data;
        return false;
      }
      WireGrows(file.data, file.pos - 1);
      if c == LF {
        i := i + 1;
      }
    }
    WireMonotone(file.data, file.pos);
    ok := true;
  }

  lemma WireMonotone(s: seq<Octet>, k: nat)
    requires k <= |s|
    ensures |ToWire(s[..k])| <= |ToWire(s)|
    decreases |s| - k
  {
    if k == |s| {
      assert s[..k] == s;
    } else {
      WireGrows(s, k);
      WireMonotone(s, k + 1);
    }
  }

  /** The loop of recvrequest in ftp, which first goes back to the start of the local file. */
  method SkipClient(file: File, restart: nat) returns (ok: bool)
    modifies file`pos
    ensures ok <==> |ToWire(file.data)| >= restart
    ensures ok ==> IsOffset(file.data, restart, file.pos)
  {
    file.Rewind();
    var i := 0;
    var n := restart;
    assert file.data[..0] == [];
    while i < n
      invariant file.pos <= |file.data| && i == |ToWire(file.data[..file.pos])|
      invariant forall j :: 0 <= j < file.pos ==> |ToWire(file.data[..j])| < n
    {
      i := i + 1;
      var ch := file.Getc();
      if ch == -1 {
        assert file.data[..file.pos] == file.data;
        return false;
      }
      WireGrows(file.data, file.pos - 1);
      if ch == LF {
        i := i + 1;
      }
    }
    WireMonotone(file.data, file.pos);
    ok := true;
  }

  /** The offset is determined by the part of the file in front of it. */
  lemma SameOffset(local: seq<Octet>, remote: seq<Octet>, n: nat, k: nat, j: nat)
    requires IsOffset(local, n, k) && IsOffset(remote, n, j)
    requires k <= |remote| && local[..k] == remote[..k]
    ensures k == j
  {
    forall i: nat | i <= k ensures local[..i] == remote[..i] {
      assert local[..i] == local[..k][..i] && remote[..i] == remote[..k][..i];
    }
  }

  /** What a restarted get leaves in the local file, when the two files agree up to the offset. */
  lemma Spliced(local: seq<Octet>, remote: seq<Octet>, k: nat)
    requires k <= |local| && k <= |remote| && local[..k] == remote[..k]
    ensures var rest := remote[k..];
            var r := Overwrite(local, k, FromWire(ToWire(rest), false));
            && (!HasCrNul(rest) ==> (r == remote <==> |local| <= |remote|))
            && (HasCrNul(rest) && |local| <= k + |WithoutCrNul(rest)| ==> r != remote)
  {
    var rest := remote[k..];
    TransferStripsNul(rest);
    StripShortens(rest);
    assert remote == remote[..k] + rest;
    if !HasCrNul(rest) {
      StripKeeps(rest);
      var r := Overwrite(local, k, rest);
      if |local| <= |remote| {
        assert r == local[..k] + rest;
      } else {
        assert |r| == |local|;
      }
    }
  }

  /** get with a restart point: the server skips and sends the rest, the client skips and writes it
      over its own file.  If the two files agree up to where the client stops, the result is the
      remote file, provided the rest has no CR NUL and the local file is not the longer one. */
  method RestartedGet(remote: File, local: File, restart: nat) returns (ok: bool, bareLfs: nat, ghost k: nat)
    requires remote != local && remote.pos == 0
    modifies remote`pos, local
    ensures ok <==> |ToWire(remote.data)| >= restart && |ToWire(old(local.data))| >= restart
    ensures !ok ==> local.data == old(local.data)
    ensures ok ==> IsOffset(old(local.data), restart, k) && bareLfs == 0
    ensures ok && Agree(old(local.data), remote.data, k) ==>
      local.data == Overwrite(old(local.data), k, FromWire(ToWire(remote.data[k..]), false))
    ensures (ok && Agree(old(local.data), remote.data, k) && !HasCrNul(remote.data[k..])
             && |old(local.data)| <= |remote.data|) ==>
      local.data == remote.data
  {
    bareLfs, k := 0, 0;
    ok := SkipServer(remote, restart);
    if !ok {
      return;
    }
    ok := SkipClient(local, restart);
    if !ok {
      return;
    }
    ghost var was, from := local.data, remote.pos;
    k := local.pos;
    var net := new File([], 0);
    var sent := SendGetc(remote, net);
    assert net.data == ToWire(remote.data[from..]);
    net.Rewind();
    var bytes;
    bytes, bareLfs := ReceiveClient(net, local, false);
    NoBareLfs(remote.data[from..]);
    if Agree(was, remote.data, k) {
      SameOffset(was, remote.data, restart, k, from);
      Spliced(was, remote.data, k);
    }
  }

  predicate Agree(a: seq<Octet>, b: seq<Octet>, k: nat) {
    k <= |a| && k <= |b| && a[..k] == b[..k]
  }
}
