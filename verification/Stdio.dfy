/** The part of standard input and output that the transfer routines use: a file with a position. */
module Stdio {
  import opened Basics
  import opened Netascii

  /** A file after the octets d have been written from position k on. */
  function Overwrite(f: seq<Octet>, k: nat, d: seq<Octet>): seq<Octet>
    requires k <= |f|
  {
    f[..k] + d + (if k + |d| < |f| then f[k + |d|..] else [])
  }

  lemma OverwriteTwice(f: seq<Octet>, k: nat, a: seq<Octet>, b: seq<Octet>)
    requires k <= |f|
    ensures k + |a| <= |Overwrite(f, k, a)|
    ensures Overwrite(Overwrite(f, k, a), k + |a|, b) == Overwrite(f, k, a + b)
  {
  }

  lemma OverwriteNothing(f: seq<Octet>, k: nat)
    requires k <= |f|
    ensures Overwrite(f, k, []) == f
  {
  }

  class File {
    var data: seq<Octet>
    var pos: nat

    constructor (data: seq<Octet>, pos: nat)
      ensures this.data == data && this.pos == pos
    {
      this.data, this.pos := data, pos;
    }

    method Getc() returns (c: int)
      modifies this`pos
      ensures old(pos) < |data| ==> c == data[old(pos)] && pos == old(pos) + 1
      ensures old(pos) >= |data| ==> c == -1 && pos == old(pos)
    {
      c := -1;
      if pos < |data| {
        c := data[pos];
        pos := pos + 1;
      }
    }

    /** read (fileno (file), buf, n) on a regular file */
    method Read(buf: array<Octet>, n: nat) returns (count: nat)
      requires n <= buf.Length && pos <= |data|
      modifies this`pos, buf
      ensures count == (if n < |data| - old(pos) then n else |data| - old(pos)) && pos == old(pos) + count
      ensures buf[..count] == data[old(pos)..pos]
    {
      count := if n < |data| - pos then n else |data| - pos;
      for i := 0 to count
        invariant pos == old(pos) && buf[..i] == data[pos..pos + i]
      {
        buf[i] := data[pos + i];
      }
      pos := pos + count;
    }

    /** write (fileno (file), buf, n) at the end of the file */
    method Write(buf: array<Octet>, n: nat)
      requires n <= buf.Length && pos == |data|
      modifies this
      ensures data == old(data) + buf[..n] && pos == |data|
    {
      data := data + buf[..n];
      pos := |data|;
    }

    method Putc(c: Octet)
      requires pos <= |data|
      modifies this
      ensures pos == old(pos) + 1 && pos <= |data|
      ensures data == Overwrite(old(data), old(pos), [c])
      ensures old(pos) == |old(data)| ==> data == old(data) + [c]
    {
      data := data[..pos] + [c] + (if pos < |data| then data[pos + 1..] else []);
      pos := pos + 1;
    }

    /** fseeko (file, 0, SEEK_SET) */
    method Rewind()
      modifies this`pos
      ensures pos == 0
    {
      pos := 0;
    }

    /** fseeko (file, -1, 1) */
    method BackOne()
      modifies this`pos
      ensures pos == if old(pos) > 0 then old(pos) - 1 else 0
    {
      if pos > 0 {
        pos := pos - 1;
      }
    }
  }
}
