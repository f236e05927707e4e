/** The netascii conversion of TFTP (section 1 of RFC 1350), as functions on whole files. */
module Netascii {
  import opened Basics

  const NUL: Octet := 0
  const LF: Octet := 10
  const CR: Octet := 13

  /** A line feed becomes CR LF, and a carriage return becomes CR NUL. */
  function EncodeByte(c: Octet): seq<Octet> {
    if c == LF then [CR, LF] else if c == CR then [CR, NUL] else [c]
  }

  function Encode(s: seq<Octet>): seq<Octet> {
    if s == [] then [] else EncodeByte(s[0]) + Encode(s[1..])
  }

  /** CR LF means a line feed and CR NUL a carriage return; any other CR is left alone. */
  function Decode(s: seq<Octet>): seq<Octet> {
    if s == [] then []
    else if s[0] == CR && |s| > 1 && s[1] == LF then [LF] + Decode(s[2..])
    else if s[0] == CR && |s| > 1 && s[1] == NUL then [CR] + Decode(s[2..])
    else [s[0]] + Decode(s[1..])
  }

  lemma {:induction false} DecodeInvertsEncode(s: seq<Octet>)
    ensures Decode(Encode(s)) == s
  {
    if s != [] {
      DecodeInvertsEncode(s[1..]);
      var e := Encode(s);
      if s[0] == LF || s[0] == CR {
        assert e[2..] == Encode(s[1..]);
      } else {
        assert e[1..] == Encode(s[1..]);
      }
    }
  }

  // ----- the decoder as it writes: a file and the previous character -----

  datatype Writer = Writer(file: seq<Octet>, prev: int)

  /** One character: LF is put on top of a CR just written, NUL after CR is skipped. */
  function Put(w: Writer, c: Octet): Writer {
    if w.prev == CR && c == LF && w.file != [] then Writer(w.file[..|w.file| - 1] + [LF], c)
    else if w.prev == CR && c == NUL then Writer(w.file, c)
    else Writer(w.file + [c], c)
  }

  function PutAll(w: Writer, s: seq<Octet>): Writer
    decreases |s|
  {
    if s == [] then w else Put(PutAll(w, s[..|s| - 1]), s[|s| - 1])
  }

  lemma {:induction false} PutAllSplits(w: Writer, a: seq<Octet>, b: seq<Octet>)
    ensures PutAll(w, a + b) == PutAll(PutAll(w, a), b)
    decreases |b|
  {
    if b == [] {
      assert a + b == a;
    } else {
      PutAllSplits(w, a, b[..|b| - 1]);
      assert (a + b)[..|a + b| - 1] == a + b[..|b| - 1];
    }
  }

  lemma PutAllFront(w: Writer, s: seq<Octet>)
    requires s != []
    ensures PutAll(w, s) == PutAll(Put(w, s[0]), s[1..])
  {
    assert s == [s[0]] + s[1..];
    PutAllSplits(w, [s[0]], s[1..]);
    assert [s[0]][..0] == [];
    assert PutAll(w, [s[0]]) == Put(PutAll(w, []), s[0]);
  }

  /** When the previous character was a CR, it already stands at the end of the file. */
  predicate Sound(w: Writer) {
    w.prev == CR ==> w.file != [] && w.file[|w.file| - 1] == CR
  }

  lemma {:induction false} PutAllSound(w: Writer, s: seq<Octet>)
    requires Sound(w)
    ensures Sound(PutAll(w, s))
    decreases |s|
  {
    if s != [] {
      PutAllSound(w, s[..|s| - 1]);
    }
  }

  /** Writing character by character, backing up over a CR where needed, amounts to decoding. */
  lemma {:induction false} PutAllDecodes(base: seq<Octet>, prev: int, s: seq<Octet>)
    requires prev != CR
    ensures PutAll(Writer(base, prev), s).file == base + Decode(s)
    decreases |s|, 2
  {
    if s != [] {
      PutAllFront(Writer(base, prev), s);
      if s[0] == CR {
        PutAllDecodesCr(base, s[1..]);
        assert [CR] + s[1..] == s;
      } else {
        PutAllDecodes(base + [s[0]], s[0], s[1..]);
      }
    }
  }

  lemma DecodeAfterCr(s: seq<Octet>)
    ensures Decode([CR] + s) ==
            if s != [] && s[0] == LF then [LF] + Decode(s[1..])
            else if s != [] && s[0] == NUL then [CR] + Decode(s[1..])
            else [CR] + Decode(s)
  {
    var t := [CR] + s;
    assert t[1..] == s;
    if s != [] {
      assert t[2..] == s[1..];
    }
  }

  lemma {:induction false} PutAllDecodesCr(base: seq<Octet>, s: seq<Octet>)
    ensures PutAll(Writer(base + [CR], CR), s).file == base + Decode([CR] + s)
    decreases |s|, 1
  {
    var w := Writer(base + [CR], CR);
    DecodeAfterCr(s);
    if s == [] {
      assert Decode(s) == [];
    } else {
      PutAllFront(w, s);
      PutAfterCr(base, s);
    }
  }

  lemma PutAfterCr(base: seq<Octet>, s: seq<Octet>)
    requires s != []
    ensures PutAll(Put(Writer(base + [CR], CR), s[0]), s[1..]).file == base + Decode([CR] + s)
    decreases |s|, 0
  {
    hide PutAll, Decode;
    var rest := s[1..];
    var w := Writer(base + [CR], CR);
    DecodeAfterCr(s);
    if s[0] == LF {
      assert (base + [CR])[..|base + [CR]| - 1] == base;
      assert Put(w, s[0]) == Writer(base + [LF], LF);
      PutAllDecodes(base + [LF], LF, rest);
      assert base + [LF] + Decode(rest) == base + ([LF] + Decode(rest));
    } else if s[0] == NUL {
      assert Put(w, s[0]) == Writer(base + [CR], NUL);
      PutAllDecodes(base + [CR], NUL, rest);
      assert base + [CR] + Decode(rest) == base + ([CR] + Decode(rest));
    } else if s[0] == CR {
      assert Put(w, s[0]) == Writer(base + [CR] + [CR], CR);
      PutAllDecodesCr(base + [CR], rest);
      assert [CR] + rest == s;
      assert base + [CR] + Decode(s) == base + ([CR] + Decode(s));
    } else {
      assert Put(w, s[0]) == Writer(base + [CR] + [s[0]], s[0]);
      PutAllDecodes(base + [CR] + [s[0]], s[0], rest);
      DecodeOther(s);
      assert base + [CR] + [s[0]] + Decode(rest) == base + ([CR] + ([s[0]] + Decode(rest)));
    }
  }

  lemma DecodeOther(s: seq<Octet>)
    requires s != [] && s[0] != CR
    ensures Decode(s) == [s[0]] + Decode(s[1..])
  {
  }

  // ----- what goes over the line is netascii -----

  /** Line ends are CR LF: no line feed stands without a CR in front of it, and behind every CR stands a
      line feed or a NUL. */
  predicate IsNetascii(e: seq<Octet>) {
    && (forall i :: 0 <= i < |e| && e[i] == 10 ==> i > 0 && e[i - 1] == 13)
    && (forall i :: 0 <= i < |e| && e[i] == 13 ==> i + 1 < |e| && (e[i + 1] == 10 || e[i + 1] == 0))
  }

  lemma NetasciiJoins(a: seq<Octet>, b: seq<Octet>)
    requires IsNetascii(a) && IsNetascii(b)
    ensures IsNetascii(a + b)
  {
    var e := a + b;
    forall i | 0 <= i < |e| && e[i] == 10 ensures i > 0 && e[i - 1] == 13 {
      if i >= |a| {
        assert b[i - |a|] == 10;
      }
    }
    forall i | 0 <= i < |e| && e[i] == 13 ensures i + 1 < |e| && (e[i + 1] == 10 || e[i + 1] == 0) {
      if i >= |a| {
        assert b[i - |a|] == 13 && e[i + 1] == b[i - |a| + 1];
      } else {
        assert a[i] == 13 && e[i + 1] == a[i + 1];
      }
    }
  }

  /** What a file is encoded as is netascii, with one octet more for each line feed and each CR. */
  lemma {:induction false} EncodedIsNetascii(s: seq<Octet>)
    ensures IsNetascii(Encode(s)) && |Encode(s)| == |s| + Count(s, 10) + Count(s, 13)
  {
    if s != [] {
      EncodedIsNetascii(s[1..]);
      NetasciiJoins(EncodeByte(s[0]), Encode(s[1..]));
    }
  }

  function Count(s: seq<Octet>, c: Octet): nat {
    if s == [] then 0 else (if s[0] == c then 1 else 0) + Count(s[1..], c)
  }
}
