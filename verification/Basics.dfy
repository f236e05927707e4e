/** Notions that several of the programs share. */
module Basics {

  datatype Option<T> = None | Some(value: T)

  type Octet = n: int | 0 <= n < 256

  function Flat(blocks: seq<seq<Octet>>): seq<Octet>
    decreases |blocks|
  {
    if blocks == [] then [] else Flat(blocks[..|blocks| - 1]) + blocks[|blocks| - 1]
  }

  // ----- the character classes of the C library -----

  predicate IsDigit(c: char) { '0' <= c <= '9' }

  predicate IsSpace(c: char) { c == ' ' || '\t' <= c <= '\r' }

  /** c - '0' */
  function Value(c: char): int { c as int - '0' as int }

  function Digit(d: int): (c: char)
    requires 0 <= d < 10
    ensures IsDigit(c) && Value(c) == d
  {
    ('0' as int + d) as char
  }
}
