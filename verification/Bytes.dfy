// Bytes, as every reader and writer sees them, and how their strings split.

module Bytes {

  /** One char of a file or of a std::string. It stands for an 8-bit byte: where
      chars are read as parts of a machine word, only their value modulo 256 counts. */
  type byte = char

  const NUL: byte := 0 as char

  predicate IsDigit(c: byte) { '0' <= c <= '9' }

  lemma Assoc(a: seq<byte>, b: seq<byte>, c: seq<byte>)
    ensures a + b + c == a + (b + c)
  {}

  lemma SplitAt(a: seq<byte>, b: seq<byte>)
    ensures (a + b)[..|a|] == a && (a + b)[|a|..] == b
  {}

  lemma Dropped(s: seq<byte>, a: nat, b: nat)
    requires a + b <= |s|
    ensures s[a..][b..] == s[a + b..]
  {}
}
