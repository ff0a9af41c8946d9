/** Bytes, byte strings and the ASCII encoding of text. */
module Bytes {

  /** An unsigned 8-bit value, Rust's `u8`. */
  newtype byte = b: int | 0 <= b < 256

  /** The line delimiter, `b'\n'`. */
  const NL: byte := 10

  /** No byte of `s` is the delimiter. */
  predicate NewlineFree(s: seq<byte>) {
    forall i :: 0 <= i < |s| ==> s[i] != NL
  }

  /** The concatenation of a sequence of byte strings, in order. */
  function Concat(parts: seq<seq<byte>>): (r: seq<byte>)
    decreases |parts|
  {
    if |parts| == 0 then [] else parts[0] + Concat(parts[1..])
  }

  lemma {:induction false} ConcatAppend(a: seq<seq<byte>>, b: seq<seq<byte>>)
    ensures Concat(a + b) == Concat(a) + Concat(b)
    decreases |a|
  {
    if |a| == 0 {
      assert a + b == b;
    } else {
      assert (a + b)[0] == a[0] && (a + b)[1..] == a[1..] + b;
      ConcatAppend(a[1..], b);
    }
  }

  lemma ConcatPair(a: seq<byte>, b: seq<byte>)
    ensures Concat([a, b]) == a + b
  {
    assert Concat([a, b][1..][1..]) == [];
  }

  lemma NewlineFreeAppend(a: seq<byte>, b: seq<byte>)
    ensures NewlineFree(a + b) <==> NewlineFree(a) && NewlineFree(b)
  {
    if NewlineFree(a) && NewlineFree(b) {
      forall i | 0 <= i < |a + b| ensures (a + b)[i] != NL {
        if i >= |a| {
          assert (a + b)[i] == b[i - |a|];
        }
      }
    }
    if NewlineFree(a + b) {
      forall i | 0 <= i < |a| ensures a[i] != NL {
        assert (a + b)[i] == a[i];
      }
      forall i | 0 <= i < |b| ensures b[i] != NL {
        assert (a + b)[|a| + i] == b[i];
      }
    }
  }

  /** Every character of `s` is 7-bit ASCII, so its UTF-8 form is one byte per character. */
  predicate IsAscii(s: string) {
    forall i :: 0 <= i < |s| ==> s[i] as int < 128
  }

  /**
    * The UTF-8 bytes of an ASCII string (`String::into_bytes`): one byte per
    * character, with the character's code.
    */
  function AsciiBytes(s: string): (r: seq<byte>)
    requires IsAscii(s)
    ensures |r| == |s|
    ensures forall i :: 0 <= i < |r| ==> r[i] as int == s[i] as int
    decreases |s|
  {
    if |s| == 0 then [] else [s[0] as int as byte] + AsciiBytes(s[1..])
  }

  /** Reads ASCII bytes back as text, the inverse of `AsciiBytes`. */
  function AsciiText(b: seq<byte>): string
    requires forall i :: 0 <= i < |b| ==> b[i] < 128
  {
    seq(|b|, i requires 0 <= i < |b| => b[i] as int as char)
  }

  lemma AsciiRoundTrip(s: string)
    requires IsAscii(s)
    ensures AsciiText(AsciiBytes(s)) == s
  {
  }
}
