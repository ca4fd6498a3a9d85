/** Byte strings as the C code handles them: NUL-terminated buffers, `strlen`,
    `strcmp`, `strncmp`, string literals and `memcpy`. */
module CString {

  /** An unsigned 8-bit value (`uint8_t`, the element type of every buffer in the source). */
  newtype byte = b: int | 0 <= b < 256

  const NUL: byte := 0

  /** True if the string has no terminator inside it, as the text of a C string literal. */
  predicate NoNul(s: seq<byte>) {
    forall i :: 0 <= i < |s| ==> s[i] != NUL
  }

  /** The bytes a string literal occupies: its text and the terminator (what `sizeof` measures). */
  function Literal(s: seq<byte>): seq<byte> {
    s + [NUL]
  }

  /** `strlen`: the index of the first terminator, or the whole length if there is none. */
  function StrLen(s: seq<byte>): (n: nat)
    ensures n <= |s|
    ensures forall i :: 0 <= i < n ==> s[i] != NUL
    ensures n < |s| ==> s[n] == NUL
  {
    if |s| == 0 || s[0] == NUL then 0 else 1 + StrLen(s[1..])
  }

  /** The C string a buffer holds: the bytes before its first terminator. */
  function CStr(s: seq<byte>): seq<byte> {
    s[..StrLen(s)]
  }

  /** A C string written at the start of a buffer reads back as itself, whatever follows it. */
  lemma LiteralPrefix(s: seq<byte>, rest: seq<byte>)
    requires NoNul(s)
    ensures CStr(Literal(s) + rest) == s
  {
    var b := Literal(s) + rest;
    assert b[..|s|] == s;
    CStrAt(b, |s|);
  }

  /** `strncmp(a, b, n) == 0`. A position past the end of either object is taken as a mismatch. */
  function StrNEq(a: seq<byte>, b: seq<byte>, n: nat): bool
    decreases n
  {
    if n == 0 then true
    else if |a| == 0 || |b| == 0 then false
    else a[0] == b[0] && (a[0] == NUL || StrNEq(a[1..], b[1..], n - 1))
  }

  /** A buffer whose first terminator sits at index `n` holds exactly the string `s[..n]`. */
  lemma CStrAt(s: seq<byte>, n: nat)
    requires n < |s| && s[n] == NUL && NoNul(s[..n])
    ensures CStr(s) == s[..n]
  {
  }

  /** The string a literal spells is its text, and `strlen` of it is the text's length. */
  lemma LiteralText(s: seq<byte>)
    requires NoNul(s)
    ensures StrLen(Literal(s)) == |s| && CStr(Literal(s)) == s
  {
    assert Literal(s)[..|s|] == s;
    CStrAt(Literal(s), |s|);
  }

  /** Comparing the first `|cmd|` bytes of a buffer with the literal `cmd` succeeds exactly
      when the buffer starts with `cmd`. */
  lemma {:induction false} StrNEqPrefix(data: seq<byte>, cmd: seq<byte>)
    requires NoNul(cmd)
    ensures StrNEq(data, Literal(cmd), |cmd|) <==> |cmd| <= |data| && data[..|cmd|] == cmd
    decreases |cmd|
  {
    if |cmd| > 0 && |data| > 0 {
      assert Literal(cmd)[1..] == Literal(cmd[1..]);
      StrNEqPrefix(data[1..], cmd[1..]);
      if |cmd| <= |data| && data[..|cmd|] == cmd {
        assert data[1..][..|cmd| - 1] == cmd[1..];
      }
      if data[0] == cmd[0] && |cmd| - 1 <= |data| - 1 && data[1..][..|cmd| - 1] == cmd[1..] {
        assert data[..|cmd|] == [data[0]] + data[1..][..|cmd| - 1];
        assert cmd == [cmd[0]] + cmd[1..];
      }
    }
  }

  /** `memcpy(dst, src, |src|)`: the first `|src|` bytes of `dst` become `src`, the rest stay. */
  method Memcpy(dst: array<byte>, src: seq<byte>)
    requires |src| <= dst.Length
    modifies dst
    ensures dst[..] == src + old(dst[..])[|src|..]
  {
    var i := 0;
    while i < |src|
      invariant 0 <= i <= |src|
      invariant forall k :: 0 <= k < i ==> dst[k] == src[k]
      invariant forall k :: i <= k < dst.Length ==> dst[k] == old(dst[k])
    {
      dst[i] := src[i];
      i := i + 1;
    }
    assert dst[..] == src + old(dst[..])[|src|..];
  }
}
