/** C strings: character buffers ended by a NUL. */
module CStrings {
  const Nul: char := '\0'

  /** The contents of a C string: no NUL inside, the terminator is implicit. */
  predicate IsCString(s: string) {
    Nul !in s
  }

  /** The C string a NUL-terminated buffer holds: everything before its first NUL. */
  function CString(buf: seq<char>): (s: string)
    ensures |s| <= |buf| && s == buf[..|s|]
    ensures IsCString(s)
    ensures |s| < |buf| ==> buf[|s|] == Nul
  {
    if buf == [] || buf[0] == Nul then [] else [buf[0]] + CString(buf[1..])
  }

  /** A prefix free of NUL that ends at a NUL (or at the end) is the C string. */
  lemma {:induction false} CStringAt(buf: seq<char>, n: nat)
    requires n <= |buf|
    requires forall i :: 0 <= i < n ==> buf[i] != Nul
    requires n < |buf| ==> buf[n] == Nul
    ensures CString(buf) == buf[..n]
  {
    if n > 0 {
      assert buf[0] != Nul;
      CStringAt(buf[1..], n - 1);
      assert buf[..n] == [buf[0]] + buf[1..][..n - 1];
    }
  }
}
