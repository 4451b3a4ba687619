/** Bytes and NUL-terminated strings, as the drivers see them. */
module Bytes {
  type byte = x: int | 0 <= x < 256

  const NUL: char := '\0'

  /** What stands before the first NUL. */
  function CString<T(==)>(s: seq<T>, nul: T): (r: seq<T>)
    ensures nul !in r && r <= s
    ensures nul in s ==> |r| < |s| && s[|r|] == nul
    decreases |s|
  {
    if s == [] || s[0] == nul then [] else [s[0]] + CString(s[1..], nul)
  }

  lemma {:induction false} CStringUnique<T>(s: seq<T>, nul: T, n: nat)
    requires n < |s| && s[n] == nul && nul !in s[..n]
    ensures CString(s, nul) == s[..n]
  {
    if n > 0 {
      assert s[0] == s[..n][0];
      assert s[1..][..n - 1] == s[..n][1..];
      CStringUnique(s[1..], nul, n - 1);
    }
  }
}
