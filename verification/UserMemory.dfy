/** Copies between a kernel buffer and user memory. Both report how many bytes they left. */
module UserMemory {
  import opened Bytes

  /** The bytes left are the last ones; their place in the buffer may be overwritten with anything. */
  method CopyFromUser(kbuf: array<byte>, at: nat, buf: seq<byte>, n: nat, left: nat, junk: seq<byte>)
    returns (uncopied: nat)
    requires at + n <= kbuf.Length && n <= |buf| && left <= n && |junk| == left
    modifies kbuf
    ensures uncopied == left
    ensures kbuf[..] == old(kbuf[..])[..at] + buf[..n - left] + junk + old(kbuf[..])[at + n..]
  {
    var bytes := buf[..n - left] + junk;
    forall i | 0 <= i < n {
      kbuf[at + i] := bytes[i];
    }
    uncopied := left;
    assert kbuf[at..at + n] == bytes;
  }

  method CopyToUser(kbuf: array<byte>, at: nat, n: nat, left: nat) returns (uncopied: nat, user: seq<byte>)
    requires at + n <= kbuf.Length && left <= n
    ensures uncopied == left && user == kbuf[at..at + n - left]
  {
    uncopied := left;
    user := kbuf[at..at + n - left];
  }
}
