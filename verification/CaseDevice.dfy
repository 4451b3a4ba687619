/** The case-mapping device: writes through minor 1 are kept in lower case, through minor 2 in upper case. */
module CaseDevice {
  import opened Bytes
  import opened CharDevice
  import opened FixedFile
  import opened Sequences
  import opened UserMemory

  const ENOSPC: int := 28

  function ToLower(c: byte): byte { if 65 <= c <= 90 then c - 65 + 97 else c }

  function ToUpper(c: byte): byte { if 97 <= c <= 122 then c - 97 + 65 else c }

  /** What a minor number does to a byte. */
  function CaseOf(minor: nat): byte -> byte {
    if minor == 1 then ToLower else if minor == 2 then ToUpper else b => b
  }

  /** Minor 1 keeps lower case, minor 2 upper case, any other minor what it is given. */
  lemma CaseOfIs(minor: nat, x: byte)
    ensures CaseOf(minor)(x) == if minor == 1 && 'A' <= x as char <= 'Z' then x + 32
                                else if minor == 2 && 'a' <= x as char <= 'z' then x - 32 else x
  {
  }

  /** Converts n bytes of the buffer in place. */
  method Convert(kbuf: array<byte>, start: nat, n: nat, minor: nat) returns (ret: nat)
    requires start + n <= kbuf.Length
    modifies kbuf
    ensures ret == n
    ensures var was := old(kbuf[..]);
            kbuf[..] == was[..start] + Mapped(CaseOf(minor), was[start..start + n]) + was[start + n..]
  {
    var i := 0;
    while i < n
      invariant i <= n
      invariant forall k :: 0 <= k < kbuf.Length ==>
                  kbuf[k] == if start <= k < start + i then CaseOf(minor)(old(kbuf[k])) else old(kbuf[k])
    {
      var c := kbuf[start + i];
      match minor {
        case 1 => c := ToLower(c);
        case 2 => c := ToUpper(c);
        case _ =>
      }
      kbuf[start + i] := c;
      i := i + 1;
    }
    ret := n;
  }

  /** With nothing to copy, at the end or because nothing was asked for, the answer is an error. */
  method MyRead(dev: Device, file: OpenFile, lbuf: nat, left: nat) returns (ret: int, user: seq<byte>)
    requires Ok(dev, file) && Possible(Now(dev, file), Read(lbuf, left))
    modifies file
    ensures Ok(dev, file) && Now(dev, file) == Apply(CaseOf(file.minor), old(Now(dev, file)), Read(lbuf, left))
    ensures user == Moved(old(Now(dev, file)), Read(lbuf, left))
    ensures ret == if Todo(old(Now(dev, file)), Read(lbuf, left)) == 0 then -ENOSPC else |user|
  {
    var maxbytes := dev.kbuf.Length - file.pos;
    var todo := if maxbytes > lbuf then lbuf else maxbytes;
    if todo == 0 {
      return -ENOSPC, [];
    }
    var uncopied;
    uncopied, user := CopyToUser(dev.kbuf, file.pos, todo, left);
    ret := todo - uncopied;
    file.pos := file.pos + ret;
  }

  method MyWrite(dev: Device, file: OpenFile, buf: seq<byte>, left: nat, junk: seq<byte>) returns (ret: int)
    requires Ok(dev, file) && Possible(Now(dev, file), Write(buf, left, junk))
    modifies dev.kbuf, file
    ensures Ok(dev, file) && Now(dev, file) == Apply(CaseOf(file.minor), old(Now(dev, file)), Write(buf, left, junk))
    ensures ret == if Todo(old(Now(dev, file)), Write(buf, left, junk)) == 0 then -ENOSPC
                   else |Moved(old(Now(dev, file)), Write(buf, left, junk))|
  {
    hide CaseOf, Mapped, Apply, Moved;
    var maxbytes := dev.kbuf.Length - file.pos;
    var todo := if maxbytes > |buf| then |buf| else maxbytes;
    if todo == 0 {
      NothingWritten(CaseOf(file.minor), Now(dev, file), Write(buf, left, junk));
      return -ENOSPC;
    }
    ghost var g, f, op := CaseOf(file.minor), Now(dev, file), Write(buf, left, junk);
    var uncopied := CopyFromUser(dev.kbuf, file.pos, buf, todo, left, junk);
    ghost var copied := dev.kbuf[..];
    ret := todo - uncopied;
    var n := Convert(dev.kbuf, file.pos, ret, file.minor);
    BytesWritten(g, f, op, ret, copied, dev.kbuf[..]);
    file.pos := file.pos + ret;
  }

  lemma NothingWritten(g: byte -> byte, f: File, op: Op)
    requires op.Write? && Possible(f, op) && Todo(f, op) == 0
    ensures Apply(g, f, op) == f
  {
    assert f.data[..f.pos] + [] + [] + f.data[f.pos..] == f.data;
  }

  /** The copy, then the conversion of what was copied. */
  lemma BytesWritten(g: byte -> byte, f: File, op: Op, n: nat, copied: seq<byte>, data: seq<byte>)
    requires op.Write? && Possible(f, op) && n == Todo(f, op) - op.left
    requires copied == f.data[..f.pos] + op.buf[..n] + op.junk + f.data[f.pos + Todo(f, op)..]
    requires data == copied[..f.pos] + Mapped(g, copied[f.pos..f.pos + n]) + copied[f.pos + n..]
    ensures Apply(g, f, op) == File(data, f.pos + n) && |Moved(f, op)| == n
  {
    hide Mapped;
    Converted(f.data[..f.pos], op.buf[..n], op.junk, f.data[f.pos + Todo(f, op)..], Mapped(g, op.buf[..n]));
  }

  lemma Converted(head: seq<byte>, bytes: seq<byte>, junk: seq<byte>, tail: seq<byte>, mapped: seq<byte>)
    ensures var all := head + bytes + junk + tail;
            && all[|head|..|head| + |bytes|] == bytes
            && all[..|head|] + mapped + all[|head| + |bytes|..] == head + mapped + junk + tail
  {
    var all := head + bytes + junk + tail;
    assert all[..|head|] == head && all[|head| + |bytes|..] == junk + tail;
    Assoc(head + mapped, junk, tail);
  }

  /** Every run of writes on one open file leaves, before its position, the case mapping of the accepted bytes
      joined in order. */
  lemma WritesKeepCase(f: File, minor: nat, ops: seq<Op>)
    requires Valid(f) && f.pos == 0 && Playable(CaseOf(minor), f, ops) && AllWrites(ops)
    ensures var f' := Play(CaseOf(minor), f, ops);
            var accepted := Stream(CaseOf(minor), f, ops);
            && f'.pos == |accepted| <= |f'.data|
            && forall i :: 0 <= i < f'.pos ==>
                 var x := accepted[i];
                 f'.data[i] == if minor == 1 && 'A' <= x as char <= 'Z' then x + 32
                               else if minor == 2 && 'a' <= x as char <= 'z' then x - 32 else x
  {
    WritesKeepStream(CaseOf(minor), f, ops);
    var f' := Play(CaseOf(minor), f, ops);
    var mapped := Mapped(CaseOf(minor), Stream(CaseOf(minor), f, ops));
    assert f'.data[..f'.pos] == mapped;
    forall i | 0 <= i < f'.pos ensures f'.data[i] == mapped[i] { assert f'.data[..f'.pos][i] == f'.data[i]; }
  }
}
