/** The seekable device, on a machine with 64-bit `size_t`. */
module SeekDevice {
  import opened Bytes
  import opened CharDevice
  import opened FixedFile
  import opened Options
  import opened UserMemory

  const TWO_63: int := 0x8000_0000_0000_0000
  const TWO_64: int := 0x1_0000_0000_0000_0000

  /** The sum of two offsets, wrapped around. */
  function Wrap(x: int): loff
    requires -TWO_64 <= x < TWO_64
  {
    if x >= TWO_63 then x - TWO_64 else if x < -TWO_63 then x + TWO_64 else x
  }

  function Unsigned(x: loff): nat { if x < 0 then x + TWO_64 else x }

  function Same(b: byte): byte { b }

  /** `left` is how many bytes `copy_to_user` does not copy. */
  method Read(dev: Device, file: OpenFile, lbuf: nat, left: nat) returns (ret: int, user: seq<byte>)
    requires Ok(dev, file) && Possible(Now(dev, file), Op.Read(lbuf, left))
    modifies file
    ensures Ok(dev, file) && Now(dev, file) == Apply(Same, old(Now(dev, file)), Op.Read(lbuf, left))
    ensures user == Moved(old(Now(dev, file)), Op.Read(lbuf, left)) && ret == |user|
  {
    var maxbytes := dev.kbuf.Length - file.pos;
    var todo := if maxbytes > lbuf then lbuf else maxbytes;
    var uncopied;
    uncopied, user := CopyToUser(dev.kbuf, file.pos, todo, left);
    ret := todo - uncopied;
    file.pos := file.pos + ret;
  }

  method Write(dev: Device, file: OpenFile, buf: seq<byte>, left: nat, junk: seq<byte>) returns (ret: int)
    requires Ok(dev, file) && Possible(Now(dev, file), Op.Write(buf, left, junk))
    modifies dev.kbuf, file
    ensures Ok(dev, file) && Now(dev, file) == Apply(Same, old(Now(dev, file)), Op.Write(buf, left, junk))
    ensures ret == |Moved(old(Now(dev, file)), Op.Write(buf, left, junk))|
  {
    var maxbytes := dev.kbuf.Length - file.pos;
    var todo := if maxbytes > |buf| then |buf| else maxbytes;
    var uncopied := CopyFromUser(dev.kbuf, file.pos, buf, todo, left, junk);
    ret := todo - uncopied;
    MappedSame(buf[..ret]);
    file.pos := file.pos + ret;
  }

  lemma MappedSame(s: seq<byte>)
    ensures Mapped(Same, s) == s
  {
    assert forall i :: 0 <= i < |s| ==> Mapped(Same, s)[i] == Same(s[i]) == s[i];
  }

  // ---- Seeking

  /** The position asked for, before any clamping; none for an unknown origin. */
  function Target(size: nat, pos: nat, offset: loff, orig: int): Option<int> {
    if orig == 0 then Some(offset) else if orig == 1 then Some(pos + offset)
    else if orig == 2 then Some(size + offset) else None
  }

  function Sought(size: nat, pos: nat, offset: loff, orig: int): Option<nat> {
    var t := Target(size, pos, offset, orig);
    if t.None? then None else Some(if 0 <= t.value < size then t.value else size)
  }

  const EINVAL: int := 22

  method Lseek(dev: Device, file: OpenFile, offset: loff, orig: int) returns (ret: int)
    requires Ok(dev, file)
    modifies file
    ensures Ok(dev, file)
    ensures var s := Sought(dev.kbuf.Length, old(file.pos), offset, orig);
            if s.None? then ret == -EINVAL && file.pos == old(file.pos) else ret == file.pos == s.value
  {
    var size := dev.kbuf.Length;
    var testpos: loff;
    if orig == 0 {
      testpos := offset;
    } else if orig == 1 {
      testpos := Wrap(file.pos + offset);
    } else if orig == 2 {
      testpos := Wrap(size + offset);
    } else {
      return -EINVAL;
    }
    testpos := if Unsigned(testpos) < size then testpos else size;
    if testpos < 0 {
      assert false; // the second clamp, to 0, never applies: the comparison above is unsigned
    }
    file.pos := testpos;
    ret := testpos;
  }

  function Clamp(x: int, size: nat): nat { if x < 0 then 0 else if x < size then x else size }

  /** The clamping the code spells out, to 0 below and to the size above, is what it does exactly for positions
      not below 0: the comparison is unsigned, so anything below 0 goes to the end. */
  lemma ClampsExactlyFromZeroUp(size: nat, pos: nat, offset: loff, orig: int)
    requires size > 0 && Target(size, pos, offset, orig).Some?
    ensures var target := Target(size, pos, offset, orig).value;
            (Sought(size, pos, offset, orig) == Some(Clamp(target, size)) <==> target >= 0)
            && (target < 0 ==> Sought(size, pos, offset, orig) == Some(size))
  {
  }

  /** Where seeking leads, by origin: the start, the position, the end; anywhere outside the file it is the end. */
  lemma SeekReaches(size: nat, pos: nat, offset: loff)
    requires 0 <= pos <= size
    ensures Sought(size, pos, offset, 0) == Some(if 0 <= offset < size then offset else size)
    ensures Sought(size, pos, offset, 1) == Some(if 0 <= pos + offset < size then pos + offset else size)
    ensures Sought(size, pos, offset, 2) == Some(if 0 <= size + offset < size then size + offset else size)
    ensures forall orig :: orig < 0 || orig > 2 ==> Sought(size, pos, offset, orig) == None
  {
  }

  lemma SeekBelowZeroGoesToTheEnd()
    ensures Sought(40960, 100, -200, 1) == Some(40960) && Clamp(100 - 200, 40960) == 0
  {
  }

  // ---- Whole runs

  datatype Call = Io(op: Op) | Seek(offset: loff, orig: int)

  predicate CanCall(f: File, c: Call) { Valid(f) && (c.Io? ==> Possible(f, c.op)) }

  function Called(f: File, c: Call): (f': File)
    requires CanCall(f, c)
    ensures Valid(f') && |f'.data| == |f.data|
  {
    match c
    case Io(op) => Apply(Same, f, op)
    case Seek(offset, orig) => var s := Sought(|f.data|, f.pos, offset, orig); if s.None? then f else f.(pos := s.value)
  }

  predicate CanRun(f: File, calls: seq<Call>)
    decreases |calls|
  {
    calls == [] || (CanCall(f, calls[0]) && CanRun(Called(f, calls[0]), calls[1..]))
  }

  function Run(f: File, calls: seq<Call>): (f': File)
    requires Valid(f) && CanRun(f, calls)
    ensures Valid(f') && |f'.data| == |f.data|
    decreases |calls|
  {
    if calls == [] then f else Run(Called(f, calls[0]), calls[1..])
  }

  /** Byte i is among those some write of the run tried to replace. */
  predicate Touched(f: File, calls: seq<Call>, i: nat)
    requires Valid(f) && CanRun(f, calls)
    decreases |calls|
  {
    && calls != []
    && ((calls[0].Io? && calls[0].op.Write? && f.pos <= i < f.pos + Todo(f, calls[0].op))
        || Touched(Called(f, calls[0]), calls[1..], i))
  }

  /** In every run of reads, writes and seeks the position stays in the file, its size stays, and so does every
      byte no write tried to replace. */
  lemma {:induction false} RunKeepsFile(f: File, calls: seq<Call>, i: nat)
    requires Valid(f) && CanRun(f, calls)
    ensures Run(f, calls).pos <= |Run(f, calls).data| == |f.data|
    ensures i < |f.data| && !Touched(f, calls, i) ==> Run(f, calls).data[i] == f.data[i]
    decreases |calls|
  {
    if calls != [] {
      RunKeepsFile(Called(f, calls[0]), calls[1..], i);
    }
  }

  /** Writes in any chunks, a seek back to where they began, reads in any chunks: the same bytes come back. */
  lemma WrittenComesBack(f: File, writeOps: seq<Op>, readOps: seq<Op>)
    requires Valid(f) && f.pos < TWO_63 && Playable(Same, f, writeOps) && AllWrites(writeOps) && AllReads(readOps)
    requires Playable(Same, Called(Play(Same, f, writeOps), Seek(f.pos, 0)), readOps)
    ensures var accepted := Stream(Same, f, writeOps);
            var got := Stream(Same, Called(Play(Same, f, writeOps), Seek(f.pos, 0)), readOps);
            && got[..Min(|got|, |accepted|)] == accepted[..Min(|got|, |accepted|)]
            && (FaultFree(readOps) && Asked(readOps) >= |accepted| ==> |got| >= |accepted|)
  {
    assert Called(Play(Same, f, writeOps), Seek(f.pos, 0)) == Play(Same, f, writeOps).(pos := f.pos);
    WriteThenRead(Same, f, writeOps, readOps);
    MappedSame(Stream(Same, f, writeOps));
  }
}
