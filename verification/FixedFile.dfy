/** A file of fixed size behind a position, with reads and writes that user memory may cut short. */
module FixedFile {
  import opened Bytes
  import opened Sequences

  datatype File = File(data: seq<byte>, pos: nat)

  predicate Valid(f: File) { f.pos <= |f.data| }

  /** `left` bytes are not copied; of a write they are the last ones, and `junk` is what takes their place. */
  datatype Op = Write(buf: seq<byte>, left: nat, junk: seq<byte>) | Read(size: nat, left: nat)

  function Min(a: nat, b: nat): nat { if a < b then a else b }

  function Wanted(op: Op): nat { if op.Write? then |op.buf| else op.size }

  /** What an operation tries to copy. */
  function Todo(f: File, op: Op): nat
    requires Valid(f)
  {
    Min(|f.data| - f.pos, Wanted(op))
  }

  predicate Possible(f: File, op: Op) {
    Valid(f) && op.left <= Todo(f, op) && (op.Write? ==> |op.junk| == op.left)
  }

  function Mapped(g: byte -> byte, s: seq<byte>): seq<byte> { seq(|s|, i requires 0 <= i < |s| => g(s[i])) }

  /** The bytes an operation has the user give or take. */
  function Moved(f: File, op: Op): seq<byte>
    requires Possible(f, op)
  {
    var n := Todo(f, op) - op.left;
    if op.Write? then op.buf[..n] else f.data[f.pos..f.pos + n]
  }

  /** A write keeps g of each byte it is given. */
  function Apply(g: byte -> byte, f: File, op: Op): (f': File)
    requires Possible(f, op)
    ensures Valid(f') && |f'.data| == |f.data| && f'.pos == f.pos + |Moved(f, op)|
  {
    var moved := Moved(f, op);
    if op.Read? then f.(pos := f.pos + |moved|)
    else File(f.data[..f.pos] + Mapped(g, moved) + op.junk + f.data[f.pos + Todo(f, op)..], f.pos + |moved|)
  }

  predicate Playable(g: byte -> byte, f: File, ops: seq<Op>)
    decreases |ops|
  {
    ops == [] || (Possible(f, ops[0]) && Playable(g, Apply(g, f, ops[0]), ops[1..]))
  }

  function Play(g: byte -> byte, f: File, ops: seq<Op>): (f': File)
    requires Valid(f) && Playable(g, f, ops)
    ensures Valid(f') && |f'.data| == |f.data|
    decreases |ops|
  {
    if ops == [] then f else Play(g, Apply(g, f, ops[0]), ops[1..])
  }

  /** All the bytes a run has moved, in order. */
  function Stream(g: byte -> byte, f: File, ops: seq<Op>): seq<byte>
    requires Valid(f) && Playable(g, f, ops)
    decreases |ops|
  {
    if ops == [] then [] else Moved(f, ops[0]) + Stream(g, Apply(g, f, ops[0]), ops[1..])
  }

  predicate AllWrites(ops: seq<Op>) { ops == [] || (ops[0].Write? && AllWrites(ops[1..])) }

  predicate AllReads(ops: seq<Op>) { ops == [] || (ops[0].Read? && AllReads(ops[1..])) }

  predicate FaultFree(ops: seq<Op>) { ops == [] || (ops[0].left == 0 && FaultFree(ops[1..])) }

  lemma MappedAppend(g: byte -> byte, a: seq<byte>, b: seq<byte>)
    ensures Mapped(g, a + b) == Mapped(g, a) + Mapped(g, b)
  {
  }

  lemma WriteKeepsMoved(g: byte -> byte, f: File, op: Op)
    requires op.Write? && Possible(f, op)
    ensures var f' := Apply(g, f, op);
            f'.data[..f'.pos] == f.data[..f.pos] + Mapped(g, Moved(f, op))
  {
  }

  /** Any run of writes, however chunked and cut short: before the position stands what the accepted bytes,
      joined in order, map to. */
  lemma {:induction false} WritesKeepStream(g: byte -> byte, f: File, ops: seq<Op>)
    requires Valid(f) && Playable(g, f, ops) && AllWrites(ops)
    ensures var f', stream := Play(g, f, ops), Stream(g, f, ops);
            f'.pos == f.pos + |stream| && f'.data[..f'.pos] == f.data[..f.pos] + Mapped(g, stream)
    decreases |ops|
  {
    if ops != [] {
      var op, f1 := ops[0], Apply(g, f, ops[0]);
      var moved, rest := Moved(f, op), Stream(g, f1, ops[1..]);
      WriteKeepsMoved(g, f, op);
      WritesKeepStream(g, f1, ops[1..]);
      MappedAppend(g, moved, rest);
      Assoc(f.data[..f.pos], Mapped(g, moved), Mapped(g, rest));
    }
  }

  lemma ReadReturnsData(g: byte -> byte, f: File, op: Op)
    requires op.Read? && Possible(f, op)
    ensures var f' := Apply(g, f, op);
            f'.data == f.data && Moved(f, op) == f.data[f.pos..f'.pos]
  {
  }

  /** Any run of reads returns, joined in order, the bytes it passes over. */
  lemma {:induction false} ReadsReturnData(g: byte -> byte, f: File, ops: seq<Op>)
    requires Valid(f) && Playable(g, f, ops) && AllReads(ops)
    ensures var f', stream := Play(g, f, ops), Stream(g, f, ops);
            f'.data == f.data && f'.pos == f.pos + |stream| && stream == f.data[f.pos..f'.pos]
    decreases |ops|
  {
    hide Apply, Moved;
    if ops != [] {
      var f1 := Apply(g, f, ops[0]);
      ReadReturnsData(g, f, ops[0]);
      ReadsReturnData(g, f1, ops[1..]);
      SliceJoin(f.data, f.pos, f1.pos, f1.pos + |Stream(g, f1, ops[1..])|);
    }
  }

  function Joined(ops: seq<Op>): seq<byte>
    requires AllWrites(ops)
  {
    if ops == [] then [] else ops[0].buf + Joined(ops[1..])
  }

  function Asked(ops: seq<Op>): nat { if ops == [] then 0 else Wanted(ops[0]) + Asked(ops[1..]) }

  /** Without faults a run of writes does what one write of the joined bytes would do, up to the end of the file. */
  lemma {:induction false} WritesJoin(g: byte -> byte, f: File, ops: seq<Op>)
    requires Valid(f) && Playable(g, f, ops) && AllWrites(ops) && FaultFree(ops)
    ensures Play(g, f, ops) == Apply(g, f, Write(Joined(ops), 0, []))
    ensures Stream(g, f, ops) == Joined(ops)[..Min(|f.data| - f.pos, |Joined(ops)|)]
    decreases |ops|
  {
    if ops == [] {
      assert f.data[..f.pos] + Mapped(g, []) + [] + f.data[f.pos..] == f.data;
    } else {
      var op, f1, rest := ops[0], Apply(g, f, ops[0]), Joined(ops[1..]);
      WritesJoin(g, f1, ops[1..]);
      WriteTwice(g, f, op.buf, rest);
    }
  }

  lemma MovedTwice(g: byte -> byte, f: File, a: seq<byte>, b: seq<byte>)
    requires Valid(f)
    ensures Moved(f, Write(a, 0, [])) + Moved(Apply(g, f, Write(a, 0, [])), Write(b, 0, []))
            == Moved(f, Write(a + b, 0, []))
  {
    hide Mapped;
  }

  lemma WriteTwice(g: byte -> byte, f: File, a: seq<byte>, b: seq<byte>)
    requires Valid(f)
    ensures Apply(g, Apply(g, f, Write(a, 0, [])), Write(b, 0, [])) == Apply(g, f, Write(a + b, 0, []))
    ensures Moved(f, Write(a, 0, [])) + Moved(Apply(g, f, Write(a, 0, [])), Write(b, 0, []))
            == Moved(f, Write(a + b, 0, []))
  {
    hide Mapped;
    var f1 := Apply(g, f, Write(a, 0, []));
    var first, second := Moved(f, Write(a, 0, [])), Moved(f1, Write(b, 0, []));
    MovedTwice(g, f, a, b);
    MappedAppend(g, first, second);
    assert f1.data[..f1.pos] == f.data[..f.pos] + Mapped(g, first);
    Assoc(f.data[..f.pos], Mapped(g, first), Mapped(g, second));
  }

  /** Where the writes were cut does not matter: with the same accepted bytes, however short each copy fell, position
      and all before it come out alike, and without faults the same joined bytes leave the same file. */
  lemma ChunksDoNotMatter(g: byte -> byte, f: File, ops: seq<Op>, others: seq<Op>)
    requires Valid(f) && Playable(g, f, ops) && AllWrites(ops)
    requires Playable(g, f, others) && AllWrites(others)
    ensures Stream(g, f, ops) == Stream(g, f, others) ==>
              var f1, f2 := Play(g, f, ops), Play(g, f, others);
              f1.pos == f2.pos && f1.data[..f1.pos] == f2.data[..f2.pos]
    ensures FaultFree(ops) && FaultFree(others) && Joined(ops) == Joined(others) ==>
              Play(g, f, ops) == Play(g, f, others)
  {
    WritesKeepStream(g, f, ops);
    WritesKeepStream(g, f, others);
    if FaultFree(ops) && FaultFree(others) {
      WritesJoin(g, f, ops);
      WritesJoin(g, f, others);
    }
  }

  lemma {:induction false} ReadsGetAll(g: byte -> byte, f: File, ops: seq<Op>)
    requires Valid(f) && Playable(g, f, ops) && AllReads(ops) && FaultFree(ops)
    ensures |Stream(g, f, ops)| == Min(|f.data| - f.pos, Asked(ops))
    decreases |ops|
  {
    if ops != [] {
      ReadsGetAll(g, Apply(g, f, ops[0]), ops[1..]);
    }
  }

  /** Writes, a step back to where they began, then reads: as far as both go, the reads return what the accepted
      bytes map to. */
  lemma WriteThenRead(g: byte -> byte, f: File, writeOps: seq<Op>, readOps: seq<Op>)
    requires Valid(f) && Playable(g, f, writeOps) && AllWrites(writeOps) && AllReads(readOps)
    requires Playable(g, Play(g, f, writeOps).(pos := f.pos), readOps)
    ensures var kept := Mapped(g, Stream(g, f, writeOps));
            var back := Play(g, f, writeOps).(pos := f.pos);
            var got := Stream(g, back, readOps);
            && got[..Min(|got|, |kept|)] == kept[..Min(|got|, |kept|)]
            && (FaultFree(readOps) && Asked(readOps) >= |kept| ==> |got| >= |kept|)
  {
    hide Play, Stream, Mapped;
    var f', kept := Play(g, f, writeOps), Mapped(g, Stream(g, f, writeOps));
    var back := f'.(pos := f.pos);
    var got := Stream(g, back, readOps);
    WritesKeepStream(g, f, writeOps);
    ReadsReturnData(g, back, readOps);
    PrefixesAgree(f'.data, f.data[..f.pos], kept, got);
    if FaultFree(readOps) { ReadsGetAll(g, back, readOps); }
  }

  lemma PrefixesAgree(data: seq<byte>, head: seq<byte>, kept: seq<byte>, got: seq<byte>)
    requires |head| + |kept| <= |data| && data[..|head| + |kept|] == head + kept
    requires |head| + |got| <= |data| && got == data[|head|..|head| + |got|]
    ensures got[..Min(|got|, |kept|)] == kept[..Min(|got|, |kept|)]
  {
    var n := Min(|got|, |kept|);
    forall i | 0 <= i < n ensures got[..n][i] == kept[..n][i] {
      assert got[i] == data[|head| + i] == data[..|head| + |kept|][|head| + i] == kept[i];
    }
  }
}
