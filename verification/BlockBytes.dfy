/** The driver byte by byte: where each byte of a request goes, and what stays as it is. */
module BlockBytes {
  import opened Bytes
  import opened Sequences
  import opened BlockDisk
  import opened BlockDriver

  lemma {:induction false} GatherAt(ram: Ram, segments: seq<Segment>, j: nat, i: nat)
    requires j < |segments| && i < 512 * segments[j].sectors
    ensures 512 * Sectors(segments[..j]) + i < |Gather(ram, segments)|
    ensures Gather(ram, segments)[512 * Sectors(segments[..j]) + i] == ram(segments[j].buffer + i)
    decreases j
  {
    var first, rest := Load(ram, segments[0].buffer, Size(segments[0].sectors)), Gather(ram, segments[1..]);
    if j > 0 {
      GatherAt(ram, segments[1..], j - 1, i);
      assert segments[..j][1..] == segments[1..][..j - 1];
      assert (first + rest)[|first| + (512 * Sectors(segments[1..][..j - 1]) + i)]
             == rest[512 * Sectors(segments[1..][..j - 1]) + i];
    }
  }

  /** Of a write, byte i of segment j lands at its place on the disk; memory is as before. */
  lemma WriteReaches(disk: seq<byte>, ram: Ram, r: Request, j: nat, i: nat)
    requires r.write && j < |Kept(|disk|, r)| && i < 512 * r.segments[j].sectors
    ensures 512 * (r.pos + Sectors(r.segments[..j])) + i < |disk|
    ensures var (disk', ram') := ServeSegments(disk, ram, r);
            ram' == ram && disk'[512 * (r.pos + Sectors(r.segments[..j])) + i] == ram(r.segments[j].buffer + i)
  {
    hide ServeSegments, Gather;
    var kept := Kept(|disk|, r);
    WritesAreWhole(disk, ram, r);
    assert kept[j] == r.segments[j] && kept[..j] == r.segments[..j];
    GatherAt(ram, kept, j, i);
  }

  /** Of a read, byte i of segment j comes from its place on the disk, if the buffers share no byte. */
  lemma ReadReaches(disk: seq<byte>, ram: Ram, r: Request, j: nat, i: nat)
    requires !r.write && j < |Kept(|disk|, r)| && i < 512 * r.segments[j].sectors && Apart(Kept(|disk|, r))
    ensures 512 * (r.pos + Sectors(r.segments[..j])) + i < |disk|
    ensures ServeSegments(disk, ram, r).1(r.segments[j].buffer + i)
            == disk[512 * (r.pos + Sectors(r.segments[..j])) + i]
  {
    hide ServeSegments, Gather, ReadWhole;
    var kept := Kept(|disk|, r);
    ReadsAreWhole(disk, ram, r);
    assert kept[j] == r.segments[j] && kept[..j] == r.segments[..j];
    ReadIntoRam(disk, ram, r.pos, kept);
    GatherAt(ReadWhole(disk, ram, r.pos, kept), kept, j, i);
  }

  /** Byte i of the disk lies in the stretch of a write, as far as the write is kept. */
  predicate Written(size: nat, r: Request, i: nat) {
    r.write && 512 * r.pos <= i < 512 * (r.pos + Sectors(Kept(size, r)))
  }

  /** Byte a of memory lies in a buffer of a read, as far as the read is kept. */
  predicate Filled(size: nat, r: Request, a: nat) { !r.write && exists s <- Kept(size, r) :: Within(a, s) }

  /** A request leaves every other byte of the disk as it was. */
  lemma DiskStays(disk: seq<byte>, ram: Ram, r: Request, i: nat)
    requires i < |disk| && !Written(|disk|, r, i)
    ensures ServeSegments(disk, ram, r).0[i] == disk[i]
  {
    hide Gather, Scatter;
    SegmentsAreWhole(disk, ram, r);
  }

  /** And every other byte of memory. */
  lemma MemoryStays(disk: seq<byte>, ram: Ram, r: Request, a: nat)
    requires !Filled(|disk|, r, a)
    ensures ServeSegments(disk, ram, r).1(a) == ram(a)
  {
    hide ServeSegments;
    var kept := Kept(|disk|, r);
    if r.write {
      WritesAreWhole(disk, ram, r);
    } else {
      ReadsAreWhole(disk, ram, r);
      if kept != [] {
        ScatterFrame(ram, kept, disk[Size(r.pos)..Size(r.pos) + Size(Sectors(kept))], 0, a);
      }
    }
  }

  /** A whole queue leaves alone every byte of the disk that none of its writes and every byte of memory that none of
      its reads reaches. */
  lemma {:induction false} QueueLeavesAlone(disk: seq<byte>, ram: Ram, rs: seq<Request>, i: nat, a: nat)
    requires i < |disk|
    ensures (forall r <- rs :: !Written(|disk|, r, i)) ==> ServeAll(disk, ram, rs).0[i] == disk[i]
    ensures (forall r <- rs :: !Filled(|disk|, r, a)) ==> ServeAll(disk, ram, rs).1(a) == ram(a)
    decreases |rs|
  {
    hide Written, Filled, ServeWhole;
    if rs != [] {
      var r := rs[0];
      var (disk', ram') := ServeWhole(disk, ram, r);
      assert (disk', ram') == ServeSegments(disk, ram, r) by { SegmentsAreWhole(disk, ram, r); }
      if !Written(|disk|, r, i) { DiskStays(disk, ram, r, i); }
      if !Filled(|disk|, r, a) { MemoryStays(disk, ram, r, a); }
      QueueLeavesAlone(disk', ram', rs[1..], i, a);
      assert r in rs;
    }
  }

  /** Requests take effect in the order of the queue. */
  lemma {:induction false} QueueInOrder(disk: seq<byte>, ram: Ram, rs: seq<Request>, more: seq<Request>)
    ensures var (disk', ram') := ServeAll(disk, ram, rs);
            ServeAll(disk, ram, rs + more) == ServeAll(disk', ram', more)
    decreases |rs|
  {
    hide ServeWhole;
    if rs == [] {
      assert rs + more == more;
    } else {
      assert (rs + more)[1..] == rs[1..] + more;
      var (disk', ram') := ServeWhole(disk, ram, rs[0]);
      QueueInOrder(disk', ram', rs[1..], more);
    }
  }
}
