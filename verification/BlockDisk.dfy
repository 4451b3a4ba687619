/** The RAM block device: requests served segment by segment against an array of
    bytes, and the flat disk that takes each request as a whole. */
module BlockDisk {
  import opened Bytes

  const EIO: int := 5

  /** Bytes in a number of sectors, for the default logical block size. */
  function Size(sectors: nat): nat { sectors * 512 }

  /** Main memory, byte by byte; buffers are ranges of it and may overlap. */
  type Ram = nat -> byte

  function Load(ram: Ram, buffer: nat, n: nat): (r: seq<byte>)
    ensures |r| == n
  {
    seq(n, (i: nat) => ram(buffer + i))
  }

  function Store(ram: Ram, buffer: nat, bytes: seq<byte>): Ram {
    (a: nat) => if buffer <= a < buffer + |bytes| then bytes[a - buffer] else ram(a)
  }

  datatype Segment = Segment(buffer: nat, sectors: nat)

  /** A request with the segments it still has to serve, the first at sector `pos`. */
  datatype Request = Request(id: nat, fs: bool, write: bool, pos: nat, segments: seq<Segment>)

  datatype Completion = Completion(id: nat, error: int)

  function Sectors(segments: seq<Segment>): nat {
    if segments == [] then 0 else segments[0].sectors + Sectors(segments[1..])
  }

  // ---- The flat disk

  function Patch(disk: seq<byte>, offset: nat, bytes: seq<byte>): (r: seq<byte>)
    requires offset + |bytes| <= |disk|
    ensures |r| == |disk|
  {
    disk[..offset] + bytes + disk[offset + |bytes|..]
  }

  function Gather(ram: Ram, segments: seq<Segment>): (r: seq<byte>)
    ensures |r| == Size(Sectors(segments))
  {
    if segments == [] then []
    else Load(ram, segments[0].buffer, Size(segments[0].sectors)) + Gather(ram, segments[1..])
  }

  /** Deals out the bytes from `at` on. */
  function Scatter(ram: Ram, segments: seq<Segment>, bytes: seq<byte>, at: nat): Ram
    requires at + Size(Sectors(segments)) <= |bytes|
    decreases |segments|
  {
    if segments == [] then ram
    else
      var end := at + Size(segments[0].sectors);
      Scatter(Store(ram, segments[0].buffer, bytes[at..end]), segments[1..], bytes, end)
  }

  /** How many segments, taken in order from sector `pos`, end on the disk. */
  function Fits(size: nat, pos: nat, segments: seq<Segment>): (k: nat)
    ensures k <= |segments|
    decreases |segments|
  {
    if segments == [] || Size(pos + segments[0].sectors) > size then 0
    else 1 + Fits(size, pos + segments[0].sectors, segments[1..])
  }

  lemma {:induction false} FitsIsLongest(size: nat, pos: nat, segments: seq<Segment>, k: nat)
    requires 0 < k <= |segments|
    ensures Size(pos + Sectors(segments[..k])) <= size <==> k <= Fits(size, pos, segments)
    decreases k
  {
    assert segments[..k][1..] == segments[1..][..k - 1];
    if k > 1 {
      FitsIsLongest(size, pos + segments[0].sectors, segments[1..], k - 1);
    }
  }

  predicate OnDisk(size: nat, pos: nat, segments: seq<Segment>) {
    segments == [] || Size(pos + Sectors(segments)) <= size
  }

  function WriteWhole(disk: seq<byte>, ram: Ram, pos: nat, segments: seq<Segment>): (r: seq<byte>)
    requires OnDisk(|disk|, pos, segments)
    ensures |r| == |disk|
  {
    if segments == [] then disk else Patch(disk, Size(pos), Gather(ram, segments))
  }

  function ReadWhole(disk: seq<byte>, ram: Ram, pos: nat, segments: seq<Segment>): Ram
    requires OnDisk(|disk|, pos, segments)
  {
    if segments == [] then ram else Scatter(ram, segments, disk[Size(pos)..Size(pos) + Size(Sectors(segments))], 0)
  }

  /** The longest prefix of a request's segments that fits. */
  function Kept(size: nat, r: Request): (kept: seq<Segment>)
    ensures kept <= r.segments && OnDisk(size, r.pos, kept)
  {
    var k := Fits(size, r.pos, r.segments);
    if k > 0 then FitsIsLongest(size, r.pos, r.segments, k); r.segments[..k] else []
  }

  /** A request served as a whole, in one go, as far as it fits. */
  function ServeWhole(disk: seq<byte>, ram: Ram, r: Request): (s: (seq<byte>, Ram))
    ensures |s.0| == |disk|
  {
    var kept := Kept(|disk|, r);
    if r.write then (WriteWhole(disk, ram, r.pos, kept), ram) else (disk, ReadWhole(disk, ram, r.pos, kept))
  }

  function ServeAll(disk: seq<byte>, ram: Ram, rs: seq<Request>): (s: (seq<byte>, Ram))
    ensures |s.0| == |disk|
    decreases |rs|
  {
    if rs == [] then (disk, ram)
    else
      var (disk', ram') := ServeWhole(disk, ram, rs[0]);
      ServeAll(disk', ram', rs[1..])
  }

  // ---- The driver, one segment at a time

  function Transfer(disk: seq<byte>, ram: Ram, pos: nat, s: Segment, write: bool): (r: (seq<byte>, Ram))
    ensures |r.0| == |disk|
  {
    var offset, n := Size(pos), Size(s.sectors);
    if offset + n > |disk| then (disk, ram)
    else if write then (Patch(disk, offset, Load(ram, s.buffer, n)), ram)
    else (disk, Store(ram, s.buffer, disk[offset..offset + n]))
  }

  function ServeSegments(disk: seq<byte>, ram: Ram, r: Request): (s: (seq<byte>, Ram))
    ensures |s.0| == |disk|
    decreases |r.segments|
  {
    if r.segments == [] then (disk, ram)
    else
      var (disk', ram') := Transfer(disk, ram, r.pos, r.segments[0], r.write);
      ServeSegments(disk', ram', Rest(r))
  }

  function Rest(r: Request): Request
    requires r.segments != []
  {
    r.(pos := r.pos + r.segments[0].sectors, segments := r.segments[1..])
  }

  lemma WriteFirst(disk: seq<byte>, ram: Ram, pos: nat, segments: seq<Segment>)
    requires segments != [] && OnDisk(|disk|, pos, segments)
    ensures var s := segments[0];
            var disk' := Patch(disk, Size(pos), Load(ram, s.buffer, Size(s.sectors)));
            WriteWhole(disk', ram, pos + s.sectors, segments[1..]) == WriteWhole(disk, ram, pos, segments)
  {
    var s, rest := segments[0], Gather(ram, segments[1..]);
    var first, at := Load(ram, s.buffer, Size(s.sectors)), Size(pos);
    var disk' := Patch(disk, at, first);
    if segments[1..] == [] {
      assert first + rest == first;
    } else {
      assert Patch(disk', at + |first|, rest) == Patch(disk, at, first + rest);
    }
  }

  /** Past the end nothing more happens. */
  lemma {:induction false} ServeNothing(disk: seq<byte>, ram: Ram, r: Request)
    requires Size(r.pos) > |disk|
    ensures ServeSegments(disk, ram, r) == (disk, ram)
    decreases |r.segments|
  {
    if r.segments != [] {
      ServeNothing(disk, ram, Rest(r));
    }
  }

  lemma KeptRest(size: nat, r: Request)
    requires Kept(size, r) != []
    ensures Size(r.pos) + Size(r.segments[0].sectors) <= size
    ensures Kept(size, Rest(r)) == Kept(size, r)[1..]
  {
    var k := Fits(size, r.pos, r.segments);
    assert r.segments[..k][1..] == r.segments[1..][..k - 1];
    assert Fits(size, Rest(r).pos, Rest(r).segments) == k - 1;
  }

  /** When no segment fits, serving them does nothing. */
  lemma NothingKept(disk: seq<byte>, ram: Ram, r: Request)
    requires Kept(|disk|, r) == []
    ensures ServeSegments(disk, ram, r) == (disk, ram)
  {
    if r.segments != [] { ServeNothing(disk, ram, Rest(r)); }
  }

  lemma {:induction false} WritesAreWhole(disk: seq<byte>, ram: Ram, r: Request)
    requires r.write
    ensures ServeSegments(disk, ram, r) == (WriteWhole(disk, ram, r.pos, Kept(|disk|, r)), ram)
    decreases |r.segments|
  {
    var kept := Kept(|disk|, r);
    if kept == [] {
      NothingKept(disk, ram, r);
    } else {
      KeptRest(|disk|, r);
      WritesAreWhole(Transfer(disk, ram, r.pos, r.segments[0], true).0, ram, Rest(r));
      WriteFirst(disk, ram, r.pos, kept);
    }
  }

  lemma SameSlice(disk: seq<byte>, offset: nat, bytes: seq<byte>, at: nat, n: nat)
    requires at + n <= |bytes| && offset + |bytes| - at <= |disk|
    requires forall i :: at <= i < |bytes| ==> bytes[i] == disk[offset + (i - at)]
    ensures bytes[at..at + n] == disk[offset..offset + n]
  {
    var part, slice := bytes[at..at + n], disk[offset..offset + n];
    forall i | 0 <= i < n ensures part[i] == slice[i] { assert bytes[at + i] == disk[offset + i]; }
  }

  lemma ServeFirst(disk: seq<byte>, ram: Ram, r: Request)
    requires r.segments != []
    ensures var (disk', ram') := Transfer(disk, ram, r.pos, r.segments[0], r.write);
            ServeSegments(disk, ram, r) == ServeSegments(disk', ram', Rest(r))
  {
    hide Transfer, Rest;
  }

  lemma ReadFirst(disk: seq<byte>, ram: Ram, r: Request, part: seq<byte>)
    requires !r.write && r.segments != [] && Size(r.pos) + Size(r.segments[0].sectors) <= |disk|
    requires part == disk[Size(r.pos)..Size(r.pos) + Size(r.segments[0].sectors)]
    ensures ServeSegments(disk, ram, r) == ServeSegments(disk, Store(ram, r.segments[0].buffer, part), Rest(r))
  {
    hide ServeSegments, Store, Rest;
    ServeFirst(disk, ram, r);
    assert Transfer(disk, ram, r.pos, r.segments[0], false) == (disk, Store(ram, r.segments[0].buffer, part));
  }

  lemma ScatterNothing(ram: Ram, bytes: seq<byte>, at: nat)
    requires at <= |bytes|
    ensures Scatter(ram, [], bytes, at) == ram
  {
  }

  lemma ScatterFirst(ram: Ram, segments: seq<Segment>, bytes: seq<byte>, at: nat, end: nat)
    requires segments != [] && end == at + Size(segments[0].sectors) && at + Size(Sectors(segments)) <= |bytes|
    ensures end <= |bytes|
    ensures Scatter(ram, segments, bytes, at)
            == Scatter(Store(ram, segments[0].buffer, bytes[at..end]), segments[1..], bytes, end)
  {
  }

  /** The segments still to be read take the rest of one slice of the disk, from `at` on. */
  lemma {:induction false} ReadsTakeSlice(disk: seq<byte>, ram: Ram, r: Request, bytes: seq<byte>, at: nat)
    requires !r.write && Size(r.pos) + |bytes| - at <= |disk|
    requires at + Size(Sectors(Kept(|disk|, r))) == |bytes|
    requires forall i :: at <= i < |bytes| ==> bytes[i] == disk[Size(r.pos) + (i - at)]
    ensures ServeSegments(disk, ram, r) == (disk, Scatter(ram, Kept(|disk|, r), bytes, at))
    decreases |r.segments|
  {
    hide ServeSegments, Scatter, Store;
    var kept := Kept(|disk|, r);
    if kept == [] {
      NothingKept(disk, ram, r);
      ScatterNothing(ram, bytes, at);
    } else {
      var s, end := r.segments[0], at + Size(r.segments[0].sectors);
      assert Size(r.pos) + Size(s.sectors) <= |disk| && Kept(|disk|, Rest(r)) == kept[1..] by { KeptRest(|disk|, r); }
      assert kept[0] == s;
      ScatterFirst(ram, kept, bytes, at, end);
      SameSlice(disk, Size(r.pos), bytes, at, Size(s.sectors));
      ReadFirst(disk, ram, r, bytes[at..end]);
      ReadsTakeSlice(disk, Store(ram, s.buffer, bytes[at..end]), Rest(r), bytes, end);
    }
  }

  /** One request: serving its segments one after another is serving it whole. */
  lemma SegmentsAreWhole(disk: seq<byte>, ram: Ram, r: Request)
    ensures ServeSegments(disk, ram, r) == ServeWhole(disk, ram, r)
  {
    var kept := Kept(|disk|, r);
    if r.write {
      WritesAreWhole(disk, ram, r);
    } else if kept != [] {
      ReadsTakeSlice(disk, ram, r, disk[Size(r.pos)..Size(r.pos) + Size(Sectors(kept))], 0);
      assert ReadWhole(disk, ram, r.pos, kept)
          == Scatter(ram, kept, disk[Size(r.pos)..Size(r.pos) + Size(Sectors(kept))], 0);
      assert ServeSegments(disk, ram, r) == (disk, ReadWhole(disk, ram, r.pos, kept));
    } else {
      NothingKept(disk, ram, r);
    }
  }

  lemma ReadsAreWhole(disk: seq<byte>, ram: Ram, r: Request)
    requires !r.write
    ensures ServeSegments(disk, ram, r).1 == ReadWhole(disk, ram, r.pos, Kept(|disk|, r))
  {
    SegmentsAreWhole(disk, ram, r);
  }
}
