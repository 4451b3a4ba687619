/** The request loop of the block driver. */
module BlockDriver {
  import opened Bytes
  import opened Sequences
  import opened Options
  import opened BlockDisk

  /** Everything the loop touches: disk, memory, requests still queued, the one in hand, and those ended. */
  datatype Loop = Loop(disk: seq<byte>, ram: Ram, waiting: seq<Request>, active: Option<Request>,
                       ended: seq<Completion>)

  function Fetch(l: Loop): Loop {
    if l.waiting == [] then l.(active := None) else l.(waiting := l.waiting[1..], active := Some(l.waiting[0]))
  }

  /** One round. A request that is not a file-system request is ended, but stays in hand: the loop goes on
      without fetching another. */
  function Step(l: Loop): Loop
    requires l.active.Some?
  {
    var r := l.active.value;
    if !r.fs then l.(ended := l.ended + [Completion(r.id, -EIO)])
    else if |r.segments| <= 1 then
      var (disk, ram) :=
        if r.segments == [] then (l.disk, l.ram) else Transfer(l.disk, l.ram, r.pos, r.segments[0], r.write);
      Fetch(l.(disk := disk, ram := ram, ended := l.ended + [Completion(r.id, 0)]))
    else
      var (disk, ram) := Transfer(l.disk, l.ram, r.pos, r.segments[0], r.write);
      l.(disk := disk, ram := ram, active := Some(Rest(r)))
  }

  function Queue(l: Loop): seq<Request> { (if l.active.Some? then [l.active.value] else []) + l.waiting }

  predicate AllFs(rs: seq<Request>) { forall r <- rs :: r.fs }

  function Completions(rs: seq<Request>): seq<Completion> {
    if rs == [] then [] else [Completion(rs[0].id, 0)] + Completions(rs[1..])
  }

  /** The state the loop must end in: every queued request served whole and in order, and completed once. */
  function Outcome(l: Loop): Loop
  {
    var (disk, ram) := ServeAll(l.disk, l.ram, Queue(l));
    Loop(disk, ram, [], None, l.ended + Completions(Queue(l)))
  }

  /** Requests left, then segments left in the one in hand. */
  function Work(rs: seq<Request>): nat {
    if rs == [] then 0 else 1 + |rs[0].segments| + Work(rs[1..])
  }

  lemma FetchTakesNext(l: Loop)
    ensures Queue(Fetch(l)) == l.waiting && (Fetch(l).active.None? ==> l.waiting == [])
  {
  }

  lemma LastSegmentKeepsOutcome(l: Loop)
    requires l.active.Some? && l.active.value.fs && |l.active.value.segments| <= 1
    ensures Outcome(Step(l)) == Outcome(l)
  {
    var r, next := l.active.value, Step(l);
    FetchTakesNext(l);
    assert Queue(l) == [r] + l.waiting && Queue(l)[1..] == l.waiting;
    SegmentsAreWhole(l.disk, l.ram, r);
    assert (next.disk, next.ram) == ServeSegments(l.disk, l.ram, r);
    Assoc(l.ended, [Completion(r.id, 0)], Completions(l.waiting));
  }

  lemma OtherSegmentKeepsOutcome(l: Loop)
    requires l.active.Some? && l.active.value.fs && |l.active.value.segments| > 1
    ensures Outcome(Step(l)) == Outcome(l)
  {
    var r, next := l.active.value, Step(l);
    assert Queue(l) == [r] + l.waiting && Queue(l)[1..] == l.waiting;
    assert Queue(next) == [Rest(r)] + l.waiting && Queue(next)[1..] == l.waiting;
    SegmentsAreWhole(l.disk, l.ram, r);
    SegmentsAreWhole(next.disk, next.ram, Rest(r));
  }

  /** A round on a file-system request changes nothing about where the loop is heading, and leaves less to do. */
  lemma StepKeepsOutcome(l: Loop)
    requires l.active.Some? && l.active.value.fs
    ensures Outcome(Step(l)) == Outcome(l)
  {
    if |l.active.value.segments| <= 1 { LastSegmentKeepsOutcome(l); } else { OtherSegmentKeepsOutcome(l); }
  }

  lemma StepAdvances(l: Loop)
    requires l.active.Some? && AllFs(Queue(l))
    ensures l.active.value.fs && Outcome(Step(l)) == Outcome(l)
    ensures AllFs(Queue(Step(l))) && (Step(l).active.None? ==> Step(l).waiting == [])
    ensures Work(Queue(Step(l))) < Work(Queue(l))
  {
    var r, next := l.active.value, Step(l);
    FetchTakesNext(l);
    assert Queue(l) == [r] + l.waiting && Queue(l)[1..] == l.waiting;
    assert Queue(l)[0].fs && forall x <- l.waiting :: x in Queue(l);
    StepKeepsOutcome(l);
    if |r.segments| <= 1 {
      assert Queue(next) == l.waiting;
    } else {
      assert Queue(next) == [Rest(r)] + l.waiting && Queue(next)[1..] == l.waiting;
    }
  }

  // ---- Whole runs

  function Iterate(l: Loop, n: nat): (r: Loop)
    decreases n
  {
    if n == 0 || l.active.None? then l
    else Iterate(Step(l), n - 1)
  }

  ghost predicate Halts(l: Loop) { exists n: nat :: Iterate(l, n).active.None? }

  lemma {:induction false} FsRunStops(l: Loop, n: nat)
    requires AllFs(Queue(l)) && n >= Work(Queue(l))
    requires l.active.None? ==> l.waiting == []
    ensures Iterate(l, n).active.None? && Iterate(l, n).waiting == []
    decreases n
  {
    if l.active.Some? {
      var next := Step(l);
      assert AllFs(Queue(next)) && Work(Queue(next)) <= n - 1 && (next.active.None? ==> next.waiting == []) by {
        StepAdvances(l);
      }
      FsRunStops(next, n - 1);
    }
  }

  lemma {:induction false} FsRunKeepsOutcome(l: Loop, n: nat)
    requires AllFs(Queue(l))
    ensures Outcome(Iterate(l, n)) == Outcome(l)
    decreases n
  {
    if n > 0 && l.active.Some? {
      StepAdvances(l);
      FsRunKeepsOutcome(Step(l), n - 1);
    }
  }

  lemma NothingLeft(l: Loop)
    requires l.active.None? && l.waiting == []
    ensures Outcome(l) == l
  {
    assert Queue(l) == [];
  }

  lemma {:induction false} OtherRunGoesOn(l: Loop, n: nat)
    requires !AllFs(Queue(l)) && l.active.Some?
    ensures Iterate(l, n).active.Some?
    decreases n
  {
    if n > 0 {
      var bad :| bad in Queue(l) && !bad.fs;
      assert bad == l.active.value || bad in l.waiting;
      var next := Step(l);
      assert bad in Queue(next) by {
        if l.active.value.fs && |l.active.value.segments| <= 1 { assert Queue(next) == l.waiting; }
      }
      OtherRunGoesOn(next, n - 1);
    }
  }

  /** One completion, without error, for each request, in the order of the queue. */
  lemma {:induction false} CompletionsAt(rs: seq<Request>, i: nat)
    requires i < |rs|
    ensures |Completions(rs)| == |rs| && Completions(rs)[i] == Completion(rs[i].id, 0)
  {
    if |rs| > 1 { CompletionsAt(rs[1..], if i > 0 then i - 1 else 0); }
  }

  /** A request of another kind in hand is ended with -EIO round after round, and nothing else ever changes. */
  lemma {:induction false} OtherRequestSpins(l: Loop, n: nat)
    requires l.active.Some? && !l.active.value.fs
    ensures Iterate(l, n) == l.(ended := l.ended + seq(n, _ => Completion(l.active.value.id, -5)))
    decreases n
  {
    var last := Completion(l.active.value.id, -5);
    if n > 0 {
      OtherRequestSpins(Step(l), n - 1);
      assert l.ended + [last] + seq(n - 1, _ => last) == l.ended + seq(n, _ => last);
    } else {
      assert l.ended + seq(0, _ => last) == l.ended;
    }
  }

  /** The loop ends exactly when every request it meets is a file-system request, and then with every request
      served whole, in order, and completed once. */
  lemma HaltsExactlyOnFsRequests(l: Loop)
    requires (l.active.None? ==> l.waiting == [])
    ensures Halts(l) <==> AllFs(Queue(l))
    ensures AllFs(Queue(l)) ==> exists n: nat :: Iterate(l, n) == Outcome(l)
  {
    if AllFs(Queue(l)) {
      var n := Work(Queue(l));
      FsRunStops(l, n);
      FsRunKeepsOutcome(l, n);
      NothingLeft(Iterate(l, n));
    } else {
      forall n: nat ensures Iterate(l, n).active.Some? { OtherRunGoesOn(l, n); }
    }
  }

  // ---- The driver's own form

  class Device {
    const data: array<byte>

    constructor (size: nat)
      ensures data.Length == size && fresh(data)
    {
      data := new byte[size](_ => 0);
    }
  }

  class Memory {
    var bytes: Ram
  }

  class RequestQueue {
    var waiting: seq<Request>
    var ended: seq<Completion>

    method BlkFetchRequest() returns (r: Option<Request>)
      modifies this
      ensures ended == old(ended)
      ensures if old(waiting) == [] then r == None && waiting == []
              else r == Some(old(waiting)[0]) && waiting == old(waiting)[1..]
    {
      if waiting == [] { return None; }
      r := Some(waiting[0]);
      waiting := waiting[1..];
    }

    /** Ends the current segment; tells whether the request has more. */
    method BlkEndRequestCur(r: Request, error: int) returns (more: bool, rest: Request)
      modifies this`ended
      ensures more == (|r.segments| > 1)
      ensures if more then rest == Rest(r) && ended == old(ended) else ended == old(ended) + [Completion(r.id, error)]
    {
      rest := r;
      if |r.segments| > 1 {
        more, rest := true, Rest(r);
      } else {
        more, ended := false, ended + [Completion(r.id, error)];
      }
    }

    method BlkEndRequestAll(r: Request, error: int)
      modifies this`ended
      ensures ended == old(ended) + [Completion(r.id, error)]
    {
      ended := ended + [Completion(r.id, error)];
    }
  }

  ghost function Now(dev: Device, mem: Memory, q: RequestQueue, req: Option<Request>): Loop
    reads dev.data, mem, q
  {
    Loop(dev.data[..], mem.bytes, q.waiting, req, q.ended)
  }

  /** `unsigned long` holds every byte address a request reaches. */
  predicate NoOverflow(r: Request) { Size(r.pos + Sectors(r.segments)) < 0x1_0000_0000_0000_0000 }

  lemma StepKeepsRange(l: Loop)
    requires l.active.Some? && l.active.value.fs
    requires forall r <- Queue(l) :: NoOverflow(r)
    ensures forall r <- Queue(Step(l)) :: NoOverflow(r)
  {
    var r, next := l.active.value, Step(l);
    FetchTakesNext(l);
    assert Queue(l)[0] == r && forall x <- l.waiting :: x in Queue(l);
    if |r.segments| <= 1 {
      assert Queue(next) == l.waiting;
    } else {
      assert Queue(next) == [Rest(r)] + l.waiting;
      assert NoOverflow(r) && Rest(r).pos + Sectors(Rest(r).segments) == r.pos + Sectors(r.segments);
      forall x <- Queue(next) ensures NoOverflow(x) { assert x == Rest(r) || x in l.waiting; }
    }
  }

  method SbdTransfer(dev: Device, sector: nat, nsect: nat, buffer: nat, write: bool, mem: Memory)
    requires Size(sector + nsect) < 0x1_0000_0000_0000_0000
    modifies dev.data, mem
    ensures (dev.data[..], mem.bytes)
            == Transfer(old(dev.data[..]), old(mem.bytes), sector, Segment(buffer, nsect), write)
  {
    var offset, nbytes := sector * 512, nsect * 512;
    if offset + nbytes > dev.data.Length {
      return;
    }
    if write {
      var from := Load(mem.bytes, buffer, nbytes);
      forall i | 0 <= i < nbytes {
        dev.data[offset + i] := from[i];
      }
      assert dev.data[..] == Patch(old(dev.data[..]), offset, from);
    } else {
      mem.bytes := Store(mem.bytes, buffer, dev.data[offset..offset + nbytes]);
      assert dev.data[..][offset..offset + nbytes] == dev.data[offset..offset + nbytes];
    }
  }

  /** One round of the loop. */
  method ServeOne(dev: Device, mem: Memory, q: RequestQueue, req: Request) returns (next: Option<Request>)
    requires req.fs ==> NoOverflow(req)
    modifies dev.data, mem, q
    ensures Now(dev, mem, q, next) == Step(old(Now(dev, mem, q, Some(req))))
  {
    if !req.fs {
      q.BlkEndRequestAll(req, -EIO);
      return Some(req);
    }
    if |req.segments| > 0 {
      var s := req.segments[0];
      SbdTransfer(dev, req.pos, s.sectors, s.buffer, req.write, mem);
    }
    var more, rest := q.BlkEndRequestCur(req, 0);
    if more {
      next := Some(rest);
    } else {
      next := q.BlkFetchRequest();
    }
  }

  /** Serves the whole queue: disk, memory and completions are those of the flat disk. */
  method SbdRequest(dev: Device, mem: Memory, q: RequestQueue)
    requires AllFs(q.waiting)
    requires forall r <- q.waiting :: NoOverflow(r)
    modifies dev.data, mem, q
    ensures (dev.data[..], mem.bytes) == ServeAll(old(dev.data[..]), old(mem.bytes), old(q.waiting))
    ensures q.waiting == [] && q.ended == old(q.ended) + Completions(old(q.waiting))
  {
    ghost var start := Now(dev, mem, q, None);
    FetchTakesNext(start);
    assert Queue(start) == q.waiting == Queue(Fetch(start));
    ghost var goal := Outcome(start);
    var req := q.BlkFetchRequest();
    while req.Some?
      invariant AllFs(Queue(Now(dev, mem, q, req)))
      invariant req.None? ==> q.waiting == []
      invariant forall r <- Queue(Now(dev, mem, q, req)) :: NoOverflow(r)
      invariant Outcome(Now(dev, mem, q, req)) == goal
      decreases Work(Queue(Now(dev, mem, q, req)))
    {
      ghost var before := Now(dev, mem, q, req);
      StepAdvances(before);
      StepKeepsRange(before);
      req := ServeOne(dev, mem, q, req.value);
    }
  }

  // ---- What a user of the disk sees

  predicate Within(a: nat, s: Segment) { s.buffer <= a < s.buffer + Size(s.sectors) }

  /** No two of the buffers share a byte. */
  ghost predicate Apart(segments: seq<Segment>) {
    forall i, j, a: nat :: 0 <= i < j < |segments| && Within(a, segments[i]) ==> !Within(a, segments[j])
  }

  lemma {:induction false} ScatterFrame(ram: Ram, segments: seq<Segment>, bytes: seq<byte>, at: nat, a: nat)
    requires at + Size(Sectors(segments)) <= |bytes| && forall s <- segments :: !Within(a, s)
    ensures Scatter(ram, segments, bytes, at)(a) == ram(a)
    decreases |segments|
  {
    if segments != [] {
      var s, end := segments[0], at + Size(segments[0].sectors);
      assert !Within(a, s);
      ScatterFrame(Store(ram, s.buffer, bytes[at..end]), segments[1..], bytes, end, a);
    }
  }

  lemma {:induction false} GatherScattered(ram: Ram, segments: seq<Segment>, bytes: seq<byte>, at: nat)
    requires at + Size(Sectors(segments)) == |bytes| && Apart(segments)
    ensures Gather(Scatter(ram, segments, bytes, at), segments) == bytes[at..]
    decreases |segments|
  {
    if segments != [] {
      var s, end := segments[0], at + Size(segments[0].sectors);
      var ram' := Store(ram, s.buffer, bytes[at..end]);
      var last := Scatter(ram', segments[1..], bytes, end);
      GatherScattered(ram', segments[1..], bytes, end);
      var here := Load(last, s.buffer, Size(s.sectors));
      forall i | 0 <= i < Size(s.sectors) ensures here[i] == bytes[at..end][i] {
        assert Within(s.buffer + i, s);
        ScatterFrame(ram', segments[1..], bytes, end, s.buffer + i);
      }
      assert here == bytes[at..end];
      assert bytes[at..end] + bytes[end..] == bytes[at..];
    }
  }

  lemma FittingRequestIsKept(size: nat, r: Request)
    requires Size(r.pos + Sectors(r.segments)) <= size
    ensures Kept(size, r) == r.segments
  {
    if r.segments != [] {
      assert r.segments[..|r.segments|] == r.segments;
      FitsIsLongest(size, r.pos, r.segments, |r.segments|);
    }
  }

  lemma WrittenOnDisk(disk: seq<byte>, ram: Ram, pos: nat, segments: seq<Segment>)
    requires Size(pos) + Size(Sectors(segments)) <= |disk|
    ensures WriteWhole(disk, ram, pos, segments)[Size(pos)..Size(pos) + Size(Sectors(segments))]
            == Gather(ram, segments)
  {
  }

  lemma ReadIntoRam(disk: seq<byte>, ram: Ram, pos: nat, segments: seq<Segment>)
    requires Size(pos) + Size(Sectors(segments)) <= |disk| && Apart(segments)
    ensures Gather(ReadWhole(disk, ram, pos, segments), segments)
            == disk[Size(pos)..Size(pos) + Size(Sectors(segments))]
  {
    GatherScattered(ram, segments, disk[Size(pos)..Size(pos) + Size(Sectors(segments))], 0);
  }

  /** What one request writes, another reads back, however either is cut into segments: of requests that overrun
      the end what was kept, as far as both go. */
  lemma ReadBack(disk: seq<byte>, ram: Ram, w: Request, r: Request)
    requires w.write && !r.write && w.pos == r.pos && Apart(Kept(|disk|, r))
    ensures var (disk', ram') := ServeSegments(disk, ram, w);
            var put, got := Gather(ram, Kept(|disk|, w)), Gather(ServeSegments(disk', ram', r).1, Kept(|disk|, r));
            forall i :: 0 <= i < |put| && i < |got| ==> got[i] == put[i]
  {
    hide ServeSegments, WriteWhole, ReadWhole, Gather, Kept;
    var puts, gets := Kept(|disk|, w), Kept(|disk|, r);
    var disk' := WriteWhole(disk, ram, w.pos, puts);
    WritesAreWhole(disk, ram, w);
    ReadsAreWhole(disk', ram, r);
    if puts != [] && gets != [] {
      ReadIntoRam(disk', ram, r.pos, gets);
      WrittenOnDisk(disk, ram, w.pos, puts);
      SlicesAgree(disk', Size(w.pos), Gather(ram, puts), Gather(ReadWhole(disk', ram, r.pos, gets), gets));
    }
  }

  lemma SlicesAgree(disk: seq<byte>, at: nat, a: seq<byte>, b: seq<byte>)
    requires at + |a| <= |disk| && at + |b| <= |disk|
    requires a == disk[at..at + |a|] && b == disk[at..at + |b|]
    ensures forall i :: 0 <= i < |a| && i < |b| ==> b[i] == a[i]
  {
    forall i | 0 <= i < |a| && i < |b| ensures b[i] == a[i] {
      assert a[i] == disk[at + i] && b[i] == disk[at + i];
    }
  }
}
