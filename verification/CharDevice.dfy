/** What the two character devices have in common: one fixed buffer, and a position for each open file. */
module CharDevice {
  import opened Bytes
  import opened FixedFile

  /** A 64-bit file offset. */
  type loff = x: int | -0x8000_0000_0000_0000 <= x < 0x8000_0000_0000_0000

  class Device {
    const kbuf: array<byte>

    /** Ten pages. */
    constructor (pageSize: nat)
      requires 0 < pageSize <= 65536
      ensures kbuf.Length == 10 * pageSize && fresh(kbuf)
    {
      kbuf := new byte[10 * pageSize](_ => 0);
    }
  }

  class OpenFile {
    const minor: nat
    var pos: loff
  }

  ghost predicate Ok(dev: Device, file: OpenFile)
    reads file
  {
    0 < dev.kbuf.Length < 0x8000_0000 && 0 <= file.pos <= dev.kbuf.Length
  }

  ghost function Now(dev: Device, file: OpenFile): File
    requires Ok(dev, file)
    reads dev.kbuf, file
  {
    File(dev.kbuf[..], file.pos)
  }
}
