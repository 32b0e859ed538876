/** Files of the file server, as far as the agents use them. */
module FileHandle {
  import opened Errors
  type byte = x: int | 0 <= x < 256

  datatype SeekMode = SeekAddress | SeekStart | SeekCurrent | SeekEnd

  function Min(a: int, b: int): int {
    if a < b then a else b
  }

  function Clamp(low: int, x: int, high: int): (r: int)
    ensures low <= high ==> low <= r <= high
    ensures low <= x <= high ==> r == x
  {
    if x < low then low else if x > high then high else x
  }

  /** The bytes that a read of at most max at a position gives: fewer at the end, none beyond it. */
  function ReadAt(bytes: seq<byte>, pos: nat, max: nat): (r: seq<byte>)
    ensures |r| <= max
  {
    if pos >= |bytes| then [] else bytes[pos..Min(|bytes|, pos + max)]
  }

  /** What is left to read at a position. */
  function RestOf(bytes: seq<byte>, pos: nat): seq<byte> {
    if pos >= |bytes| then [] else bytes[pos..]
  }

  /** Reading takes the first of that and goes past it; it takes nothing exactly when nothing is left. */
  lemma ReadSplits(bytes: seq<byte>, pos: nat, max: nat)
    requires max > 0
    ensures var data := ReadAt(bytes, pos, max);
      && RestOf(bytes, pos) == data + RestOf(bytes, pos + |data|)
      && (data == [] <==> RestOf(bytes, pos) == [])
  {
  }

  /** Where a seek goes, and the error if it goes nowhere: positions before the start are refused
      when given outright and clamped when given relative to the current position or to the end,
      and so are those beyond the end. */
  function SeekTo(size: nat, pos: nat, mode: SeekMode, offset: int): (int, nat) {
    match mode
    case SeekAddress => (KErrNotSupported, pos)
    case SeekStart => if offset < 0 then (KErrArgument, pos) else (KErrNone, offset)
    case SeekCurrent => (KErrNone, Clamp(0, pos + offset, size))
    case SeekEnd => (KErrNone, Clamp(0, size + offset, size))
  }

  /** An open file with its own position. */
  class RFile {
    const bytes: seq<byte>
    var pos: nat

    constructor (bytes: seq<byte>)
      ensures this.bytes == bytes && pos == 0
    {
      this.bytes := bytes;
      pos := 0;
    }

    method Read(max: nat) returns (data: seq<byte>)
      modifies this`pos
      ensures data == ReadAt(bytes, old(pos), max) && pos == old(pos) + |data|
    {
      if pos >= |bytes| {
        data := [];
      } else {
        data := bytes[pos..Min(|bytes|, pos + max)];
      }
      pos := pos + |data|;
    }

    /** A read at a position of its own, which leaves the file's where it is. */
    method ReadFrom(start: int, max: nat) returns (err: int, data: seq<byte>)
      ensures err == if start < 0 then KErrArgument else KErrNone
      ensures data == if start < 0 then [] else ReadAt(bytes, start, max)
    {
      if start < 0 {
        return KErrArgument, [];
      }
      return KErrNone, ReadAt(bytes, start, max);
    }

    /** The new position is handed back for seeks relative to the current position or the end. */
    method Seek(mode: SeekMode, offset: int) returns (err: int, reached: int)
      modifies this`pos
      ensures (err, pos) == SeekTo(|bytes|, old(pos), mode, offset)
      ensures reached == if mode.SeekCurrent? || mode.SeekEnd? then pos else offset
    {
      err, reached := KErrNone, offset;
      match mode
      case SeekAddress =>
        err := KErrNotSupported;
      case SeekStart =>
        if offset < 0 {
          err := KErrArgument;
        } else {
          pos := offset;
        }
      case SeekCurrent =>
        pos := Clamp(0, pos + offset, |bytes|);
        reached := pos;
      case SeekEnd =>
        pos := Clamp(0, |bytes| + offset, |bytes|);
        reached := pos;
    }
  }
}
