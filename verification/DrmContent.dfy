/** The content of a protected file, seen as a plain file that holds the data alone. */
module DrmContent {
  import opened Errors
  import opened FileHandle
  import opened DrmHeader
  import opened Options

  // ---------- calls, and what they answer ----------

  datatype Call =
    | Read(length: nat)
    | ReadFrom(start: int, length: nat)
    | Seek(mode: SeekMode, offset: int)
    | DataSize

  /** The error, the bytes for a read, and the number a seek or a size hands back. */
  datatype Answer = Answer(err: int, data: seq<byte>, number: int)

  /** A read that gives its own position, which must not be negative, and leaves the file's alone. */
  function ReadFromAt(bytes: seq<byte>, start: int, length: nat): Answer {
    if start < 0 then Answer(KErrArgument, [], 0) else Answer(KErrNone, ReadAt(bytes, start, length), 0)
  }

  /** The plain file. */
  function PlainCall(bytes: seq<byte>, pos: nat, call: Call): (Answer, nat) {
    match call
    case Read(length) =>
      var data := ReadAt(bytes, pos, length);
      (Answer(KErrNone, data, 0), pos + |data|)
    case ReadFrom(start, length) => (ReadFromAt(bytes, start, length), pos)
    case Seek(mode, offset) =>
      var (err, to) := SeekTo(|bytes|, pos, mode, offset);
      (Answer(err, [], if mode.SeekCurrent? || mode.SeekEnd? then to else offset), to)
    case DataSize => (Answer(KErrNone, [], |bytes|), pos)
  }

  /** The data inside a file: from the end of the header, as long as the header says. */
  datatype View = View(dataOffset: nat, dataSize: int)

  /** A seek in the view, given in terms of the file's own positions. */
  function ViewSeek(v: View, fileSize: nat, pos: nat, mode: SeekMode, offset: int): (int, nat, int) {
    match mode
    case SeekAddress =>
      if offset > v.dataSize || offset < 0 then (KErrArgument, pos, offset)
      else (KErrNotSupported, pos, v.dataOffset + offset)
    case SeekStart =>
      var inside := if offset > v.dataSize then v.dataSize else offset;
      if inside < 0 then (KErrArgument, pos, inside) else (KErrNone, v.dataOffset + inside, inside)
    case SeekCurrent =>
      var to := Clamp(0, pos + offset, fileSize);
      if to < v.dataOffset then (KErrNone, v.dataOffset, 0) else (KErrNone, to, to - v.dataOffset)
    case SeekEnd =>
      var to := Clamp(0, fileSize + if offset < -v.dataSize then -v.dataSize else offset, fileSize);
      (KErrNone, to, to - v.dataOffset)
  }

  function ViewCall(v: View, file: seq<byte>, pos: nat, call: Call): (Answer, nat) {
    match call
    case Read(length) =>
      var data := ReadAt(file, pos, length);
      (Answer(KErrNone, data, 0), pos + |data|)
    case ReadFrom(start, length) => (ReadFromAt(file, start + v.dataOffset, length), pos)
    case Seek(mode, offset) =>
      var (err, to, reached) := ViewSeek(v, |file|, pos, mode, offset);
      (Answer(err, [], reached), to)
    case DataSize => (Answer(KErrNone, [], v.dataSize), pos)
  }

  // ---------- the two objects ----------

  lemma ReadInRest(bytes: seq<byte>, pos: nat, at: nat, max: nat)
    ensures ReadAt(bytes, pos + at, max) == ReadAt(RestOf(bytes, pos), at, max)
  {
    var rest := RestOf(bytes, pos);
    if at < |rest| {
      var end := Min(|rest|, at + max);
      assert rest[at..end] == bytes[pos + at..pos + end];
    }
  }

  /** What the four reads of a header come to, each from where the one before ended. */
  function HeaderAt(bytes: seq<byte>, pos: nat): Option<Header> {
    var length := ReadAt(bytes, pos, 1);
    if length == [] then None
    else
      var mimeType := ReadAt(bytes, pos + 1, length[0]);
      var flag := ReadAt(bytes, pos + 1 + |mimeType|, 1);
      var size := ReadAt(bytes, pos + 1 + |mimeType| + |flag|, 4);
      if |size| < 4 || flag == [] then None else Some(Header(mimeType, flag[0], Signed(Word(size))))
  }

  /** With the four bytes of the size there the rest is, too. */
  lemma SizeLast(bytes: seq<byte>, pos: nat)
    requires ReadAt(bytes, pos, 1) != []
    ensures var n: nat := ReadAt(bytes, pos, 1)[0];
      var mimeType := ReadAt(bytes, pos + 1, n);
      var flag := ReadAt(bytes, pos + 1 + |mimeType|, 1);
      |ReadAt(bytes, pos + 1 + |mimeType| + |flag|, 4)| == 4 ==> |flag| == 1 && |mimeType| == n
  {
  }

  lemma HeaderAtStart(file: seq<byte>)
    ensures HeaderAt(file, 0) == Parse(file)
  {
    if file != [] && |file| >= 6 + file[0] as int {
      var n: nat := file[0];
      assert ReadAt(file, 1, n) == file[1..1 + n];
      assert ReadAt(file, 1 + n, 1) == [file[1 + n]];
      assert ReadAt(file, 2 + n, 4) == file[2 + n..6 + n];
    } else if file != [] {
      SizeLast(file, 0);
    }
  }

  lemma HeaderReads(bytes: seq<byte>, pos: nat)
    ensures HeaderAt(bytes, pos) == Parse(RestOf(bytes, pos))
  {
    hide ReadAt, RestOf, Parse, Signed, Word;
    var rest := RestOf(bytes, pos);
    ReadInRest(bytes, pos, 0, 1);
    HeaderAtStart(rest);
    var length := ReadAt(bytes, pos, 1);
    if length != [] {
      var n: nat := length[0];
      ReadInRest(bytes, pos, 1, n);
      var mimeType := ReadAt(bytes, pos + 1, n);
      ReadInRest(bytes, pos, 1 + |mimeType|, 1);
      var flag := ReadAt(bytes, pos + 1 + |mimeType|, 1);
      ReadInRest(bytes, pos, 1 + |mimeType| + |flag|, 4);
    }
  }

  /** A file without protection, passed straight through. */
  class TestAgentFile {
    const file: RFile

    constructor (file: RFile)
      ensures this.file == file
    {
      this.file := file;
    }

    method Read(length: nat) returns (data: seq<byte>)
      modifies file
      ensures (Answer(KErrNone, data, 0), file.pos) == PlainCall(file.bytes, old(file.pos), Call.Read(length))
    {
      data := file.Read(length);
    }

    method ReadFrom(start: int, length: nat) returns (err: int, data: seq<byte>)
      ensures (Answer(err, data, 0), file.pos) == PlainCall(file.bytes, file.pos, Call.ReadFrom(start, length))
    {
      err, data := file.ReadFrom(start, length);
    }

    method Seek(mode: SeekMode, offset: int) returns (err: int, reached: int)
      modifies file
      ensures (Answer(err, [], reached), file.pos) == PlainCall(file.bytes, old(file.pos), Call.Seek(mode, offset))
    {
      err, reached := file.Seek(mode, offset);
    }

    method DataSizeL() returns (size: int)
      ensures (Answer(KErrNone, [], size), file.pos) == PlainCall(file.bytes, file.pos, DataSize)
    {
      size := |file.bytes|;
    }
  }

  class TestAgentDrmContent {
    const file: RFile
    const contentMimeType: seq<byte>
    const dataOffset: nat
    const dataSize: int

    constructor (file: RFile, mimeType: seq<byte>, dataOffset: nat, dataSize: int)
      ensures this.file == file && contentMimeType == mimeType
      ensures this.dataOffset == dataOffset && this.dataSize == dataSize
    {
      this.file, contentMimeType, this.dataOffset, this.dataSize := file, mimeType, dataOffset, dataSize;
    }

    /** Reads the header from where the file stands; too short a rest stops the thread. Then it goes to
        the start of the data, which it takes to follow a header at the start of the file. A size that
        is negative as a signed number leaves it after the header it read. */
    static method NewL(file: RFile) returns (it: TestAgentDrmContent?)
      modifies file
      ensures it == null <==> Parse(RestOf(file.bytes, old(file.pos))).None?
      ensures it != null ==>
        var h := Parse(RestOf(file.bytes, old(file.pos))).value;
        && fresh(it) && it.file == file && it.contentMimeType == h.mimeType
        && it.dataSize == h.dataSize && it.dataOffset == HeaderLength(h.mimeType)
        && file.pos == if h.dataSize >= 0 then it.dataOffset else old(file.pos) + it.dataOffset
    {
      hide Parse, RestOf, Signed, Word;
      HeaderReads(file.bytes, file.pos);
      var mimeType, size;
      it, mimeType, size := null, [], 0;
      var ok;
      ok, mimeType, size := ReadFields(file);
      if !ok {
        return null;
      }
      it := new TestAgentDrmContent(file, mimeType, 1 + 1 + 4 + |mimeType|, size);
      var err, reached := it.Seek(SeekStart, 0);
    }

    static method ReadFields(file: RFile) returns (ok: bool, mimeType: seq<byte>, size: int)
      modifies file
      ensures ok <==> HeaderAt(file.bytes, old(file.pos)).Some?
      ensures ok ==>
        var h := HeaderAt(file.bytes, old(file.pos)).value;
        mimeType == h.mimeType && size == h.dataSize && file.pos == old(file.pos) + HeaderLength(mimeType)
    {
      hide ReadAt, Word, Signed;
      mimeType, size := [], 0;
      var length := file.Read(1);
      if length == [] {
        return false, mimeType, size;
      }
      SizeLast(file.bytes, old(file.pos));
      mimeType := file.Read(length[0]);
      var flag := file.Read(1);
      var buf := file.Read(4);
      if |buf| < 4 {
        return false, mimeType, size;
      }
      var word := ShiftIn(buf);
      return true, mimeType, Signed(word);
    }

    /** The four bytes are shifted into a 32-bit word. */
    static method ShiftIn(buf: seq<byte>) returns (size: int)
      requires |buf| == 4
      ensures size == Word(buf)
    {
      size := buf[0];
      size := size * 256 % 0x1_0000_0000;
      size := size + buf[1] as int;
      assert size == buf[0] as int * 256 + buf[1] as int;
      size := size * 256 % 0x1_0000_0000;
      size := size + buf[2] as int;
      assert size == (buf[0] as int * 256 + buf[1] as int) * 256 + buf[2] as int;
      size := size * 256 % 0x1_0000_0000;
      size := size + buf[3] as int;
    }

    function AsView(): View {
      View(dataOffset, dataSize)
    }

    method Read(length: nat) returns (data: seq<byte>)
      modifies file
      ensures (Answer(KErrNone, data, 0), file.pos) == ViewCall(AsView(), file.bytes, old(file.pos), Call.Read(length))
    {
      data := file.Read(length);
    }

    method ReadFrom(start: int, length: nat) returns (err: int, data: seq<byte>)
      ensures (Answer(err, data, 0), file.pos) == ViewCall(AsView(), file.bytes, file.pos, Call.ReadFrom(start, length))
    {
      err, data := file.ReadFrom(start + dataOffset, length);
    }

    method Seek(mode: SeekMode, offset: int) returns (err: int, reached: int)
      modifies file
      ensures (Answer(err, [], reached), file.pos)
        == ViewCall(AsView(), file.bytes, old(file.pos), Call.Seek(mode, offset))
    {
      reached := offset;
      match mode
      case SeekAddress =>
        if reached > dataSize || reached < 0 {
          return KErrArgument, reached;
        }
        err, reached := file.Seek(mode, dataOffset + reached);
      case SeekStart =>
        if reached > dataSize {
          reached := dataSize;
        }
        if reached < 0 {
          return KErrArgument, reached;
        }
        var to;
        err, to := file.Seek(mode, dataOffset + reached);
      case SeekCurrent =>
        var to;
        err, to := file.Seek(mode, reached);
        if to < dataOffset {
          err, to := file.Seek(SeekStart, dataOffset);
          reached := 0;
        } else {
          reached := to - dataOffset;
        }
      case SeekEnd =>
        var to := reached;
        if to < -dataSize {
          to := -dataSize;
        }
        err, to := file.Seek(mode, to);
        reached := to - dataOffset;
    }

    method DataSizeL() returns (size: int)
      ensures (Answer(KErrNone, [], size), file.pos) == ViewCall(AsView(), file.bytes, file.pos, DataSize)
    {
      size := dataSize;
    }
  }

  // ---------- the view is a plain file ----------

  function Run(v: View, file: seq<byte>, pos: nat, calls: seq<Call>): seq<Answer>
    decreases |calls|
  {
    if calls == [] then []
    else
      var (answer, next) := ViewCall(v, file, pos, calls[0]);
      [answer] + Run(v, file, next, calls[1..])
  }

  function PlainRun(bytes: seq<byte>, pos: nat, calls: seq<Call>): seq<Answer>
    decreases |calls|
  {
    if calls == [] then []
    else
      var (answer, next) := PlainCall(bytes, pos, calls[0]);
      [answer] + PlainRun(bytes, next, calls[1..])
  }

  /** Within the documented use: no seek to an address, none given from the start beyond the end of
      the data, and no read at a position before the start that falls inside the header. */
  predicate Proper(v: View, call: Call) {
    match call
    case Read(_) => true
    case ReadFrom(start, _) => start >= 0 || start + v.dataOffset < 0
    case Seek(mode, offset) => !mode.SeekAddress? && (mode.SeekStart? ==> offset <= v.dataSize)
    case DataSize => true
  }

  predicate AllProper(v: View, calls: seq<Call>) {
    forall i | 0 <= i < |calls| :: Proper(v, calls[i])
  }

  /** The part of the file that the header says is the data, as far as it is there. */
  function Data(v: View, file: seq<byte>): seq<byte>
    requires v.dataOffset <= |file| && v.dataSize >= 0
  {
    file[v.dataOffset..Min(|file|, v.dataOffset + v.dataSize)]
  }

  /** The file is the header and exactly as much data as it says. */
  predicate Exact(v: View, file: seq<byte>) {
    v.dataSize >= 0 && |file| == v.dataOffset + v.dataSize
  }

  lemma ReadAgrees(v: View, file: seq<byte>, pos: nat, length: nat)
    requires Exact(v, file)
    ensures ReadAt(file, v.dataOffset + pos, length) == ReadAt(Data(v, file), pos, length)
    ensures pos <= v.dataSize ==> pos + |ReadAt(Data(v, file), pos, length)| <= v.dataSize
  {
    var data := Data(v, file);
    assert data == file[v.dataOffset..];
    if pos < |data| {
      var end := Min(|data|, pos + length);
      assert data[pos..end] == file[v.dataOffset + pos..v.dataOffset + end];
    }
  }

  lemma SeekAgrees(v: View, file: seq<byte>, pos: nat, mode: SeekMode, offset: int)
    requires Exact(v, file) && pos <= v.dataSize && Proper(v, Call.Seek(mode, offset))
    ensures var (err, to, reached) := ViewSeek(v, |file|, v.dataOffset + pos, mode, offset);
      var (plainErr, plainTo) := SeekTo(v.dataSize, pos, mode, offset);
      && err == plainErr && to == v.dataOffset + plainTo && plainTo <= v.dataSize
      && reached == if mode.SeekCurrent? || mode.SeekEnd? then plainTo else offset
  {
  }

  lemma CallAgrees(v: View, file: seq<byte>, pos: nat, call: Call)
    requires Exact(v, file) && pos <= v.dataSize && Proper(v, call)
    ensures var (a, p) := ViewCall(v, file, v.dataOffset + pos, call);
      var (b, q) := PlainCall(Data(v, file), pos, call);
      a == b && p == v.dataOffset + q && q <= v.dataSize
  {
    hide ReadAt;
    match call
    case Read(length) => ReadAgrees(v, file, pos, length);
    case ReadFrom(start, length) => if start >= 0 { ReadAgrees(v, file, start, length); }
    case Seek(mode, offset) => SeekAgrees(v, file, pos, mode, offset);
    case DataSize =>
  }

  /** A call that is not proper is told apart from a plain file by its own answer. */
  lemma ImproperDiffers(v: View, file: seq<byte>, pos: nat, call: Call)
    requires Exact(v, file) && v.dataOffset > 0 && pos <= v.dataSize && !Proper(v, call)
    ensures ViewCall(v, file, v.dataOffset + pos, call).0 != PlainCall(Data(v, file), pos, call).0
  {
    hide ReadAt;
  }

  lemma RunStep(v: View, file: seq<byte>, pos: nat, calls: seq<Call>)
    ensures calls == [] ==> Run(v, file, pos, calls) == []
    ensures calls != [] ==>
      var (answer, next) := ViewCall(v, file, pos, calls[0]);
      Run(v, file, pos, calls) == [answer] + Run(v, file, next, calls[1..])
  {
    hide ViewCall;
  }

  lemma PlainStep(bytes: seq<byte>, pos: nat, calls: seq<Call>)
    ensures calls == [] ==> PlainRun(bytes, pos, calls) == []
    ensures calls != [] ==>
      var (answer, next) := PlainCall(bytes, pos, calls[0]);
      PlainRun(bytes, pos, calls) == [answer] + PlainRun(bytes, next, calls[1..])
  {
    hide PlainCall;
  }

  /** From any position, and for any calls, the view of an exact file answers as a plain file of the
      data alone does exactly when every call is proper. */
  lemma {:induction false} ViewIsPlainFile(v: View, file: seq<byte>, pos: nat, calls: seq<Call>)
    requires Exact(v, file) && v.dataOffset > 0 && pos <= v.dataSize
    ensures Run(v, file, v.dataOffset + pos, calls) == PlainRun(Data(v, file), pos, calls) <==> AllProper(v, calls)
    decreases |calls|
  {
    hide Run, PlainRun, ViewCall, PlainCall, Proper, Data;
    RunStep(v, file, v.dataOffset + pos, calls);
    PlainStep(Data(v, file), pos, calls);
    if calls != [] {
      hide AllProper;
      var (a, p) := ViewCall(v, file, v.dataOffset + pos, calls[0]);
      var (b, q) := PlainCall(Data(v, file), pos, calls[0]);
      AllProperStep(v, calls);
      Heads(a, Run(v, file, p, calls[1..]), b, PlainRun(Data(v, file), q, calls[1..]));
      if Proper(v, calls[0]) {
        CallAgrees(v, file, pos, calls[0]);
        ViewIsPlainFile(v, file, q, calls[1..]);
      } else {
        ImproperDiffers(v, file, pos, calls[0]);
      }
    }
  }

  lemma AllProperStep(v: View, calls: seq<Call>)
    requires calls != []
    ensures AllProper(v, calls) <==> Proper(v, calls[0]) && AllProper(v, calls[1..])
  {
    if Proper(v, calls[0]) && AllProper(v, calls[1..]) {
      forall i | 0 <= i < |calls| ensures Proper(v, calls[i]) {
        if i > 0 { assert calls[i] == calls[1..][i - 1]; }
      }
    }
  }

  lemma Heads(a: Answer, xs: seq<Answer>, b: Answer, ys: seq<Answer>)
    ensures [a] + xs == [b] + ys <==> a == b && xs == ys
  {
    if [a] + xs == [b] + ys {
      assert a == ([a] + xs)[0] == ([b] + ys)[0];
      assert xs == ([a] + xs)[1..] == ([b] + ys)[1..];
    }
  }

  function Position(v: View, file: seq<byte>, pos: nat, calls: seq<Call>): nat
    decreases |calls|
  {
    if calls == [] then pos else Position(v, file, ViewCall(v, file, pos, calls[0]).1, calls[1..])
  }

  /** Whatever is called, address seeks and out of range ones included, the file's real position
      never leaves the data. */
  lemma {:induction false} StaysInsideData(v: View, file: seq<byte>, pos: nat, calls: seq<Call>)
    requires Exact(v, file) && v.dataOffset <= pos <= v.dataOffset + v.dataSize
    ensures v.dataOffset <= Position(v, file, pos, calls) <= v.dataOffset + v.dataSize
    decreases |calls|
  {
    if calls != [] {
      StaysInsideData(v, file, ViewCall(v, file, pos, calls[0]).1, calls[1..]);
    }
  }

  /** The view is a plain file, for every sequence of proper calls after opening, exactly when the
      file is the size the header says. */
  lemma ExactlyWhenExact(v: View, file: seq<byte>)
    requires 0 < v.dataOffset <= |file| && 0 <= v.dataSize
    ensures Exact(v, file) <==>
      forall calls | AllProper(v, calls) :: Run(v, file, v.dataOffset, calls) == PlainRun(Data(v, file), 0, calls)
  {
    if Exact(v, file) {
      forall calls | AllProper(v, calls)
        ensures Run(v, file, v.dataOffset, calls) == PlainRun(Data(v, file), 0, calls)
      {
        ViewIsPlainFile(v, file, 0, calls);
      }
    } else {
      var calls := [DataSize, Read(v.dataSize + 1)];
      SizeOrReadDiffers(v, file, calls);
    }
  }

  lemma SizeOrReadDiffers(v: View, file: seq<byte>, calls: seq<Call>)
    requires v.dataOffset <= |file| && 0 <= v.dataSize && !Exact(v, file)
    requires calls == [DataSize, Read(v.dataSize + 1)]
    ensures AllProper(v, calls) && Run(v, file, v.dataOffset, calls) != PlainRun(Data(v, file), 0, calls)
  {
    var off, data := v.dataOffset, Data(v, file);
    var a, b := Run(v, file, off, calls), PlainRun(data, 0, calls);
    var rest := [Read(v.dataSize + 1)];
    assert calls[1..] == rest;
    assert a == [Answer(KErrNone, [], v.dataSize)] + Run(v, file, off, rest);
    assert b == [Answer(KErrNone, [], |data|)] + PlainRun(data, 0, rest);
    assert a[0].number == v.dataSize && b[0].number == |data|;
    if |data| == v.dataSize {
      assert a[1] == Run(v, file, off, rest)[0] && b[1] == PlainRun(data, 0, rest)[0];
      assert |a[1].data| == v.dataSize + 1;
      assert |b[1].data| == v.dataSize;
    }
  }

  // ---------- what the calls that are not proper answer ----------

  /** A seek from the start goes to the lesser of the offset and the size of the data, and hands that
      back, wherever the file stood; if that is negative it is refused and nothing moves. A read that
      follows gives the data from there on. */
  lemma SeekStartExactly(v: View, file: seq<byte>, pos: nat, offset: int, length: nat)
    ensures var to := Min(offset, v.dataSize);
      var (answer, next) := ViewCall(v, file, pos, Call.Seek(SeekStart, offset));
      && answer.number == to && answer.data == []
      && (to < 0 ==> answer.err == KErrArgument && next == pos)
      && (to >= 0 ==> answer.err == KErrNone && next == v.dataOffset + to)
      && (to >= 0 && Exact(v, file) ==>
            ViewCall(v, file, next, Call.Read(length)).0.data
              == file[v.dataOffset + to..v.dataOffset + Min(to + length, v.dataSize)])
  {
  }

  /** A seek to an address never moves the file: out of the data it is refused, and in it is not
      supported, though the offset in the file is handed back. A read at a position before the start
      of the data gives bytes of the header and what follows them, unless it is before the file. */
  lemma ImproperAnswers(v: View, file: seq<byte>, pos: nat, call: Call)
    requires !Proper(v, call)
    ensures var (answer, next) := ViewCall(v, file, pos, call);
      && (call.Seek? && call.mode == SeekAddress ==>
            && next == pos && answer.data == []
            && (answer.err == KErrNotSupported <==> 0 <= call.offset <= v.dataSize)
            && (answer.err == KErrArgument <==> !(0 <= call.offset <= v.dataSize))
            && answer.number == if answer.err == KErrArgument then call.offset else v.dataOffset + call.offset)
      && (call.ReadFrom? ==>
            && next == pos && answer.err == KErrNone && 0 <= v.dataOffset + call.start < v.dataOffset
            && (v.dataOffset <= |file| ==>
                  answer.data <= file[v.dataOffset + call.start..]
                  && |answer.data| == Min(call.length, |file| - v.dataOffset - call.start)))
      && (call.Seek? || call.ReadFrom?)
  {
  }

  /** The calls, with every seek from the start beyond the end given as one to the end. */
  function Within(size: nat, calls: seq<Call>): (r: seq<Call>)
    ensures |r| == |calls|
  {
    seq(|calls|, i requires 0 <= i < |calls| =>
      var call := calls[i];
      if call.Seek? && call.mode == SeekStart && call.offset > size then Call.Seek(SeekStart, size) else call)
  }

  lemma {:induction false} EndIsReached(v: View, file: seq<byte>, pos: nat, calls: seq<Call>)
    requires v.dataSize >= 0
    ensures Run(v, file, pos, calls) == Run(v, file, pos, Within(v.dataSize, calls))
    decreases |calls|
  {
    var within := Within(v.dataSize, calls);
    RunStep(v, file, pos, calls);
    RunStep(v, file, pos, within);
    if calls != [] {
      hide Run;
      assert within[1..] == Within(v.dataSize, calls[1..]);
      assert ViewCall(v, file, pos, calls[0]) == ViewCall(v, file, pos, within[0]);
      EndIsReached(v, file, ViewCall(v, file, pos, calls[0]).1, calls[1..]);
    }
  }

  /** With seeks beyond the end among the calls the view answers as a plain file of the data does that
      is told to seek to the end instead, exactly when the rest of the calls are proper. */
  lemma ViewIsPlainToTheEnd(v: View, file: seq<byte>, pos: nat, calls: seq<Call>)
    requires Exact(v, file) && v.dataOffset > 0 && pos <= v.dataSize
    ensures var within := Within(|Data(v, file)|, calls);
      Run(v, file, v.dataOffset + pos, calls) == PlainRun(Data(v, file), pos, within) <==> AllProper(v, within)
  {
    hide Run, PlainRun, AllProper, Within;
    EndIsReached(v, file, v.dataOffset + pos, calls);
    ViewIsPlainFile(v, file, pos, Within(v.dataSize, calls));
  }
}
