/** The header of a protected file: the length and bytes of the content type, a flag, and the size
    of the data in four bytes, highest first. */
module DrmHeader {
  import opened FileHandle
  import opened Options

  datatype Header = Header(mimeType: seq<byte>, flag: byte, dataSize: int)

  const IMPORTED: byte := 84    // 'T'
  const DRM_EXTENSION := ".DRM"
  const DRM_FILE_TYPE := "APPLICATION/TESTAGENT.DRM"

  /** A 32-bit word as the signed number it stands for. */
  function Signed(word: int): (n: int)
    requires 0 <= word < 0x1_0000_0000
    ensures -0x8000_0000 <= n < 0x8000_0000 && (n - word) % 0x1_0000_0000 == 0
  {
    if word < 0x8000_0000 then word else word - 0x1_0000_0000
  }

  function Word(b: seq<byte>): (word: int)
    requires |b| == 4
    ensures 0 <= word < 0x1_0000_0000
    ensures word == 0x100_0000 * b[0] as int + 0x1_0000 * b[1] as int + 0x100 * b[2] as int + b[3] as int
  {
    ((b[0] as int * 256 + b[1] as int) * 256 + b[2] as int) * 256 + b[3] as int
  }

  function Bytes(word: int): (b: seq<byte>)
    requires 0 <= word < 0x1_0000_0000
    ensures |b| == 4
  {
    [word / 0x100_0000, word / 0x1_0000 % 256, word / 256 % 256, word % 256]
  }

  function HeaderLength(mimeType: seq<byte>): nat {
    1 + |mimeType| + 1 + 4
  }

  function Serialise(h: Header): seq<byte>
    requires |h.mimeType| < 256 && 0 <= h.dataSize < 0x8000_0000
  {
    [|h.mimeType| as byte] + h.mimeType + [h.flag] + Bytes(h.dataSize)
  }

  /** A file too short for its header has none: reading it would stop the thread. */
  function Parse(file: seq<byte>): (r: Option<Header>)
    ensures r.Some? ==> HeaderLength(r.value.mimeType) <= |file| && |r.value.mimeType| < 256
  {
    if file == [] || |file| < 6 + file[0] as int then None
    else
      var n: int := file[0];
      Some(Header(file[1..1 + n], file[1 + n], Signed(Word(file[2 + n..6 + n]))))
  }

  lemma WordOfBytes(word: int)
    requires 0 <= word < 0x1_0000_0000
    ensures Word(Bytes(word)) == word
  {
    assert word / 256 / 256 == word / 0x1_0000;
    assert word / 0x1_0000 / 256 == word / 0x100_0000;
  }

  lemma BytesOfWord(b: seq<byte>)
    requires |b| == 4
    ensures Bytes(Word(b)) == b
  {
    var high := (b[0] as int * 256 + b[1] as int) * 256 + b[2] as int;
    assert Word(b) / 256 == high;
    assert high / 256 == b[0] as int * 256 + b[1] as int;
    assert Word(b) / 0x1_0000 == Word(b) / 256 / 256;
    assert Word(b) / 0x100_0000 == Word(b) / 256 / 256 / 256;
  }

  /** Where the fields are: one byte for the length of the type, the type, the flag, and the four bytes of
      the size, highest first. */
  lemma HeaderLayout(h: Header)
    requires |h.mimeType| < 256 && 0 <= h.dataSize < 0x8000_0000
    ensures var s, n := Serialise(h), |h.mimeType|;
      && |s| == n + 6 && s[0] == n && s[1..1 + n] == h.mimeType && s[1 + n] == h.flag
      && h.dataSize == 0x100_0000 * s[2 + n] as int + 0x1_0000 * s[3 + n] as int
                       + 0x100 * s[4 + n] as int + s[5 + n] as int
  {
    var s, n := Serialise(h), |h.mimeType|;
    WordOfBytes(h.dataSize);
    assert s[2 + n..] == Bytes(h.dataSize);
    assert forall i | 0 <= i < 4 :: s[2 + n + i] == Bytes(h.dataSize)[i];
  }

  /** Reading a written header gives it back, whatever data follows. */
  lemma ParseSerialise(h: Header, data: seq<byte>)
    requires |h.mimeType| < 256 && 0 <= h.dataSize < 0x8000_0000
    ensures Parse(Serialise(h) + data) == Some(h)
    ensures |Serialise(h)| == HeaderLength(h.mimeType)
  {
    WordOfBytes(h.dataSize);
    var n := |h.mimeType|;
    var file := Serialise(h) + data;
    assert file[1..1 + n] == h.mimeType;
    assert file[2 + n..6 + n] == Bytes(h.dataSize);
  }

  /** And a header that is read is the one written, when its size is one that can be. */
  lemma SerialiseParse(file: seq<byte>)
    requires Parse(file).Some? && Parse(file).value.dataSize >= 0
    ensures var h := Parse(file).value;
      file[..HeaderLength(h.mimeType)] == Serialise(h)
  {
    var h := Parse(file).value;
    var n := |h.mimeType|;
    BytesOfWord(file[2 + n..6 + n]);
    assert Bytes(h.dataSize) == file[2 + n..6 + n];
    assert file[..6 + n] == [file[0]] + file[1..1 + n] + [file[1 + n]] + file[2 + n..6 + n];
  }

  // ---------- the recogniser ----------

  datatype Recognition = NotRecognised | Recognised(fileType: string, contentType: Option<seq<byte>>) | Panic

  function Upper(c: char): char {
    if 'a' <= c <= 'z' then (c as int - 32) as char else c
  }

  function UpperCase(s: string): string {
    seq(|s|, i requires 0 <= i < |s| => Upper(s[i]))
  }

  function Right(s: string, n: nat): string {
    if |s| <= n then s else s[|s| - n..]
  }

  predicate IsDrmName(fileName: string) {
    UpperCase(Right(fileName, |DRM_EXTENSION|)) == DRM_EXTENSION
  }

  /** It ends in a full stop and the three letters, each in either case. */
  lemma DrmNameExactly(fileName: string)
    ensures var n := |fileName|;
      IsDrmName(fileName) <==>
        && n >= 4 && fileName[n - 4] == '.' && fileName[n - 3] in "dD"
        && fileName[n - 2] in "rR" && fileName[n - 1] in "mM"
  {
    var right := Right(fileName, 4);
    var upper := UpperCase(right);
    if |fileName| >= 4 {
      assert upper == [upper[0], upper[1], upper[2], upper[3]];
    }
  }

  method ToUpper(a: array<char>)
    modifies a
    ensures a[..] == UpperCase(old(a[..]))
  {
    var i := 0;
    while i < a.Length
      invariant 0 <= i <= a.Length
      invariant forall k | 0 <= k < i :: a[k] == Upper(old(a[k]))
      invariant forall k | i <= k < a.Length :: a[k] == old(a[k])
    {
      a[i] := Upper(a[i]);
      i := i + 1;
    }
  }

  lemma RightUpper(s: string, n: nat)
    ensures Right(UpperCase(s), n) == UpperCase(Right(s, n))
  {
  }

  /** By its name a file is protected; by its first bytes, if it has been imported, it says what the
      content is. Indexing past the end of the buffer stops the thread. */
  function Recognise(fileName: string, buffer: seq<byte>): Recognition {
    if !IsDrmName(fileName) then NotRecognised
    else if |buffer| <= 3 then Recognised(DRM_FILE_TYPE, None)
    else if buffer[0] as int + 1 >= |buffer| then Panic
    else Recognised(DRM_FILE_TYPE, if buffer[buffer[0] + 1] == IMPORTED then Some(buffer[1..1 + buffer[0]]) else None)
  }

  method RecognizeFileL(fileName: string, buffer: seq<byte>) returns (r: Recognition)
    ensures r == Recognise(fileName, buffer)
  {
    var upper := new char[|fileName|](i requires 0 <= i < |fileName| => fileName[i]);
    assert upper[..] == fileName;
    ToUpper(upper);
    RightUpper(fileName, |DRM_EXTENSION|);
    var extension := Right(upper[..], |DRM_EXTENSION|);
    if extension != DRM_EXTENSION {
      return NotRecognised;
    }
    if |buffer| > 3 {
      var length: int := buffer[0];
      if length + 1 >= |buffer| {
        return Panic;
      }
      if buffer[length + 1] == IMPORTED {
        return Recognised(DRM_FILE_TYPE, Some(buffer[1..1 + length]));
      }
    }
    return Recognised(DRM_FILE_TYPE, None);
  }

  /** The two readers of the header agree: of a file whose name is that of a protected one, given as much
      of it as holds the flag, and more than three bytes, the recogniser reports the content type that
      opening the file finds, and does so exactly when the flag says it has been imported; given less it
      stops the thread, and given three bytes or fewer it does not look at them. */
  lemma ReadersAgree(fileName: string, file: seq<byte>, shown: nat)
    requires Parse(file).Some? && shown <= |file|
    ensures var h, plain := Parse(file).value, Recognised("APPLICATION/TESTAGENT.DRM", None);
      var r := Recognise(fileName, file[..shown]);
      && (r == NotRecognised <==> !IsDrmName(fileName))
      && (IsDrmName(fileName) && shown <= 3 ==> r == plain)
      && (IsDrmName(fileName) && shown > 3 ==>
            && (r == plain.(contentType := Some(h.mimeType)) <==>
                  h.flag as int == 'T' as int && |h.mimeType| + 1 < shown)
            && (r == plain <==> h.flag as int != 'T' as int && |h.mimeType| + 1 < shown)
            && (r == Panic <==> shown <= |h.mimeType| + 1))
  {
    if 3 < shown && file[0] + 1 < shown {
      assert file[..shown][1..1 + file[0]] == file[1..1 + file[0]];
    }
  }
}
