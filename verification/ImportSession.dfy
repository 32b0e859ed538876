/** An import session as a value: what each call does to it and to the files on disk. */
module ImportSession {
  import opened Errors
  import opened FileHandle
  import opened Options

  datatype Kind = Content | Receipt

  datatype OutputFile = OutputFile(name: string, kind: Kind, mimeType: string)

  type Disk = map<string, seq<byte>>

  datatype Session = Session(
    agentCreates: bool, directory: string, suggestedName: string,
    fileOpen: bool, file: string, outputName: Option<string>, lastWrite: Option<seq<byte>>,
    waitingForReceipt: bool, outputs: seq<OutputFile>)

  /** The session and the disk it works on. */
  datatype World = World(session: Session, disk: Disk)

  datatype Reply = Returned(err: int) | Crashed

  const DRM_TYPE := "application/testagent.drm"
  const RECEIPT_TYPE := "text/plain"
  const RECEIPT_NAME := "receipt.txt"
  const RECEIPT_TEXT := "This is a receipt"
  const KMaxDataTypeLength := 255

  /** The text as it is written to a stream: two bytes a character, the low one first. */
  function Wide(s: string): seq<byte> {
    seq(2 * |s|, i requires 0 <= i < 2 * |s| =>
        if i % 2 == 0 then s[i / 2] as int % 256 else s[i / 2] as int / 256 % 256)
  }

  /** Each character is a pair of bytes, in order, that make up its number, the first counting once and
      the second 256 times. */
  lemma WidePairs(s: string, i: nat)
    requires i < |s|
    ensures |Wide(s)| == 2 * |s| && Wide(s)[2 * i] as int + 256 * Wide(s)[2 * i + 1] as int == s[i] as int % 0x1_0000
  {
    var w := Wide(s);
    assert w[2 * i] == s[i] as int % 256;
    assert w[2 * i + 1] == s[i] as int / 256 % 256;
  }

  function Append(disk: Disk, name: string, data: seq<byte>): Disk {
    disk[name := (if name in disk then disk[name] else []) + data]
  }

  function Begun(agentCreates: bool, directory: string, suggestedName: string): Session {
    Session(agentCreates, directory, suggestedName, false, "", None, None, false, [])
  }

  function OpenOutputFile(w: World): (World, int) {
    var s := w.session;
    if s.outputName.Some? then (w, KErrInUse)
    else if s.agentCreates then
      var name := s.directory + s.suggestedName;
      var named := s.(outputName := Some(name));
      if name in w.disk then (w.(session := named), KErrAlreadyExists)
      else (World(named.(fileOpen := true, file := name), w.disk[name := []]), KErrNone)
    else (w, KErrCANewFileHandleRequired)
  }

  function WriteData(w: World, data: seq<byte>): (World, int) {
    var (ready, err) := if w.session.fileOpen then (w, KErrNone) else OpenOutputFile(w);
    if err == KErrNone then (ready.(disk := Append(ready.disk, ready.session.file, data)), err)
    else if err == KErrCANewFileHandleRequired then (ready.(session := ready.session.(lastWrite := Some(data))), err)
    else (ready, err)
  }

  /** The content file, if there is one, becomes an output. */
  function Closed(s: Session): Session {
    s.(fileOpen := false, outputName := None,
       outputs := s.outputs + if s.outputName.Some? then [OutputFile(s.outputName.value, Content, DRM_TYPE)] else [])
  }

  function WriteDataComplete(w: World): (World, int) {
    var s := Closed(w.session);
    if !s.agentCreates then (w.(session := s.(waitingForReceipt := true)), KErrCANewFileHandleRequired)
    else
      var name := s.directory + RECEIPT_NAME;
      if name in w.disk then (w.(session := s.(outputName := Some(name))), KErrAlreadyExists)
      else
        (World(s.(outputs := s.outputs + [OutputFile(name, Receipt, RECEIPT_TYPE)]),
               w.disk[name := Wide(RECEIPT_TEXT)]), KErrNone)
  }

  /** The handle is to a file on disk, which is written from its end on. */
  function ContinueWithNewOutputFile(w: World, handle: string, name: string): (World, Reply) {
    var s := w.session;
    if handle !in w.disk then (w, Returned(KErrBadHandle))
    else if s.waitingForReceipt then
      (World(s.(file := handle, outputs := s.outputs + [OutputFile(name, Receipt, RECEIPT_TYPE)]),
             Append(w.disk, handle, Wide(RECEIPT_TEXT))), Returned(KErrNone))
    else
      var adopted := w.(session := s.(fileOpen := true, file := handle, outputName := Some(name)));
      if s.lastWrite.None? then (adopted, Crashed)
      else
        var (written, err) := WriteData(adopted, s.lastWrite.value);
        (written, Returned(err))
  }

  function Destroy(w: World): Disk {
    if w.session.outputName.Some? then w.disk - {w.session.outputName.value} else w.disk
  }

  function SuggestedName(s: Session): string {
    if s.waitingForReceipt then "RECEIPT.TXT" else "OUTPUTFILE.DRM"
  }

  // ---------- whole runs ----------

  function Concat(chunks: seq<seq<byte>>): seq<byte> {
    if chunks == [] then [] else chunks[0] + Concat(chunks[1..])
  }

  /** One write after the other, with the errors they return. */
  function Writes(w: World, chunks: seq<seq<byte>>): (World, seq<int>)
    decreases |chunks|
  {
    if chunks == [] then (w, [])
    else
      var (next, err) := WriteData(w, chunks[0]);
      var (last, errs) := Writes(next, chunks[1..]);
      (last, [err] + errs)
  }

  predicate AllOk(errs: seq<int>) {
    forall i | 0 <= i < |errs| :: errs[i] == KErrNone
  }

  /** A client that supplies files: whenever a handle is asked for it creates an empty file of the
      given name and hands it over at once. */
  function Supply(w: World, name: string): (World, Reply) {
    ContinueWithNewOutputFile(w.(disk := w.disk[name := []]), name, name)
  }

  function WriteOrSupply(w: World, data: seq<byte>, name: string): (World, Reply) {
    var (next, err) := WriteData(w, data);
    if err == KErrCANewFileHandleRequired then Supply(next, name) else (next, Returned(err))
  }

  function Feed(w: World, chunks: seq<seq<byte>>, name: string): (World, seq<Reply>)
    decreases |chunks|
  {
    if chunks == [] then (w, [])
    else
      var (next, reply) := WriteOrSupply(w, chunks[0], name);
      var (last, replies) := Feed(next, chunks[1..], name);
      (last, [reply] + replies)
  }

  function CompleteOrSupply(w: World, name: string): (World, Reply) {
    var (next, err) := WriteDataComplete(w);
    if err == KErrCANewFileHandleRequired then Supply(next, name) else (next, Returned(err))
  }

  predicate AllReturned(replies: seq<Reply>) {
    forall i | 0 <= i < |replies| :: replies[i] == Returned(KErrNone)
  }
}
