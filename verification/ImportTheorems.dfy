/** Whole import runs: what is on disk and what the client is told, in both modes. */
module ImportTheorems {
  import opened Errors
  import opened FileHandle
  import opened ImportSession
  import opened Options

  function ContentName(s: Session): string {
    s.directory + s.suggestedName
  }

  function ReceiptName(s: Session): string {
    s.directory + "receipt.txt"
  }

  function ContentEntry(name: string): OutputFile {
    OutputFile(name, Content, "application/testagent.drm")
  }

  function ReceiptEntry(name: string): OutputFile {
    OutputFile(name, Receipt, "text/plain")
  }

  /** The content file, if anything was written, and then the receipt. */
  function Outputs(chunks: seq<seq<byte>>, content: string, receipt: string): seq<OutputFile> {
    (if chunks == [] then [] else [ContentEntry(content)]) + [ReceiptEntry(receipt)]
  }

  function ContentDisk(disk: Disk, chunks: seq<seq<byte>>, content: string): Disk {
    if chunks == [] then disk else disk[content := Concat(chunks)]
  }

  /** The names a run is going to create are free and distinct. */
  predicate NamesFree(disk: Disk, chunks: seq<seq<byte>>, content: string, receipt: string) {
    receipt !in disk && (chunks != [] ==> content !in disk && content != receipt)
  }

  // ---------- writing to an open file ----------

  lemma {:induction false} OpenWrites(w: World, chunks: seq<seq<byte>>)
    requires w.session.fileOpen && w.session.file in w.disk
    ensures Writes(w, chunks).0
      == w.(disk := w.disk[w.session.file := w.disk[w.session.file] + Concat(chunks)])
    ensures |Writes(w, chunks).1| == |chunks| && AllOk(Writes(w, chunks).1)
    decreases |chunks|
  {
    var name := w.session.file;
    if chunks == [] {
      assert w.disk[name] + Concat(chunks) == w.disk[name];
    } else {
      var next := WriteData(w, chunks[0]).0;
      OpenWrites(next, chunks[1..]);
      assert next.disk[name] + Concat(chunks[1..]) == w.disk[name] + Concat(chunks);
      assert next.disk[name := next.disk[name] + Concat(chunks[1..])] == w.disk[name := w.disk[name] + Concat(chunks)];
    }
  }

  lemma {:induction false} OpenFeed(w: World, chunks: seq<seq<byte>>, name: string)
    requires w.session.fileOpen && w.session.file in w.disk
    ensures Feed(w, chunks, name).0 == Writes(w, chunks).0
    ensures |Feed(w, chunks, name).1| == |chunks| && AllReturned(Feed(w, chunks, name).1)
    decreases |chunks|
  {
    if chunks != [] {
      OpenFeed(WriteData(w, chunks[0]).0, chunks[1..], name);
    }
  }

  // ---------- the agent creates the files ----------

  /** The session once the content file is open, with the given bytes in it. */
  ghost function Copying(start: World, bytes: seq<byte>): World {
    var content := ContentName(start.session);
    World(start.session.(outputName := Some(content), fileOpen := true, file := content), start.disk[content := bytes])
  }

  lemma FirstWrite(start: World, data: seq<byte>)
    requires start.session == Begun(true, start.session.directory, start.session.suggestedName)
    ensures var content := ContentName(start.session);
      WriteData(start, data)
      == if content in start.disk then
           (start.(session := start.session.(outputName := Some(content))), KErrAlreadyExists)
         else (Copying(start, data), KErrNone)
  {
    assert [] + data == data;
    var content := ContentName(start.session);
    assert start.disk[content := []][content := data] == start.disk[content := data];
  }

  lemma NextWrite(start: World, bytes: seq<byte>, data: seq<byte>)
    ensures WriteData(Copying(start, bytes), data) == (Copying(start, bytes + data), KErrNone)
  {
    var content := ContentName(start.session);
    assert start.disk[content := bytes][content := bytes + data] == start.disk[content := bytes + data];
  }

  /** After the first write every byte handed over is in the content file, in order, if its name was
      free. If it was not, nothing is ever written: the first write says so, and the others that the
      session is in use. */
  lemma AgentWrites(s: Session, disk: Disk, chunks: seq<seq<byte>>)
    requires s == Begun(true, s.directory, s.suggestedName) && chunks != []
    ensures var (w, errs) := Writes(World(s, disk), chunks);
      && w.session.outputName == Some(ContentName(s)) && w.session.outputs == []
      && w.session == s.(outputName := Some(ContentName(s)), fileOpen := w.session.fileOpen, file := w.session.file)
      && (w.session.fileOpen <==> ContentName(s) !in disk)
      && (AllOk(errs) <==> ContentName(s) !in disk)
      && |errs| == |chunks|
      && (ContentName(s) in disk ==>
            errs[0] == KErrAlreadyExists && forall i | 0 < i < |errs| :: errs[i] == KErrInUse)
      && w.disk == if ContentName(s) in disk then disk else disk[ContentName(s) := Concat(chunks)]
  {
    hide WriteData, Concat;
    var w := World(s, disk);
    FirstWrite(w, chunks[0]);
    WritesStep(w, chunks);
    var next := WriteData(w, chunks[0]).0;
    if ContentName(s) !in disk {
      CopyingWrites(w, chunks[0], chunks[1..]);
      ConcatStep(chunks);
    } else {
      BlockedWrites(next, chunks[1..]);
    }
  }

  lemma WritesStep(w: World, chunks: seq<seq<byte>>)
    requires chunks != []
    ensures var (next, err) := WriteData(w, chunks[0]);
      var (last, errs) := Writes(next, chunks[1..]);
      Writes(w, chunks) == (last, [err] + errs) && (AllOk(Writes(w, chunks).1) <==> err == KErrNone && AllOk(errs))
  {
    hide WriteData;
    var (next, err) := WriteData(w, chunks[0]);
    var errs := Writes(next, chunks[1..]).1;
    assert Writes(w, chunks).1 == [err] + errs;
    hide Writes;
    var all := [err] + errs;
    if AllOk(all) {
      assert err == all[0];
      forall i | 0 <= i < |errs| ensures errs[i] == KErrNone {
        assert errs[i] == all[i + 1];
      }
    }
  }

  lemma ConcatStep(chunks: seq<seq<byte>>)
    requires chunks != []
    ensures Concat(chunks) == chunks[0] + Concat(chunks[1..])
  {
  }

  lemma {:induction false} CopyingWrites(start: World, bytes: seq<byte>, chunks: seq<seq<byte>>)
    ensures Writes(Copying(start, bytes), chunks).0 == Copying(start, bytes + Concat(chunks))
    ensures var errs := Writes(Copying(start, bytes), chunks).1;
      |errs| == |chunks| && AllOk(errs)
    decreases |chunks|
  {
    hide Copying, WriteData;
    if chunks == [] {
      assert bytes + Concat(chunks) == bytes;
    } else {
      NextWrite(start, bytes, chunks[0]);
      CopyingWrites(start, bytes + chunks[0], chunks[1..]);
      WritesStep(Copying(start, bytes), chunks);
      assert bytes + chunks[0] + Concat(chunks[1..]) == bytes + Concat(chunks);
    }
  }

  lemma {:induction false} BlockedWrites(w: World, chunks: seq<seq<byte>>)
    requires !w.session.fileOpen && w.session.outputName.Some?
    ensures var (last, errs) := Writes(w, chunks);
      last == w && |errs| == |chunks| && forall i | 0 <= i < |errs| :: errs[i] == KErrInUse
    decreases |chunks|
  {
    if chunks != [] {
      BlockedWrites(w, chunks[1..]);
    }
  }

  function AgentImport(s: Session, disk: Disk, chunks: seq<seq<byte>>): (World, seq<int>) {
    var (written, errs) := Writes(World(s, disk), chunks);
    var (done, err) := WriteDataComplete(written);
    (done, errs + [err])
  }

  /** A whole import by an agent that creates the files: all calls succeed exactly when the names
      are free and distinct, and then the disk gains the content, if any was written, and one
      receipt, which are the outputs, and destroying the session takes nothing away. */
  lemma AgentImports(directory: string, suggested: string, disk: Disk, chunks: seq<seq<byte>>)
    ensures var s := Begun(true, directory, suggested);
      var content, receipt := directory + suggested, directory + "receipt.txt";
      var (w, errs) := AgentImport(s, disk, chunks);
      && (AllOk(errs) <==> NamesFree(disk, chunks, content, receipt))
      && (AllOk(errs) ==>
            && w.disk == ContentDisk(disk, chunks, content)[receipt := Wide("This is a receipt")]
            && w.session.outputs == Outputs(chunks, content, receipt)
            && Destroy(w) == w.disk)
  {
    hide Concat, Wide;
    var s := Begun(true, directory, suggested);
    var (written, errs) := Writes(World(s, disk), chunks);
    var (done, err) := WriteDataComplete(written);
    assert AllOk(errs + [err]) <==> AllOk(errs) && err == KErrNone by { OkBoth(errs, err); }
    if chunks != [] {
      hide Writes;
      AgentWrites(s, disk, chunks);
    }
  }

  lemma OkBoth(errs: seq<int>, err: int)
    ensures AllOk(errs + [err]) <==> AllOk(errs) && err == KErrNone
  {
    if AllOk(errs + [err]) {
      assert (errs + [err])[|errs|] == err;
      forall i | 0 <= i < |errs| ensures errs[i] == KErrNone {
        assert (errs + [err])[i] == errs[i];
      }
    }
  }

  /** Destroying the session right after completing takes a file away exactly when the receipt's
      name was taken: that file, whoever it belonged to, goes. */
  lemma DestroyAfterComplete(w: World)
    requires w.session.agentCreates
    ensures var (done, err) := WriteDataComplete(w);
      var receipt := ReceiptName(w.session);
      && err == (if receipt in w.disk then KErrAlreadyExists else KErrNone)
      && (Destroy(done) == done.disk <==> receipt !in w.disk)
      && (receipt in w.disk ==> Destroy(done) == w.disk - {receipt})
  {
    var (done, err) := WriteDataComplete(w);
    if ReceiptName(w.session) in w.disk {
      assert ReceiptName(w.session) !in Destroy(done);
    }
  }

  /** Destroying it before completing leaves no content file behind, and leaves the disk as it was
      found exactly when nothing was written or the content's name was free. */
  lemma AgentAborts(directory: string, suggested: string, disk: Disk, chunks: seq<seq<byte>>)
    ensures var left := Destroy(Writes(World(Begun(true, directory, suggested), disk), chunks).0);
      && left == (if chunks == [] then disk else disk - {directory + suggested})
      && (left == disk <==> chunks == [] || directory + suggested !in disk)
  {
    var s := Begun(true, directory, suggested);
    if chunks != [] {
      hide Writes, Concat;
      AgentWrites(s, disk, chunks);
      assert disk[ContentName(s) := Concat(chunks)] - {ContentName(s)} == disk - {ContentName(s)};
      if ContentName(s) in disk { assert ContentName(s) !in disk - {ContentName(s)}; }
    }
  }

  // ---------- the client supplies the files ----------

  lemma FirstSupply(s: Session, disk: Disk, data: seq<byte>, content: string)
    requires s == Begun(false, s.directory, s.suggestedName)
    ensures WriteOrSupply(World(s, disk), data, content)
      == (World(s.(fileOpen := true, file := content, outputName := Some(content), lastWrite := Some(data)),
                disk[content := data]), Returned(KErrNone))
  {
    assert [] + data == data;
    assert disk[content := []][content := data] == disk[content := data];
  }

  lemma FeedAll(s: Session, disk: Disk, chunks: seq<seq<byte>>, content: string)
    requires s == Begun(false, s.directory, s.suggestedName) && chunks != []
    ensures var (w, replies) := Feed(World(s, disk), chunks, content);
      && w.session == s.(fileOpen := true, file := content, outputName := Some(content), lastWrite := Some(chunks[0]))
      && w.disk == disk[content := Concat(chunks)]
      && AllReturned(replies)
  {
    hide WriteOrSupply, Writes;
    FirstSupply(s, disk, chunks[0], content);
    var next := WriteOrSupply(World(s, disk), chunks[0], content).0;
    OpenFeed(next, chunks[1..], content);
    OpenWrites(next, chunks[1..]);
  }

  function HandleImport(w: World, chunks: seq<seq<byte>>, content: string, receipt: string): (World, seq<Reply>) {
    var (fed, replies) := Feed(w, chunks, content);
    var (done, reply) := CompleteOrSupply(fed, receipt);
    (done, replies + [reply])
  }

  /** A client that answers every request for a handle at once gets the same files and outputs,
      whatever names it chooses, and every call of it returns without an error in the end. */
  lemma HandleImports(s: Session, disk: Disk, chunks: seq<seq<byte>>, content: string, receipt: string)
    requires s == Begun(false, s.directory, s.suggestedName)
    ensures var (w, replies) := HandleImport(World(s, disk), chunks, content, receipt);
      && AllReturned(replies)
      && w.disk == ContentDisk(disk, chunks, content)[receipt := Wide("This is a receipt")]
      && w.session.outputs == Outputs(chunks, content, receipt)
      && Destroy(w) == w.disk
  {
    hide Concat, Wide;
    var (fed, replies) := Feed(World(s, disk), chunks, content);
    if chunks != [] {
      hide Feed;
      FeedAll(s, disk, chunks, content);
    }
    var (done, reply) := CompleteOrSupply(fed, receipt);
    assert [] + Wide("This is a receipt") == Wide("This is a receipt");
    assert done.disk == fed.disk[receipt := Wide("This is a receipt")];
    assert AllReturned(replies + [reply]);
  }

  /** The two modes are equivalent: with the agent's names, when they are free, a supplying client
      ends with the very disk and outputs that the agent would have made. */
  lemma ModesAgree(directory: string, suggested: string, disk: Disk, chunks: seq<seq<byte>>)
    requires NamesFree(disk, chunks, directory + suggested, directory + "receipt.txt")
    ensures
      var a := AgentImport(Begun(true, directory, suggested), disk, chunks).0;
      var content, receipt := directory + suggested, directory + "receipt.txt";
      var h := HandleImport(World(Begun(false, "", ""), disk), chunks, content, receipt).0;
      a.disk == h.disk && a.session.outputs == h.session.outputs
  {
    hide AgentImport, HandleImport, NamesFree;
    AgentImports(directory, suggested, disk, chunks);
    HandleImports(Begun(false, "", ""), disk, chunks, directory + suggested, directory + "receipt.txt");
  }

  /** And an import given up half way leaves no content file behind. */
  lemma HandleAborts(s: Session, disk: Disk, chunks: seq<seq<byte>>, content: string)
    requires s == Begun(false, s.directory, s.suggestedName) && content !in disk
    ensures Destroy(Feed(World(s, disk), chunks, content).0) == disk
  {
    if chunks != [] {
      hide Feed, Concat;
      FeedAll(s, disk, chunks, content);
      assert disk[content := Concat(chunks)] - {content} == disk;
    }
  }

  // ---------- a client that does not answer at once ----------

  /** While no handle has been given every write asks for one and only the last is saved. */
  lemma {:induction false} Unanswered(w: World, chunks: seq<seq<byte>>)
    requires !w.session.agentCreates && !w.session.fileOpen && w.session.outputName.None?
    ensures Writes(w, chunks).0
      == if chunks == [] then w else w.(session := w.session.(lastWrite := Some(chunks[|chunks|-1])))
    ensures |Writes(w, chunks).1| == |chunks|
    ensures forall i | 0 <= i < |chunks| :: Writes(w, chunks).1[i] == KErrCANewFileHandleRequired
    decreases |chunks|
  {
    if chunks != [] {
      Unanswered(WriteData(w, chunks[0]).0, chunks[1..]);
    }
  }

  lemma {:induction false} ConcatJoins(xs: seq<seq<byte>>, ys: seq<seq<byte>>)
    ensures Concat(xs + ys) == Concat(xs) + Concat(ys)
    decreases |xs|
  {
    if xs == [] {
      assert xs + ys == ys;
    } else {
      ConcatJoins(xs[1..], ys);
      assert (xs + ys)[1..] == xs[1..] + ys;
    }
  }

  lemma SavedIsWritten(w: World, name: string)
    requires !w.session.waitingForReceipt && w.session.lastWrite.Some?
    ensures var s := w.session;
      Supply(w, name)
      == (World(s.(fileOpen := true, file := name, outputName := Some(name)),
                w.disk[name := s.lastWrite.value]), Returned(KErrNone))
  {
    var last := w.session.lastWrite.value;
    assert [] + last == last;
    assert w.disk[name := []][name := last] == w.disk[name := last];
  }

  lemma ConcatOne(last: seq<byte>)
    ensures Concat([last]) == last
  {
    assert [last][1..] == [];
    assert last + [] == last;
  }

  lemma AllButLast(chunks: seq<seq<byte>>)
    requires chunks != []
    ensures Concat(chunks) == Concat(chunks[..|chunks|-1]) + chunks[|chunks|-1]
  {
    var last, lost := chunks[|chunks|-1], chunks[..|chunks|-1];
    ConcatOne(last);
    hide Concat;
    ConcatJoins(lost, [last]);
    assert chunks == lost + [last];
  }

  /** Bytes written before the handle is given, but for the last such write, are lost: everything
      arrives exactly when there were none. */
  lemma LateAnswer(s: Session, disk: Disk, before: seq<seq<byte>>, after: seq<seq<byte>>, content: string)
    requires s == Begun(false, s.directory, s.suggestedName) && before != []
    ensures
      var waiting := Writes(World(s, disk), before).0;
      var w := Writes(Supply(waiting, content).0, after).0;
      && content in w.disk
      && w.disk[content] == before[|before|-1] + Concat(after)
      && (w.disk[content] == Concat(before + after) <==> Concat(before[..|before|-1]) == [])
  {
    hide Writes, Supply, Concat;
    var waiting := Writes(World(s, disk), before).0;
    Unanswered(World(s, disk), before);
    SavedIsWritten(waiting, content);
    OpenWrites(Supply(waiting, content).0, after);
    AllButLast(before);
    ConcatJoins(before, after);
    var lost, kept := Concat(before[..|before|-1]), before[|before|-1] + Concat(after);
    assert Concat(before + after) == lost + kept;
    assert lost == [] ==> lost + kept == kept;
  }

  // ---------- the suggested names ----------

  /** In every session a supplied handle becomes the receipt exactly when the receipt's name was the
      one suggested, and otherwise, if anything waits to be written to it, the content file, which is
      an output once the import completes. With nothing waiting the call crashes. A
      handle that cannot be duplicated changes nothing. */
  lemma SuggestionKept(w: World, handle: string, name: string)
    ensures handle !in w.disk ==> ContinueWithNewOutputFile(w, handle, name) == (w, Returned(KErrBadHandle))
    ensures handle in w.disk ==> var (next, reply) := ContinueWithNewOutputFile(w, handle, name);
      var before := w.session.outputs;
      && (SuggestedName(w.session) == "RECEIPT.TXT" <==> next.session.outputs == before + [ReceiptEntry(name)])
      && (SuggestedName(w.session) != "RECEIPT.TXT" && reply != Crashed ==>
            before + [ContentEntry(name)] <= WriteDataComplete(next).0.session.outputs)
      && (reply == Crashed <==> SuggestedName(w.session) != "RECEIPT.TXT" && w.session.lastWrite.None?)
  {
    hide Wide;
    assert |"RECEIPT.TXT"| != |"OUTPUTFILE.DRM"|;
    assert |w.session.outputs + [ReceiptEntry(name)]| > |w.session.outputs|;
    if !w.session.waitingForReceipt && w.session.lastWrite.Some? {
      OpenWriteKeeps(w.(session := w.session.(fileOpen := true, file := handle, outputName := Some(name))),
                     w.session.lastWrite.value);
    }
  }

  lemma OpenWriteKeeps(w: World, data: seq<byte>)
    requires w.session.fileOpen
    ensures WriteData(w, data).0.session == w.session
  {
  }

  // ---------- any calls at all ----------

  datatype Action = Write(data: seq<byte>) | Complete | Continue(handle: string, name: string)

  /** The session after a call, unless the call crashes. */
  function Act(w: World, a: Action): Option<World> {
    match a
    case Write(data) => Some(WriteData(w, data).0)
    case Complete => Some(WriteDataComplete(w).0)
    case Continue(handle, name) =>
      var (next, reply) := ContinueWithNewOutputFile(w, handle, name);
      if reply == Crashed then None else Some(next)
  }

  function ActAll(w: World, actions: seq<Action>): Option<World>
    decreases |actions|
  {
    if actions == [] then Some(w)
    else
      var next := Act(w, actions[0]);
      if next.None? then None else ActAll(next.value, actions[1..])
  }

  /** Every file is still there, with at most something added at its end. */
  ghost predicate Grown(before: Disk, after: Disk) {
    forall name | name in before :: name in after && before[name] <= after[name]
  }

  lemma WriteGrows(w: World, data: seq<byte>)
    ensures var next := WriteData(w, data).0;
      && Grown(w.disk, next.disk) && next.session.outputs == w.session.outputs
      && next.session.waitingForReceipt == w.session.waitingForReceipt
      && next.session.agentCreates == w.session.agentCreates
  {
  }

  lemma ActGrows(w: World, a: Action)
    requires Act(w, a).Some?
    ensures var next := Act(w, a).value;
      && Grown(w.disk, next.disk) && w.session.outputs <= next.session.outputs
      && (w.session.waitingForReceipt ==> next.session.waitingForReceipt)
  {
    hide Wide;
    match a
    case Write(data) => WriteGrows(w, data);
    case Complete =>
    case Continue(handle, name) =>
      var s := w.session;
      if handle in w.disk && !s.waitingForReceipt && s.lastWrite.Some? {
        WriteGrows(w.(session := s.(fileOpen := true, file := handle, outputName := Some(name))), s.lastWrite.value);
      }
  }

  /** Whatever is called in whatever order, no byte on disk is ever overwritten or lost before the
      session is destroyed, no output is taken back, and the wait for the receipt is never undone. */
  lemma {:induction false} NothingOverwritten(w: World, actions: seq<Action>)
    requires ActAll(w, actions).Some?
    ensures var end := ActAll(w, actions).value;
      && Grown(w.disk, end.disk) && w.session.outputs <= end.session.outputs
      && (w.session.waitingForReceipt ==> end.session.waitingForReceipt)
    decreases |actions|
  {
    hide Act;
    if actions != [] {
      ActGrows(w, actions[0]);
      NothingOverwritten(Act(w, actions[0]).value, actions[1..]);
    }
  }

  // ---------- after completing, when the client supplies the files ----------

  function Receipts(n: nat): seq<byte> {
    if n == 0 then [] else Wide("This is a receipt") + Receipts(n - 1)
  }

  /** How often a file is handed over. */
  function Handed(actions: seq<Action>, handle: string): nat {
    if actions == [] then 0
    else (if actions[0].Continue? && actions[0].handle == handle then 1 else 0) + Handed(actions[1..], handle)
  }

  /** The names given with the handles to files that are there. */
  function Given(actions: seq<Action>, disk: Disk): seq<OutputFile> {
    if actions == [] then []
    else
      (if actions[0].Continue? && actions[0].handle in disk then [ReceiptEntry(actions[0].name)] else [])
      + Given(actions[1..], disk)
  }

  predicate Finished(s: Session) {
    !s.agentCreates && s.waitingForReceipt && !s.fileOpen && s.outputName.None?
  }

  lemma FinishedStep(w: World, a: Action)
    requires Finished(w.session)
    ensures Act(w, a).Some?
    ensures var next := Act(w, a).value;
      && Finished(next.session) && next.disk.Keys == w.disk.Keys
      && next.session.outputs == w.session.outputs + Given([a], w.disk)
      && forall name | name in w.disk :: next.disk[name] == w.disk[name] + Receipts(Handed([a], name))
  {
    hide Wide;
    assert [a][1..] == [];
    assert Receipts(0) == [] && Receipts(1) == Wide("This is a receipt") + [];
  }

  lemma {:induction false} ReceiptsAdd(m: nat, n: nat)
    ensures Receipts(m) + Receipts(n) == Receipts(m + n)
  {
    hide Wide;
    if m > 0 {
      ReceiptsAdd(m - 1, n);
      assert Receipts(m) + Receipts(n) == Wide("This is a receipt") + (Receipts(m - 1) + Receipts(n));
    } else {
      assert [] + Receipts(n) == Receipts(n);
    }
  }

  lemma {:induction false} FinishedActs(w: World, actions: seq<Action>)
    requires Finished(w.session)
    ensures ActAll(w, actions).Some?
    ensures var end := ActAll(w, actions).value;
      && Finished(end.session) && end.disk.Keys == w.disk.Keys
      && end.session.outputs == w.session.outputs + Given(actions, w.disk)
      && forall name | name in w.disk :: end.disk[name] == w.disk[name] + Receipts(Handed(actions, name))
    decreases |actions|
  {
    hide Act, Finished, Receipts, Handed, Given;
    NoneFollow(w.disk);
    if actions != [] {
      FinishedStep(w, actions[0]);
      var next, rest := Act(w, actions[0]).value, actions[1..];
      FinishedActs(next, rest);
      GivenStep(actions, w.disk, next.disk);
      JoinOutputs(w.session.outputs, Given([actions[0]], w.disk), Given(rest, w.disk));
      forall name | name in w.disk
        ensures w.disk[name] + Receipts(Handed([actions[0]], name)) + Receipts(Handed(rest, name))
          == w.disk[name] + Receipts(Handed(actions, name))
      {
        HandedStep(actions, name);
        JoinReceipts(w.disk[name], Handed([actions[0]], name), Handed(rest, name));
      }
    }
  }

  lemma NoneFollow(disk: Disk)
    ensures Given([], disk) == [] && forall bytes: seq<byte>, name :: bytes + Receipts(Handed([], name)) == bytes
  {
    assert Receipts(0) == [];
  }

  lemma JoinOutputs(a: seq<OutputFile>, b: seq<OutputFile>, c: seq<OutputFile>)
    ensures a + b + c == a + (b + c)
  {
  }

  lemma JoinReceipts(bytes: seq<byte>, m: nat, n: nat)
    ensures bytes + Receipts(m) + Receipts(n) == bytes + Receipts(m + n)
  {
    hide Receipts;
    ReceiptsAdd(m, n);
    assert bytes + Receipts(m) + Receipts(n) == bytes + (Receipts(m) + Receipts(n));
  }

  lemma HandedStep(actions: seq<Action>, handle: string)
    requires actions != []
    ensures Handed(actions, handle) == Handed([actions[0]], handle) + Handed(actions[1..], handle)
  {
    assert [actions[0]][1..] == [];
  }

  lemma GivenStep(actions: seq<Action>, disk: Disk, next: Disk)
    requires actions != [] && disk.Keys == next.Keys
    ensures Given(actions, disk) == Given([actions[0]], disk) + Given(actions[1..], next)
    ensures Given(actions[1..], disk) == Given(actions[1..], next)
  {
    assert [actions[0]][1..] == [];
    SameGiven(actions[1..], disk, next);
  }

  lemma {:induction false} SameGiven(actions: seq<Action>, disk: Disk, next: Disk)
    requires disk.Keys == next.Keys
    ensures Given(actions, disk) == Given(actions, next)
  {
    if actions != [] {
      SameGiven(actions[1..], disk, next);
      assert actions[0].Continue? ==> (actions[0].handle in disk.Keys <==> actions[0].handle in next.Keys);
    }
  }

  /** Whatever session it was and whatever is called after it: once an import is completed by a session for
      which the client supplies the files, no call crashes, no data that is written reaches any file, each
      file gains exactly one receipt for every time it is handed over, and each of those is an output. */
  lemma OnlyReceiptsFollow(w: World, actions: seq<Action>)
    requires !w.session.agentCreates
    ensures var done := WriteDataComplete(w).0;
      WriteDataComplete(w).1 == KErrCANewFileHandleRequired && ActAll(done, actions).Some? &&
      var end := ActAll(done, actions).value;
      && done.disk == w.disk && end.disk.Keys == w.disk.Keys && Destroy(end) == end.disk
      && (forall name | name in w.disk :: end.disk[name] == w.disk[name] + Receipts(Handed(actions, name)))
      && end.session.outputs == done.session.outputs + Given(actions, w.disk)
  {
    hide ActAll, Receipts, Handed, Given;
    FinishedActs(WriteDataComplete(w).0, actions);
  }

  // ---------- what destroying the session takes away ----------

  /** What the calls so far say of what destroying will do: how often the import was completed, and
      whether there was a write before the first completion, and one after it. */
  datatype History = History(completes: nat, before: bool, after: bool)

  function Note(h: History, a: Action): History {
    match a
    case Write(_) => if h.completes == 0 then h.(before := true) else h.(after := true)
    case Complete => h.(completes := h.completes + 1)
    case Continue(_, _) => h
  }

  function Story(h: History, actions: seq<Action>): History
    decreases |actions|
  {
    if actions == [] then h else Story(Note(h, actions[0]), actions[1..])
  }

  const NO_CALLS := History(0, false, false)

  /** A call meets the name of an output: the first completion that of the content just finished,
      which is also the receipt's; a later write that of the content, or of the receipt standing in
      its place; a second completion that of the receipt. */
  predicate MeetsOutput(h: History, disk: Disk, content: string, receipt: string) {
    || h.completes > 1
    || (h.completes == 1 && h.before && content == receipt)
    || (h.completes == 1 && receipt !in disk && h.after && (h.before || content == receipt))
  }

  /** The last name met is that of a file that was on disk before the session. */
  predicate MeetsOther(h: History, disk: Disk, content: string, receipt: string) {
    if h.completes == 0 then h.before && content in disk
    else receipt in disk || (h.completes == 1 && h.after && content in disk)
  }

  ghost function Names(outputs: seq<OutputFile>): set<string> {
    set o | o in outputs :: o.name
  }

  lemma NamesAppend(a: seq<OutputFile>, o: OutputFile)
    ensures Names(a + [o]) == Names(a) + {o.name}
  {
    assert forall x :: x in a + [o] <==> x in a || x == o;
  }

  /** A session in which the agent creates the files, after calls with the given history. */
  ghost predicate AgentState(w: World, h: History, disk: Disk) {
    var s, content, receipt := w.session, ContentName(w.session), ReceiptName(w.session);
    var written := if h.before then {content} else {};
    && s.agentCreates && s.lastWrite.None? && !s.waitingForReceipt
    && (s.fileOpen ==> s.file == content && s.outputName == Some(content))
    && disk.Keys + written <= w.disk.Keys && Names(s.outputs) <= w.disk.Keys
    && (s.outputName.Some? ==> s.outputName.value in w.disk)
    && if h.completes == 0 then
         && !h.after && s.outputs == [] && w.disk.Keys == disk.Keys + written
         && s.outputName == if h.before then Some(content) else None
       else
         && receipt in w.disk
         && if h.completes > 1 then s.outputName == Some(receipt) && receipt in Names(s.outputs)
            else if receipt in disk || receipt in written then
              s.outputName == Some(receipt) && Names(s.outputs) == written
            else
              && Names(s.outputs) == written + {receipt}
              && s.outputName == (if h.after then Some(content) else None)
              && (!h.after ==> w.disk.Keys == disk.Keys + written + {receipt})
  }

  lemma AgentWrite(w: World, h: History, disk: Disk, data: seq<byte>)
    requires AgentState(w, h, disk)
    ensures AgentState(WriteData(w, data).0, Note(h, Write(data)), disk)
  {
    hide Names;
  }

  lemma AgentComplete(w: World, h: History, disk: Disk)
    requires AgentState(w, h, disk)
    ensures AgentState(WriteDataComplete(w).0, Note(h, Complete), disk)
  {
    hide Wide, Names;
    var s, receipt := w.session, ReceiptName(w.session);
    NoNames();
    ClosedNames(s);
    NamesAppend(Closed(s).outputs, ReceiptEntry(receipt));
  }

  lemma ClosedNames(s: Session)
    ensures Names(Closed(s).outputs)
      == Names(s.outputs) + if s.outputName.Some? then {s.outputName.value} else {}
  {
    if s.outputName.Some? {
      NamesAppend(s.outputs, ContentEntry(s.outputName.value));
    } else {
      assert s.outputs + [] == s.outputs;
    }
  }

  lemma NoNames()
    ensures Names([]) == {}
  {
  }

  lemma AgentAct(w: World, h: History, disk: Disk, a: Action)
    requires AgentState(w, h, disk) && Act(w, a).Some?
    ensures AgentState(Act(w, a).value, Note(h, a), disk)
  {
    match a
    case Write(data) => AgentWrite(w, h, disk, data);
    case Complete => AgentComplete(w, h, disk);
    case Continue(handle, name) =>
      hide AgentState, WriteData, Wide;
      assert w.session.lastWrite.None? && !w.session.waitingForReceipt by { AgentSaves(w, h, disk); }
  }

  lemma AgentSaves(w: World, h: History, disk: Disk)
    requires AgentState(w, h, disk)
    ensures w.session.lastWrite.None? && !w.session.waitingForReceipt
  {
  }

  lemma {:induction false} AgentActs(w: World, h: History, disk: Disk, actions: seq<Action>)
    requires AgentState(w, h, disk) && ActAll(w, actions).Some?
    ensures AgentState(ActAll(w, actions).value, Story(h, actions), disk)
    ensures var s := ActAll(w, actions).value.session;
      ContentName(s) == ContentName(w.session) && ReceiptName(s) == ReceiptName(w.session)
    decreases |actions|
  {
    hide AgentState, Act, ContentName, ReceiptName;
    if actions != [] {
      AgentAct(w, h, disk, actions[0]);
      SameNames(w, actions[0]);
      AgentActs(Act(w, actions[0]).value, Note(h, actions[0]), disk, actions[1..]);
    }
  }

  lemma SameNames(w: World, a: Action)
    requires Act(w, a).Some?
    ensures var s := Act(w, a).value.session;
      ContentName(s) == ContentName(w.session) && ReceiptName(s) == ReceiptName(w.session)
  {
    hide Wide;
  }

  /** For any calls on a session in which the agent creates the files: destroying it takes away one of
      its finished outputs if and only if some call met the name of one, and a file that was there before
      the session if and only if the last name met was that of one. Both are read off the calls and the
      disk at the start. */
  lemma DestroyTakesExactly(directory: string, suggested: string, disk: Disk, actions: seq<Action>)
    requires ActAll(World(Begun(true, directory, suggested), disk), actions).Some?
    ensures var w := ActAll(World(Begun(true, directory, suggested), disk), actions).value;
      var h, left := Story(NO_CALLS, actions), Destroy(w);
      var content, receipt := directory + suggested, directory + "receipt.txt";
      && ((forall o | o in w.session.outputs :: o.name in left) <==> !MeetsOutput(h, disk, content, receipt))
      && ((forall name | name in disk :: name in left) <==> !MeetsOther(h, disk, content, receipt))
  {
    var start := World(Begun(true, directory, suggested), disk);
    assert AgentState(start, NO_CALLS, disk) by { NoNames(); }
    AgentActs(start, NO_CALLS, disk, actions);
    hide ActAll, Story;
    var w := ActAll(start, actions).value;
    KeptNames(w);
    hide Names;
  }

  lemma KeptNames(w: World)
    requires Names(w.session.outputs) <= w.disk.Keys
    ensures (forall o | o in w.session.outputs :: o.name in Destroy(w))
      <==> w.session.outputName.None? || w.session.outputName.value !in Names(w.session.outputs)
  {
    var s := w.session;
    assert forall o | o in s.outputs :: o.name in Names(s.outputs);
    if s.outputName.Some? && s.outputName.value in Names(s.outputs) {
      var o :| o in s.outputs && o.name == s.outputName.value;
      assert o.name !in Destroy(w);
    }
  }

  /** So one write more, after an import in which everything went well, has the content go with the
      session. */
  lemma WriteAfterSuccess(directory: string, suggested: string, disk: Disk, chunks: seq<seq<byte>>, data: seq<byte>)
    requires chunks != [] && NamesFree(disk, chunks, directory + suggested, directory + "receipt.txt")
    ensures var w := AgentImport(Begun(true, directory, suggested), disk, chunks).0;
      && WriteData(w, data).1 == KErrAlreadyExists
      && ContentEntry(directory + suggested) in w.session.outputs
      && Destroy(WriteData(w, data).0) == w.disk - {directory + suggested}
  {
    hide Wide, Concat, Writes;
    var s := Begun(true, directory, suggested);
    AgentImports(directory, suggested, disk, chunks);
    AgentWrites(s, disk, chunks);
    var w := AgentImport(s, disk, chunks).0;
    var next := WriteData(w, data).0;
    assert next.disk == w.disk && next.session.outputName == Some(directory + suggested);
    assert ContentEntry(directory + suggested) == Outputs(chunks, directory + suggested, directory + "receipt.txt")[0];
  }
}
