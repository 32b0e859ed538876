/** The import session object, and the copy of a rights file into one. */
module ImportFile {
  import opened Errors
  import opened FileHandle
  import opened DirectorySearch
  import opened ImportSession
  import opened ImportTheorems
  import opened Options

  /** The file server and the files it holds. */
  class FileServer {
    var disk: Disk

    constructor (disk: Disk)
      ensures this.disk == disk
    {
      this.disk := disk;
    }

    method Create(name: string) returns (err: int)
      modifies this
      ensures err == if name in old(disk) then KErrAlreadyExists else KErrNone
      ensures disk == if name in old(disk) then old(disk) else old(disk)[name := []]
    {
      if name in disk {
        return KErrAlreadyExists;
      }
      disk := disk[name := []];
      return KErrNone;
    }

    method Write(name: string, data: seq<byte>)
      modifies this
      ensures disk == Append(old(disk), name, data)
    {
      disk := disk[name := (if name in disk then disk[name] else []) + data];
    }

    method Delete(name: string)
      modifies this
      ensures disk == old(disk) - {name}
    {
      disk := disk - {name};
    }
  }

  class TestAgentImportFile {
    const fs: FileServer
    const agentCreatesOutputFiles: bool
    const outputDirectory: string
    const suggestedFileName: string
    var fileOpen: bool
    var file: string                          // the file behind the handle
    var outputFileName: Option<string>
    var lastWriteData: Option<seq<byte>>
    var waitingForReceiptHandle: bool
    var outputFiles: seq<OutputFile>

    constructor Begin(fs: FileServer, agentCreates: bool, directory: string, suggestedName: string)
      ensures this.fs == fs && Now() == World(Begun(agentCreates, directory, suggestedName), fs.disk)
    {
      this.fs, agentCreatesOutputFiles := fs, agentCreates;
      outputDirectory, suggestedFileName := directory, suggestedName;
      fileOpen, file, outputFileName, lastWriteData := false, "", None, None;
      waitingForReceiptHandle, outputFiles := false, [];
    }

    /** Sessions are only for the agent's own type, however its letters are written. */
    static method NewL(fs: FileServer, mimeType: string, agentCreates: bool, directory: string, suggestedName: string)
      returns (err: int, it: TestAgentImportFile?)
      requires |mimeType| <= KMaxDataTypeLength
      ensures err == if Fold(mimeType) == "application/testagent.drm" then KErrNone else KErrCANotSupported
      ensures err != KErrNone <==> it == null
      ensures it != null ==>
        fresh(it) && it.fs == fs && it.Now() == World(Begun(agentCreates, directory, suggestedName), fs.disk)
    {
      if Fold(mimeType) != DRM_TYPE {
        return KErrCANotSupported, null;
      }
      it := new TestAgentImportFile.Begin(fs, agentCreates, directory, suggestedName);
      return KErrNone, it;
    }

    /** The session as a value. */
    function Now(): World
      reads this, fs
    {
      World(Session(agentCreatesOutputFiles, outputDirectory, suggestedFileName, fileOpen, file, outputFileName,
                    lastWriteData, waitingForReceiptHandle, outputFiles), fs.disk)
    }

    method OpenOutputFile() returns (err: int)
      modifies this, fs
      ensures (Now(), err) == ImportSession.OpenOutputFile(old(Now()))
    {
      if outputFileName.Some? {
        return KErrInUse;
      }
      if agentCreatesOutputFiles {
        var name := outputDirectory + suggestedFileName;
        outputFileName := Some(name);
        err := fs.Create(name);
        if err == KErrNone {
          file, fileOpen := name, true;
        }
        return err;
      } else {
        return KErrCANewFileHandleRequired;
      }
    }

    method WriteData(data: seq<byte>) returns (err: int)
      modifies this, fs
      ensures (Now(), err) == ImportSession.WriteData(old(Now()), data)
    {
      err := KErrNone;
      if !fileOpen {
        err := OpenOutputFile();
      }
      if err == KErrNone {
        fs.Write(file, data);
      }
      if err == KErrCANewFileHandleRequired {
        lastWriteData := Some(data);
      }
    }

    /** The start of completion: the content file becomes an output. */
    method CloseContent()
      modifies this
      ensures Now() == World(Closed(old(Now().session)), old(fs.disk)) && outputFileName == None
    {
      fileOpen := false;
      if outputFileName.Some? {
        outputFiles := outputFiles + [OutputFile(outputFileName.value, Content, DRM_TYPE)];
        outputFileName := None;
      } else {
        assert outputFiles == outputFiles + [];
      }
    }

    method WriteDataComplete() returns (err: int)
      modifies this, fs
      ensures (Now(), err) == ImportSession.WriteDataComplete(old(Now()))
    {
      hide Wide, Closed;
      CloseContent();
      if !agentCreatesOutputFiles {
        waitingForReceiptHandle := true;
        return KErrCANewFileHandleRequired;
      }
      var name := outputDirectory + RECEIPT_NAME;
      outputFileName := Some(name);
      err := fs.Create(name);
      if err != KErrNone {
        return err;
      }
      WriteReceipt(name);
      assert fs.disk == old(fs.disk)[name := Wide(RECEIPT_TEXT)];
      outputFiles := outputFiles + [OutputFile(name, Receipt, RECEIPT_TYPE)];
      outputFileName := None;
    }

    method WriteReceipt(name: string)
      requires name in fs.disk && fs.disk[name] == []
      modifies fs
      ensures fs.disk == old(fs.disk)[name := Wide(RECEIPT_TEXT)]
    {
      hide Wide;
      fs.Write(name, Wide(RECEIPT_TEXT));
      assert [] + Wide(RECEIPT_TEXT) == Wide(RECEIPT_TEXT);
    }

    method ContinueWithNewOutputFile(handle: string, name: string) returns (reply: Reply)
      modifies this, fs
      ensures var (after, r) := ImportSession.ContinueWithNewOutputFile(old(Now()), handle, name);
        Now() == after && reply == r
    {
      hide Wide;
      if handle !in fs.disk {
        return Returned(KErrBadHandle);
      }
      file := handle;
      if waitingForReceiptHandle {
        fs.Write(file, Wide(RECEIPT_TEXT));
        outputFiles := outputFiles + [OutputFile(name, Receipt, RECEIPT_TYPE)];
        return Returned(KErrNone);
      }
      fileOpen := true;
      outputFileName := Some(name);
      if lastWriteData.None? {
        return Crashed;
      }
      var err := WriteData(lastWriteData.value);
      return Returned(err);
    }

    /** The name is the receipt's exactly when any handle supplied next becomes the receipt. */
    method GetSuggestedOutputFileName() returns (name: string)
      ensures name == "RECEIPT.TXT" || name == "OUTPUTFILE.DRM"
      ensures forall handle, given | handle in fs.disk ::
        name == "RECEIPT.TXT" <==>
        ImportSession.ContinueWithNewOutputFile(Now(), handle, given).0.session.outputs
          == outputFiles + [ReceiptEntry(given)]
    {
      if waitingForReceiptHandle {
        name := "RECEIPT.TXT";
      } else {
        name := "OUTPUTFILE.DRM";
      }
      forall handle, given | handle in fs.disk
        ensures name == "RECEIPT.TXT" <==>
          ImportSession.ContinueWithNewOutputFile(Now(), handle, given).0.session.outputs
            == outputFiles + [ReceiptEntry(given)]
      {
        SuggestionKept(Now(), handle, given);
        hide ImportSession.ContinueWithNewOutputFile;
      }
    }

    /** The destructor. */
    method Destroy()
      modifies this, fs
      ensures fs.disk == ImportSession.Destroy(old(Now()))
    {
      fileOpen := false;
      if outputFileName.Some? {
        fs.Delete(outputFileName.value);
      }
    }
  }

  /** What importing rights must come to: the bytes and a receipt on disk, or, when one of the
      names was taken, an error, and the file of that name gone with the session. */
  function Imported(disk: Disk, content: string, receipt: string, bytes: seq<byte>): Disk {
    if content in disk then disk - {content}
    else if receipt == content || receipt in disk then disk[content := bytes] - {receipt}
    else disk[content := bytes][receipt := Wide("This is a receipt")]
  }

  /** The rights file is read, from where its handle stands, a buffer at a time into an import session
      until nothing is left; the session is destroyed whether that succeeds or not. */
  method ImportRights(rights: RFile, session: TestAgentImportFile) returns (err: int)
    requires session.Now().session == Begun(true, session.outputDirectory, session.suggestedFileName)
    modifies rights, session, session.fs
    ensures var content := session.outputDirectory + session.suggestedFileName;
      var receipt := session.outputDirectory + "receipt.txt";
      && session.fs.disk == Imported(old(session.fs.disk), content, receipt, RestOf(rights.bytes, old(rights.pos)))
      && (err == KErrNone <==>
            content !in old(session.fs.disk) && receipt !in old(session.fs.disk) && content != receipt)
  {
    hide Wide;
    err := CopyRights(rights, session);
    if err != KErrNone {
      session.Destroy();
      return;
    }
    err := session.WriteDataComplete();
    session.Destroy();
  }

  lemma ReadOn(all: seq<byte>, done: seq<byte>, bytes: seq<byte>, pos: nat, max: nat)
    requires max > 0 && all == done + RestOf(bytes, pos)
    ensures var buf := ReadAt(bytes, pos, max);
      var rest := RestOf(bytes, pos + |buf|);
      && all == done + buf + rest
      && (|buf| == 0 ==> rest == []) && (|buf| > 0 ==> |rest| < |RestOf(bytes, pos)|)
  {
    ReadSplits(bytes, pos, max);
  }

  lemma CopyStep(start: World, now: World, first: bool, done: seq<byte>, buf: seq<byte>)
    requires start.session == Begun(true, start.session.directory, start.session.suggestedName)
    requires if first then now == start && done == []
             else ContentName(start.session) !in start.disk && now == Copying(start, done)
    ensures var content := ContentName(start.session);
      ImportSession.WriteData(now, buf)
      == if content in start.disk then
           (start.(session := start.session.(outputName := Some(content))), KErrAlreadyExists)
         else (Copying(start, done + buf), KErrNone)
  {
    hide ImportSession.WriteData, Copying;
    if first {
      FirstWrite(start, buf);
      assert done + buf == buf;
    } else {
      NextWrite(start, done, buf);
    }
  }

  method CopyRights(rights: RFile, session: TestAgentImportFile) returns (err: int)
    requires session.Now().session == Begun(true, session.outputDirectory, session.suggestedFileName)
    modifies rights, session, session.fs
    ensures var start := old(session.Now());
      var content := ContentName(start.session);
      if content in start.disk then
        && err == KErrAlreadyExists
        && session.Now() == start.(session := start.session.(outputName := Some(content)))
      else err == KErrNone && session.Now() == Copying(start, RestOf(rights.bytes, old(rights.pos)))
  {
    hide ImportSession.WriteData, Copying, ContentName, ReadAt, RestOf;
    assert session.Now().session.directory == session.outputDirectory;
    assert session.Now().session.suggestedName == session.suggestedFileName;
    hide TestAgentImportFile.Now, Begun;
    ghost var start := session.Now();
    ghost var done: seq<byte> := [];
    ghost var all := RestOf(rights.bytes, rights.pos);
    assert done + all == all;
    ghost var first := true;
    var dataLen: nat := 1;
    err := KErrNone;
    while dataLen > 0
      invariant err == KErrNone && (first ==> dataLen > 0)
      invariant if first then session.Now() == start && done == []
                else ContentName(start.session) !in start.disk && session.Now() == Copying(start, done)
      invariant all == done + RestOf(rights.bytes, rights.pos)
      invariant dataLen == 0 ==> RestOf(rights.bytes, rights.pos) == []
      decreases |RestOf(rights.bytes, rights.pos)|, dataLen
    {
      ReadOn(all, done, rights.bytes, rights.pos, 128);
      var buf := rights.Read(128);
      dataLen := |buf|;
      CopyStep(start, session.Now(), first, done, buf);
      err := session.WriteData(buf);
      if err != KErrNone {
        return;
      }
      done, first := done + buf, false;
    }
    assert done + [] == done;
  }
}
