# Content access: search, import, protected files and the root certificate list

A Dafny 4.11 model of the security package's hardest code, with proofs about all inputs, all runs
or all reachable states. `dafny verify dfyconfig.toml` checks the whole project.

## What is modelled

**The content search** has three layers.

* `ContainerTree`, `EnumerationProofs`, `ListExactness`, `ListIff`, `ListTheorem`, `ClosingVariant`,
  `DriftExamples`, `TypedListing`, `EmbeddedIterator`: one file is a tree of containers behind a single movable
  cursor. `Enumerate` says what the iterator does to tree and cursor as a whole; the class
  `EmbeddedContentIteratorBase`, with the fields and loops of the source, is proved to deliver it one
  call at a time. A container in which nothing was found is not closed by the source. So the proofs
  say exactly when that does no harm: to list and cursor together (`EnumeratesExactlyIff`), to the list
  alone (`FoundExactlyIff`, by the classification `TailOf` of the tree), and for all trees with the
  missing close added (`ClosingEnumerates`).
* `DirectorySearch`, `VisitedPaths`, `VisitedFiles`, `FileIterator`: files and directories around that, with path
  buffers that are owned, borrowed and freed, and a termination measure for any file system.
* `SearchTurns`, `IteratorThread`, `Protocol`, `ProtocolSafety`, `ProtocolLiveness`,
  `ProtocolEffort`, `ProtocolShutdown`, `ProtocolCalls`, `EndToEnd`: the worker thread and any number of client threads
  around two semaphores. The protocol is a state machine with a step for every access that another
  thread could see, each copy of `SetData` included. `WorkerThread` is the worker's code over the
  iterator objects; `EndToEnd` joins the layers.

`TestAgentContent` is the one concrete agent: its flag refines the cursor of the tree model.

**The import session** (`ImportSession`, `ImportTheorems`, `ImportFile`): a session with its disk as a
value, whole runs in both modes, the class whose methods are proved against it, and the copy loop of
the key stream decoder on top of it.

**The protected file** (`FileHandle`, `DrmHeader`, `DrmContent`, `Uintvar`): header, view and number
decoding, the view compared with a plain file over whole sequences of calls.

**The certificate list** (`Text`, `CertData`, `CertRoundTrip`, `CertStops`, `CertRecord`,
`TrustMapping`): the line-oriented parser over one shared file iterator, with a printer it inverts and
the exact places where it stops.

## Where the code is not what it seems

Each of these is a theorem below or a branch of the model.

* The embedded iterator stores its recursive flag and never reads it: containers are always searched.
* A failed search inside a container leaves the shared cursor inside it. With the reference agent's own
  files that happens in every search.
* The reference agent's own search looks at the content and then at the file until one is of the type:
  it gives one object at most, and for it an empty type does not mean any.
* A `Next` that waits for the lock while `Cancel` takes it is never completed, and keeps every later
  caller waiting. Calling no `Next` after `Cancel` is not enough; none may be waiting either.
* The receipt's name being taken, or the content's, makes destroying the session delete the file that
  was there; after an import that went well one write more is enough for that. The flag for the receipt
  handle is never reset.
* `data.h` (lines 529-530) says a seek from the start does not change its argument; the protected file
  clamps it to the size. That is why seeks from the start beyond the end are not proper calls. Its read
  at a given position does not check for positions inside the header.
* `Next` of the certificate record reports success with fields of an earlier record when the object
  found is of another class or the labels differ. A mapping line with an even number of fields stops
  the script in its own error message.

## Assumptions

* A directory or file that does not exist fails to list (KErrPathNotFound) or to open; listings are
  fixed lists, in the order given. The file names of a volume are compared as they are written, and
  case folding of `sys`, of types and of extensions is that of ASCII.
* A call of the file server seeks to any place from the start that is not negative, and clamps seeks
  from the current position and the end to the file; reads stop at the end; a read at a given position
  refuses negative positions and leaves the file's own alone. Files are smaller than 2^31 bytes, so
  positions do not wrap. A handle supplied to an import is at the end of its file.
  A seek to an address fails with KErrNotSupported, as for a file that is not in ROM.
* The data of a protected file starts at the offset its header gives from the start of the file, wherever
  the header was read.
* Semaphores are counters that block at zero; each access of a thread that another could see is one step.
  `Cancel` returns when the worker has exited, which is the request its active object waits for; once
  called it does nothing more, since the object is no longer active, and only one thread calls it.
* Text files are lists of lines without their line ends.

## Model

| member | source | states |
|---|---|---|
| ContainerTree.OpenAt | contentmgmt/contentaccessfwfordrm/inc/content.h:196-210 | opening descends into a child with the id, and leaves the cursor where it is exactly when no child of the open container has it |
| ContainerTree.CloseAt | contentmgmt/contentaccessfwfordrm/inc/content.h:215-224 | closing leaves one container, and the outermost level cannot be left |
| EnumerationProofs.FailedSearchDrifts | contentmgmt/referencedrmagent/contentiterator/embeddedcontentiteratorbase.cpp:136-152 | the exact drift: searching any subtree without a match finds nothing and leaves the cursor at the end of its first-container chain |
| EnumerationProofs.DenseEnumerates | contentmgmt/referencedrmagent/contentiterator/embeddedcontentiteratorbase.cpp:40-153 | when every container below holds a match and sibling ids differ, the run finds the pre-order list and ends with the cursor where it began |
| EnumerationProofs.UntaintedIsFound | contentmgmt/referencedrmagent/contentiterator/embeddedcontentiteratorbase.cpp:138-147 | a subtree all of whose containers hold matches is never mistaken for an empty one, whatever its ids |
| EnumerationProofs.TaintDrifts | contentmgmt/referencedrmagent/contentiterator/embeddedcontentiteratorbase.cpp:136-152 | once the cursor has drifted it never comes back, and one container without a match below makes it drift |
| EnumerationProofs.EnumeratesExactlyIff | contentmgmt/referencedrmagent/contentiterator/embeddedcontentiteratorbase.cpp:40-153 | for distinct sibling ids: list and final cursor are both right if and only if every container below holds a match |
| ListTheorem.TailHolds | contentmgmt/referencedrmagent/contentiterator/embeddedcontentiteratorbase.cpp:80-153 | for unique ids: what a search leaves open is what is computed from the tree alone, and when that is not Wrong the list found is the flattened tree, drift or no drift |
| ListTheorem.WrongIsBad | contentmgmt/referencedrmagent/contentiterator/embeddedcontentiteratorbase.cpp:136-152 | in every tree classified Wrong a match is missed or an object is found twice |
| ListTheorem.FoundExactlyIff | contentmgmt/referencedrmagent/contentiterator/embeddedcontentiteratorbase.cpp:80-153 | for unique ids and objects: the list found is the flattened tree if and only if the tree is not classified Wrong, a test made before the search |
| ListTheorem.FindsItsMatches | contentmgmt/referencedrmagent/contentiterator/embeddedcontentiteratorbase.cpp:136-152 | for unique ids: in a tree not classified Wrong a subtree with a match is never reported as having none, drifted or not |
| ClosingVariant.ClosingEnumerates | contentmgmt/referencedrmagent/contentiterator/embeddedcontentiteratorbase.cpp:138-149 | with CloseContainer added on the failure path the run is right, cursor included, for all trees with distinct sibling ids |
| DriftExamples.MissesEverything | contentmgmt/referencedrmagent/contentiterator/embeddedcontentiteratorbase.cpp:138-149 | a file with a match that the search as written reports as having none |
| DriftExamples.FindsTwice | contentmgmt/referencedrmagent/contentiterator/embeddedcontentiteratorbase.cpp:138-149 | a file of which one object is reported twice and another never |
| TypedListing.FlattenIsOfType | contentmgmt/referencedrmagent/contentiterator/embeddedcontentiteratorbase.cpp:106-126 | the flattened tree is the whole tree in order when no type is asked for, and otherwise exactly its objects of that type, in order |
| TypedListing.FlattenHas | contentmgmt/referencedrmagent/contentiterator/embeddedcontentiteratorbase.cpp:106-126 | an object is in the flattened tree if and only if it is in the tree and the type asked for is none or its own |
| TypedListing.FoundAreOfType | contentmgmt/referencedrmagent/contentiterator/embeddedcontentiteratorbase.cpp:106-126 | whatever tree is searched, drift or not: every object found is in it and of the type asked for |
| EmbeddedIterator.Content.OpenContainer | contentmgmt/contentaccessfwfordrm/inc/content.h:196-210 | the loop over the children opens the first with the id and fails with KErrNotFound otherwise, cursor unmoved |
| EmbeddedIterator.Content.CloseContainer | contentmgmt/contentaccessfwfordrm/inc/content.h:215-224 | moves the cursor out by one, KErrNotFound at the outermost level |
| EmbeddedIterator.EmbeddedContentIteratorBase.NewL | contentmgmt/referencedrmagent/contentiterator/embeddedcontentiteratorbase.cpp:40-49 | stands on the first object of the whole run from the current cursor, with the rest still to come; fails exactly when that run finds nothing, the cursor then where the run ends |
| EmbeddedIterator.EmbeddedContentIteratorBase.Next | contentmgmt/referencedrmagent/contentiterator/embeddedcontentiteratorbase.cpp:80-153 | each call delivers the next object of the run, once; then KErrNotFound for ever, with the cursor where the run ends; after success an object is defined at every level |
| EmbeddedIterator.EmbeddedContentIteratorBase.NextInside | contentmgmt/referencedrmagent/contentiterator/embeddedcontentiteratorbase.cpp:86-103 | the open container is continued and, once exhausted, closed and dropped with nothing lost |
| EmbeddedIterator.EmbeddedContentIteratorBase.NextContent | contentmgmt/referencedrmagent/contentiterator/embeddedcontentiteratorbase.cpp:106-133 | the first loop stops at the next matching object or frees the list when there is none |
| EmbeddedIterator.EmbeddedContentIteratorBase.NextContainer | contentmgmt/referencedrmagent/contentiterator/embeddedcontentiteratorbase.cpp:135-152 | the second loop stops inside the next container in which the run finds something, or ends the run |
| EmbeddedIterator.EmbeddedContentIteratorBase.TryContainer | contentmgmt/referencedrmagent/contentiterator/embeddedcontentiteratorbase.cpp:136-149 | one turn of that loop: open, search, and on failure go on without closing |
| EmbeddedIterator.EmbeddedContentIteratorBase.CurrentIsInnermost | contentmgmt/referencedrmagent/contentiterator/embeddedcontentiteratorbase.cpp:67-78 | whenever the iterator is on an object: it is the one that the iterator at the end of the live chain took last from its container, of the type looked for, and in the subtree searched, drift or no drift |
| EmbeddedIterator.EmbeddedContentIteratorBase.EmbeddedObject | contentmgmt/referencedrmagent/contentiterator/embeddedcontentiteratorbase.cpp:67-78 | the recursion down the sub-iterators returns that object, a match from the subtree searched |
| EmbeddedIterator.EmbeddedContentIteratorBase.CursorFollowsChain | contentmgmt/referencedrmagent/contentiterator/embeddedcontentiteratorbase.cpp:80-153 | when every container below holds a match, the shared cursor is the start plus the containers of the live sub-iterator chain, between any two calls |
| DirectorySearch.Find | contentmgmt/referencedrmagent/contentiterator/FileContentIterator.cpp:42-57 | KErrPathNotFound exactly for an empty or unknown path; nothing found is KErrNotFound, and otherwise there is at least one object |
| DirectorySearch.EntriesTell | contentmgmt/referencedrmagent/contentiterator/embeddedcontentiterator.cpp:69-87 | each entry has the file's name and the object's own id, name and type |
| DirectorySearch.SkippedExactly | contentmgmt/referencedrmagent/contentiterator/FileContentIteratorbase.cpp:168-173 | a directory is passed over exactly under a path of three characters with one of the eight spellings of sys |
| VisitedFiles.VisitedExactly | contentmgmt/referencedrmagent/contentiterator/FileContentIteratorbase.cpp:122-200 | a file is visited if and only if it is listed in the directory searched or, in a recursive search, in one that a chain of listed directories leads to, none of them the sys of a drive |
| VisitedPaths.SearchIsVisited | contentmgmt/referencedrmagent/contentiterator/FileContentIteratorbase.cpp:122-200 | a search of a directory is the concatenation of the searches of the files visited, in visiting order |
| VisitedPaths.PathsDistinct | contentmgmt/referencedrmagent/contentiterator/FileContentIteratorbase.cpp:138-139 | names that are backslash-free and distinct in each directory give every visited file a different full path |
| VisitedPaths.VisitedInside | contentmgmt/referencedrmagent/contentiterator/FileContentIteratorbase.cpp:181-183 | every visited file's path extends the path searched |
| VisitedPaths.SearchIsFlattening | contentmgmt/referencedrmagent/contentiterator/FileContentIteratorbase.cpp:97-204 | when every visited file's own search is right, the whole search is the flattened trees of the visited files in order |
| VisitedPaths.SearchIsFlatteningIff | contentmgmt/referencedrmagent/contentiterator/FileContentIteratorbase.cpp:97-204 | where names, ids and objects can be told apart: the whole search is the flattened trees if and only if no visited file that opens is classified Wrong |
| VisitedPaths.FlatEntriesTell | contentmgmt/referencedrmagent/contentiterator/embeddedcontentiterator.cpp:69-87 | the entries of the whole listing are its objects one for one, each with its file's name and its own id, name and type |
| VisitedPaths.FlatObjectsHas | contentmgmt/referencedrmagent/contentiterator/embeddedcontentiteratorbase.cpp:106-126 | a file's object is in the listing if and only if the file is visited and opens, the object is in its tree, and the type asked for is none or its own |
| FileIterator.EmbeddedContentIterator.NewL | contentmgmt/referencedrmagent/contentiterator/embeddedcontentiterator.cpp:53-67 | a fresh cursor per file, on the first object of the run through it; fails exactly when the file cannot be opened or the run finds nothing |
| FileIterator.EmbeddedContentIterator.Next | contentmgmt/referencedrmagent/contentiterator/embeddedcontentiterator.cpp:89-92 | the next object of that run, with the file's name |
| FileIterator.FileContentIteratorBase.NewL | contentmgmt/referencedrmagent/contentiterator/FileContentIteratorbase.cpp:52-67 | stands on the first object of the directory's search; KErrPathNotFound for no such directory and KErrNotFound for nothing in it |
| FileIterator.FileContentIteratorBase.Next | contentmgmt/referencedrmagent/contentiterator/FileContentIteratorbase.cpp:97-204 | each call delivers the next object of the recursive search, once, none lost behind files and directories with nothing; the end is sticky; path and sub-iterator are there together or not at all |
| FileIterator.FileContentIteratorBase.NextInside | contentmgmt/referencedrmagent/contentiterator/FileContentIteratorbase.cpp:103-119 | the sub-iterator is continued; when it is exhausted it goes, and then the path it borrowed |
| FileIterator.FileContentIteratorBase.CloseInside | contentmgmt/referencedrmagent/contentiterator/FileContentIteratorbase.cpp:111-118 | every path owned here or below is freed, after the iterator borrowing it, and nothing else is lost |
| FileIterator.FileContentIteratorBase.NextFile | contentmgmt/referencedrmagent/contentiterator/FileContentIteratorbase.cpp:125-157 | the file loop stops in the next file with a match or frees the list with nothing lost |
| FileIterator.FileContentIteratorBase.TryFile | contentmgmt/referencedrmagent/contentiterator/FileContentIteratorbase.cpp:129-153 | one file: a new path of its own, live and kept with the sub-iterator, or freed when the file has nothing |
| FileIterator.FileContentIteratorBase.NextDir | contentmgmt/referencedrmagent/contentiterator/FileContentIteratorbase.cpp:160-203 | the directory loop stops in the next directory with a match or there is nothing left at all |
| FileIterator.FileContentIteratorBase.TryDir | contentmgmt/referencedrmagent/contentiterator/FileContentIteratorbase.cpp:165-198 | one directory: sys is passed over, without a path, only when the path has length 3; anything else is searched under a new path of its own, kept with the sub-iterator or freed |
| FileIterator.FileContentIteratorBase.Delete | contentmgmt/referencedrmagent/contentiterator/FileContentIteratorbase.cpp:69-75 | every path owned at this level and below is freed once; the borrowed one is left to its owner |
| FileIterator.FileContentIterator.NewL | contentmgmt/referencedrmagent/contentiterator/FileContentIterator.cpp:42-57 | refines Find: same error, or standing on the first object with the rest to come |
| FileIterator.FileContentIterator.Next | contentmgmt/referencedrmagent/contentiterator/FileContentIterator.cpp:72-75 | the next object of the search |
| SearchTurns.AfterState | contentmgmt/referencedrmagent/contentiterator/contentiterator.cpp:155-171 | the fields and the iterator after any number of requests, in closed form |
| SearchTurns.TurnsAnswer | contentmgmt/referencedrmagent/contentiterator/contentiterator.cpp:155-174 | although each request overwrites the parameters with results, the n-th answer is the n-th object of the search of the original parameters, then KErrNotFound with the last object left in the fields; after a failed first search every later one is KErrPathNotFound with blank fields |
| IteratorThread.ContentIteratorData.SetData | contentmgmt/referencedrmagent/contentiterator/contentiteratordata.cpp:104-111 | all four fields are replaced |
| IteratorThread.ContentIteratorData.CompleteClientRequest | contentmgmt/referencedrmagent/contentiterator/contentiteratordata.cpp:73-79 | the stored request, and only it, is completed |
| IteratorThread.WorkerThread.Advance | contentmgmt/referencedrmagent/contentiterator/contentiterator.cpp:155-164 | one search step of the real iterator object, with the fields blanked when it is made |
| IteratorThread.WorkerThread.Serve | contentmgmt/referencedrmagent/contentiterator/contentiterator.cpp:154-175 | a request moves iterator object and fields by exactly one turn and completes with its error |
| IteratorThread.ThreadEntry | contentmgmt/referencedrmagent/contentiterator/contentiterator.cpp:145-183 | served in a loop, request n is completed with the n-th answer, and the fields hold the last one |
| Protocol.PutAll | contentmgmt/referencedrmagent/contentiterator/contentiteratordata.cpp:104-111 | the four separate copies of SetData together replace all fields |
| Protocol.InitialInv | contentmgmt/referencedrmagent/contentiterator/contentiteratordata.cpp:45-60 | the invariant holds at the start: one token, in the lock |
| Protocol.RunKeeps | contentmgmt/referencedrmagent/contentiterator/contentiterator.cpp:73-187 | every interleaving of any number of client threads and the worker keeps the invariant |
| Protocol.WorkerKeeps | contentmgmt/referencedrmagent/contentiterator/contentiterator.cpp:145-183 | every worker step keeps it |
| Protocol.ClientKeeps | contentmgmt/referencedrmagent/contentiterator/contentiterator.cpp:73-131 | every client step keeps it |
| Protocol.StartKeeps | contentmgmt/referencedrmagent/contentiterator/contentiterator.cpp:73-131 | so does the start of any call at any time |
| Protocol.WorkerProgress | contentmgmt/referencedrmagent/contentiterator/contentiterator.cpp:154-175 | between any two copies the fields are a known mixture of the state before the request and its result |
| ProtocolSafety.OneAtATime | contentmgmt/referencedrmagent/contentiterator/contentiteratordata.cpp:63-101 | lock + thread semaphore + holders + a worker at work is always 1, so no two threads are ever in the shared fields together |
| ProtocolSafety.EachRequestAnswered | contentmgmt/referencedrmagent/contentiterator/contentiterator.cpp:120-174 | every request posted is completed once, in order, with the error of the sequential search at its position; at most the last is open |
| ProtocolSafety.NoRequestOverwritten | contentmgmt/referencedrmagent/contentiterator/contentiteratordata.cpp:82-87 | when a request is stored every earlier one has been completed |
| ProtocolSafety.ReadsOneResult | contentmgmt/referencedrmagent/contentiterator/contentiterator.cpp:92-118 | what an accessor returns was published by one single request, no older than the last complete when it was called; before any request it is a search parameter |
| ProtocolLiveness.QuietMeansReturned | contentmgmt/referencedrmagent/contentiterator/contentiteratordata.cpp:63-101 | when no step is left all calls have returned, the lock is free and all requests are complete, if and only if the lock was not taken after the worker exited by a call that leaves it to the worker |
| ProtocolLiveness.StrandedForever | contentmgmt/referencedrmagent/contentiterator/contentiterator.cpp:148-183 | and in that case no waiting call ever moves and no request is ever completed |
| ProtocolEffort.RunsAreBounded | contentmgmt/referencedrmagent/contentiterator/contentiterator.cpp:145-183 | between starts of calls every run is finite, by a bound computed from its first state: no livelock |
| ProtocolShutdown.EveryCallReturns | contentmgmt/referencedrmagent/contentiterator/contentiterator.cpp:42-80 | if no Next is called after Cancel, and Cancel not while a Next waits for the lock: however the threads are scheduled they halt within a bounded number of steps, and then every call has returned, the lock is free, every request is complete and a cancelled worker has exited |
| ProtocolShutdown.CleanShutdown | contentmgmt/referencedrmagent/contentiterator/contentiterator.cpp:145-186 | once shutdown is signalled every request is complete, and the worker exits with the token back in the lock |
| ProtocolShutdown.NoSearchAfterShutdown | contentmgmt/referencedrmagent/contentiterator/contentiterator.cpp:150-153 | no later step posts, completes, searches or publishes anything |
| ProtocolShutdown.WaitingNextCanBeStranded | contentmgmt/referencedrmagent/contentiterator/contentiterator.cpp:73-80 | the condition is needed: from every reachable state in which Cancel is called while a Next waits, some interleaving posts that request to an exited worker |
| ProtocolShutdown.LateNextCanBeStranded | contentmgmt/referencedrmagent/contentiterator/contentiterator.cpp:120-131 | and so is its other half: from every state of an orderly use after Cancel, a Next that is called can be stranded in the same way |
| ProtocolShutdown.WaitingNextStrandsOthers | contentmgmt/referencedrmagent/contentiterator/contentiterator.cpp:73-131 | a concrete run of three calls that ends with one of them waiting for ever |
| ProtocolCalls.CancelReturnsAfterExit | contentmgmt/referencedrmagent/contentiterator/contentiterator.cpp:42-80 | in every reachable state after a call of Cancel in which no client is in Cancel any more, the worker has exited, so that what the destructor deletes next is used by nobody |
| ProtocolCalls.RequestsConserved | contentmgmt/referencedrmagent/contentiterator/contentiterator.cpp:120-131 | over any run: the requests stored and those still carried by calls of Next are those that were asked for, each as often |
| ProtocolCalls.AccessorsConserved | contentmgmt/referencedrmagent/contentiterator/contentiterator.cpp:92-118 | over any run: every accessor called has returned or is under way |
| ProtocolCalls.ReadsAreFresh | contentmgmt/referencedrmagent/contentiterator/contentiterator.cpp:92-118 | whatever an accessor returns from some time on was published by a request complete at that time or later |
| ProtocolCalls.NothingIsLost | contentmgmt/referencedrmagent/contentiterator/contentiterator.cpp:42-131 | at the end of an orderly use every request asked for is complete and every accessor called has returned, each as often |
| EndToEnd.ClientIsToldListing | contentmgmt/referencedrmagent/contentiterator/contentiterator.cpp:120-187 | in every interleaving requests succeed once for each object of the listing, in order, and then end |
| EndToEnd.AnswersAreExpectedIff | contentmgmt/referencedrmagent/contentiterator/contentiterator.cpp:120-187 | where names, ids and objects can be told apart: the answers to all requests are those of the flattened listing if and only if no visited file is classified Wrong |
| EndToEnd.ClientReadsListing | contentmgmt/referencedrmagent/contentiterator/contentiterator.cpp:92-118 | and the accessors give that object's file and id, its name and its type |
| TestAgentContent.AgentContent.OpenContainer | contentmgmt/referencedrmagent/TestAgent/testagentcontent.cpp:122-130 | the flag is a cursor into a tree: opening refines opening there, errors included |
| TestAgentContent.AgentContent.CloseContainer | contentmgmt/referencedrmagent/TestAgent/testagentcontent.cpp:132-140 | closing refines closing there |
| TestAgentContent.AgentContent.GetEmbeddedObjects | contentmgmt/referencedrmagent/TestAgent/testagentcontent.cpp:172-207 | the two lists are those of the container the flag stands for |
| TestAgentContent.SearchLeavesDummyOpen | contentmgmt/referencedrmagent/TestAgent/testagentcontent.cpp:122-207 | a search of this agent's files lists the right objects and always leaves the empty container open |
| TestAgentContent.WhatIsListed | contentmgmt/referencedrmagent/TestAgent/testagentcontent.cpp:172-207 | the content under its own type and then the file under the agent's, each if its type is asked for or none is |
| TestAgentContent.AgentContent.Search | contentmgmt/referencedrmagent/TestAgent/testagentcontent.cpp:215-237 | the agent's own search tries the content, then the file, then fails with KErrNotFound |
| TestAgentContent.SearchMissesExactly | contentmgmt/referencedrmagent/TestAgent/testagentcontent.cpp:215-237 | it gives what the iterator lists if and only if a type is asked for that content and file do not share |
| ImportFile.TestAgentImportFile.NewL | contentmgmt/referencedrmagent/TestAgent/testagentimportfile.cpp:72-88 | a session starts only for the agent's type, in any letter case, and empty |
| ImportFile.TestAgentImportFile.OpenOutputFile | contentmgmt/referencedrmagent/TestAgent/testagentimportfile.cpp:90-122 | the file object does to fields and disk what the specification says, error by error |
| ImportFile.TestAgentImportFile.WriteData | contentmgmt/referencedrmagent/TestAgent/testagentimportfile.cpp:124-150 | likewise, with the write saved when a handle is asked for |
| ImportFile.TestAgentImportFile.WriteDataComplete | contentmgmt/referencedrmagent/TestAgent/testagentimportfile.cpp:158-215 | likewise, leaves included |
| ImportFile.TestAgentImportFile.ContinueWithNewOutputFile | contentmgmt/referencedrmagent/TestAgent/testagentimportfile.cpp:285-309 | likewise, with the crash on a handle nobody asked for |
| ImportFile.TestAgentImportFile.Destroy | contentmgmt/referencedrmagent/TestAgent/testagentimportfile.cpp:53-70 | likewise |
| ImportSession.WidePairs | contentmgmt/referencedrmagent/TestAgent/testagentimportfile.cpp:197-202 | the receipt is written two bytes a character, the low one first, in order |
| ImportTheorems.AgentWrites | contentmgmt/referencedrmagent/TestAgent/testagentimportfile.cpp:90-150 | the content file holds every byte handed over, in order, exactly when its name was free; when it was not nothing is written, the first write says so and every later one that the session is in use |
| ImportTheorems.AgentImports | contentmgmt/referencedrmagent/TestAgent/testagentimportfile.cpp:124-215 | all calls succeed exactly when the names are free and distinct; then the disk gains the content, if anything was written, and one receipt, which are the outputs, and destroying takes nothing away |
| ImportTheorems.HandleImports | contentmgmt/referencedrmagent/TestAgent/testagentimportfile.cpp:124-309 | a client that answers every request for a handle at once gets the same files and outputs under its own names |
| ImportTheorems.ModesAgree | contentmgmt/referencedrmagent/TestAgent/testagentimportfile.cpp:90-309 | the two modes end with the same disk and outputs |
| ImportTheorems.NothingOverwritten | contentmgmt/referencedrmagent/TestAgent/testagentimportfile.cpp:90-309 | for any calls in any order: no byte on disk is overwritten or lost before the session is destroyed, outputs only grow, the wait for the receipt is never undone |
| ImportTheorems.OnlyReceiptsFollow | contentmgmt/referencedrmagent/TestAgent/testagentimportfile.cpp:158-184 | of any session for which the client supplies the files, and any calls after completing: nothing crashes, nothing written reaches a file, every file gains exactly one receipt each time it is handed over, and each is an output |
| ImportTheorems.LateAnswer | contentmgmt/referencedrmagent/TestAgent/testagentimportfile.cpp:138-148 | exact conservation: content is the last write before the handle and all later ones; that is everything if and only if the other writes before it were empty |
| ImportTheorems.AgentAborts | contentmgmt/referencedrmagent/TestAgent/testagentimportfile.cpp:53-70 | destroying before completion deletes the content file, and restores the disk exactly when nothing was written or its name was free |
| ImportTheorems.HandleAborts | contentmgmt/referencedrmagent/TestAgent/testagentimportfile.cpp:53-70 | a supplied content file is deleted too and the disk is as it was |
| ImportTheorems.DestroyTakesExactly | contentmgmt/referencedrmagent/TestAgent/testagentimportfile.cpp:53-215 | for any calls in any order on a session in which the agent creates the files: destroying it takes a finished output if and only if a call met the name of one, and a file that was there before if and only if the last name met was that of one; both read off the calls and the disk at the start |
| ImportTheorems.WriteAfterSuccess | contentmgmt/referencedrmagent/TestAgent/testagentimportfile.cpp:90-150 | one write more after an import that went well returns KErrAlreadyExists, and destroying the session then deletes the finished content |
| ImportTheorems.DestroyAfterComplete | contentmgmt/referencedrmagent/TestAgent/testagentimportfile.cpp:186-214 | of any session, in one call: completing fails with KErrAlreadyExists, and destroying right after it takes a file, exactly when the receipt's name was taken; it is that file |
| ImportTheorems.SuggestionKept | contentmgmt/referencedrmagent/TestAgent/testagentimportfile.cpp:266-309 | in every session of either mode the next handle becomes the receipt exactly when the receipt's name is suggested; otherwise it becomes an output once completed, or the call crashes, exactly when no write waits; a bad handle changes nothing |
| ImportFile.TestAgentImportFile.GetSuggestedOutputFileName | contentmgmt/referencedrmagent/TestAgent/testagentimportfile.cpp:266-277 | one of two names, and the receipt's exactly when any handle given next becomes the receipt |
| ImportFile.CopyRights | contentmgmt/cafstreamingsupport/source/keystreamdecoder.cpp:156-162 | the 128-byte loop ends with all that was left to read written, none included, or fails on a taken name |
| ImportFile.ImportRights | contentmgmt/cafstreamingsupport/source/keystreamdecoder.cpp:150-165 | the disk afterwards, for every file, position and disk; it succeeds exactly when the names are free and distinct, and then there are the bytes that were left to read and one receipt |
| FileHandle.RFile.Seek | contentmgmt/referencedrmagent/TestAgent/TestAgentFile.cpp:56-59 | where the file server puts the position (an assumption, see below) |
| DrmHeader.ParseSerialise | contentmgmt/referencedrmagent/TestAgent/TestAgentDrmContent.cpp:42-70 | a written header reads back: type, flag, size, and its length is the data offset |
| DrmHeader.SerialiseParse | contentmgmt/referencedrmagent/TestAgent/TestAgentDrmContent.cpp:42-70 | a header that is read is the one written, when its size is below 2^31 |
| DrmHeader.HeaderLayout | contentmgmt/referencedrmagent/TestAgent/TestAgentDrmContent.cpp:48-67 | which byte is what: length, type, flag, and the size highest byte first |
| DrmHeader.DrmNameExactly | contentmgmt/referencedrmagent/TestAgent/testagentmanager.cpp:343-353 | a name is recognised exactly when it ends in .drm, each letter in either case |
| DrmHeader.RecognizeFileL | contentmgmt/referencedrmagent/TestAgent/testagentmanager.cpp:337-378 | the in-place upper-casing and the branches compute the recognition, the stop on a short buffer included |
| DrmHeader.ReadersAgree | contentmgmt/referencedrmagent/TestAgent/testagentmanager.cpp:343-378 | for every name and every prefix shown: other names are not recognised, three bytes or fewer are not looked at, and beyond that the recogniser reports the parsed type if and only if the flag is T and the prefix holds it, and stops exactly when the prefix is too short |
| DrmContent.TestAgentDrmContent.NewL | contentmgmt/referencedrmagent/TestAgent/TestAgentDrmContent.cpp:42-75 | from any position: opening reads type, size and offset and goes to the start of the data, or, for a negative size, stays behind the header; it stops exactly when what is left is too short for one |
| DrmContent.TestAgentDrmContent.Seek | contentmgmt/referencedrmagent/TestAgent/TestAgentDrmContent.cpp:120-175 | the seek that clamps and then corrects comes to the view's seek in all modes |
| DrmContent.TestAgentDrmContent.Read | contentmgmt/referencedrmagent/TestAgent/TestAgentDrmContent.cpp:105-108 | reads at the file's own position |
| DrmContent.TestAgentDrmContent.ReadFrom | contentmgmt/referencedrmagent/TestAgent/TestAgentDrmContent.cpp:262-266 | reads at a position moved by the data offset |
| DrmContent.TestAgentFile.Seek | contentmgmt/referencedrmagent/TestAgent/TestAgentFile.cpp:56-59 | passes through |
| DrmContent.ViewIsPlainFile | contentmgmt/referencedrmagent/TestAgent/TestAgentDrmContent.cpp:105-175 | for every sequence of calls from every position: the view answers as a plain file of the data if and only if every call is proper: no address seek, no seek from the start beyond the end, no read at a position inside the header |
| DrmContent.SeekStartExactly | contentmgmt/referencedrmagent/TestAgent/TestAgentDrmContent.cpp:138-146 | from any position, for any sizes: a seek from the start hands back the lesser of offset and size, goes there, and a read then gives the data from there on; if that is negative it is refused and nothing moves |
| DrmContent.ViewIsPlainToTheEnd | contentmgmt/referencedrmagent/TestAgent/TestAgentDrmContent.cpp:105-146 | with seeks beyond the end among the calls: the view answers as a plain file told to seek to the end instead, if and only if the other calls are proper |
| DrmContent.ImproperAnswers | contentmgmt/referencedrmagent/TestAgent/TestAgentDrmContent.cpp:128-137 | the exact answers of address seeks, in and out of the data, and of reads at a position inside the header; none of them moves the file |
| DrmContent.ExactlyWhenExact | contentmgmt/referencedrmagent/TestAgent/TestAgentDrmContent.cpp:59-70 | the view is such a file for all proper calls if and only if the file is header plus exactly the announced size |
| DrmContent.StaysInsideData | contentmgmt/referencedrmagent/TestAgent/TestAgentDrmContent.cpp:123-175 | whatever is called, the real position stays within the data |
| Uintvar.ReadTUintvarL | contentmgmt/referencedrmagent/TestAgent/TestAgentDrmContent.cpp:77-102 | the loop, wrapping at 32 bits, computes the decoding with its byte count, its overflow and its stop |
| Uintvar.DecodeEncode | contentmgmt/referencedrmagent/TestAgent/TestAgentDrmContent.cpp:77-102 | reading inverts writing (WAP WSP, section 8.1.2) at any offset, counting bytes exactly; from 2^31 on what 32 bits keep comes back |
| Uintvar.OverflowExactly | contentmgmt/referencedrmagent/TestAgent/TestAgentDrmContent.cpp:86-87 | KErrOverflow if and only if no byte from the offset on ends a number |
| Uintvar.TruncatedOverflows | contentmgmt/referencedrmagent/TestAgent/TestAgentDrmContent.cpp:86-87 | every proper prefix of a written number overflows |
| Text.JoinSplit | cryptoservices/browserrootcertificates/certconvert.py:141-146 | joining the fields of a line gives the line |
| Text.StripParts | cryptoservices/browserrootcertificates/certconvert.py:185-188 | stripping takes away blanks at both ends and nothing else, and leaves none there |
| Text.StripAround | cryptoservices/browserrootcertificates/certconvert.py:185-188 | and a text with none at its ends is what is left when any are put around it |
| CertRecord.Record.constructor | cryptoservices/browserrootcertificates/certconvert.py:49-54 | the first object is read over |
| CertRecord.Record.ReadTokenValue | cryptoservices/browserrootcertificates/certconvert.py:137-168 | the loops over the shared file iterator compute the field's value and use up exactly its lines |
| CertRecord.Record.ReadTrustValues | cryptoservices/browserrootcertificates/certconvert.py:111-135 | likewise for the trust list, crashes and errors included |
| CertRecord.Record.Next | cryptoservices/browserrootcertificates/certconvert.py:57-109 | likewise for a record, with the fields it leaves |
| CertRecord.ReadAll | cryptoservices/browserrootcertificates/certconvert.py:250-252 | the main loop ends and collects every record of the file in order; it stops at once when the first success has not set the fields it uses |
| CertRoundTrip.ReadOfBlock | cryptoservices/browserrootcertificates/certconvert.py:149-165 | bytes printed as octal lines read back, however they are divided into lines |
| CertRoundTrip.ReadOfField | cryptoservices/browserrootcertificates/certconvert.py:137-168 | a printed field, with anything before it that is not the token, reads back with exactly its lines used up; spaces in its text are kept |
| CertRoundTrip.FieldIsGap | cryptoservices/browserrootcertificates/certconvert.py:138-145 | looking for a token never stops inside another field's text or octal block |
| CertRoundTrip.ReadOfTrusts | cryptoservices/browserrootcertificates/certconvert.py:111-121 | printed trust settings, whatever blanks are around the names, read back as the trusted names in order |
| CertRoundTrip.NextOf | cryptoservices/browserrootcertificates/certconvert.py:57-109 | a printed record reads back whole, whatever the fields held before |
| CertRoundTrip.NextShortens | cryptoservices/browserrootcertificates/certconvert.py:57-109 | every call uses up at least a line of any file, and without lines it is the end |
| CertStops.BlockStops | cryptoservices/browserrootcertificates/certconvert.py:149-165 | for any lines: an octal block stops at the first line that is not one of a block, with the characters of all before, an error or a crash, by what that line is |
| CertStops.TokenStops | cryptoservices/browserrootcertificates/certconvert.py:137-168 | for any lines: a field is read at the first line that begins with its token, and is the end of the file without one |
| CertStops.TrustsStop | cryptoservices/browserrootcertificates/certconvert.py:111-135 | for any lines: the settings stop at the first line that is not one, and only the closing line gives the names |
| CertRoundTrip.RoundTrip | cryptoservices/browserrootcertificates/certconvert.py:48-109 | the script on a printed list, with its leading object and anything unread between and after, gets record after record, then the end, and never stops for want of a field |
| CertRoundTrip.SuccessIsFreshExactly | cryptoservices/browserrootcertificates/certconvert.py:57-109 | a successful call gives fields that are all its own if and only if certificate, trust class and label are all in place; otherwise success leaves fields of an earlier record |
| TrustMapping.ReadTrustMapping | cryptoservices/browserrootcertificates/certconvert.py:173-190 | the loops compute the rows of the mapping file |
| TrustMapping.MappingRoundTrip | cryptoservices/browserrootcertificates/certconvert.py:173-190 | a written mapping file, with remarks and empty lines and any blanks around every field, reads back as all its rows in order, trimmed |
| TrustMapping.MappingReadExactly | cryptoservices/browserrootcertificates/certconvert.py:179-184 | it is read at all if and only if every line that counts has an odd number of fields |
| TrustMapping.ApplicationList | cryptoservices/browserrootcertificates/certconvert.py:288-294 | the nested loops compute the join, in order |
| TrustMapping.ListedExactly | cryptoservices/browserrootcertificates/certconvert.py:288-294 | an application is listed if and only if some trusted setting maps to it |
| TrustMapping.ApplicationsInOrder | cryptoservices/browserrootcertificates/certconvert.py:288-294 | setting after setting: joining two trust lists is joining each |
| TrustMapping.OneSetting | cryptoservices/browserrootcertificates/certconvert.py:288-294 | within a setting, each row of it adds its application once, in the order of the mapping |

## Left out

- Out-of-memory leaves, the cleanup stack, descriptor lengths (a path or type that does not fit its
  buffer stops the thread), plug-in loading, and panics of the worker reported to the client.
- Import: failures of the file server other than a name that is taken, the asynchronous variants, which
  only complete a request with the synchronous result, and file names longer than 256 characters.
- Names on disk that differ in letter case only are taken as different.
- Protected file: files in ROM, where a seek gives an address, 64-bit positions, completion and
  cancelling of asynchronous reads, and attribute getters.
- Certificates: writing the output files, calling certapp, and the command line. Octal words are read as
  plain digits; a sign, white space or prefix that Python's int would also accept counts as a crash.
- CertRecord.Record.Next: says nothing of the fields after a crash, because the script has ended.
- Virtual paths other than the uri and id of an object, and resetting the handle to the start of the
  file when the agent opens content for browsing.
- Stream agent resolution, rights management, the cryptography libraries and the other agents: first
  match lookups, constant tables and forwarding, or declarations without bodies.
