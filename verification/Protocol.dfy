/** The conversation between client threads and the worker thread: two semaphores, one set of
    shared fields, and a step for every access that another thread could see. */
module Protocol {
  import opened Errors
  import opened DirectorySearch
  import opened SearchTurns

  datatype Config = Config(volume: Volume, path: string, recursive: bool, mimeType: string) {
    /** What the worker's iterator and the shared fields are after n requests. */
    function At(n: nat): State {
      After(volume, path, recursive, mimeType, n)
    }

    function Result(n: nat): (int, Shared) {
      Answer(volume, path, recursive, mimeType, n)
    }
  }

  datatype Operation = Shutdown | FindNext

  datatype Accessor = VirtualPath | Name | MimeType

  datatype Call = Next(request: nat) | Read(accessor: Accessor) | Cancel

  /** Where a client thread is in its call; since counts the requests complete when it was made. */
  datatype Client =
    | Idle
    | Calling(call: Call, since: nat)
    | Posting(request: nat)
    | Telling(op: Operation)
    | Signalling(op: Operation)
    | Reading(accessor: Accessor, since: nat, copied: seq<string>)
    | Joining

  datatype Worker =
    | Waiting
    | Woken
    | Starting
    | Constructing(path: string)
    | Blanking(field: nat, err: int)
    | Publishing(field: nat)
    | Completing(err: int)
    | Unlocking(exit: bool)
    | Exited

  datatype Completion = Completion(request: nat, err: int)

  /** What an accessor returned, and how many requests were complete when it read. */
  datatype Observation = Observation(accessor: Accessor, since: nat, at: nat, values: seq<string>)

  datatype System = System(
    lock: nat, thread: nat, function_: Operation, request: nat, shared: Shared, engine: Engine,
    worker: Worker, clients: seq<Client>,
    posted: seq<nat>, completed: seq<Completion>, observed: seq<Observation>, cancelled: bool)

  predicate Initial(cfg: Config, s: System) {
    && s.lock == 1 && s.thread == 0 && State(s.engine, s.shared) == cfg.At(0) && s.worker == Waiting
    && (forall i | 0 <= i < |s.clients| :: s.clients[i] == Idle)
    && s.posted == [] && s.completed == [] && s.observed == [] && !s.cancelled
  }

  // ---------- the shared fields ----------

  /** The fields an accessor copies, one after the other. */
  function Values(a: Accessor, d: Shared): seq<string> {
    match a
    case VirtualPath => [d.path, d.uniqueId]
    case Name => [d.name]
    case MimeType => [d.mimeType]
  }

  /** One of the four copies that make up SetData. */
  function Put(d: Shared, from: Shared, field: nat): Shared {
    if field == 0 then d.(path := from.path)
    else if field == 1 then d.(mimeType := from.mimeType)
    else if field == 2 then d.(uniqueId := from.uniqueId)
    else d.(name := from.name)
  }

  function PutFirst(d: Shared, from: Shared, fields: nat): Shared {
    if fields == 0 then d else Put(PutFirst(d, from, fields - 1), from, fields - 1)
  }

  lemma PutAll(d: Shared, from: Shared)
    ensures PutFirst(d, from, 4) == from
  {
    assert PutFirst(d, from, 1) == Put(d, from, 0);
    assert PutFirst(d, from, 2) == Put(PutFirst(d, from, 1), from, 1);
    assert PutFirst(d, from, 3) == Put(PutFirst(d, from, 2), from, 2);
  }

  function Result(e: Engine): Shared {
    if e.Going? then Published(e.current) else BLANK
  }

  // ---------- the steps ----------

  datatype Outcome = Blocked | Moved(next: System)

  datatype Move = Start(client: nat, call: Call) | Step(client: nat) | Work

  function WorkerStep(cfg: Config, s: System): Outcome {
    match s.worker
    case Waiting =>
      if s.thread == 0 then Blocked else Moved(s.(thread := s.thread - 1, worker := Woken))
    case Woken =>
      Moved(s.(worker := if s.function_ == Shutdown then Unlocking(true) else Starting))
    case Starting =>
      if s.engine.NoIterator? then Moved(s.(worker := Constructing(s.shared.path)))
      else
        var (engine, err) := SearchTurns.Search(cfg.volume, cfg.recursive, State(s.engine, s.shared));
        Moved(s.(engine := engine, worker := if err == KErrNone then Publishing(0) else Completing(err)))
    case Constructing(path) =>
      var (engine, err) := SearchTurns.Search(cfg.volume, cfg.recursive, State(s.engine, s.shared.(path := path)));
      Moved(s.(engine := engine, worker := Blanking(0, err)))
    case Blanking(field, err) =>
      if field < 4 then Moved(s.(shared := Put(s.shared, BLANK, field), worker := Blanking(field + 1, err)))
      else Moved(s.(worker := if err == KErrNone then Publishing(0) else Completing(err)))
    case Publishing(field) =>
      if field < 4 then Moved(s.(shared := Put(s.shared, Result(s.engine), field), worker := Publishing(field + 1)))
      else Moved(s.(worker := Completing(KErrNone)))
    case Completing(err) =>
      Moved(s.(completed := s.completed + [Completion(s.request, err)], worker := Unlocking(false)))
    case Unlocking(exit) =>
      Moved(s.(lock := s.lock + 1, worker := if exit then Exited else Waiting))
    case Exited => Blocked
  }

  /** The call has the lock. */
  function Granted(call: Call, since: nat): Client {
    match call
    case Next(request) => Posting(request)
    case Read(accessor) => Reading(accessor, since, [])
    case Cancel => Telling(Shutdown)
  }

  function ClientStep(s: System, i: nat): Outcome
    requires i < |s.clients|
  {
    match s.clients[i]
    case Idle => Blocked
    case Calling(call, since) =>
      if s.lock == 0 then Blocked
      else
        Moved(s.(lock := s.lock - 1, clients := s.clients[i := Granted(call, since)]))
    case Posting(request) =>
      Moved(s.(request := request, posted := s.posted + [request], clients := s.clients[i := Telling(FindNext)]))
    case Telling(op) =>
      Moved(s.(function_ := op, clients := s.clients[i := Signalling(op)]))
    case Signalling(op) =>
      Moved(s.(thread := s.thread + 1, clients := s.clients[i := if op == Shutdown then Joining else Idle]))
    case Reading(accessor, since, copied) =>
      var values := Values(accessor, s.shared);
      if |copied| < |values| then
        Moved(s.(clients := s.clients[i := Reading(accessor, since, copied + [values[|copied|]])]))
      else
        Moved(s.(lock := s.lock + 1, clients := s.clients[i := Idle],
                 observed := s.observed + [Observation(accessor, since, |s.completed|, copied)]))
    case Joining =>
      if s.worker.Exited? then Moved(s.(clients := s.clients[i := Idle])) else Blocked
  }

  /** A call of Cancel after the first does nothing: the object is no longer active. */
  function Do(cfg: Config, s: System, move: Move): Outcome {
    match move
    case Start(i, call) =>
      if i >= |s.clients| || !s.clients[i].Idle? then Blocked
      else if call.Cancel? && s.cancelled then Moved(s)
      else
        Moved(s.(clients := s.clients[i := Calling(call, |s.completed|)], cancelled := s.cancelled || call.Cancel?))
    case Step(i) => if i < |s.clients| then ClientStep(s, i) else Blocked
    case Work => WorkerStep(cfg, s)
  }

  /** The state after a run, if every step of it could be taken. */
  function Run(cfg: Config, s: System, run: seq<Move>): Outcome
    decreases |run|
  {
    if run == [] then Moved(s)
    else
      var first := Do(cfg, s, run[0]);
      if first.Blocked? then Blocked else Run(cfg, first.next, run[1..])
  }

  // ---------- counting clients ----------

  /** What a client can still do to the semaphores. */
  datatype Stage = Resting | WaitNext | WaitRead | WaitCancel | HoldNext | Posted | HoldRead | HoldCancel | Join

  function StageOf(c: Client): Stage {
    match c
    case Idle => Resting
    case Calling(Next(_), _) => WaitNext
    case Calling(Read(_), _) => WaitRead
    case Calling(Cancel, _) => WaitCancel
    case Posting(_) => HoldNext
    case Telling(op) => if op == FindNext then Posted else HoldCancel
    case Signalling(op) => if op == FindNext then Posted else HoldCancel
    case Reading(_, _, _) => HoldRead
    case Joining => Join
  }

  function Count(cs: seq<Client>, stage: Stage): nat {
    if cs == [] then 0 else (if StageOf(cs[0]) == stage then 1 else 0) + Count(cs[1..], stage)
  }

  lemma {:induction false} CountUpdate(cs: seq<Client>, i: nat, c: Client, stage: Stage)
    requires i < |cs|
    ensures StageOf(cs[i]) == stage ==> Count(cs, stage) > 0
    ensures Count(cs[i := c], stage)
      == Count(cs, stage) - (if StageOf(cs[i]) == stage then 1 else 0) + if StageOf(c) == stage then 1 else 0
  {
    if i == 0 {
      assert cs[i := c][1..] == cs[1..];
    } else {
      CountUpdate(cs[1..], i - 1, c, stage);
      assert cs[i := c][1..] == cs[1..][i - 1 := c];
    }
  }

  lemma {:induction false} CountSome(cs: seq<Client>, stage: Stage) returns (i: nat)
    requires Count(cs, stage) > 0
    ensures i < |cs| && StageOf(cs[i]) == stage
  {
    if StageOf(cs[0]) == stage {
      i := 0;
    } else {
      i := CountSome(cs[1..], stage);
      i := i + 1;
    }
  }

  lemma {:induction false} CountNone(cs: seq<Client>, stage: Stage)
    requires forall i | 0 <= i < |cs| :: StageOf(cs[i]) != stage
    ensures Count(cs, stage) == 0
  {
    if cs != [] {
      CountNone(cs[1..], stage);
    }
  }

  function Holders(cs: seq<Client>): nat {
    Count(cs, HoldNext) + Count(cs, Posted) + Count(cs, HoldRead) + Count(cs, HoldCancel)
  }

  predicate Working(w: Worker) {
    !w.Waiting? && !w.Exited?
  }

  function Tokens(s: System): nat {
    s.lock + s.thread + Holders(s.clients) + if Working(s.worker) then 1 else 0
  }

  // ---------- the invariant ----------

  /** A request has been posted that is not complete. */
  predicate Searching(w: Worker) {
    w.Starting? || w.Constructing? || w.Blanking? || w.Publishing? || w.Completing?
  }

  predicate Signalled(s: System) {
    s.thread > 0 || s.worker.Woken?
  }

  function Pending(s: System): nat {
    Count(s.clients, Posted) + (if Searching(s.worker) then 1 else 0)
    + if Signalled(s) && s.function_ == FindNext then 1 else 0
  }

  /** The shutdown has been signalled; nothing takes that back. */
  predicate Stopping(s: System) {
    (Signalled(s) && s.function_ == Shutdown) || s.worker == Unlocking(true) || s.worker.Exited?
  }

  /** How far the worker has got with the request it is on. */
  predicate Progress(cfg: Config, s: System) {
    var was := cfg.At(|s.completed|);
    var (engine, err) := SearchTurns.Search(cfg.volume, cfg.recursive, was);
    match s.worker
    case Constructing(path) => State(s.engine, s.shared) == was && s.engine.NoIterator? && path == s.shared.path
    case Blanking(field, e) =>
      && was.engine.NoIterator? && s.engine == engine && e == err
      && field <= 4 && s.shared == PutFirst(was.shared, BLANK, field)
    case Publishing(field) =>
      && s.engine == engine && err == KErrNone
      && field <= 4 && s.shared == PutFirst(if was.engine.NoIterator? then BLANK else was.shared, Result(engine), field)
    case Completing(e) => e == err && State(s.engine, s.shared) == cfg.At(|s.completed| + 1)
    case _ => State(s.engine, s.shared) == was
  }

  predicate Agrees(s: System, c: Client) {
    match c
    case Calling(_, since) => since <= |s.completed|
    case Signalling(op) => s.function_ == op
    case Reading(accessor, since, copied) => since <= |s.completed| && copied <= Values(accessor, s.shared)
    case _ => true
  }

  predicate ClientsAgree(s: System) {
    forall i | 0 <= i < |s.clients| :: Agrees(s, s.clients[i])
  }

  /** Every completion so far is of the request posted at that position, with the answer due there. */
  predicate Answered(cfg: Config, s: System) {
    && |s.posted| == |s.completed| + Pending(s)
    && (Pending(s) > 0 ==> s.request == s.posted[|s.completed|])
    && (forall i | 0 <= i < |s.completed| :: s.completed[i] == Completion(s.posted[i], cfg.Result(i).0))
  }

  /** What an accessor returns was all published by one request, complete when the call was made or later. */
  predicate Consistent(cfg: Config, s: System, o: Observation) {
    o.since <= o.at <= |s.completed| && o.values == Values(o.accessor, cfg.At(o.at).shared)
  }

  predicate AllConsistent(cfg: Config, s: System) {
    forall i | 0 <= i < |s.observed| :: Consistent(cfg, s, s.observed[i])
  }

  predicate Inv(cfg: Config, s: System) {
    && Tokens(s) == 1
    && Answered(cfg, s)
    && Progress(cfg, s)
    && ClientsAgree(s)
    && AllConsistent(cfg, s)
    && (Count(s.clients, Join) > 0 ==> Stopping(s))
  }

  lemma {:induction false} InitialInv(cfg: Config, s: System)
    requires Initial(cfg, s)
    ensures Inv(cfg, s)
  {
    forall stage | stage != Resting ensures Count(s.clients, stage) == 0 {
      CountNone(s.clients, stage);
    }
  }

  lemma AtNext(cfg: Config, n: nat)
    ensures var was := cfg.At(n);
      var (engine, err) := SearchTurns.Search(cfg.volume, cfg.recursive, was);
      && (err == KErrNone ==> engine.Going?)
      && cfg.Result(n).0 == err
      && cfg.At(n + 1) == State(engine,
           if err == KErrNone then Published(engine.current)
           else if was.engine.NoIterator? then BLANK else was.shared)
  {
    TurnsAnswer(cfg.volume, cfg.path, cfg.recursive, cfg.mimeType, n);
    hide Answer, Find;
  }

  lemma PutNext(d: Shared, from: Shared, field: nat)
    ensures PutFirst(d, from, 0) == d
    ensures PutFirst(d, from, field + 1) == Put(PutFirst(d, from, field), from, field)
  {
  }

  lemma WorkerProgress(cfg: Config, s: System)
    requires Progress(cfg, s) && WorkerStep(cfg, s).Moved?
    ensures Progress(cfg, WorkerStep(cfg, s).next)
  {
    hide SearchTurns.Search, Config.At, Config.Result, PutFirst, Put;
    var n := |s.completed|;
    var was := cfg.At(n);
    AtNext(cfg, n);
    var result, blanked := Result(s.engine), if was.engine.NoIterator? then BLANK else was.shared;
    match s.worker
    case Blanking(field, err) =>
      PutNext(was.shared, BLANK, field);
      PutNext(BLANK, result, 0);
      PutAll(was.shared, BLANK);
    case Publishing(field) =>
      PutNext(blanked, result, field);
      PutAll(blanked, result);
    case Constructing(path) =>
      PutNext(was.shared, BLANK, 0);
    case Starting =>
      PutNext(was.shared, Result(SearchTurns.Search(cfg.volume, cfg.recursive, was).0), 0);
    case _ =>
  }

  lemma WorkerAnswered(cfg: Config, s: System)
    requires Inv(cfg, s) && WorkerStep(cfg, s).Moved?
    ensures Answered(cfg, WorkerStep(cfg, s).next)
  {
    hide SearchTurns.Search, Config.At, Config.Result, Put, Count, ClientsAgree, AllConsistent;
    AtNext(cfg, |s.completed|);
  }

  lemma WorkerLeavesClients(cfg: Config, s: System)
    requires Inv(cfg, s) && WorkerStep(cfg, s).Moved?
    ensures ClientsAgree(WorkerStep(cfg, s).next)
  {
    hide SearchTurns.Search, Config.At, Config.Result, Put, Count, Progress, Answered, AllConsistent, Values;
    var next := WorkerStep(cfg, s).next;
    forall i | 0 <= i < |s.clients| ensures Agrees(next, s.clients[i]) {
      CountUpdate(s.clients, i, s.clients[i], StageOf(s.clients[i]));
      assert Agrees(s, s.clients[i]);
    }
  }

  lemma WorkerKeeps(cfg: Config, s: System)
    requires Inv(cfg, s) && WorkerStep(cfg, s).Moved?
    ensures Inv(cfg, WorkerStep(cfg, s).next)
  {
    hide SearchTurns.Search, Config.At, Config.Result, Put, Count, Progress, Answered, Values, ClientsAgree;
    WorkerProgress(cfg, s);
    WorkerAnswered(cfg, s);
    WorkerLeavesClients(cfg, s);
  }

  /** The effect of one client's step on the number of clients at every stage. */
  lemma Recount(cs: seq<Client>, i: nat, c: Client)
    requires i < |cs|
    ensures forall stage ::
      Count(cs[i := c], stage)
      == Count(cs, stage) - (if StageOf(cs[i]) == stage then 1 else 0) + if StageOf(c) == stage then 1 else 0
    ensures Count(cs, StageOf(cs[i])) > 0
  {
    forall stage
      ensures Count(cs[i := c], stage)
        == Count(cs, stage) - (if StageOf(cs[i]) == stage then 1 else 0) + if StageOf(c) == stage then 1 else 0
    {
      CountUpdate(cs, i, c, stage);
    }
    CountUpdate(cs, i, c, StageOf(cs[i]));
  }

  function Holding(c: Client): nat {
    var stage := StageOf(c);
    if stage == HoldNext || stage == Posted || stage == HoldRead || stage == HoldCancel then 1 else 0
  }

  lemma HoldersUpdate(cs: seq<Client>, i: nat, c: Client)
    requires i < |cs|
    ensures Holders(cs[i := c]) == Holders(cs) - Holding(cs[i]) + Holding(c)
  {
    hide Count, StageOf;
    Recount(cs, i, c);
  }

  lemma ClientTokens(cfg: Config, s: System, i: nat)
    requires Inv(cfg, s) && i < |s.clients| && ClientStep(s, i).Moved?
    ensures Tokens(ClientStep(s, i).next) == 1
  {
    hide Config.At, Count, Values, Answered, Progress, AllConsistent, ClientsAgree, Stopping, Holders;
    HoldersUpdate(s.clients, i, ClientStep(s, i).next.clients[i]);
  }

  lemma ClientStops(cfg: Config, s: System, i: nat)
    requires Inv(cfg, s) && i < |s.clients| && ClientStep(s, i).Moved?
    ensures var next := ClientStep(s, i).next;
      (Stopping(s) ==> Stopping(next)) && (Count(next.clients, Join) > 0 ==> Stopping(next))
  {
    hide SearchTurns.Search, Config.At, Config.Result, Put, Count, Values, Answered, Progress, AllConsistent;
    assert Agrees(s, s.clients[i]);
    hide ClientsAgree;
    Recount(s.clients, i, ClientStep(s, i).next.clients[i]);
  }

  lemma ClientProgress(cfg: Config, s: System, i: nat)
    requires Progress(cfg, s) && i < |s.clients| && ClientStep(s, i).Moved?
    ensures Progress(cfg, ClientStep(s, i).next)
  {
    hide SearchTurns.Search, Config.At, Put, PutFirst, Values;
  }

  lemma ClientAnswered(cfg: Config, s: System, i: nat)
    requires Inv(cfg, s) && i < |s.clients| && ClientStep(s, i).Moved?
    ensures Answered(cfg, ClientStep(s, i).next)
  {
    hide SearchTurns.Search, Config.At, Config.Result, Put, Count, Values, Progress, AllConsistent;
    assert Agrees(s, s.clients[i]);
    hide ClientsAgree;
    Recount(s.clients, i, ClientStep(s, i).next.clients[i]);
  }

  /** What the other clients rely on is not changed by one that has the lock. */
  lemma ClientLeavesOthers(cfg: Config, s: System, i: nat, j: nat)
    requires Inv(cfg, s) && i < |s.clients| && j < |s.clients| && i != j && ClientStep(s, i).Moved?
    ensures Agrees(ClientStep(s, i).next, s.clients[j])
  {
    hide SearchTurns.Search, Config.At, Config.Result, Put, Count, Values, Progress, AllConsistent, Answered;
    assert Agrees(s, s.clients[j]);
    hide ClientsAgree;
    Recount(s.clients, i, Idle);
    Recount(s.clients[i := Idle], j, s.clients[j]);
  }

  lemma ClientAgrees(cfg: Config, s: System, i: nat)
    requires Inv(cfg, s) && i < |s.clients| && ClientStep(s, i).Moved?
    ensures Agrees(ClientStep(s, i).next, ClientStep(s, i).next.clients[i])
  {
    hide SearchTurns.Search, Config.At, Config.Result, Put, Count, Progress, AllConsistent, Answered;
    assert Agrees(s, s.clients[i]);
  }

  lemma ClientConsistent(cfg: Config, s: System, i: nat)
    requires Inv(cfg, s) && i < |s.clients| && ClientStep(s, i).Moved?
    ensures AllConsistent(cfg, ClientStep(s, i).next)
  {
    hide SearchTurns.Search, Config.At, Config.Result, Put, Count, Answered;
    assert Agrees(s, s.clients[i]);
    hide ClientsAgree;
    Recount(s.clients, i, Idle);
  }

  lemma ClientKeeps(cfg: Config, s: System, i: nat)
    requires Inv(cfg, s) && i < |s.clients| && ClientStep(s, i).Moved?
    ensures Inv(cfg, ClientStep(s, i).next)
  {
    hide SearchTurns.Search, Config.At, Config.Result, Put, Count, Values;
    hide Answered, Progress, AllConsistent, Agrees, Tokens, Stopping;
    var next := ClientStep(s, i).next;
    ClientTokens(cfg, s, i);
    ClientStops(cfg, s, i);
    ClientProgress(cfg, s, i);
    ClientAnswered(cfg, s, i);
    ClientAgrees(cfg, s, i);
    ClientConsistent(cfg, s, i);
    forall j | 0 <= j < |next.clients| ensures Agrees(next, next.clients[j]) {
      if j != i { ClientLeavesOthers(cfg, s, i, j); }
    }
  }

  lemma StartKeeps(cfg: Config, s: System, i: nat, call: Call)
    requires Inv(cfg, s) && Do(cfg, s, Start(i, call)).Moved?
    ensures Inv(cfg, Do(cfg, s, Start(i, call)).next)
  {
    hide SearchTurns.Search, Config.At, Config.Result, Put, Count, Values;
    var c := Calling(call, |s.completed|);
    if !call.Cancel? || !s.cancelled { Recount(s.clients, i, c); }
  }

  lemma {:induction false} RunKeeps(cfg: Config, s: System, run: seq<Move>)
    requires Inv(cfg, s) && Run(cfg, s, run).Moved?
    ensures Inv(cfg, Run(cfg, s, run).next)
    decreases |run|
  {
    hide Inv, WorkerStep, ClientStep;
    if run != [] {
      match run[0] {
        case Start(i, call) => StartKeeps(cfg, s, i, call);
        case Step(i) => ClientKeeps(cfg, s, i);
        case Work => WorkerKeeps(cfg, s);
      }
      RunKeeps(cfg, Do(cfg, s, run[0]).next, run[1..]);
    }
  }
}
