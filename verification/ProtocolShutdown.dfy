/** Calls come to an end, and cancelling shuts the worker down cleanly when no Next is waiting. */
module ProtocolEffort {
  import opened Protocol

  /** Steps that a worker may still take before it waits again. */
  function WorkerEffort(w: Worker): nat {
    match w
    case Waiting => 0
    case Woken => 16
    case Starting => 15
    case Constructing(_) => 14
    case Blanking(field, _) => if field < 4 then 13 - field else 9
    case Publishing(field) => if field < 4 then 8 - field else 4
    case Completing(_) => 3
    case Unlocking(_) => 1
    case Exited => 0
  }

  function CallEffort(call: Call): nat {
    match call
    case Next(_) => 21
    case Read(_) => 4
    case Cancel => 21
  }

  /** Steps that a client, and the worker on its behalf, may still take in its call. */
  function ClientEffort(c: Client): nat {
    match c
    case Idle => 0
    case Calling(call, _) => CallEffort(call)
    case Posting(_) => 20
    case Telling(op) => if op == Shutdown then 20 else 19
    case Signalling(op) => if op == Shutdown then 19 else 18
    case Reading(_, _, copied) => if |copied| == 0 then 3 else if |copied| == 1 then 2 else 1
    case Joining => 1
  }

  function ClientsEffort(cs: seq<Client>): nat {
    if cs == [] then 0 else ClientEffort(cs[0]) + ClientsEffort(cs[1..])
  }

  function Effort(s: System): nat {
    ClientsEffort(s.clients) + 17 * s.thread + WorkerEffort(s.worker)
  }

  lemma {:induction false} EffortUpdate(cs: seq<Client>, i: nat, c: Client)
    requires i < |cs|
    ensures ClientsEffort(cs[i := c]) == ClientsEffort(cs) - ClientEffort(cs[i]) + ClientEffort(c)
  {
    if i == 0 {
      assert cs[i := c][1..] == cs[1..];
    } else {
      EffortUpdate(cs[1..], i - 1, c);
      assert cs[i := c][1..] == cs[1..][i - 1 := c];
    }
  }

  predicate NoStarts(run: seq<Move>) {
    forall k | 0 <= k < |run| :: !run[k].Start?
  }

  /** Every step but the start of a call uses up some of a bounded effort, so no call goes on for
      ever and nothing livelocks: what is left is to wait for one another, or be done. */
  lemma EffortFalls(cfg: Config, s: System, move: Move)
    requires !move.Start? && Do(cfg, s, move).Moved?
    ensures Effort(Do(cfg, s, move).next) < Effort(s)
  {
    match move
    case Step(i) => ClientEffortFalls(s, i);
    case Work =>
      hide ClientsEffort, SearchTurns.Search, Put;
  }

  lemma ClientEffortFalls(s: System, i: nat)
    requires i < |s.clients| && ClientStep(s, i).Moved?
    ensures Effort(ClientStep(s, i).next) < Effort(s)
  {
    hide ClientsEffort, WorkerEffort;
    EffortUpdate(s.clients, i, ClientStep(s, i).next.clients[i]);
  }

  lemma {:induction false} RunsAreBounded(cfg: Config, s: System, run: seq<Move>)
    requires NoStarts(run) && Run(cfg, s, run).Moved?
    ensures |run| <= Effort(s)
    decreases |run|
  {
    hide Effort, Do;
    if run != [] {
      EffortFalls(cfg, s, run[0]);
      RunsAreBounded(cfg, Do(cfg, s, run[0]).next, run[1..]);
    }
  }
}

module ProtocolShutdown {
  import opened Protocol
  import opened ProtocolSafety
  import opened ProtocolLiveness
  import opened ProtocolEffort

  /** No Next is called after Cancel, and Cancel not while a Next is waiting for the lock. */
  predicate Allowed(s: System, move: Move) {
    move.Start? ==>
      match move.call
      case Next(_) => !s.cancelled
      case Read(_) => true
      case Cancel => s.cancelled || forall i | 0 <= i < |s.clients| :: StageOf(s.clients[i]) != WaitNext
  }

  predicate Disciplined(cfg: Config, s: System, run: seq<Move>)
    decreases |run|
  {
    run != [] ==>
      && Allowed(s, run[0])
      && (Do(cfg, s, run[0]).Moved? ==> Disciplined(cfg, Do(cfg, s, run[0]).next, run[1..]))
  }

  ghost predicate ReachableInOrder(cfg: Config, s: System) {
    exists start, run :: Initial(cfg, start) && Disciplined(cfg, start, run) && Run(cfg, start, run) == Moved(s)
  }

  /** One Cancel, somewhere between its call and the worker's exit, with the given number of calls of
      Next waiting behind it. */
  predicate OneCancel(s: System, late: nat) {
    && Count(s.clients, WaitCancel) + Count(s.clients, HoldCancel) + (if Stopping(s) then 1 else 0)
      == (if s.cancelled then 1 else 0)
    && (s.cancelled ==> Count(s.clients, WaitNext) == late)
    && (Stopping(s) ==> Count(s.clients, HoldNext) == 0 && Count(s.clients, Posted) == 0)
    && (s.worker.Exited? ==> s.thread == 0)
  }

  lemma StartOrder(cfg: Config, s: System, i: nat, call: Call)
    requires Inv(cfg, s) && OneCancel(s, 0) && Do(cfg, s, Start(i, call)).Moved?
    ensures var next := Do(cfg, s, Start(i, call)).next;
      && OneCancel(next, if next.cancelled then Count(next.clients, WaitNext) else 0)
      && (Allowed(s, Start(i, call)) ==> OneCancel(next, 0))
  {
    var c := Calling(call, |s.completed|);
    if call.Cancel? && Allowed(s, Start(i, call)) && !s.cancelled { CountNone(s.clients, WaitNext); }
    hide Inv, Count;
    if !call.Cancel? || !s.cancelled { Recount(s.clients, i, c); }
  }

  lemma ClientOrder(cfg: Config, s: System, i: nat, late: nat)
    requires Inv(cfg, s) && OneCancel(s, late) && i < |s.clients| && ClientStep(s, i).Moved?
    requires late > 0 ==> StageOf(s.clients[i]) != WaitNext
    ensures OneCancel(ClientStep(s, i).next, late)
  {
    hide Count, Values, Answered, Progress, AllConsistent;
    assert Agrees(s, s.clients[i]);
    hide ClientsAgree;
    var next := ClientStep(s, i).next;
    ClientStops(cfg, s, i);
    Recount(s.clients, i, next.clients[i]);
    hide Tokens;
  }

  lemma WorkerOrder(cfg: Config, s: System, late: nat)
    requires Inv(cfg, s) && OneCancel(s, late) && WorkerStep(cfg, s).Moved?
    ensures OneCancel(WorkerStep(cfg, s).next, late)
  {
    hide Count, SearchTurns.Search, Put, Answered, Progress, AllConsistent, ClientsAgree;
  }

  lemma {:induction false} RunInOrder(cfg: Config, s: System, run: seq<Move>)
    requires Inv(cfg, s) && OneCancel(s, 0) && Disciplined(cfg, s, run) && Run(cfg, s, run).Moved?
    ensures Inv(cfg, Run(cfg, s, run).next) && OneCancel(Run(cfg, s, run).next, 0)
    decreases |run|
  {
    hide Inv, OneCancel, WorkerStep, ClientStep, Allowed;
    if run != [] {
      match run[0] {
        case Start(i, call) => StartKeeps(cfg, s, i, call); StartOrder(cfg, s, i, call);
        case Step(i) => ClientKeeps(cfg, s, i); ClientOrder(cfg, s, i, 0);
        case Work => WorkerKeeps(cfg, s); WorkerOrder(cfg, s, 0);
      }
      RunInOrder(cfg, Do(cfg, s, run[0]).next, run[1..]);
    }
  }

  lemma InitialOrder(cfg: Config, s: System)
    requires Initial(cfg, s)
    ensures OneCancel(s, 0)
  {
    forall stage | stage != Resting ensures Count(s.clients, stage) == 0 {
      CountNone(s.clients, stage);
    }
  }

  lemma InOrder(cfg: Config, s: System)
    requires ReachableInOrder(cfg, s)
    ensures Inv(cfg, s) && OneCancel(s, 0) && Reachable(cfg, s)
  {
    hide Inv, OneCancel, Initial, Run, Disciplined;
    var start, run :| Initial(cfg, start) && Disciplined(cfg, start, run) && Run(cfg, start, run) == Moved(s);
    InitialInv(cfg, start);
    InitialOrder(cfg, start);
    RunInOrder(cfg, start, run);
  }

  /** Once the worker has been told to shut down every request is complete, so it searches no
      more; and it exits with the token handed back to the lock. */
  lemma CleanShutdown(cfg: Config, s: System)
    requires ReachableInOrder(cfg, s)
    ensures Stopping(s) ==> |s.posted| == |s.completed| && !Searching(s.worker)
    ensures s.worker.Exited? ==> s.thread == 0 && s.lock + Count(s.clients, HoldRead) == 1
  {
    hide ReachableInOrder, Progress, AllConsistent, ClientsAgree, Count;
    InOrder(cfg, s);
  }

  /** And it stays that way: whatever runs after the shutdown was signalled, no request is posted
      or completed, and the fields keep what the last one published. */
  lemma NoSearchAfterShutdown(cfg: Config, s: System, move: Move)
    requires ReachableInOrder(cfg, s) && Stopping(s) && Allowed(s, move) && Do(cfg, s, move).Moved?
    ensures var next := Do(cfg, s, move).next;
      Stopping(next) && next.posted == s.posted && next.completed == s.completed
      && next.engine == s.engine && next.shared == s.shared
  {
    hide ReachableInOrder, Progress, AllConsistent, Count, SearchTurns.Search;
    InOrder(cfg, s);
    if move.Step? {
      assert Agrees(s, s.clients[move.client]);
      CountUpdate(s.clients, move.client, Idle, StageOf(s.clients[move.client]));
    }
  }

  predicate AtRest(s: System) {
    && (forall i | 0 <= i < |s.clients| :: s.clients[i].Idle?)
    && s.lock == 1 && s.thread == 0 && |s.posted| == |s.completed|
    && s.worker == if s.cancelled then Exited else Waiting
  }

  lemma QuietIsAtRest(cfg: Config, s: System)
    requires Inv(cfg, s) && OneCancel(s, 0) && Quiet(cfg, s)
    ensures AtRest(s)
  {
    hide Progress, AllConsistent, ClientsAgree, Answered, Count;
    QuietReturned(cfg, s);
    forall stage | stage != Resting ensures Count(s.clients, stage) == 0 {
      CountNone(s.clients, stage);
    }
  }

  lemma {:induction false} NoStartsInOrder(cfg: Config, s: System, run: seq<Move>)
    requires NoStarts(run)
    ensures Disciplined(cfg, s, run)
    decreases |run|
  {
    hide Do;
    if run != [] && Do(cfg, s, run[0]).Moved? {
      NoStartsInOrder(cfg, Do(cfg, s, run[0]).next, run[1..]);
    }
  }

  /** Nothing is ever stuck. However the threads are scheduled from any state of an orderly use, they
      come to a halt within a bounded number of steps, and then every call has returned, the lock is
      free, every request is complete, and the worker has exited if it was cancelled. */
  lemma EveryCallReturns(cfg: Config, s: System, run: seq<Move>)
    requires ReachableInOrder(cfg, s) && NoStarts(run) && Run(cfg, s, run).Moved?
    ensures |run| <= Effort(s)
    ensures Quiet(cfg, Run(cfg, s, run).next) ==> AtRest(Run(cfg, s, run).next)
  {
    hide ReachableInOrder, Inv, OneCancel, Quiet, AtRest, Run, Disciplined;
    InOrder(cfg, s);
    RunsAreBounded(cfg, s, run);
    NoStartsInOrder(cfg, s, run);
    RunInOrder(cfg, s, run);
    if Quiet(cfg, Run(cfg, s, run).next) {
      QuietIsAtRest(cfg, Run(cfg, s, run).next);
    }
  }

  // ---------- what happens without that order ----------

  lemma {:induction false} RunThen(cfg: Config, s: System, run: seq<Move>, move: Move)
    requires Run(cfg, s, run).Moved?
    ensures Run(cfg, s, run + [move]) == Do(cfg, Run(cfg, s, run).next, move)
    decreases |run|
  {
    hide Do;
    if run == [] {
      assert run + [move] == [move] && [move][1..] == [];
    } else {
      assert (run + [move])[1..] == run[1..] + [move];
      RunThen(cfg, Do(cfg, s, run[0]).next, run[1..], move);
    }
  }

  lemma Reach(cfg: Config, s: System, move: Move) returns (next: System)
    requires Reachable(cfg, s) && Do(cfg, s, move).Moved?
    ensures next == Do(cfg, s, move).next && Reachable(cfg, next)
  {
    hide Do, Run, Initial;
    var start, run :| Initial(cfg, start) && Run(cfg, start, run) == Moved(s);
    RunThen(cfg, start, run, move);
    next := Do(cfg, s, move).next;
  }

  /** Three threads call; the one that cancels gets the lock first and shuts the worker down. */
  lemma CancelFirst(cfg: Config, request: nat) returns (s: System)
    ensures Reachable(cfg, s) && s.worker == Exited && s.lock == 1 && s.thread == 0
    ensures s.posted == [] && s.completed == []
    ensures s.clients == [Idle, Calling(Next(request), 0), Calling(Read(Name), 0)]
  {
    hide Reachable;
    s := ThreeCalls(cfg, request);
    s := Reach(cfg, s, Step(0));
    s := Reach(cfg, s, Step(0));
    s := Reach(cfg, s, Step(0));
    s := Reach(cfg, s, Work);
    s := Reach(cfg, s, Work);
    s := Reach(cfg, s, Work);
    s := Reach(cfg, s, Step(0));
  }

  lemma ThreeCalls(cfg: Config, request: nat) returns (s: System)
    ensures Reachable(cfg, s) && s.worker == Waiting && s.lock == 1 && s.thread == 0
    ensures s.posted == [] && s.completed == []
    ensures s.clients == [Calling(Cancel, 0), Calling(Next(request), 0), Calling(Read(Name), 0)]
  {
    hide Reachable, Config.At;
    s := System(1, 0, FindNext, 0, cfg.At(0).shared, cfg.At(0).engine, Waiting, [Idle, Idle, Idle], [], [], [], false);
    assert Reachable(cfg, s) by { StartIsReachable(cfg, s); }
    s := Reach(cfg, s, Start(0, Cancel));
    s := Reach(cfg, s, Start(1, Next(request)));
    s := Reach(cfg, s, Start(2, Read(Name)));
  }

  lemma StartIsReachable(cfg: Config, s: System)
    requires Initial(cfg, s)
    ensures Reachable(cfg, s)
  {
    assert Run(cfg, s, []) == Moved(s);
  }

  /** A Next still waiting when Cancel gets the lock is given it by the exiting worker, is never
      completed, and keeps a third caller waiting for ever. */
  lemma WaitingNextStrandsOthers(cfg: Config, request: nat) returns (s: System)
    ensures Reachable(cfg, s) && Stranded(s) && Quiet(cfg, s)
    ensures s.posted == [request] && s.completed == []
    ensures s.clients == [Idle, Idle, Calling(Read(Name), 0)]
  {
    hide Reachable;
    s := CancelFirst(cfg, request);
    s := Reach(cfg, s, Step(1));
    s := Reach(cfg, s, Step(1));
    s := Reach(cfg, s, Step(1));
    s := Reach(cfg, s, Step(1));
  }

  // ---------- the order is needed: any Next left behind a Cancel can be stranded ----------

  /** While calls of Next wait behind a Cancel, someone else can move until the worker has exited and
      the lock is free. */
  lemma Forward(cfg: Config, s: System, late: nat) returns (move: Move)
    requires Inv(cfg, s) && OneCancel(s, late) && s.cancelled && !(s.worker.Exited? && s.lock == 1)
    ensures !move.Start? && Do(cfg, s, move).Moved?
    ensures move.Step? ==> move.client < |s.clients| && StageOf(s.clients[move.client]) != WaitNext
  {
    hide Answered, Progress, AllConsistent, ClientsAgree, Count, SearchTurns.Search, Put;
    if s.thread > 0 || Working(s.worker) {
      move := Work;
    } else {
      var k;
      if Count(s.clients, HoldNext) > 0 {
        k := CountSome(s.clients, HoldNext);
      } else if Count(s.clients, Posted) > 0 {
        k := CountSome(s.clients, Posted);
      } else if Count(s.clients, HoldRead) > 0 {
        k := CountSome(s.clients, HoldRead);
      } else if Count(s.clients, HoldCancel) > 0 {
        k := CountSome(s.clients, HoldCancel);
      } else {
        k := CountSome(s.clients, WaitCancel);
      }
      move := Step(k);
    }
  }

  lemma ForwardKeeps(cfg: Config, s: System, late: nat, move: Move, j: nat)
    requires Inv(cfg, s) && OneCancel(s, late) && !move.Start? && Do(cfg, s, move).Moved?
    requires move.Step? ==> move.client < |s.clients| && StageOf(s.clients[move.client]) != WaitNext
    requires j < |s.clients| && StageOf(s.clients[j]) == WaitNext
    ensures var next := Do(cfg, s, move).next;
      && Inv(cfg, next) && OneCancel(next, late) && next.cancelled == s.cancelled
      && |next.clients| == |s.clients| && next.clients[j] == s.clients[j]
  {
    hide Inv, OneCancel;
    match move
    case Step(i) =>
      ClientKeeps(cfg, s, i);
      ClientOrder(cfg, s, i, late);
    case Work =>
      WorkerKeeps(cfg, s);
      WorkerOrder(cfg, s, late);
  }

  /** So the worker exits and gives the lock back with the Next still waiting for it. */
  lemma {:induction false} WorkerExits(cfg: Config, s: System, late: nat, j: nat) returns (run: seq<Move>)
    requires Inv(cfg, s) && OneCancel(s, late) && s.cancelled
    requires j < |s.clients| && StageOf(s.clients[j]) == WaitNext
    ensures NoStarts(run) && Run(cfg, s, run).Moved?
    ensures var t := Run(cfg, s, run).next;
      && t.worker.Exited? && t.lock == 1 && t.thread == 0 && |t.posted| == |t.completed|
      && j < |t.clients| && t.clients[j] == s.clients[j]
    decreases Effort(s)
  {
    hide Do, Effort;
    if s.worker.Exited? && s.lock == 1 {
      NothingPending(cfg, s);
      run := [];
    } else {
      hide Inv, OneCancel;
      var move := Forward(cfg, s, late);
      ForwardKeeps(cfg, s, late, move, j);
      EffortFalls(cfg, s, move);
      run := WorkerExits(cfg, Do(cfg, s, move).next, late, j);
      assert ([move] + run)[1..] == run;
      run := [move] + run;
    }
  }

  lemma Then(cfg: Config, s: System, run: seq<Move>, move: Move) returns (longer: seq<Move>)
    requires NoStarts(run) && !move.Start?
    requires Run(cfg, s, run).Moved? && Do(cfg, Run(cfg, s, run).next, move).Moved?
    ensures NoStarts(longer) && Run(cfg, s, longer) == Do(cfg, Run(cfg, s, run).next, move)
  {
    hide Do, Run;
    RunThen(cfg, s, run, move);
    longer := run + [move];
  }

  lemma NextIsLate(cfg: Config, s: System, run0: seq<Move>, j: nat) returns (run: seq<Move>)
    requires NoStarts(run0) && Run(cfg, s, run0).Moved?
    requires var u := Run(cfg, s, run0).next;
      && u.worker.Exited? && u.lock == 1 && u.thread == 0 && j < |u.clients| && StageOf(u.clients[j]) == WaitNext
    ensures NoStarts(run) && Run(cfg, s, run).Moved?
    ensures var u, v := Run(cfg, s, run0).next, Run(cfg, s, run).next;
      Stranded(v) && |v.posted| == |u.posted| + 1 && v.completed == u.completed
  {
    hide Run;
    run := Then(cfg, s, run0, Step(j));
    run := Then(cfg, s, run, Step(j));
    run := Then(cfg, s, run, Step(j));
    run := Then(cfg, s, run, Step(j));
  }

  /** Whenever Cancel is called while a Next is waiting for the lock, some interleaving of what is
      under way posts that request to a worker that has exited: it is never completed, and the
      lock is never free again. */
  lemma WaitingNextCanBeStranded(cfg: Config, s: System, i: nat, j: nat) returns (run: seq<Move>)
    requires ReachableInOrder(cfg, s) && !s.cancelled
    requires i < |s.clients| && j < |s.clients| && s.clients[i].Idle? && StageOf(s.clients[j]) == WaitNext
    ensures NoStarts(run) && Do(cfg, s, Start(i, Cancel)).Moved?
    ensures var r := Run(cfg, Do(cfg, s, Start(i, Cancel)).next, run);
      r.Moved? && Stranded(r.next) && |r.next.posted| == |r.next.completed| + 1
  {
    hide Run, Inv, Count, OneCancel, ReachableInOrder;
    var t := Do(cfg, s, Start(i, Cancel)).next;
    InOrder(cfg, s);
    StartKeeps(cfg, s, i, Cancel);
    StartOrder(cfg, s, i, Cancel);
    run := WorkerExits(cfg, t, Count(t.clients, WaitNext), j);
    run := NextIsLate(cfg, t, run, j);
  }

  /** And so can every Next that is called after Cancel. */
  lemma LateNextCanBeStranded(cfg: Config, s: System, j: nat, request: nat) returns (run: seq<Move>)
    requires ReachableInOrder(cfg, s) && s.cancelled
    requires j < |s.clients| && s.clients[j].Idle?
    ensures NoStarts(run) && Do(cfg, s, Start(j, Next(request))).Moved?
    ensures var r := Run(cfg, Do(cfg, s, Start(j, Next(request))).next, run);
      r.Moved? && Stranded(r.next) && |r.next.posted| == |r.next.completed| + 1
  {
    hide Run, Inv, Count, OneCancel, ReachableInOrder;
    var t := Do(cfg, s, Start(j, Next(request))).next;
    InOrder(cfg, s);
    StartKeeps(cfg, s, j, Next(request));
    StartOrder(cfg, s, j, Next(request));
    run := WorkerExits(cfg, t, Count(t.clients, WaitNext), j);
    run := NextIsLate(cfg, t, run, j);
  }
}
