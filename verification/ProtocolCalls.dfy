/** What becomes of every single call: requests, accessors and Cancel. */
module ProtocolCalls {
  import opened Protocol
  import opened ProtocolSafety
  import opened ProtocolShutdown

  // ---------- Cancel ----------

  /** A Cancel is on its way through the code, or waits for the worker, or the worker has exited. */
  predicate CancelPending(s: System) {
    s.cancelled ==>
      Count(s.clients, WaitCancel) + Count(s.clients, HoldCancel) + Count(s.clients, Join) > 0 || s.worker.Exited?
  }

  lemma CancelStep(cfg: Config, s: System, move: Move)
    requires Inv(cfg, s) && CancelPending(s) && Do(cfg, s, move).Moved?
    ensures CancelPending(Do(cfg, s, move).next)
  {
    hide Count, SearchTurns.Search, Put, Values, Inv;
    var next := Do(cfg, s, move).next;
    if next.clients != s.clients {
      var i := move.client;
      assert next.clients == s.clients[i := next.clients[i]];
      CountUpdate(s.clients, i, next.clients[i], WaitCancel);
      CountUpdate(s.clients, i, next.clients[i], HoldCancel);
      CountUpdate(s.clients, i, next.clients[i], Join);
    }
  }

  lemma {:induction false} CancelKept(cfg: Config, s: System, run: seq<Move>)
    requires Inv(cfg, s) && CancelPending(s) && Run(cfg, s, run).Moved?
    ensures CancelPending(Run(cfg, s, run).next)
    decreases |run|
  {
    hide Inv, CancelPending, Do;
    if run != [] {
      CancelStep(cfg, s, run[0]);
      RunKeeps(cfg, s, [run[0]]);
      OneMove(cfg, s, run[0]);
      CancelKept(cfg, Do(cfg, s, run[0]).next, run[1..]);
    }
  }

  lemma OneMove(cfg: Config, s: System, move: Move)
    ensures Run(cfg, s, [move]) == Do(cfg, s, move)
  {
    hide Do;
    assert [move][1..] == [];
  }

  /** Cancel returns only when the worker has exited: in every reachable state in which it was called
      and no client is in it any more, there is no worker left to use what its caller may now free. */
  lemma CancelReturnsAfterExit(cfg: Config, s: System)
    requires Reachable(cfg, s) && s.cancelled
    requires forall i | 0 <= i < |s.clients| ::
      StageOf(s.clients[i]) != WaitCancel && StageOf(s.clients[i]) != HoldCancel && StageOf(s.clients[i]) != Join
    ensures s.worker == Exited
  {
    hide Inv, Do, Run;
    var start, run :| Initial(cfg, start) && Run(cfg, start, run) == Moved(s);
    InitialInv(cfg, start);
    CancelKept(cfg, start, run);
    CountNone(s.clients, WaitCancel);
    CountNone(s.clients, HoldCancel);
    CountNone(s.clients, Join);
  }

  // ---------- requests ----------

  function One(here: bool): nat {
    if here then 1 else 0
  }

  function Times<T(==)>(xs: seq<T>, x: T): nat {
    if xs == [] then 0 else Times(xs[..|xs|-1], x) + One(xs[|xs|-1] == x)
  }

  lemma TimesMore<T>(xs: seq<T>, y: T, x: T)
    ensures Times(xs + [y], x) == Times(xs, x) + One(y == x)
  {
    assert (xs + [y])[..|xs|] == xs;
  }

  /** How often calls of Next bring in a request. */
  function Asked(run: seq<Move>, request: nat): nat {
    if run == [] then 0 else One(Asks(run[0], request)) + Asked(run[1..], request)
  }

  predicate Asks(move: Move, request: nat) {
    move.Start? && move.call == Next(request)
  }

  /** How many calls have not stored it yet. */
  function Carried(cs: seq<Client>, request: nat): nat {
    if cs == [] then 0 else One(Carries(cs[0], request)) + Carried(cs[1..], request)
  }

  predicate Carries(c: Client, request: nat) {
    match c
    case Calling(call, _) => call == Next(request)
    case Posting(r) => r == request
    case _ => false
  }

  lemma {:induction false} CarriedUpdate(cs: seq<Client>, i: nat, c: Client, request: nat)
    requires i < |cs|
    ensures
      Carried(cs[i := c], request) + One(Carries(cs[i], request)) == Carried(cs, request) + One(Carries(c, request))
  {
    hide Carries, One;
    if i == 0 {
      assert cs[i := c][1..] == cs[1..];
    } else {
      CarriedUpdate(cs[1..], i - 1, c, request);
      assert cs[i := c][1..] == cs[1..][i - 1 := c];
    }
  }

  lemma RequestsStep(cfg: Config, s: System, move: Move, request: nat)
    requires Do(cfg, s, move).Moved?
    ensures var next := Do(cfg, s, move).next;
      Times(next.posted, request) + Carried(next.clients, request)
      == Times(s.posted, request) + Carried(s.clients, request) + One(Asks(move, request))
  {
    hide Carried, Times, SearchTurns.Search, Put, Values;
    var next := Do(cfg, s, move).next;
    if next.clients != s.clients {
      var i := move.client;
      assert next.clients == s.clients[i := next.clients[i]];
      CarriedUpdate(s.clients, i, next.clients[i], request);
      if s.clients[i].Posting? && move.Step? { TimesMore(s.posted, s.clients[i].request, request); }
    }
  }

  /** No request is lost, made up or changed: those stored and those still carried by a call are
      together the ones that calls of Next have brought in, each as often. */
  lemma {:induction false} RequestsConserved(cfg: Config, s: System, run: seq<Move>, request: nat)
    requires Run(cfg, s, run).Moved?
    ensures var t := Run(cfg, s, run).next;
      Times(t.posted, request) + Carried(t.clients, request)
      == Times(s.posted, request) + Carried(s.clients, request) + Asked(run, request)
    decreases |run|
  {
    hide Do, Carried, Times, Asks, One;
    if run != [] {
      RequestsStep(cfg, s, run[0], request);
      RequestsConserved(cfg, Do(cfg, s, run[0]).next, run[1..], request);
    }
  }

  // ---------- accessors ----------

  function Wanted(run: seq<Move>, accessor: Accessor): nat {
    if run == [] then 0 else One(Wants(run[0], accessor)) + Wanted(run[1..], accessor)
  }

  predicate Wants(move: Move, accessor: Accessor) {
    move.Start? && move.call == Read(accessor)
  }

  function Outstanding(cs: seq<Client>, accessor: Accessor): nat {
    if cs == [] then 0 else One(Awaits(cs[0], accessor)) + Outstanding(cs[1..], accessor)
  }

  predicate Awaits(c: Client, accessor: Accessor) {
    match c
    case Calling(call, _) => call == Read(accessor)
    case Reading(a, _, _) => a == accessor
    case _ => false
  }

  function Returned(os: seq<Observation>, accessor: Accessor): nat {
    if os == [] then 0 else Returned(os[..|os|-1], accessor) + One(os[|os|-1].accessor == accessor)
  }

  lemma {:induction false} OutstandingUpdate(cs: seq<Client>, i: nat, c: Client, accessor: Accessor)
    requires i < |cs|
    ensures Outstanding(cs[i := c], accessor) + One(Awaits(cs[i], accessor))
      == Outstanding(cs, accessor) + One(Awaits(c, accessor))
  {
    hide Awaits, One;
    if i == 0 {
      assert cs[i := c][1..] == cs[1..];
    } else {
      OutstandingUpdate(cs[1..], i - 1, c, accessor);
      assert cs[i := c][1..] == cs[1..][i - 1 := c];
    }
  }

  lemma ReturnedMore(os: seq<Observation>, o: Observation, accessor: Accessor)
    ensures Returned(os + [o], accessor) == Returned(os, accessor) + One(o.accessor == accessor)
  {
    assert (os + [o])[..|os|] == os;
  }

  lemma AccessorsStep(cfg: Config, s: System, move: Move, accessor: Accessor)
    requires Do(cfg, s, move).Moved?
    ensures var next := Do(cfg, s, move).next;
      Returned(next.observed, accessor) + Outstanding(next.clients, accessor)
      == Returned(s.observed, accessor) + Outstanding(s.clients, accessor) + One(Wants(move, accessor))
  {
    hide Outstanding, Returned, SearchTurns.Search, Put, Values;
    var next := Do(cfg, s, move).next;
    if next.clients != s.clients {
      var i := move.client;
      assert next.clients == s.clients[i := next.clients[i]];
      OutstandingUpdate(s.clients, i, next.clients[i], accessor);
      if next.observed != s.observed { ReturnedMore(s.observed, next.observed[|s.observed|], accessor); }
    }
  }

  /** Every accessor called returns or is still under way. */
  lemma {:induction false} AccessorsConserved(cfg: Config, s: System, run: seq<Move>, accessor: Accessor)
    requires Run(cfg, s, run).Moved?
    ensures var t := Run(cfg, s, run).next;
      Returned(t.observed, accessor) + Outstanding(t.clients, accessor)
      == Returned(s.observed, accessor) + Outstanding(s.clients, accessor) + Wanted(run, accessor)
    decreases |run|
  {
    hide Do, Outstanding, Returned, Wants, One;
    if run != [] {
      AccessorsStep(cfg, s, run[0], accessor);
      AccessorsConserved(cfg, Do(cfg, s, run[0]).next, run[1..], accessor);
    }
  }

  lemma ObservedStep(cfg: Config, s: System, move: Move)
    requires Do(cfg, s, move).Moved?
    ensures var next := Do(cfg, s, move).next;
      && |s.completed| <= |next.completed|
      && (next.observed == s.observed
          || (|next.observed| == |s.observed| + 1 && s.observed <= next.observed
              && next.observed[|s.observed|].at == |s.completed|))
  {
    hide SearchTurns.Search, Put, Values;
  }

  /** Whatever an accessor returns from some time on was published by a request complete at that time
      or later. */
  lemma {:induction false} ReadsAreFresh(cfg: Config, s: System, run: seq<Move>)
    requires Run(cfg, s, run).Moved?
    ensures var t := Run(cfg, s, run).next;
      && |s.completed| <= |t.completed| && s.observed <= t.observed
      && forall k | |s.observed| <= k < |t.observed| :: t.observed[k].at >= |s.completed|
    decreases |run|
  {
    hide Do;
    if run != [] {
      ObservedStep(cfg, s, run[0]);
      var next := Do(cfg, s, run[0]).next;
      ReadsAreFresh(cfg, next, run[1..]);
      var t := Run(cfg, s, run).next;
      forall k | |s.observed| <= k < |t.observed| ensures t.observed[k].at >= |s.completed| {
        if k < |next.observed| {
          assert t.observed[k] == next.observed[k];
        }
      }
    }
  }

  /** At the end of an orderly use every request that was asked for has been stored and completed, and
      every accessor that was called has returned. */
  lemma NothingIsLost(cfg: Config, start: System, run: seq<Move>, request: nat, accessor: Accessor)
    requires Initial(cfg, start) && Run(cfg, start, run).Moved? && AtRest(Run(cfg, start, run).next)
    ensures var t := Run(cfg, start, run).next;
      && |t.completed| == |t.posted|
      && Times(t.posted, request) == Asked(run, request)
      && Returned(t.observed, accessor) == Wanted(run, accessor)
  {
    hide Run, Asked, Wanted;
    var t := Run(cfg, start, run).next;
    RequestsConserved(cfg, start, run, request);
    AccessorsConserved(cfg, start, run, accessor);
    IdleCarryNothing(start.clients, request, accessor);
    IdleCarryNothing(t.clients, request, accessor);
  }

  lemma {:induction false} IdleCarryNothing(cs: seq<Client>, request: nat, accessor: Accessor)
    requires forall i | 0 <= i < |cs| :: cs[i] == Idle
    ensures Carried(cs, request) == 0 && Outstanding(cs, accessor) == 0
  {
    if cs != [] {
      IdleCarryNothing(cs[1..], request, accessor);
    }
  }
}
