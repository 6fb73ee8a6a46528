/**
 The supervisor workflow: node functions, routing functions and the edges of `_build_graph`.
 Callbacks and the environment may set the event, tool, error, HITL and rollback fields freely.
 */
module StateGraph {
  import opened Wrappers

  datatype Node =
    | INIT | IDLE | WATCHING | ANALYZING | DISPATCHING | HITL_WAIT | COMPLETED | ERROR
    | ROLLING_BACK | ERROR_FATAL | PATCHING | GENERATING_LODS

  datatype EventType =
    | ModlistChanged | UserCommand | ToolRequest | HitlResponse | ErrorOccurred | Timeout | Shutdown

  /** The answer of the human, if there is one; any other text counts as `OtherResponse`. */
  datatype Response = Approved | Denied | TimedOut | OtherResponse

  datatype RollbackResult = RollbackResult(success: bool)

  /** The fields that callbacks and the environment may set freely. */
  datatype Context = Context(
    pendingEvent: Option<EventType>,
    requiresHitl: bool, requiresPatch: bool, conflictReport: bool,
    toolName: Option<string>, toolResult: Option<string>,
    lastError: bool,
    hitlResponse: Option<Response>, hitlStartedAt: Option<int>,
    rollbackTransaction: bool, rollbackResult: Option<RollbackResult>,
    loopDetected: bool)

  /** The workflow state; `current` is the `current_state` field. */
  datatype Fields = Fields(current: Node, errorCount: nat, rollbackTriggered: bool, context: Context)

  /** `HITL_TIMEOUT_SECONDS`, with the clock in seconds. */
  const HITL_TIMEOUT := 300
  const MAX_RETRIES := 3

  function Initial(): Fields {
    Fields(INIT, 0, false, Context(None, false, false, false, None, None, false, None, None, false, None, false))
  }

  // ------------------------------------------------------------------ transitions

  function ValidTargets(n: Node): set<Node> {
    match n
    case INIT => {IDLE, ERROR}
    case IDLE => {WATCHING, ANALYZING, DISPATCHING, ERROR}
    case WATCHING => {ANALYZING, IDLE, ERROR}
    case ANALYZING => {DISPATCHING, HITL_WAIT, COMPLETED, IDLE, ERROR, PATCHING}
    case DISPATCHING => {COMPLETED, IDLE, ERROR, GENERATING_LODS, HITL_WAIT}
    case HITL_WAIT => {DISPATCHING, COMPLETED, ERROR}
    case COMPLETED => {IDLE}
    case ERROR => {IDLE, INIT, ROLLING_BACK}
    case ROLLING_BACK => {IDLE, ERROR_FATAL}
    case ERROR_FATAL => {}
    case PATCHING => {COMPLETED, ERROR, ROLLING_BACK}
    case GENERATING_LODS => {COMPLETED, ERROR, ROLLING_BACK}
  }

  /** Where the graph goes next; `Invalid` is the ValueError of a blocked transition. */
  datatype Route = Go(node: Node) | End | Invalid

  function ValidateAndRoute(from: Node, to: Node): Route {
    if to in ValidTargets(from) then Go(to) else Invalid
  }

  // ------------------------------------------------------------------ nodes and routing

  /** The update a node returns; `now` is the clock of the HITL node. */
  function RunNode(n: Node, s: Fields, now: int): Fields {
    var c := s.context;
    match n
    case INIT => s.(current := IDLE)
    case COMPLETED => s.(current := COMPLETED, context := c.(pendingEvent := None))
    case ERROR => s.(current := ERROR, errorCount := s.errorCount + 1)
    case ROLLING_BACK => s.(current := ROLLING_BACK, rollbackTriggered := true)
    case ERROR_FATAL =>
      s.(current := ERROR_FATAL, rollbackTriggered := false,
         context := c.(rollbackResult := Some(RollbackResult(false))))
    case PATCHING => s.(current := if c.conflictReport then PATCHING else IDLE)
    case HITL_WAIT =>
      s.(current := HITL_WAIT,
         context := c.(hitlStartedAt := if c.hitlStartedAt.None? then Some(now) else c.hitlStartedAt))
    case _ => s.(current := n)
  }

  function RouteFromIdle(c: Context): Route {
    match c.pendingEvent
    case Some(ModlistChanged) => ValidateAndRoute(IDLE, WATCHING)
    case Some(UserCommand) => ValidateAndRoute(IDLE, ANALYZING)
    case Some(ToolRequest) => ValidateAndRoute(IDLE, DISPATCHING)
    case Some(Shutdown) => End
    case Some(ErrorOccurred) => ValidateAndRoute(IDLE, ERROR)
    case _ => Go(IDLE)
  }

  function RouteFromWatching(c: Context): Route {
    match c.pendingEvent
    case Some(ModlistChanged) => ValidateAndRoute(WATCHING, ANALYZING)
    case Some(ErrorOccurred) => ValidateAndRoute(WATCHING, ERROR)
    case _ => ValidateAndRoute(WATCHING, IDLE)
  }

  predicate HasTool(c: Context) { c.toolName.Some? && c.toolName.value != "" }

  function RouteFromAnalyzing(c: Context): Route {
    if c.lastError then ValidateAndRoute(ANALYZING, ERROR)
    else if HasTool(c) then
      if c.requiresPatch then ValidateAndRoute(ANALYZING, PATCHING)
      else if c.requiresHitl then ValidateAndRoute(ANALYZING, HITL_WAIT)
      else ValidateAndRoute(ANALYZING, DISPATCHING)
    else ValidateAndRoute(ANALYZING, COMPLETED)
  }

  /** Patching and LOD generation are routed alike. */
  function RouteFromWork(n: Node, s: Fields): Route {
    if s.context.lastError then
      if !s.rollbackTriggered then ValidateAndRoute(n, ROLLING_BACK) else ValidateAndRoute(n, ERROR)
    else ValidateAndRoute(n, COMPLETED)
  }

  function RouteFromHitlWait(c: Context, now: int): Route {
    match c.hitlResponse
    case Some(Approved) => ValidateAndRoute(HITL_WAIT, DISPATCHING)
    case Some(TimedOut) => ValidateAndRoute(HITL_WAIT, ERROR)
    case Some(_) => ValidateAndRoute(HITL_WAIT, COMPLETED)
    case None =>
      if c.hitlStartedAt.None? then ValidateAndRoute(HITL_WAIT, ERROR)
      else if now - c.hitlStartedAt.value >= HITL_TIMEOUT then ValidateAndRoute(HITL_WAIT, ERROR)
      else Go(HITL_WAIT)
  }

  predicate Finished(result: Option<string>) {
    result == Some("success") || result == Some("aborted")
  }

  function RouteFromDispatching(c: Context): Route {
    if c.loopDetected then ValidateAndRoute(DISPATCHING, HITL_WAIT)
    else if c.lastError then ValidateAndRoute(DISPATCHING, ERROR)
    else if Finished(c.toolResult) && c.toolName == Some("generate_lods") then
      ValidateAndRoute(DISPATCHING, GENERATING_LODS)
    else ValidateAndRoute(DISPATCHING, COMPLETED)
  }

  function RouteFromError(s: Fields): Route {
    if s.context.rollbackTransaction && !s.rollbackTriggered then ValidateAndRoute(ERROR, ROLLING_BACK)
    else if s.errorCount >= MAX_RETRIES then End
    else ValidateAndRoute(ERROR, IDLE)
  }

  function RouteFromRollingBack(c: Context): Route {
    if c.rollbackResult.Some? && c.rollbackResult.value.success then ValidateAndRoute(ROLLING_BACK, IDLE)
    else ValidateAndRoute(ROLLING_BACK, ERROR_FATAL)
  }

  /** The edges of the graph. */
  function NextNode(n: Node, s: Fields, now: int): Route {
    match n
    case INIT => Go(IDLE)
    case IDLE => RouteFromIdle(s.context)
    case WATCHING => RouteFromWatching(s.context)
    case ANALYZING => RouteFromAnalyzing(s.context)
    case DISPATCHING => RouteFromDispatching(s.context)
    case HITL_WAIT => RouteFromHitlWait(s.context, now)
    case COMPLETED => Go(IDLE)
    case ERROR => RouteFromError(s)
    case ROLLING_BACK => RouteFromRollingBack(s.context)
    case ERROR_FATAL => End
    case PATCHING => RouteFromWork(PATCHING, s)
    case GENERATING_LODS => RouteFromWork(GENERATING_LODS, s)
  }

  // ------------------------------------------------------------------ runs

  /** The environment leaves the error count and the rollback flag alone. */
  predicate OnlyEnvironment(s: Fields, t: Fields) {
    t.errorCount == s.errorCount && t.rollbackTriggered == s.rollbackTriggered
  }

  /** One visit: the fields after the environment and callbacks, after the node, and the route. */
  datatype Visit = Visit(node: Node, before: Fields, after: Fields, routed: Fields, route: Route)

  ghost predicate IsVisit(v: Visit) {
    && (exists now :: v.after == RunNode(v.node, v.before, now))
    && OnlyEnvironment(v.after, v.routed)
    && exists now :: v.route == NextNode(v.node, v.routed, now)
  }

  /** A run: from the entry point, each visit goes where the one before was routed. */
  ghost predicate IsRun(run: seq<Visit>) {
    && (forall i :: 0 <= i < |run| ==> IsVisit(run[i]))
    && (run != [] ==> run[0].node == INIT && OnlyEnvironment(Initial(), run[0].before))
    && (forall i :: 0 < i < |run| ==>
        run[i - 1].route == Go(run[i].node) && OnlyEnvironment(run[i - 1].routed, run[i].before))
  }

  function Entries(run: seq<Visit>, n: Node): nat {
    if run == [] then 0
    else Entries(run[..|run| - 1], n) + if run[|run| - 1].node == n then 1 else 0
  }

  /** No routing function ever asks for a blocked transition. */
  lemma RoutesAreValid(n: Node, s: Fields, now: int)
    ensures NextNode(n, s, now) != Invalid
    ensures NextNode(n, s, now).Go? ==>
              || NextNode(n, s, now).node in ValidTargets(n)
              || (NextNode(n, s, now).node == n && (n == IDLE || n == HITL_WAIT))
  {
  }

  /** How a visit changes the two fields that only nodes write. */
  lemma NodeEffect(n: Node, s: Fields, now: int)
    ensures RunNode(n, s, now).errorCount == s.errorCount + if n == ERROR then 1 else 0
    ensures RunNode(n, s, now).rollbackTriggered == (n == ROLLING_BACK || (n != ERROR_FATAL && s.rollbackTriggered))
  {
  }

  /** When the graph goes on from an error, and when it rolls back. */
  lemma RouteEffect(n: Node, s: Fields, now: int, to: Node)
    requires NextNode(n, s, now) == Go(to)
    ensures n == ERROR && s.errorCount >= MAX_RETRIES ==> to == ROLLING_BACK
    ensures to == ROLLING_BACK ==> !s.rollbackTriggered
    ensures to == ERROR_FATAL <==> n == ROLLING_BACK && to != IDLE
    ensures n != ERROR_FATAL
    ensures to == ERROR ==> n != ERROR && n != ERROR_FATAL
  {
  }

  /** What the fields remember after a visit of `n`: the entries so far. */
  predicate Ledger(n: Node, errorCount: nat, triggered: bool, errors: nat, rollbacks: nat) {
    && errors == errorCount
    && rollbacks == (if triggered || n == ERROR_FATAL then 1 else 0)
    && (n == ROLLING_BACK ==> triggered)
    && (errorCount >= MAX_RETRIES && n != ERROR ==> errorCount == MAX_RETRIES && rollbacks == 1)
    && (errorCount > MAX_RETRIES && n == ERROR ==> errorCount == MAX_RETRIES + 1 && triggered)
  }

  ghost predicate Remembers(run: seq<Visit>)
    requires run != []
  {
    var last := run[|run| - 1];
    Ledger(last.node, last.routed.errorCount, last.routed.rollbackTriggered, Entries(run, ERROR),
           Entries(run, ROLLING_BACK))
  }

  /** One more visit after a visit that did not end the run. */
  lemma VisitRemembers(run: seq<Visit>, v: Visit)
    requires run != [] && Remembers(run) && IsVisit(v) && IsVisit(run[|run| - 1])
    requires run[|run| - 1].route == Go(v.node) && OnlyEnvironment(run[|run| - 1].routed, v.before)
    ensures Remembers(run + [v])
  {
    assert (run + [v])[..|run|] == run;
    var last := run[|run| - 1];
    var now :| last.route == NextNode(last.node, last.routed, now);
    RouteEffect(last.node, last.routed, now, v.node);
    var later :| v.after == RunNode(v.node, v.before, later);
    NodeEffect(v.node, v.before, later);
  }

  lemma {:induction false} RunRemembers(run: seq<Visit>)
    requires IsRun(run) && run != []
    ensures Remembers(run)
    decreases |run|
  {
    var n := |run| - 1;
    assert run == run[..n] + [run[n]];
    if n == 0 {
      assert run[..0] == [];
    } else {
      RunRemembers(run[..n]);
      assert IsVisit(run[n - 1]) && IsVisit(run[n]);
      assert run[..n][n - 1] == run[n - 1];
      VisitRemembers(run[..n], run[n]);
    }
  }

  /**
   Every run rolls back at most once and enters ERROR at most four times, and no routing is ever
   blocked: each one ends the run, stays, or follows a declared transition.
   */
  lemma RunBounds(run: seq<Visit>)
    requires IsRun(run)
    ensures Entries(run, ROLLING_BACK) <= 1 && Entries(run, ERROR) <= 4
    ensures forall i :: 0 <= i < |run| ==>
              match run[i].route
              case End => true
              case Invalid => false
              case Go(n) => n in ValidTargets(run[i].node) || (n == run[i].node && (n == IDLE || n == HITL_WAIT))
  {
    if run != [] {
      RunRemembers(run);
    }
    forall i | 0 <= i < |run|
      ensures match run[i].route
              case End => true
              case Invalid => false
              case Go(n) => n in ValidTargets(run[i].node) || (n == run[i].node && (n == IDLE || n == HITL_WAIT))
    {
      assert IsVisit(run[i]);
      var now :| run[i].route == NextNode(run[i].node, run[i].routed, now);
      RoutesAreValid(run[i].node, run[i].routed, now);
    }
  }

  /** A fatal error ends the run. */
  lemma FatalIsAbsorbing(run: seq<Visit>, i: nat)
    requires IsRun(run) && i < |run| && run[i].node == ERROR_FATAL
    ensures i == |run| - 1 && run[i].route == End
  {
    assert IsVisit(run[i]);
    if i + 1 < |run| {
      GoesOn(run, i);
    }
  }

  lemma GoesOn(run: seq<Visit>, i: nat)
    requires IsRun(run) && i + 1 < |run|
    ensures run[i].route == Go(run[i + 1].node)
  {
    var next := i + 1;
    assert run[next - 1].route == Go(run[next].node);
  }

  // ------------------------------------------------------------------ the bounds are reached

  /** One more visit keeps the run a run. */
  lemma Lengthen(run: seq<Visit>, v: Visit)
    requires IsRun(run) && IsVisit(v)
    requires if run == [] then v.node == INIT && OnlyEnvironment(Initial(), v.before)
             else run[|run| - 1].route == Go(v.node) && OnlyEnvironment(run[|run| - 1].routed, v.before)
    ensures IsRun(run + [v])
  {
    var longer := run + [v];
    forall i | 0 <= i < |longer| ensures IsVisit(longer[i]) {
      assert i < |run| ==> longer[i] == run[i];
    }
    forall i | 0 < i < |longer|
      ensures longer[i - 1].route == Go(longer[i].node) && OnlyEnvironment(longer[i - 1].routed, longer[i].before)
    {
      assert longer[i - 1] == run[i - 1];
      assert i < |run| ==> longer[i] == run[i];
    }
  }

  lemma VisitOf(n: Node, before: Fields, routed: Fields, now: int)
    requires OnlyEnvironment(RunNode(n, before, now), routed)
    ensures IsVisit(Visit(n, before, RunNode(n, before, now), routed, NextNode(n, routed, now)))
  {
  }

  /** The visit of `n` when the environment sets `before` first and `routed` last. */
  lemma Extend(run: seq<Visit>, n: Node, before: Fields, routed: Fields, now: int) returns (longer: seq<Visit>)
    requires IsRun(run)
    requires if run == [] then n == INIT && OnlyEnvironment(Initial(), before)
             else run[|run| - 1].route == Go(n) && OnlyEnvironment(run[|run| - 1].routed, before)
    requires OnlyEnvironment(RunNode(n, before, now), routed)
    ensures IsRun(longer) && |longer| == |run| + 1 && longer[..|run|] == run
    ensures longer[|run|] == Visit(n, before, RunNode(n, before, now), routed, NextNode(n, routed, now))
    ensures forall m :: Entries(longer, m) == Entries(run, m) + if n == m then 1 else 0
  {
    var v := Visit(n, before, RunNode(n, before, now), routed, NextNode(n, routed, now));
    longer := run + [v];
    VisitOf(n, before, routed, now);
    Lengthen(run, v);
    assert longer[..|run|] == run;
  }

  /** From IDLE through an error back to the routing after ERROR. */
  lemma OneMoreError(run: seq<Visit>, s: Fields, tx: bool) returns (longer: seq<Visit>)
    requires IsRun(run) && run != [] && run[|run| - 1].route == Go(IDLE) && run[|run| - 1].routed == s
    ensures IsRun(longer) && |longer| == |run| + 2
    ensures longer[|run| + 1].routed == s.(current := ERROR, errorCount := s.errorCount + 1,
                                           context := s.context.(pendingEvent := Some(ErrorOccurred),
                                                                 rollbackTransaction := tx))
    ensures longer[|run| + 1].route == RouteFromError(longer[|run| + 1].routed)
    ensures Entries(longer, ERROR) == Entries(run, ERROR) + 1
            && Entries(longer, ROLLING_BACK) == Entries(run, ROLLING_BACK)
  {
    var c := s.context.(pendingEvent := Some(ErrorOccurred));
    var idle := s.(current := IDLE, context := c);
    assert RunNode(IDLE, s, 0) == s.(current := IDLE) && NextNode(IDLE, idle, 0) == Go(ERROR);
    var a := Extend(run, IDLE, s, idle, 0);
    var failed := idle.(current := ERROR, errorCount := s.errorCount + 1);
    assert RunNode(ERROR, idle, 0) == failed;
    longer := Extend(a, ERROR, idle, failed.(context := c.(rollbackTransaction := tx)), 0);
  }

  /** Three errors, the last of them with a transaction to roll back. */
  lemma ThreeErrors() returns (run: seq<Visit>, failed: Fields)
    ensures IsRun(run) && Entries(run, ROLLING_BACK) == 0 && Entries(run, ERROR) == MAX_RETRIES
    ensures run != [] && run[|run| - 1].routed == failed && run[|run| - 1].route == Go(ROLLING_BACK)
    ensures failed.errorCount == MAX_RETRIES && !failed.rollbackTriggered
  {
    var s := Initial();
    run := Extend([], INIT, s, RunNode(INIT, s, 0), 0);
    run := OneMoreError(run, run[|run| - 1].routed, false);
    run := OneMoreError(run, run[|run| - 1].routed, false);
    run := OneMoreError(run, run[|run| - 1].routed, true);
    failed := run[|run| - 1].routed;
  }

  /** Both bounds are reached: three errors, a successful rollback, and a last error. */
  lemma BoundsAreReached() returns (run: seq<Visit>)
    ensures IsRun(run) && Entries(run, ROLLING_BACK) == 1 && Entries(run, ERROR) == 4
  {
    var failed;
    run, failed := ThreeErrors();
    var undone := RunNode(ROLLING_BACK, failed, 0).(
      context := failed.context.(rollbackResult := Some(RollbackResult(true))));
    run := Extend(run, ROLLING_BACK, failed, undone, 0);
    run := OneMoreError(run, undone, true);
  }
}
