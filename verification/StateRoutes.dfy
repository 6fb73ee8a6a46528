/** Which answer each state gives to what happened: exactly, and over whole runs of the graph. */
module StateRoutes {
  import opened StateGraph
  import opened Wrappers

  // ------------------------------------------------------------------ the routes, exactly

  /** Only an approval dispatches; a refusal or an unknown answer completes; no answer in 300 s is an error. */
  lemma HitlRoutes(s: Fields, now: int)
    ensures var c := s.context; var next := NextNode(HITL_WAIT, s, now);
            && (next == Go(DISPATCHING) <==> c.hitlResponse == Some(Approved))
            && (next == Go(COMPLETED) <==> c.hitlResponse in {Some(Denied), Some(OtherResponse)})
            && (next == Go(ERROR) <==>
                  || c.hitlResponse == Some(TimedOut)
                  || (c.hitlResponse == None && (c.hitlStartedAt == None || now - c.hitlStartedAt.value >= 300)))
            && (next == Go(HITL_WAIT) <==>
                  c.hitlResponse == None && c.hitlStartedAt.Some? && now - c.hitlStartedAt.value < 300)
  {
  }

  lemma IdleRoutes(s: Fields, now: int)
    ensures var event := s.context.pendingEvent; var next := NextNode(IDLE, s, now);
            && (next == Go(WATCHING) <==> event == Some(ModlistChanged))
            && (next == Go(ANALYZING) <==> event == Some(UserCommand))
            && (next == Go(DISPATCHING) <==> event == Some(ToolRequest))
            && (next == Go(ERROR) <==> event == Some(ErrorOccurred))
            && (next == End <==> event == Some(Shutdown))
            && (next == Go(IDLE) <==> event in {None, Some(HitlResponse), Some(Timeout)})
  {
  }

  lemma WatchingRoutes(s: Fields, now: int)
    ensures var event := s.context.pendingEvent; var next := NextNode(WATCHING, s, now);
            && (next == Go(ANALYZING) <==> event == Some(ModlistChanged))
            && (next == Go(ERROR) <==> event == Some(ErrorOccurred))
            && (next == Go(IDLE) <==> event !in {Some(ModlistChanged), Some(ErrorOccurred)})
  {
  }

  /** An error comes first, then the patch, then the human. */
  lemma AnalyzingRoutes(s: Fields, now: int)
    ensures var c := s.context; var next := NextNode(ANALYZING, s, now);
            var tool := c.toolName.Some? && |c.toolName.value| > 0;
            && (next == Go(ERROR) <==> c.lastError)
            && (next == Go(PATCHING) <==> !c.lastError && tool && c.requiresPatch)
            && (next == Go(HITL_WAIT) <==> !c.lastError && tool && !c.requiresPatch && c.requiresHitl)
            && (next == Go(DISPATCHING) <==> !c.lastError && tool && !c.requiresPatch && !c.requiresHitl)
            && (next == Go(COMPLETED) <==> !c.lastError && !tool)
  {
  }

  /** A loop goes to the human, also after an error. */
  lemma DispatchingRoutes(s: Fields, now: int)
    ensures var c := s.context; var next := NextNode(DISPATCHING, s, now);
            var lods := c.toolName == Some("generate_lods") && c.toolResult in {Some("success"), Some("aborted")};
            && (next == Go(HITL_WAIT) <==> c.loopDetected)
            && (next == Go(ERROR) <==> !c.loopDetected && c.lastError)
            && (next == Go(GENERATING_LODS) <==> !c.loopDetected && !c.lastError && lods)
            && (next == Go(COMPLETED) <==> !c.loopDetected && !c.lastError && !lods)
  {
  }

  lemma WorkRoutes(n: Node, s: Fields, now: int)
    requires n == PATCHING || n == GENERATING_LODS
    ensures var next := NextNode(n, s, now);
            && (next == Go(ROLLING_BACK) <==> s.context.lastError && !s.rollbackTriggered)
            && (next == Go(ERROR) <==> s.context.lastError && s.rollbackTriggered)
            && (next == Go(COMPLETED) <==> !s.context.lastError)
  {
  }

  lemma ErrorRoutes(s: Fields, now: int)
    ensures var next := NextNode(ERROR, s, now); var rollback := s.context.rollbackTransaction && !s.rollbackTriggered;
            && (next == Go(ROLLING_BACK) <==> rollback)
            && (next == End <==> !rollback && s.errorCount >= 3)
            && (next == Go(IDLE) <==> !rollback && s.errorCount < 3)
  {
  }

  lemma RollingBackRoutes(s: Fields, now: int)
    ensures var next := NextNode(ROLLING_BACK, s, now);
            var success := s.context.rollbackResult == Some(RollbackResult(true));
            && (next == Go(IDLE) <==> success) && (next == Go(ERROR_FATAL) <==> !success)
  {
  }

  lemma FixedRoutes(s: Fields, now: int)
    ensures NextNode(INIT, s, now) == Go(IDLE) && NextNode(COMPLETED, s, now) == Go(IDLE)
    ensures NextNode(ERROR_FATAL, s, now) == End
  {
  }

  /** The table of transitions, read by target: nothing is dispatched but from three states. */
  lemma DeclaredEdges(n: Node)
    ensures INIT in ValidTargets(n) <==> n == ERROR
    ensures IDLE in ValidTargets(n) <==> n in {INIT, WATCHING, ANALYZING, DISPATCHING, COMPLETED, ERROR, ROLLING_BACK}
    ensures WATCHING in ValidTargets(n) <==> n == IDLE
    ensures ANALYZING in ValidTargets(n) <==> n in {IDLE, WATCHING}
    ensures DISPATCHING in ValidTargets(n) <==> n in {IDLE, ANALYZING, HITL_WAIT}
    ensures HITL_WAIT in ValidTargets(n) <==> n in {ANALYZING, DISPATCHING}
    ensures COMPLETED in ValidTargets(n) <==> n in {ANALYZING, DISPATCHING, HITL_WAIT, PATCHING, GENERATING_LODS}
    ensures ERROR in ValidTargets(n) <==> n !in {COMPLETED, ERROR, ROLLING_BACK, ERROR_FATAL}
    ensures ROLLING_BACK in ValidTargets(n) <==> n in {ERROR, PATCHING, GENERATING_LODS}
    ensures ERROR_FATAL in ValidTargets(n) <==> n == ROLLING_BACK
    ensures PATCHING in ValidTargets(n) <==> n == ANALYZING
    ensures GENERATING_LODS in ValidTargets(n) <==> n == DISPATCHING
  {
  }

  // ------------------------------------------------------------------ what the nodes write

  /** A completed event is consumed, a wait is timed from its start, and a fatal error is a failed rollback. */
  lemma NodesWrite(n: Node, s: Fields, now: int)
    ensures var t := RunNode(n, s, now);
            && t.current == (if n == INIT || (n == PATCHING && !s.context.conflictReport) then IDLE else n)
            && (n == COMPLETED ==> t.context == s.context.(pendingEvent := None))
            && (n == HITL_WAIT && s.context.hitlStartedAt == None ==>
                  t.context == s.context.(hitlStartedAt := Some(now)))
            && (n == ERROR_FATAL ==> t.context == s.context.(rollbackResult := Some(RollbackResult(false))))
            && (n !in {COMPLETED, HITL_WAIT, ERROR_FATAL} || (n == HITL_WAIT && s.context.hitlStartedAt != None) ==>
                  t.context == s.context)
  {
  }

  // ------------------------------------------------------------------ over runs

  lemma RouteOf(run: seq<Visit>, i: nat) returns (now: int)
    requires IsRun(run) && i < |run|
    ensures run[i].route == NextNode(run[i].node, run[i].routed, now)
    ensures i + 1 < |run| ==> run[i].route == Go(run[i + 1].node)
  {
    assert IsVisit(run[i]);
    now :| run[i].route == NextNode(run[i].node, run[i].routed, now);
    if i + 1 < |run| {
      GoesOn(run, i);
    }
  }

  /** What the human said when the wait ended. */
  function Answer(v: Visit): Option<Response> { v.routed.context.hitlResponse }

  /**
   In every run a wait for a human is followed by a dispatch exactly after an approval, and by a
   completion exactly after a refusal or an answer that nobody understands.
   */
  lemma OnlyApprovalDispatches(run: seq<Visit>, i: nat)
    requires IsRun(run) && i + 1 < |run| && run[i].node == HITL_WAIT
    ensures run[i + 1].node == DISPATCHING <==> Answer(run[i]) == Some(Approved)
    ensures run[i + 1].node == COMPLETED <==> Answer(run[i]) in {Some(Denied), Some(OtherResponse)}
    ensures run[i + 1].node == ERROR <== Answer(run[i]) == Some(TimedOut)
    ensures run[i + 1].node in {ERROR, HITL_WAIT} <==> Answer(run[i]) in {Some(TimedOut), None}
  {
    var now := RouteOf(run, i);
    HitlRoutes(run[i].routed, now);
  }

  /**
   In every run a dispatch follows a tool request, an approval, or an analysis that found a tool
   and asked neither for a patch nor for a human.
   */
  lemma DispatchHasCause(run: seq<Visit>, i: nat)
    requires IsRun(run) && i + 1 < |run| && run[i + 1].node == DISPATCHING
    ensures var c := run[i].routed.context;
            || (run[i].node == IDLE && c.pendingEvent == Some(ToolRequest))
            || (run[i].node == HITL_WAIT && c.hitlResponse == Some(Approved))
            || (run[i].node == ANALYZING && !c.lastError && c.toolName.Some? && |c.toolName.value| > 0
                && !c.requiresPatch && !c.requiresHitl)
  {
    var now := RouteOf(run, i);
    var s := run[i].routed;
    match run[i].node {
      case INIT => FixedRoutes(s, now);
      case IDLE => IdleRoutes(s, now);
      case WATCHING => WatchingRoutes(s, now);
      case ANALYZING => AnalyzingRoutes(s, now);
      case DISPATCHING => DispatchingRoutes(s, now);
      case HITL_WAIT => HitlRoutes(s, now);
      case COMPLETED => FixedRoutes(s, now);
      case ERROR => ErrorRoutes(s, now);
      case ROLLING_BACK => RollingBackRoutes(s, now);
      case ERROR_FATAL => FixedRoutes(s, now);
      case PATCHING => WorkRoutes(PATCHING, s, now);
      case GENERATING_LODS => WorkRoutes(GENERATING_LODS, s, now);
    }
  }

  /** In every run a rollback follows an error in patching or LOD generation, or ERROR with a transaction at hand. */
  lemma RollbackHasCause(run: seq<Visit>, i: nat)
    requires IsRun(run) && i + 1 < |run| && run[i + 1].node == ROLLING_BACK
    ensures !run[i].routed.rollbackTriggered
    ensures || (run[i].node == ERROR && run[i].routed.context.rollbackTransaction)
            || (run[i].node in {PATCHING, GENERATING_LODS} && run[i].routed.context.lastError)
  {
    var now := RouteOf(run, i);
    RouteEffect(run[i].node, run[i].routed, now, ROLLING_BACK);
  }
}
