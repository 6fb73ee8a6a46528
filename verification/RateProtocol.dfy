/**
 * The per-chat rate limiter of `TelegramSender` over whole runs of sequential sends.
 * The limiter keeps recent send times only; `History` is every send it ever recorded.
 */
module RateProtocol {
  import opened Wrappers

  const WINDOW := 60.0

  type SendTimes = map<int, seq<real>>

  /** `times[0]` of an empty deque. */
  datatype WaitError = IndexError

  /** One `send` of one chunk: the reading on entry, and the reading at the record if the API answered 200. */
  datatype Send = Send(chat: int, now: real, posted: Option<real>)

  function TimesOf(times: SendTimes, chat: int): seq<real> {
    if chat in times then times[chat] else []
  }

  /** The deque without the leading entries older than a window. */
  function Prune(s: seq<real>, now: real): (r: seq<real>)
    ensures |r| <= |s|
  {
    if s != [] && now - s[0] > WINDOW then Prune(s[1..], now) else s
  }

  /** How long to sleep, given a pruned deque. */
  function Wait(pruned: seq<real>, now: real, limit: int): Result<real, WaitError> {
    if |pruned| < limit then Ok(0.0)
    else if pruned == [] then Err(IndexError)
    else if WINDOW - (now - pruned[0]) > 0.0 then Ok(WINDOW - (now - pruned[0]))
    else Ok(0.0)
  }

  /** What the rest of a run can see: the deques, all recorded sends, and the last clock reading. */
  datatype State = State(times: SendTimes, history: SendTimes, clock: real)

  ghost predicate Enabled(s: State, limit: int, e: Send) {
    var wait := Wait(Prune(TimesOf(s.times, e.chat), e.now), e.now, limit);
    && s.clock <= e.now                                     // the clock does not go back
    && (e.posted.Some? ==>
      wait.Ok? && e.posted.value >= e.now + wait.value)     // a sleep does not end early
  }

  function Apply(s: State, e: Send): State {
    var pruned := Prune(TimesOf(s.times, e.chat), e.now);
    match e.posted
    case None => s.(times := s.times[e.chat := pruned], clock := e.now)
    case Some(at) => State(s.times[e.chat := pruned + [at]],
                           s.history[e.chat := TimesOf(s.history, e.chat) + [at]], at)
  }

  ghost predicate LegalRun(s: State, limit: int, run: seq<Send>)
    decreases run
  {
    run == [] || (Enabled(s, limit, run[0]) && LegalRun(Apply(s, run[0]), limit, run[1..]))
  }

  function RunAll(s: State, run: seq<Send>): State
    decreases run
  {
    if run == [] then s else RunAll(Apply(s, run[0]), run[1..])
  }

  lemma {:induction false} RunSnoc(s: State, run: seq<Send>, k: nat)
    requires k < |run|
    ensures RunAll(s, run[..k + 1]) == Apply(RunAll(s, run[..k]), run[k])
    decreases run
  {
    if k > 0 {
      assert run[..k + 1][1..] == run[1..][..k] && run[..k][1..] == run[1..][..k - 1];
      RunSnoc(Apply(s, run[0]), run[1..], k - 1);
    }
  }

  function Start(clock: real): State { State(map[], map[], clock) }

  // ------------------------------------------------------------------ the invariant

  ghost predicate Ascending(h: seq<real>) { forall i, j :: 0 <= i < j < |h| ==> h[i] <= h[j] }

  /** A send and the one `limit` sends later are a window apart. */
  ghost predicate Spaced(h: seq<real>, limit: nat) {
    forall i, j :: 0 <= i < |h| && j == i + limit && j < |h| ==> h[j] - h[i] >= WINDOW
  }

  ghost predicate IsSuffix(s: seq<real>, h: seq<real>) { |s| <= |h| && s == h[|h| - |s|..] }

  /** What was forgotten is more than a window old; the rest is the end of the history. */
  ghost predicate Remembers(s: seq<real>, h: seq<real>, clock: real) {
    && IsSuffix(s, h)
    && (forall i :: 0 <= i < |h| - |s| ==> clock - h[i] > WINDOW)
  }

  ghost predicate ChatInv(s: seq<real>, h: seq<real>, limit: nat, clock: real) {
    && Ascending(h) && Spaced(h, limit) && Remembers(s, h, clock)
    && (h != [] ==> h[|h| - 1] <= clock)
  }

  ghost predicate Inv(s: State, limit: nat) {
    forall chat: int :: ChatInv(TimesOf(s.times, chat), TimesOf(s.history, chat), limit, s.clock)
  }

  lemma {:induction false} PruneRemembers(s: seq<real>, h: seq<real>, limit: nat, clock: real, now: real)
    requires ChatInv(s, h, limit, clock) && clock <= now
    ensures ChatInv(Prune(s, now), h, limit, now)
    ensures Prune(s, now) != [] ==> now - Prune(s, now)[0] <= WINDOW
    decreases |s|
  {
    if s != [] && now - s[0] > WINDOW {
      assert s[0] == h[|h| - |s|];
      assert s[1..] == h[|h| - |s| + 1..];
      PruneRemembers(s[1..], h, limit, now, now);
    }
  }

  /** The oldest remembered send measures the wait for the one `limit` sends ago. */
  predicate Ready(pruned: seq<real>, limit: nat) {
    |pruned| < limit || limit == 0 || pruned[|pruned| - limit] == pruned[0]
  }

  /** Only a reading equal to the last record can leave more than `limit` sends, none of them old. */
  lemma PrunedFits(s: seq<real>, h: seq<real>, limit: nat, clock: real, now: real)
    requires limit >= 1 && ChatInv(s, h, limit, clock) && clock <= now
    ensures |Prune(s, now)| > limit ==> h != [] && now == clock == h[|h| - 1]
    ensures clock < now ==> Ready(Prune(s, now), limit)
  {
    PruneRemembers(s, h, limit, clock, now);
    var p := Prune(s, now);
    if p != [] && |h| > limit {
      var i := |h| - 1 - limit;
      assert h[i + limit] - h[i] >= WINDOW;
      assert p[0] == h[|h| - |p|];
    }
  }

  lemma ExtendSpaced(h: seq<real>, limit: nat, at: real)
    requires limit >= 1 && Spaced(h, limit)
    requires |h| >= limit ==> at - h[|h| - limit] >= WINDOW
    ensures Spaced(h + [at], limit)
  {
    var g := h + [at];
    forall i, j | 0 <= i < |g| && j == i + limit && j < |g| ensures g[j] - g[i] >= WINDOW {
      assert i < |h| && g[i] == h[i];
      if j < |h| {
        assert h[j] - h[i] >= WINDOW;
      }
    }
  }

  lemma ExtendRemembers(p: seq<real>, h: seq<real>, now: real, at: real)
    requires Remembers(p, h, now) && now <= at
    ensures Remembers(p + [at], h + [at], at)
  {
    assert p + [at] == (h + [at])[|h| - |p|..];
  }

  /** A send recorded `WINDOW` after the oldest remembered one, when `limit` are remembered. */
  lemma RecordKeepsChat(p: seq<real>, h: seq<real>, limit: nat, now: real, at: real)
    requires limit >= 1 && ChatInv(p, h, limit, now) && Ready(p, limit) && now <= at
    requires |p| >= limit ==> at - p[0] >= WINDOW
    ensures ChatInv(p + [at], h + [at], limit, at)
  {
    assert Ascending(h + [at]);
    ExtendRemembers(p, h, now, at);
    if |h| >= limit {
      assert at - h[|h| - limit] >= WINDOW by {
        if |p| >= limit {
          assert p[|p| - limit] == h[|h| - limit];
        }
      }
    }
    ExtendSpaced(h, limit, at);
  }

  lemma OtherChat(s: seq<real>, h: seq<real>, limit: nat, clock: real, later: real)
    requires ChatInv(s, h, limit, clock) && clock <= later
    ensures ChatInv(s, h, limit, later)
  {
  }

  lemma StepKeepsChat(times: seq<real>, h: seq<real>, limit: nat, clock: real, e: Send)
    requires limit >= 1 && ChatInv(times, h, limit, clock) && clock <= e.now
    requires e.posted.Some? ==>
               var p := Prune(times, e.now);
               var w := Wait(p, e.now, limit);
               Ready(p, limit) && w.Ok? && e.posted.value >= e.now + w.value
    ensures e.posted.None? ==> ChatInv(Prune(times, e.now), h, limit, e.now)
    ensures e.posted.Some? ==>
              ChatInv(Prune(times, e.now) + [e.posted.value], h + [e.posted.value], limit, e.posted.value)
  {
    PruneRemembers(times, h, limit, clock, e.now);
    if e.posted.Some? {
      RecordKeepsChat(Prune(times, e.now), h, limit, e.now, e.posted.value);
    }
  }

  /** What the step leaves for a chat. */
  lemma ChatAfter(s: State, e: Send, chat: int)
    ensures var t := Apply(s, e);
            && (chat != e.chat ==> TimesOf(t.times, chat) == TimesOf(s.times, chat)
                                   && TimesOf(t.history, chat) == TimesOf(s.history, chat))
            && (chat == e.chat && e.posted.None? ==>
                  && TimesOf(t.times, chat) == Prune(TimesOf(s.times, chat), e.now)
                  && TimesOf(t.history, chat) == TimesOf(s.history, chat))
            && (chat == e.chat && e.posted.Some? ==>
                  && TimesOf(t.times, chat) == Prune(TimesOf(s.times, chat), e.now) + [e.posted.value]
                  && TimesOf(t.history, chat) == TimesOf(s.history, chat) + [e.posted.value])
  {
  }

  /** The step of a send that, if posted, was measured from the right entry. */
  ghost predicate ReadyFor(s: State, limit: nat, e: Send) {
    e.posted.Some? ==> Ready(Prune(TimesOf(s.times, e.chat), e.now), limit)
  }

  lemma StepKeepsOne(s: State, limit: nat, e: Send, chat: int)
    requires limit >= 1 && Inv(s, limit) && Enabled(s, limit, e) && ReadyFor(s, limit, e)
    ensures var t := Apply(s, e); ChatInv(TimesOf(t.times, chat), TimesOf(t.history, chat), limit, t.clock)
  {
    var times, h := TimesOf(s.times, chat), TimesOf(s.history, chat);
    assert ChatInv(times, h, limit, s.clock);
    ChatAfter(s, e, chat);
    if chat == e.chat {
      StepKeepsChat(times, h, limit, s.clock, e);
    } else {
      OtherChat(times, h, limit, s.clock, Apply(s, e).clock);
    }
  }

  lemma StepKeepsInv(s: State, limit: nat, e: Send)
    requires limit >= 1 && Inv(s, limit) && Enabled(s, limit, e) && ReadyFor(s, limit, e)
    ensures Inv(Apply(s, e), limit)
  {
    var t := Apply(s, e);
    forall chat: int ensures ChatInv(TimesOf(t.times, chat), TimesOf(t.history, chat), limit, t.clock) {
      StepKeepsOne(s, limit, e, chat);
    }
  }

  ghost predicate AllReady(s: State, limit: nat, run: seq<Send>)
    decreases run
  {
    run == [] || (ReadyFor(s, limit, run[0]) && AllReady(Apply(s, run[0]), limit, run[1..]))
  }

  lemma {:induction false} RunKeepsInv(s: State, limit: nat, run: seq<Send>)
    requires limit >= 1 && Inv(s, limit) && LegalRun(s, limit, run) && AllReady(s, limit, run)
    ensures Inv(RunAll(s, run), limit)
    decreases run
  {
    if run != [] {
      StepKeepsInv(s, limit, run[0]);
      RunKeepsInv(Apply(s, run[0]), limit, run[1..]);
    }
  }

  // ------------------------------------------------------------------ the rate

  /** How many of the sends fall in the half-open 60 s that start at `from`. */
  function InWindow(h: seq<real>, from: real): nat {
    if h == [] then 0
    else InWindow(h[..|h| - 1], from) + if from <= h[|h| - 1] < from + 60.0 then 1 else 0
  }

  lemma {:induction false} InWindowBound(h: seq<real>, k: nat, from: real)
    requires k <= |h| && forall i :: 0 <= i < k ==> h[i] < from
    ensures InWindow(h, from) <= |h| - k
    decreases |h|
  {
    if |h| > 0 {
      InWindowBound(h[..|h| - 1], if k < |h| then k else |h| - 1, from);
    }
  }

  lemma {:induction false} SpacedFits(h: seq<real>, limit: nat, from: real)
    requires limit >= 1 && Ascending(h) && Spaced(h, limit)
    ensures InWindow(h, from) <= limit
    decreases |h|
  {
    if h != [] {
      var last := h[|h| - 1];
      if from <= last < from + WINDOW && |h| > limit {
        var k := |h| - limit;
        assert last - h[k - 1] >= WINDOW;
        InWindowBound(h, k, from);
      } else if |h| <= limit {
        InWindowBound(h, 0, from);
      } else {
        SpacedFits(h[..|h| - 1], limit, from);
      }
    }
  }

  lemma {:induction false} InWindowAtLeast(h: seq<real>, k: nat, from: real)
    requires k <= |h| && forall i :: k <= i < |h| ==> from <= h[i] < from + WINDOW
    ensures InWindow(h, from) >= |h| - k
    decreases |h|
  {
    if k < |h| {
      InWindowAtLeast(h[..|h| - 1], k, from);
    }
  }

  /** No time at which the API may take the next send puts more than `limit` sends in a window. */
  ghost predicate KeepsRate(h: seq<real>, limit: nat, earliest: real) {
    forall at: real, from: real :: at >= earliest ==> InWindow(h + [at], from) <= limit
  }

  lemma ReadyKeepsRate(p: seq<real>, h: seq<real>, limit: nat, now: real, earliest: real)
    requires limit >= 1 && ChatInv(p, h, limit, now) && Ready(p, limit) && now <= earliest
    requires |p| >= limit ==> earliest - p[0] >= WINDOW
    ensures KeepsRate(h, limit, earliest)
  {
    forall at: real, from: real | at >= earliest ensures InWindow(h + [at], from) <= limit {
      RecordKeepsChat(p, h, limit, now, at);
      SpacedFits(h + [at], limit, from);
    }
  }

  /** A wait measured from an older entry ends while `limit` sends are still in the window. */
  lemma UnreadyExceeds(p: seq<real>, h: seq<real>, limit: nat, now: real, earliest: real)
    requires limit >= 1 && ChatInv(p, h, limit, now) && !Ready(p, limit) && now <= earliest
    requires earliest - p[0] <= WINDOW
    ensures !KeepsRate(h, limit, earliest)
  {
    var i, g := |h| - limit, h + [earliest];
    assert p[|p| - limit] == h[i] && p[0] == h[|h| - |p|];
    assert h[|h| - |p|] <= h[i];
    forall k | i <= k < |g| ensures h[i] <= g[k] < h[i] + WINDOW {
      if k < |h| {
        assert g[k] == h[k] <= h[|h| - 1];
      }
    }
    InWindowAtLeast(g, i, h[i]);
  }

  /** The next send keeps the rate exactly when its wait is measured from the right entry. */
  lemma WhenSendKeepsRate(s: seq<real>, h: seq<real>, limit: nat, clock: real, now: real)
    requires limit >= 1 && ChatInv(s, h, limit, clock) && clock <= now
    ensures Wait(Prune(s, now), now, limit).Ok?
    ensures KeepsRate(h, limit, now + Wait(Prune(s, now), now, limit).value) <==> Ready(Prune(s, now), limit)
  {
    PruneRemembers(s, h, limit, clock, now);
    var p := Prune(s, now);
    var earliest := now + Wait(p, now, limit).value;
    if Ready(p, limit) {
      ReadyKeepsRate(p, h, limit, now, earliest);
    } else {
      UnreadyExceeds(p, h, limit, now, earliest);
    }
  }

  /** Each send of the run keeps the rate of its chat, whenever the API takes it. */
  ghost predicate RunKeepsRate(s: State, limit: nat, run: seq<Send>)
    decreases run
  {
    run != [] ==>
      var e := run[0];
      var wait := Wait(Prune(TimesOf(s.times, e.chat), e.now), e.now, limit);
      && (e.posted.Some? && wait.Ok? ==> KeepsRate(TimesOf(s.history, e.chat), limit, e.now + wait.value))
      && RunKeepsRate(Apply(s, e), limit, run[1..])
  }

  /**
   * A run with a clock that does not go back keeps the rate exactly when each of its sends finds
   * the oldest remembered entry at the time of the one `limit` sends ago.
   */
  lemma {:induction false} WhenRateIsKept(s: State, limit: nat, run: seq<Send>)
    requires limit >= 1 && Inv(s, limit) && LegalRun(s, limit, run)
    ensures RunKeepsRate(s, limit, run) <==> AllReady(s, limit, run)
    decreases run
  {
    if run != [] {
      var e := run[0];
      var times, h := TimesOf(s.times, e.chat), TimesOf(s.history, e.chat);
      assert ChatInv(times, h, limit, s.clock);
      WhenSendKeepsRate(times, h, limit, s.clock, e.now);
      if ReadyFor(s, limit, e) {
        StepKeepsInv(s, limit, e);
        WhenRateIsKept(Apply(s, e), limit, run[1..]);
      }
    }
  }

  /** The clock has moved on since the last reading, whenever a send begins. */
  ghost predicate StrictClock(s: State, run: seq<Send>)
    decreases run
  {
    run == [] || (s.clock < run[0].now && StrictClock(Apply(s, run[0]), run[1..]))
  }

  /** A strictly increasing clock is enough. */
  lemma {:induction false} StrictClockIsReady(s: State, limit: nat, run: seq<Send>)
    requires limit >= 1 && Inv(s, limit) && LegalRun(s, limit, run) && StrictClock(s, run)
    ensures AllReady(s, limit, run)
    decreases run
  {
    if run != [] {
      var e := run[0];
      assert ChatInv(TimesOf(s.times, e.chat), TimesOf(s.history, e.chat), limit, s.clock);
      PrunedFits(TimesOf(s.times, e.chat), TimesOf(s.history, e.chat), limit, s.clock, e.now);
      StepKeepsInv(s, limit, e);
      StrictClockIsReady(Apply(s, e), limit, run[1..]);
    }
  }

  /** The readings at which the API took the sends of a chat, in the order of the run. */
  function Posts(run: seq<Send>, chat: int): seq<real> {
    if run == [] then []
    else (if run[0].chat == chat && run[0].posted.Some? then [run[0].posted.value] else []) + Posts(run[1..], chat)
  }

  /** Every send that the API took is recorded, and nothing else. */
  lemma {:induction false} HistoryIsPosts(s: State, run: seq<Send>, chat: int)
    ensures TimesOf(RunAll(s, run).history, chat) == TimesOf(s.history, chat) + Posts(run, chat)
    decreases run
  {
    if run != [] {
      ChatAfter(s, run[0], chat);
      HistoryIsPosts(Apply(s, run[0]), run[1..], chat);
    }
  }

  /**
   * Over a whole run, every half-open 60 s window holds at most `limit` sends of a chat that the
   * API took, although the limiter forgets all but the most recent.
   */
  lemma RateIsLimited(clock: real, limit: int, run: seq<Send>, chat: int, from: real)
    requires LegalRun(Start(clock), limit, run)
    ensures limit >= 1 && (StrictClock(Start(clock), run) || AllReady(Start(clock), limit, run)) ==>
              InWindow(Posts(run, chat), from) <= limit
    ensures limit < 1 ==> Posts(run, chat) == []
  {
    HistoryIsPosts(Start(clock), run, chat);
    assert TimesOf(RunAll(Start(clock), run).history, chat) == Posts(run, chat);
    if limit >= 1 {
      if StrictClock(Start(clock), run) {
        StrictClockIsReady(Start(clock), limit, run);
      }
      if AllReady(Start(clock), limit, run) {
        RunKeepsInv(Start(clock), limit, run);
        SpacedFits(Posts(run, chat), limit, from);
      }
    } else {
      NothingIsSent(Start(clock), limit, run, chat);
    }
  }

  /** No wait is longer than it must be: a send taken any earlier would be one too many within 60 s. */
  lemma WaitIsLeast(s: State, limit: nat, chat: int, now: real, at: real)
    requires limit >= 1 && Inv(s, limit) && s.clock <= now <= at
    requires var w := Wait(Prune(TimesOf(s.times, chat), now), now, limit); w.Ok? && at < now + w.value
    ensures exists from: real :: InWindow(TimesOf(s.history, chat) + [at], from) == limit + 1
  {
    var times, h := TimesOf(s.times, chat), TimesOf(s.history, chat);
    assert ChatInv(times, h, limit, s.clock);
    PruneRemembers(times, h, limit, s.clock, now);
    var p, g, i := Prune(times, now), h + [at], |h| - limit;
    assert p[0] == h[|h| - |p|] <= h[i];
    forall k | i <= k < |g| ensures h[i] <= g[k] < h[i] + 60.0 {
      assert k < |h| ==> g[k] == h[k] <= h[|h| - 1];
    }
    InWindowAtLeast(g, i, h[i]);
    assert InWindow(g, h[i]) <= limit + 1 by {
      assert g[..|g| - 1] == h;
      SpacedFits(h, limit, h[i]);
    }
  }

  /** A limit below one: the first wait reads `times[0]` of an empty deque, so no send is ever recorded. */
  lemma {:induction false} NothingIsSent(s: State, limit: int, run: seq<Send>, chat: int)
    requires limit < 1 && (forall c: int :: TimesOf(s.times, c) == [])
    requires LegalRun(s, limit, run)
    ensures TimesOf(RunAll(s, run).history, chat) == TimesOf(s.history, chat)
    decreases run
  {
    if run != [] {
      var t := Apply(s, run[0]);
      assert TimesOf(s.times, run[0].chat) == [];
      assert Prune([], run[0].now) == [] && Wait([], run[0].now, limit).Err?;
      assert run[0].posted.None?;
      forall c: int ensures TimesOf(t.times, c) == [] {
        assert TimesOf(s.times, c) == [];
      }
      NothingIsSent(t, limit, run[1..], chat);
    }
  }

  /** Nobody waits longer than one window, and a limit of at least one never raises. */
  lemma WaitIsBounded(s: State, limit: nat, chat: int, now: real)
    requires limit >= 1 && Inv(s, limit) && s.clock <= now
    ensures var w := Wait(Prune(TimesOf(s.times, chat), now), now, limit);
            w.Ok? && 0.0 <= w.value <= 60.0
  {
    var times, h := TimesOf(s.times, chat), TimesOf(s.history, chat);
    assert ChatInv(times, h, limit, s.clock);
    PruneRemembers(times, h, limit, s.clock, now);
    var p := Prune(times, now);
    if p != [] {
      assert p[0] == h[|h| - |p|];
    }
  }

  /**
   * A run in which a send is not ready. `e` reads exactly the time of the last record: with a
   * limit of one the deque then holds two sends, the wait is measured from the older, and the
   * new send goes out at once, two in the same instant.
   */
  lemma EqualReadingsExceedRate(e: Send)
    requires e == Send(0, 60.0, Some(60.0))
    ensures var s := RunAll(Start(-1.0), [Send(0, 0.0, Some(0.0)), Send(0, 1.0, Some(60.0))]);
            && LegalRun(Start(-1.0), 1, [Send(0, 0.0, Some(0.0)), Send(0, 1.0, Some(60.0))])
            && e.now == s.clock && Enabled(s, 1, e) && !ReadyFor(s, 1, e)
            && Wait(Prune(TimesOf(s.times, 0), e.now), e.now, 1) == Ok(0.0)
            && TimesOf(Apply(s, e).history, 0) == [0.0, 60.0, 60.0]
            && InWindow([0.0, 60.0, 60.0], 60.0) == 2
  {
    var run := [Send(0, 0.0, Some(0.0)), Send(0, 1.0, Some(60.0))];
    var s0 := Start(-1.0);
    var s1 := Apply(s0, run[0]);
    assert run[1..] == [run[1]] && run[1..][1..] == [];
    assert TimesOf(s1.times, 0) == [0.0];
    var s2 := Apply(s1, run[1]);
    assert TimesOf(s2.times, 0) == [0.0, 60.0] && TimesOf(s2.history, 0) == [0.0, 60.0];
    assert RunAll(s1, run[1..]) == s2;
    var h := [0.0, 60.0, 60.0];
    assert h[..2] == [0.0, 60.0] && h[..2][..1] == [0.0];
  }
}
