/** Keeping a conversation inside the context window: token estimates, summarising and truncating. */
module TokenBudget {
  import opened Sorting
  import opened Wrappers

  datatype Part = TextPart(text: string) | OtherPart

  /** A missing `content` counts as the empty text. */
  datatype Content = Text(text: string) | Parts(parts: seq<Part>) | OtherContent

  datatype Message = Message(role: Option<string>, content: Content)

  datatype Config = Config(maxContextTokens: int, messagesToPreserve: int, enableAutoSummarization: bool)

  predicate IsSystem(m: Message) { m.role == Some("system") }

  // ------------------------------------------------------------------ estimates

  const CHARS_PER_TOKEN: nat := 4

  function EstimateTokens(text: string): (n: nat)
    ensures n == 0 <==> text == ""
    ensures |text| >= 4 ==> n * 4 <= |text| < (n + 1) * 4
    ensures 0 < |text| < 4 ==> n == 1
  {
    if text == "" then 0
    else if |text| / CHARS_PER_TOKEN < 1 then 1 else |text| / CHARS_PER_TOKEN
  }

  function PartsTokens(parts: seq<Part>): nat {
    if parts == [] then 0
    else
      var last := parts[|parts| - 1];
      PartsTokens(parts[..|parts| - 1]) + if last.TextPart? then EstimateTokens(last.text) else 0
  }

  function MessageTokens(m: Message): nat {
    match m.content
    case Text(text) => EstimateTokens(text)
    case Parts(parts) => PartsTokens(parts)
    case OtherContent => 0
  }

  function Tokens(ms: seq<Message>): nat {
    if ms == [] then 0 else Tokens(ms[..|ms| - 1]) + MessageTokens(ms[|ms| - 1])
  }

  // ------------------------------------------------------------------ windows

  /** The system messages, or the others, in order. */
  function Select(ms: seq<Message>, system: bool): seq<Message> {
    if ms == [] then []
    else
      var last := ms[|ms| - 1];
      Select(ms[..|ms| - 1], system) + if IsSystem(last) == system then [last] else []
  }

  function Systems(ms: seq<Message>): seq<Message> { Select(ms, true) }

  function Others(ms: seq<Message>): seq<Message> { Select(ms, false) }

  /** Where Python's index `-n` cuts a sequence of this length; `-0` is the front. */
  function CutAt(length: nat, n: int): (i: nat)
    ensures i <= length
  {
    if n > 0 then (if n < length then length - n else 0)
    else if -n < length then -n else length
  }

  /** `s[-n:]` */
  function LastOf<T>(s: seq<T>, n: int): seq<T> { s[CutAt(|s|, n)..] }

  /** `s[:-n]` */
  function AllButLastOf<T>(s: seq<T>, n: int): seq<T> { s[..CutAt(|s|, n)] }

  /** `s[:n]` */
  function FirstOf<T>(s: seq<T>, n: int): seq<T> {
    if n >= 0 then (if n < |s| then s[..n] else s)
    else if |s| + n > 0 then s[..|s| + n] else []
  }

  // ------------------------------------------------------------------ summarising

  const HEADER := "CONTEXT SUMMARY (auto-generated):\n"
  const CAP_NOTE := "\n... [summary truncated]"
  const PREVIEW_LENGTH: nat := 200

  function Preview(m: Message): string {
    match m.content
    case Text(text) => if |text| > PREVIEW_LENGTH then text[..PREVIEW_LENGTH] + "..." else text
    case _ => "[multi-part content]"
  }

  function SummaryLine(m: Message): string {
    "[" + (if m.role.Some? then m.role.value else "unknown") + "]: " + Preview(m)
  }

  function SummaryParts(ms: seq<Message>): seq<string> {
    seq(|ms|, i requires 0 <= i < |ms| => SummaryLine(ms[i]))
  }

  /** `"\n".join(parts)` */
  function Join(parts: seq<string>): string {
    if parts == [] then ""
    else if |parts| == 1 then parts[0]
    else Join(parts[..|parts| - 1]) + "\n" + parts[|parts| - 1]
  }

  /** `int(max_context_tokens * 4.0 * 0.15)`, in exact arithmetic. */
  function SummaryCap(c: Config): int {
    if c.maxContextTokens >= 0 then c.maxContextTokens * 3 / 5 else -(-c.maxContextTokens * 3 / 5)
  }

  function Capped(c: Config, text: string): string {
    if |text| > SummaryCap(c) then FirstOf(text, SummaryCap(c)) + CAP_NOTE else text
  }

  function Summary(c: Config, older: seq<Message>): Message {
    Message(Some("system"), Text(Capped(c, HEADER + Join(SummaryParts(older)))))
  }

  /** The cases in which the list is returned as it is. */
  predicate Skips(c: Config, ms: seq<Message>) {
    !c.enableAutoSummarization || |ms| <= c.messagesToPreserve + 1 || |Others(ms)| <= c.messagesToPreserve
  }

  function Summarize(c: Config, ms: seq<Message>): seq<Message> {
    if Skips(c, ms) then ms
    else
      Systems(ms) + [Summary(c, AllButLastOf(Others(ms), c.messagesToPreserve))]
      + LastOf(Others(ms), c.messagesToPreserve)
  }

  function Truncate(c: Config, ms: seq<Message>): seq<Message> {
    Systems(ms) + if |Others(ms)| > c.messagesToPreserve then LastOf(Others(ms), c.messagesToPreserve) else Others(ms)
  }

  // ------------------------------------------------------------------ selecting

  lemma {:induction false} SelectConcat(a: seq<Message>, b: seq<Message>, system: bool)
    ensures Select(a + b, system) == Select(a, system) + Select(b, system)
    decreases |b|
  {
    if b == [] {
      assert a + b == a;
    } else {
      assert (a + b)[..|a + b| - 1] == a + b[..|b| - 1];
      SelectConcat(a, b[..|b| - 1], system);
    }
  }

  lemma {:induction false} SelectOwn(ms: seq<Message>, system: bool)
    requires forall m <- ms :: IsSystem(m) == system
    ensures Select(ms, system) == ms && Select(ms, !system) == []
  {
    if ms != [] {
      SelectOwn(ms[..|ms| - 1], system);
      assert ms[..|ms| - 1] + [ms[|ms| - 1]] == ms;
    }
  }

  lemma {:induction false} SelectKind(ms: seq<Message>, system: bool)
    ensures forall m <- Select(ms, system) :: IsSystem(m) == system
  {
    if ms != [] {
      SelectKind(ms[..|ms| - 1], system);
    }
  }

  lemma CountSnoc(ms: seq<Message>, last: Message, m: Message)
    ensures multiset(ms + [last])[m] == multiset(ms)[m] + if last == m then 1 else 0
  {
  }

  lemma {:induction false} SelectCounts(ms: seq<Message>, system: bool, m: Message)
    ensures multiset(Select(ms, system))[m] == if (m.role == Some("system")) == system then multiset(ms)[m] else 0
  {
    if ms != [] {
      var init, last := ms[..|ms| - 1], ms[|ms| - 1];
      SelectCounts(init, system, m);
      CountSnoc(init, last, m);
      CountSnoc(Select(init, system), last, m);
      assert ms == init + [last];
    }
  }

  lemma {:induction false} SelectInOrder(ms: seq<Message>, system: bool)
    ensures Subsequence(Select(ms, system), ms)
  {
    if ms != [] {
      var init, last, t := ms[..|ms| - 1], ms[|ms| - 1], Select(ms, system);
      SelectInOrder(init, system);
      if IsSystem(last) == system {
        assert t[..|t| - 1] == Select(init, system);
      } else {
        assert t == Select(init, system);
      }
    }
  }

  /** The system messages are those with that role, the others the rest; both keep their order. */
  lemma SystemsAre(ms: seq<Message>, m: Message)
    ensures multiset(Systems(ms))[m] == if m.role == Some("system") then multiset(ms)[m] else 0
    ensures multiset(Others(ms))[m] == if m.role == Some("system") then 0 else multiset(ms)[m]
    ensures Subsequence(Systems(ms), ms) && Subsequence(Others(ms), ms)
  {
    SelectCounts(ms, true, m);
    SelectCounts(ms, false, m);
    SelectInOrder(ms, true);
    SelectInOrder(ms, false);
  }

  /** A list of system messages before others comes apart again. */
  lemma Recompose(systems: seq<Message>, others: seq<Message>)
    requires (forall m <- systems :: IsSystem(m)) && (forall m <- others :: !IsSystem(m))
    ensures Systems(systems + others) == systems && Others(systems + others) == others
  {
    SelectConcat(systems, others, true);
    SelectConcat(systems, others, false);
    SelectOwn(systems, true);
    SelectOwn(others, false);
    assert systems + [] == systems && [] + others == others;
  }

  lemma TruncateParts(c: Config, ms: seq<Message>)
    ensures var t := Truncate(c, ms);
            && Systems(t) == Systems(ms)
            && Others(t) == (if |Others(ms)| > c.messagesToPreserve then LastOf(Others(ms), c.messagesToPreserve)
                             else Others(ms))
            && t == Systems(t) + Others(t)
  {
    SelectKind(ms, true);
    SelectKind(ms, false);
    var o := Others(ms);
    Recompose(Systems(ms), if |o| > c.messagesToPreserve then LastOf(o, c.messagesToPreserve) else o);
  }

  lemma SummarizeParts(c: Config, ms: seq<Message>)
    requires !Skips(c, ms)
    ensures var t := Summarize(c, ms); var n := c.messagesToPreserve;
            && Systems(t) == Systems(ms) + [Summary(c, AllButLastOf(Others(ms), n))]
            && Others(t) == LastOf(Others(ms), n)
            && t == Systems(t) + Others(t)
  {
    SelectKind(ms, true);
    SelectKind(ms, false);
    var n := c.messagesToPreserve;
    Recompose(Systems(ms) + [Summary(c, AllButLastOf(Others(ms), n))], LastOf(Others(ms), n));
  }

  // ------------------------------------------------------------------ what survives

  /** What the window promises: all system messages, then the last `n` others. */
  function Window(ms: seq<Message>, n: nat): seq<Message> {
    Systems(ms) + if |Others(ms)| > n then Others(ms)[|Others(ms)| - n..] else Others(ms)
  }

  /** Truncation keeps exactly the window, unless the number to preserve is zero or negative and others are left. */
  lemma WhenTruncationKeepsWindow(c: Config, ms: seq<Message>)
    ensures Truncate(c, ms) == Window(ms, if c.messagesToPreserve > 0 then c.messagesToPreserve else 0) <==>
            c.messagesToPreserve >= 1 || |Others(ms)| <= -c.messagesToPreserve
  {
    var n := c.messagesToPreserve;
    if n < 1 && |Others(ms)| > -n {
      assert |Truncate(c, ms)| > |Systems(ms)|;
    }
  }

  lemma WhenTruncateIsIdempotent(c: Config, ms: seq<Message>)
    ensures Truncate(c, Truncate(c, ms)) == Truncate(c, ms) <==>
            c.messagesToPreserve >= 0 || |Others(ms)| <= -c.messagesToPreserve
  {
    var t := Truncate(c, ms);
    TruncateParts(c, ms);
    TruncateParts(c, t);
    if c.messagesToPreserve < 0 && |Others(ms)| > -c.messagesToPreserve {
      assert |Others(Truncate(c, t))| < |Others(t)|;
    }
  }

  /** With nothing or less to preserve every call adds one more summary, of messages it keeps as well. */
  lemma WhenSummarizeIsIdempotent(c: Config, ms: seq<Message>)
    ensures Summarize(c, Summarize(c, ms)) == Summarize(c, ms) <==>
            c.messagesToPreserve >= 1 || Skips(c, ms)
  {
    if !Skips(c, ms) {
      var t := Summarize(c, ms);
      SummarizeParts(c, ms);
      if c.messagesToPreserve < 1 {
        assert !Skips(c, t);
        SummarizeParts(c, t);
        assert |Systems(Summarize(c, t))| == |Systems(t)| + 1;
      }
    }
  }

  /** Each part is in the joined text, behind all earlier ones. */
  lemma {:induction false} JoinHasEach(parts: seq<string>, i: nat) returns (before: string, after: string)
    requires i < |parts|
    ensures Join(parts) == before + parts[i] + after
    ensures before == if i == 0 then "" else Join(parts[..i]) + "\n"
    ensures i == |parts| - 1 ==> after == ""
    decreases |parts|
  {
    var n := |parts| - 1;
    if i < n {
      var b, a := JoinHasEach(parts[..n], i);
      assert parts[..n][..i] == parts[..i];
      before, after := b, a + "\n" + parts[n];
      assert before + parts[i] + after == (b + parts[i] + a) + "\n" + parts[n];
    } else {
      before, after := if i == 0 then "" else Join(parts[..n]) + "\n", "";
      assert before + parts[i] + after == before + parts[i];
    }
  }

  lemma PartsOfPrefix(older: seq<Message>, i: nat)
    requires i <= |older|
    ensures SummaryParts(older)[..i] == SummaryParts(older[..i])
  {
  }

  /** Every message that leaves the window has its line in the summary, as long as that is not capped. */
  lemma SummaryNamesEach(c: Config, older: seq<Message>, i: nat) returns (before: string, after: string)
    requires i < |older| && |HEADER + Join(SummaryParts(older))| <= SummaryCap(c)
    ensures Summary(c, older).content == Text(HEADER + (before + SummaryParts(older)[i] + after))
    ensures before == if i == 0 then "" else Join(SummaryParts(older[..i])) + "\n"
    ensures i == |older| - 1 ==> after == ""
  {
    before, after := JoinHasEach(SummaryParts(older), i);
    PartsOfPrefix(older, i);
  }

  // ------------------------------------------------------------------ estimates of the results

  lemma {:induction false} TokensConcat(a: seq<Message>, b: seq<Message>)
    ensures Tokens(a + b) == Tokens(a) + Tokens(b)
    decreases |b|
  {
    if b == [] {
      assert a + b == a;
    } else {
      assert (a + b)[..|a + b| - 1] == a + b[..|b| - 1];
      TokensConcat(a, b[..|b| - 1]);
    }
  }

  lemma {:induction false} TokensSplit(ms: seq<Message>)
    ensures Tokens(ms) == Tokens(Systems(ms)) + Tokens(Others(ms))
  {
    if ms != [] {
      var init, last := ms[..|ms| - 1], ms[|ms| - 1];
      TokensSplit(init);
      TokensConcat(Select(init, IsSystem(last)), [last]);
      assert [last][..0] == [];
      assert Tokens([last]) == MessageTokens(last);
      assert Select(ms, IsSystem(last)) == Select(init, IsSystem(last)) + [last];
      assert Select(ms, !IsSystem(last)) == Select(init, !IsSystem(last));
    }
  }

  lemma TokensOfRest(ms: seq<Message>, k: nat)
    requires k <= |ms|
    ensures Tokens(ms[k..]) <= Tokens(ms)
  {
    var a, b := ms[..k], ms[k..];
    assert ms == a + b;
    TokensConcat(a, b);
  }

  lemma TruncationNeverRaises(c: Config, ms: seq<Message>)
    ensures Tokens(Truncate(c, ms)) <= Tokens(ms)
  {
    TruncateParts(c, ms);
    TokensSplit(ms);
    var t := Truncate(c, ms);
    TokensConcat(Systems(t), Others(t));
    TokensOfRest(Others(ms), CutAt(|Others(ms)|, c.messagesToPreserve));
  }

  /** Summarising leaves the system messages, the recent ones and a summary of bounded size. */
  lemma SummaryIsBounded(c: Config, ms: seq<Message>)
    requires !Skips(c, ms) && c.maxContextTokens >= 0
    ensures Tokens(Summarize(c, ms)) <=
            Tokens(Systems(ms)) + Tokens(LastOf(Others(ms), c.messagesToPreserve))
            + (c.maxContextTokens * 3 / 5 + 24) / 4
  {
    var summary := Summary(c, AllButLastOf(Others(ms), c.messagesToPreserve));
    SummarizeParts(c, ms);
    var t := Summarize(c, ms);
    TokensConcat(Systems(t), Others(t));
    TokensConcat(Systems(ms), [summary]);
    assert [summary][..0] == [];
    assert Tokens([summary]) == MessageTokens(summary);
    CapBounds(c, HEADER + Join(SummaryParts(AllButLastOf(Others(ms), c.messagesToPreserve))));
  }

  lemma CapBounds(c: Config, text: string)
    requires c.maxContextTokens >= 0
    ensures EstimateTokens(Capped(c, text)) <= (SummaryCap(c) + 24) / 4
  {
    assert |CAP_NOTE| == 24;
    assert |Capped(c, text)| <= SummaryCap(c) + 24;
  }

  /** The estimate is a sum over texts and text parts; anything else is free. */
  lemma TokensOfOneMore(ms: seq<Message>, m: Message, parts: seq<Part>, p: Part)
    ensures Tokens(ms + [m]) - Tokens(ms) ==
            match m.content
            case Text(text) => EstimateTokens(text)
            case Parts(ps) => PartsTokens(ps)
            case OtherContent => 0
    ensures PartsTokens(parts + [p]) - PartsTokens(parts) == if p.TextPart? then EstimateTokens(p.text) else 0
    ensures Tokens([]) == 0 && PartsTokens([]) == 0
  {
    assert (ms + [m])[..|ms|] == ms && (parts + [p])[..|parts|] == parts;
  }

  // ------------------------------------------------------------------ what the summary shows

  /** A line names the role and shows the first 200 characters of the text. */
  lemma LineShows(role: Option<string>, content: Content)
    ensures var line := SummaryLine(Message(role, content));
            var name := if role.Some? then role.value else "unknown";
            match content
            case Text(text) =>
              && (|text| <= 200 ==> line == "[" + name + "]: " + text)
              && (|text| > 200 ==> line == "[" + name + "]: " + (text[..200] + "..."))
            case _ => line == "[" + name + "]: " + "[multi-part content]"
  {
  }

  /** One line for each message that leaves the window; the two slices make up the conversation. */
  lemma EachHasItsLine(ms: seq<Message>, n: int, i: nat)
    requires i < |ms|
    ensures |SummaryParts(ms)| == |ms| && SummaryParts(ms)[i] == SummaryLine(ms[i])
    ensures AllButLastOf(ms, n) + LastOf(ms, n) == ms
    ensures n >= 1 ==> |LastOf(ms, n)| == if n <= |ms| then n else |ms|
    ensures n == 0 ==> LastOf(ms, n) == ms
  {
  }

  /** The cap is 0.6 characters for each token of the context, rounded toward zero. */
  lemma CapIsRounded(c: Config)
    ensures c.maxContextTokens >= 0 ==> 5 * SummaryCap(c) <= 3 * c.maxContextTokens < 5 * (SummaryCap(c) + 1)
    ensures c.maxContextTokens < 0 ==> 5 * (SummaryCap(c) - 1) < 3 * c.maxContextTokens <= 5 * SummaryCap(c)
  {
  }

  /** A longer summary is cut at the cap and says so. */
  lemma CappedShows(c: Config, text: string)
    ensures |text| <= SummaryCap(c) ==> Capped(c, text) == text
    ensures 0 <= SummaryCap(c) < |text| ==>
              Capped(c, text) == text[..SummaryCap(c)] + "\n... [summary truncated]"
    ensures HEADER == "CONTEXT SUMMARY (auto-generated):\n"
  {
  }

  /** Summarising changes the list exactly when it is enabled and there is something to summarise. */
  lemma WhenSummarizeChanges(c: Config, ms: seq<Message>)
    ensures Summarize(c, ms) != ms <==>
            && c.enableAutoSummarization
            && |ms| > c.messagesToPreserve + 1
            && |Others(ms)| > c.messagesToPreserve
  {
    if !Skips(c, ms) {
      SummarizeParts(c, ms);
      assert |Systems(Summarize(c, ms))| == |Systems(ms)| + 1;
    }
  }

  // ------------------------------------------------------------------ whole conversations

  datatype Turn = Append(message: Message) | Summarizes | Truncates

  function TurnOn(c: Config, ms: seq<Message>, turn: Turn): seq<Message> {
    match turn
    case Append(m) => ms + [m]
    case Summarizes => Summarize(c, ms)
    case Truncates => Truncate(c, ms)
  }

  function Converse(c: Config, ms: seq<Message>, turns: seq<Turn>): seq<Message>
    decreases turns
  {
    if turns == [] then ms else Converse(c, TurnOn(c, ms, turns[0]), turns[1..])
  }

  /** Everything anybody ever said. */
  function Transcript(ms: seq<Message>, turns: seq<Turn>): seq<Message>
    decreases turns
  {
    if turns == [] then ms
    else Transcript(if turns[0].Append? then ms + [turns[0].message] else ms, turns[1..])
  }

  /** `kept` is the end of `all`, and at least the last `n` of it. */
  ghost predicate KeepsLast(kept: seq<Message>, all: seq<Message>, n: nat) {
    && |kept| <= |all| && kept == all[|all| - |kept|..]
    && (|kept| >= n || kept == all)
  }

  lemma AppendKeepsContext(c: Config, ms: seq<Message>, all: seq<Message>, m: Message)
    requires c.messagesToPreserve >= 1 && KeepsLast(Others(ms), Others(all), c.messagesToPreserve)
    ensures Systems(ms) <= Systems(ms + [m])
    ensures KeepsLast(Others(ms + [m]), Others(all + [m]), c.messagesToPreserve)
  {
    SelectConcat(ms, [m], true);
    SelectConcat(ms, [m], false);
    SelectConcat(all, [m], false);
    var o, p, e := Others(ms), Others(all), Others([m]);
    assert (p + e)[|p + e| - |o + e|..] == p[|p| - |o|..] + e;
  }

  lemma LastKeepsLast(c: Config, kept: seq<Message>, all: seq<Message>)
    requires c.messagesToPreserve >= 1 && KeepsLast(kept, all, c.messagesToPreserve)
    requires |kept| > c.messagesToPreserve
    ensures KeepsLast(LastOf(kept, c.messagesToPreserve), all, c.messagesToPreserve)
  {
  }

  lemma TurnKeepsContext(c: Config, ms: seq<Message>, all: seq<Message>, turn: Turn)
    requires c.messagesToPreserve >= 1 && KeepsLast(Others(ms), Others(all), c.messagesToPreserve)
    ensures Systems(ms) <= Systems(TurnOn(c, ms, turn))
    ensures KeepsLast(Others(TurnOn(c, ms, turn)), Others(if turn.Append? then all + [turn.message] else all),
                      c.messagesToPreserve)
  {
    match turn {
      case Append(m) =>
        AppendKeepsContext(c, ms, all, m);
      case Summarizes =>
        if !Skips(c, ms) {
          SummarizeParts(c, ms);
          LastKeepsLast(c, Others(ms), Others(all));
        }
      case Truncates =>
        TruncateParts(c, ms);
        if |Others(ms)| > c.messagesToPreserve {
          LastKeepsLast(c, Others(ms), Others(all));
        }
    }
  }

  /**
   * Over a whole conversation, however summarising and truncating are interleaved with new
   * messages: no system message is ever lost or moved, and the last `n` other messages of the
   * full transcript are there word for word.
   */
  lemma {:induction false} ConversationKeepsContext(c: Config, ms: seq<Message>, all: seq<Message>, turns: seq<Turn>)
    requires c.messagesToPreserve >= 1 && KeepsLast(Others(ms), Others(all), c.messagesToPreserve)
    ensures Systems(ms) <= Systems(Converse(c, ms, turns))
    ensures KeepsLast(Others(Converse(c, ms, turns)), Others(Transcript(all, turns)), c.messagesToPreserve)
    decreases turns
  {
    if turns != [] {
      TurnKeepsContext(c, ms, all, turns[0]);
      ConversationKeepsContext(c, TurnOn(c, ms, turns[0]),
                               if turns[0].Append? then all + [turns[0].message] else all, turns[1..]);
    }
  }
}
