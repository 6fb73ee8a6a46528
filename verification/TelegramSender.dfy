/** `TelegramSender`: splitting long messages and sending the chunks within the rate of a chat. */
module TelegramSender {
  import opened Wrappers
  import opened RateProtocol

  const MAX_MESSAGE_LENGTH: nat := 4096

  // ------------------------------------------------------------------ splitting

  /** `str.lstrip("\n")` */
  function StripNewlines(s: string): (r: string)
    ensures |r| <= |s| && (r != "" ==> r[0] != '\n')
    ensures s != "" && s[0] == '\n' ==> |r| < |s|
  {
    if s != "" && s[0] == '\n' then StripNewlines(s[1..]) else s
  }

  /** `str.rfind("\n", 0, hi)`: the last newline before `hi`, if any. */
  function LastNewline(s: string, hi: nat): (r: Option<nat>)
    requires hi <= |s|
    ensures r.Some? ==> r.value < hi && s[r.value] == '\n' && forall i :: r.value < i < hi ==> s[i] != '\n'
    ensures r.None? ==> forall i :: 0 <= i < hi ==> s[i] != '\n'
  {
    if hi == 0 then None else if s[hi - 1] == '\n' then Some(hi - 1) else LastNewline(s, hi - 1)
  }

  function SplitPoint(s: string, limit: nat): (k: nat)
    requires |s| > limit >= 1
    ensures k <= limit
  {
    var at := LastNewline(s, limit);
    if at.Some? then at.value else limit
  }

  /** What is left after the first chunk and the newlines behind it. */
  function Remaining(s: string, limit: nat): (r: string)
    requires |s| > limit >= 1
    ensures |r| < |s|
  {
    StripNewlines(s[SplitPoint(s, limit)..])
  }

  function Chunks(s: string, limit: nat): seq<string>
    requires limit >= 1
    decreases |s|
  {
    if |s| <= limit then (if s == "" then [] else [s])
    else [s[..SplitPoint(s, limit)]] + Chunks(Remaining(s, limit), limit)
  }

  /** The chunks of a message; an empty text is one empty chunk. */
  function Split(text: string, limit: nat): seq<string>
    requires limit >= 1
  {
    if text == "" then [""] else Chunks(text, limit)
  }

  method SplitMessage(text: string, limit: nat := MAX_MESSAGE_LENGTH) returns (chunks: seq<string>)
    requires limit >= 1
    ensures chunks == Split(text, limit)
  {
    if |text| <= limit {
      return [text];
    }
    chunks := [];
    var remaining := text;
    while remaining != ""
      invariant chunks + Chunks(remaining, limit) == Chunks(text, limit)
      decreases |remaining|
    {
      if |remaining| <= limit {
        assert Chunks(remaining, limit) == [remaining];
        chunks := chunks + [remaining];
        return;
      }
      var splitAt := limit;
      var newline := LastNewline(remaining, limit);
      if newline.Some? {
        splitAt := newline.value;
      }
      assert Chunks(remaining, limit) == [remaining[..splitAt]] + Chunks(StripNewlines(remaining[splitAt..]), limit);
      chunks := chunks + [remaining[..splitAt]];
      remaining := StripNewlines(remaining[splitAt..]);
    }
  }

  predicate AllNewlines(s: string) { forall i :: 0 <= i < |s| ==> s[i] == '\n' }

  /** `text` is the chunks in order, with `gaps[i]`, a run of newlines, behind chunk `i`. */
  predicate Reassembles(text: string, chunks: seq<string>, gaps: seq<string>)
    decreases |chunks|
  {
    if chunks == [] then text == "" && gaps == []
    else
      && gaps != [] && AllNewlines(gaps[0])
      && chunks[0] + gaps[0] <= text
      && Reassembles(text[|chunks[0]| + |gaps[0]|..], chunks[1..], gaps[1..])
  }

  lemma {:induction false} StripTakesNewlines(s: string)
    ensures StripNewlines(s) == s[|s| - |StripNewlines(s)|..]
    ensures AllNewlines(s[..|s| - |StripNewlines(s)|])
    decreases |s|
  {
    if s != "" && s[0] == '\n' {
      StripTakesNewlines(s[1..]);
      var n := |s| - |StripNewlines(s)|;
      assert s[1..][n - 1..] == s[n..];
      forall i | 0 <= i < n ensures s[..n][i] == '\n' {
        if i > 0 {
          assert s[1..][..n - 1][i - 1] == s[i];
        }
      }
    } else {
      assert s[0..] == s;
    }
  }

  lemma FirstGap(text: string, limit: nat) returns (gap: string)
    requires |text| > limit >= 1
    ensures var chunk, rest := text[..SplitPoint(text, limit)], Remaining(text, limit);
            && AllNewlines(gap) && chunk + gap <= text && text[|chunk| + |gap|..] == rest
            && (|chunk| == limit || gap != "")
  {
    var k, rest := SplitPoint(text, limit), Remaining(text, limit);
    var tail := text[k..];
    StripTakesNewlines(tail);
    gap := tail[..|tail| - |rest|];
    assert text[..k] + gap == text[..|text| - |rest|];
  }

  lemma {:induction false} ChunksReassemble(text: string, limit: nat) returns (gaps: seq<string>)
    requires limit >= 1
    ensures Reassembles(text, Chunks(text, limit), gaps) && |gaps| == |Chunks(text, limit)|
    ensures forall i :: 0 <= i < |gaps| - 1 ==> |Chunks(text, limit)[i]| == limit || gaps[i] != ""
    decreases |text|
  {
    if |text| <= limit {
      gaps := if text == "" then [] else [""];
    } else {
      var rest := Remaining(text, limit);
      var gap := FirstGap(text, limit);
      var later := ChunksReassemble(rest, limit);
      gaps := [gap] + later;
      assert gaps[1..] == later;
      assert Chunks(text, limit) == [text[..SplitPoint(text, limit)]] + Chunks(rest, limit);
      assert Chunks(text, limit)[1..] == Chunks(rest, limit);
    }
  }

  /** Chunks fit, and only the first can be empty or start with a newline. */
  lemma {:induction false} ChunksFit(text: string, limit: nat)
    requires limit >= 1
    ensures var c := Chunks(text, limit);
            && (forall i :: 0 <= i < |c| ==> |c[i]| <= limit)
            && (forall i :: 0 < i < |c| ==> c[i] != "" && c[i][0] != '\n')
            && (text != "" && text[0] != '\n' ==> c != [] && c[0] != "" && c[0][0] != '\n')
    decreases |text|
  {
    if |text| > limit {
      ChunksFit(Remaining(text, limit), limit);
      var c, rest := Chunks(text, limit), Chunks(Remaining(text, limit), limit);
      assert forall i :: 0 < i < |c| ==> c[i] == rest[i - 1];
      assert rest == [] || Remaining(text, limit) != "";
    }
  }

  /**
   Nothing but runs of newlines between chunks is lost, and nothing is reordered; each chunk but
   the last is full or ends at a newline, and each fits.
   */
  lemma SplitReassembles(text: string, limit: nat) returns (gaps: seq<string>)
    requires limit >= 1
    ensures Reassembles(text, Split(text, limit), gaps) && |gaps| == |Split(text, limit)|
    ensures forall i :: 0 <= i < |gaps| - 1 ==> |Split(text, limit)[i]| == limit || gaps[i] != ""
    ensures forall i :: 0 <= i < |gaps| ==> |Split(text, limit)[i]| <= limit
  {
    ChunksFit(text, limit);
    if text == "" {
      gaps := [""];
    } else {
      gaps := ChunksReassemble(text, limit);
    }
  }

  /** What Telegram accepts: at most 4096 characters at once, and a text of that size goes out whole. */
  lemma SplitFits(text: string)
    ensures forall i :: 0 <= i < |Split(text, MAX_MESSAGE_LENGTH)| ==> |Split(text, MAX_MESSAGE_LENGTH)[i]| <= 4096
    ensures |text| <= 4096 <==> Split(text, MAX_MESSAGE_LENGTH) == [text]
  {
    ChunksFit(text, MAX_MESSAGE_LENGTH);
    if Split(text, MAX_MESSAGE_LENGTH) == [text] && text != "" {
      assert Chunks(text, MAX_MESSAGE_LENGTH)[0] == text;
    }
  }

  /** A split avoids breaking a line whenever the line break is within reach. */
  lemma CutsAtNewline(text: string, limit: nat)
    requires |text| > limit >= 1
    ensures var k := SplitPoint(text, limit);
            && Chunks(text, limit)[0] == text[..k]
            && (k < limit ==> text[k] == '\n')
            && (k == limit <==> forall i :: 0 <= i < limit ==> text[i] != '\n')
            && (forall i :: k < i < limit ==> text[i] != '\n')
  {
  }

  /** The first chunk is empty only for an empty text, or for a long one that begins with its only near newline. */
  lemma WhenFirstChunkEmpty(text: string, limit: nat)
    requires limit >= 1
    ensures Split(text, limit) != []
    ensures Split(text, limit)[0] == "" <==>
            || text == ""
            || (|text| > limit && text[0] == '\n' && forall i :: 0 < i < limit ==> text[i] != '\n')
  {
    if |text| > limit {
      CutsAtNewline(text, limit);
    }
  }

  // ------------------------------------------------------------------ sending

  class TelegramSender {
    const rateLimit: int
    var sendTimes: SendTimes
    ghost var history: SendTimes
    ghost var clock: real

    constructor (rateLimit: int, ghost clock: real)
      ensures View() == Start(clock) && this.rateLimit == rateLimit
    {
      this.rateLimit := rateLimit;
      sendTimes := map[];
      history, this.clock := map[], clock;
    }

    ghost function View(): State
      reads this
    {
      State(sendTimes, history, clock)
    }

    /** The deque of the chat is pruned in place; the caller sleeps for the result. */
    method WaitForRateLimit(chat: int, now: real) returns (wait: Result<real, WaitError>)
      modifies this`sendTimes
      ensures sendTimes == old(sendTimes)[chat := Prune(TimesOf(old(sendTimes), chat), now)]
      ensures wait == Wait(sendTimes[chat], now, rateLimit)
    {
      if chat !in sendTimes {
        sendTimes := sendTimes[chat := []];
      }
      while sendTimes[chat] != [] && now - sendTimes[chat][0] > WINDOW
        invariant chat in sendTimes && sendTimes == old(sendTimes)[chat := sendTimes[chat]]
        invariant Prune(sendTimes[chat], now) == Prune(TimesOf(old(sendTimes), chat), now)
        decreases |sendTimes[chat]|
      {
        sendTimes := sendTimes[chat := sendTimes[chat][1..]];
      }
      if |sendTimes[chat]| >= rateLimit {
        if sendTimes[chat] == [] {
          return Err(IndexError);
        }
        var waitSeconds := WINDOW - (now - sendTimes[chat][0]);
        if waitSeconds > 0.0 {
          return Ok(waitSeconds);
        }
      }
      return Ok(0.0);
    }

    method RecordSend(chat: int, at: real)
      modifies this
      ensures sendTimes == old(sendTimes)[chat := TimesOf(old(sendTimes), chat) + [at]]
      ensures history == old(history)[chat := TimesOf(old(history), chat) + [at]] && clock == at
    {
      if chat !in sendTimes {
        sendTimes := sendTimes[chat := []];
      }
      sendTimes := sendTimes[chat := sendTimes[chat] + [at]];
      history, clock := history[chat := TimesOf(history, chat) + [at]], at;
    }

    /** Wait, post, and record only what the API took. */
    method SendChunk(chat: int, now: real, posted: Option<real>) returns (sent: bool)
      requires Enabled(View(), rateLimit, RateProtocol.Send(chat, now, posted))
      modifies this
      ensures View() == Apply(old(View()), RateProtocol.Send(chat, now, posted))
      ensures sent == posted.Some?
      ensures TimesOf(history, chat) == TimesOf(old(history), chat) + if sent then [posted.value] else []
    {
      var wait := WaitForRateLimit(chat, now);
      clock := now;
      if wait.Err? || posted.None? {
        return false;
      }
      RecordSend(chat, posted.value);
      sent := true;
    }

    /**
     * `send`: the chunks go out one after the other until one fails. `posts` holds, for each chunk,
     * the clock reading before it and the reading when the API took it.
     */
    method Send(chat: int, text: string, posts: seq<Send>) returns (delivered: seq<string>)
      requires |posts| >= |Split(text, MAX_MESSAGE_LENGTH)|
      requires forall i :: 0 <= i < |posts| ==> posts[i].chat == chat
      requires LegalRun(View(), rateLimit, posts)
      modifies this
      ensures delivered <= Split(text, MAX_MESSAGE_LENGTH)
      ensures forall i :: 0 <= i < |delivered| ==> |delivered[i]| <= 4096
      ensures |text| <= 4096 ==> delivered == [] || delivered == [text]
      ensures |delivered| <= |posts| && forall i :: 0 <= i < |delivered| ==> posts[i].posted.Some?
      ensures delivered == Split(text, MAX_MESSAGE_LENGTH)
              || (|delivered| < |posts| && posts[|delivered|].posted.None?)
      ensures View() == RunAll(old(View()), posts[..|delivered|])
              || (|delivered| < |posts| && posts[|delivered|].posted.None?
                  && View() == RunAll(old(View()), posts[..|delivered| + 1]))
    {
      var chunks := SplitMessage(text);
      delivered := [];
      SplitFits(text);
      while |delivered| < |chunks|
        invariant delivered <= chunks
        invariant forall i :: 0 <= i < |delivered| ==> posts[i].posted.Some?
        invariant View() == RunAll(old(View()), posts[..|delivered|])
        invariant LegalRun(View(), rateLimit, posts[|delivered|..])
      {
        var i := |delivered|;
        RunSnoc(old(View()), posts, i);
        assert posts[i..][0] == posts[i] && posts[i..][1..] == posts[i + 1..];
        var sent := SendChunk(chat, posts[i].now, posts[i].posted);
        if !sent {
          return;
        }
        delivered := delivered + [chunks[i]];
      }
    }
  }
}
