/** `TokenBudgetManager`: the loops that estimate, summarise and truncate a conversation. */
module TokenBudgetManager {
  import opened Wrappers
  import opened TokenBudget

  class TokenBudgetManager {
    const config: Config
    var summarizationCount: nat

    constructor (config: Config)
      ensures this.config == config && summarizationCount == 0
    {
      this.config := config;
      summarizationCount := 0;
    }

    method EstimateMessagesTokens(messages: seq<Message>) returns (total: nat)
      ensures total == Tokens(messages)
    {
      total := 0;
      for i := 0 to |messages|
        invariant total == Tokens(messages[..i])
      {
        assert messages[..i + 1][..i] == messages[..i];
        match messages[i].content {
          case Text(text) => total := total + EstimateTokens(text);
          case Parts(parts) =>
            for j := 0 to |parts|
              invariant total == Tokens(messages[..i]) + PartsTokens(parts[..j])
            {
              assert parts[..j + 1][..j] == parts[..j];
              if parts[j].TextPart? {
                total := total + EstimateTokens(parts[j].text);
              }
            }
            assert parts[..|parts|] == parts;
          case OtherContent =>
        }
      }
      assert messages[..|messages|] == messages;
    }

    /** Splits the system messages from the conversation. */
    method Separate(messages: seq<Message>) returns (systemMsgs: seq<Message>, convMsgs: seq<Message>)
      ensures systemMsgs == Systems(messages) && convMsgs == Others(messages)
    {
      systemMsgs, convMsgs := [], [];
      for i := 0 to |messages|
        invariant systemMsgs == Systems(messages[..i]) && convMsgs == Others(messages[..i])
      {
        assert messages[..i + 1][..i] == messages[..i];
        if IsSystem(messages[i]) {
          systemMsgs := systemMsgs + [messages[i]];
        } else {
          convMsgs := convMsgs + [messages[i]];
        }
      }
      assert messages[..|messages|] == messages;
    }

    method PreviewAll(older: seq<Message>) returns (summaryParts: seq<string>)
      ensures summaryParts == SummaryParts(older)
    {
      summaryParts := [];
      for i := 0 to |older|
        invariant summaryParts == SummaryParts(older[..i])
      {
        summaryParts := summaryParts + [SummaryLine(older[i])];
      }
      assert older[..|older|] == older;
    }

    method SummarizeOlderMessages(messages: seq<Message>) returns (r: seq<Message>)
      modifies this
      ensures r == Summarize(config, messages)
      ensures summarizationCount == old(summarizationCount) + if Skips(config, messages) then 0 else 1
    {
      if !config.enableAutoSummarization || |messages| <= config.messagesToPreserve + 1 {
        return messages;
      }
      var systemMsgs, convMsgs := Separate(messages);
      var preserveCount := config.messagesToPreserve;
      if |convMsgs| <= preserveCount {
        return messages;
      }
      var older := AllButLastOf(convMsgs, preserveCount);
      var recent := LastOf(convMsgs, preserveCount);
      var summaryParts := PreviewAll(older);
      var text := HEADER + Join(summaryParts);
      var maxSummaryChars := SummaryCap(config);
      if |text| > maxSummaryChars {
        text := FirstOf(text, maxSummaryChars) + CAP_NOTE;
      }
      summarizationCount := summarizationCount + 1;
      r := systemMsgs + [Message(Some("system"), Text(text))] + recent;
    }

    method TruncateOlderMessages(messages: seq<Message>) returns (r: seq<Message>)
      ensures r == Truncate(config, messages)
    {
      var systemMsgs, convMsgs := Separate(messages);
      var preserveCount := config.messagesToPreserve;
      var recent := if |convMsgs| > preserveCount then LastOf(convMsgs, preserveCount) else convMsgs;
      r := systemMsgs + recent;
    }
  }
}
