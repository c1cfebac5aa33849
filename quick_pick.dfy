/**
 * The `variable-name-suggester.suggestNames` command: the selected text is
 * sent to the chat-completion endpoint, a rate-limited reply is retried up to
 * `maxRetries` times, and the reply is cut into lines for a quick pick.
 */
module QuickPick {
  import opened Wrappers
  import opened Text
  import opened Api

  const Model: string := "gpt-3.5-turbo"
  const SystemMessage: string := "You are a helpful assistant that suggests variable names."
  const MaxTokens: nat := 60
  const DefaultMaxRetries: int := 3

  /** The request `getSuggestionsWithRetry` sends for `text`. */
  function SuggestRequest(apiKey: string, text: string, count: int): ChatRequest {
    ChatRequest(apiKey, Model, SystemMessage, "Suggest " + Decimal(count) + " variable names for: " + text, MaxTokens)
  }

  /** The user message opens with the count, which reads back as a number, and ends with the selected text. */
  lemma {:induction false} SuggestRequestPrompt(apiKey: string, text: string, count: int)
    ensures var p := SuggestRequest(apiKey, text, count).user;
            && IsPrefix("Suggest ", p) && ParseInt(p[|"Suggest "|..]) == Some(count)
            && |text| <= |p| && p[|p| - |text|..] == text
  {
    var opening := "Suggest " + Decimal(count);
    var rest := " variable names for: " + text;
    Regrouped(opening, " variable names for: ", text);
    ThreeParts("Suggest ", Decimal(count), rest);
    ThreeParts(opening, " variable names for: ", text);
    ParseIntDecimal(count, rest);
  }

  lemma Regrouped(a: string, b: string, c: string)
    ensures a + b + c == a + (b + c)
  {
  }

  /** How a text made of three parts splits again at the first part and before the last. */
  lemma ThreeParts(a: string, b: string, c: string)
    ensures var p := a + b + c;
            && p[..|a|] == a && p[|a|..] == b + c
            && |c| <= |p| && p[|p| - |c|..] == c
  {
  }

  /** `config.get("suggestionCount") || 5`: an unset or zero setting counts as 5. */
  function SuggestionCount(setting: Option<int>): (count: int)
    ensures count != 0
    ensures setting.Some? && setting.value != 0 ==> count == setting.value
  {
    match setting
    case Some(n) => if n == 0 then 5 else n
    case None => 5
  }

  /** Reading the count again does not change it. */
  lemma {:induction false} SuggestionCountStable(setting: Option<int>)
    ensures SuggestionCount(Some(SuggestionCount(setting))) == SuggestionCount(setting)
    ensures setting == None || setting == Some(0) ==> SuggestionCount(setting) == 5
  {
  }

  /** The errors `getSuggestionsWithRetry` throws. */
  datatype Thrown =
    | RequestFailed(status: Option<int>, statusText: Option<string>)
    | InvalidResponseFormat
    | MaxRetriesReached

  /** A template placeholder for a value that may be `undefined`. */
  function ShowInt(v: Option<int>): string {
    match v case Some(n) => Decimal(n) case None => "undefined"
  }

  function ShowText(v: Option<string>): string {
    match v case Some(t) => t case None => "undefined"
  }

  /** The `message` of a thrown error. */
  function Message(t: Thrown): string {
    match t
    case RequestFailed(status, statusText) => "Request failed: " + ShowInt(status) + " " + ShowText(statusText)
    case InvalidResponseFormat => "Invalid API response format"
    case MaxRetriesReached => "Max retries reached"
  }

  /** The suggestions in a reply: its lines, cut to the first `count` (`slice(0, count)`). */
  function ReplyLines(content: string, count: int): seq<string> {
    Slice(Split(content, {'\n'}), count)
  }

  /** How an attempt that is not rate-limited settles the call. */
  function Settle(a: Attempt, count: int): Result<seq<string>, Thrown> {
    match a
    case Replied(contents) =>
      if |contents| > 0 then Ok(ReplyLines(contents[0], count)) else Err(InvalidResponseFormat)
    case Failed(response, _) =>
      match response
      case Some(r) => Err(RequestFailed(Some(r.status), Some(r.statusText)))
      case None => Err(RequestFailed(None, None))
  }

  /** What a call returns or throws, given how its retry loop ended. */
  function Conclude(network: Network, exit: Exit, count: int): Result<seq<string>, Thrown> {
    match exit
    case Exhausted => Err(MaxRetriesReached)
    case Settled(k) => Settle(network(k), count)
  }

  /**
   * `getSuggestionsWithRetry`: `result` is the returned suggestions or the
   * thrown error, `trace` the requests and waits, both as the retry loop
   * RetryFrom describes them.
   */
  method GetSuggestionsWithRetry(apiKey: string, text: string, count: int, maxRetries: int, network: Network)
    returns (result: Result<seq<string>, Thrown>, ghost trace: seq<Event>)
    ensures result == Conclude(network, RetryFrom(network, SuggestRequest(apiKey, text, count), 0, maxRetries).exit, count)
    ensures trace == RetryFrom(network, SuggestRequest(apiKey, text, count), 0, maxRetries).events
  {
    var req := SuggestRequest(apiKey, text, count);
    ghost var run := RetryFrom(network, req, 0, maxRetries);
    var retries: nat := 0;
    trace := [];
    while retries < maxRetries
      invariant run.events == trace + RetryFrom(network, req, retries, maxRetries).events
      invariant run.exit == RetryFrom(network, req, retries, maxRetries).exit
      decreases maxRetries - retries
    {
      var a := network(retries);
      if IsRateLimited(a) {
        RetryFromWaits(network, req, retries, maxRetries, trace);
      } else {
        RetryFromSettles(network, req, retries, maxRetries, trace);
      }
      trace := trace + [Request(req)];
      if IsRateLimited(a) {
        var waitTime := ExtractRetryAfterTime(a.response.value.retryAfter);
        trace := trace + [Wait(waitTime)];
        retries := retries + 1;
      } else {
        match a {
          case Replied(contents) =>
            if |contents| > 0 {
              var suggestions := Split(contents[0], {'\n'});
              result := Ok(Slice(suggestions, count));
            } else {
              result := Err(InvalidResponseFormat);
            }
          case Failed(response, _) =>
            if response.Some? {
              result := Err(RequestFailed(Some(response.value.status), Some(response.value.statusText)));
            } else {
              result := Err(RequestFailed(None, None));
            }
        }
        return;
      }
    }
    result := Err(MaxRetriesReached);
  }

  /** What the command shows. */
  datatype Shown =
    | NothingShown
    | InformationMessage(text: string)
    | ErrorMessage(text: string)
    | QuickPickItems(items: seq<string>)

  const NoSelection: string := "Please select some text to get variable name suggestions."
  const NoApiKey: string := "API key is not set. Please set it in the settings."

  /**
   * `suggestVariableNames`: `selection` is the selected text of the active
   * editor (None without one), `apiKey` the key `getConfig` settles on and
   * `countSetting` the `suggestionCount` setting.
   */
  method SuggestVariableNames(selection: Option<string>, apiKey: Option<string>, countSetting: Option<int>, network: Network)
    returns (shown: Shown, ghost trace: seq<Event>)
    ensures selection == None ==> shown == NothingShown
    ensures selection == Some("") ==> shown == InformationMessage(NoSelection)
    ensures selection.Some? && selection.value != "" && (apiKey == None || apiKey == Some("")) ==>
              shown == ErrorMessage(NoApiKey)
    ensures selection.Some? && selection.value != "" && apiKey.Some? && apiKey.value != "" ==>
              var count := SuggestionCount(countSetting);
              var run := RetryFrom(network, SuggestRequest(apiKey.value, selection.value, count), 0, DefaultMaxRetries);
              shown == match Conclude(network, run.exit, count)
                       case Ok(names) => QuickPickItems(names)
                       case Err(t) => ErrorMessage("Error: " + Message(t))
    ensures selection == None || selection == Some("") || apiKey == None || apiKey == Some("") ==> trace == []
    ensures selection.Some? && selection.value != "" && apiKey.Some? && apiKey.value != "" ==>
              var count := SuggestionCount(countSetting);
              trace == RetryFrom(network, SuggestRequest(apiKey.value, selection.value, count), 0, DefaultMaxRetries).events
  {
    trace := [];
    shown := NothingShown;
    if selection.Some? {
      var text := selection.value;
      if text != "" {
        var count := SuggestionCount(countSetting);
        if apiKey.Some? && apiKey.value != "" {
          var result;
          result, trace := GetSuggestionsWithRetry(apiKey.value, text, count, DefaultMaxRetries, network);
          match result {
            case Ok(names) => shown := QuickPickItems(names);
            case Err(t) => shown := ErrorMessage("Error: " + Message(t));
          }
        } else {
          shown := ErrorMessage(NoApiKey);
        }
      } else {
        shown := InformationMessage(NoSelection);
      }
    }
  }

  // ------------------------------------------------------------ properties

  /**
   * The suggestions are the first `count` lines of the reply (all of them when
   * there are fewer), with nothing trimmed, dropped or reordered, so blank
   * lines are kept; none holds a newline, and joined with newlines they give
   * back the start of the reply, all of it when `count` covers every line.
   */
  lemma {:induction false} LinesOfReply(content: string, count: int)
    ensures var r := ReplyLines(content, count);
            var lines := Split(content, {'\n'});
            && r == lines[..|r|]
            && (count >= 0 ==> |r| == if count < |lines| then count else |lines|)
            && (forall i :: 0 <= i < |r| ==> '\n' !in r[i])
            && IsPrefix(Join(r, "\n"), content)
            && (count >= |Split(content, {'\n'})| ==> Join(r, "\n") == content)
  {
    var parts := Split(content, {'\n'});
    var r := ReplyLines(content, count);
    assert r == parts[..|r|];
    forall i | 0 <= i < |r| ensures '\n' !in r[i] {
      assert r[i] == parts[i];
      forall k | 0 <= k < |parts[i]| ensures parts[i][k] != '\n' {
      }
    }
    JoinSplitPrefix(content, '\n', |r|);
    if count >= |parts| {
      assert r == parts;
      JoinSplit(content, '\n');
    }
  }

  /**
   * The call throws "Max retries reached" exactly when each of the
   * `maxRetries` attempts was rate-limited; otherwise the first attempt that
   * was not rate-limited decides the result alone.
   */
  lemma {:induction false} MaxRetriesExactly(apiKey: string, text: string, count: int, maxRetries: int, network: Network)
    ensures var run := RetryFrom(network, SuggestRequest(apiKey, text, count), 0, maxRetries);
            Conclude(network, run.exit, count) == Err(MaxRetriesReached) <==>
              forall j :: 0 <= j < maxRetries ==> IsRateLimited(network(j))
    ensures var run := RetryFrom(network, SuggestRequest(apiKey, text, count), 0, maxRetries);
            run.exit.Settled? ==>
              && !IsRateLimited(network(run.exit.attempt))
              && Conclude(network, run.exit, count) == Settle(network(run.exit.attempt), count)
  {
    var req := SuggestRequest(apiKey, text, count);
    RetryBounds(network, req, maxRetries);
    var run := RetryFrom(network, req, 0, maxRetries);
    if run.exit.Settled? {
      SettleNeverExhausted(network(run.exit.attempt), count);
    }
  }

  /** Settling an attempt never reports "Max retries reached". */
  lemma {:induction false} SettleNeverExhausted(a: Attempt, count: int)
    ensures Settle(a, count) != Err(MaxRetriesReached)
  {
  }

  /**
   * Which error an attempt that is not rate-limited throws: an HTTP error
   * reports its status and status text, a lost connection reports `undefined`
   * for both, and a reply without choices is an invalid format.
   */
  lemma {:induction false} SettleErrors(a: Attempt, count: int)
    requires !IsRateLimited(a)
    ensures a.Failed? && a.response.Some? ==>
              Message(Settle(a, count).error)
              == "Request failed: " + Decimal(a.response.value.status) + " " + a.response.value.statusText
    ensures a.Failed? && a.response.None? ==> Message(Settle(a, count).error) == "Request failed: undefined undefined"
    ensures a.Replied? ==> (Settle(a, count).Err? <==> a.contents == [])
    ensures a.Replied? && a.contents == [] ==> Message(Settle(a, count).error) == "Invalid API response format"
  {
    match a {
      case Failed(response, _) =>
        if response.Some? {
          assert Settle(a, count) == Err(RequestFailed(Some(response.value.status), Some(response.value.statusText)));
        } else {
          assert Settle(a, count) == Err(RequestFailed(None, None));
        }
      case Replied(contents) =>
    }
  }
}
