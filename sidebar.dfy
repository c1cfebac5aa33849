/**
 * The sidebar webview's `getSuggestions`: the text, naming style, concept and
 * count from the webview become a prompt; the request is retried while the
 * endpoint answers 429, at most three times; the reply is read as a JSON array
 * of strings and the first `count` of them are posted back to the webview.
 *
 * `JSON.parse` is a parameter: a parser from text to a JSON value or to the
 * message of the SyntaxError it throws.
 */
module Sidebar {
  import opened Wrappers
  import opened Text
  import opened Api

  const SystemPrompt: string :=
    "You are a helpful assistant that suggests variable names. Provide your suggestions as a valid JSON array of strings, without any markdown formatting or code blocks."
  const Model: string := "gpt-4o-mini"
  const MaxTokens: nat := 200
  const MaxRetries: int := 3

  const PromptOpening: string := "Suggest "
  const PromptClosing: string :=
    "Respond with a valid JSON array of strings containing only the variable names, without any additional formatting or explanation."

  /** `generateUserPrompt` */
  function UserPrompt(text: string, style: string, concept: string, count: int): string {
    PromptOpening + Decimal(count) + PromptMiddle(text, style, concept) + PromptClosing
  }

  /** The prompt between the count and the closing instruction. */
  function PromptMiddle(text: string, style: string, concept: string): string {
    " variable names for: " + PromptDetails(text, style, concept)
  }

  /** The selected text, then the naming style and the concept to follow. */
  function PromptDetails(text: string, style: string, concept: string): string {
    text + ". \n" + "Use the " + style + " naming style and the " + concept + " concept.\n"
  }

  /** The request `getSuggestions` sends. */
  function SuggestRequest(apiKey: string, text: string, style: string, concept: string, count: int): ChatRequest {
    ChatRequest(apiKey, Model, SystemPrompt, UserPrompt(text, style, concept, count), MaxTokens)
  }

  /** The prompt opens with the count, which reads back as a number. */
  lemma {:induction false} UserPromptCount(text: string, style: string, concept: string, count: int)
    ensures var p := UserPrompt(text, style, concept, count);
            IsPrefix(PromptOpening, p) && ParseInt(p[|PromptOpening|..]) == Some(count)
  {
    var middle := PromptMiddle(text, style, concept);
    assert PromptOpening + Decimal(count) + middle + PromptClosing
        == PromptOpening + (Decimal(count) + (middle + PromptClosing));
    PromptMiddleHead(text, style, concept);
    NumberAfter(PromptOpening, count, middle + PromptClosing);
  }

  /** A rendered integer placed after some text reads back from there. */
  lemma {:induction false} NumberAfter(a: string, n: int, rest: string)
    requires rest == [] || !IsDigit(rest[0])
    ensures var p := a + (Decimal(n) + rest);
            IsPrefix(a, p) && ParseInt(p[|a|..]) == Some(n)
  {
    var p := a + (Decimal(n) + rest);
    assert p[..|a|] == a;
    assert p[|a|..] == Decimal(n) + rest;
    ParseIntDecimal(n, rest);
  }

  lemma {:induction false} PromptMiddleHead(text: string, style: string, concept: string)
    ensures |PromptMiddle(text, style, concept)| > 0 && PromptMiddle(text, style, concept)[0] == ' '
    ensures (PromptMiddle(text, style, concept) + PromptClosing)[0] == ' '
  {
    var lead := " variable names for: ";
    var m := PromptMiddle(text, style, concept);
    assert m[0] == lead[0];
    assert (m + PromptClosing)[0] == m[0];
  }

  /** The prompt closes with the instruction to answer with a bare JSON array of strings. */
  lemma {:induction false} UserPromptClosing(text: string, style: string, concept: string, count: int)
    ensures var p := UserPrompt(text, style, concept, count);
            |PromptClosing| <= |p| && p[|p| - |PromptClosing|..] == PromptClosing
  {
    var front := PromptOpening + Decimal(count) + PromptMiddle(text, style, concept);
    assert UserPrompt(text, style, concept, count) == front + PromptClosing;
  }

  // ------------------------------------------------------------ /\[.*\]/s

  /** The position of the last `c` in `s`, if any. */
  function LastIndexOf(s: string, c: char): (r: Option<nat>)
    ensures r.Some? ==> r.value < |s| && s[r.value] == c && forall k :: r.value < k < |s| ==> s[k] != c
    ensures r.None? ==> forall k :: 0 <= k < |s| ==> s[k] != c
  {
    if s == [] then None
    else if s[|s| - 1] == c then Some(|s| - 1)
    else LastIndexOf(s[..|s| - 1], c)
  }

  /**
   * `/\[.*\]/s` tried at `p`, then at each later start: from a `[`, the greedy
   * `.*` (which here also crosses newlines) backs off to the last `]` of the text.
   */
  function BracketMatchFrom(s: string, p: nat): Option<string>
    decreases |s| - p
  {
    if p >= |s| then None
    else if s[p] == '[' then
      match LastIndexOf(s, ']')
      case Some(q) => if q > p then Some(s[p..q + 1]) else BracketMatchFrom(s, p + 1)
      case None => BracketMatchFrom(s, p + 1)
    else BracketMatchFrom(s, p + 1)
  }

  /** `content.match(/\[.*\]/s)?.[0]` */
  function BracketMatch(s: string): Option<string> {
    BracketMatchFrom(s, 0)
  }

  lemma {:induction false} BracketMatchSkips(s: string, p: nat, i: nat)
    requires p <= i <= |s|
    requires forall k :: p <= k < i ==> s[k] != '['
    ensures BracketMatchFrom(s, p) == BracketMatchFrom(s, i)
    decreases i - p
  {
    if p < i {
      BracketMatchSkips(s, p + 1, i);
    }
  }

  lemma {:induction false} BracketMatchNone(s: string, p: nat)
    requires LastIndexOf(s, ']').None? || LastIndexOf(s, ']').value < p
    ensures BracketMatchFrom(s, p) == None
    decreases |s| - p
  {
    if p < |s| {
      BracketMatchNone(s, p + 1);
    }
  }

  /**
   * The bracket match is the text from the first `[` to the last `]`, and
   * there is one exactly when some `[` comes before some `]`.
   */
  lemma {:induction false} BracketMatchFirstLast(s: string)
    ensures BracketMatch(s).Some? <==> exists i, j :: 0 <= i < j < |s| && s[i] == '[' && s[j] == ']'
    ensures BracketMatch(s).Some? ==>
              var i := IndexOfAny(s, {'['});
              var j := LastIndexOf(s, ']');
              j.Some? && i < j.value && BracketMatch(s) == Some(s[i..j.value + 1])
  {
    var i := IndexOfAny(s, {'['});
    var j := LastIndexOf(s, ']');
    BracketMatchSkips(s, 0, i);
    if i < |s| && j.Some? && j.value > i {
      assert BracketMatch(s) == Some(s[i..j.value + 1]);
    } else {
      if i < |s| {
        BracketMatchNone(s, i + 1);
      }
      forall i', j' | 0 <= i' < j' < |s| && s[i'] == '[' ensures s[j'] != ']' {
        assert i <= i';
      }
    }
  }

  // ------------------------------------------------------------ reading the reply

  /** A JSON value, as far as the reply check looks into it. */
  datatype Json = JString(str: string) | JArray(items: seq<Json>) | JOther

  /** `JSON.parse`: a value, or the message of the SyntaxError it throws. */
  type JsonParser = string -> Result<Json, string>

  /** The strings of an array whose every item is a string. */
  function StringItems(items: seq<Json>): (r: Option<seq<string>>)
    ensures r.Some? <==> forall i :: 0 <= i < |items| ==> items[i].JString?
    ensures r.Some? ==> |r.value| == |items| && forall i :: 0 <= i < |items| ==> r.value[i] == items[i].str
  {
    if items == [] then Some([])
    else if !items[0].JString? then None
    else match StringItems(items[1..])
      case Some(rest) => Some([items[0].str] + rest)
      case None => None
  }

  /** Why a call ends without suggestions. */
  datatype Failure =
    | NoApiKey
    | NotJson(syntaxError: string)
    | ExtractedNotJson(syntaxError: string)
    | NotArrayOfStrings
    | InvalidApiResponse
    | RequestError(message: string)
    | RetriesExhausted

  /** The error message the call shows. */
  function ErrorText(f: Failure): string {
    match f
    case NoApiKey => "API key is not set. Please set it in the settings."
    case NotJson(e) => "Error: Failed to parse response as JSON: SyntaxError: " + e
    case ExtractedNotJson(e) => "Error: " + e
    case NotArrayOfStrings => "Error: Invalid response format: not an array of strings"
    case InvalidApiResponse => "Error: Invalid API response format"
    case RequestError(m) => "Error: " + m
    case RetriesExhausted => "Max retries reached. Failed to get suggestions."
  }

  /** The value of the reply: the whole text, or else its bracketed part. */
  function ParseReply(content: string, parse: JsonParser): Result<Json, Failure> {
    match parse(content)
    case Ok(v) => Ok(v)
    case Err(e) =>
      match BracketMatch(content)
      case Some(sub) =>
        (match parse(sub)
         case Ok(v) => Ok(v)
         case Err(e2) => Err(ExtractedNotJson(e2)))
      case None => Err(NotJson(e))
  }

  /** The suggestions in a value: an array of strings, cut to `count`. */
  function Validate(v: Json, count: int): Result<seq<string>, Failure> {
    if !v.JArray? then Err(NotArrayOfStrings)
    else match StringItems(v.items)
      case Some(strs) => Ok(Slice(strs, count))
      case None => Err(NotArrayOfStrings)
  }

  /** How an attempt that is not rate-limited settles the call. */
  function Settle(a: Attempt, parse: JsonParser, count: int): Result<seq<string>, Failure> {
    match a
    case Replied(contents) =>
      if |contents| == 0 then Err(InvalidApiResponse)
      else
        (match ParseReply(Trim(contents[0]), parse)
         case Ok(v) => Validate(v, count)
         case Err(f) => Err(f))
    case Failed(_, message) => Err(RequestError(message))
  }

  /** The outcome of a call, given how its retry loop ended. */
  function Conclude(network: Network, exit: Exit, parse: JsonParser, count: int): Result<seq<string>, Failure> {
    match exit
    case Exhausted => Err(RetriesExhausted)
    case Settled(k) => Settle(network(k), parse, count)
  }

  /**
   * When the whole reply is not JSON, the fallback parses the text from its
   * first `[` to its last `]`; with no `[` before a `]` the call fails with
   * the first parse error.
   */
  lemma {:induction false} ParseReplyFallback(content: string, parse: JsonParser)
    ensures parse(content).Ok? ==> ParseReply(content, parse) == Ok(parse(content).value)
    ensures parse(content).Err? && !(exists i, j :: 0 <= i < j < |content| && content[i] == '[' && content[j] == ']') ==>
              ParseReply(content, parse) == Err(NotJson(parse(content).error))
    ensures parse(content).Err? && (exists i, j :: 0 <= i < j < |content| && content[i] == '[' && content[j] == ']') ==>
              var first := IndexOfAny(content, {'['});
              var last := LastIndexOf(content, ']').value;
              && first < last
              && ParseReply(content, parse) ==
                   match parse(content[first..last + 1])
                   case Ok(v) => Ok(v)
                   case Err(e) => Err(ExtractedNotJson(e))
  {
    BracketMatchFirstLast(content);
  }

  /**
   * A value passes the check exactly when it is an array of strings; the
   * suggestions are then its first `count` strings, in order, none dropped
   * or changed.
   */
  lemma {:induction false} ValidateKeepsPrefix(v: Json, count: int)
    ensures Validate(v, count).Ok? <==> v.JArray? && forall i :: 0 <= i < |v.items| ==> v.items[i].JString?
    ensures Validate(v, count).Err? ==> Validate(v, count).error == NotArrayOfStrings
    ensures Validate(v, count).Ok? ==>
              var names := Validate(v, count).value;
              && |names| == (if count < 0 then (if |v.items| + count > 0 then |v.items| + count else 0)
                             else if count < |v.items| then count else |v.items|)
              && forall i :: 0 <= i < |names| ==> names[i] == v.items[i].str
  {
    if v.JArray? {
      var r := StringItems(v.items);
      if r.Some? {
        var names := Slice(r.value, count);
        forall i | 0 <= i < |names| ensures names[i] == v.items[i].str {
          assert names[i] == r.value[i];
        }
      }
    }
  }

  /**
   * One sidebar call: at most three requests; "Max retries reached" exactly
   * when all three attempts were rate-limited; otherwise the first attempt that
   * was not rate-limited ends the call at once, after one request and no wait.
   */
  lemma {:induction false} SidebarRetries(req: ChatRequest, network: Network, parse: JsonParser, count: int)
    ensures var run := RetryFrom(network, req, 0, MaxRetries);
            RequestCount(run.events) <= 3
    ensures var run := RetryFrom(network, req, 0, MaxRetries);
            Conclude(network, run.exit, parse, count) == Err(RetriesExhausted) <==>
              IsRateLimited(network(0)) && IsRateLimited(network(1)) && IsRateLimited(network(2))
    ensures var run := RetryFrom(network, req, 0, MaxRetries);
            run.exit.Settled? ==>
              && Conclude(network, run.exit, parse, count) == Settle(network(run.exit.attempt), parse, count)
              && run.events[|run.events| - 1] == Request(req)
  {
    var run := RetryFrom(network, req, 0, MaxRetries);
    RetryBounds(network, req, MaxRetries);
    if run.exit.Settled? {
      SettleNotExhausted(network(run.exit.attempt), parse, count);
    }
  }

  lemma {:induction false} SettleNotExhausted(a: Attempt, parse: JsonParser, count: int)
    ensures Settle(a, parse, count) != Err(RetriesExhausted)
  {
    match a {
      case Failed(_, _) =>
      case Replied(contents) =>
        if |contents| > 0 {
          var content := Trim(contents[0]);
          match ParseReply(content, parse) {
            case Ok(v) => assert Validate(v, count) != Err(RetriesExhausted);
            case Err(f) => assert f != RetriesExhausted;
          }
        }
    }
  }

  /** A message posted to the webview: `{type: "suggestions", value, userPrompt}`. */
  datatype Posted = Suggestions(value: seq<string>, userPrompt: string)

  /** The sidebar view provider, as far as `getSuggestions` uses it. */
  class SuggesterView {
    /** Whether `resolveWebviewView` has given the provider its view (`_view`). */
    var viewResolved: bool
    /** The messages posted to the view. */
    var posted: seq<Posted>
    /** The requests sent and the waits slept. */
    ghost var trace: seq<Event>

    constructor()
      ensures !viewResolved && posted == [] && trace == []
    {
      viewResolved := false;
      posted := [];
      trace := [];
    }

    /** `resolveWebviewView`: from now on, suggestions reach the view. */
    method ResolveWebviewView()
      modifies this
      ensures viewResolved && posted == old(posted) && trace == old(trace)
    {
      viewResolved := true;
    }

    /**
     * The view shows `result`: suggestions are posted to it (when it is
     * resolved) with no error message, or the failure's message is shown and
     * nothing is posted.
     */
    ghost predicate Shows(result: Result<seq<string>, Failure>, userPrompt: string, shownError: Option<string>, before: seq<Posted>)
      reads this
    {
      match result
      case Ok(names) =>
        shownError == None && posted == before + (if viewResolved then [Suggestions(names, userPrompt)] else [])
      case Err(f) => shownError == Some(ErrorText(f)) && posted == before
    }

    /**
     * `getSuggestions`: `apiKey` is the key `getConfig` settles on; the result
     * is the error message shown, if any.
     */
    method GetSuggestions(text: string, style: string, concept: string, count: int,
                          apiKey: Option<string>, network: Network, parse: JsonParser)
      returns (shownError: Option<string>)
      modifies this
      ensures viewResolved == old(viewResolved)
      ensures apiKey == None || apiKey == Some("") ==>
                trace == old(trace) && Shows(Err(NoApiKey), UserPrompt(text, style, concept, count), shownError, old(posted))
      ensures apiKey.Some? && apiKey.value != "" ==>
                var run := RetryFrom(network, SuggestRequest(apiKey.value, text, style, concept, count), 0, MaxRetries);
                && trace == old(trace) + run.events
                && Shows(Conclude(network, run.exit, parse, count), UserPrompt(text, style, concept, count), shownError, old(posted))
    {
      if apiKey == None || apiKey == Some("") {
        return Some(ErrorText(NoApiKey));
      }
      var req := SuggestRequest(apiKey.value, text, style, concept, count);
      var result;
      ghost var events;
      result, events := RequestWithRetries(req, count, MaxRetries, network, parse);
      trace := trace + events;
      match result {
        case Ok(names) =>
          if viewResolved {
            posted := posted + [Suggestions(names, req.user)];
          }
          shownError := None;
        case Err(f) =>
          shownError := Some(ErrorText(f));
      }
    }
  }

  /**
   * The `while` loop of `getSuggestions`: send the request; on a 429 wait as
   * long as `retry-after` asks and go round again, at most `MaxRetries` times;
   * anything else ends the loop with suggestions or a failure.
   */
  method RequestWithRetries(req: ChatRequest, count: int, maxRetries: int, network: Network, parse: JsonParser)
    returns (result: Result<seq<string>, Failure>, ghost events: seq<Event>)
    ensures result == Conclude(network, RetryFrom(network, req, 0, maxRetries).exit, parse, count)
    ensures events == RetryFrom(network, req, 0, maxRetries).events
  {
    ghost var run := RetryFrom(network, req, 0, maxRetries);
    var retries: nat := 0;
    events := [];
    while retries < maxRetries
      invariant run.events == events + RetryFrom(network, req, retries, maxRetries).events
      invariant run.exit == RetryFrom(network, req, retries, maxRetries).exit
      decreases maxRetries - retries
    {
      var a := network(retries);
      if IsRateLimited(a) {
        RetryFromWaits(network, req, retries, maxRetries, events);
      } else {
        RetryFromSettles(network, req, retries, maxRetries, events);
      }
      events := events + [Request(req)];
      if IsRateLimited(a) {
        var waitTime := ExtractRetryAfterTime(a.response.value.retryAfter);
        events := events + [Wait(waitTime)];
        retries := retries + 1;
      } else {
        result := Answer(a, parse, count);
        return;
      }
    }
    result := Err(RetriesExhausted);
  }

  /**
   * The body of the `try` block once a reply or an error is in, and what the
   * `catch` block hands to `handleError`: the suggestions, or why there are none.
   */
  method Answer(a: Attempt, parse: JsonParser, count: int) returns (result: Result<seq<string>, Failure>)
    ensures result == Settle(a, parse, count)
  {
    match a {
      case Failed(_, message) =>
        return Err(RequestError(message));
      case Replied(contents) =>
        if |contents| == 0 {
          return Err(InvalidApiResponse);
        }
        var content := Trim(contents[0]);
        var suggestions: Json;
        match parse(content) {
          case Ok(v) =>
            suggestions := v;
          case Err(parseError) =>
            var m := BracketMatch(content);
            if m.None? {
              return Err(NotJson(parseError));
            }
            match parse(m.value) {
              case Ok(v) =>
                suggestions := v;
              case Err(e) =>
                return Err(ExtractedNotJson(e));
            }
        }
        var strs := if suggestions.JArray? then StringItems(suggestions.items) else None;
        if strs.Some? {
          return Ok(Slice(strs.value, count));
        } else {
          return Err(NotArrayOfStrings);
        }
    }
  }
}
