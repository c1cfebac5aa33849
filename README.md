# vscode-namer, modelled in Dafny

vscode-namer is a VS Code extension with two jobs.

- **Class names to a TypeScript type** (`src/extension.ts`). The `createType` and
  `clipboardType` commands read a `.css`/`.scss` document and collect its class
  names (`getAllClassNames`). They render the names as
  `export type <file> = "a" | "b" | …` (`arrayToStringTyped`), and write that text
  to `<folder>/<file>.d.ts` or copy it to the clipboard.
- **Variable-name suggestions from a chat-completion endpoint.** The sidebar
  webview (`src/VariableNameSuggesterViewProvider.ts`, `getSuggestions`) builds a
  prompt from the text, the naming style, the concept and a count. The quick-pick
  command (`src/nameGPT.ts`, `suggestVariableNames` / `getSuggestionsWithRetry`)
  sends the selected text. Both retry a request that is answered with HTTP 429,
  after waiting for as long as the `retry-after` header asks
  (`extractRetryAfterTime`), up to a bound. Any other outcome ends the call.
  - The sidebar reads the reply as a JSON array of strings. When the whole reply
    is not JSON, it falls back to its `[`…`]` part. It keeps the first `count`
    strings.
  - The quick pick cuts the reply into lines and keeps the first `count` of them.

The project has six files.

| file | module | what it holds |
|---|---|---|
| `wrappers.dfy` | `Wrappers` | Option and Result |
| `text.dfy` | `Text` | the JavaScript string operations the extension uses, over `seq<char>`: `split`, `join`, `trim`, `parseInt(_, 10)` (`None` for NaN), the decimal rendering of an integer, `slice(0, end)` |
| `class_names.dfy` | `ClassNames` | `src/extension.ts` (see below) |
| `api.dfy` | `Api` | what both retry loops share (see below) |
| `sidebar.dfy` | `Sidebar` | the webview provider (see below) |
| `quick_pick.dfy` | `QuickPick` | `suggestVariableNames` and `getSuggestionsWithRetry` as methods, plus the `\|\| 5` count default |

In `class_names.dfy` the two regular expressions are scanners that try the pattern
at every position, as a global `match` does:

- `MatchLines` stands for `/.*[,{]/g`. It is proved equal to a line-by-line
  description, `LinePrefixes`.
- `Tokens` stands for `/\.[_A-Za-z0-9-]+/g`. It is proved to find exactly the
  tokens that start at a `.` followed by a name character (as a set of tokens;
  order is carried by `TokensAcrossSpace` and `TokensOfJoin`).

`api.dfy` holds what both retry loops share:

- the request, and the outcome of one request (`Attempt`);
- the scripted network (`Network`, the outcome of the k-th request of one call);
- `ExtractRetryAfterTime`;
- the loop as a recursive function `RetryFrom`, together with a reference
  description of it (`Backoff`, `RateLimitedPrefix`).

Requests and waits are recorded as ghost `Event`s.

`sidebar.dfy` holds the webview provider as a class, `SuggesterView`, with these
fields:

- whether its view is resolved;
- the messages posted to the view;
- a ghost trace of requests and waits.

`JSON.parse` is a parameter, a parser from text to a value or a syntax error.

Each loop is a `while` method, proved against `RetryFrom`. Its loop invariant
says that the events so far, followed by the rest of the loop, are the events of
the whole run.

## Model

| member | source | states |
|---|---|---|
| Text.Split | src/nameGPT.ts:137 | no part holds a separator, and there is always at least one part |
| Text.JoinSplit | src/extension.ts:57-59 | joining the parts of a split on `c` with `c` gives back the text |
| Text.SplitJoin | src/extension.ts:57-59 | splitting parts that hold no `c`, joined with `c`, gives back the parts |
| Text.JoinSplitPrefix | src/nameGPT.ts:136-138 | any number of leading parts of a split, joined again, are a prefix of the text |
| Text.Join | src/extension.ts:59 | no contract; `parts.join(sep)`, described by `JoinSplit`, `SplitJoin` and `JoinSplitPrefix` |
| Text.Trim | src/VariableNameSuggesterViewProvider.ts:133 | the result is the text with its leading and trailing white space removed: a piece of the text with only white space before and after it, neither starting nor ending with white space |
| Text.ParseIntDecimal | src/VariableNameSuggesterViewProvider.ts:225 | `parseInt` reads a rendered integer back, whatever non-digit text follows it |
| Text.ParseIntSkipsSpace | src/VariableNameSuggesterViewProvider.ts:225 | leading white space does not change what `parseInt` reads |
| Text.Decimal | src/VariableNameSuggesterViewProvider.ts:69 | no contract; `${count}` for an integer, described by `ParseIntDecimal` (it reads back as the same integer) |
| Text.Slice | src/VariableNameSuggesterViewProvider.ts:154 | `slice(0, end)` is a prefix of length `min(end, len)`, and a negative `end` counts from the back |
| ClassNames.MatchLines | src/extension.ts:10-12 | no contract; described by `MatchLinesByLine` |
| ClassNames.LastDelimiterEnd | src/extension.ts:10 | the greedy `.*[,{]` on one line ends at its last `,` or `{`, and fails on a line with neither |
| ClassNames.MatchLinesByLine | src/extension.ts:10-12 | the global match of `/.*[,{]/g` is exactly each line cut after its last `,`/`{`; lines without one give nothing |
| ClassNames.NoDelimiterNoClassNames | src/extension.ts:10-15 | a document with no `,` or `{` has no matched lines and no class names |
| ClassNames.Tokens | src/extension.ts:17 | every match is a `.` followed by one or more name characters |
| ClassNames.TokensExactly | src/extension.ts:17 | `t` is found by `/\.[_A-Za-z0-9-]+/g` exactly when some `.` followed by a name character starts the longest run `t` |
| ClassNames.TokensAcrossSpace | src/extension.ts:17 | a space ends every token: the tokens of `a + " " + b` are those of `a`, then those of `b` |
| ClassNames.TokensOfJoin | src/extension.ts:17 | the tokens of the space-joined lines are the tokens of each line, in order; no token spans two lines |
| ClassNames.Uniq | src/extension.ts:6 | `[...new Set(xs)]` holds exactly the elements of `xs`, in order of first occurrence |
| ClassNames.StripDots | src/extension.ts:25 | `slice(1)` on every item: same length, each item without its first character |
| ClassNames.DropDigitLed | src/extension.ts:26 | the filter keeps exactly the names that do not start with a digit |
| ClassNames.GetAllClassNames | src/extension.ts:8-28 | no contract; described by `ClassNamesFromTokens`, `ClassNamesMembership`, `ClassNamesWellFormed` and `ClassNamesFirstSeen` |
| ClassNames.ClassNamesFromTokens | src/extension.ts:8-28 | the result is the line-by-line tokens, de-duplicated, dot stripped, digit-led names dropped; the scans add or lose nothing |
| ClassNames.ClassNamesMembership | src/extension.ts:8-28 | `n` is returned iff it is non-empty, not digit-led, and `"." + n` is a token inside some line's part up to its last `,`/`{` |
| ClassNames.ClassNamesWellFormed | src/extension.ts:17-26 | every returned name is non-empty, uses only `[_A-Za-z0-9-]` and does not start with a digit |
| ClassNames.DropDigitLedKeepsOrder | src/extension.ts:26 | dropping digit-led names keeps the remaining names in first-seen order |
| ClassNames.ClassNamesFirstSeen | src/extension.ts:24-27 | the names are in the order their tokens first occur among the matches of `/\.[_A-Za-z0-9-]+/g`, hence pairwise distinct |
| ClassNames.QuoteAll | src/extension.ts:78 | each item wrapped in double quotes, in order |
| ClassNames.ArrayToStringTyped | src/extension.ts:77-81 | no contract; described by `TypeDeclarationRoundTrip` |
| ClassNames.UnionRoundTrip | src/extension.ts:78 | items without `"`, quoted and joined with `" \| "`, read back as the same items |
| ClassNames.TypeDeclarationRoundTrip | src/extension.ts:77-81 | the declaration reads back, after its header, as exactly `arr`; for an empty `arr` it ends with `" = "`; no `;` follows |
| ClassNames.ClassTypeRoundTrip | src/extension.ts:117-119 | the copied declaration reads back as exactly the document's class names |
| ClassNames.GetFilePath | src/extension.ts:55-61 | no contract; described by `FilePathParts` |
| ClassNames.FilePathParts | src/extension.ts:55-61 | the name holds no `/`; with a `/`, folder + `/` + name is the path; without one, the folder is empty and the name is the path |
| ClassNames.TypeName | src/extension.ts:98 | no contract; described by `TypeNameBeforeFirstDot` |
| ClassNames.TypeNameBeforeFirstDot | src/extension.ts:98 | `name.split(".")[0]` holds no `.` and is followed by the name's first `.` |
| ClassNames.ReplaceStyleSuffix | src/extension.ts:100 | no contract; described by `ReplaceStyleSuffixEnd` |
| ClassNames.ReplaceStyleSuffixEnd | src/extension.ts:100 | the rewrite replaces exactly a trailing `.css` or `.scss` by `.d.ts` |
| ClassNames.CreateType | src/extension.ts:84-104 | no contract; described by `CreateTypeGuard`, `CreateTypeContent` and `CreateTypePath` |
| ClassNames.ClipboardType | src/extension.ts:105-123 | no contract; described by `CreateTypeGuard` and `ClassTypeRoundTrip` |
| ClassNames.DeclarationPath | src/extension.ts:100-102 | no contract; described by `DeclarationPathNextTo` and `DeclarationPathWithoutFolder` |
| ClassNames.CreateTypeGuard | src/extension.ts:84-123 | both commands act exactly when the file name ends in `.css` or `.scss`, and the clipboard gets what the file would get |
| ClassNames.CreateTypeContent | src/extension.ts:96-98 | the written type is named after the part of the file name before its first `.` and lists exactly the document's class names |
| ClassNames.DeclarationPathNextTo | src/extension.ts:100-102 | the path ends in a style suffix iff its file name does, and the output path is the path with that suffix replaced by `.d.ts` |
| ClassNames.DeclarationPathWithoutFolder | src/extension.ts:100-102 | for a path without `/` the folder is empty, so the output path is `"/"` followed by the path with its style suffix replaced |
| ClassNames.CreateTypePath | src/extension.ts:90-102 | a file is written iff the path ends in `.css`/`.scss`; with a folder, at the path with that suffix replaced by `.d.ts`; without a `/`, at `"/"` and that replaced path |
| Text.ParseInt | src/VariableNameSuggesterViewProvider.ts:225 | no contract; described by `ParseIntDecimal` and `ParseIntSkipsSpace` |
| Api.ExtractRetryAfterTime | src/VariableNameSuggesterViewProvider.ts:223-227 | no contract; described by the `RetryAfter…` lemmas below |
| Api.RetryAfterDefault | src/VariableNameSuggesterViewProvider.ts:223-227 | an absent or empty header, or one `parseInt` reads as NaN, means a 5-second wait |
| Api.RetryAfterReadsNumber | src/VariableNameSuggesterViewProvider.ts:225-226 | a header holding an integer, after white space and before non-digits, is read as that integer |
| Api.RetryAfterZero | src/VariableNameSuggesterViewProvider.ts:223-227 | `"0"` means no wait (0 is not replaced by the default) |
| Api.RetryAfterUnitSuffix | src/VariableNameSuggesterViewProvider.ts:223-227 | `"2s"` means 2 seconds |
| Api.RetryAfterNegative | src/VariableNameSuggesterViewProvider.ts:223-227 | `"-3"` is read as -3; `extractRetryAfterTime` does not clamp the value |
| Api.RetryAfterNotNumber | src/nameGPT.ts:168-172 | `"abc"` and `" +x"` mean the 5-second default |
| Api.IsRateLimited | src/VariableNameSuggesterViewProvider.ts:180 | no contract; `isAxiosError(error) && error.response?.status === 429` (also src/nameGPT.ts:143-144), described by `RateLimitedPrefix`, `RetryBounds`, `SidebarRetries` and `MaxRetriesExactly` |
| Api.WaitFor | src/VariableNameSuggesterViewProvider.ts:180-183 | no contract; the wait of a rate-limited attempt, read from its `retry-after` header |
| Api.RetryFrom | src/VariableNameSuggesterViewProvider.ts:88-198 | no contract; described by `RetryFromShape` and `RetryBounds` |
| Api.RateLimitedPrefix | src/VariableNameSuggesterViewProvider.ts:91 | the attempts before it are all rate-limited, and the one it stops at (below the bound) is not |
| Api.BackoffAt | src/VariableNameSuggesterViewProvider.ts:180-188 | each backed-off attempt is a request followed by a wait of exactly what its `retry-after` asks |
| Api.BackoffRequests | src/VariableNameSuggesterViewProvider.ts:180-188 | each backed-off attempt costs exactly one request |
| Api.RetryFromShape | src/VariableNameSuggesterViewProvider.ts:88-198 | the loop is the reference: a request and a wait per rate-limited attempt, then one settling request, or exhaustion at the bound |
| Api.RetryBounds | src/nameGPT.ts:103-165 | at most `maxRetries` requests; exhausted iff every allowed attempt was rate-limited; a settled call settles on the first other attempt, after one wait per earlier attempt |
| Sidebar.UserPrompt | src/VariableNameSuggesterViewProvider.ts:63-72 | no contract; described by `UserPromptCount` and `UserPromptClosing` |
| Sidebar.UserPromptCount | src/VariableNameSuggesterViewProvider.ts:63-72 | the prompt opens with `Suggest ` and the count, which reads back as the count |
| Sidebar.UserPromptClosing | src/VariableNameSuggesterViewProvider.ts:69-71 | the prompt ends with the instruction to answer with a bare JSON array of strings |
| Sidebar.SuggestRequest | src/VariableNameSuggesterViewProvider.ts:100-122 | no contract; the key, model, system prompt, `UserPrompt` and token limit of every attempt; `GetSuggestions` ensures its trace is the retry run of exactly this request |
| Sidebar.LastIndexOf | src/VariableNameSuggesterViewProvider.ts:140 | the position of the last `]`, or none when there is no `]` |
| Sidebar.BracketMatch | src/VariableNameSuggesterViewProvider.ts:140 | no contract; described by `BracketMatchFirstLast` |
| Sidebar.BracketMatchFirstLast | src/VariableNameSuggesterViewProvider.ts:140-141 | `/\[.*\]/s` matches iff some `[` precedes some `]`, and the match runs from the first `[` to the last `]` |
| Sidebar.StringItems | src/VariableNameSuggesterViewProvider.ts:151-152 | defined iff every item is a string, and then it is those strings, in order |
| Sidebar.ParseReply | src/VariableNameSuggesterViewProvider.ts:133-148 | no contract; described by `ParseReplyFallback` |
| Sidebar.ParseReplyFallback | src/VariableNameSuggesterViewProvider.ts:133-148 | a reply that parses is used whole; else its first-`[`-to-last-`]` part is parsed, and with no such part the call fails with the first parse error |
| Sidebar.Validate | src/VariableNameSuggesterViewProvider.ts:150-175 | no contract; described by `ValidateKeepsPrefix` |
| Sidebar.ValidateKeepsPrefix | src/VariableNameSuggesterViewProvider.ts:150-175 | accepted iff the value is an array of strings; the suggestions are then its first `min(len, count)` strings unchanged; otherwise "not an array of strings" |
| Sidebar.Settle | src/VariableNameSuggesterViewProvider.ts:128-192 | no contract; what an attempt that is not rate-limited ends in, described by `ParseReplyFallback`, `ValidateKeepsPrefix` and `SettleNotExhausted` |
| Sidebar.Conclude | src/VariableNameSuggesterViewProvider.ts:196-198 | no contract; described by `SidebarRetries` |
| Sidebar.ErrorText | src/VariableNameSuggesterViewProvider.ts:229-236 | no contract; the message shown for each failure (`Error: ` and the thrown message of lines 144-146, 174 and 177 or of a request error, and the bare texts of lines 82-84 and 196-198); `GetSuggestions` ensures a failed call shows exactly it |
| Sidebar.SettleNotExhausted | src/VariableNameSuggesterViewProvider.ts:179-192 | an attempt that is not rate-limited never yields "Max retries reached" |
| Sidebar.SidebarRetries | src/VariableNameSuggesterViewProvider.ts:88-198 | at most 3 requests; "Max retries reached" iff all three attempts were rate-limited; otherwise the first other attempt decides, and its request is the last event |
| Sidebar.Answer | src/VariableNameSuggesterViewProvider.ts:128-178 | the `try` body after a reply, and the `catch` for a non-429 error, compute the outcome `Settle` defines: trim, parse with fallback, check, truncate |
| Sidebar.RequestWithRetries | src/VariableNameSuggesterViewProvider.ts:88-198 | the loop's requests and waits are those of `RetryFrom` with bound 3, and its outcome is how that run concludes |
| Sidebar.SuggesterView.constructor | src/VariableNameSuggesterViewProvider.ts:15-19 | a new provider has no view, has posted nothing and has sent nothing |
| Sidebar.SuggesterView.ResolveWebviewView | src/VariableNameSuggesterViewProvider.ts:21-26 | the provider keeps its view; nothing is posted or sent |
| Sidebar.SuggesterView.GetSuggestions | src/VariableNameSuggesterViewProvider.ts:74-199 | a missing or empty key shows its error and sends nothing; otherwise the trace grows by the retry run, and either the suggestions are posted with the prompt (when the view exists) and no error is shown, or the failure's message is shown and nothing is posted |
| QuickPick.SuggestionCount | src/nameGPT.ts:81 | never 0; a set, non-zero setting is kept |
| QuickPick.SuggestionCountStable | src/nameGPT.ts:81 | an unset or zero setting gives 5, and the default is a fixed point |
| QuickPick.GetSuggestionsWithRetry | src/nameGPT.ts:97-166 | the trace is the retry run with bound `maxRetries`, and the result is what that run returns or throws |
| QuickPick.SuggestRequest | src/nameGPT.ts:106-129 | no contract; described by `SuggestRequestPrompt`; `GetSuggestionsWithRetry` ensures its trace is the retry run of exactly this request |
| QuickPick.SuggestRequestPrompt | src/nameGPT.ts:118 | the user message opens with `Suggest ` and the count, which `parseInt` reads back, and ends with the selected text |
| QuickPick.SuggestVariableNames | src/nameGPT.ts:39-73 | no editor shows nothing; an empty selection or a missing key shows its message and sends nothing; otherwise the quick pick gets the lines, or `Error: <message>` is shown |
| QuickPick.ReplyLines | src/nameGPT.ts:136-138 | no contract; described by `LinesOfReply` |
| QuickPick.LinesOfReply | src/nameGPT.ts:136-138 | exactly the first `min(count, lines)` lines of the reply, blank lines kept, none trimmed or reordered, none holding a newline; joined with newlines they are a prefix of the reply, all of it when `count` covers every line |
| QuickPick.MaxRetriesExactly | src/nameGPT.ts:143-165 | "Max retries reached" iff each of the `maxRetries` attempts was rate-limited; otherwise the first other attempt decides |
| QuickPick.Settle | src/nameGPT.ts:131-162 | no contract; described by `SettleErrors`, `SettleNeverExhausted` and `LinesOfReply` |
| QuickPick.Conclude | src/nameGPT.ts:165 | no contract; described by `MaxRetriesExactly` |
| QuickPick.Message | src/nameGPT.ts:154-165 | no contract; the thrown messages, described by `SettleErrors` (`Request failed: <status> <statusText>`, `undefined undefined`, "Invalid API response format") and `MaxRetriesExactly` ("Max retries reached") |
| QuickPick.SettleNeverExhausted | src/nameGPT.ts:131-162 | an attempt that is not rate-limited never throws "Max retries reached" |
| QuickPick.SettleErrors | src/nameGPT.ts:139-161 | an HTTP error throws `Request failed: <status> <statusText>`; no reply at all gives `undefined undefined`; a reply without choices throws "Invalid API response format" |

## Left out

- VS Code APIs are left out: the output channel, message boxes (modelled as the
  text shown), the clipboard, editor edits, the quick pick's selection and insertion
  (`showSuggestionsQuickPick`; the model stops at the items offered), and the webview
  HTML and its message dispatch (`copy`, `copyPrompt`, `openLink`, `info`).
  `media/main.js` (webview DOM code) is not part of this model.
- The tree data provider in src/nameGPT.ts:4-37 is not part of this model. It only
  offers one item that runs the command.
- `getConfig` in both files (configuration store, input box, saving the key) is
  left out. The key it settles on is a parameter, and so is the `suggestionCount`
  setting.
- `createFile` / `fs.writeFile` and `copyTextToClipboard` are left out. The model
  computes the path and the content (`CreateType`) or the copied text
  (`ClipboardType`).
- The `if (!editor) return` guards in `createType`/`clipboardType` are left out:
  the commands are modelled for a document that exists.
- `getDocumentText` is left out. The document text is a parameter.
- `out/extension.js` is the compiled form of `src/extension.ts` and is modelled
  once, through the TypeScript.
- The network is left out. `axios.post` is a script of outcomes. A reply is
  reduced to the `message.content` of its choices. A reply with no `data` or no
  `choices` is an empty list of contents.
- Sleeping is left out. A wait is only recorded, as an event with its length.
- The grammar of `JSON.parse` is left out. It is a parameter, and only the value's
  shape (string, array, other) is seen.
- `extractRetryAfterTime` appears twice, at
  src/VariableNameSuggesterViewProvider.ts:223-227 and src/nameGPT.ts:168-172.
  The two copies are identical and are modelled once, as
  `Api.ExtractRetryAfterTime`.
- Characters are Unicode scalar values, while JavaScript strings are UTF-16 code
  units. Texts with characters outside the Basic Multilingual Plane may differ in
  length and indexing.
- Paths are split on `/` only, as `getFilePath` does. A Windows path such as
  `C:\d\x.scss` has no `/`, so its folder is empty and the declaration goes to
  `"/C:\d\x.d.ts"` with type name `C:\d\x`. The model keeps this behaviour
  (`DeclarationPathWithoutFolder`, `CreateTypePath`) rather than correcting it.
- Api.ExtractRetryAfterTime: the value is an exact integer. `parseInt` returns a
  double, so digit runs beyond 2^53 lose precision, and very long runs give
  `Infinity`, which `isNaN` lets through. Neither is modelled.
- Api.WaitFor: the recorded wait is the value `extractRetryAfterTime` returns.
  The real sleep is `setTimeout(…, waitTime * 1000)`, which treats a delay below
  1 ms or above 2^31-1 ms as 1 ms. So `"-3"` or a very large header gives a wait
  of about 1 ms. That clamping is not modelled.
- Sidebar.SuggesterView.GetSuggestions: `count` is an integer, so the NaN count
  from `parseInt(data.count)` of a non-numeric webview value is not modelled
  (`slice(0, NaN)` would give an empty list).
- Sidebar.Answer: a `message.content` that is not a string (a `TypeError` from
  `trim`) is not modelled. Contents are strings.
- Sidebar.Answer: a thrown value that is not an `Error` (the "An unexpected error
  occurred" branch of `handleError`) cannot arise in the model. Every failure is
  an axios error or one of the model's own failures.
- QuickPick.GetSuggestionsWithRetry: a `message.content` that is not a string (a
  `TypeError` from `split`, rethrown at src/nameGPT.ts:158-159) is not modelled.
  Contents are strings.
- QuickPick.GetSuggestionsWithRetry: the non-`Error` branch ("An unexpected error
  occurred", src/nameGPT.ts:160-161) cannot arise, for the same reason.
- QuickPick.SuggestionCount: the setting is an integer or unset. A `NaN`, `null`
  or non-numeric value, which `|| 5` would also replace or keep, is not modelled.
