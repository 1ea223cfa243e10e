# Resume-to-Hire platform core, modelled in Dafny

The platform is a Next.js application. It has six small pieces of logic
that decide what a user sees:

- `applyUpdate` in `lib/ai/morph.ts` sends a file and an update snippet to a
  merge service. If the call fails, it appends the snippet to the file as
  comments.
- `generateDiffPreview`, in the same file, compares the original and merged
  texts line by line by position. It turns the lines that differ into
  `- ` and `+ ` records, keeps the last 25, and puts a summary line above
  them: `N additions, M deletions`.
- The `DiffView` component re-splits a stored preview, shows its last 25
  lines, and colours each line by its first character.
- `analyzeResume` in `lib/ai/claude.ts` trims the model's reply and removes
  a markdown code fence. It then validates the parsed object, defaults a
  missing or zero soft-skills score to 65, and replaces any failure with a
  fixed payload.
- The `Terminal` component keeps a log buffer. Each append keeps the last
  50 earlier entries and adds the new one. The clear button empties the
  buffer, and mounting logs two system lines.
- The status route reports each service as connected when its environment
  variable is set, non-empty and not the placeholder.

The model is written with immutable datatypes and pure functions. The
comparison loop is a method whose loop invariants tie it to the functional
definition. External calls enter as parameters:
- The merge service's answer is a `ServiceOutcome`.
- The Anthropic SDK's answer is a `ModelReply`.
- `JSON.parse` with the schema's type checks is a parser function from
  text to an optional object.
- The environment is an `Environment` value.

Modules, one per source file, with `generateDiffPreview` in a module of its
own, plus three helper modules:

| module | file | models |
|---|---|---|
| `Wrappers` | wrappers.dfy | `Option` |
| `Lines` | lines.dfy | JavaScript `split` on one character, `join`, `slice(-n)` |
| `Decimal` | decimal.dfy | how a counter is printed inside a template string |
| `DiffPreview` | diff_preview.dfy | `generateDiffPreview` |
| `Morph` | morph.dfy | `applyUpdate` |
| `DiffView` | diff_view.dfy | the `DiffView` component |
| `ClaudeAnalysis` | claude_analysis.dfy | `analyzeResume` without the SDK call |
| `Terminal` | terminal.dfy | the log buffer of the `Terminal` component |
| `Status` | status.dfy | the status route's key check |

Design points:
- A diff record keeps the line index that produced it. The index is not
  rendered. It lets the contracts state order and faithfulness.
- `Records(originalLines, mergedLines, k)` concatenates what each index
  below `k` emits. The facts about position, order, counting and emptiness
  are proved once for any concatenation of chunks (`Flatten`) and any
  counted property (`Tally`), then instantiated.
- White space for `trim` and for the regular expression class `\s` is the
  exact set of code points that ECMAScript's WhiteSpace and LineTerminator
  productions define.
- `replace(/\s*```$/, '')` removes the leftmost match. The model proves
  that no match starts earlier than the point where the stripped text
  ends.

Two behaviours of the code deserve a note:
- An empty or missing completion is replaced by the original
  (`content || original`, lib/ai/morph.ts:45). The preview then reads "No
  changes detected", and the fallback is not taken.
  `Morph.EmptyCompletionKeepsOriginal` states this.
- The Terminal comment says "Keep last 50 logs" (components/Terminal.tsx:55).
  The buffer keeps the last 50 earlier entries plus the new one, so it holds
  up to 51 entries. The model's `Capacity` is 51.

## Model

| member | source | states |
|---|---|---|
| `DiffPreview.GenerateDiffPreview` | lib/ai/morph.ts:67-105 | The imperative preview (split, comparison loop, truncation, rendering) equals the functional `Preview` of the two texts. |
| `DiffPreview.CompareAll` | lib/ai/morph.ts:76-96 | The loop up to the longer line count pushes exactly the records of every index in order. The two counters equal the numbers of addition and removal records. |
| `DiffPreview.CompareLines` | lib/ai/morph.ts:82-95 | For one pair of lines, a removal is counted exactly when the original line is non-empty and differs. An addition is counted exactly when the merged line is non-empty and differs. One record is pushed per count: the removal, carrying the original line, comes first, and the addition, carrying the merged line, comes last. |
| `DiffPreview.LineOutcomeIsRecordsAt` | lib/ai/morph.ts:82-95 | What the loop body pushes and counts for one index is exactly that index's records in the reference list, and each counter counts the records of its kind. |
| `DiffPreview.CompareIndex` | lib/ai/morph.ts:79-95 | One pass of the loop, with missing lines read as empty, extends the records of the indices below `i` by those of index `i`. Both counters keep matching the record counts. |
| `DiffPreview.DiffOrder` | lib/ai/morph.ts:78-96 | Every record carries its own index's line. That line is non-empty and differs from the other side. Indices never decrease. Every index that removes or adds a line has its record. Where both sides are non-empty and differ, the removal is immediately followed by the addition. |
| `DiffPreview.DiffCounts` | lib/ai/morph.ts:72-96 | The removal count is the number of indices whose original line is non-empty and differs. The addition count is the same for merged lines. The full list has one record per counted change. |
| `DiffPreview.NoChangesIff` | lib/ai/morph.ts:76-104 | The preview is "No changes detected" exactly when the two texts' padded lines agree at every index. |
| `DiffPreview.PreviewOfSameText` | lib/ai/morph.ts:82-104 | Comparing a text with itself reports no changes. |
| `DiffPreview.PreviewIgnoresTrailingNewline` | lib/ai/morph.ts:68-82 | A trailing newline added to a text is no change: the extra empty last line reads the same as a missing line. |
| `DiffPreview.RenderPreviewPieces` | lib/ai/morph.ts:98-104 | Split back on newlines, a non-empty rendering of single-line records is its summary line followed by the rendered kept records. The newlines added by the rendering are the only line breaks. |
| `DiffPreview.PiecesLayout` | lib/ai/morph.ts:99-103 | Those lines are the summary, then the last min(25, n) records in order, each starting with `+ ` or `- `. |
| `DiffPreview.PreviewLayout` | lib/ai/morph.ts:98-104 | The same layout for the preview of two texts. The summary counts the whole untruncated list, not only the 25 kept records. |
| `DiffPreview.ChangedLineScenario` | lib/ai/morph.ts:89-100 | Replacing the second of two lines yields "1 additions, 1 deletions", then `- b`, then `+ x`. |
| `Decimal.ParseNatToString` | lib/ai/morph.ts:100 | A counter printed in the summary reads back as the same number. |
| `Lines.SplitCount` | lib/ai/morph.ts:68-69 | `split('\n')` yields one more piece than the text has newlines. |
| `Lines.JoinSplit` | lib/ai/morph.ts:58 | Joining the pieces of a split with the same separator restores the text. |
| `Morph.BuildRequest` | lib/ai/morph.ts:26-37 | The model setting is used when non-empty, else `morph-pro-apply`. The prompt starts with the original text. |
| `Morph.PromptLines` | lib/ai/morph.ts:30-33 | The prompt's lines are the original's lines, `<update>`, the snippet's lines, then `</update>`. |
| `Morph.ApplyUpdate` | lib/ai/morph.ts:12-65 | On a completed call, a non-empty completion becomes the merged text, and otherwise the original is kept; the preview diffs the original against it. On a failed call, the merged text is exactly the fallback text (the original, a blank line, the TODO marker, the commented snippet), and the preview is the fixed fallback preview. |
| `Morph.EmptyCompletionKeepsOriginal` | lib/ai/morph.ts:44-48 | A missing or empty completion returns the original unchanged with the preview "No changes detected". It does not take the fallback. |
| `Morph.FallbackMerged` | lib/ai/morph.ts:57-58 | The fallback merged text starts with the original. |
| `Morph.FallbackLines` | lib/ai/morph.ts:57-58 | Line by line, the fallback text is: the original's lines, an empty line, the TODO marker, then every snippet line prefixed with `// `. |
| `Morph.CommentedLinesRoundTrip` | lib/ai/morph.ts:58 | The commented snippet lines contain no newline, so splitting their join returns them unchanged. |
| `Morph.FallbackPreview` | lib/ai/morph.ts:60-63 | The fallback preview is the banner, a newline and `+ `, then exactly the first min(100, n) characters of the snippet, then `...`. |
| `Morph.FallbackPreviewIgnoresOriginal` | lib/ai/morph.ts:60-63 | The fallback preview depends only on the snippet. |
| `DiffView.Classify` | components/DiffView.tsx:29-35 | A line is green exactly when it starts with `+`. It is red exactly when it starts with `-` and not `+`. Otherwise it is neutral. |
| `DiffView.Render` | components/DiffView.tsx:9-43 | Missing or empty content shows the placeholder. Otherwise the view shows the last min(25, n) lines of the split content, unchanged and in order, each classified by its first character. |
| `DiffView.ShortContentShownWhole` | components/DiffView.tsx:19-20 | Content of at most 25 lines is shown whole. |
| `DiffView.ShownTextIsSuffix` | components/DiffView.tsx:19-20 | The shown lines, joined back, are a suffix of the stored text. Only whole leading lines are dropped. |
| `DiffView.NoChangesShownNeutral` | components/DiffView.tsx:26-38 | "No changes detected" is shown as one neutral line. |
| `DiffView.ShortPreviewShown` | components/DiffView.tsx:19-35 | A preview of fewer than 25 records is shown whole. Its summary line comes first and is neutral. Each record line is coloured by its change. |
| `DiffView.FullPreviewDropsSummary` | components/DiffView.tsx:19-35 | A preview that kept 25 records loses its summary in the view. All 25 shown lines are records, coloured by their change. |
| `ClaudeAnalysis.TrimStartSpec` | lib/ai/claude.ts:51 | Trimming the start drops only white space and stops at the first other character. |
| `ClaudeAnalysis.TrimEndSpec` | lib/ai/claude.ts:51 | Trimming the end drops only white space and stops at the last other character. |
| `ClaudeAnalysis.Trim` | lib/ai/claude.ts:51 | The trimmed reply is a slice of the reply with only white space around it. It neither starts nor ends with white space. |
| `ClaudeAnalysis.TrimIdempotent` | lib/ai/claude.ts:51 | Trimming twice is trimming once. |
| `ClaudeAnalysis.StripLeadingFence` | lib/ai/claude.ts:54-57 | Removing an opening fence drops the fence and the white space after it, and nothing else. The rest does not start with white space. |
| `ClaudeAnalysis.StripTrailingFence` | lib/ai/claude.ts:55-57 | When the text ends with a fence, the result is a prefix that is followed only by white space and that fence. Otherwise the text is unchanged. |
| `ClaudeAnalysis.StripTrailingFenceIsLeftmost` | lib/ai/claude.ts:55-57 | No match of the closing-fence pattern starts before the end of the stripped text, so the leftmost match is the one removed. |
| `ClaudeAnalysis.UnfencedReplyOnlyTrimmed` | lib/ai/claude.ts:51-58 | A reply whose trimmed text does not start with a fence is parsed exactly as trimmed. |
| `ClaudeAnalysis.FencedReplyIsInner` | lib/ai/claude.ts:51-58 | For a fenced reply, the parsed text is a slice of the trimmed reply that starts after the opening fence. |
| `ClaudeAnalysis.FencedReplyIsBody` | lib/ai/claude.ts:51-58 | A fenced body, with any white space inside and around the fences, reaches the parser as exactly the body. |
| `ClaudeAnalysis.Validate` | lib/ai/claude.ts:8-15 | The object is accepted exactly when no field has the wrong type and every present score lies in [0, 100]. `skills` defaults to the empty list. Name, email, both scores and explanations are passed through as parsed, absent fields becoming `None`. Accepted scores lie in range. |
| `ClaudeAnalysis.DefaultSoftSkills` | lib/ai/claude.ts:63-66 | A missing or zero soft-skills score becomes 65. A present non-zero score and every other field are kept. |
| `ClaudeAnalysis.AnalyzeResume` | lib/ai/claude.ts:19-85 | The result always has a non-zero soft-skills score in [0, 100], and any overall score is in range. A failed call, non-text content or an unparsable reply gives the failure payload. |
| `ClaudeAnalysis.AnalysisSucceeds` | lib/ai/claude.ts:59-68 | On a valid object, every field comes through. `skills` defaults to the empty list, and the soft-skills score becomes 65 when missing or zero. |
| `ClaudeAnalysis.InvalidObjectFails` | lib/ai/claude.ts:59-84 | A mistyped field or an out-of-range score gives the failure payload. |
| `Terminal.AddLog` | components/Terminal.tsx:47-56 | An append keeps the last min(n, 50) earlier entries in order and puts the new entry last. Below 50 entries nothing is dropped. |
| `Terminal.AddLogIsWindow` | components/Terminal.tsx:55 | One append keeps the last 51 entries of the old buffer extended by the new entry. |
| `Terminal.AddLogsIsWindow` | components/Terminal.tsx:55 | After one or more appends, the buffer is the last 51 entries of its old contents followed by everything appended: a sliding window over the log history. |
| `Terminal.HistoryFromEmpty` | components/Terminal.tsx:32-55 | From an empty buffer, a history of at most 51 entries is kept whole. A longer one loses its oldest entries. |
| `Terminal.MountFromEmpty` | components/Terminal.tsx:58-62 | Mounting on an empty buffer leaves exactly the two system lines, the initialisation line first. |
| `Terminal.ClearForgetsHistory` | components/Terminal.tsx:70 | After a clear, the buffer holds only what was logged since. Nothing from before the clear survives. |
| `Status.KeyState` | app/api/status/route.ts:11-13 | A service is connected exactly when its variable is present, non-empty and not the placeholder. |
| `Status.CheckStatus` | app/api/status/route.ts:3-16 | Each of the three reported states is connected exactly when its own variable passes that check: `YOUR_KEY` for the two keys, `YOUR_TOKEN` for the token. |
| `Status.StatesAreIndependent` | app/api/status/route.ts:10-14 | Each service's state depends only on its own variable. |
| `Status.PlaceholdersDiffer` | app/api/status/route.ts:11-13 | Each check rejects only its own placeholder, so the token placeholder passes the key checks and the key placeholder passes the token check. |

## Left out

- The HTTP request to the merge service (URL, headers, `Authorization`
  bearer key, `HTTP-Referer`, `X-Title`, `temperature: 0.1`) is not
  modelled, because it is network I/O. Its result enters as a
  `ServiceOutcome`. `ChatRequest` keeps only the model, the prompt and
  `max_tokens`.
- The Anthropic SDK call is not modelled, for the same reason. That
  includes the prompt text, the model name and `max_tokens`. The reply
  enters as a `ModelReply`, and the thrown error of an empty content array
  is folded into `RequestFailed`.
- `JSON.parse` and zod's type checks are abstracted as a parser parameter
  that reports each field as missing, present or mistyped, because both
  are foreign library code. Numbers are reals, and NaN and infinities are
  not modelled.
- `console.error` logging is left out; it has no effect on results.
- JavaScript strings are sequences of UTF-16 code units. The model uses
  Dafny characters, so `slice(0, 100)` and `trim` act on characters. The
  two agree for text inside the Basic Multilingual Plane.
- The status route's `catch` branch is left out, because nothing inside
  its `try` can throw. `NextResponse` is left out as framework code.
- The Terminal's log ids (`Math.random`), timestamps, the global
  `window.addTerminalLog` registration and its cleanup, auto-scroll, the
  minimised state and all markup are left out. They are randomness, clocks
  or UI. Service and level are enumerations: the source casts arbitrary
  strings with `as any`.
- The DiffView markup, class names and header text are left out as
  presentation. Only the placeholder, the kept lines and their colour
  class are modelled.
- lib/ai/freestyle.ts and the API routes that call these functions are not
  part of this model.
- `ClaudeAnalysis.FencedReplyIsBody` covers only a bare ```` ``` ```` fence
  followed by white space. Without that white space, a body starting with
  `json` would be read as the ```` ```json ```` fence.
  `ClaudeAnalysis.FencedReplyIsInner` covers the general case.
- `Terminal.ClearLogs` states only that the buffer is empty afterwards.
  What follows a clear is stated by `Terminal.ClearForgetsHistory`.
