# basechat Slack reply pipeline — a Dafny model

This project models the deterministic core of basechat's Slack integration and
its model catalogue:

- **`SlackMarkdown`** (`markdown.dfy`) covers `convertMarkdownToSlack`. It runs
  three global, non-greedy regular-expression replacements in sequence:
  `**x**` → `*x*`, then `__x__` → `*x*`, then `~~x~~` → `~x~`.
  - One replacement is modelled as a left-to-right scan, `RewritePairs`.
  - A pair of doubled markers is rewritten only when the closer is on the
    same line as the opener. JavaScript's `.` matches no `\n`, `\r`,
    U+2028 or U+2029.
  - Each pass works on the previous pass's output.
- **`SlackReply`** (`slack_reply.dfy`) covers two functions:
  - `formatMessageWithSources`, as a method with the source's loop. The loop
    appends one citation bullet per index that names a source and counts
    them. A placeholder line follows when none did.
  - `shouldReplyToMessage`. The question classifier `isQuestion` is a
    function parameter.
- **`CloudTasksRoute`** (`cloud_tasks.dfy`) covers `verifyCloudTasksRequest` and
  the status decision of the Cloud Tasks callback `POST`:
  - 401 when a Cloud Tasks header is missing or empty;
  - 400 when there is no truthy `event`;
  - 200 when the handler returns;
  - 500 when parsing or the handler throws.

  The Slack event handler is a parameter that either completes or throws.
- **`LlmModels`** (`llm_models.dfy`) covers the derived values of
  `PROVIDER_CONFIG`:
  - `ALL_VALID_MODELS`;
  - `getDisabledModels` and `getEnabledModelsFromDisabled`;
  - `getProviderForModel`;
  - `LLM_LOGO_MAP` and `LLM_DISPLAY_NAMES`.

  Each function takes the provider table as an argument, so its lemmas hold
  for any table whose keys are distinct. A provider keyed by the empty
  string is falsy in the code, so a model it lists is treated as having no
  provider. Separate lemmas evaluate the shipped table.
- **`Wrappers`** (`wrappers.dfy`) holds the `Option` type, which stands for
  JavaScript's `undefined`/`null`, and the truthiness of an optional string.

## Behaviour worth knowing

- **Converter passes.** Each pass works on the output of the one before.
  `**__a__**` becomes `**a**` (`ConvertIsSequential`).
- **Out-of-range citations.** An index that names no source is skipped, and
  the other sources are not listed in its place. When no index names a
  source, the placeholder line `• _No sources available_` is printed.
  - So `**Hi**` citing index 5 of a one-element source list gives the header
    and the placeholder (`FormattedOutOfRangeExample`), not a bullet for the
    one source.
- **Header with no sources.** The `:books: *Sources:*` header is appended
  whenever the index list is non-empty, even when the source list is empty
  (`FormattedWithoutSources`).
- **Ragie URL.** `ragieSourceUrl` is used verbatim as the link target.

## Model

| member | source | states |
|---|---|---|
| SlackMarkdown.FindCloser | app/api/slack/utils.ts:109 | the lazy group of an opener ends at a position from which a whole closer fits in the text |
| SlackMarkdown.FindCloserIsEarliest | app/api/slack/utils.ts:109 | the closer matched is the earliest `dd` with no line terminator before it; no match exactly when every later `dd` is preceded by a line terminator |
| SlackMarkdown.RewritePairs | app/api/slack/utils.ts:109 | one global replacement `/dd(.*?)dd/g` with `out$1out`, scanned left to right; it never lengthens the text (exact effect in `RewriteLength`, `FindCloserIsEarliest`) |
| SlackMarkdown.SpanCount | app/api/slack/utils.ts:109 | the number of spans one replacement rewrites; each takes at least four characters of the text |
| SlackMarkdown.Convert | app/api/slack/utils.ts:105-114 | `convertMarkdownToSlack` runs the three replacements in order; the result is never longer than the text, and differs from it exactly when it is shorter |
| SlackMarkdown.RewriteWithoutPairs | app/api/slack/utils.ts:109-113 | a replacement leaves text with no doubled marker unchanged |
| SlackMarkdown.RewriteLength | app/api/slack/utils.ts:109-113 | each rewritten span shortens the text by exactly two; the text is unchanged exactly when no span was rewritten |
| SlackMarkdown.RewriteVerbatimPrefix | app/api/slack/utils.ts:109-113 | text before the first marker character is copied and the scan continues after it |
| SlackMarkdown.RewriteWithoutMarker | app/api/slack/utils.ts:109-113 | text without the marker character is unchanged |
| SlackMarkdown.RewriteSpan | app/api/slack/utils.ts:109-113 | a one-line `ddxdd` whose content has no marker becomes `out x out`, and the scan resumes after the closer |
| SlackMarkdown.RewriteSpanAfter | app/api/slack/utils.ts:109-113 | the same, after a marker-free prefix |
| SlackMarkdown.RewriteLoneMarker | app/api/slack/utils.ts:109-113 | a single marker not followed by another is copied |
| SlackMarkdown.RewriteOneSpan | app/api/slack/utils.ts:109-113 | one span between plain texts is rewritten and the plain texts are kept |
| SlackMarkdown.RewriteKeepsSingleMarkers | app/api/slack/utils.ts:111 | two single markers around non-empty text do not form a span |
| SlackMarkdown.RewriteTwoSpans | app/api/slack/utils.ts:109-113 | the replacement is global: two spans on a line are both rewritten |
| SlackMarkdown.FindCloserAppendUnmarked | app/api/slack/utils.ts:109-113 | appending marker-free text changes no closer search |
| SlackMarkdown.RewriteAppendUnmarked | app/api/slack/utils.ts:109-113 | the replacement of `s + t`, with `t` free of the marker, is the replacement of `s` followed by `t` |
| SlackMarkdown.RewriteFinalSpan | app/api/slack/utils.ts:109-113 | a span at the end of the text is rewritten |
| SlackMarkdown.ConvertPlainText | app/api/slack/utils.ts:105-114 | text with none of `**`, `__`, `~~` is returned unchanged |
| SlackMarkdown.ConvertUnmarked | app/api/slack/utils.ts:115-116 | text without `*`, `_`, `~` (such as inline code) is returned unchanged |
| SlackMarkdown.ConvertLength | app/api/slack/utils.ts:105-114 | the output is never longer than the input, and is shorter by two per span rewritten in each pass |
| SlackMarkdown.ConvertKeepsItalic | app/api/slack/utils.ts:115 | `_x_` italics pass through unchanged |
| SlackMarkdown.ConvertOneBold | app/api/slack/utils.ts:109 | `**x**` becomes `*x*` |
| SlackMarkdown.ConvertTwoBoldSpans | app/api/slack/utils.ts:109 | every `**x**` on a line becomes `*x*`, several per line |
| SlackMarkdown.ConvertTwoAltBoldSpans | app/api/slack/utils.ts:111 | every `__x__` on a line becomes `*x*` |
| SlackMarkdown.ConvertStrikeSpan | app/api/slack/utils.ts:113 | `~~x~~` becomes `~x~` with the surrounding text kept |
| SlackMarkdown.ConvertMixedSpans | app/api/slack/utils.ts:105-114 | bold, alternate-bold and strikethrough spans in one text are each rewritten by their own pass |
| SlackMarkdown.ConvertIsSequential | app/api/slack/utils.ts:107-113 | the passes run on each other's output: `**__x__**` becomes `**x**` |
| SlackMarkdown.ConvertIsSequentialExample | app/api/slack/utils.ts:107-113 | `**__a__**` becomes `**a**` |
| SlackMarkdown.ConvertBoldExample | app/api/slack/utils.spec.ts:135-139 | the bold example of the test suite |
| SlackMarkdown.ConvertAltBoldExample | app/api/slack/utils.spec.ts:141-145 | the alternate-bold example of the test suite |
| SlackMarkdown.ConvertStrikeExample | app/api/slack/utils.spec.ts:147-151 | the strikethrough example of the test suite |
| SlackMarkdown.ConvertItalicExample | app/api/slack/utils.spec.ts:153-157 | the italic example is unchanged |
| SlackMarkdown.ConvertCodeExample | app/api/slack/utils.spec.ts:159-163 | the inline-code example is unchanged |
| SlackMarkdown.ConvertMixedExample | app/api/slack/utils.spec.ts:165-169 | the mixed-formatting example of the test suite |
| SlackReply.LastSlash | app/api/slack/utils.ts:138 | the position found holds a slash and no slash follows it |
| SlackReply.LastSegment | app/api/slack/utils.ts:138 | `split("/").pop()` is a slash-free suffix of the URL, preceded by a slash unless it is the whole URL |
| SlackReply.LastSegmentAfterSlash | app/api/slack/utils.ts:138 | the last segment of `a/b`, with `b` slash-free, is `b` |
| SlackReply.DisplayName | app/api/slack/utils.ts:138 | the link text is never empty: `documentName` if non-empty, else the URL's last segment if non-empty, else `Document` |
| SlackReply.LinkUrl | app/api/slack/utils.ts:139 | the link target is never empty: `source_url`, else `ragieSourceUrl`, else `#` |
| Wrappers.Truthy | app/api/slack/utils.ts:138-139 | the fallback chains of the link text and target take an optional string exactly when it is present and non-empty |
| SlackReply.Bullet | app/api/slack/utils.ts:141 | each cited source adds its own bullet line, a Slack link to the URL under the source's name, at least seven characters long and ending in `>` |
| SlackReply.CitedCount | app/api/slack/utils.ts:132-148 | `sourcesAdded` after the loop; never more than the number of indexes |
| SlackReply.Citations | app/api/slack/utils.ts:134-148 | the text the loop appends: empty when no index names a source, and at least one link line per index that does |
| SlackReply.FormattedReply | app/api/slack/utils.ts:120-159 | the reply starts with the converted message, and is exactly that message when the index list is absent or empty |
| SlackReply.FormatMessageWithSources | app/api/slack/utils.ts:120-159 | the loop's result is the converted message, then the header, bullets and placeholder as `FormattedReply` describes them |
| SlackReply.CitationsAppend | app/api/slack/utils.ts:134-148 | bullets follow the order of the indexes, and a repeated index is cited again |
| SlackReply.CitedCountAppend | app/api/slack/utils.ts:142 | the bullet counts of two index lists add up |
| SlackReply.CitationsSingle | app/api/slack/utils.ts:135-147 | one index gives its source's bullet when in range and nothing otherwise |
| SlackReply.CitationsSkipOutOfRange | app/api/slack/utils.ts:135-147 | indexes that name no source add nothing, wherever they stand |
| SlackReply.CitedCountZero | app/api/slack/utils.ts:150 | no bullet is counted exactly when no index is in range, and exactly when no bullet text was added |
| SlackReply.NoneInRange | app/api/slack/utils.ts:135-147 | with no index in range, nothing is cited |
| SlackReply.CitedCountBound | app/api/slack/utils.ts:134-148 | with an empty source list no index is in range, so no bullet is counted |
| SlackReply.CitedSources | app/api/slack/utils.ts:134-148 | the sources named by the indexes, read from the front, at most one per index |
| SlackReply.CitationsAreBulletsOfCited | app/api/slack/utils.ts:134-148 | the loop's bullets are the bullets of the named sources, and the counter is their number |
| SlackReply.FormattedWithoutIndexes | app/api/slack/utils.ts:122-158 | with no index list, or an empty one, the result is the converted message |
| SlackReply.FormattedWithIndexes | app/api/slack/utils.ts:130-153 | with indexes: converted message, header, then the bullets of the named sources, or the placeholder when none is named |
| SlackReply.FormattedWithoutSources | app/api/slack/utils.ts:130-153 | indexes against an empty source list still print the header, then the placeholder |
| SlackReply.PlaceholderIffNothingCited | app/api/slack/utils.ts:150-153 | with indexes, the reply ends with the placeholder exactly when no index names a source |
| SlackReply.CitationsEndWithBullet | app/api/slack/utils.ts:141 | non-empty citations end with a link's closing `>` |
| SlackReply.CitationOfUrl | app/api/slack/utils.ts:138-141 | a source known only by its URL is shown by the URL's last segment |
| SlackReply.FormattedOneSource | app/api/slack/utils.ts:130-147 | citing the only source gives the header and that source's bullet |
| SlackReply.FormattedExample | app/api/slack/utils.ts:120-159 | `**Hi**` citing index 0 of one source at `http://x/doc.pdf` gives `*Hi*`, the header and one bullet linking `http://x/doc.pdf` under the name `doc.pdf` |
| SlackReply.FormattedOutOfRangeExample | app/api/slack/utils.ts:120-159 | the same answer citing index 5 gives `*Hi*`, the header and the placeholder |
| SlackReply.ShouldReplyToMessage | app/api/slack/utils.ts:49-55 | the gate replies exactly when the text is non-empty and the classifier says it is a question; the classifier is consulted, once, exactly for non-empty text |
| CloudTasksRoute.AsciiLower | app/api/slack/tasks/route.ts:12-13 | header names are compared lower-cased, character by character |
| CloudTasksRoute.AsciiLowerIdempotent | app/api/slack/tasks/route.ts:12-13 | lower-casing a stored name again changes nothing |
| CloudTasksRoute.HeaderGet | app/api/slack/tasks/route.ts:12-13 | `headers.get` returns a value exactly when the lower-cased name is stored |
| CloudTasksRoute.HeaderGetIgnoresCase | app/api/slack/tasks/route.ts:12-13 | names differing only in letter case find the same header |
| CloudTasksRoute.VerifyCloudTasksRequest | app/api/slack/tasks/route.ts:9-28 | a request is verified exactly when both Cloud Tasks headers are present and non-empty |
| CloudTasksRoute.StoredQueueName | app/api/slack/tasks/route.ts:12 | the queue-name header is stored as `x-cloudtasks-queuename` |
| CloudTasksRoute.StoredTaskName | app/api/slack/tasks/route.ts:13 | the task-name header is stored as `x-cloudtasks-taskname` |
| CloudTasksRoute.VerifyDependsOnlyOnTaskHeaders | app/api/slack/tasks/route.ts:15-23 | verification has no condition beyond the two headers |
| CloudTasksRoute.EventOf | app/api/slack/tasks/route.ts:40 | destructuring gives an event exactly for an object that holds an `event` property |
| CloudTasksRoute.TruthyJson | app/api/slack/tasks/route.ts:42 | `!event` tests JavaScript truthiness of the parsed value: `null`, `false`, `0` and `""` are falsy, arrays and objects truthy |
| CloudTasksRoute.SuccessBody | app/api/slack/tasks/route.ts:49 | the success body is an object whose only property is a truthy `success` |
| CloudTasksRoute.ErrorBody | app/api/slack/tasks/route.ts:36-52 | an error body is an object whose only property is `error`, holding the message, and it never equals the success body |
| CloudTasksRoute.Post | app/api/slack/tasks/route.ts:30-54 | 401 exactly when unverified, and then the body is not read and the handler not called; 400 exactly for a missing or falsy event, without a handler call; the handler is called once with the event exactly when it is truthy; 200 with `{success: true}` exactly when the handler returns; 500 otherwise |
| CloudTasksRoute.UnverifiedIgnoresBody | app/api/slack/tasks/route.ts:32-37 | an unverified request gets the same answer whatever its body and handler |
| CloudTasksRoute.FailuresGive500 | app/api/slack/tasks/route.ts:39-53 | an unparsable or `null` body, or a throwing handler, gives 500 |
| CloudTasksRoute.HandledEventExample | app/api/slack/tasks/route.ts:30-49 | a task with both headers and an object event is handled once and answered 200 |
| LlmModels.AllModels | lib/llm/types.ts:92 | `flatMap` over the providers' model lists; every model it yields is listed by some provider |
| LlmModels.AllValidModels | lib/llm/types.ts:92 | `ALL_VALID_MODELS` of the shipped table; every valid model is listed by a shipped provider |
| LlmModels.AllModelsMembership | lib/llm/types.ts:92 | a model is valid exactly when some provider lists it |
| LlmModels.AllModelsAppend | lib/llm/types.ts:92 | the valid models follow the providers' order |
| LlmModels.AllValidModelsValue | lib/llm/types.ts:4-92 | with the shipped table the valid models are exactly `claude-sonnet-4-20250514` |
| LlmModels.Filter | lib/llm/types.ts:109-118 | a filter is never longer than its input |
| LlmModels.FilterSpec | lib/llm/types.ts:109-118 | a filter keeps the input order and each element passing the test as often as it occurs, and drops every other element |
| LlmModels.DisabledModels | lib/llm/types.ts:104-110 | no list gives none; every disabled model is valid and listed |
| LlmModels.EnabledModels | lib/llm/types.ts:113-119 | a missing or empty list enables all valid models; every enabled model is valid and not listed |
| LlmModels.DisabledModelsSpec | lib/llm/types.ts:108-109 | the disabled models are the valid listed ones, in list order and with the list's repetitions |
| LlmModels.EnabledModelsSpec | lib/llm/types.ts:113-119 | the enabled models are the valid models the list does not name, in catalogue order, each appearing as often as the catalogue lists it |
| LlmModels.EnabledDisabledPartition | lib/llm/types.ts:104-119 | for the same input, each valid model is either enabled or disabled, never both |
| LlmModels.FirstProviderWith | lib/llm/types.ts:126-131 | the provider found lists the model |
| LlmModels.FirstProviderIsFirst | lib/llm/types.ts:126-131 | no earlier provider lists the model, and none is found exactly when no provider lists it |
| LlmModels.ProviderForModel | lib/llm/types.ts:121-132 | only a valid model has a provider |
| LlmModels.ProviderForModelSpec | lib/llm/types.ts:121-132 | a provider is returned exactly for valid models, and it is the first in table order to list the model |
| LlmModels.ValidationIsRedundant | lib/llm/types.ts:123-131 | the validation step excludes nothing the search would have found |
| LlmModels.ProviderNamed | lib/llm/types.ts:140 | the entry found by a key is in the table under that key |
| LlmModels.ProviderNamedFinds | lib/llm/types.ts:140 | with distinct keys, looking an entry up by its key finds that entry |
| LlmModels.LogoEntry | lib/llm/types.ts:136-144 | the entry is `[model, logo]`, with an empty logo when there is no provider or its key is the falsy empty string |
| LlmModels.LogoEntryOfProvider | lib/llm/types.ts:138-143 | for a provider with a non-empty key, the logo is the model's own non-empty logo, else the provider's logo; for the key `""` it is empty |
| LlmModels.DisplayName | lib/llm/types.ts:148-159 | a model with no provider, or a provider keyed by the falsy empty string, is shown by its own name |
| LlmModels.DisplayNameOfProvider | lib/llm/types.ts:150-157 | for a provider with a non-empty key, the display name is the provider's non-empty name for the model, else the model itself; for the key `""` it is the model |
| LlmModels.LogoMap | lib/llm/types.ts:135-145 | the logo table has exactly the valid models as keys, each entry starting with its key |
| LlmModels.DisplayNames | lib/llm/types.ts:147-160 | the display-name table has exactly the valid models as keys |
| LlmModels.SingleModelTables | lib/llm/types.ts:135-160 | with one valid model, each table has exactly that model's entry |
| LlmModels.ShippedProviders | lib/llm/types.ts:4-65 | `PROVIDER_CONFIG` has the keys openai, google, anthropic and groq in that order, and only anthropic lists a model, `claude-sonnet-4-20250514` |
| LlmModels.ShippedNamesDistinct | lib/llm/types.ts:4-65 | the shipped provider keys are distinct and non-empty |
| LlmModels.DefaultModelProvider | lib/llm/types.ts:84-132 | the default model and the default naming model belong to the default provider |
| LlmModels.UnlistedModelHasNoProvider | lib/llm/types.ts:121-125 | `gpt-4o` has a logo and a display name but no provider, because no provider lists it |
| LlmModels.ShippedLogoMap | lib/llm/types.ts:135-145 | the shipped logo table maps `claude-sonnet-4-20250514` to itself and `/anthropic.svg` |
| LlmModels.ShippedDisplayNames | lib/llm/types.ts:147-160 | the shipped display-name table maps `claude-sonnet-4-20250514` to `Claude 4 Sonnet` |

## Left out

- `slackSignIn` and `createSlackClient` (app/api/slack/utils.ts:19-47) are not modelled. They are database lookups and inserts through service functions, plus a Slack Web API call; those service functions are not part of this model.
- The LLM prompts are not modelled: `isQuestion` and `isAnswered` with their Handlebars templates and `generateObject` calls (app/api/slack/utils.ts:57-100). `isQuestion` appears only as the function parameter of `ShouldReplyToMessage`.
- SlackReply.ShouldReplyToMessage: does not model a classifier call that rejects, because the classifier is an abstract total function.
- `console.log`, `console.warn` and `console.error` calls are left out. They are logging only.
- SlackReply.FormatMessageWithSources: indexes are integers. A non-integer number used as an index, or an array element that is itself falsy, is not modelled. The `sources` list is always present; an undefined `sources` with non-empty indexes, which would throw, is not modelled.
- Parsing JSON (`request.json()`) and building the `NextResponse` are abstract. A body is either unparsable or a parsed JSON value, and a response is a status with a JSON body.
- The Slack event handler `handleSlackEvent` is abstract: it either completes or throws.
- CloudTasksRoute.VerifyCloudTasksRequest: does not model the `catch` branch of the verifier, because reading a header cannot throw in this model.
- CloudTasksRoute.EventOf: properties inherited through the prototype chain are not modelled. Only own properties of a parsed object are looked up, as the request body is plain JSON.
- The Fetch `Headers` object is a map from lower-case names to values. Joining repeated headers with `, ` is not modelled.
- lib/server/cloud-tasks.ts (task creation through Google Cloud Tasks, its cached client, base64 encoding and environment checks) is not part of this model.
- The zod schemas of lib/llm/types.ts (lines 95 and 101) are modelled only as membership in the valid models. `SPECIAL_LLAMA_PROMPT` and `KIMI_K2_PROMPT` are prompt text and are not modelled.
- Strings are sequences of Unicode scalar values, not JavaScript's UTF-16 code units. The results agree on well-formed text, because the markers, the line terminators and `/` are single code units. Lone surrogates cannot be represented, and the lengths in `ConvertLength`, `RewriteLength` and `Convert` count characters, not code units.
- The remaining files (the build configuration, UI components, pages and the document-source route) are outside the core and are not modelled.
