# AI characters debate: a verified model of its core logic

This project models the parts of the AI characters debate application that hold real logic. It states and proves their properties in Dafny. The application puts two AI characters in a debate, voices them with a text-to-speech service, and feeds an "AI news anchor" from a queue of curated news stories.

The modules follow the application's own files:

| module | file | what it models |
|---|---|---|
| `NewsQueue` | `src/lib/news-queue.ts` | the news queue class: JSON and CSV loading and normalisation, the fallback item, used-id bookkeeping with its storage mirror, the in-place Fisher–Yates shuffle, handing out and removing items |
| `StoryFilter` | `src/lib/story-filter.ts` | validation of a language model's relevance verdict, and the `filterStories` pipeline (NSFW drop, threshold, sort, slice) |
| `NewsCsv` | `src/scripts/populate-news-database.ts` | the CSV text written from the filtered stories; a reader for that format is defined so the text can be shown to read back |
| `ApiUrl` | `src/utils/api.ts` | joining an endpoint onto the API base URL |
| `DebatePrompt` | `supabase/functions/debate/index.ts` | the system prompt, the history and the user prompt sent to the language model |
| `TextToSpeech` | `supabase/functions/text-to-speech/index.ts` | request validation, status-to-error mapping, the chunked byte-to-string loop and the Base64 answer |
| `Base64` | (the runtime's `btoa`) | Base64 encoding as in section 4 of RFC 4648, with a decoder and the round trip |
| `Wrappers` | | `Option` and `Result` |

Everything outside the program is a parameter:

- the files fetched by the queue, each given as the value the JSON parser or the CSV library produced;
- the browser's storage, which is the field `stored`;
- the random index of the shuffle, which is any index in the permitted range;
- the language model's answer for each story;
- the configured API key and base URL;
- the speech service's reply.

Two imperative parts are modelled imperatively:

- **The queue** is a class with `queue`, `usedIds` and `stored` fields. Its methods are proved against functions of the old state.
- **The chunk loop** is a method. It is proved equal to a function of the input bytes.

## Model

| member | source | states |
|---|---|---|
| `NewsQueue.NumberJson` | src/lib/news-queue.ts:105-109 | the `map` step gives one item per array element, the item at position k having id k + 1, before anything is dropped |
| `NewsQueue.WithTitle` | src/lib/news-queue.ts:110 | an item is kept exactly when it was in the input and its title is non-empty; increasing ids stay increasing |
| `NewsQueue.JsonNormalization` | src/lib/news-queue.ts:105-110 | normalised JSON ids are strictly increasing and unique; each kept item is its element with id = position + 1 and a non-empty title; every element with a title is kept |
| `NewsQueue.OccursShift` | src/lib/news-queue.ts:94 | when the text does not start with the part, the part occurs in the text exactly when it occurs in the text minus its first character |
| `NewsQueue.ContainsOccurs` | src/lib/news-queue.ts:94 | `includes` is true exactly when the part occurs at some position of the text |
| `NewsQueue.JsonLoadFacts` | src/lib/news-queue.ts:84-115 | JSON-loaded items have increasing, distinct ids; an HTML content type yields no items |
| `NewsQueue.StripQuotes` | src/lib/news-queue.ts:142-144 | stripping removes at most two characters |
| `NewsQueue.StripQuotesSlice` | src/lib/news-queue.ts:142-144 | the result is the input minus at most one leading and one trailing `"`; a lone `"` becomes empty |
| `NewsQueue.StripQuotesWrapped` | src/lib/news-queue.ts:142 | a quoted field loses exactly its wrapping quotes, whatever it contains |
| `NewsQueue.StripQuotesPlain` | src/lib/news-queue.ts:142 | a field without quotes at its ends is unchanged |
| `NewsQueue.Kept` | src/lib/news-queue.ts:139 | a record is kept exactly when it is present and its title is a string (copies and order are fixed by `KeptOne` and `KeptAppend`) |
| `NewsQueue.KeptOne` | src/lib/news-queue.ts:139 | a one-record list keeps that record exactly when it is present with a string title |
| `NewsQueue.KeptAppend` | src/lib/news-queue.ts:139 | `filter` works position by position: filtering two lists one after the other gives the two filtered lists one after the other, so every occurrence is kept or dropped on its own and order is kept |
| `NewsQueue.NormalizeCsv` | src/lib/news-queue.ts:138-146 | filtering happens before numbering, so the kept records get ids 1..n in order; each item's title and description are its record's with the wrapping quotes stripped, a missing description becoming empty |
| `NewsQueue.TrimStart` | src/lib/news-queue.ts:128 | the result is the input with its leading white space removed: a suffix not starting with white space, everything before it being white space |
| `NewsQueue.LoadCsvNews` | src/lib/news-queue.ts:117-151 | text that looks like HTML (trimmed text starting with `<`, or containing `<!DOCTYPE`) yields no items |
| `NewsQueue.CsvLoadFacts` | src/lib/news-queue.ts:117-146 | CSV-loaded items have ids i + 1 and are unique; a response that is OK, not HTML and parsed gives exactly the normalised records |
| `NewsQueue.Unused` | src/lib/news-queue.ts:154 | an item is unused exactly when its id is not in the used set; the result is a sub-multiset of the items |
| `NewsQueue.UnusedUnique` | src/lib/news-queue.ts:154 | filtering out used items cannot create a repeated id |
| `NewsQueue.Pool` | src/lib/news-queue.ts:153-161 | the pool to shuffle is drawn from the items, is never empty for a non-empty input, keeps ids unique, and holds only unused items while any are left |
| `NewsQueue.Loaded` | src/lib/news-queue.ts:49-67 | the items loading passes on (the JSON items, otherwise the CSV items) have unique ids |
| `NewsQueue.NewsQueue.constructor` | src/lib/news-queue.ts:18-24 | the queue starts empty; the used ids are the saved list, or empty when nothing is saved |
| `NewsQueue.NewsQueue.SaveUsedIds` | src/lib/news-queue.ts:26-28 | storage then holds exactly the used ids; nothing else changes |
| `NewsQueue.NewsQueue.ClearUsedIds` | src/lib/news-queue.ts:30-33 | the used ids become empty and the storage entry is removed; the queue is unchanged |
| `NewsQueue.NewsQueue.ShuffleArray` | src/lib/news-queue.ts:35-41 | for any choice of random indices, the array afterwards holds the same multiset of items |
| `NewsQueue.NewsQueue.ProcessNewsItems` | src/lib/news-queue.ts:153-164 | with unused items left, the queue is a permutation of exactly those and the used ids are unchanged; otherwise the used ids are cleared and the queue is a permutation of all items; with unique input ids, no queued id repeats or was used |
| `NewsQueue.NewsQueue.LoadNews` | src/lib/news-queue.ts:43-82 | JSON items first, then CSV items, go through `processNewsItems`; when both are empty the queue is exactly the fallback item with id 1; the queue is never left empty; a load already in progress changes nothing |
| `NewsQueue.NewsQueue.GetCurrentNews` | src/lib/news-queue.ts:166-184 | returns the head of the queue, removes exactly it, keeps the rest in order, records and saves its id; returns `None` only when the queue is empty and a load is already in progress; on an empty queue the head comes from a fresh load: it is one of the loaded items, or the fallback item when nothing loads, the queue it is taken from is a permutation of the unused loaded items (or of all of them after a reset), and the used ids are then the old ones (or none after a reset) plus the returned id; an item handed out from a fresh queue, or from a load with unused items left, has an id not among the used ids, that is, it was not handed out since the last reset |
| `NewsQueue.NewsQueue.RemoveCurrentNews` | src/lib/news-queue.ts:186-191 | drops the head of a non-empty queue, leaves an empty one empty, and never touches the used ids or storage |
| `StoryFilter.ParseTopic` | src/lib/story-filter.ts:60-62 | exactly the eight topic names are accepted, each naming its own topic |
| `StoryFilter.ParseTopics` | src/lib/story-filter.ts:59-62 | a topic array is accepted exactly when every element is a known topic name, keeping length and order |
| `StoryFilter.ValidateVerdict` | src/lib/story-filter.ts:55-66 | a verdict is accepted exactly when the score is a number in [1, 10], the topics are an array of known names, and the explanation is a string; the accepted verdict carries those values |
| `StoryFilter.AnalyzeStory` | src/lib/story-filter.ts:52-73 | success exactly for an accepted verdict; a rejected verdict fails with "Invalid response format from OpenAI", a thrown `Error` keeps its message, anything else thrown becomes "Failed to analyze story" |
| `StoryFilter.Relevant` | src/lib/story-filter.ts:86-113 | the stories kept before sorting are exactly the safe-for-work input stories with a successful analysis scoring at least the threshold, each with that analysis added (copies and order are fixed by `RelevantOne` and `RelevantAppend`) |
| `StoryFilter.RelevantOne` | src/lib/story-filter.ts:86-113 | a single story is kept, with its analysis added, exactly when it is safe for work and its analysis succeeded with a score at least the threshold |
| `StoryFilter.RelevantAppend` | src/lib/story-filter.ts:86-113 | the filters work position by position: the stories kept from two lists one after the other are those kept from each, one after the other, so each occurrence is kept on its own and input order is kept |
| `StoryFilter.Insert` | src/lib/story-filter.ts:114 | inserting into a list sorted by score keeps it sorted and adds exactly that story |
| `StoryFilter.SortByRelevance` | src/lib/story-filter.ts:114 | the result is sorted by non-increasing score and is a permutation of the input |
| `StoryFilter.SliceTo` | src/lib/story-filter.ts:115 | `slice(0, end)` is a prefix of length min(end, length), with a negative end counting back from the length |
| `StoryFilter.OutputIsAnalysedInput` | src/lib/story-filter.ts:83-113 | every output story is a safe-for-work input story whose analysis succeeded, with that score and those topics, and a score at least the threshold (7 by default) |
| `StoryFilter.OutputSorted` | src/lib/story-filter.ts:114 | the output is sorted by non-increasing relevance score |
| `StoryFilter.OutputBounded` | src/lib/story-filter.ts:83-115 | the output has at most `maxStories` stories (5 by default), and exactly as many as `slice(0, maxStories)` keeps of the relevant stories: min(maxStories, relevant) for a non-negative bound, for a negative one, all but the last -maxStories |
| `StoryFilter.PrefixIsBest` | src/lib/story-filter.ts:114-115 | a prefix of a sorted list scores at least as high as everything left out |
| `StoryFilter.OutputIsBestOfRelevant` | src/lib/story-filter.ts:114-115 | the output holds the highest-scoring of the relevant stories: with the stories left out it makes up the relevant ones, and none left out scores higher (how many are kept is stated by `OutputBounded`) |
| `NewsCsv.Escape` | src/scripts/populate-news-database.ts:18 | escaping never shortens a field |
| `NewsCsv.UnescapeEscape` | src/scripts/populate-news-database.ts:18 | undoubling the quotes recovers the original text |
| `NewsCsv.SummaryOrDefault` | src/scripts/populate-news-database.ts:18 | an empty summary becomes "No summary available", any other is kept |
| `NewsCsv.Entries` | src/scripts/populate-news-database.ts:17-19 | one entry per story, in order, holding its title and summary |
| `NewsCsv.Quoted` | src/scripts/populate-news-database.ts:18 | a field is written between double quotes |
| `NewsCsv.ExpectedRecords` | src/scripts/populate-news-database.ts:17-19 | one record per story, in order, holding its title and its summary or the default |
| `NewsCsv.ReadEscaped` | src/scripts/populate-news-database.ts:18 | an escaped field followed by its closing quote reads back as the original text, as in section 2 of RFC 4180 |
| `NewsCsv.ReadQuoted` | src/scripts/populate-news-database.ts:18 | a quoted field reads back as its text, whatever characters it holds |
| `NewsCsv.ReadRow` | src/scripts/populate-news-database.ts:18 | a row reads back as its two fields |
| `NewsCsv.ReadLines` | src/scripts/populate-news-database.ts:17-21 | a first row followed by the story rows reads back as that row's record and then one record per story |
| `NewsCsv.ContentReadsBack` | src/scripts/populate-news-database.ts:17-21 | the file reads back as the header record `title`,`content` followed, in order, by each story's title and summary (or the default) |
| `NewsCsv.EscapeCounts` | src/scripts/populate-news-database.ts:18 | escaping adds exactly one character per double quote and no line break |
| `NewsCsv.QuotedHasNoLineBreak` | src/scripts/populate-news-database.ts:18 | quoting adds no line break |
| `NewsCsv.DefaultHasNoLineBreak` | src/scripts/populate-news-database.ts:18 | the default summary adds no line break |
| `NewsCsv.RowHasNoLineBreak` | src/scripts/populate-news-database.ts:18 | a row holds no line break when its title and summary hold none |
| `NewsCsv.JoinedLineCount` | src/scripts/populate-news-database.ts:21 | joining a first row and n story rows with "\n" gives exactly n line breaks |
| `NewsCsv.LineCount` | src/scripts/populate-news-database.ts:17-21 | without line breaks inside titles or summaries, the file holds one "\n" per story, so it has stories + 1 lines |
| `ApiUrl.ApiBaseUrl` | src/utils/api.ts:6-14 | the configured value when it is non-empty, otherwise the empty same-origin base |
| `ApiUrl.EndpointPath` | src/utils/api.ts:21 | the path always starts with `/`; an endpoint starting with `/` is unchanged, any other gets `/` in front |
| `ApiUrl.GetApiUrl` | src/utils/api.ts:19-23 | the URL is the base followed by the normalised path |
| `ApiUrl.UnconfiguredBaseGivesPath` | src/utils/api.ts:6-22 | with no base configured, the URL is the normalised path |
| `ApiUrl.SameOriginIdempotent` | src/utils/api.ts:19-23 | with an empty base, applying the function to its own output changes nothing |
| `DebatePrompt.Instruction` | supabase/functions/debate/index.ts:18-22 | exactly the stance "supportive" selects the supportive instruction; any other selects the skeptical one |
| `DebatePrompt.SystemPrompt` | supabase/functions/debate/index.ts:18-32 | the prompt opens with the character line, then the stance instruction, and ends with "Current topic: " and the topic |
| `DebatePrompt.StanceChangesPrompt` | supabase/functions/debate/index.ts:18-22 | the supportive prompt differs from the prompt for any other stance |
| `DebatePrompt.History` | supabase/functions/debate/index.ts:34-37 | one assistant entry per transcript message, in order, each "Character n: text" |
| `DebatePrompt.HistoryAppend` | supabase/functions/debate/index.ts:34-37 | the history of a concatenated transcript is the concatenation of the histories |
| `DebatePrompt.UserPrompt` | supabase/functions/debate/index.ts:39-41 | a truthy last opponent message gives a rebuttal that quotes it; otherwise an opening prompt ending with the topic |
| `DebatePrompt.OpeningAndRebuttalDiffer` | supabase/functions/debate/index.ts:39-41 | the opening and the rebuttal prompts never coincide |
| `DebatePrompt.ChatRequest` | supabase/functions/debate/index.ts:51-55 | the message list is the system prompt, then the history, then the user prompt, of length messages + 2 |
| `TextToSpeech.Message` | supabase/functions/text-to-speech/index.ts:20-69 | each error the function throws carries its exact message; only the runtime's own errors carry none of the function's |
| `TextToSpeech.Validate` | supabase/functions/text-to-speech/index.ts:17-28 | a body that is not JSON, a text that is not a string, an empty text, or a missing or empty key each give their error; validation passes exactly for a non-empty text and a non-empty key |
| `TextToSpeech.StatusError` | supabase/functions/text-to-speech/index.ts:50-61 | no error exactly for a 2xx status; 401 is an invalid key, 429 the rate limit, any other status an error carrying the body |
| `TextToSpeech.BinaryString` | supabase/functions/text-to-speech/index.ts:72-79 | the binary string has one character per byte, character k having code bytes[k] |
| `TextToSpeech.BinaryStringAppend` | supabase/functions/text-to-speech/index.ts:72-79 | converting two pieces and joining them equals converting the whole, so chunking does not change the result |
| `TextToSpeech.Btoa` | supabase/functions/text-to-speech/index.ts:81 | the encoding has 4 characters per started group of 3 bytes |
| `TextToSpeech.ChunkedBinaryString` | supabase/functions/text-to-speech/index.ts:72-79 | the chunked loop builds exactly the binary string of all bytes; its chunks are non-empty, at most 32768 bytes, and tile [0, length) without gap or overlap |
| `TextToSpeech.HandleRequest` | supabase/functions/text-to-speech/index.ts:16-103 | the handler with its chunked loop answers exactly `Respond`, the response as a function of the request, the key and the service reply; what that response is, is stated by `InvalidRequestNeverCallsService`, `FailuresAre500`, `ServiceReplyDecidesError` and `AudioRoundTrip` |
| `TextToSpeech.InvalidRequestNeverCallsService` | supabase/functions/text-to-speech/index.ts:17-31 | a request failing validation gets the same 500 answer whatever the service would reply, so the service is never consulted |
| `TextToSpeech.FailuresAre500` | supabase/functions/text-to-speech/index.ts:84-103 | every failure is answered with status 500 and every audio answer with 200 |
| `TextToSpeech.ServiceReplyDecidesError` | supabase/functions/text-to-speech/index.ts:50-69 | a non-2xx reply ends in its status error; an empty 2xx reply in the empty-audio error; a non-empty 2xx reply in audio |
| `TextToSpeech.AudioRoundTrip` | supabase/functions/text-to-speech/index.ts:72-86 | a successful answer comes from a non-empty 2xx reply, and Base64-decoding its content gives back the service's bytes exactly |
| `Base64.DigitValue` | supabase/functions/text-to-speech/index.ts:81 | reading a digit of the Base64 alphabet (Table 1 of RFC 4648) gives the value that digit encodes |
| `Base64.EncodeGroup` | supabase/functions/text-to-speech/index.ts:81 | three octets become four digits of the alphabet |
| `Base64.EncodeTail` | supabase/functions/text-to-speech/index.ts:81 | a final one or two octets become four characters: two or three digits, then `=` padding |
| `Base64.Encode` | supabase/functions/text-to-speech/index.ts:81 | the encoding has 4 * ceil(n / 3) characters |
| `Base64.EncodeAlphabet` | supabase/functions/text-to-speech/index.ts:81 | every character of the encoding is a Base64 digit, except `=` padding, which occurs only in the last two places |
| `Base64.DecodeEncode` | supabase/functions/text-to-speech/index.ts:81 | decoding the encoding gives back the original bytes |

## Left out

- Network and storage calls are not modelled: `fetch`, `localStorage`, `Deno.env`, the OpenAI and ElevenLabs requests. Their results are parameters.
- Console logging is not modelled.
- `NewsQueue.NewsQueue.constructor`: the asynchronous `loadNews` it starts, and the `loadingPromise` field, are not modelled. The caller runs `LoadNews` instead.
- `NewsQueue.NewsQueue.LoadNews`: the `isLoading` guard is the parameter `loadInProgress`, not a field. Interleavings of concurrent asynchronous calls are not modelled.
- `NewsQueue.NewsQueue.ShuffleArray`: `Math.random` is an arbitrary index in 0..i. The proof shows the result is a permutation, not that permutations are uniformly likely.
- `NewsQueue.TitleText`: JSON titles are strings or absent. A truthy title that is not a string, such as a number, is not modelled.
- Storage holds the used ids as a set. The source stores a JSON array in insertion order, and a saved value that is not valid JSON would make the constructor throw; neither is modelled.
- The CSV library (`csvtojson`) is not modelled. Its output records are a parameter.
- The JSON parser is not modelled. Its output is a parameter.
- `StoryFilter.SortByRelevance`: sorted and a permutation, but its stability is not stated.
- The prompt text sent to the language model for story analysis is not modelled.
- `Promise.allSettled` is not modelled. Each story's analysis is a value given in advance.
- `StoryFilter.FilterStories`: the language model's answer is a function of the story's value, so two equal stories at different positions get the same analysis. The source's `Promise.allSettled` gives each position its own result; no proved property depends on the difference.
- `StoryFilter.MaxStories`: the slice end is an integer. JavaScript's `slice` also accepts a fractional end and truncates it toward zero; that case is not modelled.
- `NewsCsv.Entries`: `story.summary` is always a string here. A missing summary behaves like an empty one, and is not represented separately.
- Writing the file, and `process.exit`, are not modelled.
- `TextToSpeech.Message`: the runtime's own error messages (the `TypeError` text, a failed `fetch`) are not modelled.
- The `details: error.stack` field of the error response is not modelled.
- The `voiceId` in the request URL is not modelled.
- The speech request body and the CORS preflight answer are not modelled.
- `DebatePrompt`: the character number and the stance are taken as already-rendered text.
- The debate function's handling of the model's answer (`data.choices[0].message.content`), its 500 error path, and CORS are not modelled.
- `src/hooks/useDebate.ts` and the other hooks, the React components, the HTTP handlers and the thin language-model wrappers are not part of this model.
