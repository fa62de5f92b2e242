# FitMe recommendation pipeline: a Dafny model

FitMe logs a user into Taobao with a crawler and harvests their purchase history. It processes the history into a clothing table and asks a language-model "fashion agent" for outfit recommendations. The application module `src/app.py` connects these steps to four buttons. This project models two parts of that module:

1. **The extraction of image references from the agent's reply** (`src/app.py:116`). The handler calls `re.findall(r'https?://[^\s]+\.jpg', result)`. Module `Extraction` defines the pattern's language (`IsJpgUrl`: `http://` or `https://`, at least one non-whitespace character, then `.jpg`, all compared case-sensitively). It also states what `findall` reports as a specification (`IsFindallFrom`):
   - each match starts at the leftmost position where the pattern matches;
   - each match is the longest one at that start;
   - scanning resumes at the match's end.

   `FindallFrom` scans as Python's backtracking engine does. It recognises the scheme, takes the greedy run of non-whitespace characters for `[^\s]+`, and gives characters back to the last `.jpg`. It is proved to meet the specification, and the specification is proved to have exactly one solution. At most one of the two schemes can start at a position, and `[^\s]+` is greedy. So the engine's first match at a start is the longest one, and the two views agree. `\s` is Python's `str` whitespace: the characters for which `str.isspace()` holds, including U+3000, the ideographic space common in Chinese text. Module `ExtractionLaws` proves laws that hold for every reply, and module `ExtractionExamples` pins the behaviour on worked replies.
2. **The gating state of the handlers** (`src/app.py:22-25`, `:41-136`). Class `Pipeline.App` holds the four module globals `crawler`, `data_processor`, `fashion_agent` and `clothing_data` as `Option` fields. Its methods are the handlers `start_crawler`, `check_login`, `process_data`, `get_image_urls` and `get_recommendation`. The crawler, the data processor and the fashion agent are collaborators whose code is outside this module. Each handler is given what these collaborators return, or the error text they raise, as parameters. `Valid()` is the invariant every handler keeps: a global is set only once the stage before it has run. The crawler and the data processor are never cleared. The clothing data is cleared when the processor returns `None`, and a fashion agent built earlier then outlives it. `Stage()` reads the pipeline stage (`NoSession`, `SessionActive`, `DataReady`) off the globals. Module `Walkthrough` drives one session through the handlers and reasons from their contracts alone.

Behaviours of the code that the model keeps, and that a reader might not expect:
- A failed or raising `login()` still leaves the new crawler stored (`src/app.py:45-49`). So `check_login` reports "已登录" (logged in), and the pipeline counts as past `NoSession`.
- An exception from `get_purchase_history` is not caught (`src/app.py:70` is outside the `try`), so it escapes `process_data`.
- `clothing_data` is replaced at `src/app.py:78`, before the processed table is saved and the crawler is closed (`src/app.py:80-82`). If either of those later steps raises, the handler returns an empty list, but the new table stays in place.
- If the processor returns `None`, `src/app.py:78` clears `clothing_data`, the `to_csv` call at `src/app.py:80` raises, and the handler returns an empty list (`src/app.py:86-88`). The pipeline falls back from `DataReady` to `SessionActive`, and a fashion agent built earlier stays set.
- `get_recommendation` only checks that `clothing_data` is set (`src/app.py:104`). An empty table still reaches the agent.
- The extraction at `src/app.py:116` neither deduplicates nor stops at URL boundaries. Two URLs joined by non-whitespace text, such as a CJK character, come back as one string (`AdjacentUrlsMerge`).

## Model

| member | source | states |
|---|---|---|
| `Extraction.SchemeEnd` | src/app.py:116 | `https?://` at a position: the scheme ends 7 characters later exactly when `http://` starts there, 8 exactly when `https://` does, and there is no end otherwise |
| `Extraction.RunEnd` | src/app.py:116 | what `[^\s]+` first takes: every character from the start up to the result is non-whitespace, and the result is the end of the reply or a whitespace character |
| `Extraction.LastJpg` | src/app.py:116 | the backtracking of `[^\s]+\.jpg`: the result is where the last `.jpg` in the range occurs, none occurs after it, and there is no result exactly when none occurs in the range |
| `Extraction.MatchShape` | src/app.py:116 | a match at a position is exactly a scheme, a non-whitespace run of at least one character, and `.jpg` ending inside that run |
| `Extraction.NoSchemeNoMatch` | src/app.py:116 | no match starts where neither `http://` nor `https://` starts |
| `Extraction.MatchEnd` | src/app.py:116 | the regex engine's match at a position is a longest match of the pattern there, and it has at least 12 characters; there is no result exactly when no match starts there |
| `Extraction.FindallFrom` | src/app.py:116 | the scan from a position meets the findall specification: leftmost start, longest match, resume after it, and no match in the gaps or after the last match |
| `Extraction.FindallSpans` | src/app.py:116 | the matches of the whole reply meet the findall specification, lie inside the reply, have at least 12 characters, and are in order without overlapping |
| `Extraction.FindallOrdered` | src/app.py:116 | every solution of the findall specification lists matches in order of position, none overlapping the next, each inside the reply and after the scan's start |
| `Extraction.FindallUnique` | src/app.py:116 | the findall specification has exactly one solution, so the scan and the specification describe the same result |
| `Extraction.SpanIsMatch` | src/app.py:116 | each reported match is a longest match, and no match starts between it and the previous one |
| `Extraction.ExtractJpgUrls` | src/app.py:116 | the returned strings are the reply's substrings at the findall matches, in order; each starts with `http://` or `https://`, ends with `.jpg`, has no whitespace and has at least one character between `://` and `.jpg` |
| `ExtractionLaws.SpaceSplits` | src/app.py:116 | a whitespace character splits the reply: its URLs are those before the character followed by those after it |
| `ExtractionLaws.LeadingTextWithoutH` | src/app.py:116 | text without an `h` in front of the reply changes nothing, because a match can start anywhere, even mid-word, but only at an `h` |
| `ExtractionLaws.WholeReplyUrl` | src/app.py:116 | a reply that is exactly one string of the pattern yields exactly that string |
| `ExtractionLaws.NoUrlsWithoutJ` | src/app.py:116 | a reply without a lower-case `j` yields nothing, so URLs ending in `.JPG` or `.png` are never returned |
| `ExtractionLaws.GreedyToLastJpg` | src/app.py:116 | greedy matching: after a reported match, no `.jpg` ends inside the same whitespace-free run, so the match ends at the run's last `.jpg` |
| `ExtractionLaws.JoinedUrls` | src/app.py:116 | two URLs of the pattern joined by text without whitespace form one string of the pattern; with `WholeReplyUrl`, such a reply comes back as a single string |
| `ExtractionLaws.UrlAfterTextWithoutH` | src/app.py:116 | a URL of the pattern behind text without an `h` is returned alone and whole |
| `ExtractionLaws.OneUrlAmongWords` | src/app.py:116 | of four space-separated words, only the second being a URL of the pattern and the others without a `j`, exactly that URL is returned |
| `ExtractionLaws.TwoUrlsSeparated` | src/app.py:116 | two URLs of the pattern separated by one whitespace character are both returned, in order |
| `ExtractionExamples.PngUrlDropped` | src/app.py:116 | `see https://a.com/x.jpg and https://b.com/y.png` yields only `https://a.com/x.jpg` |
| `ExtractionExamples.MatchStartsMidWord` | src/app.py:116 | `abchttps://x/a.jpg` yields `https://x/a.jpg` |
| `ExtractionExamples.MatchRunsToLastJpg` | src/app.py:116 | `http://a.jpg.jpg` is returned whole, not cut at the first `.jpg` |
| `ExtractionExamples.AdjacentUrlsMerge` | src/app.py:116 | two URLs joined by a CJK character come back as a single string |
| `ExtractionExamples.IdeographicSpaceSeparates` | src/app.py:116 | an ideographic space (U+3000) separates two URLs, as Python's `\s` does |
| `ExtractionExamples.UpperCaseExtensionDropped` | src/app.py:116 | `http://a/x.JPG` yields nothing: the match is case-sensitive |
| `Pipeline.App.constructor` | src/app.py:22-25 | at import time all four globals are unset, the invariant holds and the stage is `NoSession` |
| `Pipeline.App.StartCrawler` | src/app.py:41-52 | a new crawler is stored whether its login returns true, returns false or raises, with the matching status text; only a raising constructor keeps the old crawler and reports the error; the other globals never change, and the invariant is kept |
| `Pipeline.App.CheckLogin` | src/app.py:54-58 | reports "已登录" (logged in) exactly when a crawler is stored, and "未登录" (not logged in) exactly when none is |
| `Pipeline.App.ProcessData` | src/app.py:60-89 | see the list below the table |
| `Pipeline.App.GetImageUrls` | src/app.py:91-95 | the `image_url` column in row order when data is processed; the empty list when it is not; `KeyError('image_url')` when the table lacks the column |
| `Pipeline.App.GetRecommendation` | src/app.py:101-136 | see the list below the table |

What `Pipeline.App.ProcessData` states:
- Without a crawler it returns `[]` and changes nothing.
- Otherwise it stores a new data processor and asks the crawler for 30 days of history. A raising history call escapes the handler with that error.
- An empty history returns `[]` and leaves the crawler and the data as they were.
- For a non-empty history, what the processor returns replaces `clothing_data` wholesale, unless saving the raw records or processing raises. A `None` from the processor clears it.
- Only when the processor returned a table and saving it and closing the crawler also succeed is the crawler marked closed and the `image_url` column returned. Every caught failure returns `[]`.
- Processed data is lost only to a processor that returns `None`, and the gallery is then empty. A non-empty gallery means the stage is `DataReady`. The invariant is kept.

What `Pipeline.App.GetRecommendation` states:
- Before `DataReady` it returns `([], "请先处理数据")` ("process the data first") and does not call the agent.
- Otherwise the agent is asked with the current table and the request. A reply yields `ExtractJpgUrls(reply)` and the reply.
- A raising agent constructor or request yields `[]` and "获取推荐时出错: " (error while getting a recommendation) followed by the error text.
- The crawler, the data processor and `clothing_data` never change, so neither does the stage.

## Left out

- The Gradio interface, its event bindings and `demo.launch` (`src/app.py:138-190`, `:192-206`). They are user interface.
- `update_model`, `MODEL_OPTIONS`, `load_dotenv` and the `sys.path` change (`src/app.py:6`, `:17`, `:27-39`, `:97-99`). They set environment and configuration only.
- The commented-out JSON parsing of the reply (`src/app.py:119-130`). It is dead code.
- All `print` logging.
- `async`/`await`: each handler is a sequential method, and no two handlers interleave.
- The crawler's login, purchase-history harvesting, pagination, CSV writing and `close`, the data processor's normalisation and deduplication, and the fashion agent's prompt and model call. `utils/taobao_crawler.py`, `utils/data_processor.py` and `agents/fashion_agent.py` are not part of this model. Their results and errors are parameters of the handlers. The crawler's session lifecycle, retries, partial harvests and deduplication are therefore outside this model.
- `pd.DataFrame(items)` is not modelled. The harvested records go to the processor unchanged. A failure in building the data frame is not separated from a failure in processing.
- The `DataProcessor` constructor is taken never to raise. The model gives it no failure case.
- Only the `image_url` column of the clothing table is modelled, as a sequence of strings. A non-string cell, such as a NaN, is not distinguished.
- The agent's reply is taken to be a string. A reply of another type, on which `re.findall` would raise a `TypeError` inside the handler's `try`, is not modelled.
- A truthy non-list history value is not modelled. The history call returns a list of records or `None`.
- The processor's result is a table or `None`. Any other value is not modelled.
- Exception texts (`str(e)`) are opaque strings supplied by the caller.
