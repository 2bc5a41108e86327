# BotPenguin RAG chatbot: a Dafny model of its core

`chatbot.py` is a console chatbot for one website. It works in four steps:

1. It fetches the page and collects the headers, paragraphs and list items as whitespace-normalised text.
2. It packs those texts greedily into chunks of about 500 characters and indexes them with sentence embeddings.
3. It answers each question from the five chunks most similar to it, through a hosted chat-completion API.
4. It remembers the last five exchanges as context.

This project models the pure logic under that glue and proves what it computes:

| Module | File | What it models |
|---|---|---|
| `Text` | `text.dfy` | Python's whitespace set; `str.strip()`; `str.split()` and `' '.join(...)`, which together make the normaliser applied to every scraped text; the case-insensitive `quit`/`exit` test. |
| `Chunking` | `chunking.dfy` | The section dictionary the scraper builds. The flattening of its list-valued entries. The greedy packer of `create_from_scraped_data`, modelled on the running chunk text exactly as written. The packer also records which items went into each chunk, so that its result can be stated. |
| `Ranking` | `ranking.dfy` | `np.argsort(scores)[-top_k:][::-1]`. The selection property is proved for every ascending order that `argsort` may return, so it promises no order among equal scores. Retrieval itself runs on one such order, `ArgSort`, an insertion sort that puts a later position before an earlier one of equal score; after `[::-1]`, equal-score chunks therefore come back in chunk order. The Python slice is modelled for every `top_k`, including 0 and negative values. |
| `Knowledge` | `knowledge.dfy` | The knowledge base: the chunks, the presence of an index, building it, and retrieval with its empty-index guard. |
| `Prompt` | `prompt.dfy` | The message list sent to the completion API. The generation step, which turns any failure of the call into a fixed answer. |
| `Chat` | `chat.dfy` | Answer routing (apology versus generation). The history bounded to five turns. The console loop with its quit words. The start-up sequence from a scrape result to a chat session. |

Several things outside the program are parameters:

- **The page fetch** is represented by its outcome: the section dictionary, or `None`.
- **Embedding similarity** is a function `sim(query, row)` from the query and a chunk position to a real score.
- **The completion API** is a function from the request to `Some(text)`, or to `None` when the call raises.
- **Console input** is a finite list of lines. Running out of lines ends the session. In the program, `input()` would raise `EOFError` there, and nothing catches it.

Whitespace follows Python's `str.isspace()`. This is the full set: ASCII controls, the space, and the Unicode separators. So strip and split are exact for any text.

`lower()` is modelled for ASCII letters only. This does not change the quit test: no other character lowers to a single one of the letters of `quit` or `exit`.

## Model

| member | source | states |
|---|---|---|
| `Text.Strip` | chatbot.py:239 | The stripped text has no whitespace at either end and is no longer than the input. |
| `Text.StripSlice` | chatbot.py:239 | Strip removes only whitespace, and only at the two ends: the result is a contiguous slice of the input with nothing but whitespace before and after it. It is empty exactly when the input is all whitespace. |
| `Text.StripFixpoint` | chatbot.py:239 | Strip leaves a string unchanged if and only if the string has no whitespace at either end. |
| `Text.StripIdempotent` | chatbot.py:239 | Stripping twice is the same as stripping once. |
| `Text.StripLeadingSpace` | chatbot.py:62-64 | A blank put in front of a text disappears under strip. This is why the first chunk, built as `" " + item + ...`, strips to the plain join of its items. |
| `Text.Join` | chatbot.py:119 | No contract of its own. It is `sep.join(parts)`; `SplitJoin` and `JoinedWordsShape` state what the blank-join produces. |
| `Text.Split` | chatbot.py:189 | `split()` yields only non-empty words with no whitespace in them. `SplitLayout` and `LayoutSplit` tie the words to the input. |
| `Text.SplitLayout` | chatbot.py:189 | Every string is the words `split()` returns, in order, separated by runs of whitespace. The runs at the two ends may be empty; a run between two words may not. So `split()` drops nothing but whitespace. |
| `Text.LayoutSplit` | chatbot.py:189 | Conversely, any string made of words separated that way splits into exactly those words. With `SplitLayout`, this determines the result of `split()` for every input. |
| `Text.Normalise` | chatbot.py:189 | No contract of its own. It is `' '.join(s.split())`; `NormaliseShape`, `NormaliseKeepsWords` and `NormaliseIdempotent` state its properties. |
| `Text.SplitJoin` | chatbot.py:189 | Splitting the blank-join of a list of words gives back exactly that list. |
| `Text.JoinedWordsShape` | chatbot.py:189 | In the blank-join of words, every whitespace character is a single blank with a non-whitespace character on each side. The join of a non-empty list is non-empty. |
| `Text.NormaliseShape` | chatbot.py:188-196 | The normalised text has no whitespace at the ends, no whitespace other than the blank, and never two blanks in a row. |
| `Text.NormaliseKeepsWords` | chatbot.py:188-196 | Normalising keeps exactly the words of the input, in order. |
| `Text.NormaliseIdempotent` | chatbot.py:188-196 | Normalising a normalised text changes nothing. |
| `Text.Lower` | chatbot.py:240 | No contract of its own. It lowers ASCII letters; `QuitIgnoresCase` states what the quit test makes of it. |
| `Text.IsQuitCommand` | chatbot.py:240 | No contract of its own. It is `s.lower() in ['quit', 'exit']`; `QuitIgnoresCase` states which inputs it accepts. |
| `Text.QuitIgnoresCase` | chatbot.py:240 | The quit test accepts `quit` and `exit` in any mix of upper and lower case, and nothing else. |
| `Chunking.Structure` | chatbot.py:172-202 | No contract of its own. It builds the scraper's dictionary; `StructureItems` states what it flattens to. |
| `Chunking.Items` | chatbot.py:53-56 | No contract of its own. It is `all_text`; `ItemsAppend` and `StructureItems` state its properties. |
| `Chunking.ItemsAppend` | chatbot.py:53-56 | Flattening the dictionary distributes over its entries: the items of two runs of entries are the items of the first followed by the items of the second. |
| `Chunking.StructureItems` | chatbot.py:172-202 | The scraped dictionary flattens to the normalised headers, then paragraphs, then list items. The title metadata contributes nothing. Every item is already in normal form. |
| `Chunking.NormaliseAll` | chatbot.py:188-196 | No contract of its own. It normalises each extracted text, as the comprehensions do; `StructureItems` states that its results are in normal form. |
| `Chunking.Render` | chatbot.py:59-62 | No contract of its own. It is the running chunk text of a group; `StripRender` and the packing lemmas below relate it to the emitted chunk. |
| `Chunking.Emit` | chatbot.py:64 | No contract of its own. It appends the stripped running chunk; `EmitKeepsRunning` and `FinishPacked` state what it preserves. |
| `Chunking.PackFrom` | chatbot.py:60-67 | No contract of its own. It is the loop from a given item on; `StepKeepsRunning`, `PackFromPacked` and `PackKeepsEmitted` state its properties. |
| `Chunking.Pack` | chatbot.py:58-67 | No contract of its own. It is `self.chunks` after the loop; `PackPartition`, `PackEmpty`, `PackOversizedFirstItem` and `PackDropsTrailingEmpty` state its properties. |
| `Chunking.Step` | chatbot.py:61-65 | No contract of its own. It is one pass of the loop body, either branch; `StepKeepsRunning` states what it preserves. |
| `Chunking.FitsAt` | chatbot.py:61-62 | Every item of a chunk after its opening item passed the packing test: the running length plus the item's length was below 500. |
| `Chunking.OpenedAt` | chatbot.py:61-65 | Every chunk after the first is opened by an item that failed the packing test against the chunk before it. |
| `Chunking.AppendKeepsRunning` | chatbot.py:61-62 | When the test passes, the item joins the running chunk and the loop invariant holds for one more item. |
| `Chunking.EmitKeepsRunning` | chatbot.py:63-65 | When the test fails, the running chunk is emitted stripped, the item opens the next one, and the loop invariant holds for one more item. |
| `Chunking.StepKeepsRunning` | chatbot.py:60-65 | One pass of the loop body, in either branch, keeps the loop invariant and advances the loop by one item. |
| `Chunking.FinishPacked` | chatbot.py:66-67 | The final `if current_chunk:` turns the loop invariant into the full packing property. |
| `Chunking.PackFromPacked` | chatbot.py:58-67 | The rest of the loop, run from any state that satisfies the loop invariant, ends in a result with the full packing property. |
| `Chunking.PackPartition` | chatbot.py:53-67 | The packer's result has all of these properties. The items split into consecutive groups, one per chunk. Each chunk is the stripped blank-join of its group. Each chunk has at most 500 characters, unless it is a single item that alone reaches the limit. The groups are packed greedily. Concatenating the groups gives back the items, except for one possible trailing `""`. It can go missing only after a chunk that reached the limit. After the first chunk, the last group is never `[""]`, because the final `if current_chunk:` does not emit an empty running text. |
| `Chunking.PackEmpty` | chatbot.py:58-67 | There are no chunks exactly when there are no items. |
| `Chunking.PackKeepsEmitted` | chatbot.py:60-67 | Later iterations only append chunks. What has been emitted stays a prefix of the result. |
| `Chunking.FirstGroupOpens` | chatbot.py:59-65 | While nothing has been emitted, the running group's first item opens the first chunk. |
| `Chunking.LongRunningEmitted` | chatbot.py:63-67 | A running chunk that has reached the limit is emitted as it stands, right after everything emitted before it. |
| `Chunking.PackOversizedFirstItem` | chatbot.py:59-65 | If the first item has at least 500 characters, the first chunk is `""` from an empty group. The second chunk is that item alone, stripped. |
| `Chunking.PackDropsTrailingEmpty` | chatbot.py:61-67 | For any first item of 500 characters or more followed by `""`, the chunks are `""` and the stripped item, from the groups `[]` and `[item]`. The `""` is lost. |
| `Chunking.PackFirstGroupEmpty` | chatbot.py:59-65 | The first group is empty if and only if the first item has at least 500 characters. |
| `Ranking.SliceStart` | chatbot.py:91 | No contract of its own. It is the clamped start of `a[start:]`; `TopCountCases` states its effect. |
| `Ranking.TopCount` | chatbot.py:91 | No contract of its own. It is how many positions `a[-k:]` keeps; `TopCountCases` states it case by case. |
| `Ranking.TopK` | chatbot.py:91 | No contract of its own. It is `order[-k:][::-1]`; `TopKPositions` and `TopKSelects` state its properties. |
| `Ranking.Reverse` | chatbot.py:91 | `[::-1]` keeps the length and reads the positions back to front. |
| `Ranking.TopCountCases` | chatbot.py:91 | `a[-k:]` keeps `min(k, n)` positions for `k > 0`. It keeps all `n` for `k = 0`. It keeps `n + k` (at least 0) for negative `k`. |
| `Ranking.TopKPositions` | chatbot.py:91 | The selection is the kept tail of the sort order, read backwards. |
| `Ranking.TopKDominates` | chatbot.py:91 | For any order `argsort` may return, no position left out scores above a selected one. |
| `Ranking.TopKSelects` | chatbot.py:91 | For any order `argsort` may return, the selection has `TopCount` distinct valid positions, ordered by non-increasing score, and no position left out scores above a selected one. |
| `Ranking.ArgSort` | chatbot.py:91 | No contract of its own. It is the `np.argsort` order retrieval uses; `ArgSortIsArgsort` states that it is an ascending permutation. |
| `Ranking.ArgSortIsArgsort` | chatbot.py:91 | Every score vector has an ascending permutation of its positions, so the selection always exists. |
| `Knowledge.Fresh` | chatbot.py:44-45 | The knowledge base `__init__` leaves has no chunks and is not searchable. |
| `Knowledge.Searchable` | chatbot.py:82 | No contract of its own. It is the negation of the guard `self.embeddings is None or len(self.chunks) == 0`; `Retrieve` and `Answer` are stated against it. |
| `Knowledge.Build` | chatbot.py:48-76 | The chunks are those the packer computes from the flattened items. There are no chunks exactly when there are no items. The knowledge base is searchable exactly when there are items. The index is built from exactly the new chunks. |
| `Knowledge.Scores` | chatbot.py:85-88 | One similarity score per chunk, from the parameter `sim`. |
| `Knowledge.RankedPositions` | chatbot.py:82-91 | No contract of its own. It gives the selected positions, using `ArgSort` as the argsort order; `RetrievePositionsValid` and `RetrieveRanks` state their properties. |
| `Knowledge.Retrieve` | chatbot.py:82-83 | Without an index or without chunks, retrieval returns the empty list. |
| `Knowledge.RetrievePositionsValid` | chatbot.py:91-93 | Every selected position indexes a chunk. |
| `Knowledge.RetrieveRanks` | chatbot.py:78-94 | Retrieval returns the chunks at the selected positions, in order. These are `TopCount` distinct positions, best score first, and none left out scores higher. |
| `Knowledge.RetrieveAtDepth` | chatbot.py:208 | With `top_k = 5`, a searchable knowledge base yields between one and five chunks, never more than it has. |
| `Prompt.HistoryMessages` | chatbot.py:126-128 | Each history turn, oldest first, gives a user message with its question and then an assistant message with its answer. |
| `Prompt.BuildMessages` | chatbot.py:119-130 | The list has `2·|history| + 2` messages: first the system instruction, then the history pairs, and last the user message with the context joined by blank lines and the question. |
| `Prompt.HistoryRoundTrip` | chatbot.py:122-130 | The history can be read back exactly from the message list. |
| `Prompt.QuestionText` | chatbot.py:119-130 | No contract of its own. It is the final user message; `BuildMessages` places it last. |
| `Prompt.RequestFor` | chatbot.py:133-138 | No contract of its own. It is the arguments of the completion call; `Generate` states that exactly this request is sent. |
| `Prompt.Generate` | chatbot.py:132-143 | The API is called once with the built messages, the model, temperature 0.7 and 200 tokens. On success the answer is the stripped completion text. On failure it is the fixed fallback text. |
| `Chat.Answer` | chatbot.py:204-213 | The API is called if and only if the knowledge base is searchable. Otherwise the answer is the fixed apology. |
| `Chat.AnswerFallback` | chatbot.py:141-143 | A failed completion call is answered with the fallback text and goes no further. |
| `Chat.Respond` | chatbot.py:244 | No contract of its own. It answers a line with `Answer`; `StartedChatAlwaysGenerates` uses it. |
| `Chat.Recent` | chatbot.py:247-250 | No contract of its own. It is the last five turns; `Remember` and `ConverseHistory` are stated against it. |
| `Chat.Remember` | chatbot.py:247-250 | Appending a turn and popping the oldest one above five keeps the five most recent turns, in chronological order. |
| `Chat.RecentAbsorbs` | chatbot.py:247-250 | Trimming to the recent turns early and again later is the same as trimming once at the end. |
| `Chat.RememberThenRecent` | chatbot.py:247-250 | Remembering one turn and then keeping the recent part of what follows keeps the recent part of the whole conversation. |
| `Chat.TurnsOf` | chatbot.py:247 | No contract of its own. It is the `{"user": ..., "bot": ...}` entries the loop appends; `ConverseHistory` and `ConverseAnswersInContext` are stated against it. |
| `Chat.Converse` | chatbot.py:237-250 | No contract of its own. It is the console loop; `ConverseInputs`, `ConverseEnding`, `ConverseStopsAtQuit`, `ConverseHistory` and `ConverseAnswersInContext` state its properties. |
| `Chat.ConverseInputs` | chatbot.py:238-244 | The answered inputs are the leading lines that are not quit words, stripped, in order. |
| `Chat.ConverseEnding` | chatbot.py:238-242 | The session ends on a quit word exactly when lines are left over, and then the first line left over is a quit word. |
| `Chat.ConverseStopsAtQuit` | chatbot.py:238-250 | Every line before the first quit word is answered, in order. The first quit word ends the session, and no line after it is read. |
| `Chat.ConverseHistory` | chatbot.py:237-250 | After the loop, the history is the last `min(n, 5)` turns of the conversation, oldest first. |
| `Chat.AnsweredInContextCons` | chatbot.py:244-250 | An answer given against the current history, followed by answers given in context from the updated history, are all answers given in context. |
| `Chat.ConverseAnswersInContext` | chatbot.py:237-247 | Each line is answered against the history as it stood just before it: the recent turns of everything said so far. |
| `Chat.Start` | chatbot.py:222-237 | The start-up stops on a failed scrape (`not scraped_data`) and on an empty chunk list. Otherwise the chat runs with a searchable knowledge base built from the scraped items, an empty history, and the generator's default model `llama-3.1-8b-instant`. |
| `Chat.StartedChatAlwaysGenerates` | chatbot.py:228-247 | Once the chat has started, every answered line goes to the completion API, so the apology never reaches the user. The history stays within five turns. |

## Left out

- The page fetch is left out: `aiohttp`, its timeout and `asyncio.run` (chatbot.py:157-183, 222). They are network I/O and async plumbing. The scrape result is an input.
- HTML parsing is left out: BeautifulSoup's `find_all`, `get_text(strip=True)` and the `<title>` lookup (chatbot.py:185-200). They belong to a foreign library. `Chunking.Structure` takes the texts the parser extracted.
- `title.string` can be `None` for a `<title>` with nested markup. The model stores a string instead. This entry is metadata, and the packer ignores it.
- The embedding model and `cosine_similarity` (chatbot.py:43, 75, 85-88) are a foreign model and floating-point numerics. Scores come from the parameter `sim`, and NaN scores are not modelled.
- A rebuild that yields no chunks leaves the previous embedding array in place. The model keeps that array as an option, and retrieval is then guarded by the empty chunk list. The array's rows are represented by the chunk texts they were computed from.
- The Groq client, its construction and the `GROQ_API_KEY` / dotenv check (chatbot.py:18, 105-112) are external configuration. A client that could not be built never reaches the modelled code.
- All `print` output and the `input()` prompt are console I/O. The lines read are an input sequence. End of input, where `input()` would raise an uncaught `EOFError`, ends the session as `EndOfInput`.
- `Text.Lower` lowers only ASCII letters, because Unicode case mapping is outside the model. The quit test does not depend on it.
- `Knowledge.Retrieve` uses one fixed argsort order, `ArgSort`. It puts a later position before an earlier one of equal score, so after `[::-1]` equal-score chunks are returned in chunk order. A stable `np.argsort` would give the reverse, and the default `np.argsort` leaves that order unspecified. Only the selection property (`Ranking.TopKSelects`, and through it `Knowledge.RetrieveRanks`) is stated for every possible order. So `Chat.Answer` commits the prompt to one tie order: one that `np.argsort` may produce, but not necessarily the one it does produce.
- The sampling of the completion call at `temperature=0.7` (chatbot.py:136) is left out, because it is randomness inside the hosted API. `complete` is a fixed function of the request, so two identical requests always get the same text.
