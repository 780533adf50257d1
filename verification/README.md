# CineFex movie bot — recommendation core in Dafny

A model of the recommendation logic of a Telegram bot that suggests movies
from TMDB (The Movie Database). A user either sends free text (a title or a
genre word) or the `/random` command. The bot does four things:

1. **Genre extraction** (`extract_genre_ids`). It lower-cases the prompt and
   keeps the genre id of every lexicon keyword that occurs in it as a
   substring. The ids are comma-joined in lexicon order, with no
   de-duplication.
2. **Routing and truncation.**
   - `get_recommendations` calls TMDB's discover endpoint
     (`with_genres=<ids>`) when the genre string is non-empty. Otherwise it
     calls the search endpoint (`query=<prompt>`). It keeps at most five
     results.
   - `get_random_movie` fetches one page of popular movies and formats the
     record at a chosen index. If the page is empty it returns `None`.
   - Any failure gives an empty list.
3. **Formatting** (`format_movies`). Each record becomes a
   `(caption, poster URL)` pair:
   - missing members get default texts;
   - the release date is cut to its year;
   - the poster path is appended to the image base URL;
   - the caption is `*title* (year)` followed by `_overview_` on the next
     line, each part MarkdownV2-escaped.
4. **Delivery** (`send_recommendations`, `handle_prompt`, `random_command`).
   - An empty list gives one "No recommendations found" message.
   - Otherwise each entry is sent in order, as a photo when its poster URL is
     truthy (present and not empty) and as text when it is not.
   - A failed send is replaced by an apology, and delivery goes on. If the
     apology fails too, the exception leaves `send_recommendations` and the
     remaining entries are not sent.
   - A blank prompt gets "Please type something" and no lookup.

Modules, leaves first:

- `Wrappers` (wrappers.dfy): `Option`, for Python's `None`-or-value results.
- `Strings` (strings.dfy): the Python string built-ins the code uses:
  - `str.strip()`, with Python's full `isspace` set;
  - `str.lower()`;
  - `in` on strings, as a scan proved equal to "occurs at some index";
  - `",".join`;
  - `str(int)`.

  It also holds two decoders the code does not use. `Split` cuts a string at
  a separator and `ParseInt` reads an optionally signed run of digits. They
  read the output of `",".join` and `str(int)` back, so that round trips can be
  stated.
- `Genres` (genres.dfy): `extract_genre_ids`, and a parser for the
  comma-separated id list to read its output back.
- `Movies` (movies.dfy): the record fields, year, poster URL and caption, and
  `format_movies`. A caption parser proves that a caption gives back its three
  escaped parts.
- `Tmdb` (tmdb.dfy): the endpoint choice, request URLs, the `[:5]` cut, and
  the 0-or-1 random result.
- `Bot` (bot.dfy): the delivered message trace, the handlers, and end-to-end
  lemmas and scenarios.

These are inputs to the model:

- The HTTP exchange is a parameter `fetch: string -> Response`, from the
  request URL to either `Failed` or the body's `results` member.
- `escape_markdown(…, version=2)` is a parameter `esc: string -> string`.
- The random page and the random index are parameters.
- The genre table is a parameter: a sequence of `(keyword, id)` pairs.
- Which Telegram sends fail is given by a `SendOracle` indexed by entry
  position.

A JSON member is `Absent`, `Null` or `Present(v)`, because `dict.get(key,
default)` returns the default only when the key is missing. A `null` title or
overview reaches `escape_markdown` as `None` and raises. `format_movies` runs
inside the lookup's `try`, so one such record among the kept ones empties the
whole result. The model does the same.

`results` being `null` empties the recommendation list, because slicing
`None` raises. On the random path the same `null` makes the function fall
through to `None`.

The caption's literal parentheses and the apology's full stop are sent
unescaped with MarkdownV2, a mode that reserves both characters. The model
does not interpret MarkdownV2, so Telegram's rejection of such a message shows
up only through the send oracle. If Telegram rejects every such message,
`Bot.EveryEntryRejected` shows that nothing is delivered and the handler
raises.

The random page and the index `random.choice` picks are the only things that
differ between two calls with the same inputs. Both are parameters. Everything
else is a pure function, so repeating a lookup with the same page, index and
`fetch` gives the same result by construction.

## Model

| member | source | states |
|---|---|---|
| Strings.Strip | movieBot.py:88 | The result is the slice of the input left after removing leading and trailing whitespace. It is empty exactly when the input is all whitespace, and a non-empty result neither starts nor ends with whitespace. |
| Strings.Lower | movieBot.py:47 | The result has the input's length and no upper-case ASCII letter. Each upper-case letter becomes its lower-case letter, and every other character is kept. |
| Strings.ContainsIffOccurs | movieBot.py:48 | The substring test `keyword in prompt` holds exactly when the keyword occurs at some index of the prompt. |
| Strings.Join | movieBot.py:49 | A single part is returned as it is. The result is empty exactly when there are no parts or only one empty part. Its partner `Strings.SplitJoin` proves that the join of comma-free parts splits back into those parts. |
| Strings.IntToString | movieBot.py:48 | `str(genre_id)` is non-empty and consists of decimal digits after an optional leading `-`. Its partner `Strings.IntToStringRoundTrip` reads it back as the id. |
| Strings.SplitJoin | movieBot.py:49 | Splitting a comma-join on commas gives back the joined parts when no part contains a comma. |
| Strings.IntToStringRoundTrip | movieBot.py:48 | Parsing `str(genre_id)` gives back the id. |
| Strings.IntToStringNoComma | movieBot.py:48-49 | `str(genre_id)` never contains a comma, so the joined id list splits back cleanly. |
| Genres.MatchingEntries | movieBot.py:48 | The filtered lexicon is empty exactly when no keyword occurs in the lowered prompt. |
| Genres.MatchingMembers | movieBot.py:48 | An entry contributes exactly when it is in the lexicon and its keyword occurs in the prompt. |
| Genres.MatchingAppend | movieBot.py:48 | Filtering distributes over concatenation, so the ids stay in lexicon iteration order. |
| Genres.MatchingCount | movieBot.py:48 | A matching entry is kept as many times as it appears in the lexicon. A non-matching entry is dropped. There is no de-duplication. |
| Genres.ContributesOnce | movieBot.py:48-49 | With distinct keywords, a matching keyword contributes its id exactly once and a non-matching keyword contributes nothing. |
| Genres.IdStrings | movieBot.py:48 | There is one text per matching entry. Each reads back as that entry's genre id and contains no comma. |
| Genres.ExtractGenreIds | movieBot.py:46-49 | The genre string is empty exactly when no lexicon keyword is a substring of the lower-cased prompt. |
| Genres.GenreIdsRoundTrip | movieBot.py:48-49 | Read back as a comma-separated id list, the genre string is exactly the ids of the matching entries, in lexicon order. |
| Genres.GenreIdsIgnoreCase | movieBot.py:47 | A prompt and its lower-cased form give the same genre string. |
| Movies.TextOr | movieBot.py:31-33 | A missing member gives the default text and a present member gives its value. A `null` member gives no text, because escaping `None` raises. |
| Movies.Year | movieBot.py:32 | The year has at most 4 characters. For a non-empty release date it is the date's first min(4, length) characters. Otherwise it is "N/A". |
| Movies.PosterUrl | movieBot.py:34-35 | There is a URL exactly when the poster path is a non-empty string. The URL starts with the w500 image base, and removing the base gives back the path. |
| Movies.Caption | movieBot.py:37-41 | The caption is 8 characters longer than its three escaped parts together. It opens the bold span with `*` and closes the italic span with `_`. Its partner `Movies.CaptionRoundTrip` reads the three escaped parts back. |
| Movies.FormatMovie | movieBot.py:30-42 | A record fails to format exactly when its title or overview is `null`. The entry's poster is the record's poster URL. The caption lays out the escaped title (or "Untitled"), year and overview (or "No description available."). |
| Movies.FormatMovies | movieBot.py:28-43 | It succeeds exactly when every record is formattable. The output has one entry per record, and the i-th entry is the i-th record formatted. |
| Movies.CaptionRoundTrip | movieBot.py:37-41 | If the escaped title has no unescaped `*` and the escaped year no unescaped `)`, parsing the caption gives back the escaped title, year and overview. |
| Movies.FormatMovieCaption | movieBot.py:31-41 | A formatted entry's caption parses back to its record's escaped title, year and overview, after defaults are applied. |
| Tmdb.Url | movieBot.py:56-58 | The URL starts with the discover endpoint exactly when the request is not a search. A genre discovery ends in `&with_genres=<ids>`. A search carries the prompt as `&query=`. |
| Tmdb.RecommendationRequest | movieBot.py:53-58 | The request is a genre discovery exactly when some keyword occurs in the lowered prompt, and its ids decode to the matching ids. Otherwise it is a search for the prompt itself. |
| Tmdb.Top | movieBot.py:63 | The kept records are the first min(5, n) of the results list, in the service's order. |
| Tmdb.Shortlist | movieBot.py:60-68 | At most 5 entries. A failed call or a `null` results list gives none. If every kept record is formattable, there are min(5, n) entries, each the matching record formatted. If any kept record is not formattable, there are none. |
| Tmdb.GetRecommendations | movieBot.py:52-68 | At most 5 entries, taken from the response to the routed URL. |
| Tmdb.RandomUrlPage | movieBot.py:73-74 | The popular-movies URL starts with the `sort_by=popularity.desc&page=` request, and the text after it reads back as the requested page number. |
| Tmdb.RandomPick | movieBot.py:75-84 | The result has at most one entry. It is None exactly when the call succeeded but the page had no records. A failed call gives an empty list. A single entry is the picked record formatted. An unformattable picked record gives an empty list. |
| Tmdb.GetRandomMovie | movieBot.py:71-84 | The random lookup yields at most one entry, taken from the response for the requested page. |
| Bot.EntryMessage | movieBot.py:102-107 | An entry is sent as a photo exactly when its poster URL is truthy (present and not the empty string), with the caption attached. Otherwise the caption is sent as text. Both use MarkdownV2. |
| Bot.FormattedEntryMessage | movieBot.py:102-107 | A formatted record is sent as a photo exactly when its poster path is a non-empty string, and the photo is the w500 image base followed by that path. |
| Bot.Outbound | movieBot.py:101-111 | An entry whose send fails is replaced by the apology text. Otherwise the entry goes out as a photo with its caption exactly when its poster URL is truthy, and as its caption text when it is not. Both use MarkdownV2. |
| Bot.SendFrom | movieBot.py:100-111 | Messages follow the entry order: the apology where a send failed, otherwise the entry's own message. Delivery stops exactly at the first entry whose send and apology both fail. Otherwise every entry is delivered. |
| Bot.SendRecommendations | movieBot.py:96-111 | A falsy list gives exactly one "No recommendations found" text. Otherwise the messages follow the entries in order, and the handler raises exactly when some entry's send and apology both fail. Without a raise every entry yields a message. With a raise, delivery stops at the entry whose send and apology both failed. |
| Bot.EveryEntryRejected | movieBot.py:100-111 | If every entry's send and every apology fail, no message reaches the chat and the exception leaves the handler. |
| Bot.OneMessagePerEntry | movieBot.py:100-111 | When no apology fails, there is exactly one message per entry, in order. A failed entry gives the apology. Any other entry gives a photo exactly when its poster URL is truthy. |
| Bot.NoneDeliveredAsEmpty | movieBot.py:96-99 | The random path's `None` is delivered like an empty list, as the single "No recommendations found" text. |
| Bot.HandlePrompt | movieBot.py:87-93 | There is no lookup exactly when the message is all whitespace, and then the only reply is "Please type something…". Otherwise the lookup URL is the one routed from the stripped prompt, and the results are delivered. |
| Bot.RandomCommand | movieBot.py:120-122 | `/random` looks up a popular page and delivers at most one message. |
| Bot.ShortlistMessageCount | movieBot.py:63-64 | With formattable records and no failed sends, a response with results gives min(5, n) messages. An empty response gives the single notice. |
| Bot.PromptMessageCount | movieBot.py:87-111 | The same count, end to end through `handle_prompt`. |
| Bot.ComedyRequest | movieBot.py:46-58 | The prompt "comedy" with lexicon comedy→35 is routed to discovery with `with_genres=35`. |
| Bot.TwoRecordDelivery | movieBot.py:96-107 | A response with two formattable records, with every send succeeding, delivers exactly those two records' messages in service order. |
| Bot.ComedyScenario | movieBot.py:52-64 | The prompt "comedy" against a service returning two records delivers those two records in service order. |
| Bot.RandomEmptyPageScenario | movieBot.py:78-84 | `/random` on an empty page delivers the single "No recommendations found" text. |

## Left out

- `main.py`: the Flask health route, the background thread and the port
  handling. They are runtime plumbing with no logic.
- The HTTP calls: `requests.get`, `raise_for_status`, JSON decoding and the
  exception classes. They are reduced to `fetch` returning `Failed` or the
  body's `results` member. A body whose records are not objects, or whose
  members are neither strings nor `null`, is not modelled.
- `escape_markdown` is a parameter. Its internals are in a library that is not
  part of this model.
- `random.randint` and `random.choice` are replaced by the given page and
  index.
- `GENRE_MAP` lives in genreMap.py, which is not part of this model. The
  lexicon is a parameter.
- Not modelled: loading the environment, the import-time check of
  `BOT_TOKEN`/`TMDB_API_KEY`, `build_bot` handler registration, and
  `start_command`'s static greeting. These are configuration and framework
  wiring.
- The async/await mechanics of the handlers are not modelled. Only the
  resulting sequence of messages is.
- The "No recommendations" and "Please type something" replies are assumed
  to be delivered. Send failures are modelled only for the per-entry sends and
  their apologies.
- Strings.Lower: folds only the ASCII letters A–Z. Python's `str.lower()`
  also folds other Unicode letters.
- Tmdb.Url: interpolates the prompt as it is, as the f-string does. The
  percent-encoding that `requests` applies on the wire is not modelled.
- Idempotence of a lookup is not stated as a lemma. It holds because every
  member is a function of its inputs.
