# Vehicle Info Bot — a Dafny model of its core

The bot answers Telegram messages about vehicles. A text `/start` gets a
welcome message and `/info` gets a usage message. Any other non-empty text is
a search query. The bot downloads a JSON list of vehicle objects and scans it
in order. The first object selected by one of five checks is returned:
- the `id` equals the query;
- the `hex` equals the query;
- the lower-cased query occurs in the lower-cased `name`, `model` or `gxt`,
  tried in that order.

A found vehicle is replied with as a Markdown block of its fields. Otherwise
the bot sends a "not found" text that quotes the query, or a fetch-error text
when the download gave nothing.

The model has five modules:
- `Text` models the Python string built-ins the bot relies on: `lower`,
  `strip`, `in` between strings and `str` of an integer. `lower`, `strip` and
  `in` are each proved against a reference characterisation. `str` of an
  integer is proved to read back to the number. `Text` also holds
  `JoinLines`, the model's own reference form of a block of lines. The source
  never joins lines; it appends them with `+=`, and the formatter is proved to
  build the same text.
- `Records` models a vehicle object as `vehicle.get(key)` sees it. Each field
  is absent, null, a string, an integer or a boolean. It also defines Python
  truthiness and the `str()` rendering.
- `Matcher` holds `search_vehicle`. `Search` is the specification function and
  `SearchVehicle` is the loop with its early returns, proved equal to it.
- `Formatter` holds `format_vehicle_info`. `VehicleInfo` is the specification
  and `FormatVehicleInfo` appends the pieces one by one, as the source does.
- `Bot` holds the decision logic of `handle_update` and `handle_vehicle_search`.
  What the fetch returned is a parameter (`None` for a failed download). The
  message that would be sent is the returned `Outcome`: `Silent`, one
  `Replied(Reply(chat, text, markdown))`, or `Raised` when a Python exception
  escapes the handler.

Behaviour worth knowing, which the model follows as the code has it:
- A `gxt` (or any field) that is present with a JSON null is rendered as
  `None`, not `N/A`. `vehicle.get(key, 'N/A')` replaces only an absent key.
- A downloaded dataset that is empty (or null) is answered with the
  fetch-error text, because the handler tests `if not vehicles`.
- An `id` or `hex` stored as a JSON number never equals the query text. So a
  numeric id is never matched, although the help text suggests sending
  "a vehicle ID (e.g. 400)" (main.py:143).
- A truthy `name`, `model` or `gxt` that is not a string makes `.lower()`
  raise, and the search raises with it (`SearchError`). An update whose
  message lacks `chat.id`, or whose `text` is present but not a string, raises
  too (`Raised`).

## Model

| member | source | states |
|---|---|---|
| Matcher.Probe | main.py:73-90 | A record is selected by id exactly when its id equals the query, and by hex exactly when its hex does and its id does not. A selection by name, model or gxt means that field is a string whose lower-cased form contains the lower-cased query. The checks raise only when one of name, model or gxt is truthy but not a string. |
| Matcher.SearchVehicle | main.py:67-92 | The loop returns exactly what `Search` specifies: the first record some check selects, `NotFound` when every record is passed over, or `SearchError` when the first record that is not passed over makes `.lower()` raise. |
| Matcher.Search | main.py:72-92 | A found vehicle is one of the dataset's records. |
| Matcher.SearchFirstHit | main.py:72-90 | First match wins: if every record before index `i` is passed over, a check firing on record `i` makes the search return that record, and a raise on it makes the search raise. |
| Matcher.SearchFoundAt | main.py:72-90 | A found record sits at an index where a check fires, and every record before that index is passed over. |
| Matcher.SearchNotFoundIff | main.py:72-92 | The search returns nothing exactly when no check fires and nothing raises on any record. |
| Matcher.SearchAppend | main.py:72-92 | Records after a prefix matter only when the prefix finds nothing. Otherwise the prefix's result stands. |
| Matcher.ExactMatchFound | main.py:72-78 | If every record before index `i` is passed over and record `i`'s id or hex equals the query, the search returns record `i`, whatever its other fields hold. |
| Matcher.NumericIdNeverMatches | main.py:73-74 | An id that is a number never selects the record by id, since it is never equal to the query string. |
| Matcher.FalsyFieldsSkipped | main.py:81-90 | An absent, null, empty or otherwise falsy name, model or gxt never selects the record. When all three are falsy, nothing about the record raises. |
| Matcher.NameMatchIgnoresCase | main.py:69-82 | If the lower-cased query occurs at any index of the lower-cased name, and neither id nor hex matched, the name check selects the record. |
| Matcher.SearchCaseInsensitive | main.py:69-90 | Two queries that lower-case alike give the same search result, as long as neither equals an id or hex. |
| Matcher.ModelMatchIgnoresCase | main.py:69-86 | If the lower-cased query occurs at any index of the lower-cased model, and the id, hex and name checks passed the record over, the model check selects it. |
| Matcher.GxtMatchIgnoresCase | main.py:69-90 | If the lower-cased query occurs at any index of the lower-cased gxt, and the four earlier checks passed the record over, the gxt check selects it. |
| Matcher.EmptyQueryFindsNamedRecord | main.py:69-82 | The empty query is in every name: the first record with a non-empty string name is found, once the records before it are passed over. |
| Matcher.SelectedRecordIsTruthy | main.py:116-118 | A record some check selects has a present key. It is therefore a non-empty dict, which Python treats as true in `if result:`. |
| Formatter.VehicleInfo | main.py:96 | The reply text begins with the heading `🚗 *Vehicle Information*` and a blank line. |
| Formatter.FormatVehicleInfo | main.py:94-106 | The text built by successive appends equals `VehicleInfo`: the heading, then the five field lines joined by line breaks, then the Notes line when the notes are truthy. |
| Formatter.FieldLinesInOrder | main.py:96-101 | There are five lines, or six with notes. They are ID, Hex, Name, Model and GXT in that order, each its label then the field's rendering, in back-ticks except the name. On every line an absent key reads `N/A` and a null reads `None`. |
| Formatter.NotesLineOnceAndLast | main.py:103-104 | A Notes line appears only when the notes are truthy, and then exactly once, as the last line. |
| Formatter.InfoWithNotes | main.py:101-104 | Notes only add a suffix. With falsy notes the text equals that of the same record without notes; with truthy notes it is that text plus a line break and `*Notes:* ` and the notes. |
| Formatter.FieldBlockLayout | main.py:96-101 | Without notes, the text is the heading followed by the five field pieces exactly as the source appends them. |
| Formatter.FieldBlockPieces | main.py:96-101 | For any five field renderings, joining the labelled lines after the heading gives the source's concatenation of pieces. |
| Bot.Classify | main.py:133-158 | Empty text is ignored. Exactly `/start` asks for the welcome and exactly `/info` for the help. Any other text is a search for that text itself. |
| Bot.Receive | main.py:126-131 | No message exactly when the update lacks the `message` key. The lookup raises only on a missing chat id, or on a text that is present but not a string. Otherwise it yields the message's own chat id and its text stripped, with an absent text read as empty. |
| Bot.Respond | main.py:133-158 | Stripped text gives no reply exactly when it is empty. Any reply goes to the given chat. |
| Bot.HandleVehicleSearch | main.py:108-122 | A search is never silent and replies to the given chat. A Markdown reply only follows a search that found a record. It raises only when the dataset is non-empty and the matcher raises. |
| Bot.HandleUpdate | main.py:124-158 | A reply is only sent to the chat id of the update's own message. |
| Bot.SilentIff | main.py:124-134 | The handler stays silent (no reply, no exception) exactly when the update has no message, or the message comes from a known chat and its text is absent or all white space. |
| Bot.RaisedIff | main.py:124-158 | The handler raises exactly when the message lacks a chat id or has a non-string text, or when a search on a non-empty dataset makes the matcher raise. |
| Bot.ReceivedRaisedIff | main.py:131-158 | Once the text is read, the handler raises only through the matcher, on a search with a non-empty dataset. |
| Bot.RespondRaisedIff | main.py:136-158 | On stripped text, only a search can raise, and only when the matcher raises on the non-empty dataset. |
| Bot.ReceivedTextIsStripped | main.py:131 | The text handed on has already been stripped, so stripping it again changes nothing. |
| Bot.RespondNonEmpty | main.py:133-158 | Non-empty stripped text always gets a reply or raises; it is never silent. |
| Bot.SearchAlwaysAnswers | main.py:108-122 | A vehicle search always replies or raises; it is never silent. |
| Bot.ReplyGoesToSender | main.py:124-158 | Every reply goes to the chat id of the message it answers. |
| Bot.RawTextDispatch | main.py:129-158 | A message is handled exactly as its stripped text would be. Raw text that strips to `/start` gets the welcome text without Markdown. Raw text that strips to `/info` gets the help text in Markdown. Any other text that is not blank is searched for after stripping. |
| Bot.SearchQueryIsClean | main.py:131-158 | A query reaching the search is non-empty, is not a command, has no white space at either end, and is unchanged by stripping again. |
| Bot.BlankExample | main.py:131-134 | A message that is two spaces gets no reply. |
| Bot.FetchErrorIgnoresQuery | main.py:110-114 | A failed fetch, or an empty dataset, gives the fetch-error text without Markdown whatever the query. |
| Bot.SearchReply | main.py:116-122 | On a non-empty dataset: a found record is replied with as its formatted block in Markdown. The not-found text is sent exactly when every record is passed over. The handler raises exactly when the matcher does. |
| Bot.NotFoundDiffersFromInfo | main.py:119-122 | The not-found text is never a vehicle block; the two begin with different characters. |
| Bot.NotFoundQuotesQuery | main.py:122 | The not-found text contains the query, and contains it in double quotes. |
| Text.LowerAt | main.py:69 | Each character of the lower-cased string is the lower-cased character at that index, and the length is kept. |
| Text.LowerIdempotent | main.py:69 | Lower-casing twice equals lower-casing once, and leaves no upper-case ASCII letter. |
| Text.ContainsIff | main.py:81-90 | `Contains` (Python's `in` between strings) holds exactly when the needle occurs at some index of the haystack. |
| Text.ContainsAt | main.py:81-90 | An occurrence at any index makes `Contains` true. |
| Text.ContainsEmpty | main.py:81-90 | The empty string is in every string. |
| Text.StripSpec | main.py:131 | `strip` leaves the slice of the input that has only white space before and after it, and that slice neither begins nor ends with white space. |
| Text.StripIdempotent | main.py:116 | Stripping a stripped string changes nothing. |
| Text.StripEmptyIff | main.py:131-134 | A string strips to empty exactly when every character is white space. |
| Text.JoinLinesSnoc | main.py:103-104 | Joining one more line adds a line break and that line at the end. |
| Text.NatToStringDigits | main.py:97 | `str` of a non-negative integer is decimal digits, with no leading zero unless it is the single digit 0. |
| Text.NatToStringRoundTrip | main.py:97 | Reading the digits of `str(n)` back gives `n`. |
| Text.IntToStringRoundTrip | main.py:97-104 | `str(n)` of a negative integer is a minus sign followed by digits that read back to `-n`. Of any other integer, its digits read back to `n`. |
| Records.Truthy | main.py:81-90 | A truthy field is present and not null. A string field is truthy exactly when it is non-empty. |
| Records.DisplayOrNA | main.py:97-101 | `vehicle.get(key, 'N/A')` in an f-string reads `N/A` for an absent key only. A null reads `None`, a string reads itself, and a number reads its decimal form. |

## Left out

- Sending and fetching are not modelled (`send_message`, `fetch_vehicles_data`
  and the aiohttp session, main.py:21-65). They are HTTP I/O. The fetch result
  is a parameter of `HandleVehicleSearch`. A send is the returned `Reply`;
  send failures are only logged by the source and change nothing.
- The web server is not modelled: `webhook_handler`, `health_check`,
  `init_app`, `cleanup` and the `__main__` block (main.py:160-195). The
  webhook handler turns an exception into an HTTP 500 response; that is the
  `Raised` outcome here.
- Not modelled: `async` scheduling, logging, and the configuration read from
  the environment (the bot token and the dataset URL).
- Text.Lower: models `str.lower` on ASCII letters only. Python's full Unicode
  case mapping, including mappings that change length, is out of scope.
- Records.Field: JSON floats, arrays and objects as field values are not
  modelled. Integers stand for numbers. A float id would also never equal the
  query text.
- A dataset that is not a JSON list, or has elements that are not objects, is
  not modelled. The dataset is a sequence of records.
- A `message` key whose value is not an object, or a `chat` without an `id`,
  is modelled only as "the chat id lookup raises" (`chatId == None`). The
  structure of the chat object is not modelled further.
- A chat `id` that is present but JSON null is not modelled: `chatId` is an
  optional integer, so it cannot hold a present null. The source does not
  raise there. It sends the reply to chat `None`, and Telegram's refusal is
  only logged.
- The Telegram parse mode is a boolean, `markdown`: either `'Markdown'` or no
  parse mode, the only two the source uses.
- Matcher.SearchResult: a found record is the `Found` variant. The source's
  `if result:` is justified separately by `SelectedRecordIsTruthy`, not by
  modelling Python object truthiness.
