# Telegram chat bot: handler decisions and store invariants

This project models the core of a single-file Telegram bot (`bot.py`). The bot stores its users, chat history and uploaded-file metadata in three MongoDB collections. It answers:

- `/start`: registers the chat or welcomes it back.
- A shared contact: saves the phone number.
- A text message: replies with a generated answer tagged with a sentiment emoji.
- An uploaded document: stores its metadata and replies according to the file-name suffix.
- `/websearch`: runs a web search and summarises the top five results.

The model has these modules:

- `Wrappers` (`wrappers.dfy`): `Option`, used for nullable fields and missing lookups.
- `Text` (`text.dfy`): Python's `str.endswith` and `sep.join`. It also has `str.split`, the inverse of `join`, which is used to state what a joined query or the multi-line summary contains.
- `Replies` (`replies.dfy`): the decisions made without the store. These are:
  - the emoji chosen from the polarity's sign, and the `"{response} {emoji}"` reply;
  - the suffix classifier and the document reply;
  - the `/websearch` command and its summary loop.
- `Storage` (`storage.dfy`): the record shapes. It also has `find_one` by `chat_id` (the first match), and the changes that `/start` and a contact share make to `users`, written as functions on sequences.
- `Handlers` (`handlers.dfy`): class `Bot`. Its three collections are `seq` fields that the handler methods reassign. Every method keeps the invariant "at most one user per `chat_id`". Every method's `ensures` states the whole new state in terms of the `Storage` functions.

External outputs are parameters:

- the TextBlob polarity, as a `real`;
- the Gemini answer text;
- whether the file download succeeds, as a `bool`;
- whether PIL can decode the uploaded bytes, as a `bool`;
- the SerpAPI response, as a function from query to an optional list of `(title, link)` results. `None` means the response has no `organic_results` key.

`WebSearch` returns the query it issued, or `None` when it issued no search.

The document handler ends in one of three ways: a reply, no reply, or a raised exception (`Reply.Raised`). Only `HandleDocument` models a raise, in these situations:

- A compressed-photo update reaches `handle_document` with `update.message.document` None. Reading `file.file_id` (bot.py:95) then raises before the insert at bot.py:101, so nothing is stored.
- The download (bot.py:96-98) fails. It runs before the insert, so nothing is stored.
- A document without a file name is stored, and then `endswith` fails on `None` (bot.py:110).
- An image that PIL cannot decode (bot.py:111) is stored, and then the handler raises.

The other handlers can also raise in the source (see "## Left out"); the model does not represent those exceptions.

## Model

| member | source | states |
|---|---|---|
| `Replies.Emoji` | bot.py:73 | The emoji is the smiling face exactly when polarity > 0, the angry face exactly when polarity < 0, and empty exactly when polarity is 0. |
| `Replies.ReplyRoundTrip` | bot.py:87 | A reply built as `response + " " + emoji` can be parsed back into the same response and emoji. So the reply loses nothing, and a trailing space marks "no emoji". |
| `Replies.ReplyText` | bot.py:87 | The reply is exactly the response, one space, then the emoji, with nothing else added. `ReplyRoundTrip` and `ReplyShape` state what this means for the emoji chosen by polarity. |
| `Replies.ReplyShape` | bot.py:87 | The reply is the response, one space, then the emoji. It ends in a space exactly when the polarity is 0. |
| `Text.EndsWith` | bot.py:110-116 | `endswith` holds exactly when the name is some stem followed by the suffix. `AppendedSuffix` gives the converse for every stem. |
| `Replies.HasImageSuffix` | bot.py:110 | The tuple test: the name ends in `.jpg`, `.jpeg` or `.png`. Every such name ends in `g`, which is what separates it from `.pdf` (`PdfIsNotImage`). |
| `Replies.Classify` | bot.py:110-116 | A name is Image exactly when it ends in `.jpg`, `.jpeg` or `.png`. It is Pdf exactly when it ends in `.pdf`. Otherwise it is unrecognised. |
| `Replies.PdfIsNotImage` | bot.py:110-116 | No name ends both in `.pdf` and in an image suffix, so the order of the two tests does not matter. |
| `Replies.ClassifyBySuffix` | bot.py:110-116 | For every stem, `stem.jpg`, `stem.jpeg` and `stem.png` are images, and `stem.pdf` is a PDF. |
| `Replies.ClassifyIsCaseSensitive` | bot.py:110-116 | For every stem, `.JPG`, `.JPEG`, `.PNG` and `.PDF` names are unrecognised, because `endswith` is case-sensitive. |
| `Replies.DocumentReply` | bot.py:109-118 | A missing file name raises, and so does an image suffix whose bytes do not decode. A decodable image gets the image placeholder. A `.pdf` name gets the PDF placeholder. Any other name gets no reply. Each case holds in both directions. |
| `Replies.FirstFive` | bot.py:136 | The slice `[:5]` has min(5, n) elements, and they are the leading elements of the list. |
| `Replies.Entry` | bot.py:137 | One result's line starts with `- `, and it contains a newline only when the title or link does. `SummaryLines` uses this to split the summary back into lines. |
| `Replies.Summary` | bot.py:135-137 | The closed form of the summary starts with the header and a newline and ends with a newline. Its lines are stated by `SummaryLines`, and `Summarize` is proved equal to it. |
| `Replies.SearchReply` | bot.py:134-140 | The reply is "No search results found." exactly when the response has no `organic_results`. Otherwise it is the summary. |
| `Replies.Summarize` | bot.py:134-137 | The `+=` loop produces the header line and then one `- title: link` line per leading result. Every line ends in a newline. |
| `Replies.SummaryLines` | bot.py:134-138 | When titles and links contain no newline, the summary splits into exactly the header, the min(5, n) entries of the first results in their original order, and a final empty piece. An empty list gives just the header. |
| `Replies.WebSearch` | bot.py:121-140 | Empty args: the reply asks for a query and no search is issued. Otherwise the query is the args joined by single spaces. The reply is the summary of `organic_results`, or "No search results found." when that key is absent. |
| `Text.Join` | bot.py:124 | `" ".join(args)`: empty args give the empty string. Otherwise the length is the parts' total length plus exactly one separator between each pair. `SplitJoin` and `JoinSplit` show that the join is inverted by `split`. |
| `Replies.QueryRoundTrip` | bot.py:124 | Args that contain no spaces are recovered by splitting the query on spaces. |
| `Text.SplitJoin` | bot.py:124 | Splitting `sep.join(parts)` on `sep` gives back the parts, provided no part contains `sep`. |
| `Text.JoinSplit` | bot.py:124 | `sep.join(s.split(sep)) == s` for every string. |
| `Text.JoinSnoc` | bot.py:137 | Appending a part to a non-empty join adds one separator and that part. This is the step of the summary loop. |
| `Storage.FindUser` | bot.py:41 | `find_one` by chat id returns the first user with that chat id, or none when no user has it. |
| `Storage.NewUser` | bot.py:45-51 | The inserted user has the sender's first name, username and chat id, no phone number and 0 referral points. |
| `Storage.StartUsers` | bot.py:41-51 | `users` after `/start` keeps every existing record as a prefix and grows by at most one. It grows exactly when the chat id was unknown, and the new record has that chat id. `StartRegisters`, `StartKeepsUnique` and `StartIdempotent` state the rest. |
| `Storage.SetPhone` | bot.py:60-63 | The `update_one` keeps the user count and every user's chat id. `SetPhoneFrame`, `SetPhoneStores`, `SetPhoneKeepsUnique` and `SetPhoneIdempotent` state exactly which field changes. |
| `Storage.UniqueMatch` | bot.py:60-61 | While chat ids are unique, the first match is the only match, so a first-match lookup or update picks the one user with that chat id. |
| `Storage.StartRegisters` | bot.py:41-51 | After `/start` the chat id is registered. A newly inserted record has the given names, that chat id, no phone number and 0 referral points. |
| `Storage.StartKeepsUnique` | bot.py:41-51 | `/start` preserves the invariant of at most one user per chat id. |
| `Storage.StartIdempotent` | bot.py:41-51 | A second `/start` for the same chat leaves `users` unchanged, whatever names it carries. So two starts never create two records. |
| `Storage.SetPhoneFrame` | bot.py:60-63 | The `$set` keeps the user count. It changes only `phone_number` of the matching user, and every other record is unchanged. With no match, `users` is unchanged. |
| `Storage.SetPhoneKeepsUnique` | bot.py:60-63 | Setting a phone number preserves the invariant of at most one user per chat id. |
| `Storage.SetPhoneStores` | bot.py:60-63 | After the update, the lookup finds the same user, and that user now holds the shared phone number. |
| `Storage.SetPhoneIdempotent` | bot.py:60-63 | Sharing the same number twice is the same as sharing it once. |
| `Handlers.Bot.constructor` | bot.py:19-22 | The bot starts over existing collections whose chat ids are unique. |
| `Handlers.Bot.Start` | bot.py:36-52 | A known chat id gets "Welcome back!" and the three collections are unchanged. A new chat id gets exactly one appended default user and the welcome prompt. The invariant is kept. |
| `Handlers.Bot.HandleContact` | bot.py:55-64 | Only the matching user's phone number changes, and the user count is the same. With no match, `users` is unchanged. The thanks are always sent, and the other collections are untouched. |
| `Handlers.Bot.HandleMessage` | bot.py:67-87 | Exactly one history entry is appended: the text, the generated answer and the message date. `users` and `files` are untouched. The reply is the answer, a space and the emoji. |
| `Handlers.Bot.HandleDocument` | bot.py:90-118 | With no document, or when the download fails, the handler raises and stores nothing. Otherwise exactly one file record with the document's name, id, size and the message date is appended before classification. The reply is `DocumentReply`. `users` and the history are untouched. |

## Left out

- The Telegram client, polling, async/await and handler registration (bot.py:143-155) are not modelled. Which handler an update reaches depends on the library's filter semantics. The `~filters.COMMAND` filter keeps command text away from `HandleMessage`.
- MongoDB connection, the environment and `.env` loading, and logging (bot.py:14-33) are not modelled. The collections are in-memory sequences. `find_one` and `update_one` take the first match in insertion order, which the uniqueness invariant makes harmless. The `_id` field that `insert_one` adds is not modelled.
- The sentiment score comes from TextBlob, a floating-point library. It is taken as a `real` parameter.
- The Gemini call is not modelled, and the answer text is a parameter. In the file, `model` (bot.py:76) is never defined, so as written this line raises before anything is stored or sent. The model follows the evident intent: generate, store, reply.
- `ContactRequest` (bot.py:52) is never defined either, so as written the new user is stored and then the welcome reply raises. The model sends the welcome text. The reply keyboard is not modelled.
- The file download (bot.py:96-98) and PIL decoding (bot.py:111) are not modelled. Whether each succeeds is a `bool` parameter.
- The SerpAPI request and URL construction (bot.py:130-131) are not modelled. As written, the query is not URL-encoded, and HTTP and JSON errors propagate. A result without `title` or `link` would raise `KeyError`. Results are modelled as always having both fields.
- A compressed-photo update reaches `handle_document` with `update.message.document` None, so `file.file_id` (bot.py:95) raises before the insert at bot.py:101.
- An empty `organic_results` list gets the header line alone (bot.py:134-138), not "No search results found.".
- The SerpAPI call (bot.py:131) can raise in `websearch`. As noted above, so can the undefined names in `start` and `handle_message`. The model does not represent these exceptions; only `HandleDocument` returns `Raised`.
