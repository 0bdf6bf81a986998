# Meeting Organizer — a verified model of its core

The Meeting Organizer is a small web page for running a meeting: the user
starts a meeting record (title, date, comma-separated participants, notes),
adds action items, generates a summary (a fixed stand-in), and exports the
minutes of meeting (MoM) as an HTML page, offered as a base 64 `data:` download
link and optionally announced to a Microsoft Teams webhook.

This project models the parts of `meeting_organizer_app.py` that compute
something, and proves what they promise:

- `Text`: Python's `str.strip()`, `str.split(",")` and `sep.join(...)`. Strip
  and split each have laws that determine them completely (`StripUnique`,
  `SplitJoin` with `JoinSplit`); join has a length law and is split's inverse.
- `Records`: the meeting and action-item records, the three statuses, and the
  participants field, parsed as `[p.strip() for p in s.split(",")]`.
- `Minutes`: `generate_meeting_html`, with its template text as constants and
  the fields interpolated exactly as the source does, without escaping. Its
  partner is a parser, `ParseMinutes`. The parser reads every field back from
  any rendering whose fields contain no `<`. Some restriction is needed:
  `RenderIsNotInjective` exhibits two different summaries that render to the
  same document.
- `Base64`: the encoder of section 4 of RFC 4648 (standard alphabet, `=`
  padding) and a strict decoder, proved inverse in both directions.
- `Export`: `get_download_link`, with a link reader that recovers the file
  name and the encoded document.
- `Teams`: the text digest `send_to_teams` posts, the request it makes, and
  the caller's rule: skipped without a webhook, sent on status 200, failed
  otherwise.
- `SessionState`: the session as a class, `Session`. It holds the webhook
  setting, the append-only `meetings` and `actionItems` histories and the
  `summaryChunks` list, which is replaced wholesale. One method per handler.
  `Valid()` is kept by every method: each stored meeting's participants list is
  one that a participants field parses to (non-empty, every entry stripped and
  comma-free; `ParticipantsAreParses` shows this is exactly the parse's range),
  and the summary is empty or the stand-in.

The code escapes nothing, so the renderer escapes nothing. Participants are not
filtered: an empty field gives `[""]`, and duplicates stay. There is only the
stand-in summary of lines 124-128; the LLM call that the comment at line 123
mentions is never made.

External effects are parameters. `html.encode()` is `encode: string -> seq<byte>`.
The webhook's answer to a request is `post: Request -> int`. The UUID of a new
meeting and the `str(date)` texts are string arguments.

## Model

| member | source | states |
|---|---|---|
| Text.TrimStart | meeting_organizer_app.py:96 | the result is a suffix of the input, what was removed is all white space, and the result does not start with white space |
| Text.TrimEnd | meeting_organizer_app.py:96 | the result is a prefix of the input, what was removed is all white space, and the result does not end with white space |
| Text.Strip | meeting_organizer_app.py:96 | the stripped text neither begins nor ends with white space (Python's `str.isspace` set) |
| Text.StripRemovesOnlySpace | meeting_organizer_app.py:96 | the stripped text is a slice of the input with only white space cut at the two ends |
| Text.StripUnique | meeting_organizer_app.py:96 | white space, then a stripped text x, then white space always strips to exactly x |
| Text.StripIdempotent | meeting_organizer_app.py:96 | stripping twice is stripping once |
| Text.Split | meeting_organizer_app.py:96 | `s.split(",")` always has at least one piece, even for the empty text |
| Text.SplitCount | meeting_organizer_app.py:96 | `s.split(",")` has exactly one more piece than `s` has commas |
| Text.SplitPiecesHaveNoSeparator | meeting_organizer_app.py:96 | no piece of a split contains the separator |
| Text.JoinSplit | meeting_organizer_app.py:96 | joining the pieces with the separator gives back the input, so the pieces are the input's segments in order |
| Text.Join | meeting_organizer_app.py:45 | `sep.join(parts)`: no parts give "", and otherwise the length is the parts' total plus one separator between each two neighbours; its partner is Split, through SplitJoin and JoinSplit |
| Text.SplitJoin | meeting_organizer_app.py:96 | splitting the join of a non-empty list of separator-free pieces gives back that list |
| Records.StatusText | meeting_organizer_app.py:108 | a status is displayed as one of "Pending", "In Progress", "Done" |
| Records.StatusFromText | meeting_organizer_app.py:108 | a text reads back as a status exactly when it is one of the three choices |
| Records.StatusTextRoundTrip | meeting_organizer_app.py:108 | every status reads back from its displayed text |
| Records.StripAll | meeting_organizer_app.py:96 | same length as the pieces, and entry k is the k-th piece stripped |
| Records.ParseParticipants | meeting_organizer_app.py:96 | one participant per split piece, so never an empty list |
| Records.ParticipantsCount | meeting_organizer_app.py:96 | the participants list has exactly (number of commas) + 1 entries |
| Records.ParticipantsAreSegments | meeting_organizer_app.py:96 | entry k is the k-th comma-free segment of the input stripped, and the segments with their commas make up the whole input |
| Records.ParsedParticipantsWellFormed | meeting_organizer_app.py:96 | every parsed list has at least one entry, and every entry is stripped and comma-free |
| Records.ParticipantsAreParses | meeting_organizer_app.py:96 | a list is well-formed (non-empty, entries stripped and comma-free) exactly when some participants field parses to it |
| Records.ReparseParticipants | meeting_organizer_app.py:96 | the participants line built from a parse (joined with ", "), parsed again, gives the same list |
| Records.ParseDisplayedParticipants | meeting_organizer_app.py:96 | stripped comma-free names joined with ", " (as the minutes display them) parse back to the same list |
| Records.EmptyParticipantsField | meeting_organizer_app.py:96 | an empty field gives the one-entry list `[""]` |
| Records.ParticipantsKeepEmptiesAndDuplicates | meeting_organizer_app.py:96 | "Bob, , Bob" gives ["Bob", "", "Bob"]: empties and duplicates are kept |
| Minutes.ListBody | meeting_organizer_app.py:49 | `<li>point</li>` for each summary line, concatenated (each item is ListItem): the length is the lines' total plus nine characters per line; partners ListBodyAppend and ParseListBody |
| Minutes.ListBodyAppend | meeting_organizer_app.py:49 | one `<li>point</li>` per summary line in order: one more line appends exactly one item |
| Minutes.RowsAppend | meeting_organizer_app.py:56 | one `<tr>` of four cells per action item in order: one more item appends exactly one row |
| Minutes.Rows | meeting_organizer_app.py:56 | one Row, `<tr><td>task</td><td>assignee</td><td>due date</td><td>status</td></tr>`, per action item, concatenated; partners RowsAppend and ParseTableRows |
| Minutes.ParseListBody | meeting_organizer_app.py:48-50 | the list body reads back as exactly the summary lines, in order, with the text after it untouched |
| Minutes.ParseOneRow | meeting_organizer_app.py:56 | a row reads back as its task, assignee, due date and status, in that cell order |
| Minutes.ParseTableRows | meeting_organizer_app.py:54-57 | the rows read back as exactly the action items, in order |
| Minutes.Render | meeting_organizer_app.py:29-62 | the page: the fixed template text with title, date, participants joined by ", ", the list body and the table rows interpolated unescaped, in that order; partner ParseRender |
| Minutes.ParseRenderBody | meeting_organizer_app.py:49-61 | the summary list, the fixed text before the table, the rows and the footer read back as exactly the summary lines and the action items |
| Minutes.ParseHeader | meeting_organizer_app.py:30-46 | the fixed head, the title, the date and the participants line read back verbatim when none contains `<` |
| Minutes.ParseRender | meeting_organizer_app.py:29-62 | a rendering reads back as the title and date verbatim, the participants joined with ", ", every summary line and every action item, in order, sections in fixed order; empty lists give an empty list body and a header-only table |
| Minutes.ListBodyMerge | meeting_organizer_app.py:49 | one summary line holding `</li><li>` gives the same list body as the two lines around it |
| Minutes.RenderIsNotInjective | meeting_organizer_app.py:29-62 | with no escaping, two different summaries (one line holding `</li><li>`, and the two lines around it) render to the same document |
| Minutes.SprintReviewExample | meeting_organizer_app.py:29-62 | the sprint-review example renders to a document whose fields read back as "Sprint Review", "2024-06-01", "Alice, Bob", the one summary line and the Fix bug / Bob / 2024-06-04 / Pending row |
| Minutes.ExampleFields | meeting_organizer_app.py:45 | in the example the participants display as "Alice, Bob" and no field contains `<` |
| Base64.CharOf | meeting_organizer_app.py:65 | every encoded value maps to a character of the RFC 4648 alphabet |
| Base64.ValueOf | meeting_organizer_app.py:65 | a character has a value exactly when it belongs to the alphabet, and the value encodes back to it |
| Base64.ValueOfCharOf | meeting_organizer_app.py:65 | every value is recovered from its character |
| Base64.EncodeTriple | meeting_organizer_app.py:65 | three bytes become four alphabet characters |
| Base64.EncodeTail | meeting_organizer_app.py:65 | a final group of one or two bytes becomes four characters ending in two or one "=" |
| Base64.Encode | meeting_organizer_app.py:65 | the encoding of n bytes has 4·⌈n/3⌉ characters |
| Base64.EncodeCharacters | meeting_organizer_app.py:65 | the encoding is alphabet characters followed by exactly the padding count of "=" (none, two or one for n mod 3 = 0, 1, 2) |
| Base64.VectorF | meeting_organizer_app.py:65 | "f" encodes to "Zg==", the first test vector of section 10 of RFC 4648 |
| Base64.VectorFo | meeting_organizer_app.py:65 | "fo" encodes to "Zm8=" (RFC 4648 section 10) |
| Base64.VectorFoo | meeting_organizer_app.py:65 | "foo" encodes to "Zm9v" (RFC 4648 section 10) |
| Base64.VectorFoobar | meeting_organizer_app.py:65 | "foobar" encodes to "Zm9vYmFy" (RFC 4648 section 10), group by group |
| Base64.HighBytes | meeting_organizer_app.py:65 | the bytes 255, 254, 253 encode to "//79", using the alphabet's last two characters |
| Base64.DecodeEncode | meeting_organizer_app.py:65 | decoding the encoding of any bytes gives back those bytes |
| Base64.EncodeDecode | meeting_organizer_app.py:65 | every text the decoder accepts is the encoding of what it decodes to |
| Export.DownloadLink | meeting_organizer_app.py:64-66 | the anchor: the base 64 payload of the document's bytes in a `data:text/html` href, then the file name (by default "meeting.html"); partner ReadDownloadLink |
| Export.ReadDownloadLink | meeting_organizer_app.py:64-66 | the link's payload is exactly the base 64 encoding of the document bytes, its file name is the one given, and decoding the payload gives back the bytes |
| Export.DefaultDownloadName | meeting_organizer_app.py:64 | without a file name the link offers "meeting.html" |
| Export.PayloadHasNoQuote | meeting_organizer_app.py:66 | the payload never contains the quote that closes the href attribute |
| Teams.MessageText | meeting_organizer_app.py:69-71 | the digest: a bold "Meeting Summary:" heading with the title, the date line, the participants joined with ", " and a "View MoM" link to the summary reference; partner ReadMessage |
| Teams.ReadRequest | meeting_organizer_app.py:68-74 | the request goes to the webhook URL as JSON, and its `{"text": ...}` body is the digest, whose title, date, participants line and reference read back |
| Teams.ReadMessage | meeting_organizer_app.py:69-71 | the digest carries the title and date verbatim, the participants joined with ", " and the MoM reference, readable back in that order |
| Teams.Notify | meeting_organizer_app.py:147-154 | skipped exactly when the webhook is empty, sent exactly when the webhook answers 200, otherwise failed with the answered status |
| Teams.NoWebhookNoCall | meeting_organizer_app.py:147 | with an empty webhook the outcome does not depend on the network at all |
| SessionState.Session.constructor | meeting_organizer_app.py:15-26 | a new session has no webhook, no meetings, no action items and no summary |
| SessionState.Session.Configure | meeting_organizer_app.py:80 | sets the webhook and leaves the three collections unchanged |
| SessionState.Session.StartMeeting | meeting_organizer_app.py:91-99 | appends exactly one meeting, with the participants parsed from the field, and changes nothing else |
| SessionState.Session.AddActionItem | meeting_organizer_app.py:111-117 | appends exactly one action item, whose status is one of the three choices, and changes nothing else |
| SessionState.Session.GenerateSummary | meeting_organizer_app.py:124-128 | the summary becomes the three stand-in lines whatever it held; nothing else changes |
| SessionState.GenerateSummaryTwice | meeting_organizer_app.py:122-128 | generating the summary twice leaves the state of generating it once |
| SessionState.Session.LatestMeeting | meeting_organizer_app.py:139-142 | no meeting exactly when the history is empty, otherwise the last one added |
| SessionState.Session.DisplayedParticipantsReparse | meeting_organizer_app.py:96 | in every valid session, the latest meeting's participants line as the minutes show it parses back to that meeting's participants |
| SessionState.StartThenLatest | meeting_organizer_app.py:92-99 | right after a meeting is started it is the latest meeting, the one the export step uses, built from the form's id, title, date, parsed participants and notes; webhook, action items and summary stay as they were |
| SessionState.Session.ExportMinutes | meeting_organizer_app.py:138-154 | with an empty history, no document; otherwise the minutes of the last meeting with the global summary and action items, the download link over their bytes, and the notification outcome |

## Left out

- The Streamlit page itself: forms, buttons, messages, `components.html` and the markdown display of the summary (lines 12, 77-154 apart from the state updates). It is presentation only.
- `requests.post` (line 73): the network is the parameter `post`. A transport exception would propagate uncaught in the source; the model has no such path.
- The JSON serialisation of the `{"text": ...}` body and of the header map. They are the library's; the model keeps the body as the datatype `Message`.
- `uuid.uuid4()`, `datetime.today()`, `date_input` and `timedelta` (lines 86, 93, 107): the id and the dates are string arguments.
- The UTF-8 codec of `html.encode()`: it is the parameter `encode`.
- The unused `BackgroundScheduler` import (line 9).
- Python's own `base64.b64decode` is lenient; the source never decodes. The decoder here is the strict canonical one, used only to state the round trip.
- Minutes.ParseRender: reads a rendering back only when no field contains `<`. Some restriction is needed, as RenderIsNotInjective exhibits a collision; whether a weaker one would do is not explored.
- Teams.ReadMessage: reads the digest back only when the title, date and participants contain no line break.
- Teams.ReadRequest: the same restriction as ReadMessage, on whose result it rests.
- Export.ReadDownloadLink: reads the file name back only when it contains no `"`; the default name has none.
- Minutes.SprintReviewExample: states the example's row through the parsed action item, not as a literal substring of the page.
