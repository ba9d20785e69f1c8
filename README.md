# Guestbook entry service, modelled in Dafny

A guestbook takes a name and a message, stores them as an entry, and lists
all entries newest first. The repository holds two interchangeable servers
and one browser script:

- `app.py` keeps every entry in one JSON file. A POST trims the fields,
  refuses a blank message with 400 `Message is required`, then reads the
  whole list, inserts the new entry at the front and writes the list back.
  A missing or unparseable file reads as no entries.
- `app_database.py` keeps entries in a SQLite table with an AUTOINCREMENT
  id. It validates the same way, inserts one row, and lists rows
  `ORDER BY id DESC`. Its 201 body has no id.
- `script.js` trims the form fields and blocks an empty message before
  posting. It renders the list with `escapeHtml` applied to names and
  messages.

Modules, one per concern:

- `Wrappers.dfy`: `Option` and `Result`.
- `Seqs.dfy`: sequence reversal.
- `Text.dfy`: the two whitespace sets and `Strip`.
- `Guestbook.dfy`: the `Entry`, the request, the shared validation and the
  HTTP response.
- `FileBackend.dfy`: the JSON-file server, as the class `EntryFile` and a
  pure function `Post` for one POST.
- `SqlBackend.dfy`: the SQLite server, as the class `Database` with the
  table's rows, its AUTOINCREMENT counter and whether the table exists.
- `HtmlEscape.dfy`: `escapeHtml` and an inverse used to prove it injective.
- `Client.dfy`: the submit handler (class `EntryForm`), the list rendering
  (class `EntryList`) and how the client's trimming meets the server's.

Python's `str.strip()` and JavaScript's `String.prototype.trim()` remove
different characters. Python also strips U+001C to U+001F and U+0085.
JavaScript also strips U+FEFF. The model keeps both sets, so a message the
form accepts can still be refused by the server
(`Client.InformationSeparatorRefused`).

Two behaviours of the code a reader might not expect:

- A name that is present but blank after trimming is stored as `""`. It is
  not replaced by `Anonymous`: `data.get('name', 'Anonymous')` substitutes
  the default only when the key is missing (app.py:39,
  app_database.py:69).
- In the relational server, `create_table` runs only when the module is
  started as a script (app_database.py:100-102). Before it has run, both routes raise. The model
  answers 500 (`ServerError`) for a POST and `None` for a GET. Validation
  comes first, so a blank message is still a 400.

## Model

| member | source | states |
|---|---|---|
| Text.Strip | app.py:39-40 | The stripped string is the infix of the input between its leading and trailing runs of whitespace. It has no whitespace at either end. It is empty exactly when the input is all whitespace. |
| Text.StripTrimmed | app.py:39 | A string with no whitespace at its ends strips to itself, so the `'Anonymous'` default survives `.strip()`. |
| Guestbook.Validate | app.py:38-43 | Refused exactly when the message (absent reads as `""`) is all whitespace, with the error `Message is required`. Otherwise the message is the stripped input and is non-empty. The name is `Anonymous` only when the key is absent, else the stripped input. Both are trimmed. |
| Guestbook.BlankMessageRejected | app.py:40-43 | A message made only of spaces, of any length, or no message key, is refused whatever the name. |
| Guestbook.BlankNameStaysEmpty | app.py:39 | A present name that is blank becomes `""`, not `Anonymous`. |
| FileBackend.ReadEntries | app.py:14-21 | A missing or unparseable file reads as the empty list; a parsed file reads as its stored list. |
| FileBackend.EntryFile.WriteEntries | app.py:24-26 | The file afterwards holds exactly the given list. |
| FileBackend.EntryFile.GetEntries | app.py:31-33 | Returns the stored list untransformed (empty on a missing or malformed file). It modifies nothing, so two calls with no write between them agree. |
| FileBackend.Post | app.py:37-56 | One POST as a function of the file before it: never a 500; 201 exactly when the stripped message is non-empty, with a well-formed entry carrying the given id and timestamp, and the list read back is that entry above the old list; otherwise 400 `Message is required` and the file is unchanged. |
| FileBackend.EntryFile.AddEntry | app.py:37-56 | Response and new file are those of `Post`. A blank message gives 400 `Message is required` and leaves the file untouched. Otherwise the file holds the returned entry followed by the list read before. |
| FileBackend.PostRejectsBlank | app.py:40-43 | Status 400 exactly when the message is blank; the body is `Message is required` and the file is unchanged. |
| FileBackend.PostPrepends | app.py:45-56 | An accepted POST answers 201 with the entry it stored. That entry has the given id and timestamp, the stripped message, and the stripped name or `Anonymous`. The list read back is that entry followed by the old list in order, one longer. |
| FileBackend.PostKeepsWellFormed | app.py:39-54 | If every listed entry had a trimmed name and a trimmed non-empty message, that still holds after any POST. |
| FileBackend.ReplayNewestFirst | app.py:52-54 | After any run of POSTs, the list holds the entries of the accepted calls newest first, above the earlier list. Refused calls leave no trace. |
| FileBackend.SameMillisecondSharesId | app.py:46 | Ids are not checked: two accepted POSTs with the same clock reading store two entries with the same id. |
| SqlBackend.Database.constructor | app_database.py:21-23 | A freshly created database file has no table, no rows and a zero AUTOINCREMENT counter. |
| SqlBackend.Database.CreateTable | app_database.py:30-43 | The table exists afterwards. The rows and the counter are unchanged, so running it on an existing table changes nothing. |
| SqlBackend.Database.GetEntries | app_database.py:48-59 | Without the table the query fails. Otherwise the result is the rows, as a permutation, with ids strictly descending. That equals insertion order reversed, so the newest row comes first. |
| SqlBackend.Database.AddEntry | app_database.py:64-89 | A blank message gives 400 and no row. A missing table gives 500 and no row. Otherwise exactly one row is appended with an id one above the counter, larger than every id already present. The row holds the stripped name, the message and createdAt. The 201 body carries those three fields and no id. The invariant (ascending, bounded ids; well-formed rows) is kept. |
| SqlBackend.OrderByIdDesc | app_database.py:52 | `ORDER BY id DESC`: the result is a permutation of the rows whose ids never increase. |
| SqlBackend.OrderOfAscendingIsReverse | app_database.py:52 | On rows whose ids strictly ascend, as AUTOINCREMENT produces them, the descending listing is exactly the insertion order reversed. |
| HtmlEscape.EscapeChar | script.js:85-87 | The replacement table: `&` to `&amp;`, `<` to `&lt;`, `>` to `&gt;`, `"` to `&quot;`, `'` to `&#39;`. Every other character maps to itself. No image contains `<`, `>`, `"` or `'`. |
| HtmlEscape.EscapeHtml | script.js:84-88 | The output contains no `<`, `>`, `"` or `'`. Its length is at least the input's, with equality exactly when the input has none of the five special characters, in which case the output is the input. |
| HtmlEscape.UnescapeEscape | script.js:85-87 | Decoding the five references gives back the original string. |
| HtmlEscape.EscapeInjective | script.js:85-87 | Distinct inputs escape to distinct outputs. |
| HtmlEscape.EscapeAppend | script.js:85 | Escaping a concatenation is the concatenation of the escapes. |
| HtmlEscape.EscapeAt | script.js:85 | Each input character appears in the output as its own image, between the escapes of what precedes and follows it. Characters other than the five are therefore copied unchanged and in order. |
| HtmlEscape.NoOpeningBracket | script.js:80-87 | Escaped text holds no `<` at all. |
| Client.BuildPayload | script.js:52-56 | Nothing is sent exactly when the message field is all whitespace. Otherwise the payload holds the trimmed name and the trimmed, non-empty message. |
| Client.FailureAlert | script.js:75-76 | The alert after a refused post is the server's error text when non-empty, else `Failed to post`. It is never empty. |
| Client.EntryForm.Submit | script.js:50-78 | Sends `BuildPayload` of the field values. An empty message alerts `Message cannot be empty`, sends nothing and keeps the fields. An accepted post clears both fields. A refused post alerts and keeps them. |
| Client.PayloadStoredAsSent | script.js:52-56 | If neither field holds Python-only whitespace, the server accepts every payload the form sends. It stores the name and message exactly as sent; the name is never replaced by `Anonymous`. |
| Client.InformationSeparatorRefused | script.js:53-56 | A message of one U+001C passes the form's check but is refused by the server with `Message is required`. |
| Client.EntryHtmlTags | script.js:37-40 | The `<` characters in an entry's markup are those of the fixed template plus any in the locale date text. The name and message contribute none. |
| Client.EntryList.RenderEntries | script.js:27-43 | An empty list renders as exactly the placeholder item. Otherwise there is one item per entry, in order, each built from the escaped name, the local time and the escaped message. |

## Left out

- HTTP framework glue: Flask routing, `jsonify`, `request.get_json`, CORS, static file serving and the relational server's home route. Only the (status, body) outcome is modelled.
- File and JSON I/O: the data file is an abstract value, either missing, malformed, or a list of entries. A JSON document that parses to something other than a list, or to a list whose items are not entry objects (such as `[1]` or objects without `name`), is not modelled. Nor are undecodable bytes, which make `json.load` raise an uncaught error, or write failures.
- The clock: `id` and `createdAt` are parameters. The float timestamp arithmetic and ISO formatting are not modelled.
- Concurrency: the lost update between two concurrent read-modify-write cycles of the JSON file. The model is sequential.
- The SQLite engine: connections, commits and `sqlite3.Row` conversion. The table is an in-memory sequence of rows in rowid order. AUTOINCREMENT running out at the largest 64-bit rowid is not modelled.
- Request fields that are `null` or not strings, and a missing JSON body. Both make the server raise; fields are typed as optional strings.
- Browser I/O: DOM updates, `fetch`, `alert` display, event listeners and `Date.toLocaleString`. The locale rendering is a function parameter and the server's reply is a parameter of `Submit`. An error reply whose body is not JSON is not modelled.
- EntryForm.Submit: does not model the reload of the list (`loadEntries`) after an accepted post, because that is a fetch followed by `RenderEntries`.
- Characters are Unicode scalar values. JavaScript's UTF-16 code units and Python's lone surrogates are not modelled.
