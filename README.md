# webhook-logger: a Dafny model of the GitLab webhook handler

webhook-logger is a small Go service. It listens for GitLab webhook
deliveries over HTTP and appends each one to the `gitlab_webhooks` table of a
SQLite database. This project models the logic of its request handler and
proves properties of that model:

- **Configuration** (`env.dfy`, module `Env`): `getEnv` looks a variable up
  in the environment, which is modelled as a map. The default applies only
  when the variable is unset. `LoadSettings` reads the three settings of
  `main` with their defaults.
- **Header presence check** (`headers.dfy`, module `Headers`):
  `containsValuesInArray` is a method with the nested loop and the early
  return of the source. It is proved against a match-any predicate. The
  handler searches the list built by `make([]string, len(r.Header))`. That
  list holds only empty strings, because the loop that would fill it is
  commented out. `GitlabHeadersNeverFound` proves that no GitLab header
  name is ever found in it. So the handler never extracts header values,
  and every row it writes has empty header columns and `gotAllHeaders`
  false.
- **Base64** (`base64.dfy`, module `Base64`): the standard encoding of
  section 4 of RFC 4648, as Go's `encoding/base64.StdEncoding` implements
  it. The decoder skips line breaks, requires `=` padding, and does not
  check the padding bits. On an error it still returns the octets it
  decoded before the bad quantum. `RoundTrip` proves that decoding an
  encoding gives back the input without error.
- **Event record and body recovery** (`event.dfy`, module `Event`):
  - `gitlabEvent` and its zero value.
  - The struct literal the handler would build from the headers. A missing
    header is the index-out-of-range panic of the source.
  - `json.Marshal` of a byte slice, which yields a quoted Base64 string.
  - `PayloadRecovered` proves that the quote-stripping slice is in bounds,
    and that decoding what is left gives back the body exactly.
- **Row store and handler** (`store.dfy`, module `Webhook`): class
  `EventStore` holds the table rows and the AUTOINCREMENT counter.
  - `Insert` is the prepared insert statement.
  - `Handle` is the request handler. It fills in the event step by step,
    recovers the body, and inserts one row for a non-empty body. For an
    empty body it writes nothing.

Three behaviours of the code, which the model keeps as written:

- No JSON decoding or classification of the payload takes place. The
  stored payload is the raw body.
- A request whose headers fail the check is still stored, with empty header
  columns.
- Nothing distinguishes an undecodable body from any other non-empty body.

## Model

| member | source | states |
|---|---|---|
| Env.LookupEnv | main.go:44-47 | reports a variable as set exactly when the key is in the environment, with its value; unset gives "" |
| Env.GetEnv | main.go:43-49 | returns the environment's value when the key is present, even an empty one, and the fallback only when the key is absent |
| Env.EmptyValueIsKept | main.go:43-49 | the result is "" exactly when the variable is set to "" or is unset with an empty fallback: a set empty value is not replaced by the default |
| Env.LoadSettings | main.go:182-186 | each of the database file, log file and GitLab secret settings is its variable's value when set and the constant default otherwise |
| Headers.ContainsValuesInArray | main.go:124-133 | true iff some element of `values` equals some element of the searched list (match any); false when either list is empty |
| Headers.SearchedHeaderList | main.go:239-246 | the list searched has one entry per request header and every entry is the empty string |
| Headers.GitlabHeadersNeverFound | main.go:239-253 | for any number of request headers, none of the four GitLab header names occurs in the searched list, so the check is always false |
| Base64.SextetChar | main.go:283 | each 6-bit value maps to an alphabet character whose decoded value is that same value |
| Base64.CharValue | main.go:290 | an alphabet character decodes to a value in 0..63 |
| Base64.Sextets | main.go:283 | three octets split into four values, each in 0..63, that read as base-64 digits give the same 24-bit number as the octets read as base-256 digits |
| Base64.EncodeGroup | main.go:283 | a full group encodes as four alphabet characters that decode to the group's sextets |
| Base64.Encode | main.go:283 | the encoding has length 4 * ceil(n / 3), a multiple of 4, and holds only alphabet characters and '=' |
| Base64.RemoveLineBreaks | main.go:290 | the text the decoder reads holds no '\r' or '\n' and is no longer than the input (what it keeps is fixed by the lemmas below) |
| Base64.RemoveLineBreaksAppend | main.go:290 | line-break skipping distributes over concatenation: skipping in `a + b` is skipping in `a` followed by skipping in `b` |
| Base64.OtherCharacterKept | main.go:290 | a character other than '\r' and '\n' passes line-break skipping unchanged |
| Base64.LineBreakIgnored | main.go:290 | inserting a '\r' or '\n' anywhere in the input leaves the decoding (octets and error status) unchanged |
| Base64.Octets | main.go:290 | four 6-bit values give three octets that read as base-256 digits give the same 24-bit number as the values read as base-64 digits |
| Base64.DecodeQuanta | main.go:290 | a successful decode read a whole number of quanta, and the octets written fit three per four characters |
| Base64.Decode | main.go:290 | success implies the line-break-free input length is a multiple of 4; the output fits the decode buffer |
| Base64.OctetsOfSextets | main.go:283-290 | joining the sextets of three octets gives back those octets |
| Base64.NoLineBreaksKept | main.go:283-290 | text without line breaks passes the decoder's line-break skipping unchanged |
| Base64.DecodeFullQuantum | main.go:290 | four alphabet characters in front of more input decode to their three octets followed by the decoding of the rest, with the rest's error status |
| Base64.DecodeQuantaEncode | main.go:283-290 | the quantum decoder inverts the encoder on every octet sequence, without error |
| Base64.RoundTrip | main.go:283-292 | decoding the standard encoding of any octet sequence yields that sequence and no error |
| Base64.OneOctetTestVector | main.go:283 | "f" encodes as "Zg==" (RFC 4648, section 10) |
| Base64.TwoOctetTestVector | main.go:283 | "fo" encodes as "Zm8=" (RFC 4648, section 10) |
| Base64.FullGroupTestVectors | main.go:283 | "foo" encodes as "Zm9v" and "foobar" as "Zm9vYmFy" (RFC 4648, section 10) |
| Event.FirstValue | main.go:256-261 | yields `h[name][0]` exactly when the name is present with at least one value; otherwise the panic case |
| Event.EventFromHeaders | main.go:253-262 | the event is built iff all six named headers carry a value; its fields are their first values, the payload is empty and `gotAllHeaders` stays false |
| Event.MarshalBytes | main.go:283-288 | the JSON text starts and ends with a quote, is at least two characters long, and its inside is the Base64 encoding of the bytes |
| Event.PayloadRecovered | main.go:283-292 | the slice `[1 : len-1]` of the marshalled body is in bounds, and decoding it succeeds and yields the body |
| Event.BindEvent | main.go:197-209 | each of the eight insert columns, in the statement's column order, receives the event field of the same name, as the `Exec` call at main.go:294-303 passes them |
| Webhook.EventStore.IdsDistinct | main.go:57-58 | in a valid table no two rows share an id, so the primary key's `on conflict fail` never fires |
| Webhook.HandlerColumns | main.go:294-303 | the handler's columns are the zero event with the body as payload, bound in the insert statement's column order |
| Webhook.EventStore.constructor | main.go:57-69 | a new table is empty and hands out id 1 first |
| Webhook.EventStore.Insert | main.go:197-211 | appends one row carrying the next id and the given columns; earlier rows stay; the counter advances by one; the new id differs from every earlier row's id; ids stay increasing |
| Webhook.EventStore.Handle | main.go:225-311 | empty body: no row and no change; non-empty body: exactly one row appended with the next id, empty header columns, the body as payload and `gotAllHeaders` false, earlier rows untouched; no row ever claims all headers |
| Webhook.DuplicateDeliveryStoredTwice | main.go:57-69 | handling the same non-empty request twice on any valid table appends two rows with equal columns and different ids; no deduplication takes place; an empty body appends nothing |

## Left out

- Schema creation (main.go:51-123) is not modelled: the `CREATE ... IF NOT EXISTS` statements, the pipeline and job tables, and the `pipelines` view. They are SQLite behaviour behind a foreign driver. Only the append-only `gitlab_webhooks` table is modelled.
- The `created_at` and `processed_at` columns are not modelled. They are a clock value assigned by the database and a column nothing writes.
- The `contentLength` column is declared INTEGER and receives a Go string. SQLite's type affinity conversion is not modelled; the row keeps the bound value.
- The Prometheus counters and the `recordMetrics` goroutine (main.go:135-177) are not modelled: they are global metrics and concurrency.
- The HTTP server (`http.HandleFunc`, `ListenAndServe`) is not modelled. Handler calls run one at a time in the model, although Go runs them concurrently.
- The data race on `err` is not modelled. The handler closure assigns the `err` variable of `main` (declared at main.go:211, assigned at main.go:269 and 294, tested at main.go:270 and 304), which every concurrent request shares. One request's body-read error can therefore reach another request's test after `Exec` and end the process with `log.Fatalln`. A request can also see its own read error reset by another request and insert a partially read body. The model runs requests one at a time, so neither can happen in it.
- The diagnostic prints to standard output are not modelled (main.go:265, 271, 284 and 308). They change no state.
- The body read with `ioutil.ReadAll` is not modelled. The body enters as a byte sequence, and a nil body is an empty one. The read-error return path is left out because it is I/O.
- Log-file opening, `io.MultiWriter`, `checkErr` and the start-up `log.Fatal` calls are not modelled: they are I/O and process control.
- Webhook.EventStore.Insert: the insert never fails in the model. The `log.Fatalln` process exit on a failed insert (main.go:304-306) is left out because it is I/O failure and process control.
- Event.MarshalBytes: does not model the "null" that `json.Marshal` writes for a nil slice. The handler only marshals non-empty bodies. The marshal error path is also left out, because marshalling a byte slice cannot fail.
- Base64.Decode: does not model the byte offset carried by Go's `CorruptInputError`. It keeps only whether an error occurred and the octets written before it.
- Base64.SextetChar: defined by the value ranges of Table 1 of RFC 4648. It does not index the 64-character table string Go's encoder uses.
- The commented-out build and pipeline struct definitions (main.go:321-530) are not live code. No event classification or normalisation exists in the program, so none is modelled.
