# Webhook trigger: request assembly

A Dafny model of the request-assembly logic of the command-line webhook
trigger `src/trigger_flow.py`. The trigger builds one HTTP request for a
workflow-automation endpoint. It does these steps in order:

- It resolves the target URL, bearer token and shared secret from command-line
  arguments, falling back to the `FLOW_URL`, `FLOW_BEARER` and `FLOW_SECRET`
  environment variables. An empty string counts as absent.
- It stops with `Missing --url or FLOW_URL` when no URL resolves.
- It parses repeated `--header Key:Value` strings into a header map.
- It layers the headers: `Content-Type: application/json`, then
  `Authorization: Bearer <token>`, then `X-Shared-Secret`, then the explicit
  headers.
- It picks the payload: a file beats inline JSON, which beats `{}`.
- A dry run prints the resolved request and stops. Otherwise the trigger sends
  the request: `GET` carries the payload as query parameters, and every other
  method carries it as a JSON body.

Files:

- `wrappers.dfy`: module `Wrappers`, with `Option` for Python's `None` and
  `Result` for a step that can abort the run.
- `py_str.dfy`: module `PyStr`. It holds the Python string operations the
  trigger uses, restricted to ASCII: `str.strip`, `s.split(":", 1)`,
  `":" in s` and `str.upper`. `LeadingSpace` and `TrailingSpace` count the
  whitespace at either end; they are helpers that define `Strip`.
- `trigger_flow.dfy`: module `TriggerFlow`, covering `parse_headers`,
  `build_headers`, `load_payload`, the resolution steps of `main`, and the
  method dispatch of `request_with_method`.

`parse_headers` and `build_headers` fill a dictionary step by step, so they
are methods over a map variable. `ParseHeaders` has a loop and its invariant.
Each method is proved equal to a specification function: `Headers` or
`LayeredHeaders`. The rest of the model uses those functions, and the lemmas
are stated about them. The payload selection, the argument/environment
resolution and the method dispatch are pure selections, so they are functions.
`Run` is one whole run of `main`. It ends in `Failure(Fatal)`,
`Success(PrintSummary(request))` for a dry run, or `Success(Send(call))`. The
`Call` value describes the one network call that would be made.

## Model

| member | source | states |
|---|---|---|
| PyStr.LeadingSpace | src/trigger_flow.py:17 | the count stays within the string, every character it covers is whitespace, and the next character, if any, is not |
| PyStr.TrailingSpace | src/trigger_flow.py:17 | the count stays within the string, every character it covers at the end is whitespace, and the character before them, if any, is not |
| PyStr.Strip | src/trigger_flow.py:17 | `str.strip()` gives a string that neither starts nor ends with whitespace and is no longer than its input |
| PyStr.StripIsSlice | src/trigger_flow.py:17 | what `strip` keeps is one contiguous slice of the input, and both margins it removes are whitespace |
| PyStr.StripPadded | src/trigger_flow.py:17 | for any trimmed `m` surrounded by whitespace, stripping gives back exactly `m`, so strip is fully determined |
| PyStr.StripIdempotent | src/trigger_flow.py:17 | stripping twice is the same as stripping once |
| PyStr.StripKeepsOut | src/trigger_flow.py:17 | stripping never introduces a character, so a key taken from before the first colon contains no colon |
| PyStr.Find | src/trigger_flow.py:15-16 | `':' in p` holds exactly when a position is found; the found position holds the colon and no colon comes before it |
| PyStr.SplitOnce | src/trigger_flow.py:16 | `p.split(":", 1)` returns no pair exactly when there is no colon; otherwise `p == k + ":" + v` and `k` has no colon |
| PyStr.SplitOnceJoin | src/trigger_flow.py:16 | joining a colon-free head, a colon and any tail, then splitting once, returns head and tail unchanged, including any colons in the tail |
| PyStr.Upper | src/trigger_flow.py:55 | `method.upper()` keeps the length, leaves no lower-case ASCII letter, keeps every other character, and shifts each lower-case letter to its capital |
| TriggerFlow.HeaderEntry | src/trigger_flow.py:15-17 | a string yields no entry exactly when it has no colon; a key never contains a colon, and key and value are both trimmed |
| TriggerFlow.HeaderEntryOfJoined | src/trigger_flow.py:16-17 | `key:value` with a colon-free key yields the stripped key and the stripped remainder, with later colons kept in the value |
| TriggerFlow.AssignSnoc | src/trigger_flow.py:14-17 | one more loop iteration assigns the new string's entry on top of the map built so far |
| TriggerFlow.AssignKeys | src/trigger_flow.py:14-17 | dictionary assignment in list order: a key is present exactly when some string's entry sets it |
| TriggerFlow.AssignLastWins | src/trigger_flow.py:14-17 | dictionary assignment in list order: the last string whose entry sets a key decides that key's value |
| TriggerFlow.AssignSkipsNone | src/trigger_flow.py:14-15 | a string that yields no entry can be removed from anywhere in the list without changing the map |
| TriggerFlow.AssignOne | src/trigger_flow.py:14-17 | a one-string list gives the empty map or that string's single entry |
| TriggerFlow.ParseHeaders | src/trigger_flow.py:10-18 | `None` or an empty list gives `{}`; otherwise the loop's dictionary equals `Headers` of the list |
| TriggerFlow.HeadersKeys | src/trigger_flow.py:14-17 | a header name is in the parsed map exactly when some `Key:Value` string declares it |
| TriggerFlow.HeadersLastWins | src/trigger_flow.py:14-17 | when two strings trim to the same key, the later one's value is in the map |
| TriggerFlow.HeadersSkipNoColon | src/trigger_flow.py:14-15 | a string with no colon contributes nothing, raises no error, and the strings around it are still processed |
| TriggerFlow.HeadersOfOne | src/trigger_flow.py:14-17 | a single `key:value` string with a trimmed colon-free key gives the map `{key: value.strip()}` |
| TriggerFlow.LayeredHeaders | src/trigger_flow.py:30-39 | the key set is exactly Content-Type, plus Authorization when the bearer is non-empty, plus X-Shared-Secret when the secret is non-empty, plus the extra keys; every extra key has its extra value; the base, `Bearer <token>` and secret values hold where no extra overrides them |
| TriggerFlow.BuildHeaders | src/trigger_flow.py:30-39 | the successive dictionary assignments and `update(extra)` produce exactly `LayeredHeaders` |
| TriggerFlow.ExplicitHeaderWins | src/trigger_flow.py:38 | an explicit `Key:Value` header is present and has the final say over its key, whatever the bearer and secret are |
| TriggerFlow.ExplicitAuthorizationWins | src/trigger_flow.py:34-38 | an explicit `Authorization:<value>` header replaces the bearer-derived `Authorization` value |
| TriggerFlow.LoadPayload | src/trigger_flow.py:21-27 | a non-empty path gives the file's decode result whatever the inline data is; otherwise non-empty inline data gives its decode result; with neither the payload is `{}`; decode failures are passed on, never turned into `{}` |
| TriggerFlow.Or | src/trigger_flow.py:102-107 | Python `a or b`: the argument if non-empty, else the environment value; the result is non-empty exactly when one of them is |
| TriggerFlow.ResolveUrl | src/trigger_flow.py:102-104 | the URL resolves exactly when the argument or `FLOW_URL` is non-empty, and the argument wins; the URL is never empty; otherwise the run stops with "Missing --url or FLOW_URL" |
| TriggerFlow.ResolveBearer | src/trigger_flow.py:106 | the bearer is the `--bearer` argument when it is non-empty and `FLOW_BEARER` from the environment otherwise; it is non-empty exactly when one of the two is |
| TriggerFlow.ResolveSecret | src/trigger_flow.py:107 | the secret is the `--secret` argument when it is non-empty and `FLOW_SECRET` from the environment otherwise; it is non-empty exactly when one of the two is |
| TriggerFlow.Resolve | src/trigger_flow.py:102-111 | a missing URL fails before anything else is looked at; then a payload failure is fatal; on success the request carries the given method, the resolved URL, the layered headers built from the resolved bearer, secret and parsed extras, and the selected payload |
| TriggerFlow.RequestWithMethod | src/trigger_flow.py:55-59 | the verb sent is the upper-cased method; the payload goes into query parameters exactly when that verb is `GET`, and otherwise into the JSON body; URL, headers, timeout and payload pass through unchanged |
| TriggerFlow.QueryParamsIffGet | src/trigger_flow.py:55-57 | the payload goes into the query string exactly for the three-letter spellings of "get" in any letter case |
| TriggerFlow.UpperOfChoice | src/trigger_flow.py:82 | upper-casing leaves each accepted `--method` value unchanged |
| TriggerFlow.GetAndPostDifferOnlyInPlacement | src/trigger_flow.py:56-59 | the same request sent as GET and as POST differs only in the verb and in query-parameter versus JSON-body placement |
| TriggerFlow.Run | src/trigger_flow.py:100-119 | a method outside GET/POST/PUT/DELETE is rejected first; a missing URL stops the run whatever else is given; with an accepted method, a failed resolution ends the run with that failure, a dry run prints exactly the request `Resolve` built, and a real run sends `RequestWithMethod` of that request with the given timeout, to a non-empty URL |
| TriggerFlow.DryRunShowsWhatWouldBeSent | src/trigger_flow.py:113-119 | a dry run fails exactly when and how the real run would; when it succeeds, the printed method, URL, headers and payload are exactly those the real run sends |
| TriggerFlow.PayloadFailureStopsRun | src/trigger_flow.py:110-119 | a payload that cannot be read or decoded ends the run with that failure, so nothing is printed or sent, with or without `--dry-run` |
| TriggerFlow.PayloadFileBeatsInline | src/trigger_flow.py:22-26 | when a payload file is given, the inline `--data` value makes no difference to the whole run |

## Left out

- The network call, its timeout handling and the response normalisation (src/trigger_flow.py:57-65) are left out. That is transport and library behaviour. The model stops at the `Call` value, which records the verb, URL, payload placement, headers and timeout.
- Printing and JSON pretty-printing are left out (`print_summary`, src/trigger_flow.py:42-49 and 120-121). `PrintSummary` carries the `Request` whose four fields are the ones printed. Text layout and key order are not modelled.
- File opening, `json.load` and `json.loads` are abstract parameters of `LoadPayload`, `Resolve` and `Run`. They return a decoded value or a `PayloadError`. Python's exception types are reduced to `Unreadable` and `MalformedJson`.
- `argparse` is left out apart from its `choices` check on `--method`. `Args` holds the values after parsing, so the defaults (`POST`, timeout 30) and type conversion are outside the model.
- `load_dotenv` is left out: the `.env` file is not read. The process environment is a map from names to values, and `GetEnv` stands for `os.getenv` on it.
- The code never checks that `--timeout` is positive; the model passes any integer timeout through unchanged.
- Header maps are Dafny maps, so the insertion order of Python dictionaries is not modelled. This affects the order in which headers are sent and printed.
- PyStr.Strip: removes only ASCII whitespace (code points 9 to 13 and 28 to 32). Python's `str.strip()` also removes non-ASCII whitespace such as U+0085, U+00A0 and U+2000 to U+200A.
- PyStr.Upper: maps only ASCII letters. Python's `str.upper()` also maps non-ASCII letters, some of them to several characters (for example `ß` becomes `SS`). Every accepted `--method` value is ASCII upper case already.
- The payload is passed through as it is. How `requests` encodes a non-object payload as query parameters is library behaviour and is not modelled.
- The other scripts are not part of this model: `flow_trigger_complete.py`, `power_automate.py`, `custom_model.py`, `multi_turn_chat.py` and `basic_chat.py`. They are calls to the external chat client, a Flask server or a shell command, with no request-assembly logic of their own.
