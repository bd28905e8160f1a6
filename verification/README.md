# File servers: the per-connection request pipeline, in Dafny

This project models how the Python file servers of this repository handle one
client connection. Each connection is read until the request terminator
`\r\n\r\n` arrives or the peer closes. The request is then parsed and dispatched
to an operation on a directory of files, and exactly one response is built.

The project covers four servers:

- `file_server.py`, the thread server. It has a `server_files` directory, the
  success and failure counters, and a configurable pool size (`SETPOOL`).
- `pp_file_server.py`, the process server. It has a `files` directory and
  counters shared between processes. It has no `SETPOOL`, its `GET` response
  carries no file name, and it counts `DELETE` as a success.
- `file_interface.py`, the `FileInterface` store operations `list`, `get`,
  `upload` and `delete`, and its own simple `handle_client`.
- `file_protocol.py`, `FileProtocol.proses_string`, which dispatches a CRLF
  header/body request to those store operations. It is driven by the pool
  handlers `ClientHandler.run` (`file_server_tp.py`) and
  `HandleClientProcess.__call__` (`file_server_pp.py`).

The directory is a map from file name to bytes. Where the source updates state
in place, the model is a class whose fields are that state:

- the servers' counters and directory (`ThreadServer.FileServer`,
  `ProcessServer.FileServer`);
- the interface's directory (`Interface.FileInterface`).

Each state-changing method is proved against a pure step function, and the
properties are lemmas about those functions. The receive loops are `while`
loops proved against the specification function `Framing.Frame`.

The model uses these parts of Python's library, modelled as written:

- `base64.b64encode`;
- `base64.b64decode` without validation, which is CPython's
  `binascii.a2b_base64` in its non-strict mode;
- `base64.b64decode` with `validate=True`, which since Python 3.11 is
  `binascii.a2b_base64` in strict mode. The model follows that version.
- `str.strip`, `str.split(' ', 2)`, `str.upper` and `str.lower`;
- `str.split('\r\n', 1)`;
- `shlex.split` on quote-free text;
- `int()` on decimal text, with the default limit of 4300 digits that
  Python 3.11 and later put on the conversion. It skips less whitespace than
  `str.strip`: the separators 0x1C-0x1F are not skipped, so they make it
  fail.

Files:

| file | module | what it holds |
|---|---|---|
| common.dfy | Common | `Option`, `Result`, bytes |
| text.dfy | PyText | the Python string operations listed above |
| base64.dfy | Base64 | the encoder, the decoder state machine, strict and lenient decoding |
| responses.dfy | Responses | the response dicts, `None` and `{}` |
| framing.dfy | Framing | the receive loop shared by all handlers |
| file_server.dfy | ThreadServer | `file_server.py` |
| pp_file_server.dfy | ProcessServer | `pp_file_server.py` |
| file_interface.dfy | Interface | `file_interface.py` |
| file_protocol.dfy | Protocol | `file_protocol.py` |
| file_server_tp.dfy | ThreadPoolHandler | `file_server_tp.py` |
| file_server_pp.dfy | ProcessPoolHandler | `file_server_pp.py` |

A few behaviours of the code are modelled as the code does them, because they
differ from what one might expect of such a server:

- **Bytes after the terminator are kept.** If they arrive in the same chunk as
  the terminator, they are part of the request. Only outer whitespace is
  stripped.
- **The raw servers answer a request cut short.** If the peer closes before the
  terminator, `file_server.py`, `pp_file_server.py` and `file_interface.py`
  still process the partial buffer. The two pool handlers send nothing in that
  case.
- **`validate=True` also checks the padding.** The decoder rejects a pad that
  completes no quantum and any text after the final pad. So `QUJD=` (a full
  quantum followed by one pad) and `QUJ==` are refused, while the non-strict
  decoder turns `QUJD=` into `ABC`.
- **`FileInterface.upload` truncates first.** It opens, and so truncates, the
  file before decoding the payload. A payload that does not decode therefore
  leaves an empty file behind, as well as the error response.
- **Empty files cannot be uploaded to the raw servers.** `UPLOAD name <b64>` of
  an empty file ends in a space, which `strip()` removes, so the request lacks
  its third part.

## Model

| member | source | states |
|---|---|---|
| Framing.Accumulate | file_server.py:26-32 | from the `i`-th chunk on, the loop appends non-empty chunks until the buffer holds the terminator or an empty chunk or the end of the chunks is reached; the buffer is the concatenation of the chunks consumed and no earlier buffer held the terminator |
| Framing.Frame | file_server.py:25-32 | the outcome of the receive loop on a fresh connection: buffer = concatenation of the consumed chunks, `found` iff the buffer holds `\r\n\r\n`, no shorter prefix held it, and when not found the peer had closed |
| Framing.Receive | file_server.py:25-32 | the `while True` receive loop returns exactly the buffer and stop reason of `Frame` |
| Framing.TerminatorFound | file_server.py:30-32 | the terminator is found whenever the chunks sent contain it, even split across chunk boundaries |
| Framing.FrameRequest | file_server.py:25-32 | a request `m` sent as `m + \r\n\r\n` in any non-empty chunks is read in full, nothing more, using every chunk |
| Framing.TerminatorAtEnd | file_server.py:31 | a request without a carriage return cannot contain the start of the terminator, so the first terminator is the one appended |
| Framing.StrippedRequest | file_server.py:34 | `strip()` of the framed buffer gives back exactly a non-empty request line without outer whitespace |
| Framing.ReceivedLine | file_server.py:25-34 | the same for any request line without a carriage return |
| Framing.StripTerminated | file_server.py:34 | `strip()` removes exactly the terminator after a trimmed non-empty line |
| PyText.Strip | file_server.py:34 | the result has no leading or trailing whitespace and is no longer than the input; text already without outer whitespace is returned unchanged |
| PyText.StripPadded | file_server.py:34 | `strip()` of whitespace + trimmed text + whitespace is that text |
| PyText.Split | file_server.py:35 | `split(' ', n)` yields 1 to n+1 parts that joined with `' '` give the input back; no part but the last holds a space, and the last holds none when fewer than n+1 parts |
| PyText.SplitAfterWord | file_server.py:35 | splitting `w + ' ' + rest` for a space-free `w` yields `w` then the split of `rest` with one split less |
| PyText.SplitWord | file_server.py:35 | a space-free word splits into itself alone |
| PyText.Upper | file_server.py:40 | `upper()` maps every character by the ASCII upper-case mapping, keeps the length and leaves no lower-case letter |
| PyText.UpperIs | file_server.py:40-43 | a word upper-cases to a given upper-case verb iff it has its length and each character is the verb's or its lower-case letter, so verbs match in any letter case |
| PyText.Lower | file_protocol.py:13 | `lower()` maps every character by the ASCII lower-case mapping, keeps the length and yields lower-case text |
| PyText.Find | file_protocol.py:12 | the first position where the pattern occurs, or the length when it does not occur |
| PyText.SplitHeader | file_protocol.py:12 | header and body are split at the first CRLF so that header + CRLF + body is the input and the header holds no CRLF; without CRLF the body is empty |
| PyText.SplitHeaderAt | file_protocol.py:12 | a header without a carriage return followed by CRLF and any body splits back into that header and body |
| PyText.NoCarriageReturn | file_protocol.py:12 | text without a carriage return holds no CRLF |
| PyText.Tokens | file_protocol.py:13 | `shlex.split` of quote-free text yields non-empty tokens without whitespace |
| PyText.TokensAfterWord | file_protocol.py:13 | a token followed by text starting with whitespace tokenises to that token followed by the tokens of the rest |
| PyText.SpaceThenToken | file_protocol.py:13 | a space, a token, then text starting with whitespace tokenises to that token followed by the tokens of the rest |
| PyText.TokensOfToken | file_protocol.py:13 | a single token tokenises to itself |
| PyText.TokensOfLowerCase | file_protocol.py:13-14 | every token of lower-cased text is lower-case, so verbs and file names reach the interface in lower case |
| PyText.NatToString | file_server.py:115 | `str(n)` is non-empty decimal digits |
| PyText.PyIntOfNat | file_server.py:111 | `int(str(n)) == n` for every `n` of at most 4300 digits |
| Base64.Encode | file_server.py:71 | the encoding has 4 characters per started group of 3 bytes |
| Base64.EncodePrintable | file_server.py:71 | every encoded character lies between `+` and `z`, so it is neither whitespace nor a carriage return |
| Base64.StrictRoundTrip | file_server.py:49-52 | `b64decode(b64encode(b), validate=True) == b` |
| Base64.LenientRoundTrip | file_interface.py:23 | `b64decode(b64encode(b)) == b` without validation |
| Base64.StrictAccepts | file_server.py:49-52 | alphabet text followed by n pads is accepted iff it fills whole quanta and n is 0, or leaves two characters and n is 2, or three characters and n is 1 |
| Base64.StrictRejectsLoneCharacter | file_server.py:49-52 | a last quantum holding a single character is rejected whatever padding follows |
| Base64.ExcessPadding | file_server.py:49-52 | `QUJD=` and `QUJ==` are refused with `validate=True`; without it `QUJD=` decodes to `ABC` |
| Base64.Run | file_interface.py:33 | the non-strict decoder only appends to what it has produced |
| Base64.RunBound | file_interface.py:33 | the non-strict decoder adds at most three bytes for every four characters of a quantum |
| Base64.RunEncoded | file_interface.py:33 | the non-strict decoder turns any encoding back into the encoded bytes |
| Base64.StrictRunData | file_server.py:49-52 | before any pad, the strict decoder reads alphabet characters as the non-strict one does |
| Base64.StrictRunPads | file_server.py:49-52 | in strict mode, pads end the text successfully iff the last quantum is empty with no pad, or holds two characters and two pads, or three and one |
| Base64.A2b | file_interface.py:33 | `a2b_base64` yields at most three bytes per four characters of input |
| Base64.RunStrict | file_server.py:49-52 | the strict decoder, where it succeeds, agrees with the non-strict one on the same text |
| Base64.StrictAlphabet | file_server.py:49-52 | a successful strict run has read only alphabet characters and pads |
| Base64.StrictQuanta | file_server.py:49-52 | a successful strict run completes the quantum it began in, so from the start the text fills whole quanta |
| Base64.StrictPadQuanta | file_server.py:49-52 | the same for text starting with a pad, where the pads complete the quantum |
| Base64.StrictDataStep | file_server.py:49-52 | in strict mode an alphabet character is accepted only before any pad and moves the quantum on by one |
| Base64.DecodeStrict | file_server.py:49-52 | `b64decode(validate=True)` accepts only alphabet characters and pads whose length is a multiple of 4, and then decodes as `a2b_base64` does |
| Base64.DecodeLenient | file_interface.py:33 | `b64decode` of text holding a non-ASCII character raises the ASCII error; otherwise at most three bytes per four characters |
| PyText.PyInt | file_server.py:111 | `int()` succeeds only on non-blank text; the value is at most 0 after a leading `-` and at least 0 otherwise |
| PyText.PyIntPadded | file_server.py:111 | `int()` of decimal digits, at most 4300 of them, surrounded by the whitespace it skips (ASCII 0x09-0x0D, the space, non-ASCII whitespace) is their value |
| PyText.PyIntRefusesSeparator | file_server.py:111 | `strip()` removes a leading 0x1C from `\x1c5`, but `int()` refuses it |
| PyText.DigitCount | file_server.py:111 | the number of digits `int()` weighs against its limit is at most the length, and is the length for text made only of digits |
| PyText.PyIntOfDigits | file_server.py:111 | `int()` of non-empty decimal digits, at most 4300 of them, is their value |
| PyText.PyIntTooLong | file_server.py:111 | `int()` of more than 4300 decimal digits raises `ValueError`, whatever their value |
| ThreadServer.Parse | file_server.py:34-120 | a request is refused iff its upper-cased verb is unknown or lacks an argument; an unknown verb gives `Unknown command: ` and the verb, UPLOAD with fewer than three parts, GET, DELETE and SETPOOL with fewer than two give their own texts; otherwise the arguments are the following parts, the file name and SETPOOL argument holding no space |
| ThreadServer.UploadStep | file_server.py:43-60 | OK iff the payload decodes strictly and the name is no directory, storing the decoded bytes, counting a success and answering `<name> uploaded` under `message`; a payload that does not decode gives `Invalid base64 encoding` and one more failure |
| ThreadServer.GetStep | file_server.py:62-76 | OK iff the file exists, returning its name and encoded contents and counting a success; a missing file gives `<name> not found on server` and one more failure |
| ThreadServer.DeleteStep | file_server.py:92-101 | OK iff the file exists, which is then removed with no success counted and `<name> deleted` answered under `data`; a missing file gives `<name> not found on server` and one more failure |
| ThreadServer.SetPoolStep | file_server.py:107-117 | OK iff `int()` of the argument is at least 1, which becomes the pool size and is reported as `Server pool size set to <n>`; otherwise `Invalid server pool size` and one more failure |
| ThreadServer.Step | file_server.py:43-125 | an error adds exactly one failure and changes nothing else; successes: 0 after RESET, +1 for an OK UPLOAD or GET, otherwise unchanged; RESET zeroes both counters and answers `Server counters reset`; UPLOAD is OK iff the payload decodes strictly and the name is no directory, and then stores the decoded bytes and answers `<name> uploaded` under `message`, while a payload that does not decode gives `Invalid base64 encoding`; GET and DELETE are OK iff the file exists, else `<name> not found on server`; GET returns the name and the encoded contents, DELETE removes the file and answers `<name> deleted` under `data`; STATUS returns both counters and LIST the names; SETPOOL is OK iff `int()` gives at least 1, which becomes the pool size and is reported as `Server pool size set to <n>`, else `Invalid server pool size` |
| ThreadServer.StepKeepsValid | file_server.py:43-125 | every request keeps a pool size of at least 1 and no directory names among the files |
| ThreadServer.FileServer.constructor | file_server.py:9-16 | a fresh server has zero counters and pool size 10 |
| ThreadServer.FileServer.Except | file_server.py:121-124 | the `except` clause adds exactly one failure, changes nothing else and answers the error text under `message` |
| ThreadServer.FileServer.Execute | file_server.py:43-125 | the `try` dispatch and its `except` clause update the fields and give the reply exactly as `Step` does |
| ThreadServer.FileServer.HandleClient | file_server.py:22-128 | a connection is received, stripped, parsed and executed: new fields and reply are `Step` of the framed request |
| ThreadServer.ParseUpload | file_server.py:43-47 | `UPLOAD name payload` in any letter case parses to an upload whose payload is the whole remainder |
| ThreadServer.ParseNamed | file_server.py:62-65 | `GET name`, `DELETE name` and `SETPOOL arg` parse to the operation on that name or argument |
| ThreadServer.ParseEmpty | file_server.py:35-40 | an empty request is an unknown command with an empty verb |
| ThreadServer.UploadThenGet | file_server.py:43-76 | after an accepted upload, GET succeeds, names the file, returns contents that decode to the decoded payload, and both requests count as successes |
| ThreadServer.DeleteThenGet | file_server.py:92-101 | DELETE removes exactly the named file and does not count as a success; GET then fails with `not found on server` |
| ThreadServer.SetPoolAccepts | file_server.py:107-115 | SETPOOL with a positive decimal number of at most 4300 digits sets exactly the pool size and reports it |
| ThreadServer.SetPoolRejectsLong | file_server.py:107-117 | SETPOOL with more than 4300 decimal digits fails with `Invalid server pool size` |
| ThreadServer.SetPoolRejectsSeparator | file_server.py:34-117 | `SETPOOL \x1c5` parses to SETPOOL with the separator kept and fails with `Invalid server pool size` |
| ThreadServer.SetPoolRejectsZero | file_server.py:110-117 | SETPOOL 0 fails with `Invalid server pool size` and keeps the pool size |
| ThreadServer.ResetThenStatus | file_server.py:78-90 | STATUS after RESET reports zero successes and zero failures |
| ThreadServer.UploadReceived | file_server.py:25-47 | `UPLOAD name <base64>` sent in any chunking parses to that upload |
| ThreadServer.GetReceived | file_server.py:25-65 | `GET name` sent in any chunking parses to that GET |
| ThreadServer.UploadGetOverTheWire | file_server.py:25-76 | the upload and the GET of an encoded file are both understood, and the payload decodes back to the file |
| ThreadServer.EmptyUploadRefused | file_server.py:34-45 | uploading an empty file is refused with `UPLOAD requires filename and file content` |
| ProcessServer.Parse | pp_file_server.py:38-114 | as the thread server, with SETPOOL an unknown verb: a request is refused iff its verb is unknown or lacks an argument, with the texts of the code, and otherwise carries the following parts |
| ProcessServer.Step | pp_file_server.py:47-119 | an error adds exactly one failure and changes nothing else; successes: 0 after RESET, +1 for an OK UPLOAD, GET or DELETE; RESET zeroes both counters and answers `Server counters reset`; UPLOAD is OK iff the payload decodes strictly and the name is no directory, and then stores the decoded bytes and answers `<name> uploaded` under `message`; GET and DELETE are OK iff the file exists, else `<name> not found on server`; GET returns only the encoded contents, DELETE removes the file and answers `<name> deleted` under `data`; STATUS returns both counters and LIST the names |
| ProcessServer.StepAsWritten | pp_file_server.py:45-122 | as written, no counter ever changes and every request except LIST is answered with `{}` |
| ProcessServer.FileServer.constructor | pp_file_server.py:13-15 | a fresh server has zero counters |
| ProcessServer.FileServer.Except | pp_file_server.py:116-119 | the `except` clause adds exactly one failure, changes nothing else and answers the error text under `message` |
| ProcessServer.FileServer.Execute | pp_file_server.py:47-119 | the dispatch and its `except` clause update the fields and give the reply exactly as `Step` does |
| ProcessServer.FileServer.HandleClient | pp_file_server.py:26-123 | new fields and reply are `Step` of the framed request, and the handler returns `True` |
| ProcessServer.ParseUpload | pp_file_server.py:47-51 | `UPLOAD name payload` parses to an upload of the whole remainder |
| ProcessServer.ParseNamed | pp_file_server.py:66-69 | `GET name` and `DELETE name` parse to the operation on that name |
| ProcessServer.SetPoolUnknown | pp_file_server.py:113-114 | SETPOOL is an unknown command here |
| ProcessServer.UploadThenGet | pp_file_server.py:47-80 | after an accepted upload, GET succeeds with only a `data_file` field that decodes to the decoded payload, and both requests count |
| ProcessServer.DeleteThenGet | pp_file_server.py:96-107 | DELETE removes exactly the named file and counts as a success; GET then fails |
| ProcessServer.ResetThenStatus | pp_file_server.py:82-94 | STATUS after RESET reports zero successes and zero failures |
| ProcessServer.UploadAsWritten | pp_file_server.py:53-64 | as written, a valid upload stores the file but is answered `{}` and not counted; as intended it is answered OK and counted |
| ProcessServer.CountersFrozenAsWritten | pp_file_server.py:61-62 | as written, the counters stay at their starting values over any sequence of requests, and STATUS gets `{}` |
| ProcessServer.RequestsCounted | pp_file_server.py:61-62 | as intended, without RESET, the failure counter grows by the number of failed requests and the success counter by the number of successful UPLOAD, GET and DELETE requests |
| Interface.List | file_interface.py:10-15 | OK with exactly the names of the directory that contain a dot |
| Interface.Get | file_interface.py:17-26 | `None` iff the name is empty; OK only for a file in the directory, with its name and contents that decode back to it; for other names, OK iff the file exists; every error has a `data` field |
| Interface.UploadOutcome | file_interface.py:28-36 | OK iff a name and a decodable payload are given, storing exactly the decoded bytes; a payload that does not decode gives the decoder's error and leaves the named file empty; any other error leaves the directory unchanged |
| Interface.DeleteOutcome | file_interface.py:38-44 | OK iff the named file exists, removing exactly it; on error the directory is unchanged |
| Interface.FileInterface.constructor | file_interface.py:8 | the interface works on the given directory |
| Interface.FileInterface.Upload | file_interface.py:28-36 | the method truncates, then writes the decoded payload, ending in exactly `UploadOutcome` |
| Interface.FileInterface.Delete | file_interface.py:38-44 | the method ends in exactly `DeleteOutcome` |
| Interface.Respond | file_interface.py:58-72 | never `{}`; `None` leaves the directory unchanged; errors carry a `data` field; regular file names stay regular; LIST, GET, UPLOAD and DELETE go to `list`, `get`, `upload` and `delete` with the following parts; a missing part gives the `IndexError` text and any other verb `Unknown command`, both with the directory unchanged |
| Interface.HandleClient | file_interface.py:47-76 | the reply and the new directory are `Respond` of the stripped framed request |
| Interface.UploadThenGet | file_interface.py:17-36 | after an accepted upload, GET succeeds with contents that decode to the decoded payload |
| Interface.UploadEncoded | file_interface.py:28-36 | uploading the encoding of some bytes stores exactly those bytes |
| Interface.FailedUploadTruncates | file_interface.py:32-36 | a payload `QQ` is refused with `Incorrect padding` and leaves the file empty |
| Interface.IncorrectPaddingExample | file_interface.py:33 | `b64decode('QQ')` raises `Incorrect padding` |
| Interface.DeleteThenGet | file_interface.py:17-44 | delete removes exactly the named file; GET then reports it missing |
| Protocol.ParseRequest | file_protocol.py:12-20 | a request is unrecognised iff its first line has no word, its first word is not `list`, `get`, `upload` or `delete`, or it is `upload` alone; otherwise the other words are the parameters, and an upload's payload is the stripped body; file name and parameters are tokens in lower case; conversely a first word `list`, `get` or `delete` always gives that call on the other words, and `upload name ...` an upload of the name and the stripped body |
| Protocol.Process | file_protocol.py:10-25 | never `{}`; every new file name is lower-case; regular file names stay regular; a header whose first word is `list`, `get` or `delete` is answered by that interface call on the other words, and `upload name ...` by `upload` on the name and the stripped body |
| Protocol.Dispatch | file_protocol.py:17-25 | a list, get or delete call is answered by that interface call on its parameters, an upload by `upload` on the name and payload; an unrecognised call gets the fixed reply and leaves the directory unchanged |
| Protocol.FileProtocol.constructor | file_protocol.py:7-8 | the protocol works on the given interface |
| Protocol.FileProtocol.ProsesString | file_protocol.py:10-25 | the reply and the interface's new directory are exactly `Process` of the request |
| Protocol.EmptyRequest | file_protocol.py:12-25 | an empty request gets `request tidak dikenali` and changes nothing |
| Protocol.SingleLineUpload | file_protocol.py:12-18 | `UPLOAD name <b64>` on one line stores an empty file under the lower-cased name |
| Protocol.ParseSingleLineUpload | file_protocol.py:12-18 | `UPLOAD name ...` on one line parses to an upload of the lower-cased name with an empty payload |
| Protocol.UploadTokens | file_protocol.py:13 | the header `verb name rest` tokenises to the lower-cased verb and name, then the tokens of the rest |
| Protocol.HeaderTokens | file_protocol.py:13 | a lower-case verb and name tokenise to exactly those two words |
| Protocol.OtherNamesRefused | file_protocol.py:19-25 | any other first word, in any letter case and whatever follows it, gets the fixed reply and changes nothing |
| Protocol.FirstWord | file_protocol.py:13-14 | the first token of a lower-cased line is its first word lower-cased |
| Protocol.ParseTwoLineUpload | file_protocol.py:12-18 | `upload name` CRLF `<b64>` parses to an upload of the encoded payload |
| Protocol.TwoLineUpload | file_protocol.py:12-22 | that request stores exactly the encoded bytes and answers OK |
| Protocol.ParseGet | file_protocol.py:12-20 | `get name` parses to a GET of that name |
| Protocol.GetRequest | file_protocol.py:19-22 | `get name` is answered by the interface's `get` and changes nothing |
| Protocol.ParseDelete | file_protocol.py:12-20 | `delete name` parses to a DELETE of that name |
| Protocol.NamedHeader | file_protocol.py:12-13 | a lower-case verb and name separated by a space form the whole header and tokenise to those two words |
| Protocol.DeleteRequest | file_protocol.py:17-20 | `delete name` is answered, and the directory updated, exactly as the interface's `delete` of that name |
| Protocol.ListRequest | file_protocol.py:17-20 | `list` is answered by the interface's `list` and changes nothing |
| Protocol.TwoLineUploadThenGet | file_protocol.py:10-25 | a two-line upload of encoded bytes stores them, and a later `get` returns contents that decode to them |
| Protocol.StripEncoded | file_protocol.py:18 | `strip()` leaves a base64 encoding unchanged |
| ThreadPoolHandler.Exchange | file_server_tp.py:12-24 | a reply is sent iff the terminator arrived; with no reply the directory is unchanged; a sent reply is never `{}` |
| ThreadPoolHandler.ClientHandler.constructor | file_server_tp.py:8-10 | the handler's protocol works on the shared directory |
| ThreadPoolHandler.ClientHandler.Run | file_server_tp.py:12-24 | the loop sends at most one reply, exactly as `Exchange`, and returns `True` |
| ThreadPoolHandler.NoTerminatorNoReply | file_server_tp.py:14-23 | a peer that closes without sending the terminator gets no reply and changes nothing |
| ThreadPoolHandler.TrailingBytesKept | file_server_tp.py:18-20 | bytes after the terminator in the same chunk reach `proses_string`, only outer whitespace stripped |
| ThreadPoolHandler.RequestAnswered | file_server_tp.py:13-22 | a request line sent in any chunking is answered once, as `proses_string` answers that line |
| ProcessPoolHandler.HandleClientProcess.constructor | file_server_pp.py:8-9 | the handler's protocol works on the shared directory |
| ProcessPoolHandler.HandleClientProcess.Call | file_server_pp.py:11-24 | the same loop as the thread-pool handler: at most one reply, exactly as `Exchange`, and returns `True` |

## Left out

- **Sockets and pools.** The listeners, accept loops and thread and process
  pools are not modelled. Neither are the descriptor hand-off and the loopback
  filter of `pp_file_server.py`. A connection is its sequence of received
  chunks.
- **Concurrency.** `counter_lock` is not modelled, and each counter update is
  one atomic step. Requests on a directory are modelled one after another.
- **Sending.** The JSON text of a response, its appended terminator, and
  `sendall` with its failure (which `pp_file_server.py` swallows) are not
  modelled. A response is the `Reply` datatype, and `sent` is the reply that
  would be serialised.
- **Text decoding.** Chunks are taken to be decoded text. `file_server.py` and
  `pp_file_server.py` decode the buffer with `errors='ignore'`, which is not
  modelled. `file_interface.py` (line 54) and both pool handlers
  (`file_server_tp.py` and `file_server_pp.py`, line 18) decode each chunk
  strictly. A chunk that is not valid UTF-8, including a character split
  between two chunks, raises `UnicodeDecodeError` there and ends the handler
  without a reply. That path is not modelled.
- **Case mapping.** `upper()` and `lower()` are the ASCII mappings only.
- **Tokenising.** `shlex.split` is modelled as whitespace splitting. Its
  quotes and backslash escapes are not modelled, so the protocol lemmas about
  whole requests (`SingleLineUpload`, `OtherNamesRefused`, `TwoLineUpload`,
  `GetRequest`, `DeleteRequest`) require the words they name to hold no quote
  and no backslash (`QuoteFree`). `shlex.split` does not treat `#` as a
  comment, and neither does the model.
- **`int()`.** It is modelled on surrounding whitespace (that of `str.isspace`
  without the separators 0x1C-0x1F), an optional sign, and
  ASCII digits with single underscores between them, refusing more than 4300
  digits as Python 3.11 and later do by default. Non-ASCII digits are not
  modelled, nor is a limit changed by `sys.set_int_max_str_digits` or
  `PYTHONINTMAXSTRDIGITS`.
- **Paths.** The file system is a map. Only the names `""`, `.` and `..` are
  modelled as directories. Names containing `/`, hidden-file rules of `glob`
  and the order of `os.listdir` are not modelled, so a listing is a set.
- **Error texts.** Python quotes a name in an error text with `repr`. The model
  puts it in single quotes, which agrees for names without quotes or
  backslashes.
- **SETPOOL.** It only records the pool size. In the code it does not resize the
  running executor either.
- **Logging.** `print` and `logging` calls are not modelled.
- **Python version.** `b64decode(validate=True)` is modelled as Python 3.11
  and later give it, by `a2b_base64` in strict mode. Earlier versions checked
  only the character set and then decoded leniently, accepting `QUJD=`.
- ProcessServer.FileServer.Execute: follows the intended `Step`, not the code as
  written. The as-written behaviour of the lock calls is modelled only by
  `ProcessServer.StepAsWritten` (see Findings). It does not model the
  `AttributeError` escaping the handler, since nothing observes it.
- ProcessServer.FileServer.Except: counts the failure as intended. As written,
  `fail_counter.get_lock()` raises `AttributeError` there too (see Findings).

## Findings

| source | as written | input that shows it | evidently intended | confidence | as-written member | corrected member |
|---|---|---|---|---|---|---|
| pp_file_server.py:61-62 | The counters (lines 13-15) are `Manager().Value` proxies, which have no `get_lock`. Every request except LIST that reaches a lock call raises `AttributeError`, and so does the `except` clause. The `{}` assigned before dispatch is sent, and no counter ever changes. | `UPLOAD a.txt QUJD` stores `ABC` but is answered `{}`; a following `STATUS` is also answered `{}` | Each counter update is one atomic step: UPLOAD, GET and DELETE count their successes, every error counts one failure, STATUS reports both | not executed | ProcessServer.StepAsWritten, ProcessServer.UploadAsWritten, ProcessServer.CountersFrozenAsWritten | ProcessServer.Step, ProcessServer.RequestsCounted |
