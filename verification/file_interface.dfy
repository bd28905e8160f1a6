/** `file_interface.py`: the store operations `list`, `get`, `upload` and
    `delete` on the files of the working directory, and the simple server's
    `handle_client` that dispatches to them.

    The working directory is a map from file name to contents, held by a
    `FileInterface` object. Every operation catches its own exceptions and
    answers `{'status': 'ERROR', 'data': str(e)}`; `get('')` answers `None`. */
module Interface {
  import opened Common
  import opened PyText
  import opened Base64
  import opened Responses
  import opened Framing

  /** `str(e)` of the `IndexError` raised by `params[i]` past the end. */
  const IndexErrorText := "list index out of range"

  /** `str(e)` of the `FileNotFoundError` for a name not in the directory. */
  function NoSuchFile(name: string): string {
    "[Errno 2] No such file or directory: '" + name + "'"
  }

  /** `str(e)` of the `IsADirectoryError` for `.` and `..`. */
  function IsADirectory(name: string): string {
    "[Errno 21] Is a directory: '" + name + "'"
  }

  /** Names that open the working directory or its parent. */
  predicate DenotesDirectory(name: string) {
    name == "." || name == ".."
  }

  /** Names of regular files: not empty and not a directory. */
  ghost predicate WellFormed(files: map<string, Bytes>) {
    forall n | n in files :: n != "" && !DenotesDirectory(n)
  }

  /** `glob('*.*')`: the names that contain a dot. */
  function List(files: map<string, Bytes>, params: seq<string>): (r: Reply)
    ensures r.IsOk() && r.fields.Keys == {"data"} && r.fields["data"].Names?
    ensures forall n :: n in r.fields["data"].names <==> n in files && '.' in n
  {
    Reply(OK, map["data" := Names(set n | n in files && '.' in n)])
  }

  /** `get`: the contents, base64-encoded, of the file named by `params[0]`. */
  function Get(files: map<string, Bytes>, params: seq<string>): (r: Reply)
    ensures r == Null <==> |params| > 0 && params[0] == ""
    ensures r.IsOk() ==> && |params| > 0 && params[0] in files
                         && r.fields.Keys == {"data_namafile", "data_file"}
                         && r.fields["data_namafile"] == Str(params[0])
                         && r.fields["data_file"].Str?
                         && DecodeLenient(r.fields["data_file"].s) == Ok(files[params[0]])
    ensures r.IsOk() || r == Null || (r.IsError() && r.fields.Keys == {"data"})
    ensures |params| > 0 && params[0] != "" && !DenotesDirectory(params[0]) ==>
              (r.IsOk() <==> params[0] in files)
  {
    if |params| == 0 then ErrorReply("data", IndexErrorText)
    else
      var name := params[0];
      if name == "" then Null
      else if DenotesDirectory(name) then ErrorReply("data", IsADirectory(name))
      else if name !in files then ErrorReply("data", NoSuchFile(name))
      else
        LenientRoundTrip(files[name]);
        Reply(OK, map["data_namafile" := Str(name), "data_file" := Str(Encode(files[name]))])
  }

  /** `upload`: the file is opened for writing, and so emptied, before the
      payload is decoded; a payload that does not decode leaves it empty. */
  function UploadOutcome(files: map<string, Bytes>, params: seq<string>): (r: (Reply, map<string, Bytes>))
    ensures r.0.Reply? && r.0.fields.Keys == {"data"}
    ensures r.0.IsOk() <==> && |params| >= 2 && params[0] != "" && !DenotesDirectory(params[0])
                            && DecodeLenient(params[1]).Ok?
    ensures r.0.IsOk() ==> r.1 == files[params[0] := DecodeLenient(params[1]).value]
    ensures r.0.IsError() ==> r.1 == files || (|params| >= 2 && r.1 == files[params[0] := []])
    ensures |params| >= 2 && params[0] != "" && !DenotesDirectory(params[0]) && DecodeLenient(params[1]).Err? ==>
              r == (ErrorReply("data", DecodeLenient(params[1]).msg), files[params[0] := []])
    ensures WellFormed(files) ==> WellFormed(r.1)
  {
    if |params| < 2 then (ErrorReply("data", IndexErrorText), files)
    else
      var name, payload := params[0], params[1];
      if name == "" then (ErrorReply("data", NoSuchFile(name)), files)
      else if DenotesDirectory(name) then (ErrorReply("data", IsADirectory(name)), files)
      else match DecodeLenient(payload)
        case Err(msg) => (ErrorReply("data", msg), files[name := []])
        case Ok(data) => (OkReply("data", "File '" + name + "' berhasil diupload."), files[name := data])
  }

  /** `delete`: `os.remove` of the file named by `params[0]`. */
  function DeleteOutcome(files: map<string, Bytes>, params: seq<string>): (r: (Reply, map<string, Bytes>))
    ensures r.0.Reply? && r.0.fields.Keys == {"data"}
    ensures r.0.IsOk() <==> |params| > 0 && params[0] in files && !DenotesDirectory(params[0])
    ensures r.0.IsOk() ==> r.1 == files - {params[0]}
    ensures r.0.IsError() ==> r.1 == files
  {
    if |params| == 0 then (ErrorReply("data", IndexErrorText), files)
    else
      var name := params[0];
      if DenotesDirectory(name) then (ErrorReply("data", IsADirectory(name)), files)
      else if name !in files then (ErrorReply("data", NoSuchFile(name)), files)
      else (OkReply("data", "File '" + name + "' berhasil dihapus."), files - {name})
  }

  class FileInterface {
    var files: map<string, Bytes>

    ghost predicate Valid()
      reads this
    {
      WellFormed(files)
    }

    /** An interface on a working directory that holds `initial`. */
    constructor (initial: map<string, Bytes>)
      requires WellFormed(initial)
      ensures Valid() && files == initial
    {
      files := initial;
    }

    method Upload(params: seq<string>) returns (r: Reply)
      requires Valid()
      modifies this
      ensures Valid()
      ensures (r, files) == UploadOutcome(old(files), params)
    {
      if |params| < 2 {
        return ErrorReply("data", IndexErrorText);
      }
      var name, payload := params[0], params[1];
      if name == "" {
        return ErrorReply("data", NoSuchFile(name));
      }
      if DenotesDirectory(name) {
        return ErrorReply("data", IsADirectory(name));
      }
      files := files[name := []];
      var decoded := DecodeLenient(payload);
      match decoded {
        case Err(msg) =>
          r := ErrorReply("data", msg);
        case Ok(data) =>
          files := files[name := data];
          assert files == old(files)[name := data];
          r := OkReply("data", "File '" + name + "' berhasil diupload.");
      }
    }

    method Delete(params: seq<string>) returns (r: Reply)
      requires Valid()
      modifies this
      ensures Valid()
      ensures (r, files) == DeleteOutcome(old(files), params)
    {
      if |params| == 0 {
        return ErrorReply("data", IndexErrorText);
      }
      var name := params[0];
      if DenotesDirectory(name) {
        r := ErrorReply("data", IsADirectory(name));
      } else if name !in files {
        r := ErrorReply("data", NoSuchFile(name));
      } else {
        files := files - {name};
        r := OkReply("data", "File '" + name + "' berhasil dihapus.");
      }
    }
  }

  /** The verb of a request line: its first space-separated part,
      upper-cased. */
  function Command(message: string): string {
    Upper(Split(message, 2)[0])
  }

  /** The simple server's dispatch on the stripped request. A verb with a
      missing argument raises `IndexError` before the store is touched. */
  function Respond(files: map<string, Bytes>, message: string): (r: (Reply, map<string, Bytes>))
    ensures r.0 != EmptyDict
    ensures r.0 == Null ==> r.1 == files
    ensures r.0.IsError() ==> r.0.fields.Keys == {"data"}
    ensures WellFormed(files) ==> WellFormed(r.1)
    ensures Command(message) !in {"LIST", "GET", "UPLOAD", "DELETE"} ==>
              r == (ErrorReply("data", "Unknown command"), files)
    ensures Command(message) == "LIST" ==> r == (List(files, []), files)
    ensures Command(message) == "GET" ==>
              r == if |Split(message, 2)| < 2 then (ErrorReply("data", IndexErrorText), files)
                   else (Get(files, [Split(message, 2)[1]]), files)
    ensures Command(message) == "UPLOAD" ==>
              r == if |Split(message, 2)| < 3 then (ErrorReply("data", IndexErrorText), files)
                   else UploadOutcome(files, Split(message, 2)[1..])
    ensures Command(message) == "DELETE" ==>
              r == if |Split(message, 2)| < 2 then (ErrorReply("data", IndexErrorText), files)
                   else DeleteOutcome(files, [Split(message, 2)[1]])
  {
    Route(files, Command(message), Split(message, 2))
  }

  /** The `if`/`elif` chain on the upper-cased verb `command` and the parts
      of the request. */
  function Route(files: map<string, Bytes>, command: string, parts: seq<string>): (r: (Reply, map<string, Bytes>))
    ensures r.0 != EmptyDict
    ensures r.0 == Null ==> r.1 == files
    ensures r.0.IsError() ==> r.0.fields.Keys == {"data"}
    ensures WellFormed(files) ==> WellFormed(r.1)
    ensures command !in {"LIST", "GET", "UPLOAD", "DELETE"} ==> r == (ErrorReply("data", "Unknown command"), files)
    ensures command == "LIST" ==> r == (List(files, []), files)
    ensures command == "GET" ==>
              r == if |parts| < 2 then (ErrorReply("data", IndexErrorText), files) else (Get(files, [parts[1]]), files)
    ensures command == "UPLOAD" ==>
              r == if |parts| < 3 then (ErrorReply("data", IndexErrorText), files) else UploadOutcome(files, parts[1..])
    ensures command == "DELETE" ==>
              r == if |parts| < 2 then (ErrorReply("data", IndexErrorText), files) else DeleteOutcome(files, [parts[1]])
  {
    if command == "LIST" then (List(files, []), files)
    else if command == "GET" then
      if |parts| < 2 then (ErrorReply("data", IndexErrorText), files)
      else (Get(files, [parts[1]]), files)
    else if command == "UPLOAD" then
      if |parts| < 3 then (ErrorReply("data", IndexErrorText), files)
      else UploadOutcome(files, [parts[1], parts[2]])
    else if command == "DELETE" then
      if |parts| < 2 then (ErrorReply("data", IndexErrorText), files)
      else DeleteOutcome(files, [parts[1]])
    else (ErrorReply("data", "Unknown command"), files)
  }

  /** `handle_client`: read the request, answer it with exactly one
      response, close. */
  method HandleClient(chunks: seq<string>, store: FileInterface) returns (reply: Reply)
    requires store.Valid()
    modifies store
    ensures store.Valid()
    ensures (reply, store.files) == Respond(old(store.files), Strip(Frame(chunks).data))
  {
    var data, _ := Receive(chunks);
    var parts := Split(Strip(data), 2);
    var command := Upper(parts[0]);
    if command == "LIST" {
      reply := List(store.files, []);
    } else if command == "GET" {
      if |parts| < 2 {
        reply := ErrorReply("data", IndexErrorText);
      } else {
        reply := Get(store.files, [parts[1]]);
      }
    } else if command == "UPLOAD" {
      if |parts| < 3 {
        reply := ErrorReply("data", IndexErrorText);
      } else {
        reply := store.Upload([parts[1], parts[2]]);
      }
    } else if command == "DELETE" {
      if |parts| < 2 {
        reply := ErrorReply("data", IndexErrorText);
      } else {
        reply := store.Delete([parts[1]]);
      }
    } else {
      reply := ErrorReply("data", "Unknown command");
    }
  }

  // -----------------------------------------------------------------------
  // Properties of the store operations

  /** Whatever an upload stores is served back by `get`. */
  lemma UploadThenGet(files: map<string, Bytes>, name: string, payload: string)
    requires name != "" && !DenotesDirectory(name) && DecodeLenient(payload).Ok?
    ensures var u := UploadOutcome(files, [name, payload]);
            var g := Get(u.1, [name]);
            && u.0.IsOk() && g.IsOk()
            && DecodeLenient(g.fields["data_file"].s) == DecodeLenient(payload)
  {
  }

  /** Uploading the encoding of some bytes stores exactly those bytes. */
  lemma UploadEncoded(files: map<string, Bytes>, name: string, content: Bytes)
    requires name != "" && !DenotesDirectory(name)
    ensures UploadOutcome(files, [name, Encode(content)])
         == (OkReply("data", "File '" + name + "' berhasil diupload."), files[name := content])
  {
    LenientRoundTrip(content);
  }

  /** An upload whose payload does not decode still empties the file: the
      file is created or truncated by `open(..., 'wb')` first. */
  lemma FailedUploadTruncates(files: map<string, Bytes>, name: string)
    requires name != "" && !DenotesDirectory(name)
    ensures var u := UploadOutcome(files, [name, "QQ"]);
            u.0 == ErrorReply("data", "Incorrect padding") && u.1 == files[name := []]
  {
    IncorrectPaddingExample();
  }

  /** A payload of two data characters without padding: `Incorrect padding`. */
  lemma IncorrectPaddingExample()
    ensures DecodeLenient("QQ") == Err("Incorrect padding")
  {
    assert !(exists k | 0 <= k < 2 :: "QQ"[k] as int >= 128);
    assert "QQ"[1..] == "Q";
    assert "Q"[1..] == "";
  }

  /** `delete` removes exactly the named file; `get` then reports it missing. */
  lemma DeleteThenGet(files: map<string, Bytes>, name: string)
    requires name in files && WellFormed(files)
    ensures var d := DeleteOutcome(files, [name]);
            && d.0.IsOk() && d.1 == files - {name}
            && Get(d.1, [name]) == ErrorReply("data", NoSuchFile(name))
  {
  }
}
