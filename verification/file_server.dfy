/** The thread-pool server `file_server.py`: one request per connection,
    answered from a directory of files and two global counters.

    The directory `server_files`, the counters and the configured pool size
    are the fields of a `FileServer` object; the directory is a map from
    file name to contents. A request is framed, stripped, split on spaces and
    dispatched on its upper-cased verb; every failure increments the failure
    counter and is answered with `{'status': 'ERROR', 'message': str(e)}`. */
module ThreadServer {
  import opened Common
  import opened PyText
  import opened Base64
  import opened Responses
  import opened Framing

  const FilesDir := "server_files"
  const DefaultPoolSize := 10

  /** A request after `split(' ', 2)` and the verb check. A verb with too few
      arguments, and an unknown verb, raise `ValueError` before anything
      else happens; `Invalid` carries that error's text. */
  datatype Request =
    | Upload(name: string, payload: string)
    | Get(name: string)
    | Status
    | Reset
    | Delete(name: string)
    | List
    | SetPool(arg: string)
    | Invalid(msg: string)

  /** The verbs the server knows, upper-cased. */
  const Verbs: set<string> := {"UPLOAD", "GET", "STATUS", "RESET", "DELETE", "LIST", "SETPOOL"}

  /** The verb of a request line: its first space-separated part, upper-cased. */
  function Verb(message: string): string {
    Upper(Split(message, 2)[0])
  }

  /** How many arguments a verb needs after it. */
  function Arity(verb: string): nat {
    if verb == "UPLOAD" then 2
    else if verb == "GET" || verb == "DELETE" || verb == "SETPOOL" then 1
    else 0
  }

  /** A request line is refused exactly when its verb is unknown or lacks an
      argument; otherwise the arguments are its following parts, and the
      last part keeps any spaces. */
  function Parse(message: string): (req: Request)
    ensures req.Invalid? <==> Verb(message) !in Verbs || |Split(message, 2)| <= Arity(Verb(message))
    ensures Verb(message) !in Verbs ==> req == Invalid("Unknown command: " + Verb(message))
    ensures Verb(message) == "UPLOAD" && |Split(message, 2)| < 3 ==>
              req == Invalid("UPLOAD requires filename and file content")
    ensures Verb(message) == "GET" && |Split(message, 2)| < 2 ==> req == Invalid("GET requires filename")
    ensures Verb(message) == "DELETE" && |Split(message, 2)| < 2 ==> req == Invalid("DELETE requires filename")
    ensures Verb(message) == "SETPOOL" && |Split(message, 2)| < 2 ==> req == Invalid("SETPOOL requires a number")
    ensures req.Upload? ==> Verb(message) == "UPLOAD" && Split(message, 2)[1..] == [req.name, req.payload]
    ensures req.Get? ==> Verb(message) == "GET" && Split(message, 2)[1] == req.name
    ensures req.Delete? ==> Verb(message) == "DELETE" && Split(message, 2)[1] == req.name
    ensures req.SetPool? ==> Verb(message) == "SETPOOL" && Split(message, 2)[1] == req.arg
    ensures (req.Upload? || req.Get? || req.Delete?) ==> ' ' !in req.name
    ensures req.SetPool? ==> ' ' !in req.arg
    ensures req.Invalid? ==> req.msg != []
  {
    var parts := Split(message, 2);
    var command := Upper(parts[0]);
    if command == "UPLOAD" then
      if |parts| < 3 then Invalid("UPLOAD requires filename and file content")
      else Upload(parts[1], parts[2])
    else if command == "GET" then
      if |parts| < 2 then Invalid("GET requires filename") else Get(parts[1])
    else if command == "STATUS" then Status
    else if command == "RESET" then Reset
    else if command == "DELETE" then
      if |parts| < 2 then Invalid("DELETE requires filename") else Delete(parts[1])
    else if command == "LIST" then List
    else if command == "SETPOOL" then
      if |parts| < 2 then Invalid("SETPOOL requires a number") else SetPool(parts[1])
    else Invalid("Unknown command: " + command)
  }

  /** Names that `os.path.join(FilesDir, name)` turns into the directory
      itself or its parent: opening or removing them fails. */
  predicate DenotesDirectory(name: string) {
    name == "" || name == "." || name == ".."
  }

  function IsADirectory(name: string): string {
    "[Errno 21] Is a directory: '" + FilesDir + "/" + name + "'"
  }

  /** The server's state: the directory, both counters, the pool size. */
  datatype State = State(files: map<string, Bytes>, success: nat, fail: nat, poolSize: int)

  /** What every request keeps true: a usable pool size, and only names that
      can be regular files in the directory. */
  ghost predicate ValidState(s: State) {
    && s.poolSize >= 1
    && forall n | n in s.files :: !DenotesDirectory(n)
  }

  /** The `except` clause: one more failure, and the error text. */
  function Fail(s: State, msg: string): (State, Reply) {
    (s.(fail := s.fail + 1), ErrorReply("message", msg))
  }

  /** One request against the server state: the new state and the response. */
  function Step(s: State, req: Request): (r: (State, Reply))
    ensures r.1.Reply? && (r.1.status == ERROR <==> r.0.fail == s.fail + 1)
    ensures r.1.IsError() ==> r.0 == s.(fail := s.fail + 1) && r.1.fields.Keys == {"message"}
    ensures r.0.success == if req.Reset? then 0
                           else if r.1.IsOk() && (req.Upload? || req.Get?) then s.success + 1
                           else s.success
    ensures r.1.IsOk() ==> r.0.fail == if req.Reset? then 0 else s.fail
    ensures (!req.Upload? && !req.Delete?) || r.1.IsError() ==> r.0.files == s.files
    ensures r.0.poolSize != s.poolSize ==> req.SetPool? && r.1.IsOk()
    ensures req.Invalid? ==> r.1 == ErrorReply("message", req.msg)
    ensures req.Reset? ==> r == (s.(success := 0, fail := 0), OkReply("message", "Server counters reset"))
    ensures req.Upload? ==> (r.1.IsOk() <==> DecodeStrict(req.payload).Some? && !DenotesDirectory(req.name))
    ensures req.Upload? && r.1.IsOk() ==> r.1 == OkReply("message", req.name + " uploaded")
    ensures req.Delete? && r.1.IsOk() ==> r.1 == OkReply("data", req.name + " deleted")
    ensures req.Upload? && DecodeStrict(req.payload).None? ==> r.1 == ErrorReply("message", "Invalid base64 encoding")
    ensures req.Upload? && r.1.IsOk() ==> r.0.files == s.files[req.name := DecodeStrict(req.payload).value]
    ensures (req.Get? || req.Delete?) ==> (r.1.IsOk() <==> req.name in s.files && !DenotesDirectory(req.name))
    ensures (req.Get? || req.Delete?) && req.name !in s.files && !DenotesDirectory(req.name) ==>
              r.1 == ErrorReply("message", req.name + " not found on server")
    ensures req.Get? && r.1.IsOk() ==>
              r.1.fields.Keys == {"data_namafile", "data_file"} &&
              r.1.fields["data_namafile"] == Str(req.name) &&
              r.1.fields["data_file"] == Str(Encode(s.files[req.name]))
    ensures req.Delete? && r.1.IsOk() ==> r.0.files == s.files - {req.name}
    ensures req.Status? ==>
              r == (s, Reply(OK, map["server_success" := Int(s.success), "server_failed" := Int(s.fail)]))
    ensures req.List? ==> r == (s, Reply(OK, map["data" := Names(s.files.Keys)]))
    ensures req.SetPool? ==> (r.1.IsOk() <==> PyInt(req.arg).Some? && PyInt(req.arg).value >= 1)
    ensures req.SetPool? && r.1.IsOk() ==> r.0.poolSize == PyInt(req.arg).value
    ensures req.SetPool? && r.1.IsOk() ==>
              r.1 == OkReply("message", "Server pool size set to " + NatToString(PyInt(req.arg).value))
    ensures req.SetPool? && r.1.IsError() ==> r.1 == ErrorReply("message", "Invalid server pool size")
  {
    var r := Dispatch(s, req);
    DispatchCounters(s, req, r);
    DispatchFiles(s, req, r);
    DispatchOthers(s, req, r);
    r
  }

  /** The `if`/`elif` chain of the `try` block, ending in the `except`
      clause for a request that raises. */
  function Dispatch(s: State, req: Request): (State, Reply) {
    match req
    case Invalid(msg) => Fail(s, msg)
    case Upload(name, payload) => UploadStep(s, name, payload)
    case Get(name) => GetStep(s, name)
    case Status =>
      (s, Reply(OK, map["server_success" := Int(s.success), "server_failed" := Int(s.fail)]))
    case Reset =>
      (s.(success := 0, fail := 0), OkReply("message", "Server counters reset"))
    case Delete(name) => DeleteStep(s, name)
    case List =>
      (s, Reply(OK, map["data" := Names(s.files.Keys)]))
    case SetPool(arg) => SetPoolStep(s, arg)
  }

  /** How `Dispatch` moves the counters, the files and the pool size. */
  lemma DispatchCounters(s: State, req: Request, r: (State, Reply))
    requires r == Dispatch(s, req)
    ensures r.1.Reply? && (r.1.status == ERROR <==> r.0.fail == s.fail + 1)
    ensures r.1.IsError() ==> r.0 == s.(fail := s.fail + 1) && r.1.fields.Keys == {"message"}
    ensures r.0.success == if req.Reset? then 0
                           else if r.1.IsOk() && (req.Upload? || req.Get?) then s.success + 1
                           else s.success
    ensures r.1.IsOk() ==> r.0.fail == if req.Reset? then 0 else s.fail
    ensures (!req.Upload? && !req.Delete?) || r.1.IsError() ==> r.0.files == s.files
    ensures r.0.poolSize != s.poolSize ==> req.SetPool? && r.1.IsOk()
  {
  }

  /** What `Dispatch` answers to UPLOAD, GET and DELETE. */
  lemma DispatchFiles(s: State, req: Request, r: (State, Reply))
    requires r == Dispatch(s, req)
    ensures req.Upload? ==> (r.1.IsOk() <==> DecodeStrict(req.payload).Some? && !DenotesDirectory(req.name))
    ensures req.Upload? && r.1.IsOk() ==> r.1 == OkReply("message", req.name + " uploaded")
    ensures req.Delete? && r.1.IsOk() ==> r.1 == OkReply("data", req.name + " deleted")
    ensures req.Upload? && DecodeStrict(req.payload).None? ==> r.1 == ErrorReply("message", "Invalid base64 encoding")
    ensures req.Upload? && r.1.IsOk() ==> r.0.files == s.files[req.name := DecodeStrict(req.payload).value]
    ensures (req.Get? || req.Delete?) ==> (r.1.IsOk() <==> req.name in s.files && !DenotesDirectory(req.name))
    ensures (req.Get? || req.Delete?) && req.name !in s.files && !DenotesDirectory(req.name) ==>
              r.1 == ErrorReply("message", req.name + " not found on server")
    ensures req.Get? && r.1.IsOk() ==>
              r.1.fields.Keys == {"data_namafile", "data_file"} &&
              r.1.fields["data_namafile"] == Str(req.name) &&
              r.1.fields["data_file"] == Str(Encode(s.files[req.name]))
    ensures req.Delete? && r.1.IsOk() ==> r.0.files == s.files - {req.name}
  {
  }

  /** What `Dispatch` answers to the other requests. */
  lemma DispatchOthers(s: State, req: Request, r: (State, Reply))
    requires r == Dispatch(s, req)
    ensures req.Invalid? ==> r.1 == ErrorReply("message", req.msg)
    ensures req.Reset? ==> r == (s.(success := 0, fail := 0), OkReply("message", "Server counters reset"))
    ensures req.Status? ==>
              r == (s, Reply(OK, map["server_success" := Int(s.success), "server_failed" := Int(s.fail)]))
    ensures req.List? ==> r == (s, Reply(OK, map["data" := Names(s.files.Keys)]))
    ensures req.SetPool? ==> (r.1.IsOk() <==> PyInt(req.arg).Some? && PyInt(req.arg).value >= 1)
    ensures req.SetPool? && r.1.IsOk() ==> r.0.poolSize == PyInt(req.arg).value
    ensures req.SetPool? && r.1.IsOk() ==>
              r.1 == OkReply("message", "Server pool size set to " + NatToString(PyInt(req.arg).value))
    ensures req.SetPool? && r.1.IsError() ==> r.1 == ErrorReply("message", "Invalid server pool size")
  {
  }

  /** Every request keeps the pool size usable and the directory free of
      names that denote directories. */
  lemma StepKeepsValid(s: State, req: Request)
    requires ValidState(s)
    ensures ValidState(Step(s, req).0)
  {
  }

  /** UPLOAD: the payload is decoded strictly, then written under `name`. */
  function UploadStep(s: State, name: string, payload: string): (r: (State, Reply))
    ensures r.1.IsOk() <==> DecodeStrict(payload).Some? && !DenotesDirectory(name)
    ensures r.1.IsOk() ==> r.0 == s.(files := s.files[name := DecodeStrict(payload).value], success := s.success + 1)
    ensures !r.1.IsOk() ==> r.0 == s.(fail := s.fail + 1) && r.1.IsError() && r.1.fields.Keys == {"message"}
    ensures DecodeStrict(payload).None? ==> r.1 == ErrorReply("message", "Invalid base64 encoding")
    ensures r.1.IsOk() ==> r.1 == OkReply("message", name + " uploaded")
  {
    match DecodeStrict(payload)
    case None => Fail(s, "Invalid base64 encoding")
    case Some(data) =>
      if DenotesDirectory(name) then Fail(s, IsADirectory(name))
      else (s.(files := s.files[name := data], success := s.success + 1), OkReply("message", name + " uploaded"))
  }

  /** GET: the contents of an existing file, encoded. */
  function GetStep(s: State, name: string): (r: (State, Reply))
    ensures r.1.IsOk() <==> name in s.files && !DenotesDirectory(name)
    ensures r.1.IsOk() ==>
              && r.0 == s.(success := s.success + 1)
              && r.1.fields.Keys == {"data_namafile", "data_file"}
              && r.1.fields["data_namafile"] == Str(name)
              && r.1.fields["data_file"] == Str(Encode(s.files[name]))
    ensures !r.1.IsOk() ==> r.0 == s.(fail := s.fail + 1) && r.1.IsError() && r.1.fields.Keys == {"message"}
    ensures name !in s.files && !DenotesDirectory(name) ==> r.1 == ErrorReply("message", name + " not found on server")
  {
    if name !in s.files && !DenotesDirectory(name) then Fail(s, name + " not found on server")
    else if DenotesDirectory(name) then Fail(s, IsADirectory(name))
    else (s.(success := s.success + 1),
          Reply(OK, map["data_namafile" := Str(name), "data_file" := Str(Encode(s.files[name]))]))
  }

  /** DELETE: an existing file is removed; no success is counted. */
  function DeleteStep(s: State, name: string): (r: (State, Reply))
    ensures r.1.IsOk() <==> name in s.files && !DenotesDirectory(name)
    ensures r.1.IsOk() ==> r.0 == s.(files := s.files - {name})
    ensures r.1.IsOk() ==> r.1 == OkReply("data", name + " deleted")
    ensures !r.1.IsOk() ==> r.0 == s.(fail := s.fail + 1) && r.1.IsError() && r.1.fields.Keys == {"message"}
    ensures name !in s.files && !DenotesDirectory(name) ==> r.1 == ErrorReply("message", name + " not found on server")
  {
    if name !in s.files && !DenotesDirectory(name) then Fail(s, name + " not found on server")
    else if DenotesDirectory(name) then Fail(s, IsADirectory(name))
    else (s.(files := s.files - {name}), OkReply("data", name + " deleted"))
  }

  /** SETPOOL: `int()` of the argument, which must be at least 1. */
  function SetPoolStep(s: State, arg: string): (r: (State, Reply))
    ensures r.1.IsOk() <==> PyInt(arg).Some? && PyInt(arg).value >= 1
    ensures r.1.IsOk() ==> r.0 == s.(poolSize := PyInt(arg).value)
    ensures r.1.IsOk() ==> r.1 == OkReply("message", "Server pool size set to " + NatToString(PyInt(arg).value))
    ensures !r.1.IsOk() ==> r == Fail(s, "Invalid server pool size")
  {
    match PyInt(arg)
    case None => Fail(s, "Invalid server pool size")
    case Some(n) =>
      if n < 1 then Fail(s, "Invalid server pool size")
      else (s.(poolSize := n), OkReply("message", "Server pool size set to " + NatToString(n)))
  }

  class FileServer {
    var files: map<string, Bytes>
    var success: nat
    var fail: nat
    var poolSize: int

    function Snapshot(): State
      reads this
    {
      State(files, success, fail, poolSize)
    }

    ghost predicate Valid()
      reads this
    {
      ValidState(Snapshot())
    }

    /** A server started on a directory that already holds `initial`. */
    constructor (initial: map<string, Bytes>)
      requires forall n | n in initial :: !DenotesDirectory(n)
      ensures Valid()
      ensures Snapshot() == State(initial, 0, 0, DefaultPoolSize)
    {
      files := initial;
      success := 0;
      fail := 0;
      poolSize := DefaultPoolSize;
    }

    /** The `except` clause: one more failure, and the error text. */
    method Except(msg: string) returns (reply: Reply)
      modifies this
      ensures (Snapshot(), reply) == Fail(old(Snapshot()), msg)
    {
      fail := fail + 1;
      reply := ErrorReply("message", msg);
    }

    /** The body of the `try`, where each `raise` ends in the `except`
        clause, for one request. */
    method Execute(req: Request) returns (reply: Reply)
      requires Valid()
      modifies this
      ensures Valid()
      ensures (Snapshot(), reply) == Step(old(Snapshot()), req)
    {
      StepKeepsValid(Snapshot(), req);
      match req {
        case Invalid(msg) =>
          reply := Except(msg);
        case Upload(name, payload) =>
          var decoded := DecodeStrict(payload);
          if decoded.None? {
            reply := Except("Invalid base64 encoding");
          } else if DenotesDirectory(name) {
            reply := Except(IsADirectory(name));
          } else {
            files := files[name := decoded.value];
            success := success + 1;
            reply := OkReply("message", name + " uploaded");
          }
        case Get(name) =>
          if name !in files && !DenotesDirectory(name) {
            reply := Except(name + " not found on server");
          } else if DenotesDirectory(name) {
            reply := Except(IsADirectory(name));
          } else {
            var encoded := Encode(files[name]);
            success := success + 1;
            reply := Reply(OK, map["data_namafile" := Str(name), "data_file" := Str(encoded)]);
          }
        case Status =>
          reply := Reply(OK, map["server_success" := Int(success), "server_failed" := Int(fail)]);
        case Reset =>
          success := 0;
          fail := 0;
          reply := OkReply("message", "Server counters reset");
        case Delete(name) =>
          if name !in files && !DenotesDirectory(name) {
            reply := Except(name + " not found on server");
          } else if DenotesDirectory(name) {
            reply := Except(IsADirectory(name));
          } else {
            files := files - {name};
            reply := OkReply("data", name + " deleted");
          }
        case List =>
          reply := Reply(OK, map["data" := Names(files.Keys)]);
        case SetPool(arg) =>
          var n := PyInt(arg);
          if n.None? || n.value < 1 {
            reply := Except("Invalid server pool size");
          } else {
            poolSize := n.value;
            reply := OkReply("message", "Server pool size set to " + NatToString(n.value));
          }
      }
    }

    /** `handle_client`: read the request, answer it, close. The response
        handed to `send_response` is the result. */
    method HandleClient(chunks: seq<string>) returns (reply: Reply)
      requires Valid()
      modifies this
      ensures Valid()
      ensures (Snapshot(), reply) == Step(old(Snapshot()), Parse(Strip(Frame(chunks).data)))
    {
      var data, _ := Receive(chunks);
      var message := Strip(data);
      var req := Parse(message);
      reply := Execute(req);
    }
  }

  // -----------------------------------------------------------------------
  // Parsing request lines

  lemma ParseUpload(verb: string, name: string, payload: string)
    requires ' ' !in verb && ' ' !in name && Upper(verb) == "UPLOAD"
    ensures Parse(verb + " " + name + " " + payload) == Upload(name, payload)
  {
    assert verb + " " + name + " " + payload == verb + " " + (name + " " + payload);
    SplitAfterWord(verb, name + " " + payload, 1);
    SplitAfterWord(name, payload, 0);
  }

  /** `GET name` and `DELETE name`: the verb and one word. */
  lemma ParseNamed(verb: string, name: string)
    requires ' ' !in verb && ' ' !in name
    ensures Upper(verb) == "GET" ==> Parse(verb + " " + name) == Get(name)
    ensures Upper(verb) == "DELETE" ==> Parse(verb + " " + name) == Delete(name)
    ensures Upper(verb) == "SETPOOL" ==> Parse(verb + " " + name) == SetPool(name)
  {
    SplitAfterWord(verb, name, 1);
    SplitWord(name, 1);
  }

  /** An empty request, or one of only whitespace, is an unknown command
      with an empty verb. */
  lemma ParseEmpty()
    ensures Parse("") == Invalid("Unknown command: ")
  {
    assert Split("", 2) == [""];
  }

  // -----------------------------------------------------------------------
  // Properties of the dispatch

  /** A file uploaded is served back by GET with the same contents. */
  lemma UploadThenGet(s: State, name: string, payload: string)
    requires DecodeStrict(payload).Some? && !DenotesDirectory(name)
    ensures var s1 := Step(s, Upload(name, payload));
            var s2 := Step(s1.0, Get(name));
            && s1.1.IsOk() && s2.1.IsOk()
            && s2.0.success == s.success + 2
            && s2.1.fields["data_namafile"] == Str(name)
            && DecodeStrict(s2.1.fields["data_file"].s) == DecodeStrict(payload)
  {
    StrictRoundTrip(DecodeStrict(payload).value);
  }

  /** DELETE removes exactly the named file and, unlike UPLOAD and GET,
      does not count as a success; GET then fails. */
  lemma DeleteThenGet(s: State, name: string)
    requires name in s.files && !DenotesDirectory(name)
    ensures var d := Step(s, Delete(name));
            && d.1.IsOk() && d.0.files == s.files - {name} && d.0.success == s.success
            && Step(d.0, Get(name)).1 == ErrorReply("message", name + " not found on server")
  {
  }

  /** SETPOOL with a positive number in decimal sets the pool size and
      reports it back in the same digits. */
  lemma SetPoolAccepts(s: State, n: nat)
    requires n >= 1 && |NatToString(n)| <= MaxStrDigits
    ensures Step(s, SetPool(NatToString(n)))
         == (s.(poolSize := n), OkReply("message", "Server pool size set to " + NatToString(n)))
  {
    PyIntOfNat(n);
  }

  /** A number written with more digits than `int()` converts, leading
      zeros included, is refused like text that is not a number. */
  lemma SetPoolRejectsLong(s: State, arg: string)
    requires arg != [] && forall k | 0 <= k < |arg| :: IsDigit(arg[k])
    requires |arg| > MaxStrDigits
    ensures Step(s, SetPool(arg)) == Fail(s, "Invalid server pool size")
  {
    PyIntTooLong(arg);
  }

  /** `SETPOOL \x1c5` reaches `int()` with the separator still in front,
      since `strip()` saw it inside the line, and is refused. */
  lemma SetPoolRejectsSeparator(s: State)
    ensures Parse("SETPOOL \U{1C}5") == SetPool("\U{1C}5")
    ensures Step(s, SetPool("\U{1C}5")) == Fail(s, "Invalid server pool size")
  {
    assert "SETPOOL \U{1C}5" == "SETPOOL" + " " + "\U{1C}5";
    assert Upper("SETPOOL") == "SETPOOL";
    ParseNamed("SETPOOL", "\U{1C}5");
    PyIntRefusesSeparator();
  }

  /** SETPOOL 0 is refused like any other text that is not a positive
      integer, and the pool size stays. */
  lemma SetPoolRejectsZero(s: State)
    ensures Step(s, SetPool("0")) == Fail(s, "Invalid server pool size")
  {
    PyIntOfNat(0);
    assert NatToString(0) == "0";
  }

  /** STATUS after RESET reports zero successes and zero failures. */
  lemma ResetThenStatus(s: State)
    ensures var r := Step(Step(s, Reset).0, Status).1;
            r.fields["server_success"] == Int(0) && r.fields["server_failed"] == Int(0)
  {
  }

  // -----------------------------------------------------------------------
  // Whole connections

  /** The line `UPLOAD name <base64>` survives framing and `strip()`. */
  lemma UploadLine(name: string, e: string)
    requires name != [] && Printable(name) && e != [] && Printable(e)
    ensures var m := "UPLOAD " + name + " " + e;
            m != [] && Trimmed(m) && forall k | 0 <= k < |m| :: m[k] != '\r'
  {
    var m := "UPLOAD " + name + " " + e;
    forall k | 0 <= k < |m| ensures m[k] != '\r' {
      if 7 <= k < 7 + |name| {
        assert m[k] == name[k - 7];
      } else if k > 7 + |name| {
        assert m[k] == e[k - 8 - |name|];
      }
    }
    assert m[|m| - 1] == e[|e| - 1];
  }

  /** The line `GET name` survives framing and `strip()`. */
  lemma GetLine(name: string)
    requires name != [] && Printable(name)
    ensures var m := "GET " + name;
            m != [] && Trimmed(m) && forall k | 0 <= k < |m| :: m[k] != '\r'
  {
    var m := "GET " + name;
    forall k | 0 <= k < |m| ensures m[k] != '\r' {
      if 4 <= k {
        assert m[k] == name[k - 4];
      }
    }
    assert m[|m| - 1] == name[|name| - 1];
  }

  lemma UploadArrives(up: seq<string>, name: string, e: string)
    requires name != [] && Printable(name) && e != [] && Printable(e)
    requires forall k | 0 <= k < |up| :: up[k] != []
    requires Concat(up) == "UPLOAD " + name + " " + e + Terminator
    ensures Strip(Frame(up).data) == "UPLOAD " + name + " " + e
  {
    UploadLine(name, e);
    ReceivedLine(up, "UPLOAD " + name + " " + e);
  }

  lemma GetArrives(get: seq<string>, name: string)
    requires name != [] && Printable(name)
    requires forall k | 0 <= k < |get| :: get[k] != []
    requires Concat(get) == "GET " + name + Terminator
    ensures Strip(Frame(get).data) == "GET " + name
  {
    GetLine(name);
    ReceivedLine(get, "GET " + name);
  }

  lemma ParseUploadLine(name: string, e: string)
    requires ' ' !in name
    ensures Parse("UPLOAD " + name + " " + e) == Upload(name, e)
  {
    assert "UPLOAD" + " " + name + " " + e == "UPLOAD " + name + " " + e;
    ParseUpload("UPLOAD", name, e);
  }

  lemma ParseGetLine(name: string)
    requires ' ' !in name
    ensures Parse("GET " + name) == Get(name)
  {
    ParseNamed("GET", name);
  }

  /** How a client's `UPLOAD name <base64>` arrives, in any chunking. */
  lemma UploadReceived(up: seq<string>, name: string, e: string)
    requires name != [] && Printable(name) && e != [] && Printable(e)
    requires forall k | 0 <= k < |up| :: up[k] != []
    requires Concat(up) == "UPLOAD " + name + " " + e + Terminator
    ensures Parse(Strip(Frame(up).data)) == Upload(name, e)
  {
    UploadArrives(up, name, e);
    ParseUploadLine(name, e);
  }

  /** How a client's `GET name` arrives, in any chunking. */
  lemma GetReceived(get: seq<string>, name: string)
    requires name != [] && Printable(name)
    requires forall k | 0 <= k < |get| :: get[k] != []
    requires Concat(get) == "GET " + name + Terminator
    ensures Parse(Strip(Frame(get).data)) == Get(name)
  {
    GetArrives(get, name);
    ParseGetLine(name);
  }

  /** A client that sends `UPLOAD name <base64>` and, on a later
      connection, `GET name` is understood, wherever its chunk boundaries
      fall; with `UploadThenGet` it gets its bytes back. */
  lemma UploadGetOverTheWire(name: string, content: Bytes, up: seq<string>, get: seq<string>)
    requires name != [] && Printable(name)
    requires content != []
    requires forall k | 0 <= k < |up| :: up[k] != []
    requires forall k | 0 <= k < |get| :: get[k] != []
    requires Concat(up) == "UPLOAD " + name + " " + Encode(content) + Terminator
    requires Concat(get) == "GET " + name + Terminator
    ensures Parse(Strip(Frame(up).data)) == Upload(name, Encode(content))
    ensures Parse(Strip(Frame(get).data)) == Get(name)
    ensures DecodeStrict(Encode(content)) == Some(content)
  {
    EncodePrintable(content);
    UploadReceived(up, name, Encode(content));
    GetReceived(get, name);
    StrictRoundTrip(content);
  }

  /** An empty file cannot be uploaded: its encoding is empty, `strip()`
      removes the space before it, and the request lacks its third part. */
  lemma EmptyUploadRefused(s: State, name: string)
    requires name != [] && Printable(name)
    ensures Step(s, Parse(Strip("UPLOAD " + name + " " + Encode([]) + Terminator)))
         == Fail(s, "UPLOAD requires filename and file content")
  {
    StripEmptyUpload(name);
    ParseUploadWithoutPayload(name);
  }

  lemma ParseUploadWithoutPayload(name: string)
    requires Printable(name)
    ensures Parse("UPLOAD " + name) == Invalid("UPLOAD requires filename and file content")
  {
    assert ' ' !in name by {
      forall k | 0 <= k < |name| ensures name[k] != ' ' {
        assert '+' <= name[k];
      }
    }
    var m := "UPLOAD " + name;
    assert m == "UPLOAD" + " " + name;
    SplitAfterWord("UPLOAD", name, 1);
    SplitWord(name, 1);
    var parts := Split(m, 2);
    assert parts == ["UPLOAD", name];
    assert Upper(parts[0]) == "UPLOAD";
  }

  lemma StripEmptyUpload(name: string)
    requires name != [] && Printable(name)
    ensures Strip("UPLOAD " + name + " " + Encode([]) + Terminator) == "UPLOAD " + name
  {
    var m := "UPLOAD " + name;
    var pad := " " + Terminator;
    assert Encode([]) == "";
    assert "UPLOAD " + name + " " + Encode([]) + Terminator == [] + m + pad;
    assert AllSpace(pad) by {
      assert forall k | 0 <= k < 5 :: pad[k] == ' ' || pad[k] == '\r' || pad[k] == '\n';
    }
    assert m[|m| - 1] == name[|name| - 1];
    StripPadded([], m, pad);
  }
}
