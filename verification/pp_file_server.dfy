/** The process-pool server `pp_file_server.py`: the same request pipeline as
    the thread server, over the directory `files` and two counters shared
    between the worker processes, without SETPOOL, with a GET response that
    carries only the contents, and with DELETE counted as a success.

    As written, the shared counters are `Manager().Value` proxies, which have
    no `get_lock`; `StepAsWritten` models what that does to every request.
    `Step`, used by `FileServer`, is the evident intent: each counter update
    is one atomic step. */
module ProcessServer {
  import opened Common
  import opened PyText
  import opened Base64
  import opened Responses
  import opened Framing

  const FilesDir := "files"

  datatype Request =
    | Upload(name: string, payload: string)
    | Get(name: string)
    | Status
    | Reset
    | Delete(name: string)
    | List
    | Invalid(msg: string)

  /** The verbs the server knows, upper-cased; SETPOOL is not one of them. */
  const Verbs: set<string> := {"UPLOAD", "GET", "STATUS", "RESET", "DELETE", "LIST"}

  /** The verb of a request line: its first space-separated part, upper-cased. */
  function Verb(message: string): string {
    Upper(Split(message, 2)[0])
  }

  /** How many arguments a verb needs after it. */
  function Arity(verb: string): nat {
    if verb == "UPLOAD" then 2
    else if verb == "GET" || verb == "DELETE" then 1
    else 0
  }

  /** `split(' ', 2)` and the verb check: a request line is refused exactly
      when its verb is unknown or lacks an argument; otherwise the arguments
      are its following parts. */
  function Parse(message: string): (req: Request)
    ensures req.Invalid? <==> Verb(message) !in Verbs || |Split(message, 2)| <= Arity(Verb(message))
    ensures Verb(message) !in Verbs ==> req == Invalid("Unknown command: " + Verb(message))
    ensures Verb(message) == "UPLOAD" && |Split(message, 2)| < 3 ==>
              req == Invalid("UPLOAD requires filename and file content")
    ensures Verb(message) == "GET" && |Split(message, 2)| < 2 ==> req == Invalid("GET requires filename")
    ensures Verb(message) == "DELETE" && |Split(message, 2)| < 2 ==> req == Invalid("DELETE requires filename")
    ensures req.Upload? ==> Verb(message) == "UPLOAD" && Split(message, 2)[1..] == [req.name, req.payload]
    ensures req.Get? ==> Verb(message) == "GET" && Split(message, 2)[1] == req.name
    ensures req.Delete? ==> Verb(message) == "DELETE" && Split(message, 2)[1] == req.name
    ensures (req.Upload? || req.Get? || req.Delete?) ==> ' ' !in req.name
    ensures req.Invalid? ==> req.msg != []
  {
    var parts := Split(message, 2);
    var command := Upper(parts[0]);
    if command == "UPLOAD" then
      if |parts| < 3 then Invalid("UPLOAD requires filename and file content")
      else Upload(parts[1], parts[2])
    else if command == "GET" then
      if |parts| < 2 then Invalid("GET requires filename") else Get(parts[1])
    else if command == "STATUS" then Status
    else if command == "RESET" then Reset
    else if command == "DELETE" then
      if |parts| < 2 then Invalid("DELETE requires filename") else Delete(parts[1])
    else if command == "LIST" then List
    else Invalid("Unknown command: " + command)
  }

  predicate DenotesDirectory(name: string) {
    name == "" || name == "." || name == ".."
  }

  function IsADirectory(name: string): string {
    "[Errno 21] Is a directory: '" + FilesDir + "/" + name + "'"
  }

  datatype State = State(files: map<string, Bytes>, success: nat, fail: nat)

  ghost predicate ValidState(s: State) {
    forall n | n in s.files :: !DenotesDirectory(n)
  }

  function Fail(s: State, msg: string): (State, Reply) {
    (s.(fail := s.fail + 1), ErrorReply("message", msg))
  }

  /** One request, with every counter update taken as one atomic step. */
  function Step(s: State, req: Request): (r: (State, Reply))
    ensures ValidState(s) ==> ValidState(r.0)
    ensures r.1.Reply? && (r.1.status == ERROR <==> r.0.fail == s.fail + 1)
    ensures r.1.IsError() ==> r.0 == s.(fail := s.fail + 1) && r.1.fields.Keys == {"message"}
    ensures r.0.success == if req.Reset? then 0
                           else if r.1.IsOk() && (req.Upload? || req.Get? || req.Delete?) then s.success + 1
                           else s.success
    ensures r.1.IsOk() ==> r.0.fail == if req.Reset? then 0 else s.fail
    ensures (!req.Upload? && !req.Delete?) || r.1.IsError() ==> r.0.files == s.files
    ensures req.Invalid? ==> r.1 == ErrorReply("message", req.msg)
    ensures req.Reset? ==> r == (s.(success := 0, fail := 0), OkReply("message", "Server counters reset"))
    ensures req.Upload? ==> (r.1.IsOk() <==> DecodeStrict(req.payload).Some? && !DenotesDirectory(req.name))
    ensures req.Upload? && r.1.IsOk() ==> r.1 == OkReply("message", req.name + " uploaded")
    ensures req.Delete? && r.1.IsOk() ==> r.1 == OkReply("data", req.name + " deleted")
    ensures req.Upload? && DecodeStrict(req.payload).None? ==> r.1 == ErrorReply("message", "Invalid base64 encoding")
    ensures req.Upload? && r.1.IsOk() ==> r.0.files == s.files[req.name := DecodeStrict(req.payload).value]
    ensures (req.Get? || req.Delete?) ==> (r.1.IsOk() <==> req.name in s.files && !DenotesDirectory(req.name))
    ensures (req.Get? || req.Delete?) && req.name !in s.files && !DenotesDirectory(req.name) ==>
              r.1 == ErrorReply("message", req.name + " not found on server")
    ensures req.Get? && r.1.IsOk() ==> r.1 == OkReply("data_file", Encode(s.files[req.name]))
    ensures req.Delete? && r.1.IsOk() ==> r.0.files == s.files - {req.name}
    ensures req.Status? ==>
              r == (s, Reply(OK, map["server_success" := Int(s.success), "server_failed" := Int(s.fail)]))
    ensures req.List? ==> r == (s, Reply(OK, map["data" := Names(s.files.Keys)]))
  {
    match req
    case Invalid(msg) => Fail(s, msg)
    case Upload(name, payload) =>
      (match DecodeStrict(payload)
       case None => Fail(s, "Invalid base64 encoding")
       case Some(data) =>
         if DenotesDirectory(name) then Fail(s, IsADirectory(name))
         else (s.(files := s.files[name := data], success := s.success + 1),
               OkReply("message", name + " uploaded")))
    case Get(name) =>
      if name !in s.files && !DenotesDirectory(name) then Fail(s, name + " not found on server")
      else if DenotesDirectory(name) then Fail(s, IsADirectory(name))
      else (s.(success := s.success + 1), OkReply("data_file", Encode(s.files[name])))
    case Status =>
      (s, Reply(OK, map["server_success" := Int(s.success), "server_failed" := Int(s.fail)]))
    case Reset =>
      (s.(success := 0, fail := 0), OkReply("message", "Server counters reset"))
    case Delete(name) =>
      if name !in s.files && !DenotesDirectory(name) then Fail(s, name + " not found on server")
      else if DenotesDirectory(name) then Fail(s, IsADirectory(name))
      else (s.(files := s.files - {name}, success := s.success + 1), OkReply("data", name + " deleted"))
    case List =>
      (s, Reply(OK, map["data" := Names(s.files.Keys)]))
  }

  /** The handler as written: every `get_lock()` raises `AttributeError`, in
      the `try` block and again in the `except` clause, so the exception
      escapes, the `{}` assigned before the dispatch is what is sent, and
      no counter ever changes. File effects that precede the failing lock
      call still happen. LIST takes no lock and is answered normally. */
  function StepAsWritten(s: State, req: Request): (r: (State, Reply))
    ensures r.0.success == s.success && r.0.fail == s.fail
    ensures r.1 == EmptyDict <==> !req.List?
  {
    match req
    case Upload(name, payload) =>
      (match DecodeStrict(payload)
       case Some(data) =>
         if DenotesDirectory(name) then (s, EmptyDict)
         else (s.(files := s.files[name := data]), EmptyDict)
       case None => (s, EmptyDict))
    case Delete(name) =>
      if name in s.files && !DenotesDirectory(name) then (s.(files := s.files - {name}), EmptyDict)
      else (s, EmptyDict)
    case List =>
      (s, Reply(OK, map["data" := Names(s.files.Keys)]))
    case _ => (s, EmptyDict)
  }

  class FileServer {
    var files: map<string, Bytes>
    var success: nat
    var fail: nat

    function Snapshot(): State
      reads this
    {
      State(files, success, fail)
    }

    ghost predicate Valid()
      reads this
    {
      ValidState(Snapshot())
    }

    constructor (initial: map<string, Bytes>)
      requires forall n | n in initial :: !DenotesDirectory(n)
      ensures Valid()
      ensures Snapshot() == State(initial, 0, 0)
    {
      files := initial;
      success := 0;
      fail := 0;
    }

    /** The `except` clause: one more failure, and the error text. */
    method Except(msg: string) returns (reply: Reply)
      modifies this
      ensures (Snapshot(), reply) == Fail(old(Snapshot()), msg)
    {
      fail := fail + 1;
      reply := ErrorReply("message", msg);
    }

    /** The `try` block, where each `raise` ends in the `except` clause, for
        one request. */
    method Execute(req: Request) returns (reply: Reply)
      requires Valid()
      modifies this
      ensures Valid()
      ensures (Snapshot(), reply) == Step(old(Snapshot()), req)
    {
      match req {
        case Invalid(msg) =>
          reply := Except(msg);
        case Upload(name, payload) =>
          var decoded := DecodeStrict(payload);
          if decoded.None? {
            reply := Except("Invalid base64 encoding");
          } else if DenotesDirectory(name) {
            reply := Except(IsADirectory(name));
          } else {
            files := files[name := decoded.value];
            success := success + 1;
            reply := OkReply("message", name + " uploaded");
          }
        case Get(name) =>
          if name !in files && !DenotesDirectory(name) {
            reply := Except(name + " not found on server");
          } else if DenotesDirectory(name) {
            reply := Except(IsADirectory(name));
          } else {
            var encoded := Encode(files[name]);
            success := success + 1;
            reply := OkReply("data_file", encoded);
          }
        case Status =>
          reply := Reply(OK, map["server_success" := Int(success), "server_failed" := Int(fail)]);
        case Reset =>
          success := 0;
          fail := 0;
          reply := OkReply("message", "Server counters reset");
        case Delete(name) =>
          if name !in files && !DenotesDirectory(name) {
            reply := Except(name + " not found on server");
          } else if DenotesDirectory(name) {
            reply := Except(IsADirectory(name));
          } else {
            files := files - {name};
            success := success + 1;
            reply := OkReply("data", name + " deleted");
          }
        case List =>
          reply := Reply(OK, map["data" := Names(files.Keys)]);
      }
    }

    /** `handle_client`: read the request, answer it, close, return `True`.
        A failure to send is swallowed, so the reply is all the client
        side of the model sees. */
    method HandleClient(chunks: seq<string>) returns (reply: Reply, done: bool)
      requires Valid()
      modifies this
      ensures Valid() && done
      ensures (Snapshot(), reply) == Step(old(Snapshot()), Parse(Strip(Frame(chunks).data)))
    {
      var data, _ := Receive(chunks);
      var message := Strip(data);
      var req := Parse(message);
      reply := Execute(req);
      done := true;
    }
  }

  // -----------------------------------------------------------------------
  // Parsing request lines

  lemma ParseUpload(verb: string, name: string, payload: string)
    requires ' ' !in verb && ' ' !in name && Upper(verb) == "UPLOAD"
    ensures Parse(verb + " " + name + " " + payload) == Upload(name, payload)
  {
    assert verb + " " + name + " " + payload == verb + " " + (name + " " + payload);
    SplitAfterWord(verb, name + " " + payload, 1);
    SplitAfterWord(name, payload, 0);
  }

  lemma ParseNamed(verb: string, name: string)
    requires ' ' !in verb && ' ' !in name
    ensures Upper(verb) == "GET" ==> Parse(verb + " " + name) == Get(name)
    ensures Upper(verb) == "DELETE" ==> Parse(verb + " " + name) == Delete(name)
  {
    SplitAfterWord(verb, name, 1);
    SplitWord(name, 1);
  }

  /** SETPOOL, which the thread server accepts, is an unknown verb here. */
  lemma SetPoolUnknown(arg: string)
    requires ' ' !in arg
    ensures Parse("SETPOOL " + arg) == Invalid("Unknown command: SETPOOL")
  {
    assert "SETPOOL " + arg == "SETPOOL" + " " + arg;
    SplitAfterWord("SETPOOL", arg, 1);
    SplitWord(arg, 1);
  }

  // -----------------------------------------------------------------------
  // Properties of the dispatch

  /** A file uploaded is served back by GET with the same contents; the
      response names no file. */
  lemma UploadThenGet(s: State, name: string, payload: string)
    requires DecodeStrict(payload).Some? && !DenotesDirectory(name)
    ensures var s1 := Step(s, Upload(name, payload));
            var s2 := Step(s1.0, Get(name));
            && s1.1.IsOk() && s2.1.IsOk()
            && s2.0.success == s.success + 2
            && s2.1.fields.Keys == {"data_file"}
            && DecodeStrict(s2.1.fields["data_file"].s) == DecodeStrict(payload)
  {
    StrictRoundTrip(DecodeStrict(payload).value);
  }

  /** DELETE removes exactly the named file and counts as a success. */
  lemma DeleteThenGet(s: State, name: string)
    requires name in s.files && !DenotesDirectory(name)
    ensures var d := Step(s, Delete(name));
            && d.1.IsOk() && d.0.files == s.files - {name} && d.0.success == s.success + 1
            && Step(d.0, Get(name)).1 == ErrorReply("message", name + " not found on server")
  {
  }

  lemma ResetThenStatus(s: State)
    ensures var r := Step(Step(s, Reset).0, Status).1;
            r.fields["server_success"] == Int(0) && r.fields["server_failed"] == Int(0)
  {
  }

  // -----------------------------------------------------------------------
  // The lock calls as written

  /** As written, a valid upload stores the file but is answered with `{}`
      and is not counted; the intended handler answers OK and counts it. */
  lemma UploadAsWritten(s: State, name: string, content: Bytes)
    requires !DenotesDirectory(name)
    ensures StepAsWritten(s, Upload(name, Encode(content)))
         == (s.(files := s.files[name := content]), EmptyDict)
    ensures Step(s, Upload(name, Encode(content)))
         == (s.(files := s.files[name := content], success := s.success + 1),
             OkReply("message", name + " uploaded"))
  {
    StrictRoundTrip(content);
  }

  /** As written, STATUS after any number of requests still reports nothing:
      the counters stay at their starting values and STATUS itself gets `{}`. */
  lemma {:induction false} CountersFrozenAsWritten(s: State, reqs: seq<Request>)
    ensures RunAsWritten(s, reqs).success == s.success
    ensures RunAsWritten(s, reqs).fail == s.fail
    ensures StepAsWritten(RunAsWritten(s, reqs), Status).1 == EmptyDict
    decreases |reqs|
  {
    if reqs != [] {
      CountersFrozenAsWritten(StepAsWritten(s, reqs[0]).0, reqs[1..]);
    }
  }

  /** The state after a sequence of requests, handler as written. */
  function RunAsWritten(s: State, reqs: seq<Request>): State
    decreases |reqs|
  {
    if reqs == [] then s else RunAsWritten(StepAsWritten(s, reqs[0]).0, reqs[1..])
  }

  /** The intended handler: STATUS reports exactly how many of the requests
      since a fresh start succeeded and how many failed. */
  function Run(s: State, reqs: seq<Request>): State
    decreases |reqs|
  {
    if reqs == [] then s else Run(Step(s, reqs[0]).0, reqs[1..])
  }

  /** How many of `reqs`, run from `s`, the intended handler answers with
      ERROR, and how many UPLOAD, GET and DELETE requests it answers with OK. */
  function Outcomes(s: State, reqs: seq<Request>): (counts: (nat, nat))
    decreases |reqs|
  {
    if reqs == [] then (0, 0)
    else
      var r := Step(s, reqs[0]);
      var rest := Outcomes(r.0, reqs[1..]);
      var req := reqs[0];
      (rest.0 + (if r.1.IsError() then 1 else 0),
       rest.1 + (if r.1.IsOk() && (req.Upload? || req.Get? || req.Delete?) then 1 else 0))
  }

  /** Without RESET, the failure counter grows by exactly the number of
      failed requests and the success counter by exactly the number of
      successful UPLOAD, GET and DELETE requests. */
  lemma {:induction false} RequestsCounted(s: State, reqs: seq<Request>)
    requires forall k | 0 <= k < |reqs| :: !reqs[k].Reset?
    ensures Run(s, reqs).fail == s.fail + Outcomes(s, reqs).0
    ensures Run(s, reqs).success == s.success + Outcomes(s, reqs).1
    decreases |reqs|
  {
    if reqs != [] {
      RequestsCounted(Step(s, reqs[0]).0, reqs[1..]);
    }
  }
}
