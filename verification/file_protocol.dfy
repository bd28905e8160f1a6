/** `file_protocol.py`: `FileProtocol.proses_string`, which turns one request
    text into a call of a `FileInterface` operation.

    The text is split at its first CRLF into a header and a body; the header
    is lower-cased and split into tokens; the first token names the
    operation and the others are its parameters, except for `upload`, which
    takes the first parameter as the file name and the stripped body as the
    payload. Every failure, including a name that is not one of the four
    operations, ends in one fixed reply. */
module Protocol {
  import opened Common
  import opened PyText
  import opened Base64
  import opened Responses
  import opened Interface

  /** `{'status': 'ERROR', 'data': 'request tidak dikenali'}`. */
  const NotRecognised := ErrorReply("data", "request tidak dikenali")

  /** The operation a request calls, once tokenised. */
  datatype Call =
    | ListCall(params: seq<string>)
    | GetCall(params: seq<string>)
    | UploadCall(name: string, payload: string)
    | DeleteCall(params: seq<string>)
    | Unrecognised

  /** What tokenising a lower-cased header guarantees about a call. */
  predicate LowerCaseCall(c: Call) {
    && (c.UploadCall? ==> IsToken(c.name) && IsLowerCase(c.name) && Trimmed(c.payload))
    && ((c.ListCall? || c.GetCall? || c.DeleteCall?) ==>
          forall k | 0 <= k < |c.params| :: IsToken(c.params[k]) && IsLowerCase(c.params[k]))
  }

  /** The tokens of the lower-cased first line of a request. */
  function RequestWords(data: string): seq<string> {
    Tokens(Lower(SplitHeader(data).0))
  }

  /** A request names one of the four operations by its first word; `upload`
      also needs a file name. The other words are the parameters, and the
      body after the first CRLF, stripped, is the payload of an upload. */
  function ParseRequest(data: string): (c: Call)
    ensures LowerCaseCall(c)
    ensures c.Unrecognised? <==>
              || RequestWords(data) == []
              || RequestWords(data)[0] !in {"list", "get", "upload", "delete"}
              || RequestWords(data) == ["upload"]
    ensures c.ListCall? ==> RequestWords(data) == ["list"] + c.params
    ensures c.GetCall? ==> RequestWords(data) == ["get"] + c.params
    ensures c.DeleteCall? ==> RequestWords(data) == ["delete"] + c.params
    ensures c.UploadCall? ==>
              && |RequestWords(data)| >= 2 && RequestWords(data)[..2] == ["upload", c.name]
              && c.payload == Strip(SplitHeader(data).1)
    ensures var w := RequestWords(data); w != [] && w[0] == "list" ==> c == ListCall(w[1..])
    ensures var w := RequestWords(data); w != [] && w[0] == "get" ==> c == GetCall(w[1..])
    ensures var w := RequestWords(data); w != [] && w[0] == "delete" ==> c == DeleteCall(w[1..])
    ensures var w := RequestWords(data);
            |w| >= 2 && w[0] == "upload" ==> c == UploadCall(w[1], Strip(SplitHeader(data).1))
  {
    var (header, body) := SplitHeader(data);
    TokensOfLowerCase(Lower(header));
    CallOf(Tokens(Lower(header)), Strip(body))
  }

  /** The call named by the words of a header, with the stripped body as
      the payload of an upload. */
  function CallOf(parts: seq<string>, payload: string): (c: Call)
    requires forall k | 0 <= k < |parts| :: IsToken(parts[k]) && IsLowerCase(parts[k])
    requires Trimmed(payload)
    ensures LowerCaseCall(c)
    ensures c.Unrecognised? <==>
              parts == [] || parts[0] !in {"list", "get", "upload", "delete"} || parts == ["upload"]
    ensures c.ListCall? ==> parts == ["list"] + c.params
    ensures c.GetCall? ==> parts == ["get"] + c.params
    ensures c.DeleteCall? ==> parts == ["delete"] + c.params
    ensures c.UploadCall? ==> |parts| >= 2 && parts[..2] == ["upload", c.name] && c.payload == payload
    ensures parts != [] && parts[0] == "list" ==> c == ListCall(parts[1..])
    ensures parts != [] && parts[0] == "get" ==> c == GetCall(parts[1..])
    ensures parts != [] && parts[0] == "delete" ==> c == DeleteCall(parts[1..])
    ensures |parts| >= 2 && parts[0] == "upload" ==> c == UploadCall(parts[1], payload)
  {
    if parts == [] then Unrecognised
    else
      var cmd, params := parts[0], parts[1..];
      assert forall k | 0 <= k < |params| :: params[k] == parts[k + 1];
      if cmd == "upload" then
        if params == [] then Unrecognised else UploadCall(params[0], payload)
      else if cmd == "list" then ListCall(params)
      else if cmd == "get" then GetCall(params)
      else if cmd == "delete" then DeleteCall(params)
      else Unrecognised
  }

  /** `proses_string` on the files of the working directory: the reply that
      is serialised and the directory afterwards. */
  function Process(files: map<string, Bytes>, data: string): (r: (Reply, map<string, Bytes>))
    ensures r.0 != EmptyDict
    ensures var w := RequestWords(data);
            w != [] && w[0] == "list" ==> r == (List(files, w[1..]), files)
    ensures var w := RequestWords(data);
            w != [] && w[0] == "get" ==> r == (Get(files, w[1..]), files)
    ensures var w := RequestWords(data);
            w != [] && w[0] == "delete" ==> r == DeleteOutcome(files, w[1..])
    ensures var w := RequestWords(data);
            |w| >= 2 && w[0] == "upload" ==> r == UploadOutcome(files, [w[1], Strip(SplitHeader(data).1)])
    ensures forall n | n in r.1 && n !in files :: IsLowerCase(n)
    ensures WellFormed(files) ==> WellFormed(r.1)
  {
    Dispatch(files, ParseRequest(data))
  }

  /** `getattr(self.file, cmd)(params)` for a tokenised request. */
  function Dispatch(files: map<string, Bytes>, call: Call): (r: (Reply, map<string, Bytes>))
    requires LowerCaseCall(call)
    ensures r.0 != EmptyDict
    ensures call.Unrecognised? ==> r == (NotRecognised, files)
    ensures call.ListCall? ==> r == (List(files, call.params), files)
    ensures call.GetCall? ==> r == (Get(files, call.params), files)
    ensures call.UploadCall? ==> r == UploadOutcome(files, [call.name, call.payload])
    ensures call.DeleteCall? ==> r == DeleteOutcome(files, call.params)
    ensures forall n | n in r.1 && n !in files :: IsLowerCase(n)
    ensures WellFormed(files) ==> WellFormed(r.1)
  {
    match call
    case Unrecognised => (NotRecognised, files)
    case ListCall(params) => (List(files, params), files)
    case GetCall(params) => (Get(files, params), files)
    case UploadCall(name, payload) => UploadOutcome(files, [name, payload])
    case DeleteCall(params) => DeleteOutcome(files, params)
  }

  class FileProtocol {
    /** The interface to the working directory, shared by every protocol
        object as the directory itself is. */
    const file: FileInterface

    constructor (file: FileInterface)
      ensures this.file == file
    {
      this.file := file;
    }

    method ProsesString(data: string) returns (r: Reply)
      requires file.Valid()
      modifies file
      ensures file.Valid()
      ensures (r, file.files) == Process(old(file.files), data)
    {
      var call := ParseRequest(data);
      assert Process(old(file.files), data) == Dispatch(old(file.files), call);
      match call {
        case Unrecognised =>
          r := NotRecognised;
        case ListCall(params) =>
          r := List(file.files, params);
        case GetCall(params) =>
          r := Get(file.files, params);
        case UploadCall(name, payload) =>
          r := file.Upload([name, payload]);
        case DeleteCall(params) =>
          r := file.Delete(params);
      }
    }
  }

  // -----------------------------------------------------------------------
  // Properties

  /** A request with no tokens is not recognised. */
  lemma EmptyRequest(files: map<string, Bytes>)
    ensures Process(files, "") == (NotRecognised, files)
  {
    NotContainsShort("", "\r\n");
    assert Tokens(Lower("")) == [];
  }

  /** `UPLOAD name <base64>` on one line stores an empty file under the
      lower-cased name: the payload is taken from the body, which is empty. */
  lemma SingleLineUpload(files: map<string, Bytes>, verb: string, name: string, rest: string)
    requires IsToken(verb) && Lower(verb) == "upload" && IsToken(name)
    requires QuoteFree(verb) && QuoteFree(name) && QuoteFree(rest)
    requires Lower(name) != "." && Lower(name) != ".."
    requires rest == [] || IsShlexSpace(rest[0])
    requires !Contains(verb + " " + name + rest, "\r\n")
    ensures Process(files, verb + " " + name + rest)
         == (OkReply("data", "File '" + Lower(name) + "' berhasil diupload."), files[Lower(name) := []])
  {
    var data := verb + " " + name + rest;
    var n := Lower(name);
    ParseSingleLineUpload(verb, name, rest);
    assert Process(files, data) == UploadOutcome(files, [n, ""]);
    assert |n| == |name| && !DenotesDirectory(n);
    assert DecodeLenient("") == Ok([]);
  }

  lemma ParseSingleLineUpload(verb: string, name: string, rest: string)
    requires IsToken(verb) && Lower(verb) == "upload" && IsToken(name)
    requires rest == [] || IsShlexSpace(rest[0])
    requires !Contains(verb + " " + name + rest, "\r\n")
    ensures ParseRequest(verb + " " + name + rest) == UploadCall(Lower(name), "")
  {
    var data := verb + " " + name + rest;
    assert SplitHeader(data) == (data, "");
    UploadTokens(verb, name, rest);
    var w := RequestWords(data);
    assert w == [Lower(verb), Lower(name)] + Tokens(Lower(rest));
    assert |w| >= 2 && w[0] == "upload" && w[1] == Lower(name);
    StripEmpty();
  }

  lemma StripEmpty()
    ensures Strip("") == ""
  {
  }

  /** The tokens of `verb name rest`: the verb and the name, lower-cased,
      then whatever `rest` holds. */
  lemma UploadTokens(verb: string, name: string, rest: string)
    requires IsToken(verb) && IsToken(name)
    requires rest == [] || IsShlexSpace(rest[0])
    ensures Tokens(Lower(verb + " " + name + rest)) == [Lower(verb), Lower(name)] + Tokens(Lower(rest))
  {
    LowerSpaced(verb, name, rest);
    LowerToken(verb);
    LowerToken(name);
    LowerSpaceFirst(rest);
    TwoTokens(Lower(verb), Lower(name), Lower(rest));
  }

  lemma LowerSpaced(verb: string, name: string, rest: string)
    ensures Lower(verb + " " + name + rest) == Lower(verb) + (" " + (Lower(name) + Lower(rest)))
  {
    var s := verb + " " + name + rest;
    var t := Lower(verb) + (" " + (Lower(name) + Lower(rest)));
    assert |s| == |t|;
    forall k | 0 <= k < |s| ensures Lower(s)[k] == t[k] {
      if k < |verb| {
        assert s[k] == verb[k];
      } else if k == |verb| {
        assert s[k] == ' ';
      } else if k < |verb| + 1 + |name| {
        assert s[k] == name[k - |verb| - 1];
      } else {
        assert s[k] == rest[k - |verb| - 1 - |name|];
      }
    }
  }

  /** A header of a lower-case verb and a lower-case name tokenises to
      exactly those two words. */
  lemma HeaderTokens(verb: string, name: string)
    requires IsToken(verb) && IsLowerCase(verb) && IsToken(name) && IsLowerCase(name)
    ensures Tokens(Lower(verb + " " + name)) == [verb, name]
  {
    UploadTokens(verb, name, []);
    assert verb + " " + name + [] == verb + " " + name;
    LowerOfLowerCase(verb);
    LowerOfLowerCase(name);
    assert Tokens(Lower([])) == [];
  }

  /** Any other first word, whatever its case and whatever follows it on
      its line and after, is refused with the fixed reply and the directory
      is left as it was. */
  lemma OtherNamesRefused(files: map<string, Bytes>, verb: string, rest: string, body: string)
    requires IsToken(verb) && QuoteFree(verb)
    requires Lower(verb) !in {"list", "get", "upload", "delete"}
    requires rest == [] || IsShlexSpace(rest[0])
    requires forall k | 0 <= k < |rest| :: rest[k] != '\r'
    ensures Process(files, verb + rest) == (NotRecognised, files)
    ensures Process(files, verb + rest + "\r\n" + body) == (NotRecognised, files)
  {
    var line := verb + rest;
    forall k | 0 <= k < |line| ensures line[k] != '\r' {
      if k < |verb| {
        assert line[k] == verb[k];
      } else {
        assert line[k] == rest[k - |verb|];
      }
    }
    NoCarriageReturn(line);
    assert SplitHeader(line) == (line, "");
    SplitHeaderAt(line, body);
    FirstWord(verb, rest);
  }

  /** The first word of a line, lower-cased, is its first token. */
  lemma FirstWord(verb: string, rest: string)
    requires IsToken(verb)
    requires rest == [] || IsShlexSpace(rest[0])
    ensures Tokens(Lower(verb + rest)) == [Lower(verb)] + Tokens(Lower(rest))
  {
    LowerConcat(verb, rest);
    LowerToken(verb);
    LowerSpaceFirst(rest);
    TokensAfterWord(Lower(verb), Lower(rest));
  }

  /** `UPLOAD name` with the base64 payload on the next line stores the
      decoded bytes, and `GET name` then serves them back. */
  lemma TwoLineUploadThenGet(files: map<string, Bytes>, name: string, content: Bytes, up: string, get: string)
    requires IsToken(name) && QuoteFree(name) && IsLowerCase(name) && name != "." && name != ".."
    requires up == "upload " + name + "\r\n" + Encode(content) && get == "get " + name
    ensures Process(files, up) == (OkReply("data", "File '" + name + "' berhasil diupload."), files[name := content])
    ensures Process(files[name := content], get) == (Get(files[name := content], [name]), files[name := content])
    ensures var g := Get(files[name := content], [name]);
            g.IsOk() && DecodeLenient(g.fields["data_file"].s) == Ok(content)
  {
    TwoLineUpload(files, name, content);
    GetRequest(files[name := content], name);
  }

  lemma TwoLineUpload(files: map<string, Bytes>, name: string, content: Bytes)
    requires IsToken(name) && QuoteFree(name) && IsLowerCase(name) && name != "." && name != ".."
    ensures Process(files, "upload " + name + "\r\n" + Encode(content))
         == (OkReply("data", "File '" + name + "' berhasil diupload."), files[name := content])
  {
    ParseTwoLineUpload(name, content);
    UploadEncoded(files, name, content);
  }

  lemma ParseTwoLineUpload(name: string, content: Bytes)
    requires IsToken(name) && IsLowerCase(name)
    ensures ParseRequest("upload " + name + "\r\n" + Encode(content)) == UploadCall(name, Encode(content))
  {
    var h := "upload " + name;
    var e := Encode(content);
    forall k | 0 <= k < |h| ensures h[k] != '\r' {
      if k >= 7 {
        assert h[k] == name[k - 7];
      }
    }
    SplitHeaderAt(h, e);
    assert h == "upload" + " " + name;
    HeaderTokens("upload", name);
    var parts := Tokens(Lower(h));
    assert parts == ["upload", name];
    assert parts[1..] == [name];
    StripEncoded(content);
  }

  lemma GetRequest(files: map<string, Bytes>, name: string)
    requires IsToken(name) && QuoteFree(name) && IsLowerCase(name)
    ensures Process(files, "get " + name) == (Get(files, [name]), files)
  {
    ParseGet(name);
  }

  lemma ParseGet(name: string)
    requires IsToken(name) && IsLowerCase(name)
    ensures ParseRequest("get " + name) == GetCall([name])
  {
    var data := "get " + name;
    assert data == "get" + " " + name;
    NamedHeader("get", name);
    assert RequestWords(data) == ["get", name];
    GetWords(data, name);
  }

  lemma ParseDelete(name: string)
    requires IsToken(name) && IsLowerCase(name)
    ensures ParseRequest("delete " + name) == DeleteCall([name])
  {
    var data := "delete " + name;
    assert data == "delete" + " " + name;
    NamedHeader("delete", name);
    assert RequestWords(data) == ["delete", name];
    DeleteWords(data, name);
  }

  /** Words `get name` make a GET of that name. */
  lemma GetWords(data: string, name: string)
    requires RequestWords(data) == ["get", name]
    ensures ParseRequest(data) == GetCall([name])
  {
    assert RequestWords(data)[1..] == [name];
  }

  /** Words `delete name` make a DELETE of that name. */
  lemma DeleteWords(data: string, name: string)
    requires RequestWords(data) == ["delete", name]
    ensures ParseRequest(data) == DeleteCall([name])
  {
    assert RequestWords(data)[1..] == [name];
  }

  /** A one-line request of a verb and a name, both in lower case, is
      those two words. */
  lemma NamedHeader(verb: string, name: string)
    requires IsToken(verb) && IsLowerCase(verb) && IsToken(name) && IsLowerCase(name)
    ensures SplitHeader(verb + " " + name) == (verb + " " + name, "")
    ensures Tokens(Lower(verb + " " + name)) == [verb, name]
  {
    var data := verb + " " + name;
    forall k | 0 <= k < |data| ensures data[k] != '\r' {
      if k < |verb| {
        assert data[k] == verb[k];
      } else if k > |verb| {
        assert data[k] == name[k - |verb| - 1];
      }
    }
    NoCarriageReturn(data);
    HeaderTokens(verb, name);
  }

  /** `delete name` removes the file as the interface's `delete` does. */
  lemma DeleteRequest(files: map<string, Bytes>, name: string)
    requires IsToken(name) && QuoteFree(name) && IsLowerCase(name)
    ensures Process(files, "delete " + name) == DeleteOutcome(files, [name])
  {
    ParseDelete(name);
  }

  /** `list` answers the interface's listing of the directory. */
  lemma ListRequest(files: map<string, Bytes>)
    ensures Process(files, "list") == (List(files, []), files)
  {
    NoCarriageReturn("list");
    assert SplitHeader("list") == ("list", "");
    assert Lower("list") == "list";
    TokensOfToken("list");
    assert ParseRequest("list") == ListCall([]);
  }

  lemma LowerOfLowerCase(s: string)
    requires IsLowerCase(s)
    ensures Lower(s) == s
  {
  }

  /** Encoded text has nothing for `strip()` to remove. */
  lemma StripEncoded(content: Bytes)
    ensures Strip(Encode(content)) == Encode(content)
  {
    var e := Encode(content);
    EncodePrintable(content);
    if e != [] {
      var none: string := [];
      assert none + e + none == e;
      StripPadded(none, e, none);
    }
  }
}
