/** `file_server_tp.py`: `ClientHandler.run`, the per-connection job that the
    thread-pool server submits for every accepted client.

    The handler reads chunks into a buffer; the first time the buffer holds
    the terminator it answers with `proses_string(buffer.strip())` and stops
    reading. A peer that closes before any terminator gets no answer. The
    connection is closed on both paths and `run` returns `True`. */
module ThreadPoolHandler {
  import opened Common
  import opened PyText
  import opened Responses
  import opened Framing
  import opened Interface
  import opened Protocol

  /** One connection on a working directory holding `files`: the reply that
      was sent, if any, and the directory afterwards. */
  function Exchange(files: map<string, Bytes>, chunks: seq<string>): (r: (Option<Reply>, map<string, Bytes>))
    ensures r.0.None? <==> !Frame(chunks).found
    ensures r.0.None? ==> r.1 == files
    ensures r.0.Some? ==> r.0.value != EmptyDict
    ensures WellFormed(files) ==> WellFormed(r.1)
  {
    var f := Frame(chunks);
    if f.found then
      var (reply, files') := Process(files, Strip(f.data));
      (Some(reply), files')
    else (None, files)
  }

  class ClientHandler {
    const protocol: FileProtocol

    /** A handler with its own protocol object over the shared directory. */
    constructor (store: FileInterface)
      ensures protocol.file == store
    {
      protocol := new FileProtocol(store);
    }

    /** `run`: `sent` is the reply written to the socket before it is closed. */
    method Run(chunks: seq<string>) returns (sent: Option<Reply>, result: bool)
      requires protocol.file.Valid()
      modifies protocol.file
      ensures protocol.file.Valid()
      ensures result
      ensures (sent, protocol.file.files) == Exchange(old(protocol.file.files), chunks)
    {
      var buffer := "";
      sent := None;
      var i := 0;
      assert chunks[..0] == [];
      while true
        invariant i <= |chunks|
        invariant buffer == Concat(chunks[..i]) && !Contains(buffer, Terminator)
        invariant Accumulate(chunks, i, buffer) == Frame(chunks)
        invariant protocol.file.Valid() && protocol.file.files == old(protocol.file.files)
        invariant sent == None
        decreases |chunks| - i
      {
        var chunk := if i < |chunks| then chunks[i] else "";
        if chunk == [] {
          break;
        }
        buffer := buffer + chunk;
        assert chunks[..i + 1][..i] == chunks[..i];
        i := i + 1;
        if Contains(buffer, Terminator) {
          var response := protocol.ProsesString(Strip(buffer));
          sent := Some(response);
          break;
        }
      }
      result := true;
    }
  }

  // -----------------------------------------------------------------------
  // Properties

  /** A peer that closes without ever sending the terminator gets no reply,
      and the directory is left as it was. */
  lemma NoTerminatorNoReply(files: map<string, Bytes>, chunks: seq<string>)
    requires !Contains(Concat(chunks), Terminator)
    ensures Exchange(files, chunks) == (None, files)
  {
    var f := Frame(chunks);
    if f.found {
      ConcatSplit(chunks, f.consumed);
      ContainsExtend(f.data, Concat(chunks[f.consumed..]), Terminator);
      assert false;
    }
  }

  /** Whatever follows the terminator in the chunk that completes it is part
      of the request: only outer whitespace is stripped from it. */
  lemma TrailingBytesKept(files: map<string, Bytes>, chunks: seq<string>)
    requires chunks != [] && Contains(chunks[0], Terminator)
    ensures var (reply, files') := Process(files, Strip(chunks[0]));
            Exchange(files, chunks) == (Some(reply), files')
  {
    assert [] + chunks[0] == chunks[0];
    assert chunks[..1] == [chunks[0]];
  }

  /** A request line sent with the terminator after it, in any number of
      non-empty chunks, is answered once, as `proses_string` answers that
      line. */
  lemma RequestAnswered(files: map<string, Bytes>, chunks: seq<string>, m: string)
    requires forall k | 0 <= k < |chunks| :: chunks[k] != []
    requires Concat(chunks) == m + Terminator
    requires forall k | 0 <= k < |m| :: m[k] != '\r'
    requires m != [] && Trimmed(m)
    ensures var (reply, files') := Process(files, m);
            Exchange(files, chunks) == (Some(reply), files')
  {
    TerminatorAtEnd(m);
    FrameRequest(chunks, m);
    StripTerminated(m);
  }
}
