/** `file_server_pp.py`: `HandleClientProcess.__call__`, the per-connection
    job that the process-pool server hands to a worker for every accepted
    client. It runs the same receive-and-answer loop as the thread-pool
    handler, so it is specified by the same `Exchange`. */
module ProcessPoolHandler {
  import opened Common
  import opened PyText
  import opened Responses
  import opened Framing
  import opened Interface
  import opened Protocol
  import opened ThreadPoolHandler

  class HandleClientProcess {
    const protocol: FileProtocol

    constructor (store: FileInterface)
      ensures protocol.file == store
    {
      protocol := new FileProtocol(store);
    }

    /** `__call__((connection, address))`: `sent` is the reply written to the
        connection before it is closed. */
    method Call(chunks: seq<string>) returns (sent: Option<Reply>, result: bool)
      requires protocol.file.Valid()
      modifies protocol.file
      ensures protocol.file.Valid()
      ensures result
      ensures (sent, protocol.file.files) == Exchange(old(protocol.file.files), chunks)
    {
      var buffer := "";
      sent := None;
      var i := 0;
      assert chunks[..0] == [];
      while true
        invariant i <= |chunks|
        invariant buffer == Concat(chunks[..i]) && !Contains(buffer, Terminator)
        invariant Accumulate(chunks, i, buffer) == Frame(chunks)
        invariant protocol.file.Valid() && protocol.file.files == old(protocol.file.files)
        invariant sent == None
        decreases |chunks| - i
      {
        var chunk := if i < |chunks| then chunks[i] else "";
        if chunk == [] {
          break;
        }
        buffer := buffer + chunk;
        assert chunks[..i + 1][..i] == chunks[..i];
        i := i + 1;
        if Contains(buffer, Terminator) {
          var response := protocol.ProsesString(Strip(buffer));
          sent := Some(response);
          break;
        }
      }
      result := true;
    }
  }
}
