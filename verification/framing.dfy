/** Request framing: every handler reads chunks from the socket and appends
    them to a buffer until the buffer holds the terminator `\r\n\r\n` or the
    peer closes (`recv` returns an empty chunk). The test runs on the whole
    buffer, so a terminator split across two chunks is still found.

    The peer is modelled by the chunks it delivers: the `i`-th call to
    `recv` returns `chunks[i]`, and every call after the last one returns
    the empty chunk of a closed connection. */
module Framing {
  import opened PyText

  const Terminator := "\r\n\r\n"

  /** The chunks joined in order. */
  function Concat(chunks: seq<string>): string {
    if chunks == [] then "" else Concat(chunks[..|chunks| - 1]) + chunks[|chunks| - 1]
  }

  /** What the receive loop ends with: the buffer, whether it holds the
      terminator, and how many chunks were appended to it. */
  datatype Framed = Framed(data: string, found: bool, consumed: nat)

  /** The receive loop from the `i`-th chunk on, the buffer holding `acc`. */
  function Accumulate(chunks: seq<string>, i: nat, acc: string): (r: Framed)
    requires i <= |chunks| && acc == Concat(chunks[..i]) && !Contains(acc, Terminator)
    ensures i <= r.consumed <= |chunks|
    ensures r.data == Concat(chunks[..r.consumed])
    ensures r.found <==> Contains(r.data, Terminator)
    ensures forall k | i <= k < r.consumed :: chunks[k] != []
    ensures forall k | i <= k < r.consumed :: !Contains(Concat(chunks[..k]), Terminator)
    ensures !r.found ==> r.consumed == |chunks| || chunks[r.consumed] == []
    decreases |chunks| - i
  {
    if i == |chunks| || chunks[i] == [] then Framed(acc, false, i)
    else
      var acc' := acc + chunks[i];
      assert chunks[..i + 1][..i] == chunks[..i];
      if Contains(acc', Terminator) then Framed(acc', true, i + 1)
      else Accumulate(chunks, i + 1, acc')
  }

  /** The outcome of the receive loop on a fresh connection. */
  function Frame(chunks: seq<string>): (r: Framed)
    ensures r.consumed <= |chunks|
    ensures r.data == Concat(chunks[..r.consumed])
    ensures r.found <==> Contains(r.data, Terminator)
    ensures forall k | 0 <= k < r.consumed :: chunks[k] != []
    ensures forall k | 0 <= k < r.consumed :: !Contains(Concat(chunks[..k]), Terminator)
    ensures !r.found ==> r.consumed == |chunks| || chunks[r.consumed] == []
  {
    assert chunks[..0] == [];
    Accumulate(chunks, 0, "")
  }

  /** The receive loop of every handler:
      `while True: chunk = recv(); if not chunk: break; data += chunk;
      if terminator in data: break`. */
  method Receive(chunks: seq<string>) returns (data: string, found: bool)
    ensures data == Frame(chunks).data && found == Frame(chunks).found
  {
    data := "";
    found := false;
    var i := 0;
    assert chunks[..0] == [];
    while true
      invariant i <= |chunks|
      invariant data == Concat(chunks[..i]) && !Contains(data, Terminator)
      invariant Accumulate(chunks, i, data) == Frame(chunks)
      invariant !found
      decreases |chunks| - i
    {
      var chunk := if i < |chunks| then chunks[i] else "";
      if chunk == [] {
        break;
      }
      data := data + chunk;
      assert chunks[..i + 1][..i] == chunks[..i];
      i := i + 1;
      if Contains(data, Terminator) {
        found := true;
        break;
      }
    }
  }

  lemma {:induction false} ConcatSplit(chunks: seq<string>, n: nat)
    requires n <= |chunks|
    ensures Concat(chunks) == Concat(chunks[..n]) + Concat(chunks[n..])
    decreases |chunks| - n
  {
    if n < |chunks| {
      ConcatSplit(chunks, n + 1);
      assert chunks[..n + 1][..n] == chunks[..n];
      assert Concat(chunks[..n + 1]) == Concat(chunks[..n]) + chunks[n];
      var rest := chunks[n..];
      assert rest[1..] == chunks[n + 1..];
      ConcatFirst(rest);
    } else {
      assert chunks[..n] == chunks;
      assert chunks[n..] == [];
    }
  }

  lemma {:induction false} ConcatFirst(chunks: seq<string>)
    requires chunks != []
    ensures Concat(chunks) == chunks[0] + Concat(chunks[1..])
    decreases |chunks|
  {
    if |chunks| > 1 {
      var init := chunks[..|chunks| - 1];
      ConcatFirst(init);
      assert init[1..] == chunks[1..][..|chunks[1..]| - 1];
    } else {
      assert chunks[..0] == [];
      assert chunks[1..] == [];
    }
  }

  /** Non-empty chunks make a text at least as long as their number. */
  lemma {:induction false} ConcatLength(chunks: seq<string>)
    requires forall k | 0 <= k < |chunks| :: chunks[k] != []
    ensures |Concat(chunks)| >= |chunks|
    decreases |chunks|
  {
    if chunks != [] {
      ConcatLength(chunks[..|chunks| - 1]);
    }
  }

  /** A peer that keeps sending until its request is out is always heard to
      the terminator, wherever the chunk boundaries fall, even inside the
      terminator. */
  lemma TerminatorFound(chunks: seq<string>)
    requires forall k | 0 <= k < |chunks| :: chunks[k] != []
    requires Contains(Concat(chunks), Terminator)
    ensures Frame(chunks).found
  {
    assert chunks[..|chunks|] == chunks;
  }

  /** A request `m` sent as `m + "\r\n\r\n"`, in any number of non-empty
      chunks, is read in full and nothing more, provided the terminator
      does not already start inside `m`. */
  lemma FrameRequest(chunks: seq<string>, m: string)
    requires forall k | 0 <= k < |chunks| :: chunks[k] != []
    requires Concat(chunks) == m + Terminator
    requires Find(m + Terminator, Terminator) == |m|
    ensures Frame(chunks) == Framed(m + Terminator, true, |chunks|)
  {
    TerminatorFound(chunks);
    var r := Frame(chunks);
    var tail := chunks[r.consumed..];
    ConcatSplit(chunks, r.consumed);
    FindInPrefix(r.data, Concat(tail), Terminator);
    assert |Concat(tail)| == 0;
    ConcatLength(tail);
  }

  /** A request line without a carriage return cannot hide the start of the
      terminator, so the first terminator is the one appended to it. */
  lemma TerminatorAtEnd(m: string)
    requires forall k | 0 <= k < |m| :: m[k] != '\r'
    ensures Find(m + Terminator, Terminator) == |m|
  {
    var s := m + Terminator;
    assert OccursAt(s, Terminator, |m|);
    forall k | 0 <= k < |m| ensures !OccursAt(s, Terminator, k) {
      assert s[k] == m[k];
    }
  }

  /** What the servers make of that buffer with `strip()`: exactly the
      request line, when it has no whitespace at its ends. */
  lemma StrippedRequest(chunks: seq<string>, m: string)
    requires forall k | 0 <= k < |chunks| :: chunks[k] != []
    requires Concat(chunks) == m + Terminator
    requires Find(m + Terminator, Terminator) == |m|
    requires m != [] && Trimmed(m)
    ensures Strip(Frame(chunks).data) == m
  {
    FrameRequest(chunks, m);
    StripTerminated(m);
  }

  /** The same for a request line without a carriage return. */
  lemma ReceivedLine(chunks: seq<string>, m: string)
    requires forall k | 0 <= k < |chunks| :: chunks[k] != []
    requires Concat(chunks) == m + Terminator
    requires forall k | 0 <= k < |m| :: m[k] != '\r'
    requires m != [] && Trimmed(m)
    ensures Strip(Frame(chunks).data) == m
  {
    TerminatorAtEnd(m);
    StrippedRequest(chunks, m);
  }

  lemma StripTerminated(m: string)
    requires m != [] && Trimmed(m)
    ensures Strip(m + Terminator) == m
  {
    var pre: string := [];
    assert AllSpace(Terminator) by {
      assert forall k | 0 <= k < 4 :: Terminator[k] == '\r' || Terminator[k] == '\n';
    }
    assert pre + m + Terminator == m + Terminator;
    StripPadded(pre, m, Terminator);
  }
}
