/** Base64 with the standard alphabet and `=` padding (section 4 of RFC 4648),
    as Python's `base64` module provides it to the servers:

    - `Encode` is `b64encode`;
    - `A2b` is CPython's `binascii.a2b_base64` in its default, non-strict
      mode: a character-by-character state machine that skips characters
      outside the alphabet and stops at the pad that completes a quantum;
    - `DecodeStrict` is `b64decode(s, validate=True)`, which since Python
      3.11 is `a2b_base64` in strict mode: the same state machine, except
      that any character outside the alphabet, a pad where no quantum has
      begun, data after a pad, and anything after the pad that completes
      a quantum are errors;
    - `DecodeLenient` is `b64decode(s)` on a `str`: the text must be ASCII and
      is then given to `A2b`. */
module Base64 {
  import opened Common
  import opened PyText

  // ---------------------------------------------------------------------
  // The alphabet

  function SextetChar(v: nat): char
    requires v < 64
  {
    if v < 26 then ('A' as int + v) as char
    else if v < 52 then ('a' as int + (v - 26)) as char
    else if v < 62 then ('0' as int + (v - 52)) as char
    else if v == 62 then '+'
    else '/'
  }

  /** The value of an alphabet character; 64 marks every other character,
      as CPython's decoding table does. */
  function SextetValue(c: char): (v: nat)
    ensures v <= 64
  {
    if 'A' <= c <= 'Z' then c as int - 'A' as int
    else if 'a' <= c <= 'z' then c as int - 'a' as int + 26
    else if '0' <= c <= '9' then c as int - '0' as int + 52
    else if c == '+' then 62
    else if c == '/' then 63
    else 64
  }

  predicate InAlphabet(c: char) {
    SextetValue(c) < 64
  }

  predicate AllAlphabet(s: string) {
    forall k | 0 <= k < |s| :: InAlphabet(s[k])
  }

  lemma SextetRoundTrip(v: nat)
    requires v < 64
    ensures SextetValue(SextetChar(v)) == v
  {
  }

  // ---------------------------------------------------------------------
  // Encoding

  /** Text made only of characters between `+` and `z`, which covers the
      alphabet and `=`: no whitespace, no line break, no space. */
  predicate Printable(s: string) {
    forall k | 0 <= k < |s| :: '+' <= s[k] <= 'z'
  }

  /** The alphabet characters of the encoding: four per full three-byte
      group, two or three for a final partial group. */
  function Sextets(b: Bytes): (r: string)
    ensures |r| == (4 * |b| + 2) / 3
    ensures AllAlphabet(r)
    decreases |b|
  {
    if |b| == 0 then ""
    else if |b| == 1 then
      [SextetChar(b[0] / 4), SextetChar(b[0] % 4 * 16)]
    else if |b| == 2 then
      [SextetChar(b[0] / 4), SextetChar(b[0] % 4 * 16 + b[1] / 16), SextetChar(b[1] % 16 * 4)]
    else
      Quantum(b[0], b[1], b[2]) + Sextets(b[3..])
  }

  function Quantum(b0: byte, b1: byte, b2: byte): (r: string)
    ensures |r| == 4 && AllAlphabet(r)
  {
    [SextetChar(b0 / 4), SextetChar(b0 % 4 * 16 + b1 / 16),
     SextetChar(b1 % 16 * 4 + b2 / 64), SextetChar(b2 % 64)]
  }

  /** `n` pad characters. */
  function Pads(n: nat): (r: string)
    ensures |r| == n && forall k | 0 <= k < n :: r[k] == '='
  {
    seq(n, _ => '=')
  }

  /** Pad characters completing the last quantum of `n` bytes. */
  function PadCount(n: nat): nat {
    if n % 3 == 1 then 2 else if n % 3 == 2 then 1 else 0
  }

  /** `base64.b64encode(b).decode()`. */
  function Encode(b: Bytes): (r: string)
    ensures |r| == 4 * ((|b| + 2) / 3)
  {
    EncodedLength(|b|);
    Sextets(b) + Pads(PadCount(|b|))
  }

  /** The characters and the pads of `n` bytes fill whole quanta. */
  lemma EncodedLength(n: nat)
    ensures (4 * n + 2) / 3 + PadCount(n) == 4 * ((n + 2) / 3)
  {
    var q, m := n / 3, n % 3;
    assert n == 3 * q + m;
    if m == 0 {
      DivThree(4 * q, 2);
      DivThree(q, 2);
    } else if m == 1 {
      DivThree(4 * q + 2, 0);
      DivThree(q + 1, 0);
    } else {
      DivThree(4 * q + 3, 1);
      DivThree(q + 1, 1);
    }
  }

  lemma DivThree(a: nat, b: nat)
    requires b < 3
    ensures (3 * a + b) / 3 == a
  {
  }

  // ---------------------------------------------------------------------
  // Decoding: binascii.a2b_base64, non-strict mode

  /** The decoder's state: position in the current quantum, the bits of the
      previous character not yet emitted, and the pads seen since the last
      alphabet character. */
  datatype Decoder = Decoder(quad: nat, left: nat, pads: nat)

  ghost predicate ValidDecoder(st: Decoder) {
    && st.quad < 4
    && (st.quad == 1 ==> st.left < 64)
    && (st.quad == 2 ==> st.left < 16)
    && (st.quad == 3 ==> st.left < 4)
  }

  const Start := Decoder(0, 0, 0)

  /** The text CPython raises when the input ends in the middle of a
      quantum that holds one character. */
  function LoneCharacterError(produced: nat): string {
    "Invalid base64-encoded string: number of data characters ("
    + NatToString(produced / 3 * 4 + 1)
    + ") cannot be 1 more than a multiple of 4"
  }

  /** Bytes already emitted for the quantum the decoder is in. */
  function Emitted(quad: nat): nat {
    if quad <= 1 then 0 else quad - 1
  }

  /** Feeds `s` to the decoder in state `st`, having produced `acc`. The
      output only grows. */
  function Run(s: string, st: Decoder, acc: Bytes): (r: Result<Bytes>)
    requires ValidDecoder(st)
    ensures r.Ok? ==> acc <= r.value
    decreases |s|
  {
    if s == [] then
      if st.quad == 0 then Ok(acc)
      else if st.quad == 1 then Err(LoneCharacterError(|acc|))
      else Err("Incorrect padding")
    else if s[0] == '=' then
      if st.quad >= 2 && st.quad + st.pads + 1 >= 4 then Ok(acc)
      else Run(s[1..], if st.quad >= 2 then st.(pads := st.pads + 1) else st, acc)
    else
      var v := SextetValue(s[0]);
      if v == 64 then Run(s[1..], st, acc)
      else if st.quad == 0 then Run(s[1..], Decoder(1, v, 0), acc)
      else if st.quad == 1 then Run(s[1..], Decoder(2, v % 16, 0), acc + [st.left * 4 + v / 16])
      else if st.quad == 2 then Run(s[1..], Decoder(3, v % 4, 0), acc + [st.left * 16 + v / 4])
      else Run(s[1..], Decoder(0, 0, 0), acc + [st.left * 64 + v])
  }

  /** `binascii.a2b_base64(s)`: at most three bytes for every four
      characters. */
  function A2b(s: string): (r: Result<Bytes>)
    ensures r.Ok? ==> 4 * |r.value| <= 3 * |s|
  {
    RunBound(s, Start, []);
    Run(s, Start, [])
  }

  /** The decoder adds at most three bytes for every four characters of a
      quantum, counting those of the quantum it is in. */
  lemma {:induction false} RunBound(s: string, st: Decoder, acc: Bytes)
    requires ValidDecoder(st)
    ensures var r := Run(s, st, acc);
            r.Ok? ==> 4 * (|r.value| - |acc|) <= 3 * (|s| + st.quad) - 4 * Emitted(st.quad)
    decreases |s|
  {
    if s != [] {
      if s[0] == '=' {
        if !(st.quad >= 2 && st.quad + st.pads + 1 >= 4) {
          RunBound(s[1..], if st.quad >= 2 then st.(pads := st.pads + 1) else st, acc);
        }
      } else {
        var v := SextetValue(s[0]);
        if v == 64 {
          RunBound(s[1..], st, acc);
        } else if st.quad == 0 {
          RunBound(s[1..], Decoder(1, v, 0), acc);
        } else if st.quad == 1 {
          RunBound(s[1..], Decoder(2, v % 16, 0), acc + [st.left * 4 + v / 16]);
        } else if st.quad == 2 {
          RunBound(s[1..], Decoder(3, v % 4, 0), acc + [st.left * 16 + v / 4]);
        } else {
          RunBound(s[1..], Decoder(0, 0, 0), acc + [st.left * 64 + v]);
        }
      }
    }
  }

  /** The strict decoder from state `st`, `padding` telling whether a pad
      has been seen. It fails wherever the non-strict decoder would skip a
      character or stop early; where it succeeds, both give the same bytes,
      and the text read so far and `s` fill whole quanta. */
  function RunStrict(s: string, st: Decoder, acc: Bytes, padding: bool): (r: Option<Bytes>)
    requires ValidDecoder(st) && st.quad + st.pads < 4
    requires !padding ==> st.pads == 0
    requires padding ==> st.quad >= 1
    ensures r.Some? ==> Run(s, st, acc) == Ok(r.value)
    decreases |s|
  {
    if s == [] then
      if st.quad == 0 then Some(acc) else None
    else if s[0] == '=' then
      if st.quad == 0 then None
      else if st.quad >= 2 && st.quad + st.pads + 1 >= 4 then
        if |s| > 1 then None else Some(acc)
      else RunStrict(s[1..], if st.quad >= 2 then st.(pads := st.pads + 1) else st, acc, true)
    else
      var v := SextetValue(s[0]);
      if v == 64 || padding then None
      else if st.quad == 0 then RunStrict(s[1..], Decoder(1, v, 0), acc, false)
      else if st.quad == 1 then RunStrict(s[1..], Decoder(2, v % 16, 0), acc + [st.left * 4 + v / 16], false)
      else if st.quad == 2 then RunStrict(s[1..], Decoder(3, v % 4, 0), acc + [st.left * 16 + v / 4], false)
      else RunStrict(s[1..], Decoder(0, 0, 0), acc + [st.left * 64 + v], false)
  }

  /** A successful strict run has read only alphabet characters and pads. */
  lemma {:induction false} StrictAlphabet(s: string, st: Decoder, acc: Bytes, padding: bool)
    requires ValidDecoder(st) && st.quad + st.pads < 4
    requires !padding ==> st.pads == 0
    requires padding ==> st.quad >= 1
    requires RunStrict(s, st, acc, padding).Some?
    ensures forall k | 0 <= k < |s| :: InAlphabet(s[k]) || s[k] == '='
    decreases |s|
  {
    if s != [] {
      var rest := s[1..];
      if s[0] == '=' {
        if !(st.quad >= 2 && st.quad + st.pads + 1 >= 4) {
          StrictAlphabet(rest, if st.quad >= 2 then st.(pads := st.pads + 1) else st, acc, true);
        }
      } else {
        var next, out := StrictDataStep(s, st, acc, padding);
        StrictAlphabet(rest, next, out, false);
      }
      assert forall k | 1 <= k < |s| :: s[k] == rest[k - 1];
    }
  }

  /** A successful strict run completes the quantum it began in. */
  lemma {:induction false} StrictQuanta(s: string, st: Decoder, acc: Bytes, padding: bool)
    requires ValidDecoder(st) && st.quad + st.pads < 4
    requires !padding ==> st.pads == 0
    requires padding ==> st.quad >= 1
    requires RunStrict(s, st, acc, padding).Some?
    ensures (st.quad + st.pads + |s|) % 4 == 0
    decreases |s|, 1
  {
    if s != [] {
      if s[0] == '=' {
        StrictPadQuanta(s, st, acc, padding);
      } else {
        var next, out := StrictDataStep(s, st, acc, padding);
        StrictQuanta(s[1..], next, out, false);
        assert st.quad + st.pads + |s| == next.quad + |s[1..]| + if st.quad == 3 then 4 else 0;
      }
    }
  }

  /** The same when the text starts with a pad. */
  lemma {:induction false} StrictPadQuanta(s: string, st: Decoder, acc: Bytes, padding: bool)
    requires ValidDecoder(st) && st.quad + st.pads < 4
    requires !padding ==> st.pads == 0
    requires padding ==> st.quad >= 1
    requires s != [] && s[0] == '=' && RunStrict(s, st, acc, padding).Some?
    ensures (st.quad + st.pads + |s|) % 4 == 0
    decreases |s|, 0
  {
    var rest := s[1..];
    if st.quad >= 2 && st.quad + st.pads + 1 >= 4 {
      assert |s| == 1;
    } else if st.quad >= 2 {
      StrictQuanta(rest, st.(pads := st.pads + 1), acc, true);
    } else {
      // A pad after one character leaves the state as it was, so the
      // run cannot succeed: the rest and the rest after one more pad
      // would both have to fill whole quanta.
      StrictQuanta(rest, st, acc, true);
      assert rest[0] == '=';
      StrictQuanta(rest[1..], st, acc, true);
      assert false;
    }
  }

  /** In strict mode an alphabet character is read only before any pad,
      and it moves the quantum on by one. */
  lemma StrictDataStep(s: string, st: Decoder, acc: Bytes, padding: bool) returns (next: Decoder, out: Bytes)
    requires ValidDecoder(st) && st.quad + st.pads < 4
    requires !padding ==> st.pads == 0
    requires padding ==> st.quad >= 1
    requires s != [] && s[0] != '=' && RunStrict(s, st, acc, padding).Some?
    ensures InAlphabet(s[0]) && !padding
    ensures ValidDecoder(next) && next.pads == 0 && next.quad == if st.quad == 3 then 0 else st.quad + 1
    ensures RunStrict(s[1..], next, out, false) == RunStrict(s, st, acc, padding)
  {
    var v := SextetValue(s[0]);
    if st.quad == 0 {
      next, out := Decoder(1, v, 0), acc;
    } else if st.quad == 1 {
      next, out := Decoder(2, v % 16, 0), acc + [st.left * 4 + v / 16];
    } else if st.quad == 2 {
      next, out := Decoder(3, v % 4, 0), acc + [st.left * 16 + v / 4];
    } else {
      next, out := Decoder(0, 0, 0), acc + [st.left * 64 + v];
    }
  }

  /** `base64.b64decode(s, validate=True)`; `None` where it raises. What it
      accepts is alphabet characters and pads filling whole quanta, and it
      decodes that to the same bytes as the non-strict decoder. */
  function DecodeStrict(s: string): (r: Option<Bytes>)
    ensures r.Some? ==> A2b(s) == Ok(r.value)
    ensures r.Some? ==> |s| % 4 == 0
    ensures r.Some? ==> forall k | 0 <= k < |s| :: InAlphabet(s[k]) || s[k] == '='
  {
    var r := RunStrict(s, Start, [], false);
    if r.Some? then StrictAlphabet(s, Start, [], false); StrictQuanta(s, Start, [], false); r else r
  }

  /** `base64.b64decode(s)` on a `str`: text with a character beyond ASCII
      is refused outright; otherwise it is `a2b_base64`. */
  function DecodeLenient(s: string): (r: Result<Bytes>)
    ensures (exists k | 0 <= k < |s| :: s[k] as int >= 128) ==>
              r == Err("string argument should contain only ASCII characters")
    ensures r.Ok? ==> 4 * |r.value| <= 3 * |s|
  {
    if exists k | 0 <= k < |s| :: s[k] as int >= 128 then
      Err("string argument should contain only ASCII characters")
    else A2b(s)
  }

  // ---------------------------------------------------------------------
  // Round trips

  lemma DecodeQuantum(b0: byte, b1: byte, b2: byte)
    ensures var q := Quantum(b0, b1, b2);
            var v0, v1, v2, v3 := SextetValue(q[0]), SextetValue(q[1]), SextetValue(q[2]), SextetValue(q[3]);
            && v0 * 4 + v1 / 16 == b0
            && (v1 % 16) * 16 + v2 / 4 == b1
            && (v2 % 4) * 64 + v3 == b2
  {
    SextetRoundTrip(b0 / 4);
    SextetRoundTrip(b0 % 4 * 16 + b1 / 16);
    SextetRoundTrip(b1 % 16 * 4 + b2 / 64);
    SextetRoundTrip(b2 % 64);
  }

  /** One full quantum decodes to its three bytes and leaves the decoder at
      the start of the next quantum. */
  lemma RunQuantum(b0: byte, b1: byte, b2: byte, rest: string, acc: Bytes)
    ensures Run(Quantum(b0, b1, b2) + rest, Start, acc) == Run(rest, Start, acc + [b0, b1, b2])
  {
    DecodeQuantum(b0, b1, b2);
    RunFour(Quantum(b0, b1, b2), rest, acc);
  }

  /** Four alphabet characters make three bytes. */
  lemma RunFour(q: string, rest: string, acc: Bytes)
    requires |q| == 4 && AllAlphabet(q)
    ensures var v0, v1, v2, v3 := SextetValue(q[0]), SextetValue(q[1]), SextetValue(q[2]), SextetValue(q[3]);
            Run(q + rest, Start, acc) == Run(rest, Start, acc + [v0 * 4 + v1 / 16, (v1 % 16) * 16 + v2 / 4, (v2 % 4) * 64 + v3])
  {
    var v0, v1, v2, v3 := SextetValue(q[0]), SextetValue(q[1]), SextetValue(q[2]), SextetValue(q[3]);
    assert InAlphabet(q[0]) && InAlphabet(q[1]) && InAlphabet(q[2]) && InAlphabet(q[3]);
    var c0, c1, c2 := v0 * 4 + v1 / 16, (v1 % 16) * 16 + v2 / 4, (v2 % 4) * 64 + v3;
    var s3 := [q[3]] + rest;
    var s2 := [q[2]] + s3;
    var s1 := [q[1]] + s2;
    ConsFour(q, rest);
    RunChar(q[0], s1, Start, acc);
    RunChar(q[1], s2, Decoder(1, v0, 0), acc);
    RunChar(q[2], s3, Decoder(2, v1 % 16, 0), acc + [c0]);
    RunChar(q[3], rest, Decoder(3, v2 % 4, 0), acc + [c0] + [c1]);
    assert acc + [c0] + [c1] + [c2] == acc + [c0, c1, c2];
  }

  /** What the decoder does with one alphabet character. */
  lemma RunChar(c: char, rest: string, st: Decoder, acc: Bytes)
    requires ValidDecoder(st) && InAlphabet(c)
    ensures var v := SextetValue(c);
            Run([c] + rest, st, acc) ==
              if st.quad == 0 then Run(rest, Decoder(1, v, 0), acc)
              else if st.quad == 1 then Run(rest, Decoder(2, v % 16, 0), acc + [st.left * 4 + v / 16])
              else if st.quad == 2 then Run(rest, Decoder(3, v % 4, 0), acc + [st.left * 16 + v / 4])
              else Run(rest, Decoder(0, 0, 0), acc + [st.left * 64 + v])
  {
    assert SextetValue('=') == 64;
    assert ([c] + rest)[1..] == rest;
  }

  lemma ConsFour<T>(q: seq<T>, rest: seq<T>)
    requires |q| == 4
    ensures q + rest == [q[0]] + ([q[1]] + ([q[2]] + ([q[3]] + rest)))
  {
    assert q == [q[0], q[1], q[2], q[3]];
  }

  /** A final group of one byte, `XY==`, decodes to that byte. */
  lemma RunTailOne(b0: byte, acc: Bytes)
    ensures Run(Sextets([b0]) + Pads(2), Start, acc) == Ok(acc + [b0])
  {
    var v0, v1 := b0 / 4, b0 % 4 * 16;
    SextetRoundTrip(v0);
    SextetRoundTrip(v1);
    var s := Sextets([b0]) + Pads(2);
    assert s == [SextetChar(v0), SextetChar(v1), '=', '='];
    assert s[1..][1..][1..] == ['='];
    calc {
      Run(s, Start, acc);
      Run(s[1..], Decoder(1, v0, 0), acc);
      Run(s[1..][1..], Decoder(2, v1 % 16, 0), acc + [b0]);
      Run(s[1..][1..][1..], Decoder(2, v1 % 16, 1), acc + [b0]);
      Ok(acc + [b0]);
    }
  }

  /** A final group of two bytes, `XYZ=`, decodes to those bytes. */
  lemma RunTailTwo(b0: byte, b1: byte, acc: Bytes)
    ensures Run(Sextets([b0, b1]) + Pads(1), Start, acc) == Ok(acc + [b0, b1])
  {
    var v0, v1, v2 := b0 / 4, b0 % 4 * 16 + b1 / 16, b1 % 16 * 4;
    SextetRoundTrip(v0);
    SextetRoundTrip(v1);
    SextetRoundTrip(v2);
    var c0, c1, c2 := SextetChar(v0), SextetChar(v1), SextetChar(v2);
    assert Sextets([b0, b1]) + Pads(1) == [c0] + ([c1] + ([c2] + ['=']));
    assert v0 * 4 + v1 / 16 == b0;
    assert (v1 % 16) * 16 + v2 / 4 == b1;
    RunChar(c0, [c1] + ([c2] + ['=']), Start, acc);
    RunChar(c1, [c2] + ['='], Decoder(1, v0, 0), acc);
    RunChar(c2, ['='], Decoder(2, v1 % 16, 0), acc + [b0]);
    assert acc + [b0] + [b1] == acc + [b0, b1];
  }

  /** The final partial group and its padding decode to the bytes encoded. */
  lemma RunTail(b: Bytes, acc: Bytes)
    requires |b| < 3
    ensures Run(Encode(b), Start, acc) == Ok(acc + b)
  {
    if |b| == 0 {
      assert Encode(b) == [];
      assert acc + b == acc;
    } else if |b| == 1 {
      assert b == [b[0]];
      RunTailOne(b[0], acc);
    } else {
      assert b == [b[0], b[1]];
      RunTailTwo(b[0], b[1], acc);
    }
  }

  /** Encoding at least three bytes begins with their quantum. */
  lemma EncodeFirstQuantum(b: Bytes)
    requires |b| >= 3
    ensures Encode(b) == Quantum(b[0], b[1], b[2]) + Encode(b[3..])
  {
    assert PadCount(|b|) == PadCount(|b[3..]|);
    assert Sextets(b) == Quantum(b[0], b[1], b[2]) + Sextets(b[3..]);
  }

  lemma {:induction false} RunEncoded(b: Bytes, acc: Bytes)
    ensures Run(Encode(b), Start, acc) == Ok(acc + b)
    decreases |b|
  {
    if |b| < 3 {
      RunTail(b, acc);
    } else {
      var rest := b[3..];
      EncodeFirstQuantum(b);
      RunQuantum(b[0], b[1], b[2], Encode(rest), acc);
      RunEncoded(rest, acc + [b[0], b[1], b[2]]);
      AppendFirstThree(acc, b);
    }
  }

  lemma AppendFirstThree(acc: Bytes, b: Bytes)
    requires |b| >= 3
    ensures acc + [b[0], b[1], b[2]] + b[3..] == acc + b
  {
    assert b == [b[0], b[1], b[2]] + b[3..];
  }

  /** Everything `b64encode` produces is printable: alphabet characters
      and pads. */
  lemma EncodePrintable(b: Bytes)
    ensures Printable(Encode(b))
  {
    var s := Encode(b);
    forall k | 0 <= k < |s| ensures '+' <= s[k] <= 'z' {
      if k < |Sextets(b)| {
        assert InAlphabet(Sextets(b)[k]);
      }
    }
  }

  /** What `b64encode` produces, `b64decode(validate=True)` turns back into
      the same bytes. */
  lemma StrictRoundTrip(b: Bytes)
    ensures DecodeStrict(Encode(b)) == Some(b)
  {
    var d, n := Sextets(b), PadCount(|b|);
    SextetsFill(|b|);
    StrictAccepts(d, n);
    assert DecodeStrict(d + Pads(n)).Some?;
    RunEncoded(b, []);
    assert [] + b == b;
  }

  /** The characters of an encoding leave as many places in the last
      quantum as there are pads. */
  lemma {:induction false} SextetsFill(n: nat)
    ensures var m, p := (4 * n + 2) / 3, PadCount(n);
            (m % 4 == 0 && p == 0) || (m % 4 == 2 && p == 2) || (m % 4 == 3 && p == 1)
  {
    if n >= 3 {
      SextetsFill(n - 3);
      assert (4 * n + 2) / 3 == (4 * (n - 3) + 2) / 3 + 4;
    }
  }

  /** What `b64encode` produces, `b64decode` turns back into the same bytes. */
  lemma LenientRoundTrip(b: Bytes)
    ensures DecodeLenient(Encode(b)) == Ok(b)
  {
    var s := Encode(b);
    forall k | 0 <= k < |s| ensures s[k] as int < 128 {
      if k < |Sextets(b)| {
        assert InAlphabet(s[k]);
      }
    }
    RunEncoded(b, []);
    assert [] + b == b;
  }

  // ---------------------------------------------------------------------
  // Which padded texts validate=True accepts

  /** The decoder state after a run of alphabet characters. */
  function AfterData(d: string, st: Decoder, acc: Bytes): (r: (Decoder, Bytes))
    requires AllAlphabet(d) && ValidDecoder(st)
    ensures ValidDecoder(r.0)
    ensures r.0.quad == (st.quad + |d|) % 4
    ensures r.0.pads == if d == [] then st.pads else 0
    decreases |d|
  {
    if d == [] then (st, acc)
    else
      var v := SextetValue(d[0]);
      if st.quad == 0 then AfterData(d[1..], Decoder(1, v, 0), acc)
      else if st.quad == 1 then AfterData(d[1..], Decoder(2, v % 16, 0), acc + [st.left * 4 + v / 16])
      else if st.quad == 2 then AfterData(d[1..], Decoder(3, v % 4, 0), acc + [st.left * 16 + v / 4])
      else AfterData(d[1..], Decoder(0, 0, 0), acc + [st.left * 64 + v])
  }

  lemma {:induction false} RunData(d: string, p: string, st: Decoder, acc: Bytes)
    requires AllAlphabet(d) && ValidDecoder(st)
    ensures var (st', acc') := AfterData(d, st, acc); Run(d + p, st, acc) == Run(p, st', acc')
    decreases |d|
  {
    if d != [] {
      assert (d + p)[0] == d[0];
      assert (d + p)[1..] == d[1..] + p;
      var v := SextetValue(d[0]);
      var next := if st.quad == 0 then Decoder(1, v, 0)
                  else if st.quad == 1 then Decoder(2, v % 16, 0)
                  else if st.quad == 2 then Decoder(3, v % 4, 0)
                  else Decoder(0, 0, 0);
      var out := if st.quad == 0 then acc
                 else if st.quad == 1 then acc + [st.left * 4 + v / 16]
                 else if st.quad == 2 then acc + [st.left * 16 + v / 4]
                 else acc + [st.left * 64 + v];
      RunData(d[1..], p, next, out);
    } else {
      assert d + p == p;
    }
  }

  /** The strict decoder goes through a run of alphabet characters before
      any pad just as the non-strict one does. */
  lemma {:induction false} StrictRunData(d: string, p: string, st: Decoder, acc: Bytes)
    requires AllAlphabet(d) && ValidDecoder(st) && st.pads == 0
    ensures var (st', acc') := AfterData(d, st, acc);
            RunStrict(d + p, st, acc, false) == RunStrict(p, st', acc', false)
    decreases |d|
  {
    if d != [] {
      assert (d + p)[0] == d[0];
      assert (d + p)[1..] == d[1..] + p;
      var v := SextetValue(d[0]);
      var next := if st.quad == 0 then Decoder(1, v, 0)
                  else if st.quad == 1 then Decoder(2, v % 16, 0)
                  else if st.quad == 2 then Decoder(3, v % 4, 0)
                  else Decoder(0, 0, 0);
      var out := if st.quad == 0 then acc
                 else if st.quad == 1 then acc + [st.left * 4 + v / 16]
                 else if st.quad == 2 then acc + [st.left * 16 + v / 4]
                 else acc + [st.left * 64 + v];
      StrictRunData(d[1..], p, next, out);
    } else {
      assert d + p == p;
    }
  }

  /** In strict mode pads never complete a quantum holding one character. */
  lemma {:induction false} StrictPadsAfterOne(st: Decoder, acc: Bytes, n: nat, padding: bool)
    requires ValidDecoder(st) && st.quad == 1 && st.pads == 0
    ensures RunStrict(Pads(n), st, acc, padding) == None
    decreases n
  {
    if n > 0 {
      assert Pads(n)[1..] == Pads(n - 1);
      StrictPadsAfterOne(st, acc, n - 1, true);
    }
  }

  /** In strict mode the pads at the end of the text complete the last
      quantum exactly when it holds no character and there is no pad, two
      characters and two pads, or three characters and one pad. */
  lemma StrictRunPads(st: Decoder, acc: Bytes, n: nat)
    requires ValidDecoder(st) && st.pads == 0
    ensures RunStrict(Pads(n), st, acc, false).Some?
        <==> ((st.quad == 0 && n == 0) || (st.quad == 2 && n == 2) || (st.quad == 3 && n == 1))
  {
    var p := Pads(n);
    if st.quad == 1 {
      StrictPadsAfterOne(st, acc, n, false);
    } else if n > 0 {
      assert p[0] == '=';
      if st.quad == 2 && n >= 2 {
        assert p[1..][0] == '=';
        assert RunStrict(p, st, acc, false) == RunStrict(p[1..], st.(pads := 1), acc, true);
      }
    }
  }

  /** `b64decode(validate=True)` on alphabet characters followed by `n`
      pads succeeds exactly when the characters fill whole quanta and there
      is no pad, or leave two characters and there are two pads, or three
      characters and one pad. So `QQ`, `QQ=`, `QUJD=` and `QUJ==` are
      rejected. */
  lemma StrictAccepts(d: string, n: nat)
    requires AllAlphabet(d)
    ensures DecodeStrict(d + Pads(n)).Some?
        <==> ((|d| % 4 == 0 && n == 0) || (|d| % 4 == 2 && n == 2) || (|d| % 4 == 3 && n == 1))
  {
    StrictRunData(d, Pads(n), Start, []);
    var (st, acc) := AfterData(d, Start, []);
    StrictRunPads(st, acc, n);
  }

  /** A lone character in the last quantum is rejected whatever follows. */
  lemma StrictRejectsLoneCharacter(d: string, n: nat)
    requires AllAlphabet(d) && |d| % 4 == 1
    ensures DecodeStrict(d + Pads(n)) == None
  {
    StrictAccepts(d, n);
  }

  /** A pad after a complete quantum is refused in strict mode, while the
      non-strict decoder stops at it and keeps the bytes decoded so far. */
  lemma ExcessPadding()
    ensures DecodeStrict("QUJD=") == None
    ensures A2b("QUJD=") == Ok([65, 66, 67])
    ensures DecodeStrict("QUJ==") == None
  {
    assert AllAlphabet("QUJ");
    assert "QUJ==" == "QUJ" + Pads(2);
    StrictAccepts("QUJ", 2);
    assert AllAlphabet("QUJD");
    assert "QUJD=" == "QUJD" + Pads(1);
    StrictAccepts("QUJD", 1);
    assert "QUJD=" == Quantum(65, 66, 67) + "=";
    RunQuantum(65, 66, 67, "=", []);
    var abc: Bytes := [65, 66, 67];
    assert [] + abc == abc;
    assert Run("=", Start, [65, 66, 67]) == Run("", Start, [65, 66, 67]);
  }
}
