/** The few Python `str` operations the servers rely on, with Python's
    semantics: `strip()`, `upper()`/`lower()` (ASCII letters), `split(' ', n)`,
    `split('\r\n', 1)`, the substring test `t in s`, whitespace tokenising as
    `shlex.split` does on quote-free text, `str(n)` and `int(s)`. */
module PyText {
  import opened Common

  // ---------------------------------------------------------------------
  // Whitespace and strip()

  /** `c.isspace()` in Python: the ASCII controls 0x09-0x0D and 0x1C-0x1F,
      the space, and the Unicode space separators. */
  predicate IsSpace(c: char) {
    || ('\t' <= c <= '\r')
    || ('\U{1C}' <= c <= ' ')
    || c == '\U{85}' || c == '\U{A0}' || c == '\U{1680}'
    || ('\U{2000}' <= c <= '\U{200A}')
    || c == '\U{2028}' || c == '\U{2029}' || c == '\U{202F}' || c == '\U{205F}'
    || c == '\U{3000}'
  }

  predicate AllSpace(s: string) {
    forall k | 0 <= k < |s| :: IsSpace(s[k])
  }

  /** No whitespace at either end: what `strip()` leaves. */
  predicate Trimmed(s: string) {
    s == [] || (!IsSpace(s[0]) && !IsSpace(s[|s| - 1]))
  }

  /** Number of leading whitespace characters. */
  function LeadingSpace(s: string): (n: nat)
    ensures n <= |s|
    ensures AllSpace(s[..n])
    ensures n < |s| ==> !IsSpace(s[n])
  {
    if s == [] || !IsSpace(s[0]) then 0 else 1 + LeadingSpace(s[1..])
  }

  /** Number of trailing whitespace characters. */
  function TrailingSpace(s: string): (n: nat)
    ensures n <= |s|
    ensures AllSpace(s[|s| - n..])
    ensures n < |s| ==> !IsSpace(s[|s| - 1 - n])
  {
    if s == [] || !IsSpace(s[|s| - 1]) then 0 else 1 + TrailingSpace(s[..|s| - 1])
  }

  /** `s.strip()`: text already trimmed comes back unchanged. */
  function Strip(s: string): (r: string)
    ensures Trimmed(r)
    ensures |r| <= |s|
    ensures Trimmed(s) ==> r == s
  {
    var t := s[LeadingSpace(s)..];
    t[..|t| - TrailingSpace(t)]
  }

  lemma {:induction false} LeadingSpaceOfPadded(pre: string, x: string)
    requires AllSpace(pre)
    requires x == [] || !IsSpace(x[0])
    ensures LeadingSpace(pre + x) == |pre|
    decreases |pre|
  {
    if pre != [] {
      assert (pre + x)[1..] == pre[1..] + x;
      LeadingSpaceOfPadded(pre[1..], x);
    } else {
      assert pre + x == x;
    }
  }

  lemma {:induction false} TrailingSpaceOfPadded(x: string, post: string)
    requires AllSpace(post)
    requires x == [] || !IsSpace(x[|x| - 1])
    ensures TrailingSpace(x + post) == |post|
    decreases |post|
  {
    if post != [] {
      assert (x + post)[..|x + post| - 1] == x + post[..|post| - 1];
      TrailingSpaceOfPadded(x, post[..|post| - 1]);
    } else {
      assert x + post == x;
    }
  }

  /** `strip()` removes exactly the surrounding whitespace: a text with no
      whitespace at its ends comes back unchanged from any padding. */
  lemma StripPadded(pre: string, x: string, post: string)
    requires AllSpace(pre) && AllSpace(post)
    requires x != [] && Trimmed(x)
    ensures Strip(pre + x + post) == x
  {
    var s := pre + x + post;
    assert s == pre + (x + post);
    LeadingSpaceOfPadded(pre, x + post);
    assert s[|pre|..] == x + post;
    TrailingSpaceOfPadded(x, post);
    assert (x + post)[..|x|] == x;
  }

  // ---------------------------------------------------------------------
  // Case mapping (ASCII letters)

  function UpperChar(c: char): char {
    if 'a' <= c <= 'z' then (c as int - 32) as char else c
  }

  function LowerChar(c: char): char {
    if 'A' <= c <= 'Z' then (c as int + 32) as char else c
  }

  /** `s.upper()`, restricted to ASCII letters: no lower-case letter is
      left. */
  function Upper(s: string): (r: string)
    ensures |r| == |s|
    ensures forall k | 0 <= k < |s| :: r[k] == UpperChar(s[k])
    ensures IsUpperCase(r)
  {
    seq(|s|, k requires 0 <= k < |s| => UpperChar(s[k]))
  }

  /** `s.lower()`, restricted to ASCII letters. */
  function Lower(s: string): (r: string)
    ensures |r| == |s|
    ensures forall k | 0 <= k < |s| :: r[k] == LowerChar(s[k])
    ensures IsLowerCase(r)
  {
    seq(|s|, k requires 0 <= k < |s| => LowerChar(s[k]))
  }

  predicate IsLowerCase(s: string) {
    forall k | 0 <= k < |s| :: !('A' <= s[k] <= 'Z')
  }

  predicate IsUpperCase(s: string) {
    forall k | 0 <= k < |s| :: !('a' <= s[k] <= 'z')
  }

  /** A word compared after `upper()`, as the servers compare verbs: `v`
      matches an upper-case word `w` exactly when each of its characters is
      that of `w` or its lower-case letter. So `upload`, `Upload` and
      `UPLOAD` all match `UPLOAD`, and nothing else does. */
  lemma UpperIs(v: string, w: string)
    requires IsUpperCase(w)
    ensures Upper(v) == w <==>
            |v| == |w| && forall k | 0 <= k < |v| :: v[k] == w[k] || v[k] == LowerChar(w[k])
  {
    if |v| == |w| && forall k | 0 <= k < |v| :: v[k] == w[k] || v[k] == LowerChar(w[k]) {
      forall k | 0 <= k < |v| ensures Upper(v)[k] == w[k] {
        assert !('a' <= w[k] <= 'z');
      }
    }
  }

  // ---------------------------------------------------------------------
  // split(' ', maxsplit)

  /** Index of the first occurrence of `c`, or `|s|` when there is none. */
  function IndexOf(s: string, c: char): (i: nat)
    ensures i <= |s|
    ensures i < |s| ==> s[i] == c
    ensures forall k | 0 <= k < i :: s[k] != c
  {
    if s == [] then 0 else if s[0] == c then 0 else 1 + IndexOf(s[1..], c)
  }

  /** `sep.join(parts)` for a one-character separator. */
  function Join(parts: seq<string>, sep: char): string {
    if |parts| == 0 then ""
    else if |parts| == 1 then parts[0]
    else parts[0] + [sep] + Join(parts[1..], sep)
  }

  /** `s.split(' ', maxsplit)`: at most `maxsplit` cuts, each at a single
      space; the last part is the unsplit remainder. */
  function Split(s: string, maxsplit: nat): (parts: seq<string>)
    ensures 1 <= |parts| <= maxsplit + 1
    ensures Join(parts, ' ') == s
    ensures forall k | 0 <= k < |parts| - 1 :: ' ' !in parts[k]
    ensures |parts| <= maxsplit ==> ' ' !in parts[|parts| - 1]
    decreases |s|
  {
    var i := IndexOf(s, ' ');
    if maxsplit == 0 || i == |s| then
      [s]
    else
      var rest := Split(s[i + 1..], maxsplit - 1);
      assert s == s[..i] + [' '] + s[i + 1..];
      [s[..i]] + rest
  }

  /** Splitting text that starts with a space-free word and a space cuts off
      exactly that word. */
  lemma SplitAfterWord(w: string, rest: string, maxsplit: nat)
    requires ' ' !in w
    ensures Split(w + " " + rest, maxsplit + 1) == [w] + Split(rest, maxsplit)
  {
    var s := w + " " + rest;
    IndexOfAfterWord(w, rest);
    assert s[..|w|] == w;
    assert s[|w| + 1..] == rest;
  }

  lemma {:induction false} IndexOfAfterWord(w: string, rest: string)
    requires ' ' !in w
    ensures IndexOf(w + " " + rest, ' ') == |w|
    decreases |w|
  {
    if w != [] {
      assert (w + " " + rest)[1..] == w[1..] + " " + rest;
      IndexOfAfterWord(w[1..], rest);
    }
  }

  /** Splitting a space-free word gives the word alone. */
  lemma SplitWord(w: string, maxsplit: nat)
    requires ' ' !in w
    ensures Split(w, maxsplit) == [w]
  {
  }

  // ---------------------------------------------------------------------
  // Substring search: `t in s`, `s.split(t, 1)`

  /** `t` occurs in `s` starting at index `k`. */
  predicate OccursAt(s: string, t: string, k: nat) {
    k + |t| <= |s| && s[k..k + |t|] == t
  }

  /** Index of the first occurrence of `t` in `s` at or after `from`, or
      `|s|` when there is none. */
  function FindFrom(s: string, t: string, from: nat): (i: nat)
    requires t != [] && from <= |s|
    ensures from <= i <= |s|
    ensures i < |s| ==> OccursAt(s, t, i)
    ensures forall k | from <= k < i :: !OccursAt(s, t, k)
    decreases |s| - from
  {
    if from + |t| > |s| then |s|
    else if s[from..from + |t|] == t then from
    else FindFrom(s, t, from + 1)
  }

  /** Index of the first occurrence of `t` in `s`, or `|s|` when none. */
  function Find(s: string, t: string): (i: nat)
    requires t != []
    ensures i <= |s|
    ensures i < |s| ==> OccursAt(s, t, i)
    ensures forall k | 0 <= k < i :: !OccursAt(s, t, k)
  {
    FindFrom(s, t, 0)
  }

  /** Python's `t in s`. */
  predicate Contains(s: string, t: string)
    requires t != []
  {
    Find(s, t) < |s|
  }

  lemma ContainsAt(s: string, t: string, k: nat)
    requires t != [] && OccursAt(s, t, k)
    ensures Contains(s, t)
  {
  }

  /** A prefix ending before the first occurrence holds no occurrence. */
  lemma NotContainsBefore(s: string, t: string, i: nat)
    requires t != [] && i <= |s|
    requires i <= Find(s, t)
    ensures !Contains(s[..i], t)
  {
    var p := s[..i];
    var j := Find(p, t);
    if j < |p| {
      assert p[j..j + |t|] == s[j..j + |t|];
      assert OccursAt(s, t, j);
    }
  }

  /** Appending never removes an occurrence. */
  lemma ContainsExtend(a: string, b: string, t: string)
    requires t != [] && Contains(a, t)
    ensures Contains(a + b, t)
  {
    var i := Find(a, t);
    assert (a + b)[i..i + |t|] == a[i..i + |t|];
    assert OccursAt(a + b, t, i);
    ContainsAt(a + b, t, i);
  }

  /** An occurrence can only come from the part it lies in when the other
      part is too far away: text shorter than `t` holds no occurrence. */
  lemma NotContainsShort(s: string, t: string)
    requires t != [] && |s| < |t|
    ensures !Contains(s, t)
  {
  }

  /** An occurrence inside a prefix bounds the first occurrence in the
      whole text. */
  lemma FindInPrefix(p: string, x: string, t: string)
    requires t != [] && Contains(p, t)
    ensures Find(p + x, t) + |t| <= |p|
  {
    var j := Find(p, t);
    assert (p + x)[j..j + |t|] == p[j..j + |t|];
    assert OccursAt(p + x, t, j);
  }

  /** `(data.split('\r\n', 1) + [''])[:2]`: the text before the first CRLF
      and the text after it, or the whole text and `""` when there is none. */
  function SplitHeader(data: string): (r: (string, string))
    ensures Contains(data, "\r\n") ==> r.0 + "\r\n" + r.1 == data && !Contains(r.0, "\r\n")
    ensures !Contains(data, "\r\n") ==> r == (data, "")
  {
    var i := Find(data, "\r\n");
    if i == |data| then (data, "")
    else
      assert data == data[..i] + "\r\n" + data[i + 2..];
      NotContainsBefore(data, "\r\n", i);
      (data[..i], data[i + 2..])
  }

  /** Text without a carriage return holds no CRLF. */
  lemma NoCarriageReturn(s: string)
    requires forall k | 0 <= k < |s| :: s[k] != '\r'
    ensures !Contains(s, "\r\n")
  {
    forall k | 0 <= k < |s| ensures !OccursAt(s, "\r\n", k) {
      if k + 2 <= |s| {
        assert s[k..k + 2][0] == s[k];
      }
    }
  }

  /** A header without a carriage return ends at the CRLF that follows it. */
  lemma SplitHeaderAt(h: string, b: string)
    requires forall k | 0 <= k < |h| :: h[k] != '\r'
    ensures SplitHeader(h + "\r\n" + b) == (h, b)
  {
    var s := h + "\r\n" + b;
    assert OccursAt(s, "\r\n", |h|);
    forall k | 0 <= k < |h| ensures !OccursAt(s, "\r\n", k) {
      assert s[k] == h[k];
    }
    assert Find(s, "\r\n") == |h|;
    assert s[..|h|] == h;
    assert s[|h| + 2..] == b;
  }

  // ---------------------------------------------------------------------
  // shlex.split on text without quotes or backslashes

  /** `shlex`'s whitespace characters. */
  predicate IsShlexSpace(c: char) {
    c == ' ' || c == '\t' || c == '\r' || c == '\n'
  }

  predicate IsToken(w: string) {
    w != [] && forall k | 0 <= k < |w| :: !IsShlexSpace(w[k])
  }

  /** No quote and no backslash: `shlex` in POSIX mode then leaves the
      characters as they are. */
  predicate QuoteFree(w: string) {
    forall k | 0 <= k < |w| :: w[k] != '"' && w[k] != '\'' && w[k] != '\\'
  }

  /** Length of the leading run of non-whitespace characters. */
  function WordLength(s: string): (n: nat)
    ensures n <= |s|
    ensures forall k | 0 <= k < n :: !IsShlexSpace(s[k])
    ensures n < |s| ==> IsShlexSpace(s[n])
  {
    if s == [] || IsShlexSpace(s[0]) then 0 else 1 + WordLength(s[1..])
  }

  /** The maximal runs of non-whitespace characters, in order. */
  function Tokens(s: string): (ts: seq<string>)
    ensures forall k | 0 <= k < |ts| :: IsToken(ts[k])
    decreases |s|
  {
    if s == [] then []
    else if IsShlexSpace(s[0]) then Tokens(s[1..])
    else
      var n := WordLength(s);
      [s[..n]] + Tokens(s[n..])
  }

  lemma {:induction false} WordLengthOfToken(w: string, rest: string)
    requires IsToken(w)
    requires rest == [] || IsShlexSpace(rest[0])
    ensures WordLength(w + rest) == |w|
    decreases |w|
  {
    if |w| > 1 {
      assert (w + rest)[1..] == w[1..] + rest;
      WordLengthOfToken(w[1..], rest);
    } else {
      assert (w + rest)[1..] == rest;
    }
  }

  /** A token followed by whitespace is the first token, and tokenising goes
      on with what follows. */
  lemma TokensAfterWord(w: string, rest: string)
    requires IsToken(w)
    requires rest == [] || IsShlexSpace(rest[0])
    ensures Tokens(w + rest) == [w] + Tokens(rest)
  {
    WordLengthOfToken(w, rest);
    assert (w + rest)[..|w|] == w;
    assert (w + rest)[|w|..] == rest;
  }

  /** Leading whitespace yields no token. */
  lemma TokensAfterSpace(c: char, rest: string)
    requires IsShlexSpace(c)
    ensures Tokens([c] + rest) == Tokens(rest)
  {
    assert ([c] + rest)[1..] == rest;
  }

  /** Two words separated by a space, then text that starts with whitespace
      if it is not empty. */
  lemma TwoTokens(a: string, b: string, rest: string)
    requires IsToken(a) && IsToken(b)
    requires rest == [] || IsShlexSpace(rest[0])
    ensures Tokens(a + (" " + (b + rest))) == [a, b] + Tokens(rest)
  {
    SpaceThenToken(b, rest);
    TokensAfterWord(a, " " + (b + rest));
    ConsPair(a, b, Tokens(rest));
  }

  lemma ConsPair<T>(a: T, b: T, ts: seq<T>)
    ensures [a] + ([b] + ts) == [a, b] + ts
  {
  }

  /** A space, a word, then text that starts with whitespace if it is not
      empty. */
  lemma SpaceThenToken(b: string, rest: string)
    requires IsToken(b)
    requires rest == [] || IsShlexSpace(rest[0])
    ensures Tokens(" " + (b + rest)) == [b] + Tokens(rest)
  {
    assert " " + (b + rest) == [' '] + (b + rest);
    TokensAfterSpace(' ', b + rest);
    TokensAfterWord(b, rest);
  }

  /** Lower-casing keeps whitespace at the front. */
  lemma LowerSpaceFirst(rest: string)
    requires rest == [] || IsShlexSpace(rest[0])
    ensures Lower(rest) == [] || IsShlexSpace(Lower(rest)[0])
  {
    if rest != [] {
      assert Lower(rest)[0] == LowerChar(rest[0]);
    }
  }

  /** Lower-casing keeps a token a token. */
  lemma LowerToken(w: string)
    requires IsToken(w)
    ensures IsToken(Lower(w))
  {
    var l := Lower(w);
    forall k | 0 <= k < |l| ensures !IsShlexSpace(l[k]) {
      assert l[k] == LowerChar(w[k]);
    }
  }

  lemma TokensOfToken(w: string)
    requires IsToken(w)
    ensures Tokens(w) == [w]
  {
    TokensAfterWord(w, []);
    assert w + [] == w;
  }

  /** Tokens of lower-case text are lower-case. */
  lemma {:induction false} TokensOfLowerCase(s: string)
    requires IsLowerCase(s)
    ensures forall k | 0 <= k < |Tokens(s)| :: IsLowerCase(Tokens(s)[k])
    decreases |s|
  {
    if s != [] {
      if IsShlexSpace(s[0]) {
        TokensOfLowerCase(s[1..]);
      } else {
        var n := WordLength(s);
        TokensOfLowerCase(s[n..]);
        var ts := Tokens(s);
        assert ts == [s[..n]] + Tokens(s[n..]);
        forall k | 0 <= k < |ts| ensures IsLowerCase(ts[k]) {
          if k > 0 {
            assert ts[k] == Tokens(s[n..])[k - 1];
          }
        }
      }
    }
  }

  lemma LowerConcat(a: string, b: string)
    ensures Lower(a + b) == Lower(a) + Lower(b)
  {
    assert forall k | 0 <= k < |a + b| :: Lower(a + b)[k] == (Lower(a) + Lower(b))[k];
  }

  // ---------------------------------------------------------------------
  // str(n) and int(s)

  predicate IsDigit(c: char) {
    '0' <= c <= '9'
  }

  function DigitChar(d: nat): char
    requires d < 10
  {
    ('0' as int + d) as char
  }

  /** `str(n)` for a natural number. */
  function NatToString(n: nat): (r: string)
    ensures r != []
    ensures forall k | 0 <= k < |r| :: IsDigit(r[k])
  {
    if n < 10 then [DigitChar(n)] else NatToString(n / 10) + [DigitChar(n % 10)]
  }

  /** Digits with single underscores between digits, as `int()` accepts. */
  predicate WellFormedDigits(s: string) {
    && s != []
    && IsDigit(s[0]) && IsDigit(s[|s| - 1])
    && (forall k | 0 <= k < |s| :: IsDigit(s[k]) || s[k] == '_')
    && (forall k | 0 < k < |s| - 1 :: s[k] == '_' ==> IsDigit(s[k - 1]) && IsDigit(s[k + 1]))
  }

  /** The value of the digits, underscores skipped. */
  function DigitsValue(s: string): nat {
    if s == [] then 0
    else if IsDigit(s[|s| - 1]) then DigitsValue(s[..|s| - 1]) * 10 + (s[|s| - 1] as int - '0' as int)
    else DigitsValue(s[..|s| - 1])
  }

  /** The most digits `int()` converts from text under Python's default
      `sys.get_int_max_str_digits()`; more raise ValueError. */
  const MaxStrDigits := 4300

  /** The number of digits in `s`, underscores not counted. */
  function DigitCount(s: string): (n: nat)
    ensures n <= |s|
    ensures (forall k | 0 <= k < |s| :: IsDigit(s[k])) ==> n == |s|
  {
    if s == [] then 0
    else DigitCount(s[..|s| - 1]) + if IsDigit(s[|s| - 1]) then 1 else 0
  }

  /** The information separators 0x1C-0x1F: whitespace to `str.isspace()`,
      but not to the ASCII test `int()` skips whitespace with. */
  predicate IsSeparatorControl(c: char) {
    '\U{1C}' <= c <= '\U{1F}'
  }

  predicate HoldsSeparator(s: string) {
    exists k | 0 <= k < |s| :: IsSeparatorControl(s[k])
  }

  /** The whitespace `int()` skips around a number: the ASCII whitespace
      0x09-0x0D and the space, and the non-ASCII whitespace, which it first
      turns into spaces. */
  predicate IsIntSpace(c: char) {
    IsSpace(c) && !IsSeparatorControl(c)
  }

  /** `int(s)`: surrounding whitespace, an optional sign, then at most
      `MaxStrDigits` digits with single underscores between them; anything
      else raises ValueError. A separator 0x1C-0x1F is refused wherever it
      stands: `int()` does not skip it at the ends, and it is no digit. */
  function PyInt(s: string): (r: Option<int>)
    ensures r.Some? ==> Strip(s) != [] && (Strip(s)[0] == '-' ==> r.value <= 0) && (Strip(s)[0] != '-' ==> r.value >= 0)
  {
    var t := Strip(s);
    if t == [] || HoldsSeparator(s) then None
    else
      var digits := if t[0] == '-' || t[0] == '+' then t[1..] else t;
      var value: int := DigitsValue(digits);
      if !WellFormedDigits(digits) || DigitCount(digits) > MaxStrDigits then None
      else if t[0] == '-' then Some(-value)
      else Some(value)
  }

  lemma {:induction false} DigitsValueOfNat(n: nat)
    ensures DigitsValue(NatToString(n)) == n
  {
    var r := NatToString(n);
    if n >= 10 {
      assert r[..|r| - 1] == NatToString(n / 10);
      DigitsValueOfNat(n / 10);
    } else {
      assert r[..|r| - 1] == [];
    }
  }

  /** `int(str(n)) == n` for every `n` of at most `MaxStrDigits` digits. */
  lemma PyIntOfNat(n: nat)
    requires |NatToString(n)| <= MaxStrDigits
    ensures PyInt(NatToString(n)) == Some(n)
  {
    var r := NatToString(n);
    StripOfDigits(r);
    PyIntOfStripped(r, r);
    DigitsValueOfNat(n);
  }

  /** `int()` of non-empty decimal digits is their value, up to the digit
      limit. */
  lemma PyIntOfDigits(s: string)
    requires s != [] && forall k | 0 <= k < |s| :: IsDigit(s[k])
    requires |s| <= MaxStrDigits
    ensures PyInt(s) == Some(DigitsValue(s))
  {
    StripOfDigits(s);
    PyIntOfStripped(s, s);
  }

  /** Beyond the digit limit `int()` raises ValueError, whatever the value:
      leading zeros count as digits. */
  lemma PyIntTooLong(s: string)
    requires s != [] && forall k | 0 <= k < |s| :: IsDigit(s[k])
    requires |s| > MaxStrDigits
    ensures PyInt(s) == None
  {
    StripOfDigits(s);
    assert s[0] != '-' && s[0] != '+';
  }

  /** `int()` skips its own whitespace around the digits. */
  lemma PyIntPadded(pre: string, d: string, post: string)
    requires forall k | 0 <= k < |pre| :: IsIntSpace(pre[k])
    requires forall k | 0 <= k < |post| :: IsIntSpace(post[k])
    requires d != [] && forall k | 0 <= k < |d| :: IsDigit(d[k])
    requires |d| <= MaxStrDigits
    ensures PyInt(pre + d + post) == Some(DigitsValue(d))
  {
    assert !IsSpace(d[0]) && !IsSpace(d[|d| - 1]);
    StripPadded(pre, d, post);
    NoSeparatorPadded(pre, d, post);
    PyIntOfStripped(pre + d + post, d);
  }

  lemma NoSeparatorPadded(pre: string, d: string, post: string)
    requires forall k | 0 <= k < |pre| :: IsIntSpace(pre[k])
    requires forall k | 0 <= k < |post| :: IsIntSpace(post[k])
    requires forall k | 0 <= k < |d| :: IsDigit(d[k])
    ensures !HoldsSeparator(pre + d + post)
  {
    var s := pre + d + post;
    forall k | 0 <= k < |s| ensures !IsSeparatorControl(s[k]) {
      if k < |pre| {
        assert s[k] == pre[k];
      } else if k < |pre| + |d| {
        assert s[k] == d[k - |pre|];
      } else {
        assert s[k] == post[k - |pre| - |d|];
      }
    }
  }

  lemma PyIntOfStripped(s: string, d: string)
    requires Strip(s) == d && !HoldsSeparator(s)
    requires d != [] && forall k | 0 <= k < |d| :: IsDigit(d[k])
    requires |d| <= MaxStrDigits
    ensures PyInt(s) == Some(DigitsValue(d))
  {
    assert d[0] != '-' && d[0] != '+';
    assert WellFormedDigits(d);
  }

  /** `strip()` removes a leading 0x1C, but `int()` refuses it. */
  lemma PyIntRefusesSeparator()
    ensures Strip("\U{1C}5") == "5"
    ensures PyInt("\U{1C}5") == None
  {
    StripPadded("\U{1C}", "5", "");
    assert "\U{1C}" + "5" + "" == "\U{1C}5";
    assert IsSeparatorControl("\U{1C}5"[0]);
  }

  lemma StripOfDigits(r: string)
    requires r != [] && forall k | 0 <= k < |r| :: IsDigit(r[k])
    ensures Strip(r) == r && !HoldsSeparator(r)
  {
    assert !IsSpace(r[0]) && !IsSpace(r[|r| - 1]);
    StripPadded([], r, []);
    assert [] + r + [] == r;
  }
}
