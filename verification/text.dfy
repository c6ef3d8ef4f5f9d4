/** The parts of Rust's `char` and `str` behaviour the generator relies on:
    UTF-8 byte length (`str::len`), lowercasing (restricted to ASCII letters),
    `char::is_whitespace`, and `str::lines`. Strings are `seq<char>` whose
    elements are Unicode scalar values. */
module Text {

  // ---------------------------------------------------------------------------
  // Byte length
  // ---------------------------------------------------------------------------

  /** Number of bytes `c` occupies when UTF-8 encoded. */
  function Utf8Width(c: char): (w: nat)
    ensures 1 <= w <= 4
    ensures w == 1 <==> c as int < 0x80
  {
    if c as int < 0x80 then 1
    else if c as int < 0x800 then 2
    else if c as int < 0x1_0000 then 3
    else 4
  }

  /** Rust's `str::len`: the length of `s` in UTF-8 bytes. */
  function Utf8Len(s: string): (n: nat)
  {
    if |s| == 0 then 0 else Utf8Len(s[..|s| - 1]) + Utf8Width(s[|s| - 1])
  }

  lemma {:induction false} Utf8LenConcat(a: string, b: string)
    ensures Utf8Len(a + b) == Utf8Len(a) + Utf8Len(b)
    decreases |b|
  {
    if |b| == 0 {
      assert a + b == a;
    } else {
      var b' := b[..|b| - 1];
      assert (a + b)[..|a + b| - 1] == a + b';
      Utf8LenConcat(a, b');
    }
  }

  /** Every character takes at least one byte. */
  lemma {:induction false} Utf8LenAtLeastCount(s: string)
    ensures Utf8Len(s) >= |s|
  {
    if |s| > 0 {
      Utf8LenAtLeastCount(s[..|s| - 1]);
    }
  }

  /** Strings whose characters have pairwise the same width have the same byte length. */
  lemma {:induction false} Utf8LenOfSameWidths(a: string, b: string)
    requires |a| == |b|
    requires forall i :: 0 <= i < |a| ==> Utf8Width(a[i]) == Utf8Width(b[i])
    ensures Utf8Len(a) == Utf8Len(b)
  {
    if |a| > 0 {
      Utf8LenOfSameWidths(a[..|a| - 1], b[..|b| - 1]);
    }
  }

  // ---------------------------------------------------------------------------
  // UTF-8 encoding
  // ---------------------------------------------------------------------------

  type Byte = b: int | 0 <= b < 0x100

  /** A byte of the form `10xxxxxx`, which never starts a character. */
  predicate IsContinuation(b: Byte) {
    0x80 <= b < 0xC0
  }

  /** The UTF-8 encoding of one character: a leading byte, then `Utf8Width(c) - 1`
      continuation bytes. */
  function Utf8Encode(c: char): (bs: seq<Byte>)
    ensures |bs| == Utf8Width(c)
    ensures !IsContinuation(bs[0])
    ensures forall i :: 1 <= i < |bs| ==> IsContinuation(bs[i])
  {
    var n := c as int;
    if n < 0x80 then [n]
    else if n < 0x800 then [0xC0 + n / 0x40, 0x80 + n % 0x40]
    else if n < 0x1_0000 then [0xE0 + n / 0x1000, 0x80 + n / 0x40 % 0x40, 0x80 + n % 0x40]
    else [0xF0 + n / 0x4_0000, 0x80 + n / 0x1000 % 0x40, 0x80 + n / 0x40 % 0x40, 0x80 + n % 0x40]
  }

  /** The bytes of `f(c)` for every character `c` of `s`, in order. */
  function FlatMap(s: string, f: char -> seq<Byte>): (bs: seq<Byte>)
  {
    if |s| == 0 then [] else FlatMap(s[..|s| - 1], f) + f(s[|s| - 1])
  }

  lemma {:induction false} FlatMapConcat(a: string, b: string, f: char -> seq<Byte>)
    ensures FlatMap(a + b, f) == FlatMap(a, f) + FlatMap(b, f)
    decreases |b|
  {
    if |b| == 0 {
      assert a + b == a;
    } else {
      var b' := b[..|b| - 1];
      assert (a + b)[..|a + b| - 1] == a + b';
      FlatMapConcat(a, b', f);
    }
  }

  /** The bytes of a Rust `String` holding `s`; there are `str::len` of them. */
  function Encode(s: string): (bs: seq<Byte>)
    ensures |bs| == Utf8Len(s)
  {
    EncodeLength(s);
    FlatMap(s, Utf8Encode)
  }

  lemma {:induction false} EncodeLength(s: string)
    ensures |FlatMap(s, Utf8Encode)| == Utf8Len(s)
  {
    if |s| > 0 {
      EncodeLength(s[..|s| - 1]);
    }
  }

  lemma EncodeConcat(a: string, b: string)
    ensures Encode(a + b) == Encode(a) + Encode(b)
  {
    FlatMapConcat(a, b, Utf8Encode);
  }

  /** The encoding of a non-empty string starts with the leading byte of its
      first character, so it never starts with a continuation byte. */
  lemma EncodeStartsCharacter(s: string)
    requires |s| > 0
    ensures |Encode(s)| > 0 && !IsContinuation(Encode(s)[0])
  {
    EncodeConcat([s[0]], s[1..]);
    assert [s[0]] + s[1..] == s;
    assert [s[0]][..0] == [];
    assert FlatMap([s[0]], Utf8Encode) == Utf8Encode(s[0]);
  }

  // ---------------------------------------------------------------------------
  // Lowercasing
  // ---------------------------------------------------------------------------

  predicate IsAsciiUpper(c: char) {
    'A' <= c <= 'Z'
  }

  /** `char::to_lowercase` for ASCII letters; every other character is kept. */
  function Lower(c: char): (r: char)
    ensures !IsAsciiUpper(r)
    ensures Utf8Width(r) == Utf8Width(c)
  {
    if IsAsciiUpper(c) then (c as int - 'A' as int + 'a' as int) as char else c
  }

  /** `str::to_lowercase`, one character to one character. */
  function LowerStr(s: string): (r: string)
  {
    seq(|s|, i requires 0 <= i < |s| => Lower(s[i]))
  }

  /** Lowercasing keeps the length in characters and in bytes, leaves no ASCII
      upper-case letter behind, and changes nothing when applied twice. */
  lemma LowerStrProperties(s: string)
    ensures |LowerStr(s)| == |s|
    ensures Utf8Len(LowerStr(s)) == Utf8Len(s)
    ensures forall i :: 0 <= i < |s| ==> !IsAsciiUpper(LowerStr(s)[i])
    ensures LowerStr(LowerStr(s)) == LowerStr(s)
  {
    Utf8LenOfSameWidths(LowerStr(s), s);
  }

  // ---------------------------------------------------------------------------
  // Whitespace
  // ---------------------------------------------------------------------------

  /** Rust's `char::is_whitespace`: the Unicode `White_Space` property. */
  predicate IsWhitespace(c: char) {
    var n := c as int;
    || (0x09 <= n <= 0x0D)
    || n == 0x20
    || n == 0x85
    || n == 0xA0
    || n == 0x1680
    || (0x2000 <= n <= 0x200A)
    || n == 0x2028
    || n == 0x2029
    || n == 0x202F
    || n == 0x205F
    || n == 0x3000
  }

  predicate AllWhitespace(s: string) {
    forall i :: 0 <= i < |s| ==> IsWhitespace(s[i])
  }

  /** Neither starts nor ends with whitespace: what `str::trim` leaves behind. */
  predicate IsTight(s: string) {
    |s| == 0 || (!IsWhitespace(s[0]) && !IsWhitespace(s[|s| - 1]))
  }

  // ---------------------------------------------------------------------------
  // Lines
  // ---------------------------------------------------------------------------

  /** Index of the first `'\n'` in `s`, or `|s|` when there is none. */
  function NewlineIndex(s: string): (k: nat)
    ensures k <= |s|
    ensures forall i :: 0 <= i < k ==> s[i] != '\n'
    ensures k < |s| ==> s[k] == '\n'
  {
    if |s| == 0 then 0
    else if s[0] == '\n' then 0
    else 1 + NewlineIndex(s[1..])
  }

  /** Removes one trailing `'\r'`, as `strip_suffix('\r')` does. */
  function StripCr(s: string): (r: string)
  {
    if |s| > 0 && s[|s| - 1] == '\r' then s[..|s| - 1] else s
  }

  /** Rust's `str::lines`: split after every `'\n'`; a piece that ends with
      `'\n'` loses it and then one `'\r'` before it; no empty last line is
      produced for a terminating `'\n'`. There are lines exactly when the text
      is not empty, and no line holds a `'\n'`. */
  function Lines(s: string): (ls: seq<string>)
    ensures |s| == 0 <==> |ls| == 0
    ensures forall j, i :: 0 <= j < |ls| && 0 <= i < |ls[j]| ==> ls[j][i] != '\n'
    decreases |s|
  {
    if |s| == 0 then []
    else
      var k := NewlineIndex(s);
      if k == |s| then [s]
      else [StripCr(s[..k])] + Lines(s[k + 1..])
  }

  /** The inverse of `Lines` on strings without line terminators to strip. */
  function JoinLines(ls: seq<string>): (s: string)
  {
    if |ls| == 0 then []
    else if |ls| == 1 then ls[0]
    else ls[0] + "\n" + JoinLines(ls[1..])
  }

  predicate NoCarriageReturn(s: string) {
    forall i :: 0 <= i < |s| ==> s[i] != '\r'
  }

  lemma JoinLinesCons(head: string, ls: seq<string>)
    requires |ls| > 0
    ensures JoinLines([head] + ls) == head + "\n" + JoinLines(ls)
  {
    assert ([head] + ls)[1..] == ls;
  }

  /** One step of `Lines` on a string holding a `'\n'` that is not its last character. */
  lemma LinesStep(s: string, k: nat)
    requires NoCarriageReturn(s)
    requires k == NewlineIndex(s) && k + 1 < |s|
    ensures Lines(s) == [s[..k]] + Lines(s[k + 1..])
    ensures |Lines(s[k + 1..])| > 0
    ensures NoCarriageReturn(s[k + 1..])
  {
    var head := s[..k];
    if |head| > 0 {
      assert head[|head| - 1] == s[k - 1];
    }
    assert StripCr(head) == head;
  }

  lemma SplitAtNewline(s: string, k: nat)
    requires k < |s| && s[k] == '\n'
    ensures s == s[..k] + "\n" + s[k + 1..]
  {
  }

  /** Splitting a string into lines and joining them back with `'\n'` gives the
      string back, provided it holds no `'\r'` and does not end with `'\n'`. */
  lemma {:induction false} JoinLinesOfLines(s: string)
    requires NoCarriageReturn(s)
    requires |s| == 0 || s[|s| - 1] != '\n'
    ensures JoinLines(Lines(s)) == s
    decreases |s|
  {
    if |s| > 0 {
      var k := NewlineIndex(s);
      if k < |s| {
        var head, rest := s[..k], s[k + 1..];
        assert k + 1 < |s|;
        LinesStep(s, k);
        assert rest[|rest| - 1] == s[|s| - 1];
        JoinLinesOfLines(rest);
        JoinLinesCons(head, Lines(rest));
        SplitAtNewline(s, k);
      }
    }
  }
}
