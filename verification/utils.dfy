/** The string helpers of `src/utils.rs`: the case-insensitive prefix test and
    `InPlace::in_place` for `String`, together with the `str::trim` mutator it
    is used with. */
module Utils {
  import opened Wrappers
  import opened Text

  // ---------------------------------------------------------------------------
  // starts_with_case_insensitive
  // ---------------------------------------------------------------------------

  /** `zip(..).all(|(a, b)| a == b)`: the two sequences agree on every position
      both of them have; the longer one's tail is never looked at. */
  predicate ZipAllEqual(x: string, y: string)
  {
    |x| == 0 || |y| == 0 || (x[0] == y[0] && ZipAllEqual(x[1..], y[1..]))
  }

  lemma {:induction false} ZipAllEqualIsCommonPrefix(x: string, y: string)
    ensures |y| <= |x| ==> (ZipAllEqual(x, y) <==> y <= x)
    ensures |x| <= |y| ==> (ZipAllEqual(x, y) <==> x <= y)
  {
    if |x| > 0 && |y| > 0 {
      ZipAllEqualIsCommonPrefix(x[1..], y[1..]);
      assert x == [x[0]] + x[1..];
      assert y == [y[0]] + y[1..];
    }
  }

  /** Whether `a` starts with `b`, ignoring case. A `b` longer than `a` in bytes
      is refused up front; otherwise the lowered characters of both are
      compared pairwise. */
  function StartsWithCaseInsensitive(a: string, b: string): (r: bool)
    ensures Utf8Len(b) > Utf8Len(a) ==> !r
    ensures |b| == 0 ==> r
  {
    if Utf8Len(b) > Utf8Len(a) then false
    else ZipAllEqual(LowerStr(a), LowerStr(b))
  }

  /** The predicate means exactly: lowered `b` is a prefix of lowered `a`. The
      byte-length guard never refuses a real prefix, and the pairwise comparison
      never accepts a `b` that runs past the end of `a`, because the guard has
      already caught that. */
  lemma {:induction false} StartsWithMeansLoweredPrefix(a: string, b: string)
    ensures StartsWithCaseInsensitive(a, b) <==> LowerStr(b) <= LowerStr(a)
  {
    var la, lb := LowerStr(a), LowerStr(b);
    LowerStrProperties(a);
    LowerStrProperties(b);
    ZipAllEqualIsCommonPrefix(la, lb);
    if lb <= la {
      // The prefix is no longer in bytes than the whole.
      assert la == lb + la[|lb|..];
      Utf8LenConcat(lb, la[|lb|..]);
    }
    if Utf8Len(b) <= Utf8Len(a) && ZipAllEqual(la, lb) && |la| < |lb| {
      // Then `la` is a proper prefix of `lb` and `b` has more bytes than `a`.
      assert lb == la + lb[|la|..];
      Utf8LenConcat(la, lb[|la|..]);
      Utf8LenAtLeastCount(lb[|la|..]);
      assert false;
    }
  }

  /** Every string matches itself. */
  lemma StartsWithSelf(a: string)
    ensures StartsWithCaseInsensitive(a, a)
  {
    StartsWithMeansLoweredPrefix(a, a);
  }

  /** The answer depends on the arguments only through their lowered forms, so
      changing the case of letters in either argument changes nothing. */
  lemma StartsWithIgnoresCase(a: string, a': string, b: string, b': string)
    requires LowerStr(a) == LowerStr(a')
    requires LowerStr(b) == LowerStr(b')
    ensures StartsWithCaseInsensitive(a, b) == StartsWithCaseInsensitive(a', b')
  {
    StartsWithMeansLoweredPrefix(a, b);
    StartsWithMeansLoweredPrefix(a', b');
  }

  /** Matching a lowered `a` is the same as matching `a`. */
  lemma StartsWithOfLowered(a: string, b: string)
    ensures StartsWithCaseInsensitive(LowerStr(a), b) == StartsWithCaseInsensitive(a, b)
  {
    LowerStrProperties(a);
    StartsWithIgnoresCase(LowerStr(a), a, b, b);
  }

  /** The three names of the reserved-line scenario: `RESERVED0` and
      `Reserved1` start with `reserved` ignoring case, `UART_RX` does not.
      The literals are passed as parameters pinned by `requires`: the solver
      then treats them as names and spells out their characters only where a
      step needs them, which keeps these proofs small. */
  lemma ReservedExamples(reserved0: string, reserved1: string, uartRx: string, prefix: string)
    requires reserved0 == "RESERVED0" && reserved1 == "Reserved1" && uartRx == "UART_RX"
    requires prefix == "reserved"
    ensures StartsWithCaseInsensitive(reserved0, prefix)
    ensures StartsWithCaseInsensitive(reserved1, prefix)
    ensures !StartsWithCaseInsensitive(uartRx, prefix)
  {
    assert LowerStr(prefix) == prefix;
    LoweredStartsWith(reserved0, prefix);
    LoweredStartsWith(reserved1, prefix);
    StartsWithMeansLoweredPrefix(uartRx, prefix);
    assert LowerStr(uartRx)[0] != prefix[0];
  }

  /** A string whose first `|prefix|` characters lower to `prefix` starts with it. */
  lemma LoweredStartsWith(a: string, prefix: string)
    requires LowerStr(prefix) == prefix && |prefix| <= |a|
    requires forall k :: 0 <= k < |prefix| ==> Lower(a[k]) == prefix[k]
    ensures StartsWithCaseInsensitive(a, prefix)
  {
    StartsWithMeansLoweredPrefix(a, prefix);
    LowerStrProperties(a);
    assert LowerStr(a)[..|prefix|] == prefix;
  }

  // ---------------------------------------------------------------------------
  // InPlace::in_place
  // ---------------------------------------------------------------------------

  /** A sub-slice `s[start..end]` handed back by a mutator, as positions into the
      string it was given. */
  datatype Span = Span(start: nat, end: nat) {
    predicate Within(s: string) {
      start <= end <= |s|
    }

    function Len(): nat
      requires start <= end
    {
      end - start
    }
  }

  /** `String::in_place`: asks `mutator` for a sub-slice of `s`, copies its
      `len` characters to the front of the buffer (the ranges may overlap, so the
      copy is a move), then truncates the buffer to `len`. */
  function InPlace(s: string, mutator: string -> Span): (r: string)
    requires mutator(s).Within(s)
    ensures |r| == mutator(s).Len()
    ensures r == s[mutator(s).start..mutator(s).end]
  {
    var view := mutator(s);
    var len := view.Len();
    var moved := seq(|s|, i requires 0 <= i < |s| => if i < len then s[view.start + i] else s[i]);
    moved[..len]
  }

  // ---------------------------------------------------------------------------
  // str::trim
  // ---------------------------------------------------------------------------

  /** First position at or after `i` that is not whitespace, or `|s|`. */
  function SkipLeading(s: string, i: nat): (j: nat)
    requires i <= |s|
    ensures i <= j <= |s|
    ensures forall k :: i <= k < j ==> IsWhitespace(s[k])
    ensures j < |s| ==> !IsWhitespace(s[j])
    decreases |s| - i
  {
    if i == |s| || !IsWhitespace(s[i]) then i else SkipLeading(s, i + 1)
  }

  /** Last end position at or before `j`, not below `lo`, whose preceding
      character is not whitespace (or `lo`). */
  function SkipTrailing(s: string, lo: nat, j: nat): (e: nat)
    requires lo <= j <= |s|
    ensures lo <= e <= j
    ensures forall k :: e <= k < j ==> IsWhitespace(s[k])
    ensures e > lo ==> !IsWhitespace(s[e - 1])
    decreases j
  {
    if j == lo || !IsWhitespace(s[j - 1]) then j else SkipTrailing(s, lo, j - 1)
  }

  /** `str::trim` as a mutator: the sub-slice without leading and trailing
      whitespace. Everything cut off is whitespace and what remains is tight. */
  function Trim(s: string): (v: Span)
    ensures v.Within(s)
    ensures forall k :: 0 <= k < v.start ==> IsWhitespace(s[k])
    ensures forall k :: v.end <= k < |s| ==> IsWhitespace(s[k])
    ensures v.start < v.end ==> !IsWhitespace(s[v.start]) && !IsWhitespace(s[v.end - 1])
  {
    var start := SkipLeading(s, 0);
    Span(start, SkipTrailing(s, start, |s|))
  }

  /** `d.in_place(str::trim)`: the string with surrounding whitespace removed,
      as a whole string (inner lines keep their own whitespace). */
  function TrimInPlace(s: string): (r: string)
    ensures IsTight(r)
    ensures var v := Trim(s); s == s[..v.start] + r + s[v.end..]
    ensures var v := Trim(s); AllWhitespace(s[..v.start]) && AllWhitespace(s[v.end..])
  {
    var v := Trim(s);
    TrimParts(s, v);
    InPlace(s, Trim)
  }

  /** The three parts a trim view cuts a string into. */
  lemma TrimParts(s: string, v: Span)
    requires v == Trim(s)
    ensures s == s[..v.start] + s[v.start..v.end] + s[v.end..]
    ensures IsTight(s[v.start..v.end])
    ensures AllWhitespace(s[..v.start]) && AllWhitespace(s[v.end..])
  {
    SplitThree(s, v.start, v.end);
    TrimmedIsTight(s, v);
    TrimmedPadding(s, v);
  }

  lemma TrimmedIsTight(s: string, v: Span)
    requires v == Trim(s)
    ensures IsTight(s[v.start..v.end])
  {
    var mid := s[v.start..v.end];
    if |mid| > 0 {
      assert mid[0] == s[v.start];
      assert mid[|mid| - 1] == s[v.end - 1];
    }
  }

  lemma TrimmedPadding(s: string, v: Span)
    requires v == Trim(s)
    ensures AllWhitespace(s[..v.start]) && AllWhitespace(s[v.end..])
  {
    var pre, post := s[..v.start], s[v.end..];
    assert forall k :: 0 <= k < |pre| ==> pre[k] == s[k];
    assert forall k :: 0 <= k < |post| ==> post[k] == s[v.end + k];
  }

  lemma SplitThree(s: string, a: nat, b: nat)
    requires a <= b <= |s|
    ensures s == s[..a] + s[a..b] + s[b..]
  {
    assert s[..b] == s[..a] + s[a..b];
    assert s == s[..b] + s[b..];
  }

  /** A tight string is left as it is. */
  lemma TrimInPlaceOfTight(t: string)
    requires IsTight(t)
    ensures TrimInPlace(t) == t
  {
    var v := Trim(t);
    if |t| > 0 {
      assert v.start == 0;
      assert v.end == |t|;
    }
  }

  /** Trimming twice is trimming once. */
  lemma TrimInPlaceIdempotent(s: string)
    ensures TrimInPlace(TrimInPlace(s)) == TrimInPlace(s)
  {
    TrimInPlaceOfTight(TrimInPlace(s));
  }

  /** Padding a tight string with whitespace on both sides and trimming gives
      the string back: trimming removes exactly the padding. */
  lemma TrimInPlaceRemovesPadding(w1: string, t: string, w2: string)
    requires AllWhitespace(w1) && AllWhitespace(w2)
    requires IsTight(t)
    ensures TrimInPlace(w1 + t + w2) == t
  {
    var s := w1 + t + w2;
    var v := Trim(s);
    assert TrimInPlace(s) == s[v.start..v.end] by {
      assert TrimInPlace(s) == InPlace(s, Trim);
    }
    if |t| == 0 {
      assert AllWhitespace(s);
    } else {
      PaddedTrimBounds(w1, t, w2);
      assert s[|w1|..|w1| + |t|] == t;
    }
  }

  /** Where the trim view of a padded tight, non-empty string starts and ends. */
  lemma PaddedTrimBounds(w1: string, t: string, w2: string)
    requires AllWhitespace(w1) && AllWhitespace(w2)
    requires IsTight(t) && |t| > 0
    ensures Trim(w1 + t + w2) == Span(|w1|, |w1| + |t|)
  {
    var s := w1 + t + w2;
    var v := Trim(s);
    assert s[|w1|] == t[0];
    assert s[|w1| + |t| - 1] == t[|t| - 1];
    assert forall k :: 0 <= k < |w1| ==> s[k] == w1[k];
    assert forall k :: |w1| + |t| <= k < |s| ==> s[k] == w2[k - |w1| - |t|];
  }

  // ---------------------------------------------------------------------------
  // in_place on the bytes of the string
  // ---------------------------------------------------------------------------

  /** `str::is_char_boundary`: the ends, and every byte that starts a character. */
  predicate IsCharBoundary(bs: seq<Byte>, i: nat) {
    i == 0 || i == |bs| || (i < |bs| && !IsContinuation(bs[i]))
  }

  /** `String::truncate`: a length at or past the end changes nothing; otherwise
      it asserts `is_char_boundary(len)` (`None` is the panic when that fails) and
      keeps the first `len` bytes. */
  function Truncate(bs: seq<Byte>, len: nat): (r: Option<seq<Byte>>)
    ensures r.None? <==> 0 < len < |bs| && IsContinuation(bs[len])
    ensures r.Some? ==> r.value == bs[..if len < |bs| then len else |bs|]
  {
    if len >= |bs| then Some(bs)
    else if IsCharBoundary(bs, len) then Some(bs[..len])
    else None
  }

  /** `ptr::copy(start, front, len)`: the `len` bytes from `start` are moved to
      the front; the bytes from `len` on are left as they were. */
  function MoveToFront(bs: seq<Byte>, start: nat, len: nat): (moved: seq<Byte>)
    requires start + len <= |bs|
    ensures |moved| == |bs|
    ensures moved[..len] == bs[start..start + len]
    ensures moved[len..] == bs[len..]
  {
    seq(|bs|, i requires 0 <= i < |bs| => if i < len then bs[start + i] else bs[i])
  }

  /** `String::in_place` as written, on bytes: the move, then `truncate(len)`.
      It panics exactly when `len` is neither 0 nor the end and the byte left at
      `len` by the move, which is the OLD byte there, is a continuation byte;
      otherwise it yields the slice. */
  function InPlaceBytesAsWritten(bs: seq<Byte>, start: nat, len: nat): (r: Option<seq<Byte>>)
    requires start + len <= |bs|
    ensures r.None? <==> 0 < len < |bs| && IsContinuation(bs[len])
    ensures r.Some? ==> r.value == bs[start..start + len]
  {
    var moved := MoveToFront(bs, start, len);
    assert len < |bs| ==> moved[len] == moved[len..][0] == bs[len];
    Truncate(moved, len)
  }

  /** The trim view of `s` in byte offsets of its encoding: it covers exactly
      the encoding of the trimmed string. */
  function TrimByteSpan(s: string): (b: Span)
    ensures b.start <= b.end <= |Encode(s)|
    ensures Encode(s)[b.start..b.end] == Encode(TrimInPlace(s))
    ensures Trim(s).start == 0 ==> b.start == 0 && Encode(s) == Encode(TrimInPlace(s)) + Encode(s[Trim(s).end..])
  {
    var t := Trim(s);
    EncodeTrimParts(s, t);
    Span(|Encode(s[..t.start])|, |Encode(s[..t.start])| + |Encode(s[t.start..t.end])|)
  }

  /** The encoding splits along the trim view like the string does. */
  lemma EncodeTrimParts(s: string, t: Span)
    requires t == Trim(s)
    ensures Encode(s) == Encode(s[..t.start]) + Encode(TrimInPlace(s)) + Encode(s[t.end..])
    ensures TrimInPlace(s) == s[t.start..t.end]
    ensures t.start == 0 ==> Encode(s[..t.start]) == []
  {
    var pre, mid, post := s[..t.start], s[t.start..t.end], s[t.end..];
    TrimParts(s, t);
    assert TrimInPlace(s) == mid by {
      assert TrimInPlace(s) == InPlace(s, Trim);
    }
    EncodeConcat(pre + mid, post);
    EncodeConcat(pre, mid);
    if t.start == 0 {
      assert pre == [];
    }
  }

  /** `d.in_place(str::trim)` as written, on the bytes of `d`; `None` is the
      panic inside `truncate`. When it does not panic it yields the encoding of
      the trimmed string. */
  function TrimInPlaceBytesAsWritten(s: string): (r: Option<seq<Byte>>)
    ensures r.Some? ==> r.value == Encode(TrimInPlace(s))
  {
    var b := TrimByteSpan(s);
    InPlaceBytesAsWritten(Encode(s), b.start, b.Len())
  }

  /** `d.in_place(str::trim)` with the truncation that was meant: cut the bytes
      to `len` without asking for a character boundary at the stale byte there
      (the moved prefix is whole characters). It always yields the encoding of
      the trimmed string, the string the rest of the model works with. */
  function TrimInPlaceBytes(s: string): (r: seq<Byte>)
    ensures r == Encode(TrimInPlace(s))
  {
    var b := TrimByteSpan(s);
    MoveToFront(Encode(s), b.start, b.Len())[..b.Len()]
  }

  /** Without leading whitespace nothing moves, the byte at `len` starts the
      trailing whitespace, and the code as written agrees with the intended one. */
  lemma TrimInPlaceBytesAsWrittenWithoutLeading(s: string)
    requires Trim(s).start == 0
    ensures TrimInPlaceBytesAsWritten(s) == Some(TrimInPlaceBytes(s))
  {
    var b := TrimByteSpan(s);
    var post := s[Trim(s).end..];
    if |post| > 0 {
      EncodeStartsCharacter(post);
      assert Encode(s)[b.Len()] == Encode(post)[0];
    }
  }

  /** The description `" é"`, bytes `20 C3 A9`: the trim view starts at byte 1
      and is 2 bytes long; the move leaves `C3 A9 A9`, and `truncate(2)` finds
      the continuation byte `A9` at 2 and panics. The intended result is `"é"`.
      The string is a parameter pinned by `requires` for the reason given at
      `ReservedExamples`. */
  lemma TrimInPlaceBytesPanics(s: string)
    requires s == [' ', '\U{E9}']
    ensures Encode(s) == [0x20, 0xC3, 0xA9]
    ensures TrimInPlaceBytesAsWritten(s) == None
    ensures TrimInPlace(s) == ['\U{E9}']
    ensures TrimInPlaceBytes(s) == [0xC3, 0xA9]
  {
    var t := Trim(s);
    assert IsWhitespace(s[0]) && !IsWhitespace(s[1]);
    assert t == Span(1, 2);
    assert Utf8Encode(s[1]) == [0xC3, 0xA9];
    EncodeConcat([s[0]], [s[1]]);
    assert [s[0]] + [s[1]] == s;
    assert Encode(s) == [0x20, 0xC3, 0xA9];
    assert TrimInPlace(s) == s[1..2];
    var b := TrimByteSpan(s);
    assert b == Span(1, 3);
  }
}
