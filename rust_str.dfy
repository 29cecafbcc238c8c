/**
 * The few pieces of Rust's standard library that the reaper's decision logic
 * leans on: fixed-width integers, Option and Result, `str::split_whitespace`,
 * `str::parse::<i32>` and the `u32 as i32` cast.
 */
module RustStr {

  /** Rust's `i32`, the width of a `pid_t`. */
  type Int32 = x: int | -0x8000_0000 <= x < 0x8000_0000

  /** Rust's `u32`, the type of `std::process::Child::id`. */
  type UInt32 = x: int | 0 <= x < 0x1_0000_0000

  datatype Option<+T> = None | Some(value: T)

  datatype Result<+T, +E> = Ok(value: T) | Err(error: E)

  /** An `std::io::Error`; only its identity matters here. */
  datatype IoError = IoError(code: int)

  /** `id as i32` for a `u32`: the two's-complement reinterpretation. */
  function AsInt32(u: UInt32): Int32 {
    if u < 0x8000_0000 then u else u - 0x1_0000_0000
  }

  /**
   * The cast keeps the value modulo 2^32, so it loses nothing: ids below
   * 2^31 are kept as they are, and different ids stay different.
   */
  lemma AsInt32Wraps(u: UInt32, v: UInt32)
    ensures AsInt32(u) % 0x1_0000_0000 == u
    ensures AsInt32(u) == u <==> u < 0x8000_0000
    ensures AsInt32(u) == AsInt32(v) ==> u == v
  {
  }

  // ---------------------------------------------------------------------
  // split_whitespace

  /** Unicode White_Space, the set Rust's `char::is_whitespace` tests. */
  predicate IsWhitespace(c: char) {
    ('\t' <= c <= '\r') || c == ' ' || c == '\U{85}' || c == '\U{A0}' || c == '\U{1680}'
    || ('\U{2000}' <= c <= '\U{200A}') || c == '\U{2028}' || c == '\U{2029}'
    || c == '\U{202F}' || c == '\U{205F}' || c == '\U{3000}'
  }

  /** A non-empty run of non-whitespace characters. */
  predicate IsWord(w: string) {
    w != [] && forall i :: 0 <= i < |w| ==> !IsWhitespace(w[i])
  }

  /** Length of the longest whitespace-free prefix of `s`. */
  function WordLen(s: string): (n: nat)
    ensures n <= |s|
    ensures forall i :: 0 <= i < n ==> !IsWhitespace(s[i])
    ensures n < |s| ==> IsWhitespace(s[n])
  {
    if s == [] || IsWhitespace(s[0]) then 0 else 1 + WordLen(s[1..])
  }

  /** The characters of `s` that are not whitespace, in order. */
  function DropWhitespace(s: string): string {
    if s == [] then []
    else if IsWhitespace(s[0]) then DropWhitespace(s[1..])
    else [s[0]] + DropWhitespace(s[1..])
  }

  function Concat(words: seq<string>): string {
    if words == [] then [] else words[0] + Concat(words[1..])
  }

  lemma {:induction false} DropWhitespaceAppend(a: string, b: string)
    ensures DropWhitespace(a + b) == DropWhitespace(a) + DropWhitespace(b)
  {
    if a == [] {
      assert a + b == b;
    } else {
      assert (a + b)[0] == a[0];
      assert (a + b)[1..] == a[1..] + b;
      DropWhitespaceAppend(a[1..], b);
    }
  }

  lemma {:induction false} DropWhitespaceOfWord(w: string)
    requires forall i :: 0 <= i < |w| ==> !IsWhitespace(w[i])
    ensures DropWhitespace(w) == w
  {
    if w != [] {
      assert forall i :: 0 <= i < |w[1..]| ==> w[1..][i] == w[i + 1];
      DropWhitespaceOfWord(w[1..]);
    }
  }

  /** `s.split_whitespace()` collected into a sequence. */
  function SplitWhitespace(s: string): (words: seq<string>)
    ensures forall i :: 0 <= i < |words| ==> IsWord(words[i])
    decreases |s|
  {
    if s == [] then []
    else if IsWhitespace(s[0]) then SplitWhitespace(s[1..])
    else
      var n := WordLen(s);
      [s[..n]] + SplitWhitespace(s[n..])
  }

  /** The words together are exactly the non-whitespace characters of `s`, in order. */
  lemma {:induction false} SplitKeepsText(s: string)
    ensures Concat(SplitWhitespace(s)) == DropWhitespace(s)
    decreases |s|
  {
    if s == [] {
    } else if IsWhitespace(s[0]) {
      SplitKeepsText(s[1..]);
    } else {
      var n := WordLen(s);
      var rest := SplitWhitespace(s[n..]);
      SplitKeepsText(s[n..]);
      assert s == s[..n] + s[n..];
      assert forall i :: 0 <= i < n ==> s[..n][i] == s[i];
      DropWhitespaceAppend(s[..n], s[n..]);
      DropWhitespaceOfWord(s[..n]);
      assert ([s[..n]] + rest)[1..] == rest;
    }
  }

  /** Whitespace after the last word, such as a line's final newline, yields no word. */
  lemma {:induction false} SplitTrailingBlank(s: string, t: string)
    requires forall i :: 0 <= i < |t| ==> IsWhitespace(t[i])
    ensures SplitWhitespace(s + t) == SplitWhitespace(s)
    decreases |s|
  {
    if s == [] {
      assert s + t == t;
      AllBlankSplitsToNothing(t);
    } else if IsWhitespace(s[0]) {
      assert (s + t)[0] == s[0];
      assert (s + t)[1..] == s[1..] + t;
      SplitTrailingBlank(s[1..], t);
    } else {
      assert (s + t)[0] == s[0];
      var n := WordLen(s);
      WordLenAppend(s, t);
      assert (s + t)[..n] == s[..n];
      assert (s + t)[n..] == s[n..] + t;
      SplitTrailingBlank(s[n..], t);
    }
  }

  lemma {:induction false} AllBlankSplitsToNothing(t: string)
    requires forall i :: 0 <= i < |t| ==> IsWhitespace(t[i])
    ensures SplitWhitespace(t) == []
    decreases |t|
  {
    if t != [] {
      AllBlankSplitsToNothing(t[1..]);
    }
  }

  lemma {:induction false} WordLenAppend(s: string, t: string)
    requires t == [] || IsWhitespace(t[0])
    ensures WordLen(s + t) == WordLen(s)
    decreases |s|
  {
    if s == [] {
      assert s + t == t;
    } else {
      assert (s + t)[0] == s[0];
      assert (s + t)[1..] == s[1..] + t;
      WordLenAppend(s[1..], t);
    }
  }

  /** Words separated by single spaces: the shape of a /proc stat line. */
  function JoinSpaced(words: seq<string>): string {
    if words == [] then []
    else if |words| == 1 then words[0]
    else words[0] + " " + JoinSpaced(words[1..])
  }

  lemma {:induction false} WordLenOfWord(w: string, rest: string)
    requires IsWord(w)
    requires rest == [] || IsWhitespace(rest[0])
    ensures WordLen(w + rest) == |w|
    decreases |w|
  {
    if |w| > 1 {
      assert (w + rest)[1..] == w[1..] + rest;
      assert forall i :: 0 <= i < |w[1..]| ==> w[1..][i] == w[i + 1];
      WordLenOfWord(w[1..], rest);
    } else {
      assert (w + rest)[1..] == rest;
    }
  }

  /** Splitting undoes joining with single spaces. */
  lemma {:induction false} SplitJoin(words: seq<string>)
    requires forall i :: 0 <= i < |words| ==> IsWord(words[i])
    ensures SplitWhitespace(JoinSpaced(words)) == words
  {
    if words == [] {
    } else {
      var w := words[0];
      var rest := if |words| == 1 then [] else " " + JoinSpaced(words[1..]);
      assert JoinSpaced(words) == w + rest;
      assert w[0] in w;
      WordLenOfWord(w, rest);
      assert (w + rest)[..|w|] == w;
      assert (w + rest)[|w|..] == rest;
      if |words| > 1 {
        assert rest[1..] == JoinSpaced(words[1..]);
        SplitJoin(words[1..]);
      }
    }
  }

  // ---------------------------------------------------------------------
  // str::parse::<i32>

  predicate IsDigit(c: char) { '0' <= c <= '9' }

  predicate AllDigits(s: string) { forall i :: 0 <= i < |s| ==> IsDigit(s[i]) }

  /** The value of a string of decimal digits, most significant first. */
  function DigitsValue(ds: string): nat
    requires AllDigits(ds)
  {
    if ds == [] then 0
    else DigitsValue(ds[..|ds| - 1]) * 10 + (ds[|ds| - 1] as int - '0' as int)
  }

  /**
   * `str::parse::<i32>` as Rust's `from_str_radix` does it: an optional
   * leading `+` or `-` (but not alone), then one or more ASCII digits, and
   * a value that fits 32 bits; anything else is an error.
   */
  function ParseInt32(s: string): (r: Option<Int32>)
    ensures r.Some? ==> s != [] && (IsDigit(s[0]) || s[0] == '+' || s[0] == '-')
    ensures r.Some? ==> forall i :: 1 <= i < |s| ==> IsDigit(s[i])
    ensures r.Some? && r.value < 0 ==> s[0] == '-'
  {
    if s == [] then None
    else if (s[0] == '+' || s[0] == '-') && |s| == 1 then None
    else
      var signed := s[0] == '+' || s[0] == '-';
      var digits := if signed then s[1..] else s;
      if !AllDigits(digits) then None
      else
        var magnitude: int := DigitsValue(digits);
        var v := if s[0] == '-' then -magnitude else magnitude;
        if -0x8000_0000 <= v < 0x8000_0000 then Some(v) else None
  }

  function DigitChar(d: nat): (c: char)
    requires d < 10
    ensures IsDigit(c) && c as int - '0' as int == d
  {
    ('0' as int + d) as char
  }

  /** Decimal rendering of a natural number, without leading zeros. */
  function ShowNat(n: nat): (s: string)
    ensures s != [] && AllDigits(s)
  {
    if n < 10 then [DigitChar(n)] else ShowNat(n / 10) + [DigitChar(n % 10)]
  }

  /** Decimal rendering of an `i32`, as `format!("{}", n)` writes it. */
  function ShowInt32(n: Int32): (s: string)
    ensures s != []
  {
    if n < 0 then "-" + ShowNat(-(n as int)) else ShowNat(n)
  }

  lemma {:induction false} ValueOfShowNat(n: nat)
    ensures DigitsValue(ShowNat(n)) == n
  {
    if n >= 10 {
      var s := ShowNat(n);
      assert s[..|s| - 1] == ShowNat(n / 10);
      ValueOfShowNat(n / 10);
    }
  }

  /** Parsing reads back every number that ShowInt32 writes. */
  lemma ParseShow(n: Int32)
    ensures ParseInt32(ShowInt32(n)) == Some(n)
  {
    var s := ShowInt32(n);
    if n < 0 {
      var m: nat := -(n as int);
      var digits := ShowNat(m);
      assert s == "-" + digits;
      assert s[0] == '-' && |s| > 1;
      assert s[1..] == digits;
      ValueOfShowNat(m);
      assert DigitsValue(digits) == m;
    } else {
      var digits := ShowNat(n);
      assert s == digits;
      assert IsDigit(s[0]);
      ValueOfShowNat(n);
    }
  }
}
