/**
 * The parts of Rust's `str` and integer semantics that the firmware relies on.
 *
 * A Rust `&str` is modelled as a Dafny `string` (a sequence of Unicode scalar
 * values). Rust measures strings in UTF-8 bytes; `Utf8Len` gives that length.
 */
module Rust {

  type byte = b: int | 0 <= b < 256

  /** Number of bytes the UTF-8 encoding of `c` occupies. */
  function CharLen(c: char): nat {
    var n := c as int;
    if n < 0x80 then 1 else if n < 0x800 then 2 else if n < 0x10000 then 3 else 4
  }

  /** `str::len`: the length of `s` in UTF-8 bytes. */
  function Utf8Len(s: string): (n: nat)
    ensures n >= |s|
    ensures (forall i :: 0 <= i < |s| ==> s[i] as int < 0x80) ==> n == |s|
  {
    if s == [] then 0 else CharLen(s[0]) + Utf8Len(s[1..])
  }

  lemma {:induction false} Utf8LenAppend(a: string, b: string)
    ensures Utf8Len(a + b) == Utf8Len(a) + Utf8Len(b)
  {
    if a != [] {
      assert (a + b)[0] == a[0];
      assert (a + b)[1..] == a[1..] + b;
      Utf8LenAppend(a[1..], b);
    } else {
      assert a + b == b;
    }
  }

  /** `char::is_whitespace`: the Unicode White_Space property. */
  predicate IsWhitespace(c: char) {
    var n := c as int;
    n == 0x20 || 0x09 <= n <= 0x0D || n == 0x85 || n == 0xA0 || n == 0x1680
    || 0x2000 <= n <= 0x200A || n == 0x2028 || n == 0x2029 || n == 0x202F
    || n == 0x205F || n == 0x3000
  }

  /** Number of whitespace characters at the front of `s`. */
  function LeadingWhitespace(s: string): (k: nat)
    ensures k <= |s|
    ensures k < |s| ==> !IsWhitespace(s[k])
  {
    if s == [] || !IsWhitespace(s[0]) then 0 else 1 + LeadingWhitespace(s[1..])
  }

  /** Everything `LeadingWhitespace` skips is whitespace. */
  lemma {:induction false} LeadingWhitespaceIsWhitespace(s: string)
    ensures forall j :: 0 <= j < LeadingWhitespace(s) ==> IsWhitespace(s[j])
  {
    if s != [] && IsWhitespace(s[0]) {
      LeadingWhitespaceIsWhitespace(s[1..]);
      forall j | 1 <= j < LeadingWhitespace(s) ensures IsWhitespace(s[j]) {
        assert s[j] == s[1..][j - 1];
      }
    }
  }

  /** Number of whitespace characters at the back of `s`. */
  function TrailingWhitespace(s: string): (k: nat)
    ensures k <= |s|
    ensures k < |s| ==> !IsWhitespace(s[|s| - k - 1])
  {
    if s == [] || !IsWhitespace(s[|s| - 1]) then 0 else 1 + TrailingWhitespace(s[..|s| - 1])
  }

  /** Everything `TrailingWhitespace` skips is whitespace. */
  lemma {:induction false} TrailingWhitespaceIsWhitespace(s: string)
    ensures forall j :: |s| - TrailingWhitespace(s) <= j < |s| ==> IsWhitespace(s[j])
  {
    if s != [] && IsWhitespace(s[|s| - 1]) {
      var init := s[..|s| - 1];
      TrailingWhitespaceIsWhitespace(init);
      forall j | |s| - TrailingWhitespace(s) <= j < |s| - 1 ensures IsWhitespace(s[j]) {
        assert s[j] == init[j];
      }
    }
  }

  /** `str::trim`: `s` without its leading and trailing whitespace. */
  function Trim(s: string): (r: string)
    ensures r == [] || (!IsWhitespace(r[0]) && !IsWhitespace(r[|r| - 1]))
    ensures (s == [] || (!IsWhitespace(s[0]) && !IsWhitespace(s[|s| - 1]))) ==> r == s
  {
    var front := s[LeadingWhitespace(s)..];
    front[..|front| - TrailingWhitespace(front)]
  }

  /** Trimming leaves nothing exactly when the text is all whitespace. */
  lemma TrimIsEmptyIffBlank(s: string)
    ensures Trim(s) == [] <==> forall j :: 0 <= j < |s| ==> IsWhitespace(s[j])
  {
    var a := LeadingWhitespace(s);
    var front := s[a..];
    LeadingWhitespaceIsWhitespace(s);
    if a < |s| {
      assert front[0] == s[a] && !IsWhitespace(front[0]);
      TrailingWhitespaceIsWhitespace(front);
      assert TrailingWhitespace(front) < |front|;
    }
  }

  /** `Trim(s)` is the slice of `s` that starts after its leading whitespace. */
  lemma TrimSliceAt(s: string)
    ensures SliceAt(s, LeadingWhitespace(s), Trim(s))
  {
    var a := LeadingWhitespace(s);
    var front := s[a..];
    var n := |front| - TrailingWhitespace(front);
    assert Trim(s) == front[..n];
    assert front[..n] == s[a..a + n];
  }

  /** Trimming a suffix of `s` leaves a slice of `s`. */
  lemma TrimmedSuffixSliceAt(s: string, off: nat)
    requires off <= |s|
    ensures SliceAt(s, off + LeadingWhitespace(s[off..]), Trim(s[off..]))
  {
    TrimSliceAt(s[off..]);
    SliceOfSuffix(s, off, LeadingWhitespace(s[off..]), Trim(s[off..]));
  }

  /** `char::to_ascii_lowercase`. */
  function AsciiLower(c: char): char {
    if 'A' <= c <= 'Z' then (c as int + 32) as char else c
  }

  /**
   * `str::eq_ignore_ascii_case`. Rust compares the UTF-8 bytes after ASCII
   * lower-casing; since ASCII lower-casing leaves every non-ASCII byte alone
   * and UTF-8 is injective, comparing characters is the same thing.
   */
  predicate EqIgnoreAsciiCase(a: string, b: string) {
    |a| == |b| && forall i :: 0 <= i < |a| ==> AsciiLower(a[i]) == AsciiLower(b[i])
  }

  /** Position of the first occurrence of `c` in `s` (`str::find` on a char). */
  function IndexOf(s: string, c: char): (i: nat)
    requires c in s
    ensures i < |s| && s[i] == c
    ensures forall j :: 0 <= j < i ==> s[j] != c
  {
    FirstIndexFrom(s, c, 0)
  }

  /** The search behind `IndexOf`, started at position `from`. */
  function FirstIndexFrom(s: string, c: char, from: nat): (i: nat)
    requires from <= |s| && c in s[from..]
    ensures from <= i < |s| && s[i] == c
    ensures forall j :: from <= j < i ==> s[j] != c
    decreases |s| - from
  {
    if s[from] == c then from else FirstIndexFrom(s, c, from + 1)
  }

  /** The first occurrence is determined by the text in front of it. */
  lemma IndexOfAfterPrefix(a: string, c: char, b: string)
    requires c !in a
    ensures IndexOf(a + [c] + b, c) == |a|
  {
    var s := a + [c] + b;
    assert s[|a|] == c;
  }

  /** `str::split` on a char: the pieces between separators, always at least one. */
  function Split(s: string, sep: char): (parts: seq<string>)
    ensures |parts| >= 1
  {
    if s == [] then [[]]
    else
      var rest := Split(s[1..], sep);
      if s[0] == sep then [[]] + rest else [[s[0]] + rest[0]] + rest[1..]
  }

  /** Text without the separator is a single piece. */
  lemma {:induction false} SplitWithoutSeparator(s: string, sep: char)
    requires sep !in s
    ensures Split(s, sep) == [s]
  {
    if s != [] {
      SplitWithoutSeparator(s[1..], sep);
      assert [s[0]] + s[1..] == s;
    }
  }

  /** The pieces put back together with `sep` between them (`join`). */
  function Join(parts: seq<string>, sep: char): string
    requires |parts| >= 1
  {
    if |parts| == 1 then parts[0] else parts[0] + [sep] + Join(parts[1..], sep)
  }

  /** Splitting loses nothing: the pieces hold no separator and join back to the input. */
  lemma {:induction false} SplitJoin(s: string, sep: char)
    ensures Join(Split(s, sep), sep) == s
    ensures forall k :: 0 <= k < |Split(s, sep)| ==> sep !in Split(s, sep)[k]
  {
    if s != [] {
      var rest := Split(s[1..], sep);
      SplitJoin(s[1..], sep);
      var parts := Split(s, sep);
      if s[0] == sep {
        assert parts[1..] == rest;
        assert Join(parts, sep) == [] + [sep] + Join(rest, sep);
        assert [sep] + s[1..] == s;
        forall k | 1 <= k < |parts| ensures sep !in parts[k] {
          assert parts[k] == rest[k - 1];
        }
      } else {
        if |rest| == 1 {
          assert Join(parts, sep) == [s[0]] + rest[0];
        } else {
          assert parts[1..] == rest[1..];
          assert Join(rest, sep) == rest[0] + [sep] + Join(rest[1..], sep);
          assert Join(parts, sep) == [s[0]] + Join(rest, sep);
        }
        assert [s[0]] + s[1..] == s;
        forall k | 1 <= k < |parts| ensures sep !in parts[k] {
          assert parts[k] == rest[k];
        }
        assert parts[0] == [s[0]] + rest[0];
      }
    }
  }

  /** Text up to the first separator is the first piece; the rest is split on its own. */
  lemma {:induction false} SplitCons(a: string, sep: char, b: string)
    requires sep !in a
    ensures Split(a + [sep] + b, sep) == [a] + Split(b, sep)
  {
    var s := a + [sep] + b;
    if a == [] {
      assert s[1..] == b;
    } else {
      assert s[1..] == a[1..] + [sep] + b;
      SplitCons(a[1..], sep, b);
      assert [s[0]] + a[1..] == a;
    }
  }

  /** `part` occurs in `s` starting at `start`. */
  predicate SliceAt(s: string, start: nat, part: string) {
    start + |part| <= |s| && s[start..start + |part|] == part
  }

  lemma SliceOfSuffix(s: string, off: nat, inner: nat, part: string)
    requires off <= |s| && SliceAt(s[off..], inner, part)
    ensures SliceAt(s, off + inner, part)
  {
    assert s[off..][inner..inner + |part|] == s[off + inner..off + inner + |part|];
  }

  /** A slice of a slice is a slice, at the sum of the offsets. */
  lemma SliceAtTrans(a: string, p: nat, b: string, q: nat, c: string)
    requires SliceAt(a, p, b) && SliceAt(b, q, c)
    ensures SliceAt(a, p + q, c)
  {
    forall i | 0 <= i < |c| ensures a[p + q + i] == c[i] {
      assert a[p + q + i] == a[p..p + |b|][q + i] == b[q + i];
      assert b[q + i] == b[q..q + |c|][i];
    }
    assert a[p + q..p + q + |c|] == c;
  }

  /** Every piece `Split` returns is a slice of its input: `start` says where it begins, and the first piece begins at 0. */
  lemma {:induction false} SplitPartIsSlice(s: string, sep: char, k: nat) returns (start: nat)
    requires k < |Split(s, sep)|
    ensures SliceAt(s, start, Split(s, sep)[k])
    ensures k == 0 ==> start == 0
  {
    if s == [] {
      start := 0;
    } else {
      var rest := Split(s[1..], sep);
      if s[0] == sep && k == 0 {
        start := 0;
      } else if s[0] == sep {
        assert Split(s, sep)[k] == rest[k - 1];
        var inner := SplitPartIsSlice(s[1..], sep, k - 1);
        SliceOfSuffix(s, 1, inner, rest[k - 1]);
        start := 1 + inner;
      } else if k == 0 {
        assert Split(s, sep)[0] == [s[0]] + rest[0];
        var inner := SplitPartIsSlice(s[1..], sep, 0);
        assert s[..1 + |rest[0]|] == [s[0]] + s[1..][..|rest[0]|];
        start := 0;
      } else {
        assert Split(s, sep)[k] == rest[k];
        var inner := SplitPartIsSlice(s[1..], sep, k);
        SliceOfSuffix(s, 1, inner, rest[k]);
        start := 1 + inner;
      }
    }
  }
}
