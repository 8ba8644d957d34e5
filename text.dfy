/**
 * The few Python string builtins the scraper relies on: `str.strip()`,
 * `str.split(sep)` (with `sep.join` as its inverse) and the `\d` class of
 * the regular expression that extracts a Douban id.
 */
module Text {

  /** Python's `str.isspace()` for a single character. */
  predicate IsSpace(c: char) {
    c == ' ' || ('\t' <= c <= '\r') || ('\U{1C}' <= c <= '\U{1F}') ||
    c == '\U{85}' || c == '\U{A0}' || c == '\U{1680}' ||
    ('\U{2000}' <= c <= '\U{200A}') || c == '\U{2028}' || c == '\U{2029}' ||
    c == '\U{202F}' || c == '\U{205F}' || c == '\U{3000}'
  }

  predicate AllSpace(s: string) {
    forall k :: 0 <= k < |s| ==> IsSpace(s[k])
  }

  /** ASCII decimal digit. */
  predicate IsDigit(c: char) {
    '0' <= c <= '9'
  }

  predicate AllDigits(s: string) {
    forall k :: 0 <= k < |s| ==> IsDigit(s[k])
  }

  /** Every character of `s[lo..hi]` is whitespace. */
  predicate SpacesBetween(s: string, lo: int, hi: int) {
    forall k :: lo <= k < hi && 0 <= k < |s| ==> IsSpace(s[k])
  }

  /** Where `str.lstrip()` starts: the first non-space index at or after `lo`, or `|s|`. */
  function StripStart(s: string, lo: nat): (b: nat)
    requires lo <= |s|
    ensures lo <= b <= |s| && SpacesBetween(s, lo, b)
    ensures b < |s| ==> !IsSpace(s[b])
    decreases |s| - lo
  {
    if lo < |s| && IsSpace(s[lo]) then StripStart(s, lo + 1) else lo
  }

  /** Where `str.rstrip()` ends: one past the last non-space index below `hi`, or `lo`. */
  function StripEnd(s: string, lo: nat, hi: nat): (e: nat)
    requires lo <= hi <= |s|
    ensures lo <= e <= hi && SpacesBetween(s, e, hi)
    ensures e > lo ==> !IsSpace(s[e - 1])
    decreases hi - lo
  {
    if lo < hi && IsSpace(s[hi - 1]) then StripEnd(s, lo, hi - 1) else hi
  }

  /**
   * Python's `str.strip()`: the result is the part of `s` between an
   * all-whitespace prefix and an all-whitespace suffix, and neither starts
   * nor ends with whitespace.
   */
  function Strip(s: string): (r: string)
    ensures exists i :: StrippedAt(s, r, i)
    ensures r != [] ==> !IsSpace(r[0]) && !IsSpace(r[|r| - 1])
  {
    var b := StripStart(s, 0);
    var e := StripEnd(s, b, |s|);
    StripEnds(s, b, e);
    assert StrippedAt(s, s[b..e], b);
    s[b..e]
  }

  /** `r` is `s` with the all-whitespace prefix `s[..i]` and an all-whitespace suffix cut off. */
  predicate StrippedAt(s: string, r: string, i: int) {
    0 <= i <= |s| - |r| && r == s[i..i + |r|] && AllSpace(s[..i]) && AllSpace(s[i + |r|..])
  }

  /** The slices cut off by `Strip` are all whitespace. */
  lemma StripEnds(s: string, b: nat, e: nat)
    requires b <= e <= |s| && SpacesBetween(s, 0, b) && SpacesBetween(s, e, |s|)
    ensures AllSpace(s[..b]) && AllSpace(s[e..])
  {
    assert forall k :: 0 <= k < b ==> s[..b][k] == s[k];
    assert forall k :: 0 <= k < |s| - e ==> s[e..][k] == s[e + k];
  }

  /** A string that starts and ends with a non-space is its own strip. */
  lemma StripOfStripped(s: string)
    requires s != [] ==> !IsSpace(s[0]) && !IsSpace(s[|s| - 1])
    ensures Strip(s) == s
  {
  }

  /** Stripping twice is stripping once. */
  lemma StripIdempotent(s: string)
    ensures Strip(Strip(s)) == Strip(s)
  {
    StripOfStripped(Strip(s));
  }

  /**
   * Python's `s.split(sep)` for a one-character separator: the pieces
   * between the separators, empty pieces included, at least one piece.
   */
  function Split(s: string, sep: char): (parts: seq<string>)
    ensures |parts| >= 1
    ensures forall k :: 0 <= k < |parts| ==> sep !in parts[k]
    decreases |s|
  {
    if s == [] then [""]
    else
      var rest := Split(s[1..], sep);
      if s[0] == sep then [""] + rest
      else [[s[0]] + rest[0]] + rest[1..]
  }

  /** Python's `sep.join(parts)`. */
  function Join(parts: seq<string>, sep: char): string
  {
    if parts == [] then ""
    else if |parts| == 1 then parts[0]
    else parts[0] + [sep] + Join(parts[1..], sep)
  }

  /** Joining the pieces of a split gives back the original string. */
  lemma {:induction false} JoinSplit(s: string, sep: char)
    ensures Join(Split(s, sep), sep) == s
    decreases |s|
  {
    if s != [] {
      JoinSplit(s[1..], sep);
      var rest := Split(s[1..], sep);
      if s[0] != sep {
        if |rest| > 1 {
          assert rest == [rest[0]] + rest[1..];
        }
      }
    }
  }

  /** Splitting a join of separator-free pieces gives back the pieces. */
  lemma {:induction false} SplitJoin(parts: seq<string>, sep: char)
    requires |parts| >= 1
    requires forall k :: 0 <= k < |parts| ==> sep !in parts[k]
    ensures Split(Join(parts, sep), sep) == parts
    decreases |parts|, |parts[0]|
  {
    if |parts| == 1 {
      SplitSingle(parts[0], sep);
    } else if parts[0] == [] {
      var rest := Join(parts[1..], sep);
      assert Split(rest, sep) == parts[1..] by {
        SplitJoin(parts[1..], sep);
      }
      assert Join(parts, sep) == [sep] + rest;
      SplitCons(sep, rest, sep);
    } else {
      var p := parts[0];
      var parts' := [p[1..]] + parts[1..];
      var rest := Join(parts', sep);
      assert Split(rest, sep) == parts' by {
        forall k | 0 <= k < |parts'| ensures sep !in parts'[k] {
          if k == 0 { assert forall c :: c in p[1..] ==> c in p; }
        }
        SplitJoin(parts', sep);
      }
      assert Join(parts, sep) == [p[0]] + rest by {
        assert parts'[1..] == parts[1..];
      }
      SplitCons(p[0], rest, sep);
      assert [p[0]] + p[1..] == p;
    }
  }

  /** Splitting a string that starts with `c`: a separator opens a new piece, any other character joins the first. */
  lemma SplitCons(c: char, s: string, sep: char)
    ensures var parts := Split(s, sep);
            Split([c] + s, sep) == if c == sep then [""] + parts else [[c] + parts[0]] + parts[1..]
  {
    assert ([c] + s)[1..] == s;
  }

  /** A string without the separator splits into itself alone. */
  lemma {:induction false} SplitSingle(s: string, sep: char)
    requires sep !in s
    ensures Split(s, sep) == [s]
    decreases |s|
  {
    if s != [] {
      assert sep !in s[1..] by { assert forall c :: c in s[1..] ==> c in s; }
      SplitSingle(s[1..], sep);
      assert [s[0]] + s[1..] == s;
    }
  }
}
