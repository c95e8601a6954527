/** Character-sequence operations used by both the PHP and the JavaScript code. */
module Strings {

  predicate StartsWith(s: string, prefix: string) {
    |prefix| <= |s| && s[..|prefix|] == prefix
  }

  /** A URL that already names its scheme, `http://` or `https://`; both relays leave such segment lines unresolved. */
  predicate IsAbsoluteHttp(u: string) {
    StartsWith(u, "http://") || StartsWith(u, "https://")
  }

  predicate EndsWith(s: string, suffix: string) {
    |suffix| <= |s| && s[|s| - |suffix|..] == suffix
  }

  /** `needle` occurs somewhere in `s` (PHP `strpos(...) !== false`, JS `includes`). */
  predicate Contains(s: string, needle: string)
    decreases |s|
  {
    StartsWith(s, needle) || (s != [] && Contains(s[1..], needle))
  }

  lemma {:induction false} EndsWithImpliesContains(s: string, suffix: string)
    requires EndsWith(s, suffix)
    ensures Contains(s, suffix)
    decreases |s|
  {
    if |s| == |suffix| {
      assert s[..|suffix|] == s[|s| - |suffix|..];
    } else {
      assert s[1..][|s[1..]| - |suffix|..] == s[|s| - |suffix|..];
      EndsWithImpliesContains(s[1..], suffix);
    }
  }

  /** The position of the first `c` in `s`, or `|s|` when there is none. */
  function IndexOf(s: string, c: char): (i: nat)
    ensures i <= |s|
    ensures i < |s| ==> s[i] == c
    ensures c !in s[..i]
    ensures i == |s| <==> c !in s
  {
    if s == [] then 0
    else if s[0] == c then 0
    else
      assert s[1..][..IndexOf(s[1..], c)] == s[1..1 + IndexOf(s[1..], c)];
      1 + IndexOf(s[1..], c)
  }

  // ---------------------------------------------------------------------
  // Splitting and joining on a separator character.

  /**
   * Splits `s` at every occurrence of `sep`, as PHP `explode` and JS `split`
   * do for a one-character separator: the empty string gives one empty piece.
   */
  function Split(s: string, sep: char): (r: seq<string>)
    ensures |r| > 0
    decreases |s|
  {
    if s == [] then [""]
    else
      var rest := Split(s[1..], sep);
      if s[0] == sep then [""] + rest
      else [[s[0]] + rest[0]] + rest[1..]
  }

  /** A string without the separator splits into itself alone. */
  lemma {:induction false} SplitWithoutSep(s: string, sep: char)
    requires sep !in s
    ensures Split(s, sep) == [s]
    decreases |s|
  {
    if s != [] {
      SplitWithoutSep(s[1..], sep);
      assert [s[0]] + s[1..] == s;
    }
  }

  /** No piece of a split holds the separator. */
  lemma {:induction false} SplitPieces(s: string, sep: char)
    ensures NoneContains(Split(s, sep), sep)
    decreases |s|
  {
    if s != [] {
      SplitPieces(s[1..], sep);
      var rest := Split(s[1..], sep);
      if s[0] != sep {
        assert sep !in [s[0]] + rest[0];
        var r := [[s[0]] + rest[0]] + rest[1..];
        forall k | 0 <= k < |r| ensures sep !in r[k] {
          if k > 0 { assert r[k] == rest[k]; }
        }
      } else {
        var r := [""] + rest;
        forall k | 0 <= k < |r| ensures sep !in r[k] {
          if k > 0 { assert r[k] == rest[k - 1]; }
        }
      }
    }
  }

  /** Taking one more element of a sequence, and putting a split sequence back together. */
  lemma PrefixStep<T>(s: seq<T>, i: nat)
    requires i < |s|
    ensures s[..i + 1] == s[..i] + [s[i]]
    ensures s[..i + 1] + s[i + 1..] == s
  {
  }

  /** Joins the pieces with `sep` between them (PHP `implode`, JS `join`). */
  function Join(pieces: seq<string>, sep: char): string
    decreases |pieces|
  {
    if pieces == [] then ""
    else if |pieces| == 1 then pieces[0]
    else pieces[0] + [sep] + Join(pieces[1..], sep)
  }

  predicate NoneContains(pieces: seq<string>, sep: char) {
    forall k :: 0 <= k < |pieces| ==> sep !in pieces[k]
  }

  lemma {:induction false} JoinSplit(s: string, sep: char)
    ensures Join(Split(s, sep), sep) == s
    decreases |s|
  {
    if s != [] {
      var rest := Split(s[1..], sep);
      JoinSplit(s[1..], sep);
      if s[0] == sep {
        assert ([""] + rest)[1..] == rest;
      } else {
        var r := [[s[0]] + rest[0]] + rest[1..];
        assert r[1..] == rest[1..];
        if |rest| == 1 {
          assert Join(rest, sep) == rest[0];
        } else {
          assert Join(rest, sep) == rest[0] + [sep] + Join(rest[1..], sep);
        }
      }
    }
  }

  /** Splitting a piece free of `sep` that is followed by more text. */
  lemma {:induction false} SplitPrefix(a: string, t: string, sep: char)
    requires sep !in a
    ensures Split(a + t, sep) == [a + Split(t, sep)[0]] + Split(t, sep)[1..]
    decreases |a|
  {
    if a != [] {
      assert (a + t)[1..] == a[1..] + t;
      SplitPrefix(a[1..], t, sep);
      assert [a[0]] + (a[1..] + Split(t, sep)[0]) == a + Split(t, sep)[0];
    } else {
      var r := Split(t, sep);
      assert a + t == t && a + r[0] == r[0];
      assert [r[0]] + r[1..] == r;
    }
  }

  lemma {:induction false} SplitJoin(pieces: seq<string>, sep: char)
    requires |pieces| > 0
    requires NoneContains(pieces, sep)
    ensures Split(Join(pieces, sep), sep) == pieces
    decreases |pieces|
  {
    if |pieces| == 1 {
      SplitPrefix(pieces[0], "", sep);
      assert pieces[0] + "" == pieces[0];
    } else {
      var tail := [sep] + Join(pieces[1..], sep);
      assert Join(pieces, sep) == pieces[0] + tail;
      SplitPrefix(pieces[0], tail, sep);
      SplitJoin(pieces[1..], sep);
      assert tail[1..] == Join(pieces[1..], sep);
      assert Split(tail, sep) == [""] + pieces[1..];
      assert pieces[0] + "" == pieces[0];
      assert [pieces[0]] + pieces[1..] == pieces;
    }
  }

  /** A text ending in `sep` followed by a piece without `sep` splits into more than one piece, that being the last. */
  lemma {:induction false} SplitEndsWith(a: string, e: string, sep: char)
    requires sep !in e
    ensures var r := Split(a + [sep] + e, sep); |r| > 1 && r[|r| - 1] == e
    decreases |a|
  {
    if a == [] {
      assert ([sep] + e)[1..] == e;
      SplitPrefix(e, "", sep);
      assert e + "" == e;
      assert a + [sep] + e == [sep] + e;
    } else {
      assert (a + [sep] + e)[1..] == a[1..] + [sep] + e;
      SplitEndsWith(a[1..], e, sep);
    }
  }

  /** The text joined from more than one piece ends in `sep` and the last piece. */
  lemma {:induction false} JoinEndsWith(pieces: seq<string>, sep: char)
    requires |pieces| > 1
    ensures EndsWith(Join(pieces, sep), [sep] + pieces[|pieces| - 1])
    decreases |pieces|
  {
    var last := [sep] + pieces[|pieces| - 1];
    if |pieces| == 2 {
      assert Join(pieces[1..], sep) == pieces[1];
      var j := pieces[0] + [sep] + pieces[1];
      assert j[|j| - |last|..] == last;
    } else {
      JoinEndsWith(pieces[1..], sep);
      var t := Join(pieces[1..], sep);
      var j := pieces[0] + [sep] + t;
      assert j[|j| - |last|..] == t[|t| - |last|..];
    }
  }

  /**
   * For a piece `e` without `sep`: a text ends in `sep` then `e` exactly
   * when splitting it on `sep` gives several pieces, the last being `e`.
   */
  lemma LastPiece(s: string, e: string, sep: char)
    requires sep !in e
    ensures EndsWith(s, [sep] + e) <==> |Split(s, sep)| > 1 && Split(s, sep)[|Split(s, sep)| - 1] == e
  {
    if EndsWith(s, [sep] + e) {
      var a := s[..|s| - |e| - 1];
      assert s == a + [sep] + e;
      SplitEndsWith(a, e, sep);
    }
    var r := Split(s, sep);
    if |r| > 1 && r[|r| - 1] == e {
      JoinSplit(s, sep);
      JoinEndsWith(r, sep);
    }
  }

  // ---------------------------------------------------------------------
  // ASCII case folding (PHP 8 `strtolower`).

  function LowerChar(c: char): char {
    if 'A' <= c <= 'Z' then (c as int + 32) as char else c
  }

  function AsciiLower(s: string): (r: string)
    ensures |r| == |s|
  {
    if s == [] then [] else [LowerChar(s[0])] + AsciiLower(s[1..])
  }

  lemma {:induction false} AsciiLowerIdempotent(s: string)
    ensures AsciiLower(AsciiLower(s)) == AsciiLower(s)
  {
    if s != [] {
      AsciiLowerIdempotent(s[1..]);
    }
  }

  // ---------------------------------------------------------------------
  // Trimming, parameterised by the language's notion of whitespace.

  function TrimStart(s: string, ws: char -> bool): (r: string)
    ensures |r| <= |s| && r == s[|s| - |r|..]
    ensures r == [] || !ws(r[0])
    ensures forall k :: 0 <= k < |s| - |r| ==> ws(s[k])
    decreases |s|
  {
    if s != [] && ws(s[0]) then
      var r := TrimStart(s[1..], ws);
      forall k | 1 <= k < |s| - |r| ensures ws(s[k]) {
        assert s[k] == s[1..][k - 1];
      }
      r
    else s
  }

  function TrimEnd(s: string, ws: char -> bool): (r: string)
    ensures |r| <= |s| && r == s[..|r|]
    ensures r == [] || !ws(r[|r| - 1])
    ensures forall k :: |r| <= k < |s| ==> ws(s[k])
    decreases |s|
  {
    if s != [] && ws(s[|s| - 1]) then TrimEnd(s[..|s| - 1], ws) else s
  }

  /** Removes leading and trailing whitespace; nothing inside is touched. */
  function Trim(s: string, ws: char -> bool): string {
    TrimEnd(TrimStart(s, ws), ws)
  }

  /** A string with no whitespace at either end is its own trimmed form. */
  lemma TrimUntouched(s: string, ws: char -> bool)
    requires s == [] || (!ws(s[0]) && !ws(s[|s| - 1]))
    ensures Trim(s, ws) == s
  {
  }

  // ---------------------------------------------------------------------
  // Decimal rendering of a natural number (PHP string interpolation of an int).

  function DigitChar(d: nat): char
    requires d < 10
  {
    (48 + d) as char
  }

  function DecimalString(n: nat): (r: string)
    ensures |r| > 0
    ensures forall k :: 0 <= k < |r| ==> '0' <= r[k] <= '9'
  {
    if n < 10 then [DigitChar(n)] else DecimalString(n / 10) + [DigitChar(n % 10)]
  }
}
