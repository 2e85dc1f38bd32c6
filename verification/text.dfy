/** String operations of Rust's `str` that the installer relies on, over
    Dafny strings (`seq<char>`), with the facts about them that the rest of
    the model uses. */
module Text {
  import opened Wrappers

  /** One past the largest `u64`. */
  const U64_LIMIT: nat := 0x1_0000_0000_0000_0000

  predicate StartsWith(s: string, prefix: string)
  {
    |prefix| <= |s| && s[..|prefix|] == prefix
  }

  predicate EndsWith(s: string, suffix: string)
  {
    |suffix| <= |s| && s[|s| - |suffix|..] == suffix
  }

  /** `str::contains`: `pattern` occurs somewhere in `s`. */
  predicate Contains(s: string, pattern: string)
    decreases |s|
  {
    StartsWith(s, pattern) || (|s| > 0 && Contains(s[1..], pattern))
  }

  /** An occurrence at a known offset is an occurrence. */
  lemma {:induction false} ContainsAt(s: string, pattern: string, k: nat)
    requires k <= |s| && StartsWith(s[k..], pattern)
    ensures Contains(s, pattern)
    decreases k
  {
    if k > 0 {
      assert s[1..][k - 1..] == s[k..];
      ContainsAt(s[1..], pattern, k - 1);
    }
  }

  /** Every occurrence sits at some offset. */
  lemma {:induction false} ContainsWitness(s: string, pattern: string) returns (k: nat)
    requires Contains(s, pattern)
    ensures k + |pattern| <= |s| && s[k..k + |pattern|] == pattern
    decreases |s|
  {
    if StartsWith(s, pattern) {
      k := 0;
    } else {
      var j := ContainsWitness(s[1..], pattern);
      k := j + 1;
      assert s[k..k + |pattern|] == s[1..][j..j + |pattern|];
    }
  }

  /** A string without the pattern's first character does not contain
      the pattern. */
  lemma {:induction false} FirstCharAbsent(s: string, pattern: string)
    requires |pattern| > 0 && Free(s, pattern[0])
    ensures !Contains(s, pattern)
    decreases |s|
  {
    if |s| > 0 {
      assert s[0] != pattern[0];
      FirstCharAbsent(s[1..], pattern);
    }
  }

  /** `str::replace(pattern, replacement)`: every non-overlapping occurrence of
      `pattern`, scanning left to right, is replaced. */
  function ReplaceAll(s: string, pattern: string, replacement: string): string
    requires |pattern| > 0
    decreases |s|
  {
    if |s| == 0 then []
    else if StartsWith(s, pattern) then replacement + ReplaceAll(s[|pattern|..], pattern, replacement)
    else [s[0]] + ReplaceAll(s[1..], pattern, replacement)
  }

  /** A string without the pattern is left as it is. */
  lemma {:induction false} ReplaceAllAbsent(s: string, pattern: string, replacement: string)
    requires |pattern| > 0 && !Contains(s, pattern)
    ensures ReplaceAll(s, pattern, replacement) == s
    decreases |s|
  {
    if |s| > 0 {
      ReplaceAllAbsent(s[1..], pattern, replacement);
      assert [s[0]] + s[1..] == s;
    }
  }

  /** A pattern at the front is replaced and the scan resumes after it. */
  lemma ReplaceAllLeading(pattern: string, rest: string, replacement: string)
    requires |pattern| > 0
    ensures ReplaceAll(pattern + rest, pattern, replacement)
         == replacement + ReplaceAll(rest, pattern, replacement)
  {
    assert StartsWith(pattern + rest, pattern);
    assert (pattern + rest)[|pattern|..] == rest;
  }

  /** `str::split(separator)` with a single character: the pieces between
      separators, including empty ones; never an empty list. */
  function Split(s: string, separator: char): (pieces: seq<string>)
    ensures |pieces| >= 1
    decreases |s|
  {
    if s == [] then [[]]
    else
      var rest := Split(s[1..], separator);
      if s[0] == separator then [[]] + rest
      else [[s[0]] + rest[0]] + rest[1..]
  }

  /** `join` with a single-character separator. */
  function Join(pieces: seq<string>, separator: char): string
    decreases |pieces|
  {
    if |pieces| == 0 then []
    else if |pieces| == 1 then pieces[0]
    else pieces[0] + [separator] + Join(pieces[1..], separator)
  }

  predicate Free(s: string, c: char)
  {
    forall i :: 0 <= i < |s| ==> s[i] != c
  }

  /** Joining the pieces of a split gives the string back. */
  lemma {:induction false} JoinSplit(s: string, separator: char)
    ensures Join(Split(s, separator), separator) == s
    decreases |s|
  {
    if s != [] {
      var rest := Split(s[1..], separator);
      JoinSplit(s[1..], separator);
      if s[0] == separator {
        assert Split(s, separator) == [[]] + rest;
        assert ([[]] + rest)[1..] == rest;
        assert Join([[]] + rest, separator) == [] + [separator] + Join(rest, separator);
        assert [separator] + s[1..] == s;
      } else {
        var p := [[s[0]] + rest[0]] + rest[1..];
        assert Split(s, separator) == p;
        if |rest| == 1 {
          assert Join(rest, separator) == rest[0];
          assert [s[0]] + s[1..] == s;
        } else {
          assert p[1..] == rest[1..];
          assert Join(rest, separator) == rest[0] + [separator] + Join(rest[1..], separator);
          assert [s[0]] + s[1..] == s;
        }
      }
    }
  }

  /** No piece of a split holds the separator. */
  lemma {:induction false} SplitPiecesFree(s: string, separator: char)
    ensures forall k :: 0 <= k < |Split(s, separator)| ==> Free(Split(s, separator)[k], separator)
    decreases |s|
  {
    if s != [] {
      SplitPiecesFree(s[1..], separator);
      var rest := Split(s[1..], separator);
      if s[0] != separator {
        var p := [[s[0]] + rest[0]] + rest[1..];
        forall k | 0 <= k < |p| ensures Free(p[k], separator) {
          if k == 0 {
            assert Free(rest[0], separator);
          } else {
            assert p[k] == rest[k];
          }
        }
      }
    }
  }

  /** Splitting the join of separator-free pieces gives the pieces back. */
  lemma {:induction false} SplitJoin(pieces: seq<string>, separator: char)
    requires |pieces| >= 1
    requires forall k :: 0 <= k < |pieces| ==> Free(pieces[k], separator)
    ensures Split(Join(pieces, separator), separator) == pieces
    decreases |pieces|, |pieces[0]|
  {
    if pieces[0] == [] {
      if |pieces| > 1 {
        var tail := pieces[1..];
        SplitJoin(tail, separator);
        var j := Join(pieces, separator);
        assert j == [separator] + Join(tail, separator);
        assert j[1..] == Join(tail, separator);
        assert pieces == [[]] + tail;
      }
    } else {
      var c := pieces[0][0];
      var shorter := [pieces[0][1..]] + pieces[1..];
      assert Free(shorter[0], separator) by {
        forall i | 0 <= i < |shorter[0]| ensures shorter[0][i] != separator {
          assert shorter[0][i] == pieces[0][i + 1];
        }
      }
      forall k | 0 <= k < |shorter| ensures Free(shorter[k], separator) {
        if k > 0 { assert shorter[k] == pieces[k]; }
      }
      SplitJoin(shorter, separator);
      var j := Join(pieces, separator);
      assert shorter[1..] == pieces[1..];
      assert j == [c] + Join(shorter, separator) by {
        if |pieces| == 1 {
          assert j == pieces[0];
          assert Join(shorter, separator) == pieces[0][1..];
        } else {
          assert j == pieces[0] + [separator] + Join(pieces[1..], separator);
          assert Join(shorter, separator) == pieces[0][1..] + [separator] + Join(pieces[1..], separator);
        }
      }
      assert j[0] == c && c != separator;
      assert j[1..] == Join(shorter, separator);
      var rest := Split(j[1..], separator);
      assert rest == shorter;
      assert [c] + rest[0] == pieces[0];
      assert Split(j, separator) == [[c] + rest[0]] + rest[1..];
      assert [[c] + rest[0]] + rest[1..] == pieces;
    }
  }

  /** Rust's `char::is_whitespace`: the Unicode White_Space property. */
  predicate IsWhitespace(c: char)
  {
    c == ' ' || ('\t' <= c <= '\r') || c == '\U{85}' || c == '\U{A0}' || c == '\U{1680}'
    || ('\U{2000}' <= c <= '\U{200A}') || c == '\U{2028}' || c == '\U{2029}'
    || c == '\U{202F}' || c == '\U{205F}' || c == '\U{3000}'
  }

  /** `str::trim_start`. */
  function TrimStart(s: string): (r: string)
    ensures |r| <= |s| && r == s[|s| - |r|..]
    ensures forall i :: 0 <= i < |s| - |r| ==> IsWhitespace(s[i])
    ensures r == [] || !IsWhitespace(r[0])
    decreases |s|
  {
    if |s| > 0 && IsWhitespace(s[0]) then TrimStart(s[1..]) else s
  }

  /** `str::trim_end`. */
  function TrimEnd(s: string): (r: string)
    ensures |r| <= |s| && r == s[..|r|]
    ensures forall i :: |r| <= i < |s| ==> IsWhitespace(s[i])
    ensures r == [] || !IsWhitespace(r[|r| - 1])
    decreases |s|
  {
    if |s| > 0 && IsWhitespace(s[|s| - 1]) then TrimEnd(s[..|s| - 1]) else s
  }

  /** `str::trim`: both ends. */
  function Trim(s: string): string
  {
    TrimEnd(TrimStart(s))
  }

  /** `char::to_ascii_lowercase`. */
  function AsciiLower(c: char): char
  {
    if 'A' <= c <= 'Z' then (c as int + 32) as char else c
  }

  /** `str::to_ascii_lowercase`. */
  function AsciiLowercase(s: string): (r: string)
    ensures |r| == |s|
    ensures forall i :: 0 <= i < |s| ==> r[i] == AsciiLower(s[i])
  {
    seq(|s|, i requires 0 <= i < |s| => AsciiLower(s[i]))
  }

  predicate IsDigit(c: char)
  {
    '0' <= c <= '9'
  }

  predicate AllDigits(s: string)
  {
    forall i :: 0 <= i < |s| ==> IsDigit(s[i])
  }

  /** The value of a string of decimal digits, most significant first. */
  function DigitsValue(ds: string): nat
    requires AllDigits(ds)
    decreases |ds|
  {
    if ds == [] then 0
    else DigitsValue(ds[..|ds| - 1]) * 10 + (ds[|ds| - 1] as int - '0' as int)
  }

  /** `u64::from_str`: an optional `+`, then at least one decimal digit, and a
      value that fits in 64 bits. */
  function ParseU64(s: string): (r: Option<nat>)
    ensures r.Some? ==> r.value < U64_LIMIT
  {
    var ds := if |s| > 0 && s[0] == '+' then s[1..] else s;
    if |ds| == 0 || !AllDigits(ds) then None
    else
      var v := DigitsValue(ds);
      if v < U64_LIMIT then Some(v) else None
  }

  /** The decimal rendering of a natural number (`format!("{}", n)`). */
  function Decimal(n: nat): (r: string)
    decreases n
  {
    if n < 10 then [('0' as int + n) as char]
    else Decimal(n / 10) + [('0' as int + n % 10) as char]
  }

  /** `Decimal` writes only digits, never an empty string, and its digits
      read back as the number. */
  lemma {:induction false} DecimalDigits(n: nat)
    ensures |Decimal(n)| >= 1 && AllDigits(Decimal(n)) && DigitsValue(Decimal(n)) == n
    decreases n
  {
    if n >= 10 {
      DecimalDigits(n / 10);
      var d := Decimal(n);
      assert d[..|d| - 1] == Decimal(n / 10);
    }
  }

  /** Parsing the rendering of any 64-bit value gives the value back. */
  lemma ParseDecimal(n: nat)
    requires n < U64_LIMIT
    ensures ParseU64(Decimal(n)) == Some(n)
  {
    DecimalDigits(n);
  }
}
