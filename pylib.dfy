/** The pieces of Python's built-in semantics that the modelled code relies on: slice and index
    normalisation, `str.split`, `str.join`, `str.rpartition`, character replacement, ASCII case
    mapping with `str.title`, and the decimal rendering and parsing of integers. */
module Py {
  import opened Wrappers

  // ---------------------------------------------------------------------------------------------
  // Slicing and indexing

  /** Python's normalisation of one slice bound `i` against a sequence of length `n`: a negative
      bound counts from the end, and the result is clamped to `0..n`. */
  function SliceBound(i: int, n: nat): (b: nat)
    ensures b <= n
  {
    if i < 0 then (if i + n < 0 then 0 else i + n)
    else if i > n then n
    else i
  }

  /** `s[a:b]` */
  function Slice<T>(s: seq<T>, a: int, b: int): (r: seq<T>)
    ensures |r| <= |s|
  {
    var lo, hi := SliceBound(a, |s|), SliceBound(b, |s|);
    if lo < hi then s[lo..hi] else []
  }

  /** `s[a:b]` for bounds already inside the sequence is Dafny's `s[a..b]`; an empty range gives []. */
  lemma SliceInRange<T>(s: seq<T>, a: int, b: int)
    requires 0 <= a <= |s| && 0 <= b <= |s|
    ensures Slice(s, a, b) == if a <= b then s[a..b] else []
  {
  }

  /** `s[:k]` keeps the first `k` elements for `0 <= k`, and drops the last `-k` for `k < 0`. */
  lemma PrefixSlice<T>(s: seq<T>, k: int)
    ensures 0 <= k ==> Slice(s, 0, k) == s[..if k <= |s| then k else |s|]
    ensures k < 0 ==> Slice(s, 0, k) == s[..if -k <= |s| then |s| + k else 0]
  {
  }

  /** `s[i]`: a negative index counts from the end; anything else out of range is an IndexError. */
  function Index<T>(s: seq<T>, i: int): (r: Result<T>)
    ensures r.Ok? <==> -|s| <= i < |s|
    ensures r.Ok? && 0 <= i ==> r.value == s[i]
    ensures r.Ok? && i < 0 ==> r.value == s[|s| + i]
    ensures r.Err? ==> r.error == IndexError
  {
    if 0 <= i < |s| then Ok(s[i])
    else if -|s| <= i < 0 then Ok(s[|s| + i])
    else Err(IndexError)
  }

  // ---------------------------------------------------------------------------------------------
  // str.split, str.join, str.rpartition

  /** `s.split(sep)` for a one-character separator: never empty, and an empty piece stands
      between two adjacent separators or at an end. */
  function Split(s: string, sep: char): (parts: seq<string>)
    ensures |parts| >= 1
  {
    if s == [] then [""]
    else
      var rest := Split(s[1..], sep);
      if s[0] == sep then [""] + rest else [[s[0]] + rest[0]] + rest[1..]
  }

  /** `sep.join(parts)` */
  function Join(parts: seq<string>, sep: string): string {
    if parts == [] then ""
    else if |parts| == 1 then parts[0]
    else parts[0] + sep + Join(parts[1..], sep)
  }

  /** Splitting and joining again on the same separator gives the string back, and no piece
      contains the separator. */
  lemma {:induction false} JoinSplit(s: string, sep: char)
    ensures Join(Split(s, sep), [sep]) == s
    ensures forall i :: 0 <= i < |Split(s, sep)| ==> sep !in Split(s, sep)[i]
  {
    if s != [] {
      JoinSplit(s[1..], sep);
      var rest := Split(s[1..], sep);
      if s[0] == sep {
        assert Split(s, sep) == [""] + rest;
        assert Join([""] + rest, [sep]) == "" + [sep] + Join(rest, [sep]);
      } else {
        assert Split(s, sep) == [[s[0]] + rest[0]] + rest[1..];
        if |rest| == 1 {
          assert Join(Split(s, sep), [sep]) == [s[0]] + rest[0];
        } else {
          assert Join(rest, [sep]) == rest[0] + [sep] + Join(rest[1..], [sep]);
          assert Join(Split(s, sep), [sep]) == [s[0]] + rest[0] + [sep] + Join(rest[1..], [sep]);
        }
      }
      forall i | 0 <= i < |Split(s, sep)| ensures sep !in Split(s, sep)[i] {
        if s[0] != sep && i == 0 {
          assert Split(s, sep)[0] == [s[0]] + rest[0];
        } else if s[0] != sep {
          assert Split(s, sep)[i] == rest[i];
        } else if i > 0 {
          assert Split(s, sep)[i] == rest[i - 1];
        }
      }
    }
  }

  /** A string without the separator is a single piece. */
  lemma {:induction false} SplitWithout(s: string, sep: char)
    requires sep !in s
    ensures Split(s, sep) == [s]
  {
    if s != [] {
      SplitWithout(s[1..], sep);
      assert s[0] != sep;
      assert [s[0]] + s[1..] == s;
    }
  }

  /** Splitting `pre + [sep] + post`, where `post` holds no separator, gives the pieces of `pre`
      followed by `post`. */
  lemma {:induction false} SplitAppend(pre: string, sep: char, post: string)
    requires sep !in post
    ensures Split(pre + [sep] + post, sep) == Split(pre, sep) + [post]
  {
    if pre == [] {
      SplitWithout(post, sep);
      assert ([] + [sep] + post)[1..] == post;
    } else {
      SplitAppend(pre[1..], sep, post);
      assert (pre + [sep] + post)[1..] == pre[1..] + [sep] + post;
    }
  }

  /** `s.split(sep)` has more than one piece exactly when `s` holds the separator. */
  lemma SplitPieces(s: string, sep: char)
    ensures |Split(s, sep)| > 1 <==> sep in s
  {
    if sep in s {
      var r := RPartition(s, sep);
      SplitAppend(r.0, sep, r.1);
    } else {
      SplitWithout(s, sep);
    }
  }

  /** The position of the last `c` in `s`, if any. */
  function LastIndex(s: string, c: char): (r: Option<nat>)
    ensures r.Some? ==> r.value < |s| && s[r.value] == c && c !in s[r.value + 1..]
    ensures r.None? ==> c !in s
  {
    if s == [] then None
    else if s[|s| - 1] == c then Some(|s| - 1)
    else
      var r := LastIndex(s[..|s| - 1], c);
      assert r.Some? ==> s[r.value + 1..] == s[..|s| - 1][r.value + 1..] + [s[|s| - 1]];
      r
  }

  /** `pre, _, post = s.rpartition(c)`: around the last `c`, or `("", s)` when there is none. */
  function RPartition(s: string, c: char): (r: (string, string))
    ensures c !in r.1
    ensures c in s ==> s == r.0 + [c] + r.1
    ensures c !in s ==> r == ("", s)
  {
    match LastIndex(s, c)
    case Some(i) =>
      assert s == s[..i] + [c] + s[i + 1..];
      (s[..i], s[i + 1..])
    case None => ("", s)
  }

  /** The last `c` of `pre + [c] + post` is the one before `post` when `post` has none. */
  lemma RPartitionLast(pre: string, c: char, post: string)
    requires c !in post
    ensures RPartition(pre + [c] + post, c) == (pre, post)
  {
    var s := pre + [c] + post;
    assert s[|pre|] == c;
    var r := RPartition(s, c);
    assert |r.1| == |post|;
    assert r.1 == s[|s| - |post|..] == post;
    assert r.0 == s[..|pre|] == pre;
  }

  // ---------------------------------------------------------------------------------------------
  // Characters and case (ASCII only)

  predicate IsUpper(c: char) { 'A' <= c <= 'Z' }
  predicate IsLower(c: char) { 'a' <= c <= 'z' }
  predicate IsCased(c: char) { IsUpper(c) || IsLower(c) }

  function Lower(c: char): (r: char)
    ensures !IsUpper(r)
    ensures IsCased(c) <==> IsCased(r)
    ensures !IsCased(c) ==> r == c
  {
    if IsUpper(c) then (c as int + 32) as char else c
  }

  function Upper(c: char): (r: char)
    ensures !IsLower(r)
    ensures IsCased(c) <==> IsCased(r)
    ensures !IsCased(c) ==> r == c
  {
    if IsLower(c) then (c as int - 32) as char else c
  }

  /** `s.replace(a, b)` for single characters. */
  function ReplaceChar(s: string, a: char, b: char): (r: string)
    ensures |r| == |s|
    ensures forall i :: 0 <= i < |s| ==> r[i] == if s[i] == a then b else s[i]
  {
    if s == [] then [] else [if s[0] == a then b else s[0]] + ReplaceChar(s[1..], a, b)
  }

  /** `s.replace(c, "")` */
  function RemoveChar(s: string, c: char): (r: string)
    ensures c !in r
    ensures forall x :: x in r <==> x in s && x != c
    ensures |r| == 0 <==> forall i :: 0 <= i < |s| ==> s[i] == c
  {
    if s == [] then [] else (if s[0] == c then [] else [s[0]]) + RemoveChar(s[1..], c)
  }

  /** `s.title()` continuing after a character that was (`prevCased`) or was not a letter: a letter
      that follows a letter is lower-cased, any other letter is upper-cased, everything else is kept. */
  function TitleFrom(s: string, prevCased: bool): (r: string)
    ensures |r| == |s|
  {
    if s == [] then []
    else
      var rest := TitleFrom(s[1..], IsCased(s[0]));
      [if prevCased then Lower(s[0]) else Upper(s[0])] + rest
  }

  /** `s.title()` */
  function Title(s: string): string {
    TitleFrom(s, false)
  }

  /** `title()` keeps everything but letters; a letter is lower-cased after a letter and
      upper-cased anywhere else. */
  lemma {:induction false} TitleChars(s: string, prevCased: bool)
    ensures s != [] ==> TitleFrom(s, prevCased)[0] == if prevCased then Lower(s[0]) else Upper(s[0])
    ensures forall i :: 0 < i < |s| ==>
              TitleFrom(s, prevCased)[i] == if IsCased(s[i - 1]) then Lower(s[i]) else Upper(s[i])
    ensures forall i :: 0 <= i < |s| && !IsCased(s[i]) ==> TitleFrom(s, prevCased)[i] == s[i]
  {
    if s != [] {
      TitleChars(s[1..], IsCased(s[0]));
      var r := TitleFrom(s, prevCased);
      assert r[1..] == TitleFrom(s[1..], IsCased(s[0]));
      forall i | 0 < i < |s|
        ensures r[i] == if IsCased(s[i - 1]) then Lower(s[i]) else Upper(s[i])
      {
        assert r[i] == r[1..][i - 1];
        if i > 1 {
          assert s[1..][i - 2] == s[i - 1];
        }
      }
    }
  }

  // ---------------------------------------------------------------------------------------------
  // Integers and their decimal text

  function DigitChar(d: nat): char
    requires d < 10
  {
    "0123456789"[d]
  }

  predicate IsDigit(c: char) { '0' <= c <= '9' }

  /** `s.isdigit()` for ASCII text: non-empty and made of digits only. */
  predicate IsDigits(s: string) {
    |s| > 0 && forall i :: 0 <= i < |s| ==> IsDigit(s[i])
  }

  /** `str(n)` for a natural number. */
  function NatToString(n: nat): (r: string)
    ensures IsDigits(r)
  {
    if n < 10 then [DigitChar(n)] else NatToString(n / 10) + [DigitChar(n % 10)]
  }

  /** `str(i)` */
  function IntToString(i: int): string {
    if i < 0 then "-" + NatToString(-i) else NatToString(i)
  }

  /** The number a string of decimal digits denotes, as `int(s)` reads it. */
  function DecimalValue(s: string): nat
    requires forall i :: 0 <= i < |s| ==> IsDigit(s[i])
  {
    if s == [] then 0
    else
      assert IsDigit(s[|s| - 1]);
      DecimalValue(s[..|s| - 1]) * 10 + (s[|s| - 1] as int - '0' as int)
  }

  /** Reading back the decimal text of a number gives the number. */
  lemma {:induction false} DecimalValueOfNatToString(n: nat)
    ensures DecimalValue(NatToString(n)) == n
  {
    if n >= 10 {
      DecimalValueOfNatToString(n / 10);
      var s := NatToString(n);
      assert s[..|s| - 1] == NatToString(n / 10);
    }
  }
}
