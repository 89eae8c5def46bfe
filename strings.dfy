/**
  The small part of Python's string behaviour the pipeline depends on:
  str.isspace, strip/lstrip/rstrip, split()/' '.join, find/rfind, the `in`
  operator on strings, zero-padded decimal formatting (`{n:03d}`),
  code-point string ordering and `sorted`, and posixpath join/basename.
  Strings are sequences of Unicode scalar values, as Python's str is.
*/
module Strings {

  datatype Option<+T> = None | Some(value: T)

  /** A value, or the message of the exception that was raised instead. */
  datatype Result<+T> = Ok(value: T) | Err(message: string)

  function Min(a: int, b: int): int
  {
    if a <= b then a else b
  }

  /** str.isspace() for one character: the characters CPython treats as whitespace. */
  predicate IsSpace(c: char)
  {
    || c == ' '
    || '\t' <= c <= '\r'
    || '\U{1C}' <= c <= '\U{1F}'
    || c == '\U{85}' || c == '\U{A0}' || c == '\U{1680}'
    || '\U{2000}' <= c <= '\U{200A}'
    || c == '\U{2028}' || c == '\U{2029}' || c == '\U{202F}' || c == '\U{205F}' || c == '\U{3000}'
  }

  predicate NoSpace(s: string)
  {
    forall i :: 0 <= i < |s| ==> !IsSpace(s[i])
  }

  predicate AllSpace(s: string)
  {
    forall i :: 0 <= i < |s| ==> IsSpace(s[i])
  }

  // ---------------------------------------------------------------------------
  // strip

  /** str.lstrip(): the suffix left after the leading whitespace run. */
  function LStrip(s: string): (r: string)
    ensures |r| <= |s| && r == s[|s| - |r|..]
    ensures forall i :: 0 <= i < |s| - |r| ==> IsSpace(s[i])
    ensures r == [] || !IsSpace(r[0])
  {
    if s != [] && IsSpace(s[0]) then LStrip(s[1..]) else s
  }

  /** str.rstrip(): the prefix left after the trailing whitespace run. */
  function RStrip(s: string): (r: string)
    ensures |r| <= |s| && r == s[..|r|]
    ensures forall i :: |r| <= i < |s| ==> IsSpace(s[i])
    ensures r == [] || !IsSpace(r[|r| - 1])
  {
    if s != [] && IsSpace(s[|s| - 1]) then RStrip(s[..|s| - 1]) else s
  }

  /** str.strip(): what is left of `s` once whitespace is removed from both
      ends; it neither starts nor ends with whitespace and is empty exactly
      when `s` is all whitespace. */
  function Strip(s: string): (r: string)
    ensures |r| <= |s|
    ensures r == [] || (!IsSpace(r[0]) && !IsSpace(r[|r| - 1]))
    ensures r == [] <==> AllSpace(s)
  {
    StripFacts(s);
    LStrip(RStrip(s))
  }

  /** strip() only removes characters from the ends: its result occurs in `s`. */
  lemma StripIsPiece(s: string)
    ensures Contains(s, Strip(s))
  {
    StripFacts(s);
    var m := RStrip(s);
    ContainsAt(s, LStrip(m), |m| - |LStrip(m)|);
  }

  lemma StripFacts(s: string)
    ensures var m := RStrip(s); var r := LStrip(m);
      && r == s[|m| - |r|..|m|]
      && (r == [] <==> AllSpace(s))
  {
    var m := RStrip(s);
    var r := LStrip(m);
    if r == [] {
      assert m == [];
    } else {
      assert !IsSpace(s[|m| - |r|]);
    }
  }

  /** A string with no whitespace at either end is left alone by strip(). */
  lemma StripUnchanged(s: string)
    requires s == [] || (!IsSpace(s[0]) && !IsSpace(s[|s| - 1]))
    ensures Strip(s) == s
  {
  }

  lemma StripIdempotent(s: string)
    ensures Strip(Strip(s)) == Strip(s)
  {
    StripUnchanged(Strip(s));
  }

  /** A string holding a character that is not whitespace keeps a non-empty strip(). */
  lemma StripNonEmpty(s: string, i: nat)
    requires i < |s| && !IsSpace(s[i])
    ensures Strip(s) != []
  {
  }

  // ---------------------------------------------------------------------------
  // split() and ' '.join

  /** Length of the leading run of non-whitespace characters. */
  function WordEnd(s: string): (n: nat)
    ensures n <= |s|
    ensures forall i :: 0 <= i < n ==> !IsSpace(s[i])
    ensures n == |s| || IsSpace(s[n])
  {
    if s == [] || IsSpace(s[0]) then 0 else 1 + WordEnd(s[1..])
  }

  /** `s` with every whitespace character removed, the rest kept in order. */
  function WithoutSpace(s: string): (r: string)
    ensures NoSpace(r)
  {
    if s == [] then [] else (if IsSpace(s[0]) then [] else [s[0]]) + WithoutSpace(s[1..])
  }

  lemma {:induction false} WithoutSpaceAppend(a: string, b: string)
    ensures WithoutSpace(a + b) == WithoutSpace(a) + WithoutSpace(b)
  {
    if a == [] {
      assert a + b == b;
    } else {
      assert (a + b)[0] == a[0] && (a + b)[1..] == a[1..] + b;
      WithoutSpaceAppend(a[1..], b);
    }
  }

  lemma {:induction false} WithoutSpaceKeeps(s: string)
    requires NoSpace(s)
    ensures WithoutSpace(s) == s
  {
    if s != [] {
      WithoutSpaceKeeps(s[1..]);
    }
  }

  /** The words laid end to end. */
  function Concat(ws: seq<string>): string
  {
    if ws == [] then [] else ws[0] + Concat(ws[1..])
  }

  /** str.split() with no separator: the maximal runs of non-whitespace characters,
      in order; laid end to end they are `s` without its whitespace. */
  function Words(s: string): (ws: seq<string>)
    ensures forall k :: 0 <= k < |ws| ==> ws[k] != [] && NoSpace(ws[k])
    ensures ws == [] <==> AllSpace(s)
    ensures Concat(ws) == WithoutSpace(s)
    decreases |s|
  {
    if s == [] then []
    else if IsSpace(s[0]) then Words(s[1..])
    else
      var n := WordEnd(s);
      assert s == s[..n] + s[n..];
      WithoutSpaceAppend(s[..n], s[n..]);
      WithoutSpaceKeeps(s[..n]);
      var rest := Words(s[n..]);
      assert ([s[..n]] + rest)[1..] == rest;
      [s[..n]] + rest
  }

  /** A single run of non-whitespace characters is one word. */
  lemma WordsOfRun(w: string)
    requires w != [] && NoSpace(w)
    ensures Words(w) == [w]
  {
    assert WordEnd(w) == |w|;
    assert w[..|w|] == w && w[|w|..] == [];
    assert Words(w) == [w[..|w|]] + Words(w[|w|..]);
  }

  /** Splitting at any whitespace character splits the words: the words of
      `a + [c] + b` are those of `a` followed by those of `b`. With WordsOfRun and
      the blank case of Words, this fixes Words(s) as the maximal runs of
      non-whitespace characters of `s`, in order. */
  lemma {:induction false} WordsSplitAtSpace(a: string, c: char, b: string)
    requires IsSpace(c)
    ensures Words(a + [c] + b) == Words(a) + Words(b)
    decreases |a|
  {
    if a == [] {
      var x := a + [c] + b;
      assert x[0] == c && x[1..] == b;
      assert Words(a) + Words(b) == Words(b);
    } else {
      WordsSplitAtSpace(a[1..], c, b);
      WordsSplitStep(a, c, b);
    }
  }

  /** The step of WordsSplitAtSpace from `a[1..]` to `a`. */
  lemma WordsSplitStep(a: string, c: char, b: string)
    requires IsSpace(c) && a != []
    requires Words(a[1..] + [c] + b) == Words(a[1..]) + Words(b)
    ensures Words(a + [c] + b) == Words(a) + Words(b)
  {
    AppendAfterHead(a, [c] + b);
    assert a + [c] + b == a + ([c] + b) && a[1..] + [c] + b == a[1..] + ([c] + b);
    if IsSpace(a[0]) {
      WordsSkipSpace(a + [c] + b);
      WordsSkipSpace(a);
    } else if |a| == 1 || IsSpace(a[1]) {
      WordsSplitAlone(a, c, b);
    } else {
      WordsSplitJoin(a, c, b);
    }
  }

  /** WordsSplitStep when the first character of `a` is a word of its own. */
  lemma WordsSplitAlone(a: string, c: char, b: string)
    requires IsSpace(c) && a != [] && !IsSpace(a[0]) && (|a| == 1 || IsSpace(a[1]))
    requires var x := a + [c] + b; x[0] == a[0] && IsSpace(x[1]) && x[1..] == a[1..] + [c] + b
    requires Words(a[1..] + [c] + b) == Words(a[1..]) + Words(b)
    ensures Words(a + [c] + b) == Words(a) + Words(b)
  {
    WordsAlone(a + [c] + b);
    WordsAlone(a);
    AppendAssoc([[a[0]]], Words(a[1..]), Words(b));
  }

  /** WordsSplitStep when the first character of `a` joins the next word. */
  lemma WordsSplitJoin(a: string, c: char, b: string)
    requires IsSpace(c) && |a| > 1 && !IsSpace(a[0]) && !IsSpace(a[1])
    requires var x := a + [c] + b; x[0] == a[0] && x[1] == a[1] && x[1..] == a[1..] + [c] + b
    requires Words(a[1..] + [c] + b) == Words(a[1..]) + Words(b)
    ensures Words(a + [c] + b) == Words(a) + Words(b)
  {
    var w := Words(a[1..]);
    WordsJoin(a + [c] + b);
    WordsJoin(a);
    AppendHead(w, Words(b));
    AppendAssoc([[a[0]] + w[0]], w[1..], Words(b));
  }

  /** The first two characters and the tail of `a + t`, for a non-empty `a` and
      `t`. */
  lemma AppendAfterHead(a: string, t: string)
    requires a != [] && t != []
    ensures var x := a + t;
      && x[0] == a[0] && x[1] == (if |a| == 1 then t[0] else a[1])
      && x[1..] == a[1..] + t
  {
  }

  /** split() skips leading whitespace. */
  lemma WordsSkipSpace(s: string)
    requires s != [] && IsSpace(s[0])
    ensures Words(s) == Words(s[1..])
  {
  }

  /** Concatenation is associative. */
  lemma AppendAssoc<T>(p: seq<T>, q: seq<T>, r: seq<T>)
    ensures p + (q + r) == (p + q) + r
  {
  }

  /** The head and tail of a concatenation whose left part is not empty. */
  lemma AppendHead<T>(p: seq<T>, q: seq<T>)
    requires p != []
    ensures (p + q)[0] == p[0] && (p + q)[1..] == p[1..] + q
  {
  }

  /** split() of a string whose first character is not whitespace and is followed
      by whitespace or nothing: that character is a word of its own. */
  lemma WordsAlone(s: string)
    requires s != [] && !IsSpace(s[0]) && (|s| == 1 || IsSpace(s[1]))
    ensures Words(s) == [[s[0]]] + Words(s[1..])
  {
    var t := s[1..];
    assert WordEnd(t) == 0;
    WordsFirst(s);
    assert s[..1] == [s[0]];
  }

  /** split() of a string whose first two characters are not whitespace: the
      first character joins the first word of the rest. */
  lemma WordsJoin(s: string)
    requires |s| > 1 && !IsSpace(s[0]) && !IsSpace(s[1])
    ensures var w := Words(s[1..]); w != [] && Words(s) == [[s[0]] + w[0]] + w[1..]
  {
    var t := s[1..];
    var m := WordEnd(t);
    assert WordEnd(s) == m + 1;
    WordsFirst(s);
    WordsFirst(t);
    SliceAfterHead(s, m);
  }

  /** split() of a string that starts with a word: that word, then the rest. */
  lemma WordsFirst(s: string)
    requires s != [] && !IsSpace(s[0])
    ensures Words(s) == [s[..WordEnd(s)]] + Words(s[WordEnd(s)..])
  {
  }

  /** Slicing `s` after its head and slicing its tail agree. */
  lemma SliceAfterHead(s: string, m: nat)
    requires m < |s|
    ensures s[..m + 1] == [s[0]] + s[1..][..m] && s[m + 1..] == s[1..][m..]
  {
  }

  /** ' '.join(ws) */
  function JoinSpace(ws: seq<string>): string
  {
    if ws == [] then []
    else if |ws| == 1 then ws[0]
    else ws[0] + " " + JoinSpace(ws[1..])
  }

  /** Joining non-empty words free of whitespace with single spaces gives a string
      whose only whitespace is ' ', that has no space at either end and no two
      spaces in a row. */
  lemma {:induction false} JoinSpaceShape(ws: seq<string>)
    requires forall k :: 0 <= k < |ws| ==> ws[k] != [] && NoSpace(ws[k])
    ensures var r := JoinSpace(ws);
      && (r == [] <==> ws == [])
      && (forall i :: 0 <= i < |r| ==> r[i] == ' ' || !IsSpace(r[i]))
      && (r == [] || (!IsSpace(r[0]) && !IsSpace(r[|r| - 1])))
      && (forall i, j :: 0 <= i < j < |r| && j == i + 1 ==> r[i] != ' ' || r[j] != ' ')
  {
    if |ws| > 1 {
      JoinSpaceShape(ws[1..]);
      var t := JoinSpace(ws[1..]);
      var r := ws[0] + " " + t;
      assert r == JoinSpace(ws);
      forall i | 0 <= i < |r| ensures r[i] == ' ' || !IsSpace(r[i]) {
        if i < |ws[0]| { assert r[i] == ws[0][i]; }
        else if i > |ws[0]| { assert r[i] == t[i - |ws[0]| - 1]; }
      }
      forall i, j | 0 <= i < j < |r| && j == i + 1 ensures r[i] != ' ' || r[j] != ' ' {
        if j < |ws[0]| { assert r[i] == ws[0][i]; }
        else if j == |ws[0]| { assert r[i] == ws[0][i]; }
        else if i == |ws[0]| { assert r[j] == t[0]; }
        else { assert r[i] == t[i - |ws[0]| - 1] && r[j] == t[j - |ws[0]| - 1]; }
      }
      assert r[|r| - 1] == t[|t| - 1];
    } else if |ws| == 1 {
      assert JoinSpace(ws) == ws[0];
    }
  }

  /** split() undoes ' '.join on non-empty words free of whitespace. */
  lemma {:induction false} WordsOfJoin(ws: seq<string>)
    requires forall k :: 0 <= k < |ws| ==> ws[k] != [] && NoSpace(ws[k])
    ensures Words(JoinSpace(ws)) == ws
  {
    if |ws| == 1 {
      WordsOfRun(ws[0]);
    } else if |ws| > 1 {
      WordsOfJoin(ws[1..]);
      WordsSplitAtSpace(ws[0], ' ', JoinSpace(ws[1..]));
      WordsOfRun(ws[0]);
      assert ws[0] + " " + JoinSpace(ws[1..]) == ws[0] + [' '] + JoinSpace(ws[1..]);
      assert [ws[0]] + ws[1..] == ws;
    }
  }

  /** The single spaces ' '.join puts between words are its only whitespace. */
  lemma {:induction false} JoinSpaceWithoutSpace(ws: seq<string>)
    requires forall k :: 0 <= k < |ws| ==> NoSpace(ws[k])
    ensures WithoutSpace(JoinSpace(ws)) == Concat(ws)
  {
    if |ws| == 1 {
      WithoutSpaceKeeps(ws[0]);
      assert Concat(ws) == ws[0] + Concat([]);
    } else if |ws| > 1 {
      JoinSpaceWithoutSpace(ws[1..]);
      WithoutSpaceAppend(ws[0] + " ", JoinSpace(ws[1..]));
      WithoutSpaceAppend(ws[0], " ");
      WithoutSpaceKeeps(ws[0]);
      assert WithoutSpace(" ") == [];
    }
  }

  /** ' '.join(s.split()): whitespace runs collapsed to one space and both ends
      trimmed; empty exactly when `s` is blank. */
  function Collapse(s: string): (r: string)
    ensures forall i :: 0 <= i < |r| ==> r[i] == ' ' || !IsSpace(r[i])
    ensures r == [] || (!IsSpace(r[0]) && !IsSpace(r[|r| - 1]))
    ensures forall i, j :: 0 <= i < j < |r| && j == i + 1 ==> r[i] != ' ' || r[j] != ' '
    ensures r == [] <==> AllSpace(s)
    ensures WithoutSpace(r) == WithoutSpace(s)
  {
    JoinSpaceShape(Words(s));
    JoinSpaceWithoutSpace(Words(s));
    JoinSpace(Words(s))
  }

  /** str.replace(old, new) for single characters. */
  function ReplaceChar(s: string, from: char, to: char): (r: string)
    ensures |r| == |s|
    ensures forall i :: 0 <= i < |s| ==> r[i] == (if s[i] == from then to else s[i])
    ensures from != to ==> from !in r
    ensures from in s ==> to in r
  {
    seq(|s|, i requires 0 <= i < |s| => if s[i] == from then to else s[i])
  }

  // ---------------------------------------------------------------------------
  // find, rfind and `in`

  /** str.find(c) for one character: the first index of `c`, or -1. */
  function Find(s: string, c: char): (i: int)
    ensures -1 <= i < |s|
    ensures i == -1 <==> c !in s
    ensures i >= 0 ==> s[i] == c && c !in s[..i]
  {
    if s == [] then -1
    else if s[0] == c then 0
    else
      var k := Find(s[1..], c);
      assert s[1..] == s[1..][..|s| - 1];
      if k == -1 then -1 else (assert s[..k + 1] == [s[0]] + s[1..][..k]; k + 1)
  }

  /** str.rfind(c) for one character: the last index of `c`, or -1. */
  function RFind(s: string, c: char): (i: int)
    ensures -1 <= i < |s|
    ensures i == -1 <==> c !in s
    ensures i >= 0 ==> s[i] == c && c !in s[i + 1..]
  {
    if s == [] then -1
    else if s[|s| - 1] == c then |s| - 1
    else
      var k := RFind(s[..|s| - 1], c);
      assert s == s[..|s| - 1] + [s[|s| - 1]];
      if k >= 0 then assert s[k + 1..] == s[..|s| - 1][k + 1..] + [s[|s| - 1]]; k else k
  }

  /** Python's `p in s` for strings: `p` occurs as a contiguous piece of `s`. */
  predicate Contains(s: string, p: string)
  {
    (|p| <= |s| && s[..|p|] == p) || (s != [] && Contains(s[1..], p))
  }

  lemma {:induction false} ContainsAt(s: string, p: string, i: nat)
    requires i + |p| <= |s| && s[i..i + |p|] == p
    ensures Contains(s, p)
  {
    if i > 0 {
      assert s[1..][i - 1..i - 1 + |p|] == s[i..i + |p|];
      ContainsAt(s[1..], p, i - 1);
    }
  }

  /** Every occurrence found by `in` has a position: with ContainsAt, `p in s`
      holds exactly when `p` is the slice of `s` at some index. */
  lemma {:induction false} ContainsExists(s: string, p: string) returns (i: nat)
    requires Contains(s, p)
    ensures i + |p| <= |s| && s[i..i + |p|] == p
  {
    if |p| <= |s| && s[..|p|] == p {
      i := 0;
    } else {
      var j := ContainsExists(s[1..], p);
      i := j + 1;
      assert s[1..][j..j + |p|] == s[i..i + |p|];
    }
  }

  /** `s.endswith(p)` holds exactly when `s` is something followed by `p`. */
  lemma EndsWithIsSuffix(s: string, p: string)
    ensures EndsWith(s, p) <==> (|p| <= |s| && s == s[..|s| - |p|] + p)
  {
    if |p| <= |s| {
      assert s == s[..|s| - |p|] + s[|s| - |p|..];
    }
  }

  /** str.endswith(p) */
  predicate EndsWith(s: string, p: string)
  {
    |p| <= |s| && s[|s| - |p|..] == p
  }

  // ---------------------------------------------------------------------------
  // Decimal formatting: str(n) and f"{n:0{w}d}" for n >= 0

  predicate IsDigit(c: char)
  {
    '0' <= c <= '9'
  }

  predicate AllDigits(s: string)
  {
    forall i :: 0 <= i < |s| ==> IsDigit(s[i])
  }

  function DigitChar(d: nat): (c: char)
    requires d < 10
    ensures IsDigit(c)
  {
    ('0' as int + d) as char
  }

  function DigitValue(c: char): (d: nat)
    requires IsDigit(c)
    ensures d < 10
  {
    c as int - '0' as int
  }

  /** str(n) for a non-negative integer. */
  function Decimal(n: nat): (s: string)
    ensures s != [] && AllDigits(s)
  {
    if n < 10 then [DigitChar(n)] else Decimal(n / 10) + [DigitChar(n % 10)]
  }

  /** The number a string of decimal digits denotes (leading zeros allowed). */
  function DigitsValue(s: string): nat
    requires AllDigits(s)
  {
    if s == [] then 0 else DigitsValue(s[..|s| - 1]) * 10 + DigitValue(s[|s| - 1])
  }

  /** Formatting a number in decimal and reading it back gives the number. */
  lemma {:induction false} DecimalRoundTrip(n: nat)
    ensures DigitsValue(Decimal(n)) == n
  {
    var s := Decimal(n);
    if n >= 10 {
      DecimalRoundTrip(n / 10);
      assert s[..|s| - 1] == Decimal(n / 10);
    }
  }

  /** Numbers below 1000 print with at most three digits. */
  lemma DecimalBelowThousand(n: nat)
    requires n < 1000
    ensures |Decimal(n)| <= 3
  {
    if n >= 10 {
      assert |Decimal(n)| == |Decimal(n / 10)| + 1;
      if n / 10 >= 10 {
        assert |Decimal(n / 10)| == |Decimal(n / 100)| + 1;
      }
    }
  }

  /** `k` zero digits, which read as the number 0. */
  function Zeros(k: nat): (s: string)
    ensures |s| == k && AllDigits(s)
    ensures forall i :: 0 <= i < k ==> s[i] == '0'
    ensures DigitsValue(s) == 0
  {
    if k == 0 then []
    else
      var z := Zeros(k - 1);
      assert (z + "0")[..k - 1] == z;
      z + "0"
  }

  /** f"{n:0{width}d}": the decimal digits of `n`, left-padded with zeros to `width`. */
  function Padded(n: nat, width: nat): (s: string)
    ensures AllDigits(s)
  {
    var d := Decimal(n);
    if |d| < width then Zeros(width - |d|) + d else d
  }

  /** Leading zeros do not change the value of a digit string. */
  lemma {:induction false} LeadingZeros(k: nat, s: string)
    requires AllDigits(s)
    ensures AllDigits(Zeros(k) + s) && DigitsValue(Zeros(k) + s) == DigitsValue(s)
  {
    if s == [] {
      assert Zeros(k) + s == Zeros(k);
    } else {
      var t := Zeros(k) + s;
      assert t[..|t| - 1] == Zeros(k) + s[..|s| - 1];
      LeadingZeros(k, s[..|s| - 1]);
    }
  }

  /** A zero-padded number reads back as the number, and is exactly `width`
      long whenever it fits. */
  lemma PaddedRoundTrip(n: nat, width: nat)
    ensures DigitsValue(Padded(n, width)) == n
    ensures |Padded(n, width)| >= width
    ensures |Decimal(n)| <= width ==> |Padded(n, width)| == width
  {
    DecimalRoundTrip(n);
    var d := Decimal(n);
    if |d| < width { LeadingZeros(width - |d|, d); }
  }

  /** Different numbers pad to different strings. */
  lemma PaddedInjective(m: nat, n: nat, width: nat)
    requires Padded(m, width) == Padded(n, width)
    ensures m == n
  {
    PaddedRoundTrip(m, width);
    PaddedRoundTrip(n, width);
  }

  // ---------------------------------------------------------------------------
  // Title characters: ASCII letters and digits (str.isalnum() on ASCII text)
  // with ' ', '-' and '_'

  /** An ASCII letter or digit, '_', ' ' or '-'. */
  predicate TitleChar(c: char)
  {
    'a' <= c <= 'z' || 'A' <= c <= 'Z' || '0' <= c <= '9' || c == '_' || c == ' ' || c == '-'
  }

  /** A title character other than ' '. */
  predicate DirNameChar(c: char)
  {
    'a' <= c <= 'z' || 'A' <= c <= 'Z' || '0' <= c <= '9' || c == '_' || c == '-'
  }

  /** `sub` is `s` with some elements left out. */
  predicate Subsequence<T(==)>(sub: seq<T>, s: seq<T>)
    decreases |s|
  {
    if s == [] then sub == []
    else
      (sub != [] && sub[|sub| - 1] == s[|s| - 1] && Subsequence(sub[..|sub| - 1], s[..|s| - 1]))
      || Subsequence(sub, s[..|s| - 1])
  }

  /** `s` with every character that is not a title character removed: the title
      characters of `s`, each as often as in `s`, in their order in `s`. */
  function KeepTitleChars(s: string): (r: string)
    ensures |r| <= |s|
    ensures forall i :: 0 <= i < |r| ==> TitleChar(r[i])
    ensures Subsequence(r, s)
  {
    if s == [] then []
    else
      var init := s[..|s| - 1];
      var last := s[|s| - 1];
      var kept := if TitleChar(last) then [last] else [];
      var r := KeepTitleChars(init) + kept;
      assert TitleChar(last) ==> r[..|r| - 1] == KeepTitleChars(init);
      assert !TitleChar(last) ==> r == KeepTitleChars(init);
      r
  }

  /** Every title character of `s` is kept as often as it occurs in `s`, and no
      other character is kept. */
  lemma {:induction false} KeepTitleCharsCounts(s: string)
    ensures forall c :: multiset(KeepTitleChars(s))[c] == if TitleChar(c) then multiset(s)[c] else 0
  {
    if s != [] {
      var init := s[..|s| - 1];
      var last := s[|s| - 1];
      KeepTitleCharsCounts(init);
      assert s == init + [last];
      assert multiset(s) == multiset(init) + multiset{last};
      assert KeepTitleChars(s) == KeepTitleChars(init) + (if TitleChar(last) then [last] else []);
    }
  }

  lemma {:induction false} KeepTitleCharsUnchanged(s: string)
    requires forall i :: 0 <= i < |s| ==> TitleChar(s[i])
    ensures KeepTitleChars(s) == s
  {
    if s != [] {
      var init := s[..|s| - 1];
      KeepTitleCharsUnchanged(init);
      assert KeepTitleChars(s) == KeepTitleChars(init) + [s[|s| - 1]];
      assert s == init + [s[|s| - 1]];
    }
  }

  // ---------------------------------------------------------------------------
  // String order and sorted()

  /** Python's `a <= b` on str: lexicographic by code point. */
  predicate LexLe(a: string, b: string)
  {
    if a == [] then true
    else if b == [] then false
    else if a[0] != b[0] then a[0] < b[0]
    else LexLe(a[1..], b[1..])
  }

  lemma {:induction false} LexTotal(a: string, b: string)
    ensures LexLe(a, b) || LexLe(b, a)
  {
    if a != [] && b != [] && a[0] == b[0] { LexTotal(a[1..], b[1..]); }
  }

  lemma {:induction false} LexRefl(a: string)
    ensures LexLe(a, a)
  {
    if a != [] { LexRefl(a[1..]); }
  }

  lemma {:induction false} LexTrans(a: string, b: string, c: string)
    requires LexLe(a, b) && LexLe(b, c)
    ensures LexLe(a, c)
  {
    if a != [] && b != [] && c != [] && a[0] == b[0] && b[0] == c[0] {
      LexTrans(a[1..], b[1..], c[1..]);
    }
  }

  predicate Sorted(s: seq<string>)
  {
    forall i :: 0 <= i < |s| - 1 ==> LexLe(s[i], s[i + 1])
  }

  /** In a sorted sequence every element is at most every later one. */
  lemma {:induction false} SortedPairs(s: seq<string>, i: nat, j: nat)
    requires Sorted(s) && i <= j < |s|
    ensures LexLe(s[i], s[j])
    decreases j - i
  {
    if i == j {
      LexRefl(s[i]);
    } else {
      SortedPairs(s, i + 1, j);
      LexTrans(s[i], s[i + 1], s[j]);
    }
  }

  function Insert(x: string, s: seq<string>): (r: seq<string>)
    requires Sorted(s)
    ensures Sorted(r) && multiset(r) == multiset(s) + multiset{x}
    ensures |r| == |s| + 1 && (r[0] == x || (s != [] && r[0] == s[0]))
  {
    if s == [] then [x]
    else if LexLe(x, s[0]) then [x] + s
    else
      LexTotal(x, s[0]);
      var t := Insert(x, s[1..]);
      assert s == [s[0]] + s[1..];
      [s[0]] + t
  }

  /** sorted(names): the names in non-decreasing order, each kept as often as it occurs. */
  function Sort(s: seq<string>): (r: seq<string>)
    ensures Sorted(r) && multiset(r) == multiset(s)
  {
    if s == [] then []
    else
      assert s == [s[0]] + s[1..];
      Insert(s[0], Sort(s[1..]))
  }

  // ---------------------------------------------------------------------------
  // posixpath

  /** os.path.join(dir, name) for a relative `name`. */
  function PathJoin(dir: string, name: string): (r: string)
    ensures |dir| <= |r| && r[..|dir|] == dir && EndsWith(r, name)
  {
    if dir == [] || dir[|dir| - 1] == '/' then dir + name else dir + "/" + name
  }

  /** os.path.basename(p): what follows the last '/'. */
  function Basename(p: string): (b: string)
    ensures '/' !in b && EndsWith(p, b)
    ensures |b| == |p| || p[|p| - |b| - 1] == '/'
  {
    var k := RFind(p, '/');
    p[k + 1..]
  }

  /** The base name of a joined path is the name that was joined. */
  lemma BasenameOfJoin(dir: string, name: string)
    requires '/' !in name
    ensures Basename(PathJoin(dir, name)) == name
  {
    var p := PathJoin(dir, name);
    var k := RFind(p, '/');
    if dir != [] {
      assert p[|p| - |name| - 1] == '/';
    }
  }
}
