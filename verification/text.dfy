/**
 The parts of Python's `str` type that the monitor and keyboard code lean on:
 `strip()`, `split(c)`, `split()`, `startswith`, `lower()` on ASCII text,
 `replace(c, "")`, `int(s)` and `str(n)`. Strings are sequences of characters;
 nothing here knows about encodings.
 */
module Text {
  import opened Common

  /** The characters Python's `str.isspace()` accepts. */
  predicate IsSpace(c: char) {
    || c == ' '
    || ('\t' <= c <= '\r')
    || ('\U{1c}' <= c <= '\U{1f}')
    || c == '\U{85}' || c == '\U{a0}' || c == '\U{1680}'
    || ('\U{2000}' <= c <= '\U{200a}')
    || c == '\U{2028}' || c == '\U{2029}' || c == '\U{202f}' || c == '\U{205f}'
    || c == '\U{3000}'
  }

  predicate NoSpace(s: string) {
    forall i :: 0 <= i < |s| ==> !IsSpace(s[i])
  }

  // ---------------------------------------------------------------------------
  // strip()
  // ---------------------------------------------------------------------------

  /** `s.lstrip()`: the suffix of `s` that starts at its first non-space. */
  function TrimLeft(s: string): (r: string)
    ensures |r| <= |s| && r == s[|s| - |r|..]
    ensures |r| > 0 ==> !IsSpace(r[0])
    ensures forall i :: 0 <= i < |s| - |r| ==> IsSpace(s[i])
  {
    if |s| > 0 && IsSpace(s[0]) then
      var r := TrimLeft(s[1..]);
      assert s[1..][|s| - 1 - |r|..] == s[|s| - |r|..];
      assert forall i :: 1 <= i < |s| - |r| ==> s[i] == s[1..][i - 1];
      r
    else s
  }

  /** `s.rstrip()`: the prefix of `s` that ends at its last non-space. */
  function TrimRight(s: string): (r: string)
    ensures |r| <= |s| && r == s[..|r|]
    ensures |r| > 0 ==> !IsSpace(r[|r| - 1])
    ensures forall i :: |r| <= i < |s| ==> IsSpace(s[i])
  {
    if |s| > 0 && IsSpace(s[|s| - 1]) then
      var r := TrimRight(s[..|s| - 1]);
      assert s[..|s| - 1][..|r|] == s[..|r|];
      assert forall i :: |r| <= i < |s| - 1 ==> s[i] == s[..|s| - 1][i];
      r
    else s
  }

  /** `s.strip()`. */
  function Strip(s: string): (r: string)
    ensures |r| <= |s|
    ensures |r| > 0 ==> !IsSpace(r[0]) && !IsSpace(r[|r| - 1])
  {
    var t := TrimLeft(s);
    var u := TrimRight(t);
    assert |u| > 0 ==> u[0] == t[0];
    u
  }

  lemma StripOfStripped(s: string)
    requires |s| > 0 ==> !IsSpace(s[0]) && !IsSpace(s[|s| - 1])
    ensures Strip(s) == s
  {
  }

  predicate AllSpace(s: string) {
    forall i :: 0 <= i < |s| ==> IsSpace(s[i])
  }

  /** `s[i..j]` is what stripping `s` leaves: only whitespace lies outside
      it, and it neither starts nor ends with whitespace. */
  predicate StripsTo(s: string, i: int, j: int) {
    && 0 <= i <= j <= |s|
    && (forall k :: 0 <= k < i ==> IsSpace(s[k]))
    && (forall k :: j <= k < |s| ==> IsSpace(s[k]))
    && (i < j ==> !IsSpace(s[i]) && !IsSpace(s[j - 1]))
  }

  /** `r` is `s` with its surrounding whitespace removed: an independent
      description of `strip()`. */
  predicate Trimmed(s: string, r: string) {
    exists i, j :: 0 <= i <= j <= |s| && StripsTo(s, i, j) && r == s[i..j]
  }

  lemma {:induction false} TrimLeftSkipsSpaces(p: string, rest: string)
    requires AllSpace(p)
    requires |rest| > 0 ==> !IsSpace(rest[0])
    ensures TrimLeft(p + rest) == rest
  {
    if |p| > 0 {
      assert (p + rest)[0] == p[0];
      assert (p + rest)[1..] == p[1..] + rest;
      TrimLeftSkipsSpaces(p[1..], rest);
    } else {
      assert p + rest == rest;
    }
  }

  lemma {:induction false} TrimRightSkipsSpaces(rest: string, q: string)
    requires AllSpace(q)
    requires |rest| > 0 ==> !IsSpace(rest[|rest| - 1])
    ensures TrimRight(rest + q) == rest
  {
    if |q| > 0 {
      var t := rest + q;
      assert t[|t| - 1] == q[|q| - 1];
      assert t[..|t| - 1] == rest + q[..|q| - 1];
      TrimRightSkipsSpaces(rest, q[..|q| - 1]);
    } else {
      assert rest + q == rest;
    }
  }

  /** `strip()` meets its description. */
  lemma StripIsTrimmed(s: string)
    ensures Trimmed(s, Strip(s))
  {
    var i, j := StripWitness(s);
    TrimmedIntro(s, Strip(s), i, j);
  }

  lemma TrimmedIntro(s: string, r: string, i: int, j: int)
    requires StripsTo(s, i, j) && r == s[i..j]
    ensures Trimmed(s, r)
  {
  }

  /** The bounds of the stripped text inside `s`. */
  lemma StripWitness(s: string) returns (i: int, j: int)
    ensures StripsTo(s, i, j) && Strip(s) == s[i..j]
  {
    var t := TrimLeft(s);
    var u := TrimRight(t);
    i := |s| - |t|;
    j := SpanOfParts(s, t, u, i);
  }

  /** A suffix `t` of `s` after blanks, cut before blanks to `u`, is where
      `u` sits inside `s`. */
  lemma SpanOfParts(s: string, t: string, u: string, i: int) returns (j: int)
    requires 0 <= i <= |s| && t == s[i..]
    requires forall k :: 0 <= k < i ==> IsSpace(s[k])
    requires |t| > 0 ==> !IsSpace(t[0])
    requires |u| <= |t| && u == t[..|u|]
    requires |u| > 0 ==> !IsSpace(u[|u| - 1])
    requires forall k :: |u| <= k < |t| ==> IsSpace(t[k])
    ensures j == i + |u| && StripsTo(s, i, j) && u == s[i..j]
  {
    j := i + |u|;
    forall k | j <= k < |s| ensures IsSpace(s[k]) {
      assert s[k] == t[k - i];
    }
    if |u| > 0 {
      assert s[i] == t[0] == u[0];
      assert s[j - 1] == t[|u| - 1] == u[|u| - 1];
    }
  }

  /** The description fixes the result: `strip()` is the only function that
      meets it. */
  lemma StripUnique(s: string, i: int, j: int)
    requires StripsTo(s, i, j)
    ensures Strip(s) == s[i..j]
  {
    if i < j {
      TrimLeftAt(s, i);
      TrimRightOfSuffix(s, i, j);
    } else {
      TrimLeftAt(s, |s|);
    }
  }

  lemma TrimRightOfSuffix(s: string, i: int, j: int)
    requires StripsTo(s, i, j) && i < j
    ensures TrimRight(s[i..]) == s[i..j]
  {
    var t := s[i..];
    forall k | j - i <= k < |t| ensures IsSpace(t[k]) {
      assert t[k] == s[i + k];
    }
    assert t[j - i - 1] == s[j - 1];
    TrimRightAt(t, j - i);
    assert t[..j - i] == s[i..j];
  }

  /** `lstrip()` starts at the first non-space. */
  lemma {:induction false} TrimLeftAt(s: string, i: int)
    requires 0 <= i <= |s|
    requires forall k :: 0 <= k < i ==> IsSpace(s[k])
    requires i < |s| ==> !IsSpace(s[i])
    ensures TrimLeft(s) == s[i..]
  {
    if i > 0 {
      var s' := s[1..];
      forall k | 0 <= k < i - 1 ensures IsSpace(s'[k]) {
        assert s'[k] == s[k + 1];
      }
      if i < |s| {
        assert s'[i - 1] == s[i];
      }
      TrimLeftAt(s', i - 1);
      assert s'[i - 1..] == s[i..];
    }
  }

  /** `rstrip()` ends after the last non-space. */
  lemma {:induction false} TrimRightAt(t: string, n: int)
    requires 0 <= n <= |t|
    requires forall k :: n <= k < |t| ==> IsSpace(t[k])
    requires n > 0 ==> !IsSpace(t[n - 1])
    ensures TrimRight(t) == t[..n]
    decreases |t|
  {
    if n < |t| {
      var t' := t[..|t| - 1];
      forall k | n <= k < |t'| ensures IsSpace(t'[k]) {
        assert t'[k] == t[k];
      }
      if n > 0 {
        assert t'[n - 1] == t[n - 1];
      }
      TrimRightAt(t', n);
      assert t'[..n] == t[..n];
    } else {
      assert t[..n] == t;
    }
  }

  // ---------------------------------------------------------------------------
  // split(c) and its inverse, join
  // ---------------------------------------------------------------------------

  /** Index of the first `c` in `s`, or `|s|` when there is none. */
  function IndexOf(s: string, c: char): (i: nat)
    ensures i <= |s|
    ensures i < |s| ==> s[i] == c
    ensures forall k :: 0 <= k < i ==> s[k] != c
    ensures i < |s| <==> c in s
  {
    if |s| == 0 || s[0] == c then 0
    else
      assert c in s <==> c in s[1..];
      1 + IndexOf(s[1..], c)
  }

  /** Python's `s.split(c)` for a one-character separator. */
  function Split(s: string, c: char): (r: seq<string>)
    ensures |r| >= 1
    ensures forall k :: 0 <= k < |r| ==> c !in r[k]
    decreases |s|
  {
    var i := IndexOf(s, c);
    if i == |s| then [s] else [s[..i]] + Split(s[i + 1..], c)
  }

  /** Python's `c.join(parts)`. */
  function Join(parts: seq<string>, c: char): string
  {
    if |parts| == 0 then ""
    else if |parts| == 1 then parts[0]
    else parts[0] + [c] + Join(parts[1..], c)
  }

  function Count(s: string, c: char): nat
  {
    if |s| == 0 then 0 else (if s[0] == c then 1 else 0) + Count(s[1..], c)
  }

  lemma {:induction false} CountAppend(a: string, b: string, c: char)
    ensures Count(a + b, c) == Count(a, c) + Count(b, c)
  {
    if |a| > 0 {
      assert (a + b)[1..] == a[1..] + b;
      CountAppend(a[1..], b, c);
    } else {
      assert a + b == b;
    }
  }

  lemma CountAbsent(s: string, c: char)
    requires c !in s
    ensures Count(s, c) == 0
  {
    if |s| > 0 {
      assert c !in s[1..];
      CountAbsent(s[1..], c);
    }
  }

  /** Joining the pieces of a split gives back the original text. */
  lemma {:induction false} JoinSplit(s: string, c: char)
    ensures Join(Split(s, c), c) == s
    decreases |s|
  {
    var i := IndexOf(s, c);
    if i < |s| {
      var rest := Split(s[i + 1..], c);
      JoinSplit(s[i + 1..], c);
      JoinCons(s[..i], rest, c);
      Rejoin(s, i);
    }
  }

  lemma JoinCons(p: string, rest: seq<string>, c: char)
    requires |rest| >= 1
    ensures Join([p] + rest, c) == p + [c] + Join(rest, c)
  {
    assert ([p] + rest)[1..] == rest;
  }

  lemma Rejoin(s: string, i: int)
    requires 0 <= i < |s|
    ensures s[..i] + [s[i]] + s[i + 1..] == s
  {
  }

  lemma {:induction false} IndexOfAfter(a: string, b: string, c: char)
    requires c !in a
    ensures IndexOf(a + [c] + b, c) == |a|
  {
    if |a| > 0 {
      assert (a + [c] + b)[1..] == a[1..] + [c] + b;
      IndexOfAfter(a[1..], b, c);
    }
  }

  /** A character that is neither the separator nor in any piece is not in
      the join. */
  lemma {:induction false} JoinLacks(parts: seq<string>, c: char, x: char)
    requires x != c && forall k :: 0 <= k < |parts| ==> x !in parts[k]
    ensures x !in Join(parts, c)
    decreases |parts|
  {
    if |parts| > 1 {
      JoinLacks(parts[1..], c, x);
      assert x !in parts[0];
    }
  }

  /** A join starts with the first character of its first piece, when that
      is not empty. */
  lemma JoinStart(parts: seq<string>, c: char)
    requires |parts| > 0 && |parts[0]| > 0
    ensures var s := Join(parts, c); |s| > 0 && s[0] == parts[0][0]
  {
    if |parts| > 1 {
      assert Join(parts, c) == parts[0] + ([c] + Join(parts[1..], c));
    }
  }

  /** A join ends with the last character of its last piece, when that is
      not empty. */
  lemma {:induction false} JoinEnd(parts: seq<string>, c: char)
    requires |parts| > 0 && |parts[|parts| - 1]| > 0
    ensures var s := Join(parts, c); |s| > 0 && s[|s| - 1] == parts[|parts| - 1][|parts[|parts| - 1]| - 1]
    decreases |parts|
  {
    if |parts| > 1 {
      var rest := Join(parts[1..], c);
      JoinEnd(parts[1..], c);
      assert Join(parts, c) == (parts[0] + [c]) + rest;
    }
  }

  /** Splitting a join of separator-free pieces gives the pieces back. */
  lemma {:induction false} SplitJoin(parts: seq<string>, c: char)
    requires |parts| >= 1
    requires forall k :: 0 <= k < |parts| ==> c !in parts[k]
    ensures Split(Join(parts, c), c) == parts
    decreases |parts|
  {
    if |parts| == 1 {
      assert IndexOf(parts[0], c) == |parts[0]|;
    } else {
      var rest := Join(parts[1..], c);
      SplitCons(parts[0], rest, c);
      SplitJoin(parts[1..], c);
      assert parts == [parts[0]] + parts[1..];
    }
  }

  /** Text up to the first separator is the first piece of the split. */
  lemma SplitCons(p: string, t: string, c: char)
    requires c !in p
    ensures Split(p + [c] + t, c) == [p] + Split(t, c)
  {
    var s := p + [c] + t;
    IndexOfAfter(p, t, c);
    assert s[..|p|] == p;
    assert s[|p| + 1..] == t;
  }

  /** `s.split(c)` has one more piece than `s` has occurrences of `c`. */
  lemma {:induction false} SplitCount(s: string, c: char)
    ensures |Split(s, c)| == Count(s, c) + 1
    decreases |s|
  {
    var i := IndexOf(s, c);
    if i == |s| {
      assert c !in s;
      CountAbsent(s, c);
    } else {
      SplitCount(s[i + 1..], c);
      assert s == s[..i] + ([c] + s[i + 1..]);
      CountAppend(s[..i], [c] + s[i + 1..], c);
      assert c !in s[..i];
      CountAbsent(s[..i], c);
      assert ([c] + s[i + 1..])[1..] == s[i + 1..];
    }
  }

  // ---------------------------------------------------------------------------
  // split() on whitespace, and dropping empty pieces
  // ---------------------------------------------------------------------------

  /** Index of the first whitespace character in `s`, or `|s|`. */
  function SpaceIndex(s: string): (i: nat)
    ensures i <= |s|
    ensures i < |s| ==> IsSpace(s[i])
    ensures forall k :: 0 <= k < i ==> !IsSpace(s[k])
  {
    if |s| == 0 || IsSpace(s[0]) then 0 else 1 + SpaceIndex(s[1..])
  }

  /** Pieces that are non-empty runs of non-whitespace characters. */
  predicate WordList(r: seq<string>) {
    forall k :: 0 <= k < |r| ==> |r[k]| > 0 && NoSpace(r[k])
  }

  /** Python's `s.split()`: the maximal runs of non-whitespace characters. */
  function Words(s: string): (r: seq<string>)
    ensures WordList(r)
    decreases |s|
  {
    var t := TrimLeft(s);
    if |t| == 0 then []
    else
      var i := SpaceIndex(t);
      HeadWord(t);
      var rest := Words(t[i..]);
      WordListCons(t[..i], rest);
      [t[..i]] + rest
  }

  /** The run before the first whitespace of a text that starts with a
      non-space is a word. */
  lemma HeadWord(t: string)
    requires |t| > 0 && !IsSpace(t[0])
    ensures 0 < SpaceIndex(t) && NoSpace(t[..SpaceIndex(t)])
  {
    var i := SpaceIndex(t);
    assert forall k :: 0 <= k < i ==> t[..i][k] == t[k];
  }

  lemma WordListCons(w: string, rest: seq<string>)
    requires |w| > 0 && NoSpace(w) && WordList(rest)
    ensures WordList([w] + rest)
  {
    assert forall k :: 1 <= k < |rest| + 1 ==> ([w] + rest)[k] == rest[k - 1];
  }

  /** The list comprehension `[p for p in parts if p]`. */
  function NonEmpty(parts: seq<string>): (r: seq<string>)
    ensures |r| <= |parts|
    ensures forall k :: 0 <= k < |r| ==> |r[k]| > 0
    ensures forall p :: p in r <==> p in parts && |p| > 0
  {
    if |parts| == 0 then []
    else if |parts[0]| == 0 then NonEmpty(parts[1..])
    else [parts[0]] + NonEmpty(parts[1..])
  }

  // ---------------------------------------------------------------------------
  // Small predicates and character rewrites
  // ---------------------------------------------------------------------------

  predicate StartsWith(s: string, prefix: string) {
    |prefix| <= |s| && s[..|prefix|] == prefix
  }

  predicate EndsWith(s: string, suffix: string) {
    |suffix| <= |s| && s[|s| - |suffix|..] == suffix
  }

  /** Python's `sub in s`. */
  predicate Contains(s: string, sub: string) {
    exists i | 0 <= i <= |s| - |sub| :: OccursAt(s, sub, i)
  }

  predicate OccursAt(s: string, sub: string, i: nat)
    requires i <= |s| - |sub|
  {
    s[i..i + |sub|] == sub
  }

  /** `s.replace(c, "")`. */
  function Remove(s: string, c: char): (r: string)
    ensures c !in r
    ensures |r| == |s| - Count(s, c)
    ensures c !in s ==> r == s
    ensures |s| == 1 ==> r == (if s[0] == c then "" else s)
  {
    if |s| == 0 then ""
    else (if s[0] == c then "" else [s[0]]) + Remove(s[1..], c)
  }

  /** Removing a character distributes over concatenation; with the
      one-character cases this fixes `Remove` completely. */
  lemma {:induction false} RemoveAppend(a: string, b: string, c: char)
    ensures Remove(a + b, c) == Remove(a, c) + Remove(b, c)
  {
    if |a| == 0 {
      assert a + b == b;
    } else {
      assert (a + b)[0] == a[0];
      assert (a + b)[1..] == a[1..] + b;
      RemoveAppend(a[1..], b, c);
    }
  }

  /** `s.replace(a, b)` for single characters. */
  function Replace(s: string, a: char, b: char): (r: string)
    ensures |r| == |s|
    ensures forall i :: 0 <= i < |s| ==> r[i] == (if s[i] == a then b else s[i])
  {
    if |s| == 0 then "" else [if s[0] == a then b else s[0]] + Replace(s[1..], a, b)
  }

  /** ASCII case folding, as `tolower` does in the kernel's `strncasecmp`. */
  function LowerChar(c: char): char {
    if 'A' <= c <= 'Z' then (c as int + 32) as char else c
  }

  function Lower(s: string): (r: string)
    ensures |r| == |s|
    ensures forall i :: 0 <= i < |s| ==> r[i] == LowerChar(s[i])
  {
    if |s| == 0 then "" else [LowerChar(s[0])] + Lower(s[1..])
  }

  // ---------------------------------------------------------------------------
  // int(s) and str(n)
  // ---------------------------------------------------------------------------

  predicate IsDigit(c: char) {
    '0' <= c <= '9'
  }

  predicate AllDigits(s: string) {
    forall i :: 0 <= i < |s| ==> IsDigit(s[i])
  }

  function DigitChar(d: nat): (c: char)
    requires d < 10
    ensures IsDigit(c)
  {
    ('0' as int + d) as char
  }

  /** The value of a string of decimal digits. */
  function DigitsValue(s: string): nat
    requires AllDigits(s)
  {
    if |s| == 0 then 0
    else DigitsValue(s[..|s| - 1]) * 10 + (s[|s| - 1] as int - '0' as int)
  }

  /** Decimal text of a natural number, without leading zeros. */
  function NatToString(n: nat): (r: string)
    ensures |r| > 0 && AllDigits(r)
    decreases n
  {
    if n < 10 then [DigitChar(n)] else NatToString(n / 10) + [DigitChar(n % 10)]
  }

  /** Python's `str(n)` (and `f"{n}"`) for an integer. */
  function IntToString(n: int): string {
    if n < 0 then "-" + NatToString(-n) else NatToString(n)
  }

  /** Python's `int(s)`: optional surrounding whitespace, an optional sign and at
      least one decimal digit; anything else raises `ValueError`. */
  function ParseInt(s: string): Option<int> {
    ParseSigned(Strip(s))
  }

  /** `int()` of text without surrounding whitespace. */
  function ParseSigned(t: string): Option<int> {
    if |t| > 1 && (t[0] == '-' || t[0] == '+') && AllDigits(t[1..]) then
      var v: int := DigitsValue(t[1..]);
      Some(if t[0] == '-' then -v else v)
    else if |t| > 0 && AllDigits(t) then Some(DigitsValue(t))
    else None
  }

  lemma {:induction false} DigitsValueOfNatToString(n: nat)
    ensures DigitsValue(NatToString(n)) == n
    decreases n
  {
    if n >= 10 {
      var s := NatToString(n);
      DigitsValueOfNatToString(n / 10);
      assert s[..|s| - 1] == NatToString(n / 10);
    }
  }

  /** A character that is no digit does not occur in a string of digits. */
  lemma DigitsLack(s: string, x: char)
    requires AllDigits(s) && !IsDigit(x)
    ensures x !in s
  {
  }

  lemma DigitIsNotSpace(c: char)
    requires IsDigit(c)
    ensures !IsSpace(c)
  {
  }

  lemma ParseIntOfDigits(d: string)
    requires |d| > 0 && AllDigits(d)
    ensures ParseInt(d) == Some(DigitsValue(d))
  {
    DigitIsNotSpace(d[0]);
    DigitIsNotSpace(d[|d| - 1]);
    StripOfStripped(d);
  }

  lemma ParseIntOfNegative(s: string)
    requires |s| > 1 && s[0] == '-' && AllDigits(s[1..])
    ensures ParseInt(s) == Some(0 - DigitsValue(s[1..]) as int)
  {
    NegativeIsUnpadded(s);
    ParseIntOfUnpadded(s);
    ParseSignedOfNegative(s);
  }

  lemma ParseIntOfUnpadded(s: string)
    requires Strip(s) == s
    ensures ParseInt(s) == ParseSigned(s)
  {
  }

  lemma NegativeIsUnpadded(s: string)
    requires |s| > 1 && s[0] == '-' && AllDigits(s[1..])
    ensures Strip(s) == s
  {
    assert s[|s| - 1] == s[1..][|s| - 2];
    DigitIsNotSpace(s[|s| - 1]);
    StripOfStripped(s);
  }

  lemma ParseSignedOfNegative(s: string)
    requires |s| > 1 && s[0] == '-' && AllDigits(s[1..])
    ensures ParseSigned(s) == Some(0 - DigitsValue(s[1..]) as int)
  {
  }

  /** `int(str(n)) == n`. */
  lemma ParseIntOfIntToString(n: int)
    ensures ParseInt(IntToString(n)) == Some(n)
  {
    if n < 0 {
      ParseIntOfNegativeText(n);
    } else {
      ParseIntOfNatText(n);
    }
  }

  lemma ParseIntOfNatText(n: int)
    requires n >= 0
    ensures ParseInt(IntToString(n)) == Some(n)
  {
    var t := NatToString(n);
    assert IntToString(n) == t;
    DigitsValueOfNatToString(n);
    ParseIntOfDigits(t);
  }

  lemma ParseIntOfNegativeText(n: int)
    requires n < 0
    ensures ParseInt(IntToString(n)) == Some(n)
  {
    var t := NatToString(-n);
    var s := IntToString(n);
    assert s == "-" + t;
    assert s[0] == '-' && s[1..] == t;
    assert DigitsValue(t) == -n by {
      DigitsValueOfNatToString(-n);
    }
    ParseIntOfNegative(s);
  }

  /** `[int(l) for l in tokens]`: `None` as soon as one token is not an integer. */
  function ParseAll(tokens: seq<string>): (r: Option<seq<int>>)
    ensures r.Some? ==> |r.value| == |tokens|
    ensures r.Some? ==> forall i :: 0 <= i < |tokens| ==> ParseInt(tokens[i]) == Some(r.value[i])
  {
    if |tokens| == 0 then Some([])
    else
      var head := ParseInt(tokens[0]);
      var tail := ParseAll(tokens[1..]);
      if head.Some? && tail.Some? then
        assert forall i :: 1 <= i < |tokens| ==> tokens[i] == tokens[1..][i - 1];
        Some([head.value] + tail.value)
      else None
  }

  /** The decimal texts of a list of naturals. */
  function NatTexts(ns: seq<nat>): (ts: seq<string>)
    ensures |ts| == |ns|
    ensures forall i :: 0 <= i < |ns| ==> ts[i] == NatToString(ns[i])
  {
    seq(|ns|, i requires 0 <= i < |ns| => NatToString(ns[i]))
  }

  /** `[int(t) for t in ts]` reads decimal texts back as their numbers. */
  lemma {:induction false} ParseAllOfNatTexts(ns: seq<nat>)
    ensures ParseAll(NatTexts(ns)) == Some(ns)
  {
    if |ns| > 0 {
      var ts := NatTexts(ns);
      ParseIntOfNatText(ns[0]);
      assert IntToString(ns[0]) == ts[0];
      ParseAllOfNatTexts(ns[1..]);
      assert ts[1..] == NatTexts(ns[1..]);
      ParseAllCons(ts, ns[0], ns[1..]);
      assert ns == [ns[0]] + ns[1..];
    }
  }

  /** One step of `ParseAll`: a parsed head before a parsed tail. */
  lemma ParseAllCons(ts: seq<string>, n: int, rest: seq<int>)
    requires |ts| > 0 && ParseInt(ts[0]) == Some(n) && ParseAll(ts[1..]) == Some(rest)
    ensures ParseAll(ts) == Some([n] + rest)
  {
  }

  lemma {:induction false} ParseAllFailsOnBadToken(tokens: seq<string>, i: nat)
    requires i < |tokens| && ParseInt(tokens[i]).None?
    ensures ParseAll(tokens).None?
  {
    if i > 0 {
      assert tokens[1..][i - 1] == tokens[i];
      ParseAllFailsOnBadToken(tokens[1..], i - 1);
    }
  }
}
