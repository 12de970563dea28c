/** The Python `str` operations the scanner relies on (`lower`, `in`,
    `endswith`, `split`, `strip`, `int`), over `string == seq<char>`. */
module Text {
  import opened Common

  // ---------------------------------------------------------------- lower()

  /** `c.lower()` for one character; only ASCII letters change. */
  function LowerChar(c: char): char {
    if 'A' <= c <= 'Z' then (c as int + 32) as char else c
  }

  /** `s.lower()` on ASCII letters, character by character. */
  function Lower(s: string): (r: string)
    ensures |r| == |s|
    ensures forall i :: 0 <= i < |s| ==> r[i] == LowerChar(s[i])
  {
    seq(|s|, i requires 0 <= i < |s| => LowerChar(s[i]))
  }

  /** Lower-casing leaves no ASCII capital, and keeps every other character
      where it was. */
  lemma LowerLeavesNoCapital(s: string)
    ensures forall i :: 0 <= i < |s| ==> !('A' <= Lower(s)[i] <= 'Z')
    ensures forall i :: 0 <= i < |s| && !('A' <= s[i] <= 'Z') ==> Lower(s)[i] == s[i]
  {
  }

  // ------------------------------------------------------ `in`, endswith()

  /** `sub` occurs in `s` starting at index `i`. */
  predicate OccursAt(s: string, sub: string, i: int) {
    0 <= i && i + |sub| <= |s| && s[i..i + |sub|] == sub
  }

  /** Python's substring test `sub in s`. */
  predicate Contains(s: string, sub: string) {
    exists i | 0 <= i <= |s| - |sub| :: OccursAt(s, sub, i)
  }

  /** Python's `s.endswith(suffix)`. */
  predicate EndsWith(s: string, suffix: string) {
    |suffix| <= |s| && s[|s| - |suffix|..] == suffix
  }

  /** Appending a suffix makes a string end with it. */
  lemma EndsWithAppended(s: string, suffix: string)
    ensures EndsWith(s + suffix, suffix)
  {
    assert (s + suffix)[|s|..] == suffix;
  }

  // --------------------------------------------------------------- split()

  /** Python's `s.split(sep)` for a one-character separator: the pieces
      between consecutive separators, one more piece than separators. */
  function Split(s: string, sep: char): (parts: seq<string>)
    ensures |parts| >= 1
    ensures forall k :: 0 <= k < |parts| ==> sep !in parts[k]
    ensures |parts[0]| <= |s| && s[..|parts[0]|] == parts[0]
    ensures |parts[0]| < |s| ==> s[|parts[0]|] == sep
    decreases |s|
  {
    if s == [] then [[]]
    else
      var rest := Split(s[1..], sep);
      if s[0] == sep then [[]] + rest
      else [[s[0]] + rest[0]] + rest[1..]
  }

  /** Python's `sep.join(parts)`. */
  function Join(parts: seq<string>, sep: char): string {
    if parts == [] then []
    else if |parts| == 1 then parts[0]
    else parts[0] + [sep] + Join(parts[1..], sep)
  }

  /** Splitting loses nothing: joining the pieces gives the string back. */
  lemma {:induction false} SplitJoin(s: string, sep: char)
    ensures Join(Split(s, sep), sep) == s
    decreases |s|
  {
    if s != [] {
      var rest := Split(s[1..], sep);
      SplitJoin(s[1..], sep);
      var parts := Split(s, sep);
      if s[0] == sep {
        assert parts == [[]] + rest;
        JoinCons([], rest, sep);
      } else if |rest| == 1 {
        assert parts == [[s[0]] + rest[0]];
      } else {
        assert parts == [[s[0]] + rest[0]] + rest[1..];
        JoinCons(rest[0], rest[1..], sep);
        JoinCons([s[0]] + rest[0], rest[1..], sep);
      }
      assert [s[0]] + s[1..] == s;
    }
  }

  /** Joining a first piece in front of at least one more. */
  lemma JoinCons(first: string, rest: seq<string>, sep: char)
    requires |rest| >= 1
    ensures Join([first] + rest, sep) == first + [sep] + Join(rest, sep)
  {
    assert ([first] + rest)[1..] == rest;
  }

  /** A string without the separator is a single piece. */
  lemma {:induction false} SplitWithoutSeparator(s: string, sep: char)
    requires sep !in s
    ensures Split(s, sep) == [s]
    decreases |s|
  {
    if s != [] {
      assert sep !in s[1..];
      SplitWithoutSeparator(s[1..], sep);
      assert [s[0]] + s[1..] == s;
    }
  }

  /** Splitting at the first separator: the text before it is the first piece. */
  lemma {:induction false} SplitAtFirst(a: string, sep: char, b: string)
    requires sep !in a
    ensures Split(a + [sep] + b, sep) == [a] + Split(b, sep)
    decreases |a|
  {
    var s := a + [sep] + b;
    if a == [] {
      assert s[1..] == b;
    } else {
      assert s[1..] == a[1..] + [sep] + b;
      SplitAtFirst(a[1..], sep, b);
      assert [a[0]] + a[1..] == a;
    }
  }

  /** A string holding the separator splits into at least two pieces. */
  lemma SplitAtSeparator(s: string, sep: char)
    requires sep in s
    ensures |Split(s, sep)| >= 2
  {
    var parts := Split(s, sep);
    SplitJoin(s, sep);
  }

  /** Joining pieces that hold no separator and splitting again gives the
      pieces back. */
  lemma {:induction false} SplitOfJoin(parts: seq<string>, sep: char)
    requires |parts| >= 1
    requires forall k :: 0 <= k < |parts| ==> sep !in parts[k]
    ensures Split(Join(parts, sep), sep) == parts
    decreases |parts|
  {
    if |parts| == 1 {
      SplitWithoutSeparator(parts[0], sep);
    } else {
      var rest := parts[1..];
      SplitOfJoin(rest, sep);
      SplitAtFirst(parts[0], sep, Join(rest, sep));
      assert [parts[0]] + rest == parts;
    }
  }

  /** Every character other than the separator lands in some piece. */
  lemma CharInSomePiece(s: string, sep: char, c: char)
    requires c in s && c != sep
    ensures exists k :: 0 <= k < |Split(s, sep)| && c in Split(s, sep)[k]
  {
    var parts := Split(s, sep);
    SplitJoin(s, sep);
    JoinMembers(parts, sep, c);
  }

  /** A character of a join that is not the separator comes from a part. */
  lemma {:induction false} JoinMembers(parts: seq<string>, sep: char, c: char)
    requires c in Join(parts, sep) && c != sep
    ensures exists k :: 0 <= k < |parts| && c in parts[k]
  {
    if |parts| == 1 {
      assert c in parts[0];
    } else {
      var tail := Join(parts[1..], sep);
      assert Join(parts, sep) == parts[0] + [sep] + tail;
      if c in parts[0] {
      } else {
        assert c in tail;
        JoinMembers(parts[1..], sep, c);
        var k :| 0 <= k < |parts[1..]| && c in parts[1..][k];
        assert c in parts[k + 1];
      }
    }
  }

  // --------------------------------------------------------------- strip()

  /** Python's `str.isspace()` for one character: the 29 whitespace code points. */
  predicate IsSpace(c: char) {
    || '\t' <= c <= '\r'
    || '\U{1c}' <= c <= '\U{1f}'
    || c == ' '
    || c == '\U{85}'
    || c == '\U{a0}'
    || c == '\U{1680}'
    || '\U{2000}' <= c <= '\U{200a}'
    || c == '\U{2028}'
    || c == '\U{2029}'
    || c == '\U{202f}'
    || c == '\U{205f}'
    || c == '\U{3000}'
  }

  /** Drops the leading characters that satisfy `drop`. */
  function TrimStart(s: string, drop: char -> bool): (r: string)
    ensures |r| <= |s| && r == s[|s| - |r|..]
    ensures forall k :: 0 <= k < |s| - |r| ==> drop(s[k])
    ensures r == [] || !drop(r[0])
    decreases |s|
  {
    if s != [] && drop(s[0]) then TrimStart(s[1..], drop) else s
  }

  /** Drops the trailing characters that satisfy `drop`. */
  function TrimEnd(s: string, drop: char -> bool): (r: string)
    ensures |r| <= |s| && r == s[..|r|]
    ensures forall k :: |r| <= k < |s| ==> drop(s[k])
    ensures r == [] || !drop(r[|r| - 1])
    decreases |s|
  {
    if s != [] && drop(s[|s| - 1]) then TrimEnd(s[..|s| - 1], drop) else s
  }

  /** `r` is the slice of `s` at `i`, and every character before it and
      after it satisfies `drop`. */
  predicate SliceAmidDropped(s: string, drop: char -> bool, r: string, i: int) {
    && 0 <= i <= |s| - |r| && OccursAt(s, r, i)
    && (forall k :: 0 <= k < i ==> drop(s[k]))
    && (forall k :: i + |r| <= k < |s| ==> drop(s[k]))
  }

  /** Drops leading and trailing characters that satisfy `drop`: the
      result is a slice of `s` with only droppable characters around it,
      empty exactly when every character is dropped, and otherwise starts
      and ends with a kept character. */
  function Trim(s: string, drop: char -> bool): (r: string)
    ensures |r| <= |s| && exists i :: 0 <= i <= |s| - |r| && OccursAt(s, r, i)
    ensures SliceAmidDropped(s, drop, r, |s| - |TrimStart(s, drop)|)
    ensures r == [] <==> forall k :: 0 <= k < |s| ==> drop(s[k])
    ensures r != [] ==> !drop(r[0]) && !drop(r[|r| - 1])
  {
    var head := TrimStart(s, drop);
    var r := TrimEnd(head, drop);
    TrimmedAway(s, drop, head, r);
    r
  }

  /** The two trims leave a slice of `s` starting at the first kept
      character; what they removed was all droppable. */
  lemma TrimmedAway(s: string, drop: char -> bool, head: string, r: string)
    requires head == TrimStart(s, drop) && r == TrimEnd(head, drop)
    ensures |r| <= |head| <= |s| && OccursAt(s, r, |s| - |head|)
    ensures r == [] <==> forall k :: 0 <= k < |s| ==> drop(s[k])
    ensures r != [] ==> !drop(r[0]) && !drop(r[|r| - 1])
    ensures SliceAmidDropped(s, drop, r, |s| - |head|)
  {
    TrimmedSlice(s, drop, head, r);
    TrimmedTail(s, drop, head, r);
    if r == [] {
      TrimmedEverything(s, drop, head);
    } else {
      assert !drop(s[|s| - |head|]) by {
        assert r[0] == head[0] == s[|s| - |head|];
      }
    }
  }

  lemma TrimmedSlice(s: string, drop: char -> bool, head: string, r: string)
    requires head == TrimStart(s, drop) && r == TrimEnd(head, drop)
    ensures |r| <= |head| <= |s| && OccursAt(s, r, |s| - |head|)
  {
    SliceOfSuffix(s, |s| - |head|, r);
  }

  /** What the end trim removed from `s` was all droppable. */
  lemma TrimmedTail(s: string, drop: char -> bool, head: string, r: string)
    requires head == TrimStart(s, drop) && r == TrimEnd(head, drop)
    ensures forall k :: |s| - |head| + |r| <= k < |s| ==> drop(s[k])
  {
    var start := |s| - |head|;
    assert head == s[start..];
    assert forall j :: |r| <= j < |head| ==> drop(head[j]);
    forall k | start + |r| <= k < |s| ensures drop(s[k]) {
      assert s[k] == head[k - start];
    }
  }

  /** A prefix of the suffix from `start` is the slice starting there. */
  lemma SliceOfSuffix(s: string, start: nat, r: string)
    requires start <= |s| && |r| <= |s| - start && s[start..][..|r|] == r
    ensures OccursAt(s, r, start)
  {
    assert s[start..start + |r|] == s[start..][..|r|];
  }

  lemma TrimmedEverything(s: string, drop: char -> bool, head: string)
    requires head == TrimStart(s, drop) && TrimEnd(head, drop) == []
    ensures forall k :: 0 <= k < |s| ==> drop(s[k])
  {
    var start := |s| - |head|;
    forall k | 0 <= k < |s| ensures drop(s[k]) {
      if k >= start {
        assert s[k] == head[k - start];
      }
    }
  }

  /** Python's `s.strip()`. */
  function Strip(s: string): string {
    Trim(s, IsSpace)
  }

  // ----------------------------------------------------------------- int()

  predicate IsDigit(c: char) {
    '0' <= c <= '9'
  }

  /** A non-empty run of decimal digits: the text `int()` is modelled on. */
  predicate IsNumeral(t: string) {
    |t| > 0 && forall i :: 0 <= i < |t| ==> IsDigit(t[i])
  }

  function DigitValue(c: char): nat
    requires IsDigit(c)
  {
    c as int - '0' as int
  }

  function DigitChar(d: nat): (c: char)
    requires d < 10
    ensures IsDigit(c) && DigitValue(c) == d
  {
    (d + '0' as int) as char
  }

  /** The value of a string of decimal digits, most significant first. */
  function NumeralValue(t: string): nat
    requires forall i :: 0 <= i < |t| ==> IsDigit(t[i])
    decreases |t|
  {
    if t == [] then 0 else NumeralValue(t[..|t| - 1]) * 10 + DigitValue(t[|t| - 1])
  }

  /** `int(t)` for decimal text; `None` where `int` raises `ValueError`. */
  function ParseNat(t: string): (r: Option<nat>)
    ensures r.Some? <==> IsNumeral(t)
  {
    if IsNumeral(t) then Some(NumeralValue(t)) else None
  }

  /** `str(n)` for a natural number. */
  function ShowNat(n: nat): (t: string)
    ensures IsNumeral(t)
    decreases n
  {
    if n < 10 then [DigitChar(n)] else ShowNat(n / 10) + [DigitChar(n % 10)]
  }

  /** `int(str(n)) == n`. */
  lemma {:induction false} ParseShowNat(n: nat)
    ensures ParseNat(ShowNat(n)) == Some(n)
    decreases n
  {
    var t := ShowNat(n);
    if n < 10 {
      assert t == [DigitChar(n)];
      assert t[..|t| - 1] == [];
      assert NumeralValue(t) == DigitValue(t[0]) == n;
    } else {
      ParseShowNat(n / 10);
      assert t[..|t| - 1] == ShowNat(n / 10);
      assert NumeralValue(t) == (n / 10) * 10 + n % 10;
    }
  }
}
