/** String operations the scripts use from their languages' libraries, written out. */
module Text {
  import opened Base

  /** `sep` occurs in `s` at position `i`. */
  predicate OccursAt(s: string, sep: string, i: int)
  {
    0 <= i && i + |sep| <= |s| && s[i..i + |sep|] == sep
  }

  /** The first occurrence of `sep` in `s` at or after `from`. */
  function IndexFrom(s: string, sep: string, from: nat): (r: Option<nat>)
    decreases |s| - from
    ensures r.Some? ==> from <= r.value && OccursAt(s, sep, r.value)
  {
    if from + |sep| > |s| then None
    else if s[from..from + |sep|] == sep then Some(from)
    else IndexFrom(s, sep, from + 1)
  }

  /** The occurrence found is the first one at or after `from`; none found means there is none. */
  lemma {:induction false} IndexFromFirst(s: string, sep: string, from: nat)
    decreases |s| - from
    ensures var r := IndexFrom(s, sep, from);
      && (r.Some? ==> forall j :: from <= j < r.value ==> !OccursAt(s, sep, j))
      && (r.None? ==> forall j :: from <= j ==> !OccursAt(s, sep, j))
  {
    if from + |sep| <= |s| && s[from..from + |sep|] != sep {
      IndexFromFirst(s, sep, from + 1);
    }
  }

  /** The first occurrence of `sep` in `s`. */
  function IndexOf(s: string, sep: string): Option<nat>
  {
    IndexFrom(s, sep, 0)
  }

  /** Go's `strings.Contains`. */
  predicate Contains(s: string, sub: string)
  {
    IndexOf(s, sub).Some?
  }

  lemma ContainsIff(s: string, sub: string)
    ensures Contains(s, sub) <==> exists i :: OccursAt(s, sub, i)
  {
    IndexFromFirst(s, sub, 0);
    if !Contains(s, sub) {
      forall i ensures !OccursAt(s, sub, i) {
        if i >= 0 {
          assert !OccursAt(s, sub, i);
        }
      }
    }
  }

  /** Python's `s.split(sep)` and Go's `strings.Split(s, sep)` for a non-empty separator. */
  function Split(s: string, sep: string): (parts: seq<string>)
    requires |sep| > 0
    decreases |s|
    ensures |parts| >= 1
  {
    match IndexOf(s, sep)
    case None => [s]
    case Some(i) => [s[..i]] + Split(s[i + |sep|..], sep)
  }

  /** Python's `sep.join(parts)`. */
  function Join(parts: seq<string>, sep: string): string
  {
    if parts == [] then "" else if |parts| == 1 then parts[0] else parts[0] + sep + Join(parts[1..], sep)
  }

  /** Splitting and re-joining gives back the original string. */
  lemma {:induction false} JoinSplit(s: string, sep: string)
    requires |sep| > 0
    decreases |s|
    ensures Join(Split(s, sep), sep) == s
  {
    var found := IndexOf(s, sep);
    if found.Some? {
      var i := found.value;
      var rest := s[i + |sep|..];
      var tail := Split(rest, sep);
      assert Split(s, sep) == [s[..i]] + tail;
      JoinSplit(rest, sep);
      calc {
        Join(Split(s, sep), sep);
        s[..i] + sep + Join(tail, sep);
        s[..i] + sep + rest;
        { assert s[i..i + |sep|] == sep; }
        s;
      }
    }
  }

  /** No part of a split contains the separator. */
  lemma {:induction false} SplitPartsFree(s: string, sep: string)
    requires |sep| > 0
    decreases |s|
    ensures forall k :: 0 <= k < |Split(s, sep)| ==> !Contains(Split(s, sep)[k], sep)
  {
    match IndexOf(s, sep)
    case None =>
      ContainsIff(s, sep);
    case Some(i) =>
      var rest := s[i + |sep|..];
      SplitPartsFree(rest, sep);
      var head := s[..i];
      ContainsIff(head, sep);
      IndexFromFirst(s, sep, 0);
      forall j | OccursAt(head, sep, j) ensures false {
        assert s[j..j + |sep|] == head[j..j + |sep|];
        assert OccursAt(s, sep, j);
      }
      assert Split(s, sep) == [head] + Split(rest, sep);
  }

  /** When the first occurrence of `sep` in `a + sep + b` is the one after `a`, the split starts with `a`. */
  lemma SplitAtFirst(a: string, sep: string, b: string)
    requires |sep| > 0
    requires forall j :: 0 <= j < |a| ==> !OccursAt(a + sep + b, sep, j)
    ensures Split(a + sep + b, sep) == [a] + Split(b, sep)
  {
    var s := a + sep + b;
    assert OccursAt(s, sep, |a|) by {
      assert s[|a|..|a| + |sep|] == sep;
    }
    IndexFromFirst(s, sep, 0);
    assert IndexOf(s, sep) == Some(|a|);
    assert s[..|a|] == a;
    assert s[|a| + |sep|..] == b;
  }

  /** A string free of a one-character separator splits into itself. */
  lemma SplitFree(s: string, d: char)
    requires d !in s
    ensures Split(s, [d]) == [s]
  {
    forall j | 0 <= j < |s| ensures !OccursAt(s, [d], j) {
      assert s[j..j + 1][0] == s[j];
    }
  }

  /** Three separator-free fields joined by a one-character separator split back into those fields. */
  lemma SplitThree(a: string, b: string, c: string, d: char)
    requires d !in a && d !in b && d !in c
    ensures Split(a + [d] + b + [d] + c, [d]) == [a, b, c]
  {
    var tail := b + [d] + c;
    assert a + [d] + b + [d] + c == a + [d] + tail;
    forall j | 0 <= j < |a| ensures !OccursAt(a + [d] + tail, [d], j) {
      assert (a + [d] + tail)[j..j + 1][0] == a[j];
    }
    SplitAtFirst(a, [d], tail);
    forall j | 0 <= j < |b| ensures !OccursAt(b + [d] + c, [d], j) {
      assert (b + [d] + c)[j..j + 1][0] == b[j];
    }
    SplitAtFirst(b, [d], c);
    SplitFree(c, d);
  }

  /** Joining separator-free fields with a one-character separator and splitting again gives back the fields. */
  lemma {:induction false} SplitJoin(parts: seq<string>, d: char)
    requires |parts| >= 1 && forall k :: 0 <= k < |parts| ==> d !in parts[k]
    ensures Split(Join(parts, [d]), [d]) == parts
  {
    if |parts| == 1 {
      SplitFree(parts[0], d);
    } else {
      var a, b := parts[0], Join(parts[1..], [d]);
      assert Join(parts, [d]) == a + [d] + b;
      forall j | 0 <= j < |a| ensures !OccursAt(a + [d] + b, [d], j) {
        assert (a + [d] + b)[j..j + 1][0] == a[j];
      }
      SplitAtFirst(a, [d], b);
      SplitJoin(parts[1..], d);
      assert [a] + parts[1..] == parts;
    }
  }

  /** The first position at or after `from` holding `c`. */
  function FindChar(s: string, c: char, from: nat): (r: Option<nat>)
    decreases |s| - from
    ensures r.Some? ==> from <= r.value < |s| && s[r.value] == c
  {
    if from >= |s| then None else if s[from] == c then Some(from) else FindChar(s, c, from + 1)
  }

  /** Python's `s.split(c)` for a one-character separator, scanning character by character. */
  function SplitOn(s: string, c: char): (parts: seq<string>)
    decreases |s|
    ensures |parts| >= 1
  {
    match FindChar(s, c, 0)
    case None => [s]
    case Some(i) => [s[..i]] + SplitOn(s[i + 1..], c)
  }

  lemma {:induction false} FindCharIsIndexFrom(s: string, c: char, from: nat)
    decreases |s| - from
    ensures FindChar(s, c, from) == IndexFrom(s, [c], from)
  {
    if from < |s| {
      assert s[from..from + 1] == [s[from]];
      if s[from] != c {
        FindCharIsIndexFrom(s, c, from + 1);
      }
    }
  }

  /** The character scan splits exactly as the general `Split` does on that one-character separator. */
  lemma {:induction false} SplitOnIsSplit(s: string, c: char)
    decreases |s|
    ensures SplitOn(s, c) == Split(s, [c])
  {
    FindCharIsIndexFrom(s, c, 0);
    match FindChar(s, c, 0)
    case None =>
    case Some(i) =>
      SplitOnIsSplit(s[i + 1..], c);
  }

  /** Python's `s.replace(c, d)` for single characters. */
  function ReplaceChar(s: string, c: char, d: char): (r: string)
    ensures |r| == |s|
    ensures forall k :: 0 <= k < |s| ==> r[k] == if s[k] == c then d else s[k]
  {
    if s == [] then [] else [if s[0] == c then d else s[0]] + ReplaceChar(s[1..], c, d)
  }

  /** Python's `s.replace(c, '')` for a single character. */
  function RemoveChar(s: string, c: char): (r: string)
    ensures |r| <= |s|
    ensures c !in s ==> r == s
  {
    if s == [] then [] else (if s[0] == c then [] else [s[0]]) + RemoveChar(s[1..], c)
  }

  /** Removing a character never brings in another: a character absent before is absent after, and the removed one is gone. */
  lemma {:induction false} RemoveCharFree(s: string, c: char, d: char)
    requires d !in s || d == c
    ensures d !in RemoveChar(s, c)
  {
    if s != [] {
      RemoveCharFree(s[1..], c, d);
      assert RemoveChar(s, c) == (if s[0] == c then [] else [s[0]]) + RemoveChar(s[1..], c);
    }
  }

  /** Python's `str.isspace` for one character. */
  predicate IsSpace(c: char)
  {
    var n := c as int;
    n == 0x20 || (0x09 <= n <= 0x0d) || (0x1c <= n <= 0x1f) || n == 0x85 || n == 0xa0
    || n == 0x1680 || (0x2000 <= n <= 0x200a) || n == 0x2028 || n == 0x2029
    || n == 0x202f || n == 0x205f || n == 0x3000
  }

  function StripLeft(s: string): (r: string)
    ensures |r| <= |s|
    ensures r != [] ==> !IsSpace(r[0])
  {
    if s != [] && IsSpace(s[0]) then StripLeft(s[1..]) else s
  }

  function StripRight(s: string): (r: string)
    ensures |r| <= |s|
    ensures r != [] ==> !IsSpace(r[|r| - 1])
  {
    if s != [] && IsSpace(s[|s| - 1]) then StripRight(s[..|s| - 1]) else s
  }

  /** Stripping the left end keeps a suffix. */
  lemma {:induction false} StripLeftSuffix(s: string)
    ensures StripLeft(s) == s[|s| - |StripLeft(s)|..]
  {
    if s != [] && IsSpace(s[0]) {
      StripLeftSuffix(s[1..]);
    }
  }

  /** Stripping the right end keeps a prefix. */
  lemma {:induction false} StripRightPrefix(s: string)
    ensures StripRight(s) == s[..|StripRight(s)|]
  {
    if s != [] && IsSpace(s[|s| - 1]) {
      StripRightPrefix(s[..|s| - 1]);
    }
  }

  /** Python's `s.strip()`: no leading or trailing whitespace. */
  function Strip(s: string): (r: string)
    ensures |r| <= |s|
    ensures r != [] ==> !IsSpace(r[0]) && !IsSpace(r[|r| - 1])
  {
    var l := StripLeft(s);
    StripRightPrefix(l);
    StripRight(l)
  }

  /** Stripping only removes characters. */
  lemma StripFree(s: string, d: char)
    requires d !in s
    ensures d !in Strip(s)
  {
    var l := StripLeft(s);
    StripLeftSuffix(s);
    assert forall k :: 0 <= k < |l| ==> l[k] == s[|s| - |l| + k];
    var r := StripRight(l);
    StripRightPrefix(l);
    assert forall k :: 0 <= k < |r| ==> r[k] == l[k];
  }

  /** A string with no whitespace at either end is its own strip. */
  lemma StripUnchanged(s: string)
    requires s != [] && !IsSpace(s[0]) && !IsSpace(s[|s| - 1])
    ensures Strip(s) == s
  {
    assert StripLeft(s) == s;
    assert StripRight(s) == s;
  }

  /** Python's `s.rstrip('\n')`. */
  function StripNewlines(s: string): (r: string)
    ensures |r| <= |s| && r == s[..|r|]
    ensures r != [] ==> r[|r| - 1] != '\n'
  {
    if s != [] && s[|s| - 1] == '\n' then StripNewlines(s[..|s| - 1]) else s
  }

  /** One trailing newline after a string that does not end in one is stripped, and nothing else. */
  lemma StripOneNewline(body: string)
    requires body == [] || body[|body| - 1] != '\n'
    ensures StripNewlines(body + "\n") == body
  {
    assert (body + "\n")[..|body|] == body;
  }

  predicate IsDigit(c: char) { '0' <= c <= '9' }

  function DigitChar(d: nat): (c: char)
    requires d < 10
    ensures IsDigit(c)
  {
    ('0' as int + d) as char
  }

  function DigitValue(c: char): (d: nat)
    requires IsDigit(c)
    ensures d < 10
  {
    c as int - '0' as int
  }

  /** The decimal rendering of a natural number, as `str(n)` or `%s` of an int. */
  function NatToString(n: nat): (s: string)
    decreases n
    ensures |s| >= 1
    ensures forall k :: 0 <= k < |s| ==> IsDigit(s[k])
  {
    if n < 10 then [DigitChar(n)] else NatToString(n / 10) + [DigitChar(n % 10)]
  }

  /** The value of a non-empty string of decimal digits. */
  function DigitsValue(s: string): nat
    requires forall k :: 0 <= k < |s| ==> IsDigit(s[k])
  {
    if s == [] then 0 else DigitsValue(s[..|s| - 1]) * 10 + DigitValue(s[|s| - 1])
  }

  lemma {:induction false} DigitsValueOfNatToString(n: nat)
    decreases n
    ensures DigitsValue(NatToString(n)) == n
  {
    if n >= 10 {
      var s := NatToString(n);
      assert s[..|s| - 1] == NatToString(n / 10);
      DigitsValueOfNatToString(n / 10);
    }
  }

  /** A non-empty run of ASCII decimal digits. */
  predicate IsNumeral(s: string)
  {
    |s| > 0 && forall k :: 0 <= k < |s| ==> IsDigit(s[k])
  }

  /** Python's `int(s)` for ASCII decimal numerals: surrounding whitespace, an optional sign, digits. */
  function ParseInt(s: string): Option<int>
  {
    var t := Strip(s);
    if |t| > 0 && t[0] == '-' then (if IsNumeral(t[1..]) then Some(-(DigitsValue(t[1..]) as int)) else None)
    else if |t| > 0 && t[0] == '+' then (if IsNumeral(t[1..]) then Some(DigitsValue(t[1..])) else None)
    else if IsNumeral(t) then Some(DigitsValue(t))
    else None
  }

  /** `str(n)` for any integer. */
  function IntToString(n: int): string
  {
    if n < 0 then "-" + NatToString(-n) else NatToString(n)
  }

  /** A numeral parses to its value. */
  lemma ParseNumeral(d: string)
    requires IsNumeral(d)
    ensures ParseInt(d) == Some(DigitsValue(d))
  {
    assert !IsSpace(d[0]) && !IsSpace(d[|d| - 1]);
    StripUnchanged(d);
    assert d[0] != '-' && d[0] != '+';
  }

  /** A numeral after a minus sign parses to its negated value. */
  lemma ParseNegativeNumeral(d: string)
    requires IsNumeral(d)
    ensures ParseInt("-" + d) == Some(-(DigitsValue(d) as int))
  {
    var m := "-" + d;
    assert m[|m| - 1] == d[|d| - 1];
    assert !IsSpace(m[0]) && !IsSpace(m[|m| - 1]);
    StripUnchanged(m);
    assert m[1..] == d;
  }

  /** `int(str(n)) == n`. */
  lemma ParseIntToString(n: int)
    ensures ParseInt(IntToString(n)) == Some(n)
  {
    var m: nat := if n < 0 then -n else n;
    DigitsValueOfNatToString(m);
    if n < 0 {
      ParseNegativeNumeral(NatToString(m));
    } else {
      ParseNumeral(NatToString(m));
    }
  }

  // ----- lexicographic order (Python's `<` on str: by code point) -----

  predicate LexLess(a: string, b: string)
  {
    if a == [] then b != []
    else if b == [] then false
    else if a[0] != b[0] then a[0] < b[0]
    else LexLess(a[1..], b[1..])
  }

  predicate LexLessEq(a: string, b: string)
  {
    a == b || LexLess(a, b)
  }

  lemma {:induction false} LexIrreflexive(a: string)
    ensures !LexLess(a, a)
  {
    if a != [] { LexIrreflexive(a[1..]); }
  }

  lemma {:induction false} LexTotal(a: string, b: string)
    ensures a == b || LexLess(a, b) || LexLess(b, a)
  {
    if a != [] && b != [] && a[0] == b[0] {
      LexTotal(a[1..], b[1..]);
      if a[1..] == b[1..] {
        assert a == [a[0]] + a[1..] && b == [b[0]] + b[1..];
      }
    }
  }

  lemma {:induction false} LexTransitive(a: string, b: string, c: string)
    requires LexLess(a, b) && LexLess(b, c)
    ensures LexLess(a, c)
  {
    if a != [] && b != [] && c != [] && a[0] == b[0] && b[0] == c[0] {
      LexTransitive(a[1..], b[1..], c[1..]);
    }
  }

  lemma LexAsymmetric(a: string, b: string)
    requires LexLess(a, b)
    ensures !LexLess(b, a)
  {
    if LexLess(b, a) {
      LexTransitive(a, b, a);
      LexIrreflexive(a);
    }
  }

  predicate Sorted(s: seq<string>)
  {
    forall i, j :: 0 <= i < j < |s| ==> LexLessEq(s[i], s[j])
  }

  /** Insert `x` into a sorted sequence. */
  function Insert(x: string, s: seq<string>): (r: seq<string>)
    requires Sorted(s)
    ensures Sorted(r)
    ensures multiset(r) == multiset(s) + multiset{x}
  {
    if s == [] then [x]
    else if LexLessEq(x, s[0]) then
      assert forall k :: 0 <= k < |s| ==> LexLessEq(x, s[k]) by {
        forall k | 0 <= k < |s| ensures LexLessEq(x, s[k]) {
          if x != s[0] && s[0] != s[k] { LexTransitive(x, s[0], s[k]); }
        }
      }
      [x] + s
    else
      assert s == [s[0]] + s[1..];
      var rest := Insert(x, s[1..]);
      LexTotal(x, s[0]);
      assert forall k :: 0 <= k < |rest| ==> LexLessEq(s[0], rest[k]) by {
        forall k | 0 <= k < |rest| ensures LexLessEq(s[0], rest[k]) {
          assert rest[k] in multiset(rest);
          assert rest[k] == x || rest[k] in multiset(s[1..]);
          if rest[k] != x {
            assert rest[k] in s[1..];
          }
        }
      }
      [s[0]] + rest
  }

  /** Python's `sorted` on a list of strings: ascending and a permutation of the input. */
  function Sort(s: seq<string>): (r: seq<string>)
    ensures Sorted(r)
    ensures multiset(r) == multiset(s)
  {
    if s == [] then []
    else
      assert s == [s[0]] + s[1..];
      Insert(s[0], Sort(s[1..]))
  }
}
