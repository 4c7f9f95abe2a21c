/** String helpers with Python's meaning: lower-casing, suffix and substring tests,
    splitting on a separator, and decimal rendering of integers. */
module Text {
  import opened Wrappers

  /** Python's str.lower() on one character, restricted to ASCII letters. */
  function LowerChar(c: char): (r: char)
    ensures 'A' <= c <= 'Z' ==> 'a' <= r <= 'z' && r as int - 'a' as int == c as int - 'A' as int
    ensures !('A' <= c <= 'Z') ==> r == c
  {
    if 'A' <= c <= 'Z' then (c as int - 'A' as int + 'a' as int) as char else c
  }

  function Lower(s: string): (r: string)
    ensures |r| == |s|
    ensures forall i :: 0 <= i < |s| ==> r[i] == LowerChar(s[i])
  {
    seq(|s|, i requires 0 <= i < |s| => LowerChar(s[i]))
  }

  /** Lower-casing works character by character, so it distributes over concatenation. */
  lemma LowerAppend(a: string, b: string)
    ensures Lower(a + b) == Lower(a) + Lower(b)
  {
    assert forall k :: 0 <= k < |a + b| ==> Lower(a + b)[k] == (Lower(a) + Lower(b))[k];
  }

  /** Python's s.endswith(suffix). */
  predicate EndsWith(s: string, suffix: string) {
    |suffix| <= |s| && s[|s| - |suffix|..] == suffix
  }

  /** Python's `pattern in s` for strings: a contiguous occurrence. */
  predicate Contains(s: string, pattern: string) {
    exists i | 0 <= i <= |s| - |pattern| :: OccursAt(s, pattern, i)
  }

  /** pattern appears in s starting at position i. */
  predicate OccursAt(s: string, pattern: string, i: int) {
    0 <= i <= |s| - |pattern| && s[i..i + |pattern|] == pattern
  }

  /** Python's s.rfind(c) as an Option: the position of the last occurrence of c. */
  function LastIndexOf(s: string, c: char): (r: Option<nat>)
    ensures r.None? <==> c !in s
    ensures r.Some? ==> r.value < |s| && s[r.value] == c && c !in s[r.value + 1..]
  {
    if |s| == 0 then None
    else if s[|s| - 1] == c then Some(|s| - 1)
    else
      var r := LastIndexOf(s[..|s| - 1], c);
      assert s[..|s| - 1] + [s[|s| - 1]] == s;
      if r.Some? then
        assert s[r.value + 1..] == s[..|s| - 1][r.value + 1..] + [s[|s| - 1]];
        r
      else r
  }

  /** The last c of stem + [c] + rest is the one after stem when rest holds no c. */
  lemma {:induction false} LastIndexOfAfterStem(stem: string, rest: string, c: char)
    requires c !in rest
    ensures LastIndexOf(stem + [c] + rest, c) == Some(|stem|)
    decreases |rest|
  {
    var s := stem + [c] + rest;
    if |rest| > 0 {
      var shorter := rest[..|rest| - 1];
      assert s[..|s| - 1] == stem + [c] + shorter;
      assert s[|s| - 1] == rest[|rest| - 1];
      LastIndexOfAfterStem(stem, shorter, c);
    }
  }

  /** Number of occurrences of c in s. */
  function Count(s: string, c: char): nat {
    if |s| == 0 then 0 else (if s[0] == c then 1 else 0) + Count(s[1..], c)
  }

  lemma {:induction false} CountAppend(a: string, b: string, c: char)
    ensures Count(a + b, c) == Count(a, c) + Count(b, c)
  {
    if |a| == 0 {
      assert a + b == b;
    } else {
      assert (a + b)[1..] == a[1..] + b;
      CountAppend(a[1..], b, c);
    }
  }

  lemma {:induction false} CountAbsent(s: string, c: char)
    requires c !in s
    ensures Count(s, c) == 0
  {
    if |s| > 0 {
      assert s[1..] == s[1..] && forall k :: 1 <= k < |s| ==> s[k] == s[1..][k - 1];
      CountAbsent(s[1..], c);
    }
  }

  /** Re-assembles parts with sep between consecutive parts (Python's sep.join(parts)). */
  function Join(parts: seq<string>, sep: char): string
    requires |parts| >= 1
  {
    if |parts| == 1 then parts[0] else parts[0] + [sep] + Join(parts[1..], sep)
  }

  /** Python's s.split(sep) for a one-character separator: the maximal sep-free pieces,
      in order, one more than there are separators. */
  function Split(s: string, sep: char): (parts: seq<string>)
    ensures |parts| == Count(s, sep) + 1
    ensures forall k :: 0 <= k < |parts| ==> sep !in parts[k]
    ensures Join(parts, sep) == s
  {
    if |s| == 0 then [""]
    else
      var rest := Split(s[1..], sep);
      if s[0] == sep then
        assert s == [sep] + s[1..];
        [""] + rest
      else
        var parts := [[s[0]] + rest[0]] + rest[1..];
        assert parts[1..] == rest[1..];
        assert s == [s[0]] + s[1..];
        parts
  }

  /** One decimal digit. */
  function DigitChar(d: nat): (c: char)
    requires d < 10
    ensures '0' <= c <= '9'
    ensures c as int - '0' as int == d
  {
    ('0' as int + d) as char
  }

  /** Python's str(n) for a natural number: decimal digits, no leading zeros. */
  function NatToString(n: nat): (s: string)
    ensures |s| >= 1
    ensures |s| == 1 <==> n < 10
    ensures forall i :: 0 <= i < |s| ==> '0' <= s[i] <= '9'
  {
    if n < 10 then [DigitChar(n)] else NatToString(n / 10) + [DigitChar(n % 10)]
  }

  /** Python's str(i) for an integer: a minus sign before the digits of a negative value. */
  function IntToString(i: int): (s: string)
    ensures |s| >= 1
    ensures '.' !in s && '-' !in s[1..]
    ensures i >= 0 <==> '0' <= s[0] <= '9'
  {
    if i < 0 then "-" + NatToString(-i) else NatToString(i)
  }

  /** Different naturals render differently, so decimal rendering can be read back. */
  lemma {:induction false} NatToStringInjective(a: nat, b: nat)
    requires NatToString(a) == NatToString(b)
    ensures a == b
    decreases a
  {
    if a >= 10 && b >= 10 {
      var sa, sb := NatToString(a), NatToString(b);
      assert sa[..|sa| - 1] == NatToString(a / 10);
      assert sb[..|sb| - 1] == NatToString(b / 10);
      NatToStringInjective(a / 10, b / 10);
      assert sa[|sa| - 1] == DigitChar(a % 10);
      assert sb[|sb| - 1] == DigitChar(b % 10);
    }
  }

  lemma IntToStringInjective(a: int, b: int)
    requires IntToString(a) == IntToString(b)
    ensures a == b
  {
    if a < 0 {
      assert IntToString(a)[1..] == NatToString(-a);
      assert IntToString(b)[1..] == NatToString(-b);
      NatToStringInjective(-a, -b);
    } else {
      NatToStringInjective(a, b);
    }
  }

  /** In a + [sep] + r with sep not in a, the first sep is the one right after a. */
  lemma FirstSeparator(a: string, r: string, sep: char)
    requires sep !in a
    ensures (a + [sep] + r)[|a|] == sep
    ensures forall i :: 0 <= i < |a| ==> (a + [sep] + r)[i] != sep
  {
  }

  /** When two strings agree after splitting each at its first sep, the heads agree and so do the tails. */
  lemma SplitAtSeparator(a: string, b: string, r1: string, r2: string, sep: char)
    requires sep !in a && sep !in b
    requires a + [sep] + r1 == b + [sep] + r2
    ensures a == b && r1 == r2
  {
    var s := a + [sep] + r1;
    FirstSeparator(a, r1, sep);
    FirstSeparator(b, r2, sep);
    assert |a| == |b|;
    assert a == s[..|a|];
    assert b == s[..|b|];
    assert r1 == s[|a| + 1..];
  }

  /** The text of s before its first c (all of s when it has none). */
  function TakeUntil(s: string, c: char): string {
    if |s| == 0 || s[0] == c then [] else [s[0]] + TakeUntil(s[1..], c)
  }

  /** A c-free head followed by nothing or by c is read back by TakeUntil. */
  lemma {:induction false} TakeUntilHead(head: string, tail: string, c: char)
    requires c !in head
    requires tail == [] || tail[0] == c
    ensures TakeUntil(head + tail, c) == head
  {
    if |head| > 0 {
      assert (head + tail)[1..] == head[1..] + tail;
      TakeUntilHead(head[1..], tail, c);
    } else {
      assert head + tail == tail;
    }
  }
}
