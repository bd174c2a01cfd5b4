/** The few string operations of the Go standard library that the injector relies on.
    A Go string is a byte sequence; every `char` of a model string stands for one byte. */
module Strings {

  datatype Option<+T> = None | Some(value: T)

  // `t` occurs in `s` at index `i`.
  predicate OccursAt(t: string, s: string, i: nat) {
    i + |t| <= |s| && s[i..i + |t|] == t
  }

  // strings.HasPrefix
  predicate HasPrefix(s: string, prefix: string) {
    OccursAt(prefix, s, 0)
  }

  // strings.TrimPrefix
  function TrimPrefix(s: string, prefix: string): string {
    if HasPrefix(s, prefix) then s[|prefix|..] else s
  }

  // strings.Contains
  predicate Contains(s: string, t: string) {
    exists i: nat | i <= |s| :: OccursAt(t, s, i)
  }

  // Index of the first `c` at or after `from`, or |s|.
  function IndexFrom(s: string, c: char, from: nat): (i: nat)
    requires from <= |s|
    ensures from <= i <= |s|
    ensures i < |s| ==> s[i] == c
    ensures c !in s[from..i]
    decreases |s| - from
  {
    if from == |s| || s[from] == c then from else IndexFrom(s, c, from + 1)
  }

  // strings.SplitN(s, c, n) for n >= 1 and a one-character separator.
  function SplitN(s: string, c: char, n: nat): (parts: seq<string>)
    requires n >= 1
    ensures 1 <= |parts| <= n
    decreases n
  {
    var i := IndexFrom(s, c, 0);
    if n == 1 || i == |s| then [s] else [s[..i]] + SplitN(s[i + 1..], c, n - 1)
  }

  // strings.Split(s, c) for a one-character separator.
  function Split(s: string, c: char): (parts: seq<string>)
    ensures |parts| >= 1
    decreases |s|
  {
    var i := IndexFrom(s, c, 0);
    if i == |s| then [s] else [s[..i]] + Split(s[i + 1..], c)
  }

  // strings.ReplaceAll: every non-overlapping occurrence of `old`, from the left.
  function ReplaceAll(s: string, target: string, replacement: string): string
    requires target != ""
    decreases |s|
  {
    if |s| < |target| then s
    else if HasPrefix(s, target) then replacement + ReplaceAll(s[|target|..], target, replacement)
    else [s[0]] + ReplaceAll(s[1..], target, replacement)
  }

  // The ASCII characters that unicode.IsSpace accepts.
  predicate IsSpace(c: char) {
    c in {' ', '\t', '\n', '\r', '\U{0B}', '\U{0C}'}
  }

  // strings.TrimSpace
  function TrimSpace(s: string): string {
    if s == "" then s
    else if IsSpace(s[0]) then TrimSpace(s[1..])
    else if IsSpace(s[|s| - 1]) then TrimSpace(s[..|s| - 1])
    else s
  }

  lemma PrefixOfSum(a: string, b: string)
    ensures HasPrefix(a + b, a) && TrimPrefix(a + b, a) == b
  {
    assert (a + b)[0..|a|] == a && (a + b)[|a|..] == b;
  }

  // The head of a split never holds the separator; a lone part means there was none.
  lemma SplitNHead(s: string, c: char, n: nat)
    requires n >= 2
    ensures c !in SplitN(s, c, n)[0]
    ensures |SplitN(s, c, n)| == 1 <==> c !in s
  {
    var i := IndexFrom(s, c, 0);
    assert i == |s| ==> s[0..i] == s;
    assert s[0..i] == s[..i];
  }

  // Joining a name without the separator to any value splits back into the two.
  lemma SplitNRoundTrip(name: string, c: char, value: string)
    requires c !in name
    ensures SplitN(name + [c] + value, c, 2) == [name, value]
  {
    var s := name + [c] + value;
    assert s[0..|name|] == name;
    IndexFromIs(s, c, 0, |name|);
    assert s[|name| + 1..] == value;
  }

  lemma {:induction false} IndexFromIs(s: string, c: char, from: nat, k: nat)
    requires from <= k < |s| && s[k] == c && c !in s[from..k]
    ensures IndexFrom(s, c, from) == k
    decreases k - from
  {
    if from < k {
      assert s[from] == s[from..k][0];
      assert s[from + 1..k] == s[from..k][1..];
      IndexFromIs(s, c, from + 1, k);
    }
  }

  function Join(parts: seq<string>, c: char): string
    requires parts != []
    decreases |parts|
  {
    if |parts| == 1 then parts[0] else parts[0] + [c] + Join(parts[1..], c)
  }

  lemma JoinCons(head: string, rest: seq<string>, c: char)
    requires rest != []
    ensures Join([head] + rest, c) == head + [c] + Join(rest, c)
  {
    assert ([head] + rest)[1..] == rest;
  }

  // The first separator cuts the string.
  lemma CutAt(s: string, c: char)
    ensures var i := IndexFrom(s, c, 0);
      if i == |s| then c !in s else c !in s[..i] && s == s[..i] + [c] + s[i + 1..]
  {
    var i := IndexFrom(s, c, 0);
    assert s[0..i] == s[..i];
    assert i == |s| ==> s[..i] == s;
  }

  // All parts but the last few are free of the separator.
  predicate PartsFree(parts: seq<string>, c: char, count: nat) {
    forall k | 0 <= k < |parts| && k < count :: c !in parts[k]
  }

  lemma PartsFreeCons(head: string, rest: seq<string>, c: char, count: nat)
    requires c !in head && PartsFree(rest, c, count)
    ensures PartsFree([head] + rest, c, count + 1)
  {
  }

  /** Splitting everywhere: the parts hold no separator, and joined give the string. */
  lemma {:induction false} SplitMeaning(s: string, c: char)
    ensures Join(Split(s, c), c) == s && PartsFree(Split(s, c), c, |Split(s, c)|)
    decreases |s|
  {
    var i := IndexFrom(s, c, 0);
    CutAt(s, c);
    if i < |s| {
      var rest := Split(s[i + 1..], c);
      assert Split(s, c) == [s[..i]] + rest;
      hide Split, Join;
      SplitMeaning(s[i + 1..], c);
      JoinCons(s[..i], rest, c);
      PartsFreeCons(s[..i], rest, c, |rest|);
    }
  }

  /** Splitting into at most n parts: only the last may hold a separator, and only if there are n. */
  lemma {:induction false} SplitNMeaning(s: string, c: char, n: nat)
    requires n >= 1
    ensures Join(SplitN(s, c, n), c) == s
    ensures var parts := SplitN(s, c, n); PartsFree(parts, c, if |parts| < n then |parts| else n - 1)
    decreases n
  {
    var i := IndexFrom(s, c, 0);
    CutAt(s, c);
    if n > 1 && i < |s| {
      var rest := SplitN(s[i + 1..], c, n - 1);
      assert SplitN(s, c, n) == [s[..i]] + rest;
      hide SplitN, Join;
      SplitNMeaning(s[i + 1..], c, n - 1);
      JoinCons(s[..i], rest, c);
      PartsFreeCons(s[..i], rest, c, if |rest| < n - 1 then |rest| else n - 2);
    }
  }

  // Tabulator to carriage return, and the blank.
  lemma SpaceCodes(c: char)
    ensures IsSpace(c) <==> 9 <= c as int <= 13 || c as int == 32
  {
  }

  predicate Blank(s: string) {
    forall k | 0 <= k < |s| :: IsSpace(s[k])
  }

  lemma BlankSum(a: string, b: string)
    requires Blank(a) && Blank(b)
    ensures Blank(a + b)
  {
  }

  lemma Regroup(a: string, b: string, c: string, d: string)
    ensures a + (b + c + d) == (a + b) + c + d
    ensures (a + b + c) + d == a + b + (c + d)
  {
  }

  // One step of trimming, at the front or at the back.
  lemma TrimStep(s: string)
    requires s != ""
    ensures if IsSpace(s[0]) then TrimSpace(s) == TrimSpace(s[1..])
            else if IsSpace(s[|s| - 1]) then TrimSpace(s) == TrimSpace(s[..|s| - 1])
            else TrimSpace(s) == s
  {
    hide IsSpace;
  }

  lemma EndsOf(s: string)
    requires s != ""
    ensures s == [s[0]] + s[1..] && s == s[..|s| - 1] + [s[|s| - 1]]
  {
  }

  /** Trimming takes blanks from both ends, and all of them. */
  lemma {:induction false} TrimSpaceMeaning(s: string) returns (before: string, after: string)
    ensures s == before + TrimSpace(s) + after && Blank(before) && Blank(after)
    ensures var t := TrimSpace(s); t != "" ==> !IsSpace(t[0]) && !IsSpace(t[|t| - 1])
    decreases |s|
  {
    before, after := "", "";
    if s != "" {
      TrimStep(s);
      EndsOf(s);
      var first, last, t := [s[0]], [s[|s| - 1]], TrimSpace(s);
      hide TrimSpace;
      if IsSpace(s[0]) {
        before, after := TrimSpaceMeaning(s[1..]);
        BlankSum(first, before);
        Regroup(first, before, t, after);
        before := first + before;
      } else if IsSpace(s[|s| - 1]) {
        before, after := TrimSpaceMeaning(s[..|s| - 1]);
        BlankSum(after, last);
        Regroup(before, t, after, last);
        after := after + last;
      }
    }
  }
}
