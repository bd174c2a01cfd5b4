/** What the splice loop of the resolver computes: one strings.ReplaceAll per match that was
    found in the original value, applied one after the other to the changing value. */
module Substitution {
  import opened Strings
  import opened Pattern

  // ---------------------------------------------------------------------------------------
  // The code's loop, and what it is meant to compute.
  // ---------------------------------------------------------------------------------------

  // The texts of the matches, in the order in which the loop visits them.
  function Texts(s: string, spans: seq<Span>): (texts: seq<string>)
    requires forall m | m in spans :: m.In(s)
    ensures |texts| == |spans|
    ensures forall k | 0 <= k < |spans| :: texts[k] == spans[k].Text(s)
    ensures "" !in texts
  {
    assert forall k | 0 <= k < |spans| :: spans[k] in spans && |spans[k].Text(s)| >= 3;
    seq(|spans|, k requires 0 <= k < |spans| => spans[k].Text(s))
  }

  type Valuation = string -> Option<string>

  // A text without a value (a missing secret that may be ignored) is left in place.
  function Splice(cur: string, texts: seq<string>, val: Valuation): string
    requires "" !in texts
    decreases |texts|
  {
    if texts == [] then cur
    else
      var next := match val(texts[0]) case None => cur case Some(v) => ReplaceAll(cur, texts[0], v);
      Splice(next, texts[1..], val)
  }

  // Every match replaced by its own value, all at once.
  function Substitute(s: string, from: nat, spans: seq<Span>, val: Valuation): string
    requires Ordered(s, from, spans)
    decreases |spans|
  {
    if spans == [] then s[from..]
    else
      var m := spans[0];
      var v := match val(m.Text(s)) case None => m.Text(s) case Some(v) => v;
      s[from..m.start] + v + Substitute(s, m.end, spans[1..], val)
  }

  predicate Ordered(s: string, from: nat, spans: seq<Span>)
    decreases |spans|
  {
    && from <= |s|
    && (spans != [] ==> spans[0].In(s) && from <= spans[0].start && Ordered(s, spans[0].end, spans[1..]))
  }

  // ---------------------------------------------------------------------------------------
  // The hypotheses, all of which can be checked on the template and the resolved values.
  // ---------------------------------------------------------------------------------------

  // The three ways in which a reference can begin.
  function Opener(updates: nat): (o: string)
    requires updates <= 2
    ensures |o| >= 1 && o[0] == '$'
    ensures '}' !in o
  {
    "${" + Signs(updates) + Marker
  }

  function Signs(updates: nat): string
    requires updates <= 2
  {
    if updates == 0 then "" else if updates == 1 then ">" else ">>"
  }

  predicate Comparable(a: string, b: string) {
    a <= b || b <= a
  }

  // No reference begins in `text`, whatever follows it: no opener, and no start of one at the end.
  predicate OpenerFree(text: string) {
    forall p: nat, n: nat | p < |text| && n <= 2 :: !Comparable(text[p..], Opener(n))
  }

  // The target does not begin in `text`, whatever follows it.
  predicate Foreign(text: string, target: string) {
    forall p | 0 <= p < |text| :: !Comparable(text[p..], target)
  }

  // The line goes on to a closing brace, or to the end of the text.
  predicate Closable(text: string, q: nat)
    requires q <= |text|
    decreases |text| - q
  {
    q == |text| || text[q] == '}' || (text[q] != '\n' && Closable(text, q + 1))
  }

  // A reference may begin here: the text breaks off inside an opener, or goes on after one.
  predicate CanOpenAs(text: string, p: nat, n: nat)
    requires p <= |text| && n <= 2
  {
    || text[p..] <= Opener(n)
    || (Opener(n) <= text[p..] && Closable(text, p + |Opener(n)|))
  }

  predicate CanOpen(text: string, p: nat)
    requires p <= |text|
  {
    exists n: nat | n <= 2 :: CanOpenAs(text, p, n)
  }

  // No reference can begin in `text`, whatever follows it.
  predicate Harmless(text: string) {
    forall p: nat | p < |text| :: !CanOpen(text, p)
  }

  // A match of the pattern, taken alone.
  predicate RefText(text: string) {
    MatchEnd(text, 0) == Some(|text|)
  }

  // A reference with no other reference inside it.
  predicate FlatRef(text: string) {
    RefText(text) && OpenerFree(text[1..])
  }

  predicate CleanTemplate(s: string, from: nat, spans: seq<Span>)
    requires Ordered(s, from, spans)
    decreases |spans|
  {
    if spans == [] then Harmless(s[from..])
    else
      && Harmless(s[from..spans[0].start])
      && FlatRef(spans[0].Text(s))
      && CleanTemplate(s, spans[0].end, spans[1..])
  }

  // No later match begins in a value.
  predicate CleanValues(texts: seq<string>, val: Valuation) {
    forall i, j | 0 <= i < j < |texts| && val(texts[i]).Some? :: Foreign(val(texts[i]).value, texts[j])
  }

  // Values that are not empty and do not begin with `}`.
  predicate SolidValues(texts: seq<string>, val: Valuation) {
    forall t | t in texts :: val(t).Some? ==> val(t).value != "" && val(t).value[0] != '}'
  }

  // No match text is another one followed by `}`.
  predicate Apart(texts: seq<string>) {
    forall t, u | t in texts && u in texts :: u != t + "}"
  }

  // Whenever a match text is an earlier one followed by `}`, it was itself met before that one.
  predicate LongestFirst(texts: seq<string>) {
    forall i: nat, j: nat | i < j < |texts| && texts[j] == texts[i] + "}" :: texts[j] in texts[..i]
  }

  // ---------------------------------------------------------------------------------------
  // Shape of a reference.
  // ---------------------------------------------------------------------------------------

  // Where the scanner closes: at the first brace of the line, or one further.
  lemma {:induction false} CloseShape(s: string, p: nat) returns (r: nat)
    requires p <= |s| && CloseEnd(s, p).Some?
    ensures p <= r < |s| && s[r] == '}'
    ensures forall k | p <= k < r :: s[k] != '}' && s[k] != '\n'
    ensures CloseEnd(s, p).value == if r + 1 < |s| && s[r + 1] == '}' then r + 2 else r + 1
    decreases |s| - p
  {
    if s[p] == '}' { r := p; } else { r := CloseShape(s, p + 1); }
  }

  lemma {:induction false} CloseFrom(s: string, p: nat, r: nat)
    requires p <= r < |s| && s[r] == '}'
    requires forall k | p <= k < r :: s[k] != '}' && s[k] != '\n'
    ensures CloseEnd(s, p) == Some(if r + 1 < |s| && s[r + 1] == '}' then r + 2 else r + 1)
    decreases r - p
  {
    if p < r { CloseFrom(s, p + 1, r); }
  }

  lemma OccursSplit(a: string, b: string, s: string, i: nat)
    ensures OccursAt(a + b, s, i) <==> OccursAt(a, s, i) && OccursAt(b, s, i + |a|)
  {
    if i + |a| + |b| <= |s| {
      var whole := s[i..i + |a| + |b|];
      assert whole[..|a|] == s[i..i + |a|] && whole[|a|..] == s[i + |a|..i + |a| + |b|];
      assert (a + b)[..|a|] == a && (a + b)[|a|..] == b;
      assert whole == whole[..|a|] + whole[|a|..];
    }
  }

  lemma OpenerParts(s: string, i: nat, n: nat)
    requires n <= 2
    ensures OccursAt(Opener(n), s, i)
      <==> OccursAt("${", s, i) && OccursAt(Signs(n), s, i + 2) && OccursAt(Marker, s, i + 2 + n)
  {
    assert Opener(n) == "${" + Signs(n) + Marker;
    hide Opener, OccursAt;
    OccursSplit("${" + Signs(n), Marker, s, i);
    OccursSplit("${", Signs(n), s, i);
  }

  lemma SignsAt(s: string, j: nat, n: nat)
    requires n <= 2 && j <= |s|
    ensures OccursAt(Signs(n), s, j) <==> j + n <= |s| && forall q | j <= q < j + n :: s[q] == '>'
  {
    UpdatesAt(s, j);
    assert n == 0 ==> s[j..j] == "";
  }

  // Where the scanner expects the marker.
  function MarkerPlace(s: string, j: nat): nat {
    if OccursAt(">>", s, j) then j + 2 else if OccursAt(">", s, j) then j + 1 else j
  }

  lemma MarkerPlaceIs(s: string, j: nat, n: nat)
    requires n <= 2
    ensures OccursAt(Signs(n), s, j) && OccursAt(Marker, s, j + n)
      <==> MarkerPlace(s, j) == j + n && OccursAt(Marker, s, j + n)
  {
    if OccursAt(Marker, s, j + n) {
      SignsAt(s, j, n);
      UpdatesAt(s, j);
      UpdatesAt(s, j + n);
      hide OccursAt;
    }
  }

  lemma OpenerEndIs(s: string, i: nat)
    ensures OpenerEnd(s, i) ==
      var k := MarkerPlace(s, i + 2);
      if OccursAt("${", s, i) && OccursAt(Marker, s, k) then Some(k + 14) else None
  {
    hide OccursAt;
  }

  // The scanner's test for a beginning is exactly the occurrence of one of the three openers.
  lemma OpenerAt(s: string, i: nat, n: nat)
    requires n <= 2
    ensures OccursAt(Opener(n), s, i) <==> OpenerEnd(s, i) == Some(i + 16 + n)
  {
    hide Opener, OccursAt, OpenerEnd, MarkerPlace, Signs;
    OpenerParts(s, i, n);
    OpenerEndIs(s, i);
    MarkerPlaceIs(s, i + 2, n);
  }

  // ---------------------------------------------------------------------------------------
  // Facts about references and reference-free text.
  // ---------------------------------------------------------------------------------------

  // A reference is an opener, then text without a brace or newline, then one brace or two.
  lemma RefShape(t: string) returns (n: nat, r: nat)
    requires RefText(t)
    ensures n <= 2 && Opener(n) <= t && 16 + n <= r < |t| && t[r] == '}'
    ensures forall k | 16 + n <= k < r :: t[k] != '}' && t[k] != '\n'
    ensures |t| == if r + 1 < |t| && t[r + 1] == '}' then r + 2 else r + 1
  {
    var o := OpenerEnd(t, 0).value;
    n := o - 16;
    OpenerAt(t, 0, n);
    r := CloseShape(t, o);
  }

  lemma RefFrom(t: string, n: nat, r: nat)
    requires n <= 2 && Opener(n) <= t && 16 + n <= r < |t| && t[r] == '}'
    requires forall k | 16 + n <= k < r :: t[k] != '}' && t[k] != '\n'
    requires |t| == if r + 1 < |t| && t[r + 1] == '}' then r + 2 else r + 1
    ensures RefText(t)
  {
    OpenerAt(t, 0, n);
    CloseFrom(t, 16 + n, r);
  }

  // The opener fixes the number of `>`s.
  lemma OpenerUnique(t: string, m: nat, n: nat)
    requires m <= 2 && n <= 2 && Opener(m) <= t && Opener(n) <= t
    ensures m == n
  {
    OpenerAt(t, 0, m);
    OpenerAt(t, 0, n);
  }

  // Two references of which one begins with the other close at the same brace.
  lemma SharedClose(a: string, b: string) returns (r: nat)
    requires RefText(a) && RefText(b) && a <= b
    ensures r + 1 <= |a| <= |b| <= r + 2
    ensures |b| == r + 2 ==> b[r + 1] == '}'
  {
    var n, p := RefShape(a);
    var m, q := RefShape(b);
    OpenerUnique(b, n, m);
    assert b[p] == a[p];
    r := q;
  }

  // The only way for one reference to begin with another is a doubled closing brace.
  lemma RefPrefix(a: string, b: string)
    requires RefText(a) && RefText(b) && a < b
    ensures b == a + "}"
  {
    var r := SharedClose(a, b);
    assert b == a + b[|a|..];
  }

  // A reference closed by one of two braces would not be complete.
  lemma SingleBrace(t: string, n: nat, r: nat)
    requires n <= 2 && Opener(n) <= t && 16 + n <= r < |t| && t[r] == '}'
    requires forall k | 16 + n <= k < r :: t[k] != '}' && t[k] != '\n'
    requires RefText(t + "}")
    ensures |t| == r + 1
  {
    var m, q := RefShape(t + "}");
    hide MatchEnd;
    OpenerUnique(t + "}", m, n);
    assert (t + "}")[r] == '}';
    assert forall k | 16 + n <= k < r :: (t + "}")[k] == t[k];
  }

  lemma MatchShape(s: string, i: nat) returns (n: nat, r: nat)
    requires i <= |s| && MatchEnd(s, i).Some?
    ensures n <= 2 && OccursAt(Opener(n), s, i) && i + 16 + n <= r < |s| && s[r] == '}'
    ensures forall k | i + 16 + n <= k < r :: s[k] != '}' && s[k] != '\n'
    ensures MatchEnd(s, i).value == if r + 1 < |s| && s[r + 1] == '}' then r + 2 else r + 1
  {
    var o := OpenerEnd(s, i).value;
    n := o - i - 16;
    OpenerAt(s, i, n);
    hide OpenerEnd, Opener, CloseEnd;
    r := CloseShape(s, o);
  }

  lemma PrefixOfSlice(o: string, s: string, i: nat, e: nat)
    requires OccursAt(o, s, i) && i + |o| <= e <= |s|
    ensures o <= s[i..e]
  {
    assert s[i..e][..|o|] == s[i..i + |o|];
  }

  // What the scanner found at a place is a reference on its own, and a single closing brace
  // is not followed by another.
  lemma MatchIsRef(s: string, i: nat)
    requires i <= |s| && MatchEnd(s, i).Some?
    ensures RefText(s[i..MatchEnd(s, i).value])
    ensures var e := MatchEnd(s, i).value;
      RefText(s[i..e] + "}") ==> e == |s| || s[e] != '}'
  {
    hide MatchEnd, OpenerEnd, CloseEnd, Opener, OccursAt;
    var n, r := MatchShape(s, i);
    var e := MatchEnd(s, i).value;
    var t := s[i..e];
    OpenerLength(n);
    PrefixOfSlice(Opener(n), s, i, e);
    assert forall k | 0 <= k < |t| :: t[k] == s[i + k];
    RefFrom(t, n, r - i);
    if RefText(t + "}") { SingleBrace(t, n, r - i); }
  }

  // Where something that begins with `o` occurs inside `text`, `o` begins there too, or at least
  // the part of it that `text` still holds.
  lemma BeginsComparably(o: string, ref: string, text: string, rest: string, p: nat)
    requires o <= ref && p < |text| && OccursAt(ref, text + rest, p)
    ensures Comparable(text[p..], o)
  {
    var whole := text + rest;
    assert forall k | 0 <= k < |o| :: whole[p + k] == whole[p..p + |ref|][k] == ref[k] == o[k];
    assert forall k | p <= k < |text| :: whole[k] == text[k];
    if |o| <= |text[p..]| {
      assert o == text[p..][..|o|];
    } else {
      assert text[p..] == o[..|text[p..]|];
    }
  }

  lemma ForeignThenBrace(text: string, target: string)
    requires Foreign(text, target) && RefText(target)
    ensures Foreign(text + "}", target)
  {
    RefBegins(target);
    forall q | 0 <= q < |text + "}"|
      ensures !Comparable((text + "}")[q..], target)
    {
      assert (text + "}")[q..] == text[q..] + "}";
      if q < |text| {
        assert !Comparable(text[q..], target);
        ComparableShorter(text[q..], target);
      } else {
        assert (text + "}")[q..] == "}";
      }
    }
  }

  lemma ComparableShorter(a: string, target: string)
    ensures Comparable(a + "}", target) ==> Comparable(a, target)
  {
    if a + "}" <= target {
      assert a == target[..|a|];
    } else if target <= a + "}" {
      assert forall k | 0 <= k < |target| :: target[k] == (a + "}")[k];
      assert |target| <= |a| ==> target == a[..|target|];
      assert |target| == |a| + 1 ==> target == a + "}";
    }
  }

  lemma {:induction false} ClosableUpTo(text: string, q: nat, e: nat)
    requires q <= e <= |text| && (e == |text| || text[e] == '}')
    requires forall k | q <= k < e :: text[k] != '\n'
    ensures Closable(text, q)
    decreases e - q
  {
    if q < e { ClosableUpTo(text, q + 1, e); }
  }

  // The brace, or the end, that it goes on to.
  lemma {:induction false} ClosableEnd(text: string, q: nat) returns (e: nat)
    requires q <= |text| && Closable(text, q)
    ensures q <= e <= |text| && (e == |text| || text[e] == '}')
    ensures forall k | q <= k < e :: text[k] != '\n' && text[k] != '}'
    decreases |text| - q
  {
    if q == |text| || text[q] == '}' { e := q; } else { e := ClosableEnd(text, q + 1); }
  }

  lemma PrefixesCompare(a: string, b: string, whole: string)
    requires a <= whole && b <= whole
    ensures if |a| <= |b| then a <= b else b <= a
  {
    assert a == whole[..|a|] && b == whole[..|b|];
  }

  lemma PrefixChain(a: string, b: string, c: string)
    requires a <= b && b <= c
    ensures a <= c
  {
    assert a == b[..|a|] == c[..|a|];
  }

  // Where a reference begins in the text, or would with what follows, one can begin.
  lemma BeginsCanOpen(text: string, p: nat, u: string)
    requires p < |text| && RefText(u) && Comparable(text[p..], u)
    ensures CanOpen(text, p)
  {
    hide Opener, MatchEnd;
    var n, r := RefShape(u);
    var o, here := Opener(n), text[p..];
    OpenerLength(n);
    if here <= u { PrefixesCompare(here, o, u); } else { PrefixChain(o, u, here); }
    if !(here <= o) {
      var e := if p + r < |text| then p + r else |text|;
      assert forall k | 0 <= k < |here| && k < |u| :: text[p + k] == here[k] == u[k];
      forall k | p + |o| <= k < e ensures text[k] != '\n' { assert text[p + (k - p)] == u[k - p]; }
      assert e < |text| ==> text[p + r] == u[r];
      ClosableUpTo(text, p + |o|, e);
    }
    assert CanOpenAs(text, p, n);
  }

  lemma OpenerLength(n: nat)
    requires n <= 2
    ensures |Opener(n)| == 16 + n
    ensures '$' !in Opener(n)[1..]
  {
  }

  lemma HarmlessIsForeign(text: string, u: string)
    requires Harmless(text) && RefText(u)
    ensures Foreign(text, u)
  {
    forall p | 0 <= p < |text| ensures !Comparable(text[p..], u) {
      if Comparable(text[p..], u) { BeginsCanOpen(text, p, u); }
    }
  }

  /** Of the values, that of the match visited last does not matter. */
  lemma LastValueFree(texts: seq<string>, val: Valuation)
    requires AllRefs(texts)
    requires forall i | 0 <= i < |texts| - 1 :: val(texts[i]).Some? ==> Harmless(val(texts[i]).value)
    ensures CleanValues(texts, val)
  {
    forall i, j | 0 <= i < j < |texts| && val(texts[i]).Some?
      ensures Foreign(val(texts[i]).value, texts[j])
    {
      HarmlessIsForeign(val(texts[i]).value, texts[j]);
    }
  }

  // Text in which the target does not begin is copied.
  lemma {:induction false} ReplaceSkips(text: string, rest: string, target: string, v: string)
    requires target != ""
    requires forall p | 0 <= p < |text| :: !OccursAt(target, text + rest, p)
    ensures ReplaceAll(text + rest, target, v) == text + ReplaceAll(rest, target, v)
  {
    hide ReplaceAll;
    var whole := text + rest;
    if text == "" {
      assert whole == rest;
    } else {
      assert !OccursAt(target, whole, 0);
      var tail := text[1..] + rest;
      assert whole == [text[0]] + tail;
      forall p | 0 <= p < |text[1..]|
        ensures !OccursAt(target, tail, p)
      {
        assert !OccursAt(target, whole, p + 1);
        OccursLater(target, tail, text[0], p);
      }
      ReplaceSkips(text[1..], rest, target, v);
      ReplaceCopies(text[0], tail, target, v);
      assert [text[0]] + (text[1..] + ReplaceAll(rest, target, v)) == text + ReplaceAll(rest, target, v);
    }
  }

  lemma OccursLater(t: string, s: string, c: char, p: nat)
    ensures OccursAt(t, [c] + s, p + 1) <==> OccursAt(t, s, p)
  {
    if p + |t| <= |s| {
      assert ([c] + s)[p + 1..p + 1 + |t|] == s[p..p + |t|];
    }
  }

  lemma ReplaceCopies(c: char, s: string, target: string, v: string)
    requires target != "" && !OccursAt(target, [c] + s, 0)
    ensures ReplaceAll([c] + s, target, v) == [c] + ReplaceAll(s, target, v)
  {
    assert ([c] + s)[1..] == s;
    if |[c] + s| < |target| {
      ReplaceShort(s, target, v);
    }
  }

  lemma ReplaceShort(s: string, target: string, v: string)
    requires target != "" && |s| < |target|
    ensures ReplaceAll(s, target, v) == s
  {
  }

  // ---------------------------------------------------------------------------------------
  // The changing value as pieces: text that stays, and references still to be replaced.
  // ---------------------------------------------------------------------------------------

  datatype Piece = Lit(text: string) | Ref(text: string)

  function Render(ps: seq<Piece>): string {
    if ps == [] then "" else ps[0].text + Render(ps[1..])
  }

  // None of these matches begins in the text, nor inside the reference.
  predicate Good(p: Piece, texts: seq<string>) {
    match p case Lit(t) => (forall u | u in texts :: Foreign(t, u)) case Ref(t) => FlatRef(t)
  }

  predicate AllGood(ps: seq<Piece>, texts: seq<string>) {
    forall k | 0 <= k < |ps| :: Good(ps[k], texts)
  }

  // What one ReplaceAll does to a piece.
  function StepPiece(p: Piece, target: string, v: string): Piece {
    if p.Ref? && target <= p.text then Lit(v + p.text[|target|..]) else p
  }

  function Step(ps: seq<Piece>, target: string, v: string): (qs: seq<Piece>)
    ensures |qs| == |ps| && forall k | 0 <= k < |ps| :: qs[k] == StepPiece(ps[k], target, v)
  {
    if ps == [] then [] else [StepPiece(ps[0], target, v)] + Step(ps[1..], target, v)
  }

  // The target is not completed by a brace that only happens to follow a shorter reference.
  predicate NoStrayBrace(ps: seq<Piece>, target: string)
    decreases |ps|
  {
    ps != [] ==>
      && (ps[0].Ref? && target == ps[0].text + "}" ==> NotBraced(Render(ps[1..])))
      && NoStrayBrace(ps[1..], target)
  }

  predicate NotBraced(s: string) {
    s != "" ==> s[0] != '}'
  }

  lemma StepKeepsGood(ps: seq<Piece>, target: string, v: string, later: seq<string>)
    requires AllGood(ps, later) && RefText(target) && AllRefs(later)
    requires forall u | u in later :: Foreign(v, u)
    ensures AllGood(Step(ps, target, v), later)
  {
    forall u | u in later ensures Foreign(v + "}", u) {
      ForeignThenBrace(v, u);
    }
    forall k | 0 <= k < |ps|
      ensures Good(Step(ps, target, v)[k], later)
    {
      assert Good(ps[k], later);
      var t := ps[k].text;
      if ps[k].Ref? && target <= t {
        if target < t { RefPrefix(target, t); }
        assert v + t[|target|..] == v || v + t[|target|..] == v + "}";
      }
    }
  }

  /** One ReplaceAll replaces exactly the references that begin with the target. */
  lemma {:induction false} ReplaceIsStep(ps: seq<Piece>, target: string, v: string)
    requires AllGood(ps, [target]) && RefText(target) && NoStrayBrace(ps, target)
    ensures ReplaceAll(Render(ps), target, v) == Render(Step(ps, target, v))
  {
    if ps == [] {
      ReplaceShort("", target, v);
    } else {
      assert Good(ps[0], [target]);
      assert AllGood(ps[1..], [target]);
      ReplaceIsStep(ps[1..], target, v);
      ReplaceInPiece(ps[0], Render(ps[1..]), target, v);
    }
  }

  lemma ReplaceInPiece(p: Piece, rest: string, target: string, v: string)
    requires Good(p, [target]) && RefText(target)
    requires p.Ref? && target == p.text + "}" ==> NotBraced(rest)
    ensures ReplaceAll(p.text + rest, target, v) == StepPiece(p, target, v).text + ReplaceAll(rest, target, v)
  {
    if p.Ref? && target <= p.text {
      if target < p.text { RefPrefix(target, p.text); }
      var tail := p.text[|target|..];
      assert p.text == target + tail && (tail == "" || tail == "}");
      ReplaceAtFront(target, tail, rest, v);
    } else {
      forall k | 0 <= k < |p.text|
        ensures !OccursAt(target, p.text + rest, k)
      {
        PieceHidesNothing(p, rest, target, k);
      }
      ReplaceSkips(p.text, rest, target, v);
    }
  }

  lemma ReplaceAtFront(target: string, tail: string, rest: string, v: string)
    requires RefText(target) && (tail == "" || tail == "}")
    ensures ReplaceAll(target + tail + rest, target, v) == v + tail + ReplaceAll(rest, target, v)
  {
    hide ReplaceAll;
    RefBegins(target);
    BraceIsCopied(tail, rest, target, v);
    ReplaceTakes(target, tail + rest, v);
    assert target + tail + rest == target + (tail + rest);
  }

  lemma ReplaceTakes(target: string, s: string, v: string)
    requires target != ""
    ensures ReplaceAll(target + s, target, v) == v + ReplaceAll(s, target, v)
  {
    assert (target + s)[0..|target|] == target;
    assert (target + s)[|target|..] == s;
  }

  lemma BraceIsCopied(tail: string, rest: string, target: string, v: string)
    requires RefText(target) && (tail == "" || tail == "}")
    ensures ReplaceAll(tail + rest, target, v) == tail + ReplaceAll(rest, target, v)
  {
    RefBegins(target);
    forall k | 0 <= k < |tail|
      ensures !OccursAt(target, tail + rest, k)
    {
      assert (tail + rest)[k] == '}';
      assert k + |target| <= |tail + rest| ==> (tail + rest)[k..k + |target|][0] == '}';
    }
    ReplaceSkips(tail, rest, target, v);
  }

  lemma PieceHidesNothing(p: Piece, rest: string, target: string, k: nat)
    requires Good(p, [target]) && RefText(target) && k < |p.text|
    requires p.Ref? ==> !(target <= p.text) && (target == p.text + "}" ==> NotBraced(rest))
    ensures !OccursAt(target, p.text + rest, k)
  {
    assert p.Ref? && k > 0 ==> p.text[1..][k - 1..] == p.text[k..];
    if OccursAt(target, p.text + rest, k) {
      if p.Ref? && k == 0 {
        PrefixOfBoth(target, p.text, rest);
        RefPrefix(p.text, target);
      } else if p.Ref? {
        var n, _ := RefShape(target);
        BeginsComparably(Opener(n), target, p.text, rest, k);
      } else {
        assert target in [target];
        BeginsComparably(target, target, p.text, rest, k);
      }
    }
  }

  lemma PrefixOfBoth(target: string, text: string, rest: string)
    requires OccursAt(target, text + rest, 0) && !(target <= text)
    ensures text < target
    ensures rest != "" && target[|text|] == rest[0]
  {
    var whole := text + rest;
    assert whole[..|target|] == target;
    assert forall k | 0 <= k < |target| :: target[k] == whole[k];
    assert target <= text || target[..|text|] == text;
  }

  // ---------------------------------------------------------------------------------------
  // The whole loop.
  // ---------------------------------------------------------------------------------------

  predicate AllRefs(texts: seq<string>) {
    forall k | 0 <= k < |texts| :: RefText(texts[k])
  }

  function StepAll(ps: seq<Piece>, texts: seq<string>, val: Valuation): (qs: seq<Piece>)
    decreases |texts|
  {
    if texts == [] then ps
    else
      StepAll(match val(texts[0]) case None => ps case Some(v) => Step(ps, texts[0], v), texts[1..], val)
  }

  /** What ends up in place of a match: the value of the first text, in loop order, that has one
      and that the match begins with, followed by what is left of the match. */
  function Effective(texts: seq<string>, val: Valuation, t: string): Option<string>
    decreases |texts|
  {
    if texts == [] then None
    else if val(texts[0]).Some? && texts[0] <= t then Some(val(texts[0]).value + t[|texts[0]|..])
    else Effective(texts[1..], val, t)
  }

  function FillPiece(p: Piece, val: Valuation): Piece {
    if p.Ref? && val(p.text).Some? then Lit(val(p.text).value) else p
  }

  function Fill(ps: seq<Piece>, val: Valuation): (qs: seq<Piece>)
    ensures |qs| == |ps| && forall k | 0 <= k < |ps| :: qs[k] == FillPiece(ps[k], val)
  {
    if ps == [] then [] else [FillPiece(ps[0], val)] + Fill(ps[1..], val)
  }

  lemma {:induction false} StepAllIsFill(ps: seq<Piece>, texts: seq<string>, val: Valuation)
    ensures StepAll(ps, texts, val) == Fill(ps, t => Effective(texts, val, t))
    decreases |texts|
  {
    if texts != [] && val(texts[0]).Some? {
      var v := val(texts[0]).value;
      StepAllIsFill(Step(ps, texts[0], v), texts[1..], val);
    } else if texts != [] {
      StepAllIsFill(ps, texts[1..], val);
    }
  }

  // A reference closed by a single brace is not followed by another one.
  predicate Sealed(ps: seq<Piece>)
    decreases |ps|
  {
    ps != [] ==>
      && (ps[0].Ref? && RefText(ps[0].text + "}") ==> NotBraced(Render(ps[1..])))
      && Sealed(ps[1..])
  }

  predicate ApartFrom(ps: seq<Piece>, texts: seq<string>) {
    forall k, t | 0 <= k < |ps| && ps[k].Ref? && t in texts :: t != ps[k].text + "}"
  }

  lemma {:induction false} SealedHasNoStray(ps: seq<Piece>, target: string)
    requires RefText(target) && (Sealed(ps) || ApartFrom(ps, [target]))
    ensures NoStrayBrace(ps, target)
    decreases |ps|
  {
    if ps != [] {
      assert ApartFrom(ps, [target]) ==> ps[0].Ref? ==> target in [target] && target != ps[0].text + "}";
      SealedHasNoStray(ps[1..], target);
    }
  }

  lemma {:induction false} StepKeepsUnbraced(ps: seq<Piece>, target: string, v: string, texts: seq<string>)
    requires AllGood(ps, texts) && v != "" && v[0] != '}' && NotBraced(Render(ps))
    ensures NotBraced(Render(Step(ps, target, v)))
    decreases |ps|
  {
    if ps != [] {
      assert Good(ps[0], texts);
      assert AllGood(ps[1..], texts);
      if ps[0].text == "" {
        assert ps[0].Lit?;
        StepKeepsUnbraced(ps[1..], target, v, texts);
      } else {
        assert Render(ps)[0] == ps[0].text[0];
      }
    }
  }

  lemma {:induction false} StepKeepsSealed(ps: seq<Piece>, target: string, v: string, texts: seq<string>)
    requires AllGood(ps, texts) && v != "" && v[0] != '}' && Sealed(ps)
    ensures Sealed(Step(ps, target, v))
    decreases |ps|
  {
    if ps != [] {
      assert AllGood(ps[1..], texts);
      StepKeepsSealed(ps[1..], target, v, texts);
      assert Step(ps, target, v)[1..] == Step(ps[1..], target, v);
      if ps[0].Ref? && RefText(ps[0].text + "}") {
        StepKeepsUnbraced(ps[1..], target, v, texts);
      }
    }
  }

  lemma LessGood(ps: seq<Piece>, texts: seq<string>, fewer: seq<string>)
    requires AllGood(ps, texts) && forall u | u in fewer :: u in texts
    ensures AllGood(ps, fewer)
  {
    forall k | 0 <= k < |ps| ensures Good(ps[k], fewer) { assert Good(ps[k], texts); }
  }

  lemma {:induction false} SpliceIsStepAll(ps: seq<Piece>, texts: seq<string>, val: Valuation)
    requires "" !in texts && AllGood(ps, texts) && AllRefs(texts) && CleanValues(texts, val)
    requires (Sealed(ps) && SolidValues(texts, val)) || ApartFrom(ps, texts)
    ensures Splice(Render(ps), texts, val) == Render(StepAll(ps, texts, val))
    decreases |texts|
  {
    if texts != [] {
      var t, later := texts[0], texts[1..];
      assert t in texts && RefText(t);
      assert forall u | u in later :: u in texts;
      assert forall i | 0 <= i < |later| :: later[i] == texts[i + 1];
      LessGood(ps, texts, later);
      LessGood(ps, texts, [t]);
      match val(t)
      case None => SpliceIsStepAll(ps, later, val);
      case Some(v) =>
        SealedHasNoStray(ps, t);
        ReplaceIsStep(ps, t, v);
        StepKeepsGood(ps, t, v, later);
        if Sealed(ps) && SolidValues(texts, val) { StepKeepsSealed(ps, t, v, later); }
        SpliceIsStepAll(Step(ps, t, v), texts[1..], val);
    }
  }

  // ---------------------------------------------------------------------------------------
  // The pieces of a scanned value.
  // ---------------------------------------------------------------------------------------

  function Pieces(s: string, from: nat, spans: seq<Span>): seq<Piece>
    requires Ordered(s, from, spans)
    decreases |spans|
  {
    if spans == [] then [Lit(s[from..])]
    else
      [Lit(s[from..spans[0].start]), Ref(spans[0].Text(s))] + Pieces(s, spans[0].end, spans[1..])
  }

  lemma {:induction false} PiecesRender(s: string, from: nat, spans: seq<Span>, val: Valuation)
    requires Ordered(s, from, spans)
    ensures Render(Pieces(s, from, spans)) == s[from..]
    ensures Render(Fill(Pieces(s, from, spans), val)) == Substitute(s, from, spans, val)
    decreases |spans|
  {
    if spans != [] {
      var m := spans[0];
      var lit, ref, rest := Lit(s[from..m.start]), Ref(m.Text(s)), Pieces(s, m.end, spans[1..]);
      PiecesRender(s, m.end, spans[1..], val);
      RenderTwo(lit, ref, rest);
      assert s[from..] == s[from..m.start] + m.Text(s) + s[m.end..];
      FillTwo(lit, ref, rest, val);
      RenderTwo(lit, FillPiece(ref, val), Fill(rest, val));
    } else {
      assert Fill([Lit(s[from..])], val) == [Lit(s[from..])];
    }
  }

  lemma RenderTwo(a: Piece, b: Piece, rest: seq<Piece>)
    ensures Render([a, b] + rest) == a.text + b.text + Render(rest)
  {
    var ps := [a, b] + rest;
    assert ps[1..] == [b] + rest;
    assert ps[1..][1..] == rest;
  }

  lemma FillTwo(a: Piece, b: Piece, rest: seq<Piece>, val: Valuation)
    ensures Fill([a, b] + rest, val) == [FillPiece(a, val), FillPiece(b, val)] + Fill(rest, val)
  {
  }

  // What the scanner knows about its own result.
  lemma {:induction false} ScanFacts(s: string, from: nat)
    requires from <= |s|
    ensures Ordered(s, from, ScanFrom(s, from))
    ensures forall m | m in ScanFrom(s, from) :: MatchEnd(s, m.start) == Some(m.end)
    decreases |s| - from
  {
    if from < |s| {
      var e := MatchEnd(s, from);
      if e.Some? {
        ScanFacts(s, e.value);
      } else {
        ScanFacts(s, from + 1);
        var rest := ScanFrom(s, from + 1);
        if rest != [] { assert rest[0] in rest; }
      }
    }
  }

  lemma TwoGood(a: Piece, b: Piece, rest: seq<Piece>, texts: seq<string>)
    requires Good(a, texts) && Good(b, texts) && AllGood(rest, texts)
    ensures AllGood([a, b] + rest, texts)
  {
  }

  lemma HarmlessIsGood(text: string, texts: seq<string>)
    requires Harmless(text) && AllRefs(texts)
    ensures Good(Lit(text), texts)
  {
    forall u | u in texts ensures Foreign(text, u) { HarmlessIsForeign(text, u); }
  }

  lemma {:induction false} ScannedPieces(s: string, from: nat, spans: seq<Span>, texts: seq<string>)
    requires Ordered(s, from, spans) && CleanTemplate(s, from, spans) && AllRefs(texts)
    ensures AllGood(Pieces(s, from, spans), texts)
    decreases |spans|
  {
    if spans == [] {
      HarmlessIsGood(s[from..], texts);
    } else {
      var m := spans[0];
      HarmlessIsGood(s[from..m.start], texts);
      ScannedPieces(s, m.end, spans[1..], texts);
      TwoGood(Lit(s[from..m.start]), Ref(m.Text(s)), Pieces(s, m.end, spans[1..]), texts);
    }
  }

  predicate RefsIn(ps: seq<Piece>, texts: seq<string>) {
    forall k | 0 <= k < |ps| :: ps[k].Ref? ==> ps[k].text in texts
  }

  lemma {:induction false} ScannedRefs(s: string, from: nat, spans: seq<Span>, texts: seq<string>)
    requires Ordered(s, from, spans)
    requires forall m | m in spans :: m.In(s) && m.Text(s) in texts
    ensures RefsIn(Pieces(s, from, spans), texts)
    decreases |spans|
  {
    if spans != [] {
      assert spans[0] in spans;
      ScannedRefs(s, spans[0].end, spans[1..], texts);
    }
  }

  lemma TwoSealed(a: Piece, b: Piece, rest: seq<Piece>)
    requires a.Lit? && Sealed(rest)
    requires b.Ref? && RefText(b.text + "}") ==> NotBraced(Render(rest))
    ensures Sealed([a, b] + rest)
  {
    var ps := [a, b] + rest;
    assert ps[1..] == [b] + rest;
    assert ([b] + rest)[1..] == rest;
  }

  lemma {:induction false} ScannedSealed(s: string, from: nat, spans: seq<Span>)
    requires Ordered(s, from, spans)
    requires forall m | m in spans :: MatchEnd(s, m.start) == Some(m.end)
    ensures Sealed(Pieces(s, from, spans))
    decreases |spans|
  {
    if spans == [] {
      assert [Lit(s[from..])][1..] == [];
    } else {
      var m := spans[0];
      assert m in spans;
      ScannedSealed(s, m.end, spans[1..]);
      PiecesRender(s, m.end, spans[1..], t => None);
      MatchIsRef(s, m.start);
      assert m.end < |s| ==> s[m.end..][0] == s[m.end];
      TwoSealed(Lit(s[from..m.start]), Ref(m.Text(s)), Pieces(s, m.end, spans[1..]));
    }
  }

  lemma ScannedTexts(s: string)
    ensures var texts := Texts(s, FindAll(s));
      AllRefs(texts) && Ordered(s, 0, FindAll(s))
  {
    ScanFacts(s, 0);
    var spans := FindAll(s);
    forall k | 0 <= k < |spans|
      ensures RefText(Texts(s, spans)[k])
    {
      assert spans[k] in spans;
      MatchIsRef(s, spans[k].start);
    }
  }

  lemma ScannedApart(s: string)
    requires Ordered(s, 0, FindAll(s))
    ensures var texts := Texts(s, FindAll(s));
      Apart(texts) ==> ApartFrom(Pieces(s, 0, FindAll(s)), texts)
  {
    var spans := FindAll(s);
    var texts := Texts(s, spans);
    forall m | m in spans
      ensures m.Text(s) in texts
    {
      var k :| 0 <= k < |spans| && spans[k] == m;
      assert texts[k] == m.Text(s);
    }
    ScannedRefs(s, 0, spans, texts);
  }

  // ---------------------------------------------------------------------------------------
  // Results.
  // ---------------------------------------------------------------------------------------

  /** The exact meaning of the loop: a simultaneous substitution, but of the effective values. */
  lemma SpliceMeaning(s: string, val: Valuation)
    requires Ordered(s, 0, FindAll(s)) && CleanTemplate(s, 0, FindAll(s))
    requires var texts := Texts(s, FindAll(s));
      CleanValues(texts, val) && (SolidValues(texts, val) || Apart(texts))
    ensures var texts := Texts(s, FindAll(s));
      Splice(s, texts, val) == Substitute(s, 0, FindAll(s), t => Effective(texts, val, t))
  {
    var spans := FindAll(s);
    var texts := Texts(s, spans);
    var ps := Pieces(s, 0, spans);
    ScanFacts(s, 0);
    ScannedTexts(s);
    ScannedPieces(s, 0, spans, texts);
    ScannedSealed(s, 0, spans);
    ScannedApart(s);
    PiecesRender(s, 0, spans, t => Effective(texts, val, t));
    SpliceIsStepAll(ps, texts, val);
    StepAllIsFill(ps, texts, val);
    assert s[0..] == s;
  }

  lemma {:induction false} EffectiveIsOwn(texts: seq<string>, i: nat, val: Valuation, t: string)
    requires AllRefs(texts) && RefText(t) && i <= |texts| && t in texts[i..]
    requires Apart(texts) || (LongestFirst(texts) && forall u | u in texts :: val(u).Some?)
    requires forall k | 0 <= k < i :: !(texts[k] <= t && val(texts[k]).Some?)
    ensures Effective(texts[i..], val, t) == val(t)
    decreases |texts| - i
  {
    var u := texts[i];
    assert texts[i..][1..] == texts[i + 1..];
    assert t in texts;
    if u == t {
      if val(t).Some? {
        assert t[|t|..] == "";
        assert val(t).value + "" == val(t).value;
      } else {
        EffectiveNone(texts, i, val, t);
      }
    } else {
      assert t in texts[i + 1..];
      var j :| i < j < |texts| && texts[j] == t;
      if u <= t {
        RefPrefix(u, t);
      }
      EffectiveIsOwn(texts, i + 1, val, t);
    }
  }

  // A missing match whose text extends no other match stays missing.
  lemma {:induction false} EffectiveNone(texts: seq<string>, i: nat, val: Valuation, t: string)
    requires AllRefs(texts) && RefText(t) && i <= |texts| && t in texts && val(t).None? && Apart(texts)
    ensures Effective(texts[i..], val, t) == None
    decreases |texts| - i
  {
    if i < |texts| {
      assert texts[i..][1..] == texts[i + 1..];
      if texts[i] <= t && texts[i] != t { RefPrefix(texts[i], t); }
      EffectiveNone(texts, i + 1, val, t);
    }
  }

  lemma {:induction false} SubstituteAgrees(s: string, from: nat, spans: seq<Span>, f: Valuation, g: Valuation)
    requires Ordered(s, from, spans)
    requires forall m | m in spans :: m.In(s) && f(m.Text(s)) == g(m.Text(s))
    ensures Substitute(s, from, spans, f) == Substitute(s, from, spans, g)
    decreases |spans|
  {
    if spans != [] {
      assert spans[0] in spans;
      SubstituteAgrees(s, spans[0].end, spans[1..], f, g);
    }
  }

  /** Replacing one match after the other is simultaneous substitution when no match text is
      another followed by `}`, or when the longer one comes first and every value is present and
      solid. */
  lemma SplicingIsSimultaneous(s: string, val: Valuation)
    requires Ordered(s, 0, FindAll(s)) && CleanTemplate(s, 0, FindAll(s))
    requires var texts := Texts(s, FindAll(s));
      && CleanValues(texts, val)
      && (Apart(texts)
          || (LongestFirst(texts) && SolidValues(texts, val) && forall t | t in texts :: val(t).Some?))
    ensures Splice(s, Texts(s, FindAll(s)), val) == Substitute(s, 0, FindAll(s), val)
  {
    var spans := FindAll(s);
    var texts := Texts(s, spans);
    SpliceMeaning(s, val);
    ScannedTexts(s);
    forall m | m in spans
      ensures Effective(texts, val, m.Text(s)) == val(m.Text(s))
    {
      var k :| 0 <= k < |spans| && spans[k] == m;
      assert texts[k] == m.Text(s);
      assert texts[0..] == texts;
      EffectiveIsOwn(texts, 0, val, m.Text(s));
    }
    SubstituteAgrees(s, 0, spans, t => Effective(texts, val, t), val);
  }

  // The values that tell a doubled brace from a single one followed by a literal brace.
  const Probe: Valuation := t => if RefText(t + "}") then Some("x") else Some("yy")

  lemma ProbeIsFair(texts: seq<string>)
    requires AllRefs(texts)
    ensures CleanValues(texts, Probe) && SolidValues(texts, Probe)
    ensures forall t | t in texts :: Probe(t).Some?
  {
    forall u | RefText(u) ensures Foreign("x", u) && Foreign("yy", u) {
      RefBegins(u);
      assert "x"[0..][0] == 'x' && "yy"[0..][0] == 'y' && "yy"[1..][0] == 'y';
    }
  }

  lemma {:induction false} ProbeLength(texts: seq<string>, t: string)
    requires AllRefs(texts) && RefText(t) && Effective(texts, Probe, t).Some?
    ensures |Effective(texts, Probe, t).value| == |Probe(t).value|
    decreases |texts|
  {
    var u := texts[0];
    if u <= t {
      if u != t {
        RefPrefix(u, t);
        DoubledEndsThere(t, u);
      }
    } else {
      ProbeLength(texts[1..], t);
    }
  }

  // After two closing braces there is no third one to take.
  lemma DoubledEndsThere(t: string, u: string)
    requires RefText(t) && t == u + "}" && RefText(u)
    ensures !RefText(t + "}")
  {
    var r := SharedClose(u, t);
    if RefText(t + "}") {
      var q := SharedClose(u, t + "}");
    }
  }

  lemma {:induction false} ProbeTells(texts: seq<string>, i: nat, t: string)
    requires AllRefs(texts) && RefText(t) && i < |texts| && t == texts[i] + "}" && t !in texts[..i]
    ensures Effective(texts, Probe, t).Some? && Effective(texts, Probe, t) != Probe(t)
    decreases i
  {
    var u := texts[0];
    if u <= t {
      assert i > 0 ==> texts[..i][0] == u;
      assert u != t;
      RefPrefix(u, t);
      DoubledEndsThere(t, u);
      assert ("x" + t[|u|..])[0] != "yy"[0];
    } else {
      assert i > 0;
      assert texts[..i][1..] == texts[1..][..i - 1];
      ProbeTells(texts[1..], i - 1, t);
    }
  }

  lemma {:induction false} EffectiveExists(texts: seq<string>, val: Valuation, t: string)
    requires t in texts && forall u | u in texts :: val(u).Some?
    ensures Effective(texts, val, t).Some?
    decreases |texts|
  {
    assert texts[0] in texts;
    if !(texts[0] <= t) { EffectiveExists(texts[1..], val, t); }
  }

  lemma {:induction false} SubstituteTells(s: string, from: nat, spans: seq<Span>, f: Valuation, g: Valuation)
    requires Ordered(s, from, spans)
    requires forall m | m in spans :: m.In(s) && f(m.Text(s)).Some? && g(m.Text(s)).Some?
    requires forall m | m in spans :: |f(m.Text(s)).value| == |g(m.Text(s)).value|
    requires Substitute(s, from, spans, f) == Substitute(s, from, spans, g)
    ensures forall m | m in spans :: f(m.Text(s)) == g(m.Text(s))
    decreases |spans|
  {
    if spans != [] {
      var m := spans[0];
      assert m in spans;
      var lit, a, b := s[from..m.start], f(m.Text(s)).value, g(m.Text(s)).value;
      var x, y := Substitute(s, m.end, spans[1..], f), Substitute(s, m.end, spans[1..], g);
      SplitEqual(lit + a, x, lit + b, y);
      SplitEqual(lit, a, lit, b);
      SubstituteTells(s, m.end, spans[1..], f, g);
    }
  }

  lemma SplitEqual(a: string, b: string, c: string, d: string)
    requires |a| == |c| && a + b == c + d
    ensures a == c && b == d
  {
    assert (a + b)[..|a|] == a && (c + d)[..|c|] == c;
    assert (a + b)[|a|..] == b && (c + d)[|c|..] == d;
  }

  lemma ShorterFirstDiffers(s: string, i: nat, j: nat)
    requires Ordered(s, 0, FindAll(s)) && CleanTemplate(s, 0, FindAll(s))
    requires var texts := Texts(s, FindAll(s));
      i < j < |texts| && texts[j] == texts[i] + "}" && texts[j] !in texts[..i]
    ensures Splice(s, Texts(s, FindAll(s)), Probe) != Substitute(s, 0, FindAll(s), Probe)
  {
    var spans := FindAll(s);
    var texts := Texts(s, spans);
    ScannedTexts(s);
    ProbeIsFair(texts);
    SpliceMeaning(s, Probe);
    var eff: Valuation := t => Effective(texts, Probe, t);
    ProbeTells(texts, i, texts[j]);
    assert spans[j] in spans && texts[j] == spans[j].Text(s);
    if Splice(s, texts, Probe) == Substitute(s, 0, spans, Probe) {
      forall m | m in spans
        ensures eff(m.Text(s)).Some? && |eff(m.Text(s)).value| == |Probe(m.Text(s)).value|
      {
        var k :| 0 <= k < |spans| && spans[k] == m;
        assert texts[k] in texts && texts[k] == m.Text(s);
        EffectiveExists(texts, Probe, texts[k]);
        ProbeLength(texts, texts[k]);
      }
      SubstituteTells(s, 0, spans, eff, Probe);
    }
  }

  /** For a clean template, the order of the matches decides, and can be checked beforehand:
      the loop is simultaneous substitution for all solid values if and only if no match is an
      earlier match followed by `}` (unless it was itself met before). */
  lemma SplicingOrderExact(s: string)
    requires Ordered(s, 0, FindAll(s)) && CleanTemplate(s, 0, FindAll(s))
    ensures var texts := Texts(s, FindAll(s));
      LongestFirst(texts) <==>
        (forall val: Valuation | CleanValues(texts, val) && SolidValues(texts, val)
            && (forall t | t in texts :: val(t).Some?) ::
          Splice(s, texts, val) == Substitute(s, 0, FindAll(s), val))
  {
    var spans := FindAll(s);
    var texts := Texts(s, spans);
    ScannedTexts(s);
    if LongestFirst(texts) {
      forall val: Valuation | CleanValues(texts, val) && SolidValues(texts, val)
          && forall t | t in texts :: val(t).Some?
        ensures Splice(s, texts, val) == Substitute(s, 0, spans, val)
      {
        SplicingIsSimultaneous(s, val);
      }
    } else {
      var i: nat, j: nat :| i < j < |texts| && texts[j] == texts[i] + "}" && texts[j] !in texts[..i];
      ProbeIsFair(texts);
      ShorterFirstDiffers(s, i, j);
    }
  }

  lemma OccursWithin(o: string, t: string, s: string, i: nat)
    requires o <= t && OccursAt(t, s, i)
    ensures OccursAt(o, s, i)
  {
    assert s[i..i + |o|] == s[i..i + |t|][..|o|];
  }

  lemma OpenerCarries(t: string, s: string, i: nat, n: nat)
    requires n <= 2 && Opener(n) <= t && OccursAt(t, s, i)
    ensures OpenerEnd(s, i) == Some(i + 16 + n)
  {
    OccursWithin(Opener(n), t, s, i);
    OpenerAt(s, i, n);
  }

  lemma CloseCarries(t: string, s: string, i: nat, p: nat, r: nat)
    requires OccursAt(t, s, i) && (i + |t| < |s| ==> s[i + |t|] != '}')
    requires p <= r < |t| && t[r] == '}' && forall k | p <= k < r :: t[k] != '}' && t[k] != '\n'
    requires |t| == if r + 1 < |t| && t[r + 1] == '}' then r + 2 else r + 1
    ensures CloseEnd(s, i + p) == Some(i + |t|)
  {
    assert forall k | 0 <= k < |t| :: s[i + k] == s[i..i + |t|][k] == t[k];
    forall k | i + p <= k < i + r ensures s[k] != '}' && s[k] != '\n' { assert s[i + (k - i)] == t[k - i]; }
    CloseFrom(s, i + p, i + r);
  }

  // A reference that is followed by something other than a brace is found where it stands.
  lemma RefIsFound(s: string, i: nat, t: string)
    requires RefText(t) && OccursAt(t, s, i) && (i + |t| < |s| ==> s[i + |t|] != '}')
    ensures MatchEnd(s, i) == Some(i + |t|)
  {
    hide Opener, OpenerEnd, CloseEnd;
    var n, r := RefShape(t);
    OpenerCarries(t, s, i, n);
    CloseCarries(t, s, i, 16 + n, r);
  }

  lemma SideBySide(a: string, b: string)
    requires RefText(a) && RefText(b)
    ensures FindAll(a + b) == [Span(0, |a|), Span(|a|, |a + b|)]
    ensures Texts(a + b, FindAll(a + b)) == [a, b]
  {
    var s := a + b;
    RefBegins(b);
    assert s[0..|a|] == a && s[|a|..|s|] == b;
    assert s[|a|] == b[0];
    RefIsFound(s, 0, a);
    RefIsFound(s, |a|, b);
    ScanTwo(s, |a|);
  }

  lemma RefBegins(t: string)
    requires RefText(t)
    ensures |t| >= 17 && t[0] == '$'
  {
    var n, _ := RefShape(t);
    assert t[0] == Opener(n)[0];
  }

  lemma ScanTwo(s: string, k: nat)
    requires k < |s| && MatchEnd(s, 0) == Some(k) && MatchEnd(s, k) == Some(|s|)
    ensures FindAll(s) == [Span(0, k), Span(k, |s|)]
  {
    assert ScanFrom(s, |s|) == [];
    assert ScanFrom(s, k) == [Span(k, |s|)] + [];
  }

  /** The values must be free of references: a resolved value that is the text of a later
      reference is replaced once more.  Holds for any two references side by side. */
  lemma ResolvedTextIsReplacedAgain(a: string, b: string, x: string, val: Valuation)
    requires FlatRef(a) && FlatRef(b) && !(a <= b) && x != b
    requires val(a) == Some(b) && val(b) == Some(x)
    ensures FindAll(a + b) == [Span(0, |a|), Span(|a|, |a + b|)]
    ensures Texts(a + b, FindAll(a + b)) == [a, b]
    ensures Splice(a + b, [a, b], val) == x + x
    ensures Substitute(a + b, 0, FindAll(a + b), val) == b + x != x + x
  {
    SideBySide(a, b);
    SpliceOfTwo(a, b, x, val);
    SubstituteOfTwo(a, b, val);
    if b + x == x + x { SameTail(b, x, x); }
  }

  lemma SpliceOfTwo(a: string, b: string, x: string, val: Valuation)
    requires FlatRef(a) && FlatRef(b) && !(a <= b)
    requires val(a) == Some(b) && val(b) == Some(x)
    ensures Splice(a + b, [a, b], val) == x + x
  {
    RefBegins(a);
    ReplaceTakes(a, b, b);
    PrefixlessStays(a, b, b);
    ReplaceTakes(b, b, x);
    ReplaceTakes(b, "", x);
    assert b + "" == b;
    ReplaceShort("", b, x);
    assert [a, b][1..] == [b] && [b][1..] == [];
    assert Splice(x + x, [], val) == x + x;
    assert Splice(b + b, [b], val) == x + x;
  }

  lemma SubstituteOfTwo(a: string, b: string, val: Valuation)
    requires |a| >= 3 && |b| >= 3 && val(a).Some? && val(b).Some?
    ensures var spans := [Span(0, |a|), Span(|a|, |a + b|)];
      Ordered(a + b, 0, spans) && Substitute(a + b, 0, spans, val) == val(a).value + val(b).value
  {
    var s := a + b;
    var first, second := Span(0, |a|), Span(|a|, |s|);
    assert [first, second][1..] == [second] && [second][1..] == [];
    assert first.Text(s) == a && second.Text(s) == b;
    SubstituteFirst(s, |a|, [second], val);
    SubstituteFirst(s, 0, [first, second], val);
    assert Substitute(s, |s|, [], val) == "";
  }

  lemma SubstituteFirst(s: string, from: nat, spans: seq<Span>, val: Valuation)
    requires Ordered(s, from, spans) && spans != [] && spans[0].start == from && val(spans[0].Text(s)).Some?
    ensures Substitute(s, from, spans, val)
         == val(spans[0].Text(s)).value + Substitute(s, spans[0].end, spans[1..], val)
  {
    assert s[from..from] == "";
  }

  lemma SameTail(a: string, b: string, t: string)
    requires a + t == b + t
    ensures a == b
  {
    assert |a + t| == |b + t|;
    SplitEqual(a, t, b, t);
  }

  lemma PrefixlessStays(a: string, b: string, v: string)
    requires FlatRef(a) && FlatRef(b) && !(a <= b)
    ensures ReplaceAll(b, a, v) == b
  {
    assert NotBraced("");
    ReplaceInPiece(Ref(b), "", a, v);
    assert b + "" == b;
    RefBegins(a);
    ReplaceShort("", a, v);
  }

  // ---------------------------------------------------------------------------------------
  // The condition on values, exactly.
  // ---------------------------------------------------------------------------------------

  // A valuation that gives some matches this value, and harmless values to the others.
  predicate Fair(texts: seq<string>, val: Valuation, v: string) {
    forall t | t in texts && val(t).Some? :: val(t).value == v || Harmless(val(t).value)
  }

  lemma NoDollar(text: string, n: nat)
    requires text != "" && text[0] != '$' && n <= 2
    ensures !Comparable(text, Opener(n))
  {
  }

  lemma NoDollarFree(text: string)
    requires '$' !in text
    ensures OpenerFree(text) && Harmless(text)
  {
    forall p: nat, n: nat | p < |text| && n <= 2 ensures !Comparable(text[p..], Opener(n)) && !CanOpenAs(text, p, n) {
      assert text[p..][0] == text[p];
      NoDollar(text[p..], n);
    }
  }

  // The last place at which a reference can begin.
  lemma {:induction false} LastOpening(v: string, upto: nat) returns (p: nat)
    requires upto <= |v| && exists q: nat :: q < upto && CanOpen(v, q)
    ensures p < upto && CanOpen(v, p) && forall q: nat | p < q < upto :: !CanOpen(v, q)
  {
    hide CanOpen;
    if CanOpen(v, upto - 1) { p := upto - 1; } else { p := LastOpening(v, upto - 1); }
  }

  // A complete reference: its opener, a line without braces, and the brace.
  lemma ClosedRef(u: string, n: nat)
    requires n <= 2 && Opener(n) <= u && |u| >= 17 + n && u[|u| - 1] == '}'
    requires forall k | 16 + n <= k < |u| - 1 :: u[k] != '}' && u[k] != '\n'
    requires forall q: nat, m: nat | 16 + n <= q < |u| && m <= 2 :: !Comparable(u[q..], Opener(m))
    ensures FlatRef(u)
  {
    RefFrom(u, n, |u| - 1);
    OpenerLength(n);
    forall q: nat, m: nat | q < |u[1..]| && m <= 2
      ensures !Comparable(u[1..][q..], Opener(m))
    {
      assert u[1..][q..] == u[q + 1..];
      if q + 1 < 16 + n {
        assert u[q + 1] == Opener(n)[q + 1] == Opener(n)[1..][q];
        NoDollar(u[q + 1..], m);
      }
    }
  }

  // A broken-off opener, completed.
  lemma CompleteOpener(v: string, p: nat, n: nat) returns (u: string, rest: string)
    requires p < |v| && n <= 2 && v[p..] <= Opener(n)
    ensures FlatRef(u) && v[p..] + rest == u
    ensures '$' !in rest && rest != "" && rest[0] != '}'
  {
    OpenerLength(n);
    var o, k := Opener(n), |v| - p;
    RestOfOpener(o, k);
    hide Opener;
    u := o + "x}";
    rest := o[k..] + "x}";
    assert o == v[p..] + o[k..];
    assert u == v[p..] + rest;
    forall q: nat, m: nat | 16 + n <= q < |u| && m <= 2 ensures !Comparable(u[q..], Opener(m)) {
      NoDollar(u[q..], m);
    }
    ClosedRef(u, n);
  }

  lemma RestOfOpener(o: string, k: nat)
    requires 0 < k <= |o| && '$' !in o[1..] && '}' !in o
    ensures '$' !in o[k..] + "x}" && (o[k..] + "x}")[0] != '}'
  {
    assert o[k..] == o[1..][k - 1..];
    if o[k..] != "" { assert o[k] in o; }
  }

  // An opener in the completed text was one that could begin in the value.
  lemma InnerOpening(v: string, q: nat, e: nat, tail: string, m: nat)
    requires q < e <= |v| && m <= 2 && tail != "" && tail[|tail| - 1] == '}'
    requires e == |v| || (v[e] == '}' && tail == "}")
    requires forall k | q <= k < e :: v[k] != '\n' && v[k] != '}'
    requires Comparable(v[q..e] + tail, Opener(m))
    ensures CanOpen(v, q)
  {
    hide Opener;
    OpenerLength(m);
    var o, x := Opener(m), v[q..e];
    NoBraceInside(x, tail, o);
    PrefixesCompare(o, x, x + tail);
    assert x <= v[q..] by { assert x == v[q..][..e - q]; }
    if |o| <= |x| {
      PrefixChain(o, x, v[q..]);
      ClosableUpTo(v, q + |o|, e);
    } else {
      assert e == |v| && x == v[q..];
    }
    assert CanOpenAs(v, q, m);
  }

  // An opener without braces begins a text that ends with one, and goes no further than the brace.
  lemma NoBraceInside(x: string, tail: string, o: string)
    requires '}' !in o && tail != "" && tail[|tail| - 1] == '}' && Comparable(x + tail, o)
    ensures o <= x + tail && (tail == "}" ==> |o| <= |x|)
  {
    var whole := x + tail;
    assert whole[|whole| - 1] == '}';
    assert forall k | 0 <= k < |o| :: o[k] != '}';
    assert o <= whole;
    assert tail == "}" ==> whole[|x|] == '}';
    assert forall k | 0 <= k < |o| :: whole[k] == o[k];
  }

  lemma SuffixOfLine(v: string, p: nat, e: nat, tail: string, q: nat)
    requires p <= p + q <= e <= |v|
    ensures (v[p..e] + tail)[q..] == v[p + q..e] + tail
  {
    assert v[p..e][q..] == v[p + q..e];
  }

  lemma LineHoldsNothing(v: string, p: nat, e: nat, tail: string, q: nat, m: nat)
    requires p < e <= |v| && tail != "" && tail[|tail| - 1] == '}' && '$' !in tail
    requires e == |v| || (v[e] == '}' && tail == "}")
    requires 0 < q < |v[p..e] + tail| && m <= 2
    requires forall k | p + q <= k < e :: v[k] != '\n' && v[k] != '}'
    requires forall k: nat | p < k < |v| :: !CanOpen(v, k)
    ensures !Comparable((v[p..e] + tail)[q..], Opener(m))
  {
    hide CanOpen, Opener, Comparable;
    var u := v[p..e] + tail;
    if q < e - p {
      SuffixOfLine(v, p, e, tail, q);
      if Comparable(v[p + q..e] + tail, Opener(m)) { InnerOpening(v, p + q, e, tail, m); }
    } else {
      assert u[q] == tail[q - (e - p)];
      assert u[q..][0] == u[q];
      NoDollar(u[q..], m);
    }
  }

  // An opener with a line behind it, completed, or already complete.
  lemma CompleteLine(v: string, p: nat, n: nat) returns (u: string, rest: string, stop: nat)
    requires p < |v| && n <= 2 && Opener(n) <= v[p..] && Closable(v, p + |Opener(n)|)
    requires forall q: nat | p < q < |v| :: !CanOpen(v, q)
    ensures p <= stop <= |v| && FlatRef(u) && v[p..stop] + (if stop == |v| then rest else "") == u
    ensures '$' !in rest && (rest != "" ==> rest[0] != '}') && (stop < |v| ==> rest == "")
  {
    hide CanOpen, Opener, Closable;
    OpenerLength(n);
    var e := ClosableEnd(v, p + 16 + n);
    var tail := if e == |v| then "x}" else "}";
    u := v[p..e] + tail;
    if e == |v| {
      rest, stop := tail, e;
    } else {
      rest, stop := "", e + 1;
      assert v[p..e + 1] == v[p..e] + "}";
      assert v[p..e + 1] + "" == v[p..e + 1];
    }
    assert v[p..e] <= v[p..] by { assert v[p..e] == v[p..][..e - p]; }
    PrefixesCompare(Opener(n), v[p..e], v[p..]);
    PrefixChain(Opener(n), v[p..e], u);
    assert forall k | 0 <= k < e - p :: u[k] == v[p + k];
    forall q: nat, m: nat | 16 + n <= q < |u| && m <= 2 ensures !Comparable(u[q..], Opener(m)) {
      LineHoldsNothing(v, p, e, tail, q, m);
    }
    ClosedRef(u, n);
  }

  lemma OccursFromSlice(v: string, rest: string, p: nat, stop: nat, u: string)
    requires p <= stop <= |v| && v[p..stop] + (if stop == |v| then rest else "") == u
    ensures OccursAt(u, v + rest, p)
  {
    var whole := v + rest;
    assert forall k | 0 <= k < |u| :: whole[p..p + |u|][k] == whole[p + k] == u[k];
  }

  // A harmful value, and a reference that it begins.
  lemma Completed(v: string) returns (u: string, rest: string, p: nat)
    requires !Harmless(v)
    ensures FlatRef(u) && OccursAt(u, v + rest, p)
    ensures '$' !in rest && (rest != "" ==> rest[0] != '}')
  {
    p := LastOpening(v, |v|);
    var n: nat :| n <= 2 && CanOpenAs(v, p, n);
    hide Opener, Closable, FlatRef, OccursAt, CanOpen;
    assert v[p..|v|] == v[p..];
    if v[p..] <= Opener(n) {
      u, rest := CompleteOpener(v, p, n);
      OccursFromSlice(v, rest, p, |v|, u);
    } else {
      var stop;
      u, rest, stop := CompleteLine(v, p, n);
      OccursFromSlice(v, rest, p, stop, u);
    }
  }

  lemma {:induction false} ScanSkips(s: string, from: nat, upto: nat)
    requires from <= upto <= |s| && '$' !in s[from..upto]
    ensures ScanFrom(s, from) == ScanFrom(s, upto)
    decreases upto - from
  {
    if from < upto {
      assert s[from] == s[from..upto][0];
      assert from + 2 <= |s| ==> s[from..from + 2][0] == s[from];
      assert s[from + 1..upto] == s[from..upto][1..];
      ScanSkips(s, from + 1, upto);
    }
  }

  // Two matches with text between them in which nothing begins.
  lemma TwoFound(t: string, rest: string, u: string)
    requires RefText(t) && RefText(u) && '$' !in rest && (rest != "" ==> rest[0] != '}')
    ensures FindAll(t + rest + u) == [Span(0, |t|), Span(|t + rest|, |t + rest + u|)]
  {
    var s, k := t + rest + u, |t + rest|;
    TwoMatches(t, rest, u);
    RefBegins(t);
    RefBegins(u);
    assert s[|t|..k] == rest;
    hide MatchEnd, RefText;
    ScanSkips(s, |t|, k);
    assert ScanFrom(s, |s|) == [];
    assert ScanFrom(s, k) == [Span(k, |s|)] + [];
  }

  lemma PartsOccur(t: string, rest: string, u: string)
    ensures var s := t + rest + u;
      OccursAt(t, s, 0) && OccursAt(rest, s, |t|) && OccursAt(u, s, |t + rest|)
  {
    var s := t + rest + u;
    assert s[0..|t|] == t && s[|t|..|t| + |rest|] == rest && s[|t + rest|..|t + rest| + |u|] == u;
  }

  lemma TwoMatches(t: string, rest: string, u: string)
    requires RefText(t) && RefText(u) && (rest != "" ==> rest[0] != '}')
    ensures MatchEnd(t + rest + u, 0) == Some(|t|)
    ensures MatchEnd(t + rest + u, |t + rest|) == Some(|t + rest + u|)
  {
    var s, k := t + rest + u, |t + rest|;
    RefBegins(u);
    hide MatchEnd, RefText;
    PartsOccur(t, rest, u);
    assert s[|t|] == if rest == "" then u[0] else rest[0];
    RefIsFound(s, 0, t);
    RefIsFound(s, k, u);
  }

  lemma TwoClean(t: string, rest: string, u: string)
    requires FlatRef(t) && FlatRef(u) && '$' !in rest
    ensures var s, spans := t + rest + u, [Span(0, |t|), Span(|t + rest|, |t + rest + u|)];
      Ordered(s, 0, spans) && CleanTemplate(s, 0, spans)
  {
    RefBegins(t);
    RefBegins(u);
    NoDollarFree(rest);
    NoDollarFree("");
    hide Harmless, FlatRef, OpenerFree;
    var s := t + rest + u;
    var first, second := Span(0, |t|), Span(|t + rest|, |s|);
    assert [first, second][1..] == [second] && [second][1..] == [];
    assert first.Text(s) == t && second.Text(s) == u;
    assert s[0..0] == "" && s[|t|..|t + rest|] == rest && s[|s|..] == "";
    assert Ordered(s, |s|, []) && CleanTemplate(s, |s|, []);
    assert Ordered(s, |t|, [second]) && CleanTemplate(s, |t|, [second]);
  }

  lemma TwoApart(t: string, rest: string, u: string)
    requires FlatRef(t) && FlatRef(u) && '$' !in rest && (rest != "" ==> rest[0] != '}')
    ensures var s, spans := t + rest + u, [Span(0, |t|), Span(|t + rest|, |t + rest + u|)];
      && FindAll(s) == spans && Ordered(s, 0, spans) && CleanTemplate(s, 0, spans)
      && Texts(s, spans) == [t, u]
  {
    TwoFound(t, rest, u);
    TwoClean(t, rest, u);
    var s := t + rest + u;
    assert Span(0, |t|).Text(s) == t && Span(|t + rest|, |s|).Text(s) == u;
  }

  // A reference that neither begins the other nor is begun by it.
  lemma OtherRef(u: string) returns (t: string)
    requires RefText(u)
    ensures FlatRef(t) && !(t <= u) && Apart([t, u])
  {
    var n, r := RefShape(u);
    var m := if n == 0 then 1 else 0;
    t := Opener(m) + "}";
    OpenerLength(m);
    forall q: nat, k: nat | 16 + m <= q < |t| && k <= 2 ensures !Comparable(t[q..], Opener(k)) {
      NoDollar(t[q..], k);
    }
    ClosedRef(t, m);
    assert Opener(m) <= t;
    BeginsOnce(u, n, m);
    BeginsOnce(u + "}", n, m);
  }

  lemma BeginsOnce(u: string, n: nat, m: nat)
    requires n <= 2 && m <= 2 && Opener(n) <= u && m != n
    ensures !(Opener(m) <= u) && !(Opener(m) + "}" <= u) && u != Opener(m) + "}"
  {
    if Opener(m) <= u { OpenerUnique(u, n, m); }
    assert Opener(m) <= Opener(m) + "}";
  }

  lemma {:induction false} OneRemoved(s: string, u: string, i: nat)
    requires u != "" && OccursAt(u, s, i)
    ensures |ReplaceAll(s, u, "")| <= |s| - |u|
    decreases |s|
  {
    hide ReplaceAll;
    if HasPrefix(s, u) {
      var tail := s[|u|..];
      assert s == u + tail;
      ReplaceTakes(u, tail, "");
      ReplaceShrinks(tail, u);
    } else {
      var tail := s[1..];
      assert i > 0 && s == [s[0]] + tail;
      ReplaceCopies(s[0], tail, u, "");
      OccursLater(u, tail, s[0], i - 1);
      OneRemoved(tail, u, i - 1);
    }
  }

  lemma {:induction false} ReplaceShrinks(s: string, u: string)
    requires u != ""
    ensures |ReplaceAll(s, u, "")| <= |s|
    decreases |s|
  {
    if |s| >= |u| {
      if HasPrefix(s, u) { ReplaceShrinks(s[|u|..], u); } else { ReplaceShrinks(s[1..], u); }
    }
  }

  lemma {:induction false} TwoRemoved(s: string, u: string, i: nat, j: nat)
    requires u != "" && OccursAt(u, s, i) && OccursAt(u, s, j) && i + |u| <= j
    ensures |ReplaceAll(s, u, "")| <= |s| - 2 * |u|
    decreases |s|
  {
    hide ReplaceAll;
    if HasPrefix(s, u) {
      var tail := s[|u|..];
      assert s == u + tail;
      ReplaceTakes(u, tail, "");
      assert tail[j - |u|..j] == s[j..j + |u|];
      OneRemoved(tail, u, j - |u|);
    } else {
      var tail := s[1..];
      assert i > 0 && s == [s[0]] + tail;
      ReplaceCopies(s[0], tail, u, "");
      OccursLater(u, tail, s[0], i - 1);
      OccursLater(u, tail, s[0], j - 1);
      TwoRemoved(tail, u, i - 1, j - 1);
    }
  }

  lemma RemovedTwice(x: string, u: string, p: nat)
    requires u != "" && OccursAt(u, x, p)
    ensures |ReplaceAll(x + u, u, "")| < |x|
  {
    assert (x + u)[p..p + |u|] == x[p..p + |u|];
    assert (x + u)[|x|..|x| + |u|] == u;
    TwoRemoved(x + u, u, p, |x|);
  }

  // The other value is empty: what is left shows that a text was removed from this one.
  function OnlyFirst(t: string, v: string): Valuation {
    x => Some(if x == t then v else "")
  }

  lemma FirstStep(t: string, rest: string, u: string, v: string)
    requires FlatRef(t) && FlatRef(u) && !(t <= u) && '$' !in rest
    ensures ReplaceAll(t + rest + u, t, v) == v + rest + u
  {
    RefBegins(t);
    assert t + rest + u == t + (rest + u);
    ReplaceTakes(t, rest + u, v);
    forall k | 0 <= k < |rest| ensures !OccursAt(t, rest + u, k) {
      assert k + |t| <= |rest + u| ==> (rest + u)[k..k + |t|][0] == rest[k];
    }
    ReplaceSkips(rest, u, t, v);
    PrefixlessStays(t, u, v);
    assert v + (rest + u) == v + rest + u;
  }

  lemma SubstituteApart(t: string, rest: string, u: string, v: string)
    requires |t| >= 3 && |u| >= 3 && t != u
    ensures var s, spans := t + rest + u, [Span(0, |t|), Span(|t + rest|, |t + rest + u|)];
      Ordered(s, 0, spans) && Substitute(s, 0, spans, OnlyFirst(t, v)) == v + rest
  {
    var s, val := t + rest + u, OnlyFirst(t, v);
    var first, second := Span(0, |t|), Span(|t + rest|, |s|);
    assert [first, second][1..] == [second] && [second][1..] == [];
    assert first.Text(s) == t && second.Text(s) == u;
    assert s[|t|..|t + rest|] == rest && s[|s|..] == "" && s[0..0] == "";
    assert Substitute(s, |t|, [second], val) == rest + "" + "";
    assert rest + "" + "" == rest && "" + v + rest == v + rest;
  }

  lemma SpliceApart(t: string, rest: string, u: string, v: string)
    requires FlatRef(t) && FlatRef(u) && !(t <= u) && t != u && '$' !in rest
    ensures "" !in [t, u] && Splice(t + rest + u, [t, u], OnlyFirst(t, v)) == ReplaceAll(v + rest + u, u, "")
  {
    RefBegins(t);
    RefBegins(u);
    FirstStep(t, rest, u, v);
    assert [t, u][1..] == [u] && [u][1..] == [];
    var after := ReplaceAll(v + rest + u, u, "");
    assert Splice(after, [], OnlyFirst(t, v)) == after;
    assert Splice(v + rest + u, [u], OnlyFirst(t, v)) == after;
  }

  lemma HarmfulDiffers(t: string, rest: string, u: string, v: string, p: nat)
    requires FlatRef(t) && FlatRef(u) && !(t <= u) && t != u && '$' !in rest && OccursAt(u, v + rest, p)
    ensures var s, spans := t + rest + u, [Span(0, |t|), Span(|t + rest|, |t + rest + u|)];
      && Ordered(s, 0, spans) && "" !in [t, u]
      && Splice(s, [t, u], OnlyFirst(t, v)) != Substitute(s, 0, spans, OnlyFirst(t, v))
  {
    RefBegins(t);
    RefBegins(u);
    hide Splice, Substitute, ReplaceAll, OpenerFree, MatchEnd;
    SubstituteApart(t, rest, u, v);
    SpliceApart(t, rest, u, v);
    RemovedTwice(v + rest, u, p);
  }

  // A clean template with matches that are apart.
  predicate Plainly(s: string) {
    Ordered(s, 0, FindAll(s)) && CleanTemplate(s, 0, FindAll(s)) && Apart(Texts(s, FindAll(s)))
  }

  predicate Simultaneous(s: string, val: Valuation)
    requires Ordered(s, 0, FindAll(s))
  {
    Splice(s, Texts(s, FindAll(s)), val) == Substitute(s, 0, FindAll(s), val)
  }

  lemma HarmlessSuffices(s: string, val: Valuation, v: string)
    requires Harmless(v) && Plainly(s) && Fair(Texts(s, FindAll(s)), val, v)
    ensures Simultaneous(s, val)
  {
    ScannedTexts(s);
    var texts := Texts(s, FindAll(s));
    assert forall i | 0 <= i < |texts| :: texts[i] in texts;
    LastValueFree(texts, val);
    SplicingIsSimultaneous(s, val);
  }

  lemma HarmfulFails(v: string) returns (s: string, val: Valuation)
    requires !Harmless(v)
    ensures Plainly(s) && Fair(Texts(s, FindAll(s)), val, v) && !Simultaneous(s, val)
  {
    hide Harmless, Splice, Substitute, CleanTemplate, Opener, Comparable, OpenerFree, MatchEnd;
    var u, rest, p := Completed(v);
    var t := OtherRef(u);
    s, val := t + rest + u, OnlyFirst(t, v);
    TwoApart(t, rest, u);
    assert t != u;
    HarmfulDiffers(t, rest, u, v, p);
    NoDollarFree("");
  }

  /** The condition on a value, exactly: in every clean template with matches that are apart, the
      loop is simultaneous substitution, whatever matches have the value and whatever harmless values
      the others have, if and only if the value is harmless. */
  lemma SplicingValueExact(v: string)
    ensures Harmless(v) <==>
      forall s: string, val: Valuation | Plainly(s) && Fair(Texts(s, FindAll(s)), val, v) :: Simultaneous(s, val)
  {
    hide Harmless, Simultaneous, Fair;
    if Harmless(v) {
      forall s: string, val: Valuation | Plainly(s) && Fair(Texts(s, FindAll(s)), val, v) ensures Simultaneous(s, val) {
        HarmlessSuffices(s, val, v);
      }
    } else {
      var s, val := HarmfulFails(v);
    }
  }
}
