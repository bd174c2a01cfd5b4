/** The inline reference pattern  \${([>]{0,2}secrets-store:.*?#*}?)}  and the scanner for it. */
module Pattern {
  import opened Strings

  // ---------------------------------------------------------------------------------------
  // Backtracking semantics of regular expressions: all end positions of a match that starts
  // at `i`, most preferred first.  The reported match is the head of that list.
  // ---------------------------------------------------------------------------------------

  datatype CharClass = Only(c: char) | AllBut(c: char) {
    predicate Has(d: char) {
      if Only? then d == c else d != c
    }
  }

  datatype Regex =
    | Text(text: string)
    | Chars(one: CharClass)
    | Then(first: Regex, second: Regex)
    | Maybe(body: Regex)             // x?    greedy
    | Greedy(run: CharClass)         // [c]*
    | Lazy(run: CharClass)           // [c]*?

  predicate Within(ends: seq<nat>, lo: nat, hi: nat) {
    forall k | 0 <= k < |ends| :: lo <= ends[k] <= hi
  }

  function Ends(re: Regex, s: string, i: nat): (ends: seq<nat>)
    requires i <= |s|
    ensures Within(ends, i, |s|)
    decreases re, 0, |s| - i
  {
    match re
    case Text(t) => if OccursAt(t, s, i) then [i + |t|] else []
    case Chars(c) => if i < |s| && c.Has(s[i]) then [i + 1] else []
    case Then(a, b) => EndsFromAll(b, s, i, Ends(a, s, i))
    case Maybe(a) => Ends(a, s, i) + [i]
    case Greedy(c) => (if i < |s| && c.Has(s[i]) then Ends(re, s, i + 1) else []) + [i]
    case Lazy(c) => [i] + (if i < |s| && c.Has(s[i]) then Ends(re, s, i + 1) else [])
  }

  // The matches of `re` started from each of `starts`, in the order of `starts`.
  function EndsFromAll(re: Regex, s: string, i: nat, starts: seq<nat>): (ends: seq<nat>)
    requires Within(starts, i, |s|)
    ensures Within(ends, i, |s|)
    decreases re, 1, |starts|
  {
    if starts == [] then [] else Ends(re, s, starts[0]) + EndsFromAll(re, s, i, starts[1..])
  }

  const Marker := "secrets-store:"

  const Updates := Maybe(Then(Chars(Only('>')), Maybe(Chars(Only('>')))))          // [>]{0,2}
  const Closing := Then(Maybe(Text("}")), Text("}"))                               // }?}
  const Tail := Then(Lazy(AllBut('\n')), Then(Greedy(Only('#')), Closing))         // .*?#*}?}
  const Inline := Then(Text("${"), Then(Updates, Then(Text(Marker), Tail)))

  // A capture group does not change what is matched: here group 1 is everything between the
  // leading "${" and the final "}".
  datatype Span = Span(start: nat, end: nat) {
    predicate In(s: string) {
      start + 3 <= end <= |s|
    }
    function Text(s: string): (t: string)
      requires In(s)
      ensures |t| == end - start >= 3
    {
      s[start..end]
    }
    function Body(s: string): (b: string)
      requires In(s)
      ensures |b| == end - start - 3
    {
      s[start + 2..end - 1]
    }
  }

  // What FindAllStringSubmatch(s, -1) promises, from index `from`: the non-overlapping
  // leftmost matches, each one the most preferred at its start.
  ghost predicate LeftmostFirst(s: string, from: nat, spans: seq<Span>)
    requires from <= |s|
    decreases |spans|
  {
    if spans == [] then
      forall q: nat | from <= q <= |s| :: Ends(Inline, s, q) == []
    else
      var m := spans[0];
      && from <= m.start < m.end <= |s|
      && (forall q: nat | from <= q < m.start :: Ends(Inline, s, q) == [])
      && Ends(Inline, s, m.start) != [] && Ends(Inline, s, m.start)[0] == m.end
      && LeftmostFirst(s, m.end, spans[1..])
  }

  // ---------------------------------------------------------------------------------------
  // The scanner.
  // ---------------------------------------------------------------------------------------

  // End of `${`, at most two `>`, `secrets-store:` at i.
  function OpenerEnd(s: string, i: nat): (r: Option<nat>)
    ensures r.Some? ==> i + 16 <= r.value <= |s|
  {
    if !OccursAt("${", s, i) then None
    else
      var j := i + 2;
      var k := if OccursAt(">>", s, j) then j + 2 else if OccursAt(">", s, j) then j + 1 else j;
      if OccursAt(Marker, s, k) then Some(k + |Marker|) else None
  }

  // First `}` at or after p on the same line, together with a second `}` right behind it.
  function CloseEnd(s: string, p: nat): (r: Option<nat>)
    requires p <= |s|
    ensures r.Some? ==> p < r.value <= |s|
    decreases |s| - p
  {
    if p == |s| || s[p] == '\n' then None
    else if s[p] == '}' then Some(if p + 1 < |s| && s[p + 1] == '}' then p + 2 else p + 1)
    else CloseEnd(s, p + 1)
  }

  function MatchEnd(s: string, i: nat): (r: Option<nat>)
    ensures r.Some? ==> i + 16 < r.value <= |s|
  {
    var o := OpenerEnd(s, i);
    if o.None? then None else CloseEnd(s, o.value)
  }

  function ScanFrom(s: string, from: nat): (spans: seq<Span>)
    requires from <= |s|
    ensures forall m | m in spans :: m.In(s) && from <= m.start
    decreases |s| - from
  {
    if from == |s| then []
    else
      var e := MatchEnd(s, from);
      if e.Some? then [Span(from, e.value)] + ScanFrom(s, e.value) else ScanFrom(s, from + 1)
  }

  // FindInlineVaultDelimiters
  function FindAll(s: string): (spans: seq<Span>)
    ensures forall m | m in spans :: m.In(s)
  {
    ScanFrom(s, 0)
  }

  // HasInlineVaultDelimiters
  predicate HasInline(s: string) {
    |FindAll(s)| > 0
  }

  // ---------------------------------------------------------------------------------------
  // The scanner refines the backtracking semantics.
  // ---------------------------------------------------------------------------------------

  lemma {:induction false} EndsFromAppend(re: Regex, s: string, i: nat, xs: seq<nat>, ys: seq<nat>)
    requires Within(xs, i, |s|) && Within(ys, i, |s|)
    ensures EndsFromAll(re, s, i, xs + ys) == EndsFromAll(re, s, i, xs) + EndsFromAll(re, s, i, ys)
    decreases |xs|
  {
    if xs == [] {
      assert xs + ys == ys;
    } else {
      assert (xs + ys)[1..] == xs[1..] + ys;
      EndsFromAppend(re, s, i, xs[1..], ys);
    }
  }

  lemma EndsFromOne(re: Regex, s: string, i: nat, e: nat)
    requires i <= e <= |s|
    ensures EndsFromAll(re, s, i, [e]) == Ends(re, s, e)
  {
    assert [e][1..] == [];
  }

  // The lower bound carried along does not matter.
  lemma {:induction false} EndsFromBound(re: Regex, s: string, i: nat, j: nat, starts: seq<nat>)
    requires Within(starts, i, |s|) && Within(starts, j, |s|)
    ensures EndsFromAll(re, s, i, starts) == EndsFromAll(re, s, j, starts)
    decreases |starts|
  {
    if starts != [] {
      EndsFromBound(re, s, i, j, starts[1..]);
    }
  }

  // How a sequence distributes over each kind of first part.

  lemma ThenUnfolds(a: Regex, b: Regex, s: string, i: nat)
    requires i <= |s|
    ensures Ends(Then(a, b), s, i) == EndsFromAll(b, s, i, Ends(a, s, i))
  {
  }

  lemma RunUnfolds(c: CharClass, s: string, i: nat)
    requires i <= |s|
    ensures var later := if i < |s| && c.Has(s[i]) then Ends(Lazy(c), s, i + 1) else [];
      Ends(Lazy(c), s, i) == [i] + later
    ensures var later := if i < |s| && c.Has(s[i]) then Ends(Greedy(c), s, i + 1) else [];
      Ends(Greedy(c), s, i) == later + [i]
  {
  }

  lemma LazyThen(c: CharClass, b: Regex, s: string, i: nat)
    requires i <= |s|
    ensures Ends(Then(Lazy(c), b), s, i)
         == Ends(b, s, i) + if i < |s| && c.Has(s[i]) then Ends(Then(Lazy(c), b), s, i + 1) else []
  {
    hide Ends, EndsFromAll;
    ThenUnfolds(Lazy(c), b, s, i);
    RunUnfolds(c, s, i);
    EndsFromOne(b, s, i, i);
    if i < |s| && c.Has(s[i]) {
      ThenUnfolds(Lazy(c), b, s, i + 1);
      var later := Ends(Lazy(c), s, i + 1);
      EndsFromAppend(b, s, i, [i], later);
      EndsFromBound(b, s, i, i + 1, later);
    } else {
      assert [i] + [] == [i];
    }
  }

  lemma GreedyThen(c: CharClass, b: Regex, s: string, i: nat)
    requires i <= |s|
    ensures Ends(Then(Greedy(c), b), s, i)
         == (if i < |s| && c.Has(s[i]) then Ends(Then(Greedy(c), b), s, i + 1) else []) + Ends(b, s, i)
  {
    hide Ends, EndsFromAll;
    ThenUnfolds(Greedy(c), b, s, i);
    RunUnfolds(c, s, i);
    EndsFromOne(b, s, i, i);
    if i < |s| && c.Has(s[i]) {
      ThenUnfolds(Greedy(c), b, s, i + 1);
      var later := Ends(Greedy(c), s, i + 1);
      EndsFromAppend(b, s, i, later, [i]);
      EndsFromBound(b, s, i, i + 1, later);
    } else {
      assert [] + [i] == [i];
    }
  }

  lemma MaybeThen(a: Regex, b: Regex, s: string, i: nat)
    requires i <= |s|
    ensures Ends(Then(Maybe(a), b), s, i) == Ends(Then(a, b), s, i) + Ends(b, s, i)
  {
    EndsFromOne(b, s, i, i);
    EndsFromAppend(b, s, i, Ends(a, s, i), [i]);
  }

  lemma TextThen(t: string, b: Regex, s: string, i: nat)
    requires i <= |s|
    ensures Ends(Then(Text(t), b), s, i) == if OccursAt(t, s, i) then Ends(b, s, i + |t|) else []
  {
    var starts := Ends(Text(t), s, i);
    assert Ends(Then(Text(t), b), s, i) == EndsFromAll(b, s, i, starts);
    if OccursAt(t, s, i) {
      assert starts == [i + |t|];
      EndsFromOne(b, s, i, i + |t|);
    } else {
      assert starts == [];
    }
  }

  lemma CharsThen(c: CharClass, b: Regex, s: string, i: nat)
    requires i <= |s|
    ensures Ends(Then(Chars(c), b), s, i) == if i < |s| && c.Has(s[i]) then Ends(b, s, i + 1) else []
  {
    if i < |s| && c.Has(s[i]) {
      EndsFromOne(b, s, i, i + 1);
    }
  }

  lemma CharsThenThen(c: CharClass, a: Regex, b: Regex, s: string, i: nat)
    requires i <= |s|
    ensures Ends(Then(Then(Chars(c), a), b), s, i)
         == if i < |s| && c.Has(s[i]) then Ends(Then(a, b), s, i + 1) else []
  {
    CharsThen(c, a, s, i);
    assert Ends(Then(Then(Chars(c), a), b), s, i) == EndsFromAll(b, s, i, Ends(Then(Chars(c), a), s, i));
    if i < |s| && c.Has(s[i]) {
      EndsFromBound(b, s, i, i + 1, Ends(a, s, i + 1));
    }
  }

  // The preferred choice among the candidates, if there is one.
  function Head(ends: seq<nat>): Option<nat> {
    if ends == [] then None else Some(ends[0])
  }

  // `}?}` takes two braces where there are two.
  lemma ClosingAt(s: string, q: nat)
    requires q <= |s|
    ensures Head(Ends(Closing, s, q)) == if q < |s| && s[q] == '}' then CloseEnd(s, q) else None
  {
    var brace := Text("}");
    MaybeThen(brace, brace, s, q);
    TextThen("}", brace, s, q);
    BraceAt(s, q);
    if q < |s| {
      BraceAt(s, q + 1);
    }
  }

  lemma BraceAt(s: string, q: nat)
    requires q <= |s|
    ensures OccursAt("}", s, q) <==> q < |s| && s[q] == '}'
  {
    if q < |s| {
      assert s[q..q + 1] == [s[q]];
    }
  }

  // `#*}?}` either fails, or matches up to where the scanner closes.
  lemma {:induction false} HashesAt(closing: Regex, s: string, q: nat)
    requires q <= |s| && closing == Closing
    ensures var rest := Ends(Then(Greedy(Only('#')), closing), s, q);
      rest != [] ==> Head(rest) == CloseEnd(s, q)
    ensures q < |s| && s[q] == '}' ==> Ends(Then(Greedy(Only('#')), closing), s, q) != []
    decreases |s| - q
  {
    GreedyThen(Only('#'), closing, s, q);
    ClosingAt(s, q);
    if q < |s| && s[q] == '#' {
      HashesAt(closing, s, q + 1);
    }
  }

  lemma {:induction false} TailIsClose(rest: Regex, s: string, p: nat)
    requires p <= |s| && rest == Then(Greedy(Only('#')), Closing)
    ensures Head(Ends(Then(Lazy(AllBut('\n')), rest), s, p)) == CloseEnd(s, p)
    decreases |s| - p
  {
    LazyThen(AllBut('\n'), rest, s, p);
    HashesAt(Closing, s, p);
    if p < |s| && s[p] != '\n' {
      TailIsClose(rest, s, p + 1);
    }
  }

  // `[>]{0,2}` before anything: two, then one, then none.
  lemma UpdatesThen(next: Regex, s: string, j: nat)
    requires j <= |s|
    ensures Ends(Then(Updates, next), s, j) ==
      (if !OccursAt(">", s, j) then []
       else (if OccursAt(">>", s, j) then Ends(next, s, j + 2) else []) + Ends(next, s, j + 1))
      + Ends(next, s, j)
  {
    var one := Chars(Only('>'));
    MaybeThen(Then(one, Maybe(one)), next, s, j);
    CharsThenThen(Only('>'), Maybe(one), next, s, j);
    UpdatesAt(s, j);
    if j < |s| {
      MaybeThen(one, next, s, j + 1);
      CharsThen(Only('>'), next, s, j + 1);
    }
  }

  lemma NoMarkerHere(tail: Regex, s: string, j: nat)
    requires j < |s| && s[j] == '>'
    ensures Ends(Then(Text(Marker), tail), s, j) == []
  {
    TextThen(Marker, tail, s, j);
    UpdatesAt(s, j);
  }

  // Only one way to read the `>`s can be followed by the marker: none, one or two of them.
  lemma UpdatesThenMarker(tail: Regex, s: string, j: nat)
    requires j <= |s|
    ensures Ends(Then(Updates, Then(Text(Marker), tail)), s, j) ==
      var k := if OccursAt(">>", s, j) then j + 2 else if OccursAt(">", s, j) then j + 1 else j;
      if OccursAt(Marker, s, k) then Ends(tail, s, k + |Marker|) else []
  {
    hide Ends, EndsFromAll;
    UpdatesThen(Then(Text(Marker), tail), s, j);
    UpdatesAt(s, j);
    hide OccursAt;
    if !OccursAt(">", s, j) {
      TextThen(Marker, tail, s, j);
    } else if !OccursAt(">>", s, j) {
      NoMarkerHere(tail, s, j);
      TextThen(Marker, tail, s, j + 1);
    } else {
      NoMarkerHere(tail, s, j);
      NoMarkerHere(tail, s, j + 1);
      TextThen(Marker, tail, s, j + 2);
    }
  }

  lemma UpdatesAt(s: string, j: nat)
    requires j <= |s|
    ensures OccursAt(">", s, j) <==> j < |s| && s[j] == '>'
    ensures OccursAt(">>", s, j) <==> j + 1 < |s| && s[j] == '>' && s[j + 1] == '>'
    ensures OccursAt(Marker, s, j) ==> j < |s| && s[j] == 's'
  {
    if OccursAt(Marker, s, j) {
      assert s[j] == s[j..j + |Marker|][0];
    }
    if j < |s| {
      assert s[j..j + 1] == [s[j]];
    }
    if j + 1 < |s| {
      assert s[j..j + 2] == [s[j], s[j + 1]];
    }
  }

  lemma MatchesAgree(s: string, i: nat)
    requires i <= |s|
    ensures Head(Ends(Inline, s, i)) == MatchEnd(s, i)
  {
    TextThen("${", Then(Updates, Then(Text(Marker), Tail)), s, i);
    if OccursAt("${", s, i) {
      UpdatesThenMarker(Tail, s, i + 2);
      var o := OpenerEnd(s, i);
      if o.Some? {
        TailIsClose(Then(Greedy(Only('#')), Closing), s, o.value);
      }
    }
  }

  /** The scanner returns the leftmost-first matches of the pattern, and nothing else does. */
  lemma {:induction false} ScannerRefinesPattern(s: string, from: nat, spans: seq<Span>)
    requires from <= |s|
    ensures LeftmostFirst(s, from, spans) <==> spans == ScanFrom(s, from)
    decreases |s| - from
  {
    MatchesAgree(s, from);
    if from == |s| {
    } else if MatchEnd(s, from).Some? {
      var e := MatchEnd(s, from).value;
      if spans != [] {
        ScannerRefinesPattern(s, e, spans[1..]);
        assert spans == [spans[0]] + spans[1..];
      }
    } else {
      ScannerRefinesPattern(s, from + 1, spans);
      assert Ends(Inline, s, from) == [];
    }
  }
}
