/** Quoted texts in expected results: which must be visible, which absent, and the two forms they are
    compiled to, DSL assertions and contract postconditions. */
module NlAssert {
  import opened Grouping
  import opened PyText
  import opened Decimals
  import opened PageModel

  // ---- quotations ----

  predicate IsOpener(c: char) { c == '「' || c == '『' || c == '"' || c == '\'' }

  predicate IsCloser(c: char) { c == '」' || c == '』' || c == '"' || c == '\'' }

  /** `s[i..j + 1]` is a quotation: opener, at least one character that is no closer, closer. */
  predicate QuotesBetween(s: string, i: int, j: int) {
    && 0 <= i && i + 1 < j < |s|
    && IsOpener(s[i]) && IsCloser(s[j])
    && forall k :: i < k < j ==> !IsCloser(s[k])
  }

  datatype Quote = Quote(start: nat, text: string) {
    function End(): nat { start + |text| + 1 }
  }

  function NextCloser(s: string, i: nat): (j: nat)
    requires i <= |s|
    ensures i <= j <= |s|
    ensures j < |s| ==> IsCloser(s[j])
    ensures forall k :: i <= k < j ==> !IsCloser(s[k])
    decreases |s| - i
  {
    if i == |s| || IsCloser(s[i]) then i else NextCloser(s, i + 1)
  }

  /** `re.finditer` of the quotation pattern from position `i` on. */
  function Quotes(s: string, i: nat): seq<Quote>
    decreases |s| - i
  {
    if i >= |s| then []
    else
      var j := NextCloser(s, i + 1);
      if IsOpener(s[i]) && i + 1 < j < |s| then [Quote(i, s[i + 1..j])] + Quotes(s, j + 1)
      else Quotes(s, i + 1)
  }

  predicate QuotesCover(qs: seq<Quote>, p: int) {
    exists k :: 0 <= k < |qs| && qs[k].start <= p <= qs[k].End()
  }

  /** Quotations of `s` from `i` on, in order and disjoint. */
  predicate AreQuotations(s: string, i: nat, qs: seq<Quote>) {
    && (forall k :: 0 <= k < |qs| ==> i <= qs[k].start && IsQuotation(s, qs[k]))
    && (forall k, l :: 0 <= k < l < |qs| ==> qs[k].End() < qs[l].start)
  }

  predicate IsQuotation(s: string, q: Quote) {
    QuotesBetween(s, q.start, q.End()) && q.text == s[q.start + 1..q.End()]
  }

  lemma ConsQuotation(s: string, i: nat, q: Quote, rest: seq<Quote>)
    requires i <= q.start && IsQuotation(s, q) && AreQuotations(s, q.End() + 1, rest)
    ensures AreQuotations(s, i, [q] + rest)
  {
    hide IsQuotation;
  }

  lemma LaterQuotations(s: string, i: nat)
    requires AreQuotations(s, i + 1, Quotes(s, i + 1))
    ensures AreQuotations(s, i, Quotes(s, i + 1))
  {
    hide Quotes, IsQuotation;
  }

  lemma NoQuotationsAtEnd(s: string, i: nat)
    requires i >= |s|
    ensures AreQuotations(s, i, Quotes(s, i))
  {
  }

  lemma FirstQuotation(s: string, i: nat)
    requires i < |s| && IsOpener(s[i]) && i + 1 < NextCloser(s, i + 1) < |s|
    ensures var q := Quote(i, s[i + 1..NextCloser(s, i + 1)]); q.End() == NextCloser(s, i + 1) && IsQuotation(s, q)
  {
  }

  lemma QuotesStep(s: string, i: nat)
    requires i < |s|
    ensures var j := NextCloser(s, i + 1);
            Quotes(s, i) == if IsOpener(s[i]) && i + 1 < j < |s| then [Quote(i, s[i + 1..j])] + Quotes(s, j + 1)
                            else Quotes(s, i + 1)
  {
  }

  /** The matches are quotations, in order and disjoint, */
  lemma {:induction false} QuotesAreQuotations(s: string, i: nat)
    ensures AreQuotations(s, i, Quotes(s, i))
    decreases |s| - i
  {
    hide Quotes, NextCloser, IsQuotation, QuotesBetween, AreQuotations, IsOpener, IsCloser;
    if i >= |s| {
      NoQuotationsAtEnd(s, i);
    } else {
      var c := NextCloser(s, i + 1);
      QuotesStep(s, i);
      if IsOpener(s[i]) && i + 1 < c < |s| {
        FirstQuotation(s, i);
        QuotesAreQuotations(s, c + 1);
        ConsQuotation(s, i, Quote(i, s[i + 1..c]), Quotes(s, c + 1));
      } else {
        QuotesAreQuotations(s, i + 1);
        LaterQuotations(s, i);
      }
    }
  }

  /** and no quotation starts outside all of them. */
  lemma {:induction false} QuotesAreLeftmost(s: string, i: nat, p: nat, j: nat)
    requires i <= p && QuotesBetween(s, p, j)
    ensures QuotesCover(Quotes(s, i), p)
    decreases |s| - i
  {
    var qs := Quotes(s, i);
    var c := NextCloser(s, i + 1);
    if IsOpener(s[i]) && i + 1 < c < |s| {
      if p > c {
        QuotesAreLeftmost(s, c + 1, p, j);
        var rest := Quotes(s, c + 1);
        var k :| 0 <= k < |rest| && rest[k].start <= p <= rest[k].End();
        assert qs[k + 1] == rest[k];
      } else {
        assert qs[0].start <= p <= qs[0].End();
      }
    } else {
      assert p != i by {
        if p == i {
          CloserFollows(s, i, j);
        }
      }
      QuotesAreLeftmost(s, i + 1, p, j);
    }
  }

  lemma CloserFollows(s: string, i: nat, j: nat)
    requires QuotesBetween(s, i, j)
    ensures NextCloser(s, i + 1) == j
  {
  }

  // ---- negative words before a quotation ----

  function Compact(s: string): string {
    if s == "" then "" else (if IsSpace(s[0]) then "" else [s[0]]) + Compact(s[1..])
  }

  lemma {:induction false} CompactConcat(x: string, y: string)
    ensures Compact(x + y) == Compact(x) + Compact(y)
  {
    if x == "" {
      assert x + y == y;
    } else {
      assert (x + y)[1..] == x[1..] + y;
      CompactConcat(x[1..], y);
    }
  }

  lemma {:induction false} CompactBlank(x: string)
    requires AllSpace(x)
    ensures Compact(x) == ""
  {
    if x != "" {
      CompactBlank(x[1..]);
    }
  }

  const SEEN_VERBS := ["出现", "展示", "显示", "可见"]
  const FULL_NEGATIONS := ["不出现", "不展示", "不显示", "不可见", "不见"]
  /** These negate with or without one of the verbs. */
  const OPEN_NEGATIONS := ["不应", "不应该", "不能", "不要", "没有", "无需", "不得", "禁止"]

  predicate EndsWithOne(s: string, stem: string, verbs: seq<string>) {
    exists k :: 0 <= k < |verbs| && EndsWith(s, stem + verbs[k])
  }

  predicate EndsNegative(s: string) {
    || EndsWithOne(s, "", FULL_NEGATIONS)
    || (exists k :: 0 <= k < |OPEN_NEGATIONS| && EndsWithOne(s, OPEN_NEGATIONS[k], [""] + SEEN_VERBS))
    || EndsWithOne(s, "未", SEEN_VERBS)
    || EndsWithOne(s, "勿", ["", "出现", "展示", "显示"])
  }

  const WINDOW := 16

  /** A negative word ends the sixteen characters before the quotation, blanks ignored. */
  predicate Negated(text: string, q: Quote)
    requires q.start <= |text|
  {
    EndsNegative(Compact(text[(if q.start < WINDOW then 0 else q.start - WINDOW)..q.start]))
  }

  // ---- quoted, absent and visible values ----

  predicate Within(text: string, qs: seq<Quote>) {
    forall k :: 0 <= k < |qs| ==> qs[k].start <= |text|
  }

  /** The stripped texts of quotations, blank ones dropped. */
  function Values(qs: seq<Quote>): seq<string> {
    if qs == [] then []
    else
      var n := |qs| - 1;
      Values(qs[..n]) + (if Strip(qs[n].text) == "" then [] else [Strip(qs[n].text)])
  }

  function NegatedQuotes(text: string, qs: seq<Quote>): seq<Quote>
    requires Within(text, qs)
  {
    if qs == [] then []
    else
      var n := |qs| - 1;
      NegatedQuotes(text, qs[..n]) + (if Negated(text, qs[n]) then [qs[n]] else [])
  }

  function Without(s: seq<string>, gone: set<string>): seq<string> {
    if s == [] then [] else (if s[0] in gone then [] else [s[0]]) + Without(s[1..], gone)
  }

  function AllQuotes(text: string): (qs: seq<Quote>)
    ensures Within(text, qs)
  {
    QuotesAreQuotations(text, 0);
    assert forall k :: 0 <= k < |Quotes(text, 0)| ==> IsQuotation(text, Quotes(text, 0)[k]);
    Quotes(text, 0)
  }

  function QuotedValues(text: string): seq<string> { Values(AllQuotes(text)) }

  function AbsentValues(expected: string): seq<string> {
    AbsentSoFar(expected, AllQuotes(expected))
  }

  function VisibleValues(expected: string): seq<string> {
    Without(QuotedValues(expected), Elements(AbsentValues(expected)))
  }

  function Elements(s: seq<string>): set<string> { set k | 0 <= k < |s| :: s[k] }

  method AbsentQuotedValues(expected: string) returns (found: seq<string>)
    ensures found == AbsentValues(expected)
  {
    var matches := AllQuotes(expected);
    hide NegatedQuotes, Values, Distinct, Negated, AllQuotes, Strip;
    assert AbsentSoFar(expected, matches[..0]) == [] by { NoneYet(expected); }
    found := [];
    var seen: set<string> := {};
    for i := 0 to |matches|
      invariant found == AbsentSoFar(expected, matches[..i])
      invariant forall v :: v in seen <==> v in found
    {
      NegatedQuotesSnoc(expected, matches[..i], matches[i]);
      assert matches[..i] + [matches[i]] == matches[..i + 1];
      var value := Strip(matches[i].text);
      if value == "" || value in seen {
        continue;
      }
      if Negated(expected, matches[i]) {
        found := found + [value];
        seen := seen + {value};
      }
    }
    assert matches[..|matches|] == matches;
  }

  function AbsentSoFar(text: string, qs: seq<Quote>): seq<string>
    requires Within(text, qs)
  {
    Distinct(Values(NegatedQuotes(text, qs)))
  }

  lemma NoneYet(text: string)
    ensures AbsentSoFar(text, []) == []
  {
  }

  /** One more quotation adds its value if that is negated, not blank and new. */
  lemma NegatedQuotesSnoc(text: string, qs: seq<Quote>, q: Quote)
    requires Within(text, qs) && q.start <= |text|
    ensures Within(text, qs + [q])
    ensures var before := AbsentSoFar(text, qs);
            var v := Strip(q.text);
            AbsentSoFar(text, qs + [q]) ==
            if Negated(text, q) && v != "" && v !in before then before + [v] else before
  {
    assert (qs + [q])[..|qs|] == qs;
    var kept := NegatedQuotes(text, qs);
    assert (kept + [q])[..|kept|] == kept;
    assert kept + [] == kept;
    var values, v := Values(kept), Strip(q.text);
    assert (values + [v])[..|values|] == values;
    assert values + [] == values;
  }

  lemma {:induction false} InWithout(s: seq<string>, gone: set<string>)
    ensures forall v :: v in Without(s, gone) <==> v in s && v !in gone
  {
    if s != [] {
      InWithout(s[1..], gone);
      assert s == [s[0]] + s[1..];
    }
  }

  lemma {:induction false} InValues(qs: seq<Quote>, v: string)
    ensures v in Values(qs) <==> v != "" && exists k :: 0 <= k < |qs| && Strip(qs[k].text) == v
  {
    if qs != [] {
      var n := |qs| - 1;
      InValues(qs[..n], v);
      assert qs == qs[..n] + [qs[n]];
    }
  }

  lemma {:induction false} InNegatedQuotes(text: string, qs: seq<Quote>)
    requires Within(text, qs)
    ensures forall q :: q in NegatedQuotes(text, qs) <==> q in qs && Negated(text, q)
  {
    if qs != [] {
      var n := |qs| - 1;
      InNegatedQuotes(text, qs[..n]);
      assert qs == qs[..n] + [qs[n]];
    }
  }

  /** Absent texts are exactly those with some negated quotation, each listed once. */
  lemma AbsentMeaning(expected: string)
    ensures forall v :: v in AbsentValues(expected) <==>
                        v != "" && exists q :: q in AllQuotes(expected) && Strip(q.text) == v && Negated(expected, q)
    ensures forall i, j :: 0 <= i < j < |AbsentValues(expected)| ==> AbsentValues(expected)[i] != AbsentValues(expected)[j]
  {
    var qs := AllQuotes(expected);
    var negated := NegatedQuotes(expected, qs);
    InDistinct(Values(negated));
    InNegatedQuotes(expected, qs);
    forall v ensures v in AbsentValues(expected) <==>
                     v != "" && exists q :: q in qs && Strip(q.text) == v && Negated(expected, q)
    {
      InValues(negated, v);
      if v in AbsentValues(expected) {
        var k :| 0 <= k < |negated| && Strip(negated[k].text) == v;
        assert negated[k] in negated;
      }
      if v != "" && exists q :: q in qs && Strip(q.text) == v && Negated(expected, q) {
        var q :| q in qs && Strip(q.text) == v && Negated(expected, q);
        assert q in negated;
      }
    }
  }

  /** Every quoted text is either visible or absent and none is both. */
  lemma VisibleAndAbsentPartitionQuoted(expected: string)
    ensures forall v :: v in QuotedValues(expected) <==> v in VisibleValues(expected) || v in AbsentValues(expected)
    ensures forall v :: !(v in VisibleValues(expected) && v in AbsentValues(expected))
    ensures QuotedValues(expected) != [] ==> VisibleValues(expected) != [] || AbsentValues(expected) != []
  {
    var absent := AbsentValues(expected);
    InWithout(QuotedValues(expected), Elements(absent));
    AbsentMeaning(expected);
    assert forall v :: v in Elements(absent) <==> v in absent;
    forall v | v in absent ensures v in QuotedValues(expected) {
      var qs := AllQuotes(expected);
      var q :| q in qs && Strip(q.text) == v && Negated(expected, q);
      InValues(qs, v);
    }
    if QuotedValues(expected) != [] {
      assert QuotedValues(expected)[0] in QuotedValues(expected);
    }
  }

  // ---- when a quotation is negated ----

  /** Every word the window pattern can end in, spelled out. */
  const NEGATIVE_WORDS: seq<seq<string>> := [
    ["不出现", "不展示", "不显示", "不可见", "不见"],
    ["不应", "不应出现", "不应展示", "不应显示", "不应可见"],
    ["不应该", "不应该出现", "不应该展示", "不应该显示", "不应该可见"],
    ["不能", "不能出现", "不能展示", "不能显示", "不能可见"],
    ["不要", "不要出现", "不要展示", "不要显示", "不要可见"],
    ["没有", "没有出现", "没有展示", "没有显示", "没有可见"],
    ["无需", "无需出现", "无需展示", "无需显示", "无需可见"],
    ["不得", "不得出现", "不得展示", "不得显示", "不得可见"],
    ["禁止", "禁止出现", "禁止展示", "禁止显示", "禁止可见"],
    ["未出现", "未展示", "未显示", "未可见"],
    ["勿", "勿出现", "勿展示", "勿显示"]]

  predicate IsNegativeWord(w: string) {
    exists i, j :: 0 <= i < |NEGATIVE_WORDS| && 0 <= j < |NEGATIVE_WORDS[i]| && NEGATIVE_WORDS[i][j] == w
  }

  /** `s` is `w` with blanks anywhere between, before and behind its characters. */
  predicate Spaced(s: string, w: string) {
    if s == "" then w == ""
    else if IsSpace(s[0]) then Spaced(s[1..], w)
    else w != "" && s[0] == w[0] && Spaced(s[1..], w[1..])
  }

  /** Within the sixteen characters before `p` and up to it stands a negative word, blanks apart. */
  ghost predicate NegativeBefore(text: string, p: nat)
    requires p <= |text|
  {
    exists from: nat, w: string :: from <= p && p - from <= 16 && IsNegativeWord(w) && Spaced(text[from..p], w)
  }

  lemma {:induction false} SpacedCompacts(s: string, w: string)
    ensures Spaced(s, w) <==> Compact(s) == w
  {
    if s != "" {
      if IsSpace(s[0]) {
        SpacedCompacts(s[1..], w);
      } else if w != "" {
        SpacedCompacts(s[1..], w[1..]);
        assert w == [w[0]] + w[1..];
      }
    }
  }

  /** What compacts to the end of a compacted text is an end of the text. */
  lemma {:induction false} CompactEnds(s: string, n: nat) returns (cut: nat)
    requires n <= |Compact(s)|
    ensures cut <= |s| && Compact(s[cut..]) == Compact(s)[n..]
  {
    if n == 0 {
      cut := 0;
    } else {
      cut := CompactEnds(s[1..], if IsSpace(s[0]) then n else n - 1);
      assert s[1..][cut..] == s[cut + 1..];
      cut := cut + 1;
    }
  }

  lemma OpenWords(k: nat, m: nat)
    requires k < |OPEN_NEGATIONS| && m <= |SEEN_VERBS|
    ensures NEGATIVE_WORDS[k + 1][m] == OPEN_NEGATIONS[k] + ([""] + SEEN_VERBS)[m]
  {
  }

  lemma OtherWords(m: nat)
    requires m < |SEEN_VERBS|
    ensures NEGATIVE_WORDS[9][m] == "未" + SEEN_VERBS[m]
    ensures NEGATIVE_WORDS[10][m] == "勿" + ["", "出现", "展示", "显示"][m]
  {
  }

  lemma FullWords(m: nat)
    requires m < |FULL_NEGATIONS|
    ensures NEGATIVE_WORDS[0][m] == "" + FULL_NEGATIONS[m]
  {
  }

  lemma EndsNegativeIff(s: string)
    ensures EndsNegative(s) <==> exists w :: IsNegativeWord(w) && EndsWith(s, w)
  {
    hide EndsWith;
    if EndsNegative(s) {
      var w := NegativeEnd(s);
    }
    forall i, j | 0 <= i < |NEGATIVE_WORDS| && 0 <= j < |NEGATIVE_WORDS[i]| && EndsWith(s, NEGATIVE_WORDS[i][j])
      ensures EndsNegative(s)
    {
      ListedEnd(s, i, j);
    }
  }

  lemma NegativeEnd(s: string) returns (w: string)
    requires EndsNegative(s)
    ensures IsNegativeWord(w) && EndsWith(s, w)
  {
    hide EndsWith;
    if EndsWithOne(s, "", FULL_NEGATIONS) {
      var m :| 0 <= m < |FULL_NEGATIONS| && EndsWith(s, "" + FULL_NEGATIONS[m]);
      FullWords(m);
      w := NEGATIVE_WORDS[0][m];
    } else if EndsWithOne(s, "未", SEEN_VERBS) {
      var m :| 0 <= m < |SEEN_VERBS| && EndsWith(s, "未" + SEEN_VERBS[m]);
      OtherWords(m);
      w := NEGATIVE_WORDS[9][m];
    } else if EndsWithOne(s, "勿", ["", "出现", "展示", "显示"]) {
      var m :| 0 <= m < 4 && EndsWith(s, "勿" + ["", "出现", "展示", "显示"][m]);
      OtherWords(m);
      w := NEGATIVE_WORDS[10][m];
    } else {
      var k :| 0 <= k < |OPEN_NEGATIONS| && EndsWithOne(s, OPEN_NEGATIONS[k], [""] + SEEN_VERBS);
      var m :| 0 <= m < |[""] + SEEN_VERBS| && EndsWith(s, OPEN_NEGATIONS[k] + ([""] + SEEN_VERBS)[m]);
      OpenWords(k, m);
      w := NEGATIVE_WORDS[k + 1][m];
    }
  }

  lemma ListedEnd(s: string, i: nat, j: nat)
    requires i < |NEGATIVE_WORDS| && j < |NEGATIVE_WORDS[i]| && EndsWith(s, NEGATIVE_WORDS[i][j])
    ensures EndsNegative(s)
  {
    hide EndsWith;
    if i == 0 {
      FullWords(j);
      assert EndsWithOne(s, "", FULL_NEGATIONS);
    } else if i == 9 {
      OtherWords(j);
      assert EndsWithOne(s, "未", SEEN_VERBS);
    } else if i == 10 {
      OtherWords(j);
      assert EndsWithOne(s, "勿", ["", "出现", "展示", "显示"]);
    } else {
      OpenWords(i - 1, j);
      assert EndsWithOne(s, OPEN_NEGATIONS[i - 1], [""] + SEEN_VERBS);
    }
  }

  /** A quotation is negated exactly if a listed word stands right before it. */
  lemma NegatedIff(text: string, q: Quote)
    requires q.start <= |text|
    ensures Negated(text, q) <==> NegativeBefore(text, q.start)
  {
    hide EndsNegative, IsNegativeWord, Compact, Spaced;
    var first := if q.start < WINDOW then 0 else q.start - WINDOW;
    var window := text[first..q.start];
    EndsNegativeIff(Compact(window));
    if Negated(text, q) {
      var w :| IsNegativeWord(w) && EndsWith(Compact(window), w);
      var cut := CompactEnds(window, |Compact(window)| - |w|);
      SpacedCompacts(window[cut..], w);
      assert text[first + cut..q.start] == window[cut..];
    }
    if NegativeBefore(text, q.start) {
      var from: nat, w: string :| from <= q.start && q.start - from <= 16 && IsNegativeWord(w) && Spaced(text[from..q.start], w);
      SpacedCompacts(text[from..q.start], w);
      CompactConcat(text[first..from], text[from..q.start]);
      assert window == text[first..from] + text[from..q.start];
      assert EndsWith(Compact(window), w);
    }
  }

  /** A text is absent exactly if some quotation of it stands right behind a listed word. */
  lemma AbsentIff(expected: string, v: string)
    ensures v in AbsentValues(expected) <==>
              v != "" && exists q :: q in AllQuotes(expected) && Strip(q.text) == v && NegativeBefore(expected, q.start)
  {
    hide NegativeBefore, Negated, AllQuotes, AbsentValues, Strip;
    AbsentMeaning(expected);
    forall q | q in AllQuotes(expected) ensures Negated(expected, q) <==> NegativeBefore(expected, q.start) {
      NegatedIff(expected, q);
    }
  }

  /** A text is visible exactly if it is quoted and no quotation of it stands right behind such a word. */
  lemma VisibleIff(expected: string, v: string)
    ensures v in VisibleValues(expected) <==>
              && v != "" && (exists q :: q in AllQuotes(expected) && Strip(q.text) == v)
              && forall q :: q in AllQuotes(expected) && Strip(q.text) == v ==> !NegativeBefore(expected, q.start)
  {
    hide NegativeBefore, AllQuotes, AbsentValues, VisibleValues, Strip;
    AbsentIff(expected, v);
    VisibleAndAbsentPartitionQuoted(expected);
    InValues(AllQuotes(expected), v);
    assert QuotedValues(expected) == Values(AllQuotes(expected));
    hide QuotedValues, Values;
    var qs := AllQuotes(expected);
    assert (exists k :: 0 <= k < |qs| && Strip(qs[k].text) == v) <==> exists q :: q in qs && Strip(q.text) == v by {
      if q :| q in qs && Strip(q.text) == v {
        var k :| 0 <= k < |qs| && qs[k] == q;
      }
      if k :| 0 <= k < |qs| && Strip(qs[k].text) == v {
        assert qs[k] in qs;
      }
    }
  }

  /** Without a listed word right before a quotation nothing is absent and all quoted texts are visible. */
  lemma NothingNegated(expected: string)
    requires forall q :: q in AllQuotes(expected) ==> !NegativeBefore(expected, q.start)
    ensures AbsentValues(expected) == [] && VisibleValues(expected) == QuotedValues(expected)
  {
    hide NegativeBefore, AllQuotes, AbsentValues, QuotedValues, Strip;
    if AbsentValues(expected) != [] {
      AbsentIff(expected, AbsentValues(expected)[0]);
    }
    WithoutNone(QuotedValues(expected));
    assert Elements([]) == {};
  }

  lemma {:induction false} WithoutNone(s: seq<string>)
    ensures Without(s, {}) == s
  {
    if s != [] {
      WithoutNone(s[1..]);
      assert s == [s[0]] + s[1..];
    }
  }

  /** A quotation that no earlier match swallows is found. */
  lemma FoundAt(text: string, p: nat, j: nat) returns (q: Quote)
    requires QuotesBetween(text, p, j) && forall q :: q in AllQuotes(text) ==> !(q.start < p <= q.End())
    ensures q in AllQuotes(text) && q.start == p && q.text == text[p + 1..j]
  {
    hide QuotesBetween, Quotes, IsQuotation;
    QuotesAreLeftmost(text, 0, p, j);
    QuotesAreQuotations(text, 0);
    var qs := Quotes(text, 0);
    var k :| 0 <= k < |qs| && qs[k].start <= p <= qs[k].End();
    q := qs[k];
    assert q in AllQuotes(text);
    SameQuotation(text, q, p, j);
  }

  lemma AbsentAt(text: string, from: nat, p: nat, j: nat, w: string)
    requires QuotesBetween(text, p, j) && forall q :: q in AllQuotes(text) ==> !(q.start < p <= q.End())
    requires from <= p && p - from <= 16 && IsNegativeWord(w) && Spaced(text[from..p], w) && Strip(text[p + 1..j]) != ""
    ensures Strip(text[p + 1..j]) in AbsentValues(text)
  {
    hide QuotesBetween, AllQuotes, IsNegativeWord, Spaced, Strip, AbsentValues;
    var q := FoundAt(text, p, j);
    assert NegativeBefore(text, p);
    AbsentIff(text, Strip(q.text));
  }

  /** On texts: what is quoted right behind a listed word, blanks allowed within the sixteen characters,
      is absent and not visible, whatever stands in front and behind, as long as no other quotation
      swallows it. */
  lemma QuotedBehindWordIsAbsent(pre: string, spaced: string, w: string, open: char, body: string, close: char, post: string)
    requires IsNegativeWord(w) && Spaced(spaced, w) && |spaced| <= 16
    requires IsOpener(open) && IsCloser(close) && Strip(body) != "" && forall k :: 0 <= k < |body| ==> !IsCloser(body[k])
    requires var text, p := pre + spaced + [open] + body + [close] + post, |pre + spaced|;
             forall q :: q in AllQuotes(text) ==> !(q.start < p <= q.End())
    ensures var text := pre + spaced + [open] + body + [close] + post;
            Strip(body) in AbsentValues(text) && Strip(body) !in VisibleValues(text)
  {
    assert body != "" by { assert Strip("") == ""; }
    hide *;
    var text, p := pre + spaced + [open] + body + [close] + post, |pre + spaced|;
    QuotationInText(pre + spaced, open, body, close, post);
    TextSlices(pre, spaced, [open], body, [close] + post);
    Reassociate(pre + spaced + [open] + body, [close], post);
    AbsentAt(text, |pre|, p, p + 1 + |body|, w);
    VisibleAndAbsentPartitionQuoted(text);
  }

  lemma TextSlices(pre: string, spaced: string, open: string, body: string, post: string)
    ensures var text, p := pre + spaced + open + body + post, |pre + spaced|;
            text[|pre|..p] == spaced && text[p + |open|..p + |open| + |body|] == body
  {
  }

  lemma QuotationInText(front: string, open: char, body: string, close: char, post: string)
    requires IsOpener(open) && IsCloser(close) && body != "" && forall k :: 0 <= k < |body| ==> !IsCloser(body[k])
    ensures QuotesBetween(front + [open] + body + [close] + post, |front|, |front| + 1 + |body|)
  {
    hide IsOpener, IsCloser;
    var text := front + [open] + body + [close] + post;
    assert text[|front| + 1..|front| + 1 + |body|] == body;
    forall k | |front| < k < |front| + 1 + |body| ensures !IsCloser(text[k]) {
      assert text[k] == body[k - |front| - 1];
    }
  }

  lemma SameQuotation(text: string, q: Quote, p: int, j: int)
    requires IsQuotation(text, q) && q.start == p && QuotesBetween(text, p, j)
    ensures q.End() == j && q.text == text[p + 1..j]
  {
    hide IsOpener, IsCloser;
  }

  // ---- contract postconditions ----

  const TEXT_VISIBLE := "text_visible:"
  const TEXT_ABSENT := "text_absent:"

  function Prefixed(prefix: string, values: seq<string>): seq<string> {
    if values == [] then [] else [prefix + values[0]] + Prefixed(prefix, values[1..])
  }

  /** The text postconditions of an expected result. */
  function TextConditions(expected: string): seq<string> {
    Prefixed(TEXT_VISIBLE, VisibleValues(expected)) + Prefixed(TEXT_ABSENT, AbsentValues(expected))
  }

  predicate Shows(page: Observation, value: string) {
    exists k :: 0 <= k < |page.elements|
                && (Contains(page.elements[k].text, value) || Contains(page.elements[k].accessibilityId, value))
  }

  predicate ConditionHolds(condition: string, before: Observation, after: Observation) {
    if condition == "page_content_changed" || condition == "page_indicator_changed" then
      before.sourceHash != after.sourceHash
    else if StartsWith(condition, TEXT_VISIBLE) then
      assert condition[12] == ':';
      Shows(after, After(condition, ':')) || Contains(after.source, After(condition, ':'))
    else if StartsWith(condition, TEXT_ABSENT) then
      assert condition[11] == ':';
      !(Shows(after, After(condition, ':')) || Contains(after.source, After(condition, ':')))
    else if condition == "expected_state_visible" then after.elements != []
    else true
  }

  /** The conditions that fail, in order: one reason each. */
  function Failing(conditions: seq<string>, before: Observation, after: Observation): seq<string> {
    if conditions == [] then []
    else
      var n := |conditions| - 1;
      Failing(conditions[..n], before, after) + (if ConditionHolds(conditions[n], before, after) then [] else [conditions[n]])
  }

  method VerifyPostconditions(conditions: seq<string>, before: Observation, after: Observation)
    returns (ok: bool, reasons: seq<string>)
    ensures reasons == Failing(conditions, before, after)
    ensures ok <==> forall k :: 0 <= k < |conditions| ==> ConditionHolds(conditions[k], before, after)
  {
    reasons := [];
    for i := 0 to |conditions|
      invariant reasons == Failing(conditions[..i], before, after)
      invariant reasons == [] <==> forall k :: 0 <= k < i ==> ConditionHolds(conditions[k], before, after)
    {
      assert conditions[..i + 1][..i] == conditions[..i];
      if !ConditionHolds(conditions[i], before, after) {
        reasons := reasons + [conditions[i]];
      }
    }
    assert conditions[..|conditions|] == conditions;
    ok := reasons == [];
  }

  /** What each condition asks of the pages before and after the step. */
  lemma ConditionMeaning(v: string, before: Observation, after: Observation)
    ensures ConditionHolds("text_visible:" + v, before, after) <==>
              || Contains(after.source, v)
              || exists k :: 0 <= k < |after.elements|
                             && (Contains(after.elements[k].text, v) || Contains(after.elements[k].accessibilityId, v))
    ensures ConditionHolds("text_absent:" + v, before, after) <==> !ConditionHolds("text_visible:" + v, before, after)
    ensures ConditionHolds("page_content_changed", before, after) <==> before.sourceHash != after.sourceHash
    ensures ConditionHolds("page_indicator_changed", before, after) <==> before.sourceHash != after.sourceHash
    ensures ConditionHolds("expected_state_visible", before, after) <==> after.elements != []
    ensures ConditionHolds("page_changed", before, after)
  {
    TextCondition("text_visible:", v);
    TextCondition("text_absent:", v);
    NotText("page_content_changed");
    NotText("page_indicator_changed");
    NotText("expected_state_visible");
    NotText("page_changed");
    hide Contains, StartsWith, After;
  }

  lemma NotText(c: string)
    requires c != "" && c[0] != 't'
    ensures !StartsWith(c, TEXT_VISIBLE) && !StartsWith(c, TEXT_ABSENT)
  {
    PrefixChars(c, TEXT_VISIBLE);
    PrefixChars(c, TEXT_ABSENT);
    assert TEXT_VISIBLE[0] == 't' && TEXT_ABSENT[0] == 't';
  }

  lemma TextCondition(prefix: string, v: string)
    requires prefix == "text_visible:" || prefix == "text_absent:"
    ensures After(prefix + v, ':') == v
    ensures StartsWith(prefix + v, prefix) && (StartsWith(prefix + v, TEXT_VISIBLE) <==> prefix == TEXT_VISIBLE)
    ensures (prefix + v)[0] == 't'
  {
    BehindColon(prefix[..|prefix| - 1], v);
    assert prefix == prefix[..|prefix| - 1] + [':'];
    hide After;
    PrefixChars(prefix + v, TEXT_VISIBLE);
    assert (prefix + v)[5] == prefix[5] && TEXT_VISIBLE[5] == 'v' && TEXT_ABSENT[5] == 'a';
  }

  lemma BehindColon(word: string, v: string)
    requires ':' !in word
    ensures After(word + [':'] + v, ':') == v
  {
    SkipTo(word, ':', v);
  }

  // ---- DSL assertions ----

  datatype Action = AssertText | AssertTextAbsent | Screenshot
  datatype Step = Step(action: Action, description: string, expected: string, value: string)

  function StepsFor(action: Action, description: string, expected: string, values: seq<string>): seq<Step> {
    if values == [] then []
    else
      var n := |values| - 1;
      StepsFor(action, description, expected, values[..n]) + [Step(action, description, expected, values[n])]
  }

  // ---- the short text of an expectation without quotations ----

  const SUBJECTIVE: seq<string> :=
    ["流畅", "卡顿", "逐步加载", "无空白", "符合预期", "正常", "加载失败", "同步更新", "实时同步", "一致", "无明显", "无异常", "体验良好"]

  predicate IsSubjective(expected: string) {
    exists k :: 0 <= k < |SUBJECTIVE| && Contains(expected, SUBJECTIVE[k])
  }

  function DigitsEnd(s: string, i: nat): (j: nat)
    requires i <= |s|
    ensures i <= j <= |s| && (forall k :: i <= k < j ==> IsDigit(s[k])) && (j < |s| ==> !IsDigit(s[j]))
    decreases |s| - i
  {
    if i < |s| && IsDigit(s[i]) then DigitsEnd(s, i + 1) else i
  }

  function SpacesEnd(s: string, i: nat): (j: nat)
    requires i <= |s|
    ensures i <= j <= |s| && (forall k :: i <= k < j ==> IsSpace(s[k])) && (j < |s| ==> !IsSpace(s[j]))
    decreases |s| - i
  {
    if i < |s| && IsSpace(s[i]) then SpacesEnd(s, i + 1) else i
  }

  /** Where the pattern of a page mark, two numbers around a slash, ends if it matches at `i`. */
  function MarkEnd(s: string, i: nat): (e: Option<nat>)
    requires i <= |s|
    ensures e.Some? ==> i < e.value <= |s|
  {
    var a := DigitsEnd(s, i);
    var b := SpacesEnd(s, a);
    if a == i || b == |s| || s[b] != '/' then None
    else
      var c := SpacesEnd(s, b + 1);
      var d := DigitsEnd(s, c);
      if d == c then None
      else
        var e := SpacesEnd(s, d);
        Some(if e < |s| && s[e] == '话' then e + 1 else e)
  }

  /** `re.search` of the page mark from `i` on: where the leftmost match starts. */
  function FirstMark(s: string, i: nat): (k: Option<nat>)
    requires i <= |s|
    ensures k.Some? ==> i <= k.value < |s| && MarkEnd(s, k.value).Some? && forall j :: i <= j < k.value ==> MarkEnd(s, j).None?
    ensures k.None? ==> forall j :: i <= j <= |s| ==> MarkEnd(s, j).None?
    decreases |s| - i
  {
    hide MarkEnd;
    if MarkEnd(s, i).Some? then Some(i) else if i == |s| then None else FirstMark(s, i + 1)
  }

  predicate IsWordChar(c: char) {
    '\U{4E00}' <= c <= '\U{9FFF}' || 'A' <= c <= 'Z' || 'a' <= c <= 'z' || '0' <= c <= '9'
  }

  /** The text asserted for an expectation without quotations, if there is one. */
  function ShortText(expected: string): Option<string> {
    if expected == "" || IsSubjective(expected) then None
    else
      match FirstMark(expected, 0)
      case Some(k) => Some(Compact(expected[k..MarkEnd(expected, k).value]))
      case None =>
        if |expected| > 24 || '，' in expected || '。' in expected then None
        else if exists k :: 0 <= k < |expected| && IsWordChar(expected[k]) then Some(expected)
        else None
  }

  /** Two numbers around a slash at `i`, blanks allowed on both sides of it. */
  predicate MarkSpans(s: string, i: int, a: int, b: int, c: int, d: int) {
    && 0 <= i < a <= b < c < d <= |s|
    && AllDigits(s[i..a]) && AllSpace(s[a..b]) && s[b] == '/' && AllSpace(s[b + 1..c]) && AllDigits(s[c..d])
  }

  lemma DigitsRunOn(s: string, i: nat, j: nat)
    requires i <= j <= |s| && AllDigits(s[i..j])
    ensures DigitsEnd(s, i) >= j
    ensures j < |s| && !IsDigit(s[j]) ==> DigitsEnd(s, i) == j
  {
    var e := DigitsEnd(s, i);
    forall k | i <= k < j ensures IsDigit(s[k]) {
      assert s[i..j][k - i] == s[k];
    }
  }

  lemma SpacesRunOn(s: string, i: nat, j: nat)
    requires i <= j < |s| && AllSpace(s[i..j]) && !IsSpace(s[j])
    ensures SpacesEnd(s, i) == j
  {
    var e := SpacesEnd(s, i);
    forall k | i <= k < j ensures IsSpace(s[k]) {
      assert s[i..j][k - i] == s[k];
    }
  }

  lemma MarkDelimits(s: string, i: int, a: int, b: int, c: int, d: int)
    requires MarkSpans(s, i, a, b, c, d)
    ensures !IsDigit(s[a]) && !IsSpace(s[b]) && IsDigit(s[c]) && !IsSpace(s[c])
  {
    assert s[c..d][0] == s[c];
    assert a < b ==> s[a..b][0] == s[a];
  }

  lemma DigitsSpan(s: string, i: nat)
    requires i <= |s|
    ensures AllDigits(s[i..DigitsEnd(s, i)])
  {
  }

  lemma SpacesSpan(s: string, i: nat)
    requires i <= |s|
    ensures AllSpace(s[i..SpacesEnd(s, i)])
  {
  }

  lemma ScanSpans(s: string, i: nat)
    requires i <= |s| && MarkEnd(s, i).Some?
    ensures exists a, b, c, d :: MarkSpans(s, i, a, b, c, d)
  {
    hide DigitsEnd, SpacesEnd, AllDigits, AllSpace, IsDigit, IsSpace;
    var a := DigitsEnd(s, i);
    var b := SpacesEnd(s, a);
    var c := SpacesEnd(s, b + 1);
    DigitsSpan(s, i);
    SpacesSpan(s, a);
    SpacesSpan(s, b + 1);
    DigitsSpan(s, c);
    assert MarkSpans(s, i, a, b, c, DigitsEnd(s, c));
  }

  lemma SpansScan(s: string, i: nat, a: int, b: int, c: int, d: int)
    requires MarkSpans(s, i, a, b, c, d)
    ensures MarkEnd(s, i).Some?
  {
    MarkDelimits(s, i, a, b, c, d);
    hide DigitsEnd, SpacesEnd, AllDigits, AllSpace, IsDigit, IsSpace;
    DigitsRunOn(s, i, a);
    SpacesRunOn(s, a, b);
    SpacesRunOn(s, b + 1, c);
    DigitsRunOn(s, c, d);
  }

  /** The deterministic scan finds a mark exactly where the pattern can match. */
  lemma MarkEndIff(s: string, i: nat)
    requires i <= |s|
    ensures MarkEnd(s, i).Some? <==> exists a, b, c, d :: MarkSpans(s, i, a, b, c, d)
  {
    hide MarkEnd, MarkSpans;
    if MarkEnd(s, i).Some? {
      ScanSpans(s, i);
    }
    forall a, b, c, d | MarkSpans(s, i, a, b, c, d) ensures MarkEnd(s, i).Some? {
      SpansScan(s, i, a, b, c, d);
    }
  }

  lemma {:induction false} CompactKeeps(s: string)
    requires forall k :: 0 <= k < |s| ==> !IsSpace(s[k])
    ensures Compact(s) == s
  {
    if s != "" { CompactKeeps(s[1..]); }
  }

  lemma DigitsAreNoSpaces(s: string)
    requires AllDigits(s)
    ensures Compact(s) == s
  {
    CompactKeeps(s);
  }

  lemma Cut(s: string, i: nat, j: nat, k: nat)
    requires i <= j <= k <= |s|
    ensures s[i..k] == s[i..j] + s[j..k]
  {
  }

  lemma Spread(s: string, i: nat, a: nat, b: nat, c: nat, d: nat, e: nat, end: nat)
    requires i <= a <= b < c <= d <= e <= end <= |s|
    ensures s[i..end] == s[i..a] + (s[a..b] + ([s[b]] + (s[b + 1..c] + (s[c..d] + (s[d..e] + s[e..end])))))
  {
    Cut(s, i, a, end);
    Cut(s, a, b, end);
    Cut(s, b, b + 1, end);
    Cut(s, b + 1, c, end);
    Cut(s, c, d, end);
    Cut(s, d, e, end);
    assert s[b..b + 1] == [s[b]];
  }

  lemma SpreadCompacts(m: string, x: string, y: string, n: string, z: string, tail: string)
    requires IsMark(m, n, tail) && AllSpace(x) && AllSpace(y) && AllSpace(z)
    ensures Compact(m + (x + ("/" + (y + (n + (z + tail)))))) == MarkText(m, n, tail)
  {
    hide AllSpace, AllDigits;
    CompactConcat(m, x + ("/" + (y + (n + (z + tail)))));
    CompactConcat(x, "/" + (y + (n + (z + tail))));
    CompactConcat("/", y + (n + (z + tail)));
    CompactConcat(y, n + (z + tail));
    CompactConcat(n, z + tail);
    CompactConcat(z, tail);
    DigitsAreNoSpaces(m);
    DigitsAreNoSpaces(n);
    CompactBlank(x);
    CompactBlank(y);
    CompactBlank(z);
    CompactKeeps("/");
    CompactKeeps(tail);
    hide Compact;
    assert "" + tail == tail && "" + (n + tail) == n + tail && "" + ("/" + (n + tail)) == "/" + (n + tail);
  }

  lemma MarkParts(s: string, i: nat) returns (a: nat, b: nat, c: nat, d: nat, e: nat)
    requires i <= |s| && MarkEnd(s, i).Some?
    ensures var end := MarkEnd(s, i).value;
            && i < a <= b < c < d <= e <= end <= |s| && s[b] == '/' && IsMark(s[i..a], s[c..d], s[e..end])
            && AllSpace(s[a..b]) && AllSpace(s[b + 1..c]) && AllSpace(s[d..e])
  {
    hide DigitsEnd, SpacesEnd, AllDigits, AllSpace, IsDigit, IsSpace;
    a := DigitsEnd(s, i);
    b := SpacesEnd(s, a);
    c := SpacesEnd(s, b + 1);
    d := DigitsEnd(s, c);
    e := SpacesEnd(s, d);
    DigitsSpan(s, i);
    SpacesSpan(s, a);
    SpacesSpan(s, b + 1);
    DigitsSpan(s, c);
    SpacesSpan(s, d);
    assert MarkEnd(s, i).value > e ==> s[e..e + 1] == "话";
  }

  /** A page mark compacts to its two numbers around the slash, with the unit behind them if it is there. */
  lemma MarkCompacts(s: string, i: nat)
    requires i <= |s| && MarkEnd(s, i).Some?
    ensures exists m, n, tail :: IsMark(m, n, tail) && Compact(s[i..MarkEnd(s, i).value]) == MarkText(m, n, tail)
  {
    hide Compact, MarkText, MarkEnd, AllSpace, IsMark;
    var a, b, c, d, e := MarkParts(s, i);
    var end := MarkEnd(s, i).value;
    Spread(s, i, a, b, c, d, e, end);
    SpreadCompacts(s[i..a], s[a..b], s[b + 1..c], s[c..d], s[d..e], s[e..end]);
  }

  predicate IsMark(m: string, n: string, tail: string) {
    m != "" && n != "" && AllDigits(m) && AllDigits(n) && (tail == "" || tail == "话")
  }

  function MarkText(m: string, n: string, tail: string): string { m + ("/" + (n + tail)) }

  /** When an expectation without quotations is asserted, and as what: a page mark without blanks where
      it holds one, else the whole of a short text that names something. */
  lemma ShortTextMeaning(expected: string)
    ensures var marked := exists i, a, b, c, d :: MarkSpans(expected, i, a, b, c, d);
            var t := ShortText(expected);
            && (t.Some? <==> !IsSubjective(expected) && (marked || IsShort(expected)))
            && (t.Some? && marked ==> exists m, n, tail :: IsMark(m, n, tail) && t.value == MarkText(m, n, tail))
            && (t.Some? && !marked ==> t.value == expected)
  {
    hide IsSubjective, Compact, MarkEnd, MarkSpans, IsMark, MarkText;
    var k := FirstMark(expected, 0);
    if k.Some? {
      MarkEndIff(expected, k.value);
      MarkCompacts(expected, k.value);
    }
    forall i, a, b, c, d | MarkSpans(expected, i, a, b, c, d) ensures k.Some? {
      SpansInside(expected, i, a, b, c, d);
      MarkEndIff(expected, i);
    }
  }

  lemma SpansInside(s: string, i: int, a: int, b: int, c: int, d: int)
    requires MarkSpans(s, i, a, b, c, d)
    ensures 0 <= i < |s|
  {
  }

  /** At most 24 characters, no comma or full stop, and some letter, digit or ideograph. */
  predicate IsShort(s: string) {
    && |s| <= 24 && '，' !in s && '。' !in s
    && exists k :: 0 <= k < |s| && IsWordChar(s[k])
  }

  // ---- the compiled steps ----

  function AssertSteps(description: string, expected: string): seq<Step> {
    var visible, absent := VisibleValues(expected), AbsentValues(expected);
    if visible == [] && absent == [] then
      match ShortText(expected)
      case Some(t) => [Step(AssertText, description, expected, t)]
      case None => [Step(Screenshot, description, expected, "")]
    else
      StepsFor(AssertTextAbsent, description, expected, absent) + StepsFor(AssertText, description, expected, visible)
  }

  method CompileAssertSteps(description: string, expected: string) returns (steps: seq<Step>)
    ensures steps == AssertSteps(description, expected)
  {
    hide ShortText;
    steps := [];
    var absent := AbsentQuotedValues(expected);
    var visible := VisibleValues(expected);
    for i := 0 to |absent|
      invariant steps == StepsFor(AssertTextAbsent, description, expected, absent[..i])
    {
      assert absent[..i + 1][..i] == absent[..i];
      steps := steps + [Step(AssertTextAbsent, description, expected, absent[i])];
    }
    assert absent[..|absent|] == absent;
    ghost var first := steps;
    if visible != [] {
      for i := 0 to |visible|
        invariant steps == first + StepsFor(AssertText, description, expected, visible[..i])
      {
        assert visible[..i + 1][..i] == visible[..i];
        steps := steps + [Step(AssertText, description, expected, visible[i])];
      }
      assert visible[..|visible|] == visible;
    } else if steps == [] {
      match ShortText(expected)
      case Some(t) => steps := [Step(AssertText, description, expected, t)];
      case None => steps := [Step(Screenshot, description, expected, "")];
    }
  }

  /** What the executor asks of a page whose source stays as it is. */
  predicate StepPasses(step: Step, page: Observation) {
    match step.action
    case AssertText => Contains(page.source, step.value)
    case AssertTextAbsent => !Contains(page.source, step.value)
    case Screenshot => true
  }

  // ---- the two forms agree ----

  predicate ElementsInSource(page: Observation) {
    forall k :: 0 <= k < |page.elements| ==>
                  Contains(page.source, page.elements[k].text) && Contains(page.source, page.elements[k].accessibilityId)
  }

  lemma ShownIsInSource(page: Observation, value: string)
    requires ElementsInSource(page) && Shows(page, value)
    ensures Contains(page.source, value)
  {
    var k :| 0 <= k < |page.elements|
             && (Contains(page.elements[k].text, value) || Contains(page.elements[k].accessibilityId, value));
    if Contains(page.elements[k].text, value) {
      ContainsTransitive(page.source, page.elements[k].text, value);
    } else {
      ContainsTransitive(page.source, page.elements[k].accessibilityId, value);
    }
  }

  /** An encoded condition is decoded to its text, and means on such a page what the assertion means. */
  lemma VisibleMeans(value: string, before: Observation, after: Observation)
    requires ElementsInSource(after)
    ensures ConditionHolds(TEXT_VISIBLE + value, before, after) <==> Contains(after.source, value)
  {
    var c := TEXT_VISIBLE + value;
    assert c == "text_visible" + ":" + value;
    SkipTo("text_visible", ':', value);
    assert c[0] == 't' && c[..13] == TEXT_VISIBLE;
    if Shows(after, value) {
      ShownIsInSource(after, value);
    }
  }

  lemma AbsentMeans(value: string, before: Observation, after: Observation)
    requires ElementsInSource(after)
    ensures ConditionHolds(TEXT_ABSENT + value, before, after) <==> !Contains(after.source, value)
  {
    var c := TEXT_ABSENT + value;
    assert c == "text_absent" + ":" + value;
    SkipTo("text_absent", ':', value);
    assert c[0] == 't' && c[5] == 'a' && c[..12] == TEXT_ABSENT;
    if Shows(after, value) {
      ShownIsInSource(after, value);
    }
  }

  lemma {:induction false} PrefixedIndexed(prefix: string, values: seq<string>)
    ensures |Prefixed(prefix, values)| == |values|
    ensures forall k :: 0 <= k < |values| ==> Prefixed(prefix, values)[k] == prefix + values[k]
  {
    if values != [] {
      PrefixedIndexed(prefix, values[1..]);
    }
  }

  lemma {:induction false} StepsIndexed(action: Action, description: string, expected: string, values: seq<string>)
    ensures |StepsFor(action, description, expected, values)| == |values|
    ensures forall k :: 0 <= k < |values| ==>
                          StepsFor(action, description, expected, values)[k] == Step(action, description, expected, values[k])
  {
    if values != [] {
      StepsIndexed(action, description, expected, values[..|values| - 1]);
    }
  }

  predicate AllHold(conditions: seq<string>, before: Observation, after: Observation) {
    forall k :: 0 <= k < |conditions| ==> ConditionHolds(conditions[k], before, after)
  }

  predicate AllPass(steps: seq<Step>, page: Observation) {
    forall k :: 0 <= k < |steps| ==> StepPasses(steps[k], page)
  }

  /** All the texts that must be on the page are, and none that must not be. */
  predicate TextsAsExpected(expected: string, page: Observation) {
    && (forall v :: v in VisibleValues(expected) ==> Contains(page.source, v))
    && (forall v :: v in AbsentValues(expected) ==> !Contains(page.source, v))
  }

  lemma ConditionsMean(expected: string, before: Observation, after: Observation)
    requires ElementsInSource(after)
    ensures AllHold(TextConditions(expected), before, after) <==> TextsAsExpected(expected, after)
  {
    hide ConditionHolds, VisibleValues, AbsentValues, Prefixed, ElementsInSource;
    var visible, absent := VisibleValues(expected), AbsentValues(expected);
    PrefixedIndexed(TEXT_VISIBLE, visible);
    PrefixedIndexed(TEXT_ABSENT, absent);
    var cs := TextConditions(expected);
    assert |cs| == |visible| + |absent|;
    forall k | 0 <= k < |visible|
      ensures ConditionHolds(cs[k], before, after) <==> Contains(after.source, visible[k])
    {
      VisibleMeans(visible[k], before, after);
    }
    forall k | 0 <= k < |absent|
      ensures ConditionHolds(cs[|visible| + k], before, after) <==> !Contains(after.source, absent[k])
    {
      AbsentMeans(absent[k], before, after);
    }
    if TextsAsExpected(expected, after) {
      forall k | 0 <= k < |cs| ensures ConditionHolds(cs[k], before, after) {
        if k < |visible| {
          assert visible[k] in visible;
        } else {
          assert absent[k - |visible|] in absent;
          assert cs[k] == cs[|visible| + (k - |visible|)];
        }
      }
    }
  }

  lemma StepsMean(description: string, expected: string, page: Observation)
    requires QuotedValues(expected) != []
    ensures AllPass(AssertSteps(description, expected), page) <==> TextsAsExpected(expected, page)
  {
    VisibleAndAbsentPartitionQuoted(expected);
    hide VisibleValues, AbsentValues, StepsFor;
    var visible, absent := VisibleValues(expected), AbsentValues(expected);
    StepsIndexed(AssertTextAbsent, description, expected, absent);
    StepsIndexed(AssertText, description, expected, visible);
    var steps := AssertSteps(description, expected);
    assert |steps| == |absent| + |visible|;
    assert forall k :: 0 <= k < |absent| ==> steps[k] == Step(AssertTextAbsent, description, expected, absent[k]);
    assert forall k :: 0 <= k < |visible| ==> steps[|absent| + k] == Step(AssertText, description, expected, visible[k]);
    if TextsAsExpected(expected, page) {
      forall k | 0 <= k < |steps| ensures StepPasses(steps[k], page) {
        if k < |absent| {
          assert absent[k] in absent;
        } else {
          assert visible[k - |absent|] in visible;
          assert steps[k] == steps[|absent| + (k - |absent|)];
        }
      }
    }
  }

  /** On any page whose element texts occur in its source, the compiled assertion steps of an
      expectation with a non-blank quotation pass exactly when its text postconditions hold. */
  lemma StepsAgreeWithPostconditions(
    description: string, expected: string, before: Observation, after: Observation)
    requires QuotedValues(expected) != [] && ElementsInSource(after)
    ensures AllPass(AssertSteps(description, expected), after) <==> AllHold(TextConditions(expected), before, after)
  {
    StepsMean(description, expected, after);
    ConditionsMean(expected, before, after);
  }

  // ---- surrounding blanks ----

  function Shifted(qs: seq<Quote>, n: nat): seq<Quote> {
    if qs == [] then [] else Shifted(qs[..|qs| - 1], n) + [Quote(qs[|qs| - 1].start + n, qs[|qs| - 1].text)]
  }

  lemma {:induction false} ShiftedCons(q: Quote, qs: seq<Quote>, n: nat)
    ensures Shifted([q] + qs, n) == [Quote(q.start + n, q.text)] + Shifted(qs, n)
  {
    var all := [q] + qs;
    if qs == [] {
      assert all[..0] == [];
    } else {
      assert all[..|all| - 1] == [q] + qs[..|qs| - 1];
      ShiftedCons(q, qs[..|qs| - 1], n);
    }
  }

  /** `core` stands in `s` at `n` and only blanks follow it. */
  predicate StandsIn(core: string, s: string, n: nat) {
    && n + |core| <= |s|
    && (forall k :: 0 <= k < |core| ==> s[n + k] == core[k])
    && (forall k :: n + |core| <= k < |s| ==> IsSpace(s[k]))
  }

  lemma {:induction false} CloserInBlanks(core: string, s: string, n: nat, i: nat)
    requires StandsIn(core, s, n) && i <= |core|
    ensures NextCloser(s, n + i) == if NextCloser(core, i) < |core| then n + NextCloser(core, i) else |s|
    decreases |core| - i
  {
    if i < |core| {
      assert s[n + i] == core[i];
      if !IsCloser(core[i]) {
        CloserInBlanks(core, s, n, i + 1);
      }
    }
  }

  lemma CharInBlanks(core: string, s: string, n: nat, i: nat)
    requires StandsIn(core, s, n) && i < |core|
    ensures n + |core| <= |s| && s[n + i] == core[i]
  {
  }

  lemma SameSlice(core: string, s: string, n: nat, i: nat, j: nat)
    requires StandsIn(core, s, n) && i <= j <= |core|
    ensures s[n + i..n + j] == core[i..j]
  {
  }

  lemma QuotesAtEnd(core: string, s: string, n: nat)
    requires StandsIn(core, s, n)
    ensures Quotes(s, n + |core|) == Shifted(Quotes(core, |core|), n)
  {
    NoQuotesInBlanks(s, n + |core|, |s|);
  }

  lemma {:induction false} QuotesInBlanks(core: string, s: string, n: nat, i: nat)
    requires StandsIn(core, s, n) && i <= |core|
    ensures Quotes(s, n + i) == Shifted(Quotes(core, i), n)
    decreases |core| - i
  {
    hide *;
    if i == |core| {
      QuotesAtEnd(core, s, n);
    } else {
      var j := NextCloser(core, i + 1);
      if IsOpener(core[i]) && i + 1 < j < |core| {
        QuotesInBlanks(core, s, n, j + 1);
        MatchInBlanks(core, s, n, i, j);
        ShiftedCons(Quote(i, core[i + 1..j]), Quotes(core, j + 1), n);
      } else {
        QuotesInBlanks(core, s, n, i + 1);
        SkipInBlanks(core, s, n, i);
      }
    }
  }

  lemma SkipInBlanks(core: string, s: string, n: nat, i: nat)
    requires StandsIn(core, s, n) && i < |core| && !(IsOpener(core[i]) && i + 1 < NextCloser(core, i + 1) < |core|)
    ensures Quotes(s, n + i) == Quotes(s, n + i + 1) && Quotes(core, i) == Quotes(core, i + 1)
  {
    CloserInBlanks(core, s, n, i + 1);
    assert s[n + i] == core[i];
    NoQuotesInBlanks(s, n + |core|, |s|);
  }

  lemma MatchInBlanks(core: string, s: string, n: nat, i: nat, j: nat)
    requires StandsIn(core, s, n) && i < |core| && j == NextCloser(core, i + 1)
    requires IsOpener(core[i]) && i + 1 < j < |core|
    ensures Quotes(core, i) == [Quote(i, core[i + 1..j])] + Quotes(core, j + 1)
    ensures Quotes(s, n + i) == [Quote(n + i, core[i + 1..j])] + Quotes(s, n + j + 1)
  {
    hide *;
    CharInBlanks(core, s, n, i);
    CloserInBlanks(core, s, n, i + 1);
    SameSlice(core, s, n, i + 1, j);
    QuotesStep(core, i);
    QuotesStep(s, n + i);
  }

  lemma {:induction false} NoQuotesInBlanks(s: string, i: nat, j: nat)
    requires i <= j <= |s| && forall k :: i <= k < j ==> IsSpace(s[k])
    ensures Quotes(s, i) == Quotes(s, j)
    decreases j - i
  {
    if i < j {
      NoQuotesInBlanks(s, i + 1, j);
    }
  }

  lemma WindowInBlanks(a: string, core: string, b: string, q: Quote)
    requires AllSpace(a) && q.start <= |core|
    ensures Negated(a + core + b, Quote(q.start + |a|, q.text)) <==> Negated(core, q)
  {
    hide EndsNegative, Compact;
    var s, end := a + core + b, q.start + |a|;
    var from := if end < WINDOW then 0 else end - WINDOW;
    if q.start >= WINDOW {
      assert s[from..end] == core[q.start - WINDOW..q.start];
    } else {
      assert s[from..end] == a[from..] + core[..q.start];
      CompactConcat(a[from..], core[..q.start]);
      CompactBlank(a[from..]);
      assert core[0..q.start] == core[..q.start];
      assert "" + Compact(core[..q.start]) == Compact(core[..q.start]);
    }
  }

  lemma {:induction false} ValuesOfShifted(qs: seq<Quote>, n: nat)
    ensures Values(Shifted(qs, n)) == Values(qs)
  {
    if qs != [] {
      var k := |qs| - 1;
      ValuesOfShifted(qs[..k], n);
      var init := Shifted(qs[..k], n);
      assert Shifted(qs, n)[..|init|] == init;
    }
  }

  lemma ShiftedSnoc(qs: seq<Quote>, q: Quote, n: nat)
    ensures Shifted(qs + [q], n) == Shifted(qs, n) + [Quote(q.start + n, q.text)]
  {
    assert (qs + [q])[..|qs|] == qs;
  }

  lemma NegatedSnoc(text: string, qs: seq<Quote>, q: Quote)
    requires Within(text, qs) && q.start <= |text|
    ensures Within(text, qs + [q])
    ensures NegatedQuotes(text, qs + [q]) == NegatedQuotes(text, qs) + if Negated(text, q) then [q] else []
  {
    assert (qs + [q])[..|qs|] == qs;
  }

  lemma {:induction false} ShiftedWithin(a: string, core: string, b: string, qs: seq<Quote>)
    requires Within(core, qs)
    ensures Within(a + core + b, Shifted(qs, |a|))
  {
    if qs != [] {
      ShiftedWithin(a, core, b, qs[..|qs| - 1]);
    }
  }

  /** The step of the next lemma, from one quotation to the next. */
  lemma NegatedOfShiftedStep(a: string, core: string, b: string, init: seq<Quote>, q: Quote)
    requires AllSpace(a) && Within(core, init) && q.start <= |core|
    requires Within(a + core + b, Shifted(init, |a|))
    requires NegatedQuotes(a + core + b, Shifted(init, |a|)) == Shifted(NegatedQuotes(core, init), |a|)
    ensures Within(core, init + [q]) && Within(a + core + b, Shifted(init + [q], |a|))
    ensures NegatedQuotes(a + core + b, Shifted(init + [q], |a|)) == Shifted(NegatedQuotes(core, init + [q]), |a|)
  {
    hide Negated, Shifted, NegatedQuotes;
    var kept, s, q' := NegatedQuotes(core, init), a + core + b, Quote(q.start + |a|, q.text);
    WindowInBlanks(a, core, b, q);
    ShiftedSnoc(init, q, |a|);
    NegatedSnoc(core, init, q);
    NegatedSnoc(s, Shifted(init, |a|), q');
    if Negated(core, q) {
      ShiftedSnoc(kept, q, |a|);
    } else {
      assert kept + [] == kept && Shifted(kept, |a|) + [] == Shifted(kept, |a|);
    }
  }

  lemma {:induction false} NegatedOfShifted(a: string, core: string, b: string, qs: seq<Quote>)
    requires AllSpace(a) && Within(core, qs)
    ensures Within(a + core + b, Shifted(qs, |a|))
    ensures NegatedQuotes(a + core + b, Shifted(qs, |a|)) == Shifted(NegatedQuotes(core, qs), |a|)
  {
    hide Negated;
    ShiftedWithin(a, core, b, qs);
    if qs != [] {
      var n := |qs| - 1;
      assert qs[..n] + [qs[n]] == qs;
      NegatedOfShifted(a, core, b, qs[..n]);
      hide Shifted, NegatedQuotes;
      NegatedOfShiftedStep(a, core, b, qs[..n], qs[n]);
    }
  }

  /** Blanks around an expectation change none of its texts. */
  lemma BlanksAroundExpected(a: string, core: string, b: string)
    requires AllSpace(a) && AllSpace(b)
    ensures QuotedValues(a + core + b) == QuotedValues(core)
    ensures AbsentValues(a + core + b) == AbsentValues(core)
    ensures VisibleValues(a + core + b) == VisibleValues(core)
    ensures TextConditions(a + core + b) == TextConditions(core)
  {
    hide Quotes, Values, NegatedQuotes, Prefixed;
    var s, qs := a + core + b, AllQuotes(core);
    QuotesInBlanks(core, s, |a|, 0);
    NoQuotesInBlanks(s, 0, |a|);
    ValuesOfShifted(qs, |a|);
    NegatedOfShifted(a, core, b, qs);
    ValuesOfShifted(NegatedQuotes(core, qs), |a|);
  }
}
