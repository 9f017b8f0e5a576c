/** The review prompt: budget shares, the three truncation paths, and how large the result can get. */
module PromptTruncation {
  import opened PyText
  import opened TokenEstimate
  import opened JsonSyntax
  import JsonParser
  import opened Decimals

  const NOTICE := "\n\n...（文档内容过长，中间部分已截断）...\n\n"
  const ELLIPSIS := "..."
  const SUMMARIZED := "> *(此章节因上下文窗口限制已摘要，详见原文档)*\n"
  const OMITTED := "> *(此章节因上下文窗口限制已省略)*\n"

  // ---- _simple_token_truncate ----

  /** `text[-half:]`, which is the whole text when half is 0. */
  function Tail(text: string, half: nat): string
    requires half <= |text|
  {
    if half == 0 then text else text[|text| - half..]
  }

  function CutMiddle(text: string, maxTokens: nat, notice: string): string {
    var maxChars := maxTokens * 4 / 5;
    if |text| <= maxChars then text
    else text[..maxChars / 2] + notice + Tail(text, maxChars / 2)
  }

  function SimpleTruncate(text: string, maxTokens: nat): string {
    CutMiddle(text, maxTokens, NOTICE)
  }

  /** What stays of a text: all of it up to four characters for five tokens, else both its ends in equal
      parts around the notice; for fewer than three tokens the second part is the whole text. */
  lemma SimpleTruncateKeepsEnds(text: string, maxTokens: nat)
    ensures var r, half := SimpleTruncate(text, maxTokens), maxTokens * 4 / 5 / 2;
            if 5 * |text| <= 4 * maxTokens then r == text
            else if maxTokens < 3 then r == NOTICE + text
            else half > 0 && 2 * half < |text| && r == text[..half] + NOTICE + text[|text| - half..]
  {
    var half := maxTokens * 4 / 5 / 2;
    if 5 * |text| > 4 * maxTokens && maxTokens < 3 {
      assert half == 0 && text[..0] + NOTICE == NOTICE;
    }
  }

  lemma NoticeWeight()
    ensures Weight(NOTICE) == 234
  {
    hide Weight;
    var a, b, c, d, e := "\n\n...（", "文档内容过长", "，", "中间部分已截断", "）...\n\n";
    assert NOTICE == a + b + c + d + e;
    WeightConcat(a + b + c + d, e);
    WeightConcat(a + b + c, d);
    WeightConcat(a + b, c);
    WeightConcat(a, b);
    UniformWeight(a, 3);
    UniformWeight(b, 15);
    UniformWeight(c, 3);
    UniformWeight(d, 15);
    UniformWeight(e, 3);
  }

  /** Within 1.2 tokens of content per budgeted token, plus the notice. */
  predicate WithinBudget(s: string, maxTokens: nat) {
    Weight(s) <= 12 * maxTokens + Weight(NOTICE)
  }

  lemma CutMiddleWeight(text: string, maxTokens: nat, notice: string)
    requires maxTokens >= 3
    ensures Weight(CutMiddle(text, maxTokens, notice)) <= 12 * maxTokens + Weight(notice)
  {
    hide Weight;
    var maxChars := maxTokens * 4 / 5;
    var half := maxChars / 2;
    if |text| <= maxChars {
      WeightAtMost(text);
    } else {
      var head, tail := text[..half], Tail(text, half);
      WeightConcat(head + notice, tail);
      WeightConcat(head, notice);
      WeightAtMost(head);
      WeightAtMost(tail);
    }
  }

  lemma SimpleTruncateBounded(text: string, maxTokens: nat)
    requires maxTokens >= 3
    ensures WithinBudget(SimpleTruncate(text, maxTokens), maxTokens)
  {
    CutMiddleWeight(text, maxTokens, NOTICE);
  }

  lemma TinyBudgetKeepsAll(text: string, maxTokens: nat, notice: string)
    requires maxTokens < 3 && |text| >= 2
    ensures Weight(CutMiddle(text, maxTokens, notice)) == Weight(notice) + Weight(text)
  {
    hide Weight;
    WeightConcat(notice, text);
    assert CutMiddle(text, maxTokens, notice) == notice + text;
  }

  /** Three tokens is exactly where the bound starts to hold for every text: below that the half
      length is 0 and the whole text is kept. */
  lemma SimpleTruncateBoundedIff(maxTokens: nat)
    ensures (forall text :: WithinBudget(SimpleTruncate(text, maxTokens), maxTokens)) <==> maxTokens >= 3
  {
    if maxTokens >= 3 {
      forall text ensures WithinBudget(SimpleTruncate(text, maxTokens), maxTokens) {
        SimpleTruncateBounded(text, maxTokens);
      }
    } else {
      TwoCharactersOverrun(maxTokens);
    }
  }

  lemma TwoCharactersOverrun(maxTokens: nat)
    requires maxTokens < 3
    ensures !WithinBudget(SimpleTruncate("一一", maxTokens), maxTokens)
  {
    hide Weight, CutMiddle;
    var text := "一一";
    UniformWeight(text, 15);
    TinyBudgetKeepsAll(text, maxTokens, NOTICE);
  }

  // ---- _truncate_doc_by_chapters ----

  predicate HashesThenSpace(s: string, n: nat) {
    |s| > n && (forall i :: 0 <= i < n ==> s[i] == '#') && IsSpace(s[n])
  }

  /** `#{1,3}\s` */
  predicate StartsHeading(s: string) {
    HashesThenSpace(s, 1) || HashesThenSpace(s, 2) || HashesThenSpace(s, 3)
  }

  /** `re.split(r'\n(?=#{1,3}\s)', text)` */
  function SplitSections(s: string): (parts: seq<string>)
    ensures parts != []
  {
    if s == "" then [""]
    else
      var rest := SplitSections(s[1..]);
      if s[0] == '\n' && StartsHeading(s[1..]) then [""] + rest
      else [[s[0]] + rest[0]] + rest[1..]
  }

  /** `sep.join(parts)` */
  function Join(parts: seq<string>, sep: string): string {
    if parts == [] then "" else if |parts| == 1 then parts[0] else parts[0] + sep + Join(parts[1..], sep)
  }

  lemma JoinCons(p: string, rest: seq<string>, sep: string)
    requires rest != []
    ensures Join([p] + rest, sep) == p + sep + Join(rest, sep)
  {
    assert ([p] + rest)[1..] == rest;
  }

  lemma JoinGrows(c: char, rest: seq<string>, sep: string)
    requires rest != []
    ensures Join([[c] + rest[0]] + rest[1..], sep) == [c] + Join(rest, sep)
  {
    var parts := [[c] + rest[0]] + rest[1..];
    assert parts[1..] == rest[1..] && parts[0] == [c] + rest[0];
    if |rest| > 1 {
      var tail := Join(rest[1..], sep);
      assert [c] + rest[0] + sep + tail == [c] + (rest[0] + sep + tail);
    }
  }

  /** Splitting loses nothing. */
  lemma {:induction false} SplitJoins(s: string)
    ensures Join(SplitSections(s), "\n") == s
  {
    hide Join, StartsHeading;
    if s == "" {
      JoinOne("", "\n");
    } else {
      SplitJoins(s[1..]);
      var rest := SplitSections(s[1..]);
      if s[0] == '\n' && StartsHeading(s[1..]) {
        JoinCons("", rest, "\n");
        assert "" + "\n" + s[1..] == s;
      } else {
        JoinGrows(s[0], rest, "\n");
        assert [s[0]] + s[1..] == s;
      }
    }
  }

  lemma JoinOne(p: string, sep: string)
    ensures Join([p], sep) == p
  {
  }

  /** Where part `i` of a joined text starts. */
  function Offset(parts: seq<string>, i: nat): nat
    requires i <= |parts|
  {
    if i == 0 then 0 else |parts[0]| + 1 + Offset(parts[1..], i - 1)
  }

  /** A line feed at `k` with a heading behind it. */
  predicate BreakAt(s: string, k: int) {
    0 <= k < |s| && s[k] == '\n' && StartsHeading(s[k + 1..])
  }

  /** Part `i` stands where it belongs, behind a break if it is not the first, and holds none. */
  predicate SectionAt(s: string, parts: seq<string>, i: nat)
    requires i < |parts|
  {
    var o := Offset(parts, i);
    && o + |parts[i]| <= |s| && s[o..o + |parts[i]|] == parts[i]
    && (i > 0 ==> BreakAt(s, o - 1))
    && forall k :: o <= k < o + |parts[i]| ==> !BreakAt(s, k)
  }

  lemma BreakShifts(s: string)
    requires s != ""
    ensures forall k :: k > 0 ==> (BreakAt(s, k) <==> BreakAt(s[1..], k - 1))
    ensures forall k :: k >= 0 ==> (BreakAt(s[1..], k) <==> BreakAt(s, k + 1))
  {
    hide StartsHeading;
    forall k | k > 0 ensures BreakAt(s, k) <==> BreakAt(s[1..], k - 1) {
      if k < |s| {
        assert s[1..][k - 1] == s[k] && s[1..][k..] == s[k + 1..];
      }
    }
    forall k | k >= 0 ensures BreakAt(s[1..], k) <==> BreakAt(s, k + 1) {
      if k + 1 < |s| {
        assert s[1..][k] == s[k + 1] && s[1..][k + 1..] == s[k + 2..];
      }
    }
  }

  lemma SliceShifts(s: string, o: nat, n: nat)
    requires s != "" && o + n <= |s[1..]|
    ensures s[o + 1..o + 1 + n] == s[1..][o..o + n]
  {
  }

  /** One section further on in the text. */
  lemma SectionShifts(s: string, rest: seq<string>, parts: seq<string>, i: nat, j: nat)
    requires s != "" && i < |rest| && j < |parts| && SectionAt(s[1..], rest, i) && parts[j] == rest[i]
    requires Offset(parts, j) == Offset(rest, i) + 1 && (i > 0 || (j > 0 && BreakAt(s, 0) && Offset(rest, i) == 0))
    ensures SectionAt(s, parts, j)
  {
    hide StartsHeading, Offset;
    BreakShifts(s);
    hide BreakAt;
    var o, n := Offset(rest, i), |rest[i]|;
    SliceShifts(s, o, n);
    forall k | o + 1 <= k < o + 1 + n ensures !BreakAt(s, k) {
      assert !BreakAt(s[1..], k - 1);
    }
  }

  /** A document is split exactly at the line feeds in front of headings. */
  lemma {:induction false} SectionsAreAtHeadings(s: string, i: nat)
    requires i < |SplitSections(s)|
    ensures SectionAt(s, SplitSections(s), i)
    decreases |s|
  {
    hide StartsHeading, SectionAt;
    var parts := SplitSections(s);
    if s == "" {
      EmptySection();
    } else {
      var rest := SplitSections(s[1..]);
      if s[0] == '\n' && StartsHeading(s[1..]) {
        assert parts[1..] == rest;
        if i == 0 {
          EmptyFirst(s, parts);
        } else {
          SectionsAreAtHeadings(s[1..], i - 1);
          assert Offset(parts, i) == 1 + Offset(rest, i - 1);
          assert BreakAt(s, 0);
          SectionShifts(s, rest, parts, i - 1, i);
        }
      } else {
        assert parts[1..] == rest[1..];
        SectionsAreAtHeadings(s[1..], i);
        if i == 0 {
          LongerFirst(s, rest, parts);
        } else {
          assert Offset(parts, i) == Offset(rest, i) + 1;
          SectionShifts(s, rest, parts, i, i);
        }
      }
    }
  }

  lemma EmptySection()
    ensures SectionAt("", [""], 0)
  {
    assert Offset([""], 0) == 0 && ""[0..0] == "";
  }

  lemma EmptyFirst(s: string, parts: seq<string>)
    requires parts != [] && parts[0] == ""
    ensures SectionAt(s, parts, 0)
  {
    assert Offset(parts, 0) == 0 && s[0..0] == "";
  }

  lemma LongerFirst(s: string, rest: seq<string>, parts: seq<string>)
    requires s != "" && rest != [] && parts != [] && SectionAt(s[1..], rest, 0) && parts[0] == [s[0]] + rest[0] && !BreakAt(s, 0)
    ensures SectionAt(s, parts, 0)
  {
    hide StartsHeading;
    BreakShifts(s);
    hide BreakAt;
    var n := |rest[0]|;
    assert s[..n + 1] == [s[0]] + s[1..][..n];
    forall k | 0 <= k < n + 1 ensures !BreakAt(s, k) {
      assert k > 0 ==> !BreakAt(s[1..], k - 1);
    }
  }

  function FirstLine(s: string): string {
    if s == "" || s[0] == '\n' then "" else [s[0]] + FirstLine(s[1..])
  }

  /** `s.split('\n\n')[0]` */
  function FirstParagraph(s: string): string {
    if s == "" || StartsWith(s, "\n\n") then "" else [s[0]] + FirstParagraph(s[1..])
  }

  function HasBlankLine(s: string): bool {
    s != "" && (StartsWith(s, "\n\n") || HasBlankLine(s[1..]))
  }

  /** `s.rfind(c)`, with -1 for "not found". */
  function RFind(s: string, c: char): (i: int)
    ensures -1 <= i < |s|
  {
    if s == "" then -1 else if s[|s| - 1] == c then |s| - 1 else RFind(s[..|s| - 1], c)
  }

  /** A section is a heading line and a body. */
  function Heading(sec: string): string { FirstLine(sec) }

  function Body(sec: string): string {
    var h := FirstLine(sec);
    if |h| < |sec| then Strip(sec[|h| + 1..]) else ""
  }

  function CutAtSentence(para: string, chars: nat): string
    requires |para| > chars
  {
    var t := para[..chars];
    var stop, semi := RFind(t, '。'), RFind(t, '；');
    if 2 * stop > chars then t[..stop + 1]
    else if 2 * semi > chars then t[..semi + 1]
    else t + ELLIPSIS
  }

  /** How many characters of a body may be kept. */
  function BodyChars(heading: string, perSection: int): (n: nat)
    ensures n > 30
  {
    var slack := perSection - EstimateTokens(heading) - 40;
    (if slack > 60 then slack else 60) * 7 / 10
  }

  function Summary(sec: string, perSection: int): string {
    var heading, body := Heading(sec), Body(sec);
    var chars := BodyChars(heading, perSection);
    if body != "" && chars > 30 then
      var para := if HasBlankLine(body) then FirstParagraph(body) else FirstLine(body);
      var kept := if |para| > chars then CutAtSentence(para, chars) else para;
      "\n" + heading + "\n\n" + kept + "\n\n" + SUMMARIZED
    else "\n" + heading + "\n\n" + OMITTED
  }

  function Full(sec: string): string { "\n" + sec }

  function Summaries(secs: seq<string>, perSection: int): seq<string> {
    if secs == [] then [] else Summaries(secs[..|secs| - 1], perSection) + [Summary(secs[|secs| - 1], perSection)]
  }

  function HeadOf(parts: seq<string>): string
    requires |parts| >= 3
  {
    parts[0] + Full(parts[1]) + Full(parts[2])
  }

  function MiddleBudget(parts: seq<string>, maxTokens: nat): int
    requires |parts| >= 5
  {
    maxTokens - EstimateTokens(parts[0]) - EstimateTokens(Full(parts[1])) - EstimateTokens(Full(parts[2]))
    - EstimateTokens(Full(parts[|parts| - 1]))
  }

  function PerSection(budgetMid: int, n: nat): int
    requires n > 0
  {
    if budgetMid / n < 60 then 60 else budgetMid / n
  }

  function Chaptered(parts: seq<string>, maxTokens: nat): string
    requires |parts| >= 5
  {
    var middle := parts[3..|parts| - 1];
    HeadOf(parts) + Join(Summaries(middle, PerSection(MiddleBudget(parts, maxTokens), |middle|)), "\n")
    + Full(parts[|parts| - 1])
  }

  function TruncateDoc(text: string, maxTokens: nat): string {
    var parts := SplitSections(text);
    if |parts| <= 4 then SimpleTruncate(text, maxTokens)
    else if MiddleBudget(parts, maxTokens) <= 0 then SimpleTruncate(text, maxTokens)
    else
      var r := Chaptered(parts, maxTokens);
      if 10 * EstimateTokens(r) > 11 * maxTokens then SimpleTruncate(text, maxTokens) else r
  }

  method TruncateDocByChapters(text: string, maxTokens: nat) returns (r: string)
    ensures r == TruncateDoc(text, maxTokens)
  {
    hide SimpleTruncate, SplitSections, Summary, EstimateTokens, Join;
    var parts := SplitSections(text);
    if |parts| <= 2 {
      return SimpleTruncate(text, maxTokens);
    }
    var preamble, sections := parts[0], parts[1..];
    var n := |sections|;
    if n <= 3 {
      return SimpleTruncate(text, maxTokens);
    }
    var first0, first1, last := Full(sections[0]), Full(sections[1]), Full(sections[n - 1]);
    var middle := sections[2..n - 1];
    assert middle == parts[3..|parts| - 1];
    var budgetMid := maxTokens - EstimateTokens(preamble) - EstimateTokens(first0) - EstimateTokens(first1)
                     - EstimateTokens(last);
    if budgetMid <= 0 {
      return SimpleTruncate(text, maxTokens);
    }
    var perSection := PerSection(budgetMid, |middle|);
    var summaries: seq<string> := [];
    for i := 0 to |middle|
      invariant summaries == Summaries(middle[..i], perSection)
    {
      assert middle[..i + 1][..i] == middle[..i];
      summaries := summaries + [Summary(middle[i], perSection)];
    }
    assert middle[..|middle|] == middle;
    r := preamble + first0 + first1 + Join(summaries, "\n") + last;
    if 10 * EstimateTokens(r) > 11 * maxTokens {
      r := SimpleTruncate(text, maxTokens);
    }
  }

  lemma TruncateDocBounded(text: string, maxTokens: nat)
    requires maxTokens >= 3
    ensures WithinBudget(TruncateDoc(text, maxTokens), maxTokens)
  {
    SimpleTruncateBounded(text, maxTokens);
    NoticeWeight();
  }

  /** By chapters, the text up to the third heading and the last chapter survive word for word. */
  lemma ChaptersKeepBothEnds(text: string, maxTokens: nat)
    requires |SplitSections(text)| >= 5
    ensures var parts := SplitSections(text);
            var r := Chaptered(parts, maxTokens);
            && StartsWith(text, HeadOf(parts)) && StartsWith(r, HeadOf(parts))
            && EndsWith(text, Full(parts[|parts| - 1])) && EndsWith(r, Full(parts[|parts| - 1]))
  {
    var parts := SplitSections(text);
    SplitJoins(text);
    JoinUnrolls(parts);
    JoinEnds(parts);
    hide SplitSections, Join, Full, Summaries;
    assert text == HeadOf(parts) + ("\n" + Join(parts[3..], "\n"));
    ChapteredEnds(parts, maxTokens);
  }

  lemma ChapteredEnds(parts: seq<string>, maxTokens: nat)
    requires |parts| >= 5
    ensures StartsWith(Chaptered(parts, maxTokens), HeadOf(parts))
    ensures EndsWith(Chaptered(parts, maxTokens), Full(parts[|parts| - 1]))
  {
    hide HeadOf, Full, Join, Summaries, PerSection, MiddleBudget;
  }

  lemma {:induction false} FirstLineIsLine(s: string)
    ensures var l := FirstLine(s); l <= s && '\n' !in l && (|l| < |s| ==> s[|l|] == '\n')
  {
    if s != "" && s[0] != '\n' {
      FirstLineIsLine(s[1..]);
    }
  }

  lemma {:induction false} FirstParagraphStarts(s: string)
    ensures FirstParagraph(s) <= s
  {
    if s != "" && !StartsWith(s, "\n\n") {
      FirstParagraphStarts(s[1..]);
    }
  }

  /** The summary of a middle chapter: its heading and, if that is not all, the start of its body, at most
      the allowed characters and an ellipsis. */
  lemma SummaryMeaning(sec: string, perSection: int)
    ensures var r, heading, body := Summary(sec, perSection), FirstLine(sec), Body(sec);
            var chars := BodyChars(heading, perSection);
            if body == "" then r == "\n" + heading + "\n\n" + OMITTED
            else exists kept :: r == "\n" + heading + "\n\n" + kept + "\n\n" + SUMMARIZED
                   && (kept <= body || exists cut :: |cut| == chars && cut <= body && kept == cut + ELLIPSIS)
                   && |kept| <= chars + 3
  {
    hide EstimateTokens, Body, CutAtSentence;
    var heading, body := Heading(sec), Body(sec);
    var chars := BodyChars(heading, perSection);
    if body != "" {
      var para := if HasBlankLine(body) then FirstParagraph(body) else FirstLine(body);
      FirstParagraphStarts(body);
      FirstLineIsLine(body);
      hide FirstLine, FirstParagraph, HasBlankLine, BodyChars;
      var kept := KeptParagraph(body, para, chars);
      assert Summary(sec, perSection) == "\n" + heading + "\n\n" + kept + "\n\n" + SUMMARIZED;
      hide Summary;
    }
  }

  lemma KeptParagraph(body: string, para: string, chars: nat) returns (kept: string)
    requires para <= body
    ensures kept == if |para| > chars then CutAtSentence(para, chars) else para
    ensures kept <= body || exists cut :: |cut| == chars && cut <= body && kept == cut + ELLIPSIS
    ensures |kept| <= chars + 3
  {
    if |para| > chars {
      kept := CutAtSentence(para, chars);
      var t := para[..chars];
      assert t <= body;
      if kept != t + ELLIPSIS {
        assert kept <= t;
      }
    } else {
      kept := para;
    }
  }

  lemma {:induction false} SummariesIndexed(secs: seq<string>, perSection: int)
    ensures |Summaries(secs, perSection)| == |secs|
    ensures forall i :: 0 <= i < |secs| ==> Summaries(secs, perSection)[i] == Summary(secs[i], perSection)
  {
    hide Summary;
    if secs != [] {
      SummariesIndexed(secs[..|secs| - 1], perSection);
    }
  }

  /** A document of at least five sections with room left for the middle is cut by chapters if that keeps it
      within 1.1 times the budget, one summary a middle chapter, and as plain text in all other cases. */
  lemma TruncateDocMeaning(text: string, maxTokens: nat)
    ensures var parts, r := SplitSections(text), TruncateDoc(text, maxTokens);
            if |parts| < 5 || MiddleBudget(parts, maxTokens) <= 0 then r == SimpleTruncate(text, maxTokens)
            else exists summaries: seq<string> ::
              var c := HeadOf(parts) + Join(summaries, "\n") + "\n" + parts[|parts| - 1];
              && |summaries| == |parts| - 4
              && (forall i :: 0 <= i < |summaries| ==>
                    summaries[i] == Summary(parts[i + 3], PerSection(MiddleBudget(parts, maxTokens), |parts| - 4)))
              && r == if EstimateTokens(c) * 10 <= maxTokens * 11 then c else SimpleTruncate(text, maxTokens)
  {
    hide SplitSections, Summary, Join, SimpleTruncate, EstimateTokens, MiddleBudget, PerSection;
    var parts := SplitSections(text);
    if |parts| >= 5 && MiddleBudget(parts, maxTokens) > 0 {
      var middle := parts[3..|parts| - 1];
      var per := PerSection(MiddleBudget(parts, maxTokens), |middle|);
      var summaries := Summaries(middle, per);
      SummariesIndexed(middle, per);
      hide Summaries;
      var head := HeadOf(parts) + Join(summaries, "\n");
      hide HeadOf;
      Reassociate(head, "\n", parts[|parts| - 1]);
      assert Chaptered(parts, maxTokens) == head + "\n" + parts[|parts| - 1];
    }
  }

  lemma JoinStep(parts: seq<string>, i: nat)
    requires i + 1 < |parts|
    ensures Join(parts[i..], "\n") == parts[i] + ("\n" + Join(parts[i + 1..], "\n"))
  {
    assert parts[i..][1..] == parts[i + 1..];
  }

  lemma JoinUnrolls(parts: seq<string>)
    requires |parts| >= 4
    ensures Join(parts, "\n") == parts[0] + Full(parts[1]) + Full(parts[2]) + ("\n" + Join(parts[3..], "\n"))
  {
    hide Join;
    assert parts[0..] == parts;
    JoinStep(parts, 0);
    JoinStep(parts, 1);
    JoinStep(parts, 2);
    FourPieces(parts[0], parts[1], parts[2], "\n" + Join(parts[3..], "\n"));
  }

  lemma FourPieces(a: string, b: string, c: string, rest: string)
    ensures a + ("\n" + (b + ("\n" + (c + rest)))) == a + Full(b) + Full(c) + rest
  {
    assert "\n" + (c + rest) == Full(c) + rest;
    assert "\n" + (b + (Full(c) + rest)) == Full(b) + (Full(c) + rest);
    hide Full;
    Reassociate(a, Full(b), Full(c) + rest);
    Reassociate(a + Full(b), Full(c), rest);
  }

  lemma {:induction false} JoinEnds(parts: seq<string>)
    requires |parts| >= 2
    ensures EndsWith(Join(parts, "\n"), Full(parts[|parts| - 1]))
  {
    if |parts| == 2 {
      assert Join(parts[1..], "\n") == parts[1];
      assert Join(parts, "\n") == parts[0] + Full(parts[1]);
    } else {
      JoinEnds(parts[1..]);
      var j, t := Join(parts[1..], "\n"), Full(parts[|parts| - 1]);
      var s := parts[0] + "\n" + j;
      assert s[|s| - |t|..] == j[|j| - |t|..];
    }
  }

  // ---- _truncate_json_for_review ----

  function Points(s: string): seq<int> { seq(|s|, i requires 0 <= i < |s| => s[i] as int) }

  function ClipString(v: Json, n: nat, mark: string): Json {
    if v.Str? && |v.points| > n then Str(v.points[..n] + Points(mark)) else v
  }

  function SlimFields(fields: seq<Field>): seq<Field> {
    seq(|fields|, i requires 0 <= i < |fields| => Field(fields[i].key, ClipString(fields[i].value, 200, "...")))
  }

  /** One entry of the summary; `dump` is the serializer. */
  function SummarizeValue(v: Json, dump: Json -> string): Json {
    if v.Arr? && |v.items| > 5 then
      Arr(v.items[..5] + [Str(Points("...（共 " + Decimal(|v.items|) + " 条，已截断至前 5 条）"))])
    else if v.Str? then ClipString(v, 500, "...（已截断）")
    else if v.Obj? && EstimateTokens(dump(v)) > 2000 then Obj(SlimFields(v.fields))
    else v
  }

  function SummarizeFields(fields: seq<Field>, dump: Json -> string): seq<Field> {
    if fields == [] then []
    else [Field(fields[0].key, SummarizeValue(fields[0].value, dump))] + SummarizeFields(fields[1..], dump)
  }

  /** `dump` serializes a nested value, `pretty` the whole summary. */
  function TruncateJson(json: string, maxTokens: nat, dump: Json -> string, pretty: Json -> string): string {
    match JsonParser.Loads(json)
    case Some(Obj(fields)) =>
      var r := pretty(Obj(SummarizeFields(fields, dump)));
      if EstimateTokens(r) <= maxTokens then r else SimpleTruncate(json, maxTokens)
    case _ => SimpleTruncate(json, maxTokens)
  }

  lemma TruncateJsonBounded(json: string, maxTokens: nat, dump: Json -> string, pretty: Json -> string)
    requires maxTokens >= 3
    ensures WithinBudget(TruncateJson(json, maxTokens, dump, pretty), maxTokens)
  {
    SimpleTruncateBounded(json, maxTokens);
    NoticeWeight();
  }

  /** The summary keeps every key in place and no list of more than six entries. */
  lemma {:induction false} SummaryShape(fields: seq<Field>, dump: Json -> string)
    ensures var r := SummarizeFields(fields, dump);
            && |r| == |fields|
            && forall i :: 0 <= i < |r| ==> r[i].key == fields[i].key && (r[i].value.Arr? ==> |r[i].value.items| <= 6)
  {
    if fields != [] {
      SummaryShape(fields[1..], dump);
      var r := SummarizeFields(fields, dump);
      assert r[1..] == SummarizeFields(fields[1..], dump);
      assert forall i :: 0 < i < |r| ==> r[i] == r[1..][i - 1] && fields[i] == fields[1..][i - 1];
    }
  }

  /** What becomes of one entry: long lists keep five entries and a note, long strings 500 characters and a
      mark, the strings of large objects 200 and an ellipsis; everything else stays. */
  lemma SummarizeMeaning(v: Json, dump: Json -> string)
    ensures var r := SummarizeValue(v, dump);
            match v
            case Arr(items) =>
              if |items| <= 5 then r == v
              else r.Arr? && |r.items| == 6 && r.items[..5] == items[..5] && r.items[5].Str?
            case Str(points) =>
              if |points| <= 500 then r == v else r.Str? && points[..500] <= r.points && |r.points| == 508
            case Obj(fields) =>
              if EstimateTokens(dump(v)) <= 2000 then r == v
              else r.Obj? && |r.fields| == |fields| && forall i :: 0 <= i < |fields| ==>
                     && r.fields[i].key == fields[i].key
                     && (if fields[i].value.Str? && |fields[i].value.points| > 200 then
                           r.fields[i].value.Str? && |r.fields[i].value.points| == 203
                           && fields[i].value.points[..200] <= r.fields[i].value.points
                         else r.fields[i].value == fields[i].value)
            case _ => r == v
  {
    hide EstimateTokens, Decimal;
  }

  /** A JSON object whose summary fits is replaced by it, every other text is cut as plain text. */
  lemma TruncateJsonMeaning(json: string, maxTokens: nat, dump: Json -> string, pretty: Json -> string)
    ensures var r, v := TruncateJson(json, maxTokens, dump, pretty), JsonParser.Loads(json);
            if v.Some? && v.value.Obj? then
              exists fields: seq<Field> ::
                && |fields| == |v.value.fields|
                && (forall i :: 0 <= i < |fields| ==>
                      fields[i] == Field(v.value.fields[i].key, SummarizeValue(v.value.fields[i].value, dump)))
                && r == if EstimateTokens(pretty(Obj(fields))) <= maxTokens then pretty(Obj(fields)) else SimpleTruncate(json, maxTokens)
            else r == SimpleTruncate(json, maxTokens)
  {
    hide EstimateTokens, SummarizeValue, SimpleTruncate, JsonParser.Loads;
    var v := JsonParser.Loads(json);
    if v.Some? && v.value.Obj? {
      SummarizedIndexed(v.value.fields, dump);
    }
  }

  lemma {:induction false} SummarizedIndexed(fields: seq<Field>, dump: Json -> string)
    ensures |SummarizeFields(fields, dump)| == |fields|
    ensures forall i :: 0 <= i < |fields| ==>
              SummarizeFields(fields, dump)[i] == Field(fields[i].key, SummarizeValue(fields[i].value, dump))
  {
    hide SummarizeValue;
    if fields != [] {
      SummarizedIndexed(fields[1..], dump);
      assert forall i :: 0 < i < |fields| ==> fields[i] == fields[1..][i - 1];
    }
  }

  // ---- _build_review_prompt ----

  const DOC_TITLE := "\n\n## 原始需求文档\n\n"
  const JSON_TITLE := "\n\n## 待审查的分析结果\n\n"

  function Prompt(skill: string, doc: string, json: string, instruction: string): string {
    skill + DOC_TITLE + doc + JSON_TITLE + json + "\n\n" + instruction
  }

  function FixedTokens(skill: string, instruction: string): nat {
    EstimateTokens(Prompt(skill, "", "", instruction))
  }

  function ContentBudget(maxInput: int, fixed: nat): nat {
    if maxInput - fixed < 10000 then 10000 else maxInput - fixed
  }

  /** `int(tokens * (budget / total))` */
  function Share(tokens: nat, budget: nat, total: nat): nat
    requires total > 0
  {
    tokens * budget / total
  }

  method BuildReviewPrompt(skill: string, doc: string, json: string, instruction: string, maxInput: int,
                           dump: Json -> string, pretty: Json -> string)
    returns (prompt: string)
    ensures prompt == ReviewPrompt(skill, doc, json, instruction, maxInput, dump, pretty)
    ensures var budget := ContentBudget(maxInput, FixedTokens(skill, instruction));
            && (EstimateTokens(doc) + EstimateTokens(json) <= budget ==> prompt == Prompt(skill, doc, json, instruction))
            && (SharesUsable(doc, json, budget)
                ==> 10 * EstimateTokens(prompt) <= 10 * FixedTokens(skill, instruction) + 12 * budget + 480)
  {
    hide EstimateTokens, TruncateDoc, TruncateJson, Prompt, FixedTokens, SharesUsable;
    var budget := ContentBudget(maxInput, FixedTokens(skill, instruction));
    var docTokens, jsonTokens := EstimateTokens(doc), EstimateTokens(json);
    var total := docTokens + jsonTokens;
    var docText, jsonText := doc, json;
    if total > budget {
      var docBudget, jsonBudget := Share(docTokens, budget, total), Share(jsonTokens, budget, total);
      if docTokens > docBudget {
        docText := TruncateDocByChapters(doc, docBudget);
      }
      if jsonTokens > jsonBudget {
        jsonText := TruncateJson(json, jsonBudget, dump, pretty);
      }
    }
    prompt := Prompt(skill, docText, jsonText, instruction);
    if SharesUsable(doc, json, budget) {
      ReviewPromptBounded(skill, doc, json, instruction, maxInput, dump, pretty);
    }
  }

  function FitDoc(doc: string, budget: nat): string {
    if EstimateTokens(doc) > budget then TruncateDoc(doc, budget) else doc
  }

  function FitJson(json: string, budget: nat, dump: Json -> string, pretty: Json -> string): string {
    if EstimateTokens(json) > budget then TruncateJson(json, budget, dump, pretty) else json
  }

  function ReviewPrompt(skill: string, doc: string, json: string, instruction: string, maxInput: int,
                        dump: Json -> string, pretty: Json -> string): string
  {
    var budget := ContentBudget(maxInput, FixedTokens(skill, instruction));
    var total := EstimateTokens(doc) + EstimateTokens(json);
    if total <= budget then Prompt(skill, doc, json, instruction)
    else
      Prompt(skill, FitDoc(doc, Share(EstimateTokens(doc), budget, total)),
             FitJson(json, Share(EstimateTokens(json), budget, total), dump, pretty), instruction)
  }

  lemma PromptWeight(skill: string, doc: string, json: string, instruction: string)
    ensures Weight(Prompt(skill, doc, json, instruction))
         == Weight(Prompt(skill, "", "", instruction)) + Weight(doc) + Weight(json)
  {
    PromptParts(skill, doc, json, instruction);
    PromptParts(skill, "", "", instruction);
  }

  lemma PromptParts(skill: string, doc: string, json: string, instruction: string)
    ensures Weight(Prompt(skill, doc, json, instruction))
         == Weight(skill) + Weight(DOC_TITLE) + Weight(doc) + Weight(JSON_TITLE) + Weight(json)
            + Weight("\n\n") + Weight(instruction)
  {
    hide Weight;
    WeightConcat(skill + DOC_TITLE + doc + JSON_TITLE + json + "\n\n", instruction);
    WeightConcat(skill + DOC_TITLE + doc + JSON_TITLE + json, "\n\n");
    WeightConcat(skill + DOC_TITLE + doc + JSON_TITLE, json);
    WeightConcat(skill + DOC_TITLE + doc, JSON_TITLE);
    WeightConcat(skill + DOC_TITLE, doc);
    WeightConcat(skill, DOC_TITLE);
  }

  /** Where the contents must be cut, each gets a share that a cut can keep to. */
  predicate SharesUsable(doc: string, json: string, budget: nat) {
    var total := EstimateTokens(doc) + EstimateTokens(json);
    total > budget ==> Share(EstimateTokens(doc), budget, total) >= 3
                       && Share(EstimateTokens(json), budget, total) >= 3
  }

  lemma SharesFit(a: nat, b: nat, budget: nat)
    requires a + b > 0
    ensures Share(a, budget, a + b) + Share(b, budget, a + b) <= budget
  {
    DivPair(a * budget, b * budget, a + b, budget);
  }

  lemma DivPair(p: nat, q: nat, n: nat, k: nat)
    requires n > 0 && p + q == n * k
    ensures p / n + q / n <= k
  {
    var x, y := p / n, q / n;
    assert x * n <= p && y * n <= q;
    assert (x + y) * n == x * n + y * n;
    assert (x + y) * n <= k * n;
    assert x + y > k ==> (x + y - k) * n > 0;
  }

  /** Whichever truncation path is taken, the prompt's estimate is at most the fixed part, plus 1.2
      times the content budget, plus 48 tokens (both sides in tenths). */
  lemma ReviewPromptBounded(skill: string, doc: string, json: string, instruction: string, maxInput: int,
                            dump: Json -> string, pretty: Json -> string)
    requires SharesUsable(doc, json, ContentBudget(maxInput, FixedTokens(skill, instruction)))
    ensures var fixed := FixedTokens(skill, instruction);
            10 * EstimateTokens(ReviewPrompt(skill, doc, json, instruction, maxInput, dump, pretty))
            <= 10 * fixed + 12 * ContentBudget(maxInput, fixed) + 480
  {
    hide Weight, TruncateDoc, TruncateJson, Prompt, Share;
    var budget := ContentBudget(maxInput, FixedTokens(skill, instruction));
    var a, b := EstimateTokens(doc), EstimateTokens(json);
    NoticeWeight();
    if a + b <= budget {
      PromptWeight(skill, doc, json, instruction);
    } else {
      var x, y := Share(a, budget, a + b), Share(b, budget, a + b);
      SharesFit(a, b, budget);
      var d, j := FitDoc(doc, x), FitJson(json, y, dump, pretty);
      TruncateDocBounded(doc, x);
      TruncateJsonBounded(json, y, dump, pretty);
      PromptWeight(skill, d, j, instruction);
    }
  }

  /** Each of the two contents stays within its own share, in proportion to its size. */
  lemma ReviewPromptShares(skill: string, doc: string, json: string, instruction: string, maxInput: int,
                           dump: Json -> string, pretty: Json -> string)
    requires SharesUsable(doc, json, ContentBudget(maxInput, FixedTokens(skill, instruction)))
    ensures var budget := ContentBudget(maxInput, FixedTokens(skill, instruction));
            var a, b := EstimateTokens(doc), EstimateTokens(json);
            a + b > budget ==>
              exists d, j :: ReviewPrompt(skill, doc, json, instruction, maxInput, dump, pretty) == Prompt(skill, d, j, instruction)
                && Weight(d) <= 12 * (a * budget / (a + b)) + 234 && Weight(j) <= 12 * (b * budget / (a + b)) + 234
  {
    hide Weight, TruncateDoc, TruncateJson, Prompt;
    var budget := ContentBudget(maxInput, FixedTokens(skill, instruction));
    var a, b := EstimateTokens(doc), EstimateTokens(json);
    NoticeWeight();
    if a + b > budget {
      var x, y := Share(a, budget, a + b), Share(b, budget, a + b);
      TruncateDocBounded(doc, x);
      TruncateJsonBounded(json, y, dump, pretty);
      var d, j := FitDoc(doc, x), FitJson(json, y, dump, pretty);
      assert Weight(d) <= 12 * x + 234 && Weight(j) <= 12 * y + 234;
    }
  }
}
