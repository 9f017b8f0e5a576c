/** The requirement sanitizer: cuts a document at the first trace of a chat with an AI and drops
    repeated copies of it. */
module Sanitizer {
  import opened PyText
  import opened Decimals

  // ---- contamination patterns ----

  /** A pattern is a row of literals (case ignored), runs of blanks and runs within a line. */
  datatype Token = Word(word: string) | Blanks | WithinLine

  datatype Pattern = Pattern(tokens: seq<Token>, mark: string)

  const PATTERNS: seq<Pattern> := [
    Pattern([Word("将需求文档转换成"), Blanks, Word("word")], "检测到「转换成 Word」类 AI 对话残留"),
    Pattern([Word("我没办法直接生成"), WithinLine, Word(".docx")], "检测到「无法生成 docx」类 AI 对话残留"),
    Pattern([Word("粘贴到"), Blanks, Word("microsoft"), Blanks, Word("word")], "检测到 Word 粘贴引导类 AI 对话残留"),
    Pattern([Word("标准"), Blanks, Word("word"), Blanks, Word("排版格式")], "检测到 AI 排版说明残留")
  ]

  /** Case folding as far as the letters of the patterns go. */
  function Fold(c: char): char {
    if 'A' <= c <= 'Z' then c - 'A' + 'a'
    else if c == '\U{130}' || c == '\U{131}' then 'i'
    else if c == '\U{17F}' then 's'
    else c
  }

  predicate FoldsTo(u: string, word: string) {
    |u| == |word| && forall k :: 0 <= k < |u| ==> Fold(u[k]) == word[k]
  }

  /** `re.fullmatch`: `u` is in the language of the tokens. */
  predicate Spells(tokens: seq<Token>, u: string)
    decreases |tokens|
  {
    if tokens == [] then u == ""
    else
      match tokens[0]
      case Word(w) => |w| <= |u| && FoldsTo(u[..|w|], w) && Spells(tokens[1..], u[|w|..])
      case Blanks => exists k :: 0 <= k <= |u| && AllSpace(u[..k]) && Spells(tokens[1..], u[k..])
      case WithinLine => exists k :: 0 <= k <= |u| && '\n' !in u[..k] && Spells(tokens[1..], u[k..])
  }

  predicate MatchAt(p: Pattern, s: string, i: nat) {
    exists j :: i <= j <= |s| && Spells(p.tokens, s[i..j])
  }

  /** `re.search` from `i` on: where the leftmost match starts. */
  function SearchFrom(p: Pattern, s: string, i: nat): (r: Option<nat>)
    ensures r.Some? ==> i <= r.value <= |s| && MatchAt(p, s, r.value) && forall k :: i <= k < r.value ==> !MatchAt(p, s, k)
    ensures r.None? ==> forall k :: i <= k <= |s| ==> !MatchAt(p, s, k)
    decreases |s| - i
  {
    if i > |s| then None else if MatchAt(p, s, i) then Some(i) else SearchFrom(p, s, i + 1)
  }

  function Search(p: Pattern, s: string): Option<nat> { SearchFrom(p, s, 0) }

  function Hits(patterns: seq<Pattern>, s: string): seq<string> {
    if patterns == [] then []
    else
      var n := |patterns| - 1;
      Hits(patterns[..n], s) + (if Search(patterns[n], s).Some? then [patterns[n].mark] else [])
  }

  method DetectContamination(text: string) returns (hits: seq<string>)
    ensures hits == Hits(PATTERNS, text)
  {
    hits := [];
    for i := 0 to |PATTERNS|
      invariant hits == Hits(PATTERNS[..i], text)
    {
      assert PATTERNS[..i + 1][..i] == PATTERNS[..i];
      if Search(PATTERNS[i], text).Some? {
        hits := hits + [PATTERNS[i].mark];
      }
    }
    assert PATTERNS[..|PATTERNS|] == PATTERNS;
  }

  lemma {:induction false} HitsEmpty(patterns: seq<Pattern>, s: string)
    ensures Hits(patterns, s) == [] <==> forall k :: 0 <= k < |patterns| ==> Search(patterns[k], s).None?
  {
    hide Search;
    if patterns != [] {
      var n := |patterns| - 1;
      HitsEmpty(patterns[..n], s);
      assert forall k :: 0 <= k < n ==> patterns[..n][k] == patterns[k];
    }
  }

  /** Where the leftmost match of any pattern starts, the end of the text if there is none. */
  function CutPosition(patterns: seq<Pattern>, s: string): (cut: nat)
    ensures cut <= |s|
  {
    if patterns == [] then |s|
    else
      var n := |patterns| - 1;
      var cut := CutPosition(patterns[..n], s);
      var found := Search(patterns[n], s);
      if found.Some? && found.value < cut then found.value else cut
  }

  /** A match in a part of a text is a match in the text. */
  lemma PartMatches(p: Pattern, s: string, a: nat, b: nat, i: nat)
    requires a <= b <= |s| && i <= b - a && MatchAt(p, s[a..b], i)
    ensures MatchAt(p, s, a + i)
  {
    hide Spells;
    var t := s[a..b];
    var j :| i <= j <= |t| && Spells(p.tokens, t[i..j]);
    SliceOfSlice(s, a, b, i, j);
    assert a + i <= a + j <= |s| && Spells(p.tokens, s[a + i..a + j]);
  }

  lemma SliceOfSlice(s: string, a: nat, b: nat, i: nat, j: nat)
    requires a <= b <= |s| && i <= j <= b - a
    ensures s[a..b][i..j] == s[a + i..a + j]
  {
    var t := s[a..b];
    forall k | 0 <= k < j - i ensures t[i..j][k] == s[a + i..a + j][k] {
      assert t[i + k] == s[a + i + k];
    }
  }

  lemma {:induction false} NothingBeforeCut(patterns: seq<Pattern>, s: string, k: nat, i: nat)
    requires k < |patterns| && i < CutPosition(patterns, s)
    ensures !MatchAt(patterns[k], s, i)
    decreases |patterns|
  {
    var n := |patterns| - 1;
    if k < n {
      NothingBeforeCut(patterns[..n], s, k, i);
    }
  }

  /** No part of the text before the cut is contaminated: the patterns are unanchored, and none
      of them matches the empty text. */
  lemma PartBeforeCutIsClean(s: string, a: nat, b: nat)
    requires a <= b <= CutPosition(PATTERNS, s)
    ensures Hits(PATTERNS, s[a..b]) == []
  {
    hide CutPosition, Search, MatchAt, PATTERNS;
    var t := s[a..b];
    forall k | 0 <= k < |PATTERNS| ensures Search(PATTERNS[k], t).None? {
      PartHasNoMatch(s, a, b, k);
    }
    HitsEmpty(PATTERNS, t);
  }

  lemma PartHasNoMatch(s: string, a: nat, b: nat, k: nat)
    requires a <= b <= CutPosition(PATTERNS, s) && k < |PATTERNS|
    ensures Search(PATTERNS[k], s[a..b]).None?
  {
    hide CutPosition, MatchAt, PATTERNS;
    var t, p := s[a..b], PATTERNS[k];
    var found := Search(p, t);
    if found.Some? {
      NoEmptyMatch(p, t, found.value, k);
      PartMatches(p, s, a, b, found.value);
      NothingBeforeCut(PATTERNS, s, k, a + found.value);
    }
  }

  /** Every pattern begins with a word, so a match does not start at the end of the text. */
  lemma NoEmptyMatch(p: Pattern, s: string, i: nat, k: nat)
    requires k < |PATTERNS| && p == PATTERNS[k] && MatchAt(p, s, i)
    ensures i < |s|
  {
    var j :| i <= j <= |s| && Spells(p.tokens, s[i..j]);
    assert p.tokens[0].Word? && p.tokens[0].word != "";
  }

  // ---- the main title ----

  predicate LineStart(s: string, p: nat) { p == 0 || (p <= |s| && s[p - 1] == '\n') }

  function BlanksEnd(s: string, i: nat): (j: nat)
    requires i <= |s|
    ensures i <= j <= |s| && (forall k :: i <= k < j ==> IsSpace(s[k])) && (j < |s| ==> !IsSpace(s[j]))
    decreases |s| - i
  {
    if i < |s| && IsSpace(s[i]) then BlanksEnd(s, i + 1) else i
  }

  function LineEnd(s: string, i: nat): (j: nat)
    requires i <= |s|
    ensures i <= j <= |s| && (forall k :: i <= k < j ==> s[k] != '\n') && (j < |s| ==> s[j] == '\n')
    decreases |s| - i
  {
    if i < |s| && s[i] != '\n' then LineEnd(s, i + 1) else i
  }

  /** A `#`, blanks and a text at the start of a line; the blanks may run over line ends. */
  predicate TitleAt(s: string, p: nat) {
    && p + 1 < |s| && LineStart(s, p) && s[p] == '#' && IsSpace(s[p + 1])
    && BlanksEnd(s, p + 1) < |s|
  }

  function TitleText(s: string, p: nat): string
    requires TitleAt(s, p)
  {
    Strip(s[BlanksEnd(s, p + 1)..LineEnd(s, BlanksEnd(s, p + 1))])
  }

  function FirstTitle(s: string, p: nat): (r: Option<nat>)
    ensures r.Some? ==> p <= r.value < |s| && TitleAt(s, r.value) && forall k :: p <= k < r.value ==> !TitleAt(s, k)
    ensures r.None? ==> forall k :: p <= k < |s| ==> !TitleAt(s, k)
    decreases |s| - p
  {
    if p >= |s| then None else if TitleAt(s, p) then Some(p) else FirstTitle(s, p + 1)
  }

  /** `^#\s+title\s*$` at `p`, the title being no longer than the rest of the text. */
  predicate HeadingAt(s: string, p: nat, title: string) {
    && TitleAt(s, p)
    && var q := BlanksEnd(s, p + 1);
       && q + |title| <= |s| && s[q..q + |title|] == title
       && LineCloses(s, q + |title|)
  }

  /** Only blanks up to the end of the line. */
  predicate LineCloses(s: string, i: nat) {
    i <= |s| && forall k :: i <= k < LineEnd(s, i) ==> IsSpace(s[k])
  }

  /** The positions of the title's headings from `p` on: where the text is split. */
  function Headings(s: string, p: nat, title: string): seq<nat>
    decreases |s| - p
  {
    if p >= |s| then []
    else (if HeadingAt(s, p, title) then [p] else []) + Headings(s, p + 1, title)
  }

  /** `len(re.findall(...))`: a match is searched after the text of the one before. */
  function CountHeadings(s: string, p: nat, title: string): nat
    decreases |s| - p
  {
    if p >= |s| then 0
    else if HeadingAt(s, p, title) then 1 + CountHeadings(s, BlanksEnd(s, p + 1) + |title|, title)
    else CountHeadings(s, p + 1, title)
  }

  predicate Duplicated(s: string) {
    && FirstTitle(s, 0).Some?
    && CountHeadings(s, 0, TitleText(s, FirstTitle(s, 0).value)) > 1
  }

  // ---- sanitizing ----

  datatype Report = Report(
    originalChars: nat, sanitizedChars: nat, contaminationFound: bool, warnings: seq<string>, blocked: bool, blockReason: string)

  function JoinLabels(labels: seq<string>): string {
    if labels == [] then "" else if |labels| == 1 then labels[0] else labels[0] + "；" + JoinLabels(labels[1..])
  }

  predicate Increasing(cuts: seq<nat>, low: nat, high: nat) {
    && (forall k :: 0 <= k < |cuts| ==> low <= cuts[k] <= high)
    && (forall k, l :: 0 <= k < l < |cuts| ==> cuts[k] < cuts[l])
  }

  /** `re.split` at zero-width matches: the text from `from`, cut at each position. */
  function Parts(s: string, from: nat, cuts: seq<nat>): (parts: seq<string>)
    requires from <= |s| && Increasing(cuts, from, |s|)
    ensures |parts| == |cuts| + 1
    decreases |cuts|
  {
    if cuts == [] then [s[from..]] else [s[from..cuts[0]]] + Parts(s, cuts[0], cuts[1..])
  }

  function NonBlank(parts: seq<string>): seq<string> {
    if parts == [] then [] else (if Strip(parts[0]) != "" then [parts[0]] else []) + NonBlank(parts[1..])
  }

  lemma Prepended(p: nat, cuts: seq<nat>, high: nat)
    requires p < high && Increasing(cuts, p + 1, high)
    ensures Increasing([p] + cuts, p, high) && Increasing(cuts, p, high)
  {
  }

  lemma {:induction false} HeadingsAreHeadings(s: string, p: nat, title: string)
    ensures Increasing(Headings(s, p, title), p, |s|)
    ensures forall q :: q in Headings(s, p, title) <==> p <= q < |s| && HeadingAt(s, q, title)
    decreases |s| - p
  {
    hide HeadingAt;
    if p < |s| {
      HeadingsAreHeadings(s, p + 1, title);
      Prepended(p, Headings(s, p + 1, title), |s|);
      hide Increasing;
    }
  }

  function CutOff(s: string): string {
    var cut := CutPosition(PATTERNS, s);
    if cut < |s| then RStrip(s[..cut]) else s
  }

  function SplitAtTitle(s: string, title: string): seq<string> {
    HeadingsAreHeadings(s, 0, title);
    NonBlank(Parts(s, 0, Headings(s, 0, title)))
  }

  function WithoutCopies(s: string): string {
    if !Duplicated(s) then s
    else
      var parts := SplitAtTitle(s, TitleText(s, FirstTitle(s, 0).value));
      if |parts| > 1 then RStrip(parts[0]) else s
  }

  function Sanitized(text: string): string { WithoutCopies(CutOff(Strip(text))) }

  /** The loop over the patterns for the leftmost match. */
  method FindCut(cleaned: string) returns (cut: nat)
    ensures cut == CutPosition(PATTERNS, cleaned)
  {
    cut := |cleaned|;
    for i := 0 to |PATTERNS|
      invariant cut == CutPosition(PATTERNS[..i], cleaned)
    {
      assert PATTERNS[..i + 1][..i] == PATTERNS[..i];
      var m := Search(PATTERNS[i], cleaned);
      if m.Some? && m.value < cut {
        cut := m.value;
      }
    }
    assert PATTERNS[..|PATTERNS|] == PATTERNS;
  }

  function CutWarning(s: string, original: nat): seq<string> {
    var cut := CutPosition(PATTERNS, s);
    if cut < |s| then ["已在字符 " + Decimal(cut) + " 处截断 AI 污染段（原长 " + Decimal(original) + "）"] else []
  }

  function CopyWarning(s: string): seq<string> {
    if Duplicated(s) then ["检测到重复 PRD 标题，已丢弃后续重复正文"] else []
  }

  method SanitizeRequirementMarkdown(text: string) returns (cleaned: string, report: Report)
    ensures cleaned == Sanitized(text)
    ensures Hits(PATTERNS, cleaned) == [] && !report.blocked && report.blockReason == ""
    ensures report.originalChars == |text| && report.sanitizedChars == |cleaned|
    ensures report.contaminationFound <==> Hits(PATTERNS, Strip(text)) != [] || Duplicated(CutOff(Strip(text)))
    ensures report.warnings == Hits(PATTERNS, Strip(text)) + CutWarning(Strip(text), |text|) + CopyWarning(CutOff(Strip(text)))
  {
    hide CutPosition, Hits, Search, PATTERNS, TitleText, Duplicated, SplitAtTitle, RStrip, Strip;
    cleaned := Strip(text);
    var warnings := DetectContamination(cleaned);
    var found := warnings != [];
    var cut := FindCut(cleaned);
    if cut < |cleaned| {
      cleaned := RStrip(cleaned[..cut]);
      warnings := warnings + ["已在字符 " + Decimal(cut) + " 处截断 AI 污染段（原长 " + Decimal(|text|) + "）"];
    }
    assert cleaned == CutOff(Strip(text));
    if Duplicated(cleaned) {
      var title := MainTitle(cleaned);
      var parts := SplitAtTitle(cleaned, title);
      CopiesMakeParts(cleaned);
      if |parts| > 1 {
        cleaned := RStrip(parts[0]);
        found := true;
        warnings := warnings + ["检测到重复 PRD 标题，已丢弃后续重复正文"];
      }
    }
    SanitizedIsClean(text);
    var residual := DetectContamination(cleaned);
    var blocked, reason := false, "";
    if residual != [] {
      blocked := true;
      reason := "文档仍含 AI 对话/扩写污染，请删除 Word 中 ChatGPT 对话与粘贴的第二份正文后重新上传。" + " 详情：" + JoinLabels(residual);
    }
    report := Report(|text|, |cleaned|, found, warnings, blocked, reason);
  }

  function MainTitle(s: string): string
    requires Duplicated(s)
  {
    TitleText(s, FirstTitle(s, 0).value)
  }

  // ---- what is kept ----

  lemma RStripPrefix(x: string)
    ensures |RStrip(x)| <= |x| && RStrip(x) == x[..|RStrip(x)|]
    ensures forall k :: |RStrip(x)| <= k < |x| ==> IsSpace(x[k])
  {
    hide RStrip;
    var b := RStripSplit(x);
    assert x[..|RStrip(x)|] == RStrip(x);
    forall k | |RStrip(x)| <= k < |x| ensures IsSpace(x[k]) {
      assert x[k] == b[k - |RStrip(x)|];
    }
  }

  lemma {:induction false} LStripNonBlank(t: string, i: nat)
    requires i < |t| && !IsSpace(t[i])
    ensures LStrip(t) != ""
  {
    if IsSpace(t[0]) {
      LStripNonBlank(t[1..], i - 1);
    }
  }

  lemma {:induction false} RStripNonBlank(t: string)
    requires t != "" && !IsSpace(t[0])
    ensures RStrip(t) != ""
  {
    if IsSpace(t[|t| - 1]) {
      RStripNonBlank(t[..|t| - 1]);
    }
  }

  lemma StripNonBlank(t: string, i: nat)
    requires i < |t| && !IsSpace(t[i])
    ensures Strip(t) != ""
  {
    LStripNonBlank(t, i);
    RStripNonBlank(LStrip(t));
  }

  lemma RStripTrimmed(t: string)
    requires t != "" ==> !IsSpace(t[0])
    ensures Trimmed(RStrip(t))
  {
  }

  lemma CutOffTrimmed(s: string)
    requires Trimmed(s)
    ensures Trimmed(CutOff(s))
  {
    var cut := CutPosition(PATTERNS, s);
    if cut < |s| {
      RStripTrimmed(s[..cut]);
    }
  }

  /** A longer way to search finds no fewer headings. */
  lemma {:induction false} MoreHeadings(s: string, p: nat, q: nat, title: string)
    requires p <= q
    ensures |Headings(s, q, title)| <= |Headings(s, p, title)|
    decreases q - p
  {
    hide HeadingAt;
    if p < q {
      MoreHeadings(s, p + 1, q, title);
    }
  }

  lemma {:induction false} CountAtMostHeadings(s: string, p: nat, title: string)
    ensures CountHeadings(s, p, title) <= |Headings(s, p, title)|
    decreases |s| - p
  {
    if p < |s| {
      if HeadingAt(s, p, title) {
        var q := BlanksEnd(s, p + 1) + |title|;
        CountAtMostHeadings(s, q, title);
        MoreHeadings(s, p + 1, q, title);
      } else {
        CountAtMostHeadings(s, p + 1, title);
      }
    }
  }

  /** Where the kept copy ends: at the second heading if the text opens with the first one, else
      already at the first. */
  function CopyEnd(s: string): (e: nat)
    requires Duplicated(s)
    ensures 0 < e < |s| && HeadingAt(s, e, MainTitle(s))
  {
    CountAtMostHeadings(s, 0, MainTitle(s));
    HeadingsAreHeadings(s, 0, MainTitle(s));
    var hs := Headings(s, 0, MainTitle(s));
    if hs[0] == 0 then hs[1] else hs[0]
  }

  /** Every part after the first starts with a heading, so it is not blank. */
  lemma PartsAfterHeadings(s: string, from: nat, cuts: seq<nat>)
    requires from < |s| && Increasing(cuts, from, |s|) && !IsSpace(s[from])
    requires cuts != [] ==> from < cuts[0] < |s| && !IsSpace(s[cuts[0]])
    ensures NonBlank(Parts(s, from, cuts)) != []
    ensures NonBlank(Parts(s, from, cuts))[0] == if cuts == [] then s[from..] else s[from..cuts[0]]
  {
    var first := if cuts == [] then s[from..] else s[from..cuts[0]];
    assert first[0] == s[from];
    StripNonBlank(first, 0);
  }

  lemma CopiesMakeParts(s: string)
    requires Duplicated(s)
    ensures |SplitAtTitle(s, MainTitle(s))| > 1
    ensures Trimmed(s) ==> SplitAtTitle(s, MainTitle(s))[0] == s[..CopyEnd(s)]
  {
    hide Duplicated, MainTitle, HeadingAt, Strip;
    var title := MainTitle(s);
    var hs := Headings(s, 0, title);
    CountAtMostHeadings(s, 0, title);
    AtLeastTwo(s);
    HeadingsAreHeadings(s, 0, title);
    HeadingsStartWithHash(s, hs[0], title);
    HeadingsStartWithHash(s, hs[1], title);
    if |hs| > 2 {
      HeadingsStartWithHash(s, hs[2], title);
    }
    LaterParts(s, hs, title);
    var rest := NonBlank(Parts(s, hs[0], hs[1..]));
    assert SplitAtTitle(s, title) == (if Strip(s[0..hs[0]]) != "" then [s[0..hs[0]]] else []) + rest;
    if hs[0] == 0 {
      EmptyStrips(s[0..0]);
    } else if Trimmed(s) {
      assert s[0..hs[0]][0] == s[0];
      StripNonBlank(s[0..hs[0]], 0);
    }
    assert s[0..hs[0]] == s[..hs[0]] && s[0..hs[1]] == s[..hs[1]];
  }

  lemma EmptyStrips(t: string)
    requires t == ""
    ensures Strip(t) == ""
  {
  }

  lemma AtLeastTwo(s: string)
    requires Duplicated(s)
    ensures |Headings(s, 0, MainTitle(s))| > 1
  {
    CountAtMostHeadings(s, 0, MainTitle(s));
  }

  lemma HeadingsStartWithHash(s: string, p: nat, title: string)
    requires HeadingAt(s, p, title)
    ensures p < |s| && s[p] == '#' && !IsSpace(s[p])
  {
  }

  lemma LaterParts(s: string, hs: seq<nat>, title: string)
    requires |hs| > 1 && Increasing(hs, 0, |s|)
    requires hs[0] < |s| && !IsSpace(s[hs[0]]) && hs[1] < |s| && !IsSpace(s[hs[1]])
    requires |hs| > 2 ==> hs[2] < |s| && !IsSpace(s[hs[2]])
    ensures |NonBlank(Parts(s, hs[0], hs[1..]))| > 1
    ensures NonBlank(Parts(s, hs[0], hs[1..]))[0] == s[hs[0]..hs[1]]
  {
    PartsAfterHeadings(s, hs[0], hs[1..]);
    PartsAfterHeadings(s, hs[1], hs[1..][1..]);
    assert s[hs[0]..hs[1]][0] == s[hs[0]];
    StripNonBlank(s[hs[0]..hs[1]], 0);
  }

  /** A text without copies is the stripped text up to the end of the kept copy. */
  lemma WithoutCopiesIsPrefix(s: string)
    requires Trimmed(s)
    ensures WithoutCopies(s) == if Duplicated(s) then RStrip(s[..CopyEnd(s)]) else s
  {
    hide Duplicated, SplitAtTitle, CopyEnd, RStrip;
    if Duplicated(s) {
      CopiesMakeParts(s);
    }
  }

  /** `t` is the start of `s` as it is, without blanks at either end. */
  predicate TrimmedStart(t: string, s: string) {
    |t| <= |s| && t == s[..|t|] && Trimmed(t)
  }

  lemma StartOfStart(r: string, t: string, s: string)
    requires TrimmedStart(r, t) && TrimmedStart(t, s)
    ensures TrimmedStart(r, s)
  {
    hide Trimmed;
  }

  lemma RStripIsStart(s: string, e: nat)
    requires Trimmed(s) && e <= |s|
    ensures TrimmedStart(RStrip(s[..e]), s) && |RStrip(s[..e])| <= e
  {
    RStripPrefix(s[..e]);
    RStripTrimmed(s[..e]);
    hide RStrip, Trimmed;
    assert s[..e][..|RStrip(s[..e])|] == s[..|RStrip(s[..e])|];
  }

  lemma CutOffIsStart(s: string)
    requires Trimmed(s)
    ensures TrimmedStart(CutOff(s), s) && |CutOff(s)| <= CutPosition(PATTERNS, s)
  {
    hide CutPosition, PATTERNS, TrimmedStart;
    if CutPosition(PATTERNS, s) < |s| {
      RStripIsStart(s, CutPosition(PATTERNS, s));
    } else {
      WholeIsStart(s);
    }
  }

  lemma WholeIsStart(s: string)
    requires Trimmed(s)
    ensures TrimmedStart(s, s)
  {
    assert s == s[..|s|];
  }

  lemma WithoutCopiesIsStart(s: string)
    requires Trimmed(s)
    ensures TrimmedStart(WithoutCopies(s), s)
  {
    hide Duplicated, CopyEnd, TrimmedStart, Trimmed, RStrip, WithoutCopies;
    WithoutCopiesIsPrefix(s);
    if Duplicated(s) {
      RStripIsStart(s, CopyEnd(s));
    } else {
      WholeIsStart(s);
    }
  }

  /** The output is the start of the stripped text, up to a point not behind the cut. */
  lemma SanitizedIsPrefix(text: string) returns (n: nat)
    ensures n <= CutPosition(PATTERNS, Strip(text)) && Sanitized(text) == Strip(text)[..n] && Trimmed(Sanitized(text))
  {
    hide Strip, CutPosition, PATTERNS, Trimmed, CutOff, WithoutCopies;
    var s := Strip(text);
    var a, b := StripSplit(text);
    CutOffIsStart(s);
    WithoutCopiesIsStart(CutOff(s));
    StartOfStart(WithoutCopies(CutOff(s)), CutOff(s), s);
    n := |Sanitized(text)|;
  }

  /** The output never contains a trace of a chat: the final check cannot block a document. */
  lemma SanitizedIsClean(text: string)
    ensures Hits(PATTERNS, Sanitized(text)) == []
  {
    hide Sanitized, Strip, Hits, PATTERNS;
    var n := SanitizedIsPrefix(text);
    PartBeforeCutIsClean(Strip(text), 0, n);
    assert Strip(text)[0..n] == Strip(text)[..n];
  }

  /** The output stands somewhere in the input as it is. */
  lemma SanitizedIsPart(text: string)
    ensures Contains(text, Sanitized(text))
  {
    hide Sanitized, Strip;
    var n := SanitizedIsPrefix(text);
    var a, b := StripSplit(text);
    var out := Sanitized(text);
    assert text[|a|..|a| + n] == Strip(text)[..n];
    assert OccursAt(text, out, |a|);
  }

  // ---- exactly what is kept ----

  /** Some pattern matches at `i`. */
  predicate TraceAt(s: string, i: nat) {
    exists k :: 0 <= k < |PATTERNS| && MatchAt(PATTERNS[k], s, i)
  }

  lemma {:induction false} MatchAtCut(patterns: seq<Pattern>, s: string)
    requires CutPosition(patterns, s) < |s|
    ensures exists k :: 0 <= k < |patterns| && MatchAt(patterns[k], s, CutPosition(patterns, s))
  {
    hide MatchAt;
    var n := |patterns| - 1;
    var found := Search(patterns[n], s);
    if !(found.Some? && found.value < CutPosition(patterns[..n], s)) {
      MatchAtCut(patterns[..n], s);
      var k :| 0 <= k < n && MatchAt(patterns[..n][k], s, CutPosition(patterns, s));
      assert patterns[k] == patterns[..n][k];
    }
  }

  lemma CutIsAtTrace(s: string)
    requires CutPosition(PATTERNS, s) < |s|
    ensures TraceAt(s, CutPosition(PATTERNS, s))
  {
    hide CutPosition, PATTERNS, MatchAt;
    MatchAtCut(PATTERNS, s);
  }

  lemma CutIsFirstTrace(s: string, i: nat)
    requires TraceAt(s, i) && forall j :: 0 <= j < i ==> !TraceAt(s, j)
    ensures i < |s| && CutPosition(PATTERNS, s) == i
  {
    hide MatchAt, CutPosition, PATTERNS;
    var cut := CutPosition(PATTERNS, s);
    var k :| 0 <= k < |PATTERNS| && MatchAt(PATTERNS[k], s, i);
    NoEmptyMatch(PATTERNS[k], s, i, k);
    if i < cut {
      NothingBeforeCut(PATTERNS, s, k, i);
    }
    if cut < i {
      CutIsAtTrace(s);
    }
  }

  /** `out` is `r` itself if its main title is not repeated, else `r` up to the first repetition: the
      first heading with that title that does not open the text. */
  ghost predicate FirstCopyOf(r: string, out: string) {
    if !Duplicated(r) then out == r
    else
      exists e :: 0 < e < |r| && HeadingAt(r, e, MainTitle(r)) && out == RStrip(r[..e])
                  && forall p :: 0 < p < e ==> !HeadingAt(r, p, MainTitle(r))
  }

  lemma WithoutCopiesIsFirstCopy(r: string)
    requires Trimmed(r)
    ensures FirstCopyOf(r, WithoutCopies(r))
  {
    hide HeadingAt, MainTitle, RStrip;
    WithoutCopiesIsPrefix(r);
    if Duplicated(r) {
      var e := CopyEnd(r);
      forall p | 0 < p < e ensures !HeadingAt(r, p, MainTitle(r)) {
        HeadingsBeforeCopyEnd(r, p);
      }
    }
  }

  /** All of the document in front of its first trace is kept, but for blanks at its end and copies. */
  lemma KeepsTextBeforeTrace(text: string, i: nat)
    requires var s := Strip(text); TraceAt(s, i) && forall j :: 0 <= j < i ==> !TraceAt(s, j)
    ensures i < |Strip(text)| && FirstCopyOf(RStrip(Strip(text)[..i]), Sanitized(text))
  {
    hide TraceAt, CutPosition, PATTERNS, FirstCopyOf, WithoutCopies, Strip, RStrip, Trimmed;
    var s := Strip(text);
    var a, b := StripSplit(text);
    CutIsFirstTrace(s, i);
    CutOffTrimmed(s);
    WithoutCopiesIsFirstCopy(CutOff(s));
  }

  /** Without a trace all of it is kept, but for blanks around it and copies. */
  lemma KeepsCleanText(text: string)
    requires forall i :: 0 <= i <= |Strip(text)| ==> !TraceAt(Strip(text), i)
    ensures FirstCopyOf(Strip(text), Sanitized(text))
  {
    hide CutPosition, PATTERNS, FirstCopyOf, WithoutCopies, Strip, RStrip, Trimmed, MatchAt;
    var s := Strip(text);
    var a, b := StripSplit(text);
    if CutPosition(PATTERNS, s) < |s| {
      CutIsAtTrace(s);
    }
    WithoutCopiesIsFirstCopy(s);
  }

  /** The title counts as repeated exactly if it heads two lines, the second one behind the words of the first. */
  lemma {:induction false} CountsTwo(s: string, p: nat, title: string)
    ensures CountHeadings(s, p, title) > 1 <==>
            exists a, b :: p <= a < |s| && HeadingAt(s, a, title) && BlanksEnd(s, a + 1) + |title| <= b < |s| && HeadingAt(s, b, title)
    decreases |s| - p
  {
    hide HeadingAt, BlanksEnd;
    if p < |s| {
      if HeadingAt(s, p, title) {
        var q := HeadingEnd(s, p, title);
        CountsOne(s, q, title);
        if CountHeadings(s, p, title) > 1 {
          var b :| q <= b < |s| && HeadingAt(s, b, title);
        }
        forall a, b | p <= a < |s| && HeadingAt(s, a, title) && BlanksEnd(s, a + 1) + |title| <= b < |s| && HeadingAt(s, b, title)
          ensures CountHeadings(s, p, title) > 1
        {
          HeadingsEndInOrder(s, p, a, title);
        }
      } else {
        CountsTwo(s, p + 1, title);
      }
    }
  }

  /** Where the title's words end. */
  lemma HeadingEnd(s: string, p: nat, title: string) returns (q: nat)
    requires HeadingAt(s, p, title)
    ensures p < q && q == BlanksEnd(s, p + 1) + |title|
  {
    q := BlanksEnd(s, p + 1) + |title|;
  }

  lemma HeadingsEndInOrder(s: string, p: nat, a: nat, title: string)
    requires p <= a && HeadingAt(s, p, title) && HeadingAt(s, a, title)
    ensures BlanksEnd(s, p + 1) <= BlanksEnd(s, a + 1)
  {
    hide LineCloses;
    if p < a {
      assert s[a] == '#' && !IsSpace(s[a]);
    }
  }

  lemma {:induction false} CountsOne(s: string, p: nat, title: string)
    ensures CountHeadings(s, p, title) >= 1 <==> exists b :: p <= b < |s| && HeadingAt(s, b, title)
    decreases |s| - p
  {
    hide HeadingAt;
    if p < |s| && !HeadingAt(s, p, title) {
      CountsOne(s, p + 1, title);
    }
  }

  lemma DuplicatedIff(s: string)
    ensures Duplicated(s) <==>
            exists t: nat, a: nat, b: nat :: t < |s| && TitleAt(s, t) && (forall j :: 0 <= j < t ==> !TitleAt(s, j))
                         && a < |s| && HeadingAt(s, a, TitleText(s, t))
                         && BlanksEnd(s, a + 1) + |TitleText(s, t)| <= b < |s| && HeadingAt(s, b, TitleText(s, t))
  {
    hide HeadingAt, TitleAt, TitleText, BlanksEnd, CountHeadings;
    var f := FirstTitle(s, 0);
    if f.Some? {
      CountsTwo(s, 0, TitleText(s, f.value));
    }
  }

  lemma SpellsWord(tokens: seq<Token>, w: string, u: string, rest: string)
    requires tokens != [] && tokens[0] == Word(w) && FoldsTo(u, w) && Spells(tokens[1..], rest)
    ensures Spells(tokens, u + rest)
  {
    assert (u + rest)[..|w|] == u && (u + rest)[|w|..] == rest;
  }

  lemma SpellsBlanks(tokens: seq<Token>, x: string, rest: string)
    requires tokens != [] && tokens[0] == Blanks && AllSpace(x) && Spells(tokens[1..], rest)
    ensures Spells(tokens, x + rest)
  {
    assert (x + rest)[..|x|] == x && (x + rest)[|x|..] == rest;
  }

  lemma SpellsLine(tokens: seq<Token>, x: string, rest: string)
    requires tokens != [] && tokens[0] == WithinLine && '\n' !in x && Spells(tokens[1..], rest)
    ensures Spells(tokens, x + rest)
  {
    assert (x + rest)[..|x|] == x && (x + rest)[|x|..] == rest;
  }

  lemma SpelledTrace(k: nat, u: string, rest: string)
    requires k < |PATTERNS| && Spells(PATTERNS[k].tokens, u)
    ensures TraceAt(u + rest, 0)
  {
    hide Spells, PATTERNS;
    assert (u + rest)[0..|u|] == u;
    assert MatchAt(PATTERNS[k], u + rest, 0);
  }

  /** What the patterns are meant to catch, whatever blanks stand between the words. */
  lemma TracesAreFound(x: string, y: string, line: string, rest: string)
    requires AllSpace(x) && AllSpace(y) && '\n' !in line
    ensures TraceAt("将需求文档转换成" + (x + ("Word" + "")) + rest, 0)
    ensures TraceAt("我没办法直接生成" + (line + (".docx" + "")) + rest, 0)
    ensures TraceAt("粘贴到" + (x + ("Microsoft" + (y + ("Word" + "")))) + rest, 0)
    ensures TraceAt("标准" + (x + ("Word" + (y + ("排版格式" + "")))) + rest, 0)
  {
    hide Spells, TraceAt;
    WordTrace(x, rest);
    DocxTrace(line, rest);
    PasteTrace(x, y, rest);
    LayoutTrace(x, y, rest);
  }

  lemma NothingSpelled()
    ensures Spells([], "")
  {
  }

  lemma WordTrace(x: string, rest: string)
    requires AllSpace(x)
    ensures TraceAt("将需求文档转换成" + (x + ("Word" + "")) + rest, 0)
  {
    hide Spells;
    var t := PATTERNS[0].tokens;
    NothingSpelled();
    assert t[2..] == [Word("word")] && t[2..][1..] == [] && t[1..][1..] == t[2..];
    SpellsWord(t[2..], "word", "Word", "");
    SpellsBlanks(t[1..], x, "Word" + "");
    SpellsWord(t, "将需求文档转换成", "将需求文档转换成", x + ("Word" + ""));
    SpelledTrace(0, "将需求文档转换成" + (x + ("Word" + "")), rest);
  }

  lemma DocxTrace(line: string, rest: string)
    requires '\n' !in line
    ensures TraceAt("我没办法直接生成" + (line + (".docx" + "")) + rest, 0)
  {
    hide Spells;
    var t := PATTERNS[1].tokens;
    NothingSpelled();
    assert t[2..] == [Word(".docx")] && t[2..][1..] == [] && t[1..][1..] == t[2..];
    SpellsWord(t[2..], ".docx", ".docx", "");
    SpellsLine(t[1..], line, ".docx" + "");
    SpellsWord(t, "我没办法直接生成", "我没办法直接生成", line + (".docx" + ""));
    SpelledTrace(1, "我没办法直接生成" + (line + (".docx" + "")), rest);
  }

  lemma PasteTrace(x: string, y: string, rest: string)
    requires AllSpace(x) && AllSpace(y)
    ensures TraceAt("粘贴到" + (x + ("Microsoft" + (y + ("Word" + "")))) + rest, 0)
  {
    hide Spells;
    var t := PATTERNS[2].tokens;
    NothingSpelled();
    assert t[4..] == [Word("word")] && t[4..][1..] == [] && t[3..][1..] == t[4..] && t[2..][1..] == t[3..] && t[1..][1..] == t[2..];
    SpellsWord(t[4..], "word", "Word", "");
    SpellsBlanks(t[3..], y, "Word" + "");
    SpellsWord(t[2..], "microsoft", "Microsoft", y + ("Word" + ""));
    SpellsBlanks(t[1..], x, "Microsoft" + (y + ("Word" + "")));
    SpellsWord(t, "粘贴到", "粘贴到", x + ("Microsoft" + (y + ("Word" + ""))));
    SpelledTrace(2, "粘贴到" + (x + ("Microsoft" + (y + ("Word" + "")))), rest);
  }

  lemma LayoutTrace(x: string, y: string, rest: string)
    requires AllSpace(x) && AllSpace(y)
    ensures TraceAt("标准" + (x + ("Word" + (y + ("排版格式" + "")))) + rest, 0)
  {
    hide Spells;
    var t := PATTERNS[3].tokens;
    NothingSpelled();
    assert t[4..] == [Word("排版格式")] && t[4..][1..] == [] && t[3..][1..] == t[4..] && t[2..][1..] == t[3..] && t[1..][1..] == t[2..];
    SpellsWord(t[4..], "排版格式", "排版格式", "");
    SpellsBlanks(t[3..], y, "排版格式" + "");
    SpellsWord(t[2..], "word", "Word", y + ("排版格式" + ""));
    SpellsBlanks(t[1..], x, "Word" + (y + ("排版格式" + "")));
    SpellsWord(t, "标准", "标准", x + ("Word" + (y + ("排版格式" + ""))));
    SpelledTrace(3, "标准" + (x + ("Word" + (y + ("排版格式" + "")))), rest);
  }

  /** A document without traces and copies is only stripped. */
  lemma CleanIsOnlyStripped(text: string)
    requires Hits(PATTERNS, Strip(text)) == [] && !Duplicated(Strip(text))
    ensures Sanitized(text) == Strip(text)
  {
    hide Strip, Duplicated, PATTERNS, Search;
    HitsEmpty(PATTERNS, Strip(text));
    NoCut(PATTERNS, Strip(text));
  }

  lemma {:induction false} NoCut(patterns: seq<Pattern>, s: string)
    requires forall k :: 0 <= k < |patterns| ==> Search(patterns[k], s).None?
    ensures CutPosition(patterns, s) == |s|
  {
    hide Search;
    if patterns != [] {
      NoCut(patterns[..|patterns| - 1], s);
    }
  }

  // ---- no copy is left ----

  /** `out` is `s` up to a line end, blanks at its end dropped. */
  predicate Opens(s: string, e: nat, out: string) {
    && |out| < e < |s| && out == s[..|out|] && s[e - 1] == '\n' && !IsSpace(s[e])
    && forall k :: |out| <= k < e ==> IsSpace(s[k])
  }

  lemma TitleInOpening(s: string, e: nat, out: string, p: nat)
    requires Opens(s, e, out) && TitleAt(out, p)
    ensures TitleAt(s, p) && BlanksEnd(s, p + 1) == BlanksEnd(out, p + 1)
  {
    var q := BlanksEnd(out, p + 1);
    assert forall k :: 0 <= k < |out| ==> out[k] == s[k];
  }

  lemma LineInOpening(s: string, e: nat, out: string, i: nat)
    requires Opens(s, e, out) && i <= |out|
    ensures LineEnd(s, i) < e
    ensures LineEnd(out, i) == if LineEnd(s, i) < |out| then LineEnd(s, i) else |out|
  {
    assert forall k :: 0 <= k < |out| ==> out[k] == s[k];
  }

  lemma HeadingInOpening(s: string, e: nat, out: string, p: nat, title: string)
    requires Opens(s, e, out) && HeadingAt(out, p, title)
    ensures HeadingAt(s, p, title)
  {
    hide Opens, TitleAt, BlanksEnd, LineEnd;
    TitleInOpening(s, e, out, p);
    var q := BlanksEnd(out, p + 1);
    assert s[q..q + |title|] == out[q..q + |title|] by {
      OpeningChars(s, e, out);
    }
    ClosesInOpening(s, e, out, q + |title|);
  }

  lemma OpeningChars(s: string, e: nat, out: string)
    requires Opens(s, e, out)
    ensures |out| < e < |s| && (forall k :: 0 <= k < |out| ==> out[k] == s[k])
    ensures forall k :: |out| <= k < e ==> IsSpace(s[k])
  {
  }

  lemma ClosesInOpening(s: string, e: nat, out: string, i: nat)
    requires Opens(s, e, out) && LineCloses(out, i)
    ensures LineCloses(s, i)
  {
    LineInOpening(s, e, out, i);
    assert forall k :: 0 <= k < |out| ==> out[k] == s[k];
  }

  /** The first title of the opening is the first title of the text, with the same words. */
  lemma SameTitleInOpening(s: string, e: nat, out: string, p: nat)
    requires Opens(s, e, out) && TitleAt(out, p)
    ensures TitleAt(s, p) && TitleText(s, p) == TitleText(out, p)
  {
    TitleInOpening(s, e, out, p);
    var q := BlanksEnd(out, p + 1);
    LineInOpening(s, e, out, q);
    OpeningChars(s, e, out);
    var m, n := LineEnd(out, q), LineEnd(s, q);
    var x, b := out[q..m], s[m..n];
    SplitSlice(s, q, m, n);
    SameOpening(s, out, q, m);
    assert AllSpace(b);
    StripBlankTail(x, b);
  }

  lemma SplitSlice(s: string, q: nat, m: nat, n: nat)
    requires q <= m <= n <= |s|
    ensures s[q..n] == s[q..m] + s[m..n]
  {
  }

  lemma SameOpening(s: string, out: string, q: nat, m: nat)
    requires q <= m <= |out| <= |s| && forall k :: 0 <= k < |out| ==> out[k] == s[k]
    ensures out[q..m] == s[q..m]
  {
    forall k | 0 <= k < m - q ensures out[q..m][k] == s[q..m][k] {
      assert out[q + k] == s[q + k];
    }
  }

  lemma StripBlankTail(x: string, b: string)
    requires AllSpace(b)
    ensures Strip(x + b) == Strip(x)
  {
    var a, c := StripSplit(x);
    assert AllSpace(c + b);
    assert x + b == a + Strip(x) + (c + b);
    StripCore(a, Strip(x), c + b);
  }

  /** The first title's line is a heading of its title. */
  lemma TitleIsHeading(s: string, p: nat)
    requires TitleAt(s, p)
    ensures HeadingAt(s, p, TitleText(s, p))
  {
    var q := BlanksEnd(s, p + 1);
    var line := s[q..LineEnd(s, q)];
    assert line[0] == s[q];
    var title := Strip(line);
    assert title == RStrip(line);
    RStripPrefix(line);
    TitleCloses(s, q, title);
  }

  lemma TitleCloses(s: string, q: nat, title: string)
    requires q <= |s|
    requires var line := s[q..LineEnd(s, q)];
             |title| <= |line| && title == line[..|title|] && forall k :: |title| <= k < |line| ==> IsSpace(line[k])
    ensures q + |title| <= |s| && s[q..q + |title|] == title && LineCloses(s, q + |title|)
  {
    var line, i := s[q..LineEnd(s, q)], q + |title|;
    LineEndWithin(s, q, i);
    hide LineEnd;
    forall k | i <= k < LineEnd(s, i) ensures IsSpace(s[k]) {
      assert line[k - q] == s[k];
    }
  }

  lemma {:induction false} LineEndWithin(s: string, i: nat, j: nat)
    requires i <= |s| && i <= j <= LineEnd(s, i)
    ensures LineEnd(s, j) == LineEnd(s, i)
    decreases j - i
  {
    if i < j {
      LineEndWithin(s, i + 1, j);
    }
  }

  /** With headings nowhere after `p`, at most one is counted from `p` on. */
  lemma {:induction false} CountAtMostOne(s: string, p: nat, title: string)
    requires forall q :: p < q < |s| ==> !HeadingAt(s, q, title)
    ensures CountHeadings(s, p, title) <= 1
    decreases |s| - p
  {
    hide HeadingAt;
    if p < |s| {
      CountNone(s, p + 1, title);
      CountNone(s, BlanksEnd(s, p + 1) + |title|, title);
    }
  }

  lemma {:induction false} CountNone(s: string, p: nat, title: string)
    requires forall q :: p <= q < |s| ==> !HeadingAt(s, q, title)
    ensures CountHeadings(s, p, title) == 0
    decreases |s| - p
  {
    hide HeadingAt;
    if p < |s| {
      CountNone(s, p + 1, title);
    }
  }

  lemma CopyOpens(s: string)
    requires Duplicated(s)
    ensures Opens(s, CopyEnd(s), RStrip(s[..CopyEnd(s)]))
  {
    var e := CopyEnd(s);
    HeadingStart(s, e);
    RStripOpens(s, e);
  }

  lemma HeadingStart(s: string, e: nat)
    requires Duplicated(s) && e == CopyEnd(s)
    ensures 0 < e < |s| && s[e] == '#' && s[e - 1] == '\n'
  {
    hide CopyEnd, BlanksEnd, Duplicated, MainTitle, LineCloses;
  }

  lemma RStripOpens(s: string, e: nat)
    requires 0 < e < |s| && s[e] == '#' && s[e - 1] == '\n'
    ensures Opens(s, e, RStrip(s[..e]))
  {
    hide RStrip;
    RStripPrefix(s[..e]);
    var out := RStrip(s[..e]);
    assert s[..e][e - 1] == '\n';
    NotBlankAtEnd(s[..e]);
    assert out == s[..|out|];
    assert out != "" ==> out[|out| - 1] == s[|out| - 1];
  }

  lemma NotBlankAtEnd(t: string)
    ensures RStrip(t) != "" ==> !IsSpace(RStrip(t)[|RStrip(t)| - 1])
  {
  }

  /** Before the end of the kept copy the only heading of the title is one that opens the text. */
  lemma HeadingsBeforeCopyEnd(s: string, p: nat)
    requires Duplicated(s) && 0 < p < CopyEnd(s)
    ensures !HeadingAt(s, p, MainTitle(s))
  {
    hide HeadingAt, Duplicated, MainTitle;
    var hs := Headings(s, 0, MainTitle(s));
    CountAtMostHeadings(s, 0, MainTitle(s));
    HeadingsAreHeadings(s, 0, MainTitle(s));
    assert forall q :: q in hs ==> q == 0 || q >= CopyEnd(s);
  }

  /** If the text does not open with its title, no title at all stands before the end of the copy. */
  lemma FirstTitleIsFirstHeading(s: string, p: nat)
    requires Duplicated(s) && p < CopyEnd(s) && TitleAt(s, p)
    ensures FirstTitle(s, 0).value == 0
  {
    var t := FirstTitle(s, 0).value;
    assert t <= p;
    TitleIsHeading(s, t);
    if t > 0 {
      HeadingsBeforeCopyEnd(s, t);
    }
  }

  /** What is left of a text with copies has no copies. */
  lemma NoCopiesLeft(s: string)
    requires Trimmed(s)
    ensures !Duplicated(WithoutCopies(s))
  {
    WithoutCopiesIsPrefix(s);
    if Duplicated(s) {
      var e, title := CopyEnd(s), MainTitle(s);
      var out := RStrip(s[..e]);
      CopyOpens(s);
      if Duplicated(out) {
        OneHeadingLeft(s, out);
      }
    }
  }

  /** A title that opens the text opens what is kept of it, if that has a title at all. */
  lemma OpeningTitle(s: string, e: nat, out: string, p: nat)
    requires Opens(s, e, out) && TitleAt(s, 0) && TitleAt(out, p)
    ensures TitleAt(out, 0)
  {
    assert forall k :: 0 <= k < |out| ==> out[k] == s[k];
    var q := BlanksEnd(s, 1);
    if p > 0 {
      assert !IsSpace(s[p]);
      assert q <= p;
      assert BlanksEnd(out, 1) == q;
    }
  }

  lemma OneHeadingLeft(s: string, out: string)
    requires Duplicated(s) && Opens(s, CopyEnd(s), out) && FirstTitle(out, 0).Some?
    ensures CountHeadings(out, 0, TitleText(out, FirstTitle(out, 0).value)) <= 1
  {
    hide Opens, CopyEnd, HeadingAt, TitleAt;
    var e, p := CopyEnd(s), FirstTitle(out, 0).value;
    OpeningChars(s, e, out);
    TitleInOpening(s, e, out, p);
    FirstTitleIsFirstHeading(s, p);
    OpeningTitle(s, e, out, p);
    assert p == 0;
    SameTitleInOpening(s, e, out, 0);
    forall q | 0 < q < |out| ensures !HeadingAt(out, q, MainTitle(s)) {
      if HeadingAt(out, q, MainTitle(s)) {
        HeadingInOpening(s, e, out, q, MainTitle(s));
        HeadingsBeforeCopyEnd(s, q);
      }
    }
    CountAtMostOne(out, 0, MainTitle(s));
  }

  // ---- when the first copy is kept ----

  lemma KeptHeading(s: string, e: nat, out: string)
    requires Opens(s, e, out) && TitleAt(s, 0) && HeadingAt(s, 0, TitleText(s, 0)) && BlanksEnd(s, 1) < e
    ensures HeadingAt(out, 0, TitleText(s, 0))
  {
    hide Opens, TitleAt, TitleText, BlanksEnd, LineEnd, LineCloses;
    var q, title := BlanksEnd(s, 1), TitleText(s, 0);
    TitleWords(s, 0);
    KeptTitle(s, e, out);
    KeptWords(s, e, out, q, title);
    KeptLine(s, e, out, q + |title|);
  }

  lemma KeptTitle(s: string, e: nat, out: string)
    requires Opens(s, e, out) && TitleAt(s, 0) && BlanksEnd(s, 1) < e
    ensures TitleAt(out, 0) && BlanksEnd(out, 1) == BlanksEnd(s, 1)
  {
    assert forall k :: 0 <= k < |out| ==> out[k] == s[k];
    assert BlanksEnd(s, 1) < |out|;
  }

  lemma KeptWords(s: string, e: nat, out: string, q: nat, title: string)
    requires Opens(s, e, out) && q < e && q + |title| <= |s| && s[q..q + |title|] == title
    requires title != "" && !IsSpace(title[|title| - 1]) && '\n' !in title
    ensures q + |title| <= |out| && out[q..q + |title|] == title
  {
    var last := q + |title| - 1;
    assert s[last] == title[|title| - 1];
    forall k | q <= k <= last ensures s[k] != '\n' {
      assert s[k] == title[k - q];
    }
    assert last < |out|;
    assert out[q..q + |title|] == s[q..q + |title|];
  }

  lemma KeptLine(s: string, e: nat, out: string, i: nat)
    requires Opens(s, e, out) && i <= |out| && LineCloses(s, i)
    ensures LineCloses(out, i)
  {
    LineInOpening(s, e, out, i);
    assert forall k :: 0 <= k < |out| ==> out[k] == s[k];
  }

  /** A title is one line of text without blanks around it. */
  lemma TitleWords(s: string, p: nat)
    requires TitleAt(s, p)
    ensures var t := TitleText(s, p); t != "" && !IsSpace(t[|t| - 1]) && '\n' !in t
  {
    var q := BlanksEnd(s, p + 1);
    var line := s[q..LineEnd(s, q)];
    assert !IsSpace(s[q]) && s[q] != '\n';
    assert line[0] == s[q];
    StripNonBlank(line, 0);
    assert Strip(line) == RStrip(line);
    RStripPrefix(line);
  }

  /** The first copy of the body survives exactly when the document opens with its title line and
      that title's words come before the second one; behind anything else both copies are lost. */
  lemma KeepsFirstCopyIff(s: string)
    requires Trimmed(s) && Duplicated(s)
    ensures var out := WithoutCopies(s);
            (exists p :: 0 <= p < |out| && HeadingAt(out, p, MainTitle(s)))
            <==> HeadingAt(s, 0, MainTitle(s)) && BlanksEnd(s, 1) < CopyEnd(s)
  {
    WithoutCopiesIsPrefix(s);
    CopyOpens(s);
    var e, title := CopyEnd(s), MainTitle(s);
    var out := RStrip(s[..e]);
    if HeadingAt(s, 0, title) && BlanksEnd(s, 1) < e {
      assert FirstTitle(s, 0).value == 0;
      KeptHeading(s, e, out);
      assert 0 < |out| && HeadingAt(out, 0, title);
    }
    if p :| 0 <= p < |out| && HeadingAt(out, p, title) {
      OnlyOpeningHeading(s, out, p);
    }
  }

  lemma OnlyOpeningHeading(s: string, out: string, p: nat)
    requires Duplicated(s) && Opens(s, CopyEnd(s), out) && HeadingAt(out, p, MainTitle(s))
    ensures HeadingAt(s, 0, MainTitle(s)) && BlanksEnd(s, 1) < CopyEnd(s)
  {
    var e, title := CopyEnd(s), MainTitle(s);
    HeadingInOpening(s, e, out, p, title);
    TitleInOpening(s, e, out, p);
    OpeningChars(s, e, out);
    if p > 0 {
      HeadingsBeforeCopyEnd(s, p);
    }
  }

  const LATE_TITLE := "a\n# T\n# T"

  lemma LateTitles()
    ensures var s := LATE_TITLE;
            && |s| == 9 && !TitleAt(s, 0) && !TitleAt(s, 1) && TitleAt(s, 2) && TitleAt(s, 6)
            && (forall k :: 2 < k < 9 && k != 6 ==> !TitleAt(s, k))
            && BlanksEnd(s, 3) == 4 && BlanksEnd(s, 7) == 8
  {
    var s := LATE_TITLE;
    assert s[1] == '\n' && s[2] == '#' && s[3] == ' ' && s[4] == 'T' && s[5] == '\n' && s[6] == '#' && s[7] == ' ' && s[8] == 'T';
  }

  lemma LateHeadings()
    ensures var s := LATE_TITLE;
            FirstTitle(s, 0) == Some(2) && TitleText(s, 2) == "T" && HeadingAt(s, 2, "T") && HeadingAt(s, 6, "T")
  {
    var s := LATE_TITLE;
    LateTitles();
    hide BlanksEnd, TitleAt;
    assert s[5] == '\n' && s[4] == 'T' && s[8] == 'T';
    assert LineEnd(s, 4) == 5 && LineEnd(s, 5) == 5 && LineEnd(s, 9) == 9;
    assert s[4..5] == "T" && s[8..9] == "T";
    StripTrimmed("T");
  }

  lemma LateDuplicated()
    ensures Duplicated(LATE_TITLE) && MainTitle(LATE_TITLE) == "T"
  {
    var s := LATE_TITLE;
    LateTitles();
    LateHeadings();
    hide BlanksEnd, LineEnd, FirstTitle, TitleText;
    assert !HeadingAt(s, 0, "T") && !HeadingAt(s, 1, "T") && !HeadingAt(s, 5, "T");
    hide TitleAt, HeadingAt;
    assert CountHeadings(s, 0, "T") == CountHeadings(s, 1, "T") == CountHeadings(s, 2, "T") == 1 + CountHeadings(s, 5, "T");
    assert CountHeadings(s, 5, "T") == CountHeadings(s, 6, "T") >= 1;
  }

  /** A word before the first title: of the two copies neither is kept. */
  lemma PreambleLosesBothCopies()
    ensures Duplicated(LATE_TITLE) && WithoutCopies(LATE_TITLE) == "a"
  {
    var s := LATE_TITLE;
    LateDuplicated();
    LateCopyEnd();
    LateKept();
    hide *;
    WithoutCopiesIsPrefix(s);
  }

  lemma LateKept()
    ensures Trimmed(LATE_TITLE) && RStrip(LATE_TITLE[..2]) == "a"
  {
    var s := LATE_TITLE;
    assert s[0] == 'a' && s[8] == 'T' && |s| == 9;
    assert s[..2] == ['a', '\n'] && ['a', '\n'][..1] == ['a'];
    assert RStrip(['a', '\n']) == RStrip(['a']) == ['a'];
  }

  lemma LateCopyEnd()
    requires Duplicated(LATE_TITLE) && MainTitle(LATE_TITLE) == "T"
    ensures CopyEnd(LATE_TITLE) == 2
  {
    var s := LATE_TITLE;
    LateTitles();
    LateHeadings();
    assert !HeadingAt(s, 0, "T") && !HeadingAt(s, 1, "T");
    hide HeadingAt, TitleAt, Duplicated;
    assert Headings(s, 0, "T") == Headings(s, 1, "T") == Headings(s, 2, "T");
    assert Headings(s, 2, "T")[0] == 2;
  }

  /** Sanitizing a sanitized document changes nothing. */
  lemma SanitizeIdempotent(text: string)
    ensures Sanitized(Sanitized(text)) == Sanitized(text)
  {
    var n := SanitizedIsPrefix(text);
    SanitizedIsClean(text);
    var a, b := StripSplit(text);
    CutOffTrimmed(Strip(text));
    NoCopiesLeft(CutOff(Strip(text)));
    hide CutOff, WithoutCopies, Strip, Duplicated, Trimmed, PATTERNS, Hits;
    StripTrimmed(Sanitized(text));
    CleanIsOnlyStripped(Sanitized(text));
  }
}
