/** The few Python `str` operations the modelled code relies on, with the facts about them
    that several modules need. */
module PyText {

  datatype Option<+T> = None | Some(value: T)

  /** `str.isspace` for one character: the separator code points of Unicode. */
  predicate IsSpace(c: char) {
    || '\t' <= c <= '\r'
    || '\U{1C}' <= c <= ' '
    || c == '\U{85}' || c == '\U{A0}' || c == '\U{1680}'
    || '\U{2000}' <= c <= '\U{200A}'
    || c == '\U{2028}' || c == '\U{2029}' || c == '\U{202F}' || c == '\U{205F}' || c == '\U{3000}'
  }

  predicate AllSpace(s: string) {
    forall i :: 0 <= i < |s| ==> IsSpace(s[i])
  }

  /** True when `s` is empty or starts and ends with a non-space. */
  predicate Trimmed(s: string) {
    s == "" || (!IsSpace(s[0]) && !IsSpace(s[|s| - 1]))
  }

  function LStrip(s: string): (r: string)
    ensures |r| <= |s|
    ensures r == "" || !IsSpace(r[0])
  {
    if s != "" && IsSpace(s[0]) then LStrip(s[1..]) else s
  }

  function RStrip(s: string): (r: string)
    ensures |r| <= |s|
    ensures r == "" || (!IsSpace(r[|r| - 1]) && r[0] == s[0])
  {
    if s != "" && IsSpace(s[|s| - 1]) then RStrip(s[..|s| - 1]) else s
  }

  function Strip(s: string): string {
    RStrip(LStrip(s))
  }

  predicate StartsWith(s: string, prefix: string) { prefix <= s }

  predicate EndsWith(s: string, suffix: string) {
    |suffix| <= |s| && s[|s| - |suffix|..] == suffix
  }

  lemma PrefixChars(s: string, prefix: string)
    ensures StartsWith(s, prefix) ==> |prefix| <= |s| && forall i :: 0 <= i < |prefix| ==> s[i] == prefix[i]
  {
  }

  lemma Reassociate<T>(a: seq<T>, b: seq<T>, c: seq<T>)
    ensures a + (b + c) == (a + b) + c
  {
  }

  predicate OccursAt(hay: string, needle: string, i: int) {
    0 <= i <= |hay| - |needle| && hay[i..i + |needle|] == needle
  }

  /** Python's `needle in hay`. */
  predicate Contains(hay: string, needle: string) {
    exists i :: 0 <= i <= |hay| && OccursAt(hay, needle, i)
  }

  lemma AllSpaceVanishes(s: string)
    requires AllSpace(s)
    ensures LStrip(s) == ""
  {
  }

  /** Stripping is determined by the trimmed core: whatever blanks surround it are removed. */
  lemma {:induction false} StripCore(a: string, core: string, b: string)
    requires AllSpace(a) && AllSpace(b) && Trimmed(core)
    ensures Strip(a + core + b) == core
    decreases |a| + |b|
  {
    var s := a + core + b;
    if core == "" {
      AllSpaceVanishes(s);
    } else {
      LStripPrefix(a, core + b);
      assert s == a + (core + b);
      assert LStrip(s) == core + b;
      RStripSuffix(core, b);
    }
  }

  lemma {:induction false} LStripPrefix(a: string, t: string)
    requires AllSpace(a)
    ensures LStrip(a + t) == LStrip(t)
  {
    if a == "" {
      assert a + t == t;
    } else {
      assert (a + t)[1..] == a[1..] + t;
      LStripPrefix(a[1..], t);
    }
  }

  lemma {:induction false} RStripSuffix(t: string, b: string)
    requires AllSpace(b)
    ensures RStrip(t + b) == RStrip(t)
  {
    if b == "" {
      assert t + b == t;
    } else {
      var n := |t + b| - 1;
      assert (t + b)[..n] == t + b[..|b| - 1];
      RStripSuffix(t, b[..|b| - 1]);
    }
  }

  lemma {:induction false} LStripSplit(s: string) returns (a: string)
    ensures AllSpace(a) && s == a + LStrip(s)
  {
    if s != "" && IsSpace(s[0]) {
      var b := LStripSplit(s[1..]);
      a := [s[0]] + b;
    } else {
      a := "";
    }
  }

  lemma {:induction false} RStripSplit(s: string) returns (b: string)
    ensures AllSpace(b) && s == RStrip(s) + b
  {
    if s != "" && IsSpace(s[|s| - 1]) {
      var a := RStripSplit(s[..|s| - 1]);
      b := a + [s[|s| - 1]];
    } else {
      b := "";
    }
  }

  /** Every string is blanks, its stripped core, blanks. */
  lemma StripSplit(s: string) returns (a: string, b: string)
    ensures AllSpace(a) && AllSpace(b) && Trimmed(Strip(s))
    ensures s == a + Strip(s) + b
  {
    a := LStripSplit(s);
    b := RStripSplit(LStrip(s));
  }

  lemma StripTrimmed(s: string)
    requires Trimmed(s)
    ensures Strip(s) == s
  {
    StripCore("", s, "");
    assert "" + s + "" == s;
  }

  lemma StripTwice(s: string)
    ensures Strip(Strip(s)) == Strip(s)
  {
    var a, b := StripSplit(s);
    StripTrimmed(Strip(s));
  }

  /** Substring is transitive. */
  lemma ContainsTransitive(hay: string, mid: string, needle: string)
    requires Contains(hay, mid) && Contains(mid, needle)
    ensures Contains(hay, needle)
  {
    var i :| 0 <= i <= |hay| && OccursAt(hay, mid, i);
    var j :| 0 <= j <= |mid| && OccursAt(mid, needle, j);
    forall k | 0 <= k < |needle|
      ensures hay[i + j..i + j + |needle|][k] == needle[k]
    {
      assert needle[k] == mid[j..j + |needle|][k] == mid[j + k];
      assert mid[j + k] == hay[i..i + |mid|][j + k];
    }
    assert OccursAt(hay, needle, i + j);
  }

  /** `s.split(c, 1)[1]` */
  function After(s: string, c: char): string
    requires c in s
  {
    if s[0] == c then s[1..] else After(s[1..], c)
  }

  lemma {:induction false} SkipTo(word: string, c: char, rest: string)
    requires c !in word
    ensures After(word + [c] + rest, c) == rest
  {
    var s := word + [c] + rest;
    if word == "" {
      assert s[0] == c && s[1..] == rest;
    } else {
      assert s[0] == word[0] && s[1..] == word[1..] + [c] + rest;
      assert s[|word|] == c && s[1..][|word| - 1] == c;
      SkipTo(word[1..], c, rest);
    }
  }
}
