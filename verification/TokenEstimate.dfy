/** `estimate_tokens`, in exact tenths of a token: 15 for an ideograph, 3 for anything else. */
module TokenEstimate {

  predicate IsWide(c: char) {
    || '\U{4E00}' <= c <= '\U{9FFF}'
    || '\U{3400}' <= c <= '\U{4DBF}'
    || '\U{F900}' <= c <= '\U{FAFF}'
  }

  function CharWeight(c: char): nat { if IsWide(c) then 15 else 3 }

  function Weight(s: string): nat {
    if s == "" then 0 else CharWeight(s[0]) + Weight(s[1..])
  }

  function EstimateTokens(s: string): nat { Weight(s) / 10 }

  method CountTokens(text: string) returns (tokens: nat)
    ensures tokens == EstimateTokens(text)
  {
    if text == "" {
      return 0;
    }
    var wide, other := 0, 0;
    for i := 0 to |text|
      invariant wide >= 0 && other >= 0
      invariant 15 * wide + 3 * other + Weight(text[i..]) == Weight(text)
    {
      assert text[i..][1..] == text[i + 1..];
      if IsWide(text[i]) {
        wide := wide + 1;
      } else {
        other := other + 1;
      }
    }
    tokens := (15 * wide + 3 * other) / 10;
  }

  lemma {:induction false} WeightConcat(a: string, b: string)
    ensures Weight(a + b) == Weight(a) + Weight(b)
  {
    if a == "" {
      assert a + b == b;
    } else {
      assert (a + b)[1..] == a[1..] + b;
      WeightConcat(a[1..], b);
    }
  }

  lemma {:induction false} UniformWeight(s: string, each: nat)
    requires forall i :: 0 <= i < |s| ==> CharWeight(s[i]) == each
    ensures Weight(s) == each * |s|
  {
    if s != "" {
      UniformWeight(s[1..], each);
      assert each * |s| == each + each * (|s| - 1);
    }
  }

  lemma {:induction false} WeightAtMost(s: string)
    ensures 3 * |s| <= Weight(s) <= 15 * |s|
  {
    if s != "" {
      WeightAtMost(s[1..]);
    }
  }

  /** The characters counted as ideographs. */
  function WideIn(s: string): set<nat> {
    set i: nat | i < |s| && ('\U{4E00}' <= s[i] <= '\U{9FFF}' || '\U{3400}' <= s[i] <= '\U{4DBF}' || '\U{F900}' <= s[i] <= '\U{FAFF}')
  }

  /** One and a half tokens an ideograph, three tenths any other character. */
  lemma {:induction false} WeightMeaning(s: string)
    ensures |WideIn(s)| <= |s| && Weight(s) == 15 * |WideIn(s)| + 3 * (|s| - |WideIn(s)|)
  {
    if s == "" {
      assert WideIn(s) == {};
    } else {
      var n := |s| - 1;
      WeightMeaning(s[..n]);
      WeightConcat(s[..n], [s[n]]);
      assert s == s[..n] + [s[n]] && [s[n]][1..] == "";
      assert WideIn(s) == if IsWide(s[n]) then WideIn(s[..n]) + {n} else WideIn(s[..n]);
    }
  }
}
