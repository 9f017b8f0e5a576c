/** Test-point coverage: `validate_testpoint_coverage`, `renumber_test_points`, batching, and the
    stage that validates each batch and then the merged list. */
module TestpointCoverage {
  import opened PyText
  import opened Decimals
  import Grouping

  /** A functional or non-functional requirement; "" stands for a missing id. */
  datatype Requirement = Requirement(id: string, priority: string)

  /** An entry of `test_points`; a JSON value that is not an object carries nothing. */
  datatype Entry = NotObject | Tp(id: string, relatedFr: string)

  datatype CoverageError =
    | NonObjectEntry
    | IdsStartLate(minId: nat)
    | DuplicateIds
    | FrShort(frId: string, count: nat, need: nat)
    | NfrMissing(nfrId: string)
    | TooFewTestPoints(count: nat, requirements: nat)

  datatype Report = Report(
    errors: seq<CoverageError>, tpCount: nat, frCount: nat, nfrCount: nat,
    coveredFr: seq<string>, missingFr: seq<string>, coveredNfr: seq<string>, missingNfr: seq<string>,
    ids: Option<(nat, nat)>)
  {
    predicate Ok() { errors == [] }
  }

  // ---- ids ----

  /** `f"TP-{i:03d}"`. */
  function FormatTpId(i: nat): string {
    var d := Decimal(i);
    "TP-" + (if |d| == 1 then "00" else if |d| == 2 then "0" else "") + d
  }

  predicate IsTpPrefix(s: string) {
    |s| >= 4 && (s[0] == 'T' || s[0] == 't') && (s[1] == 'P' || s[1] == 'p') && s[2] == '-'
  }

  /** `^TP-(\d+)$`, ignoring case, on the stripped id. */
  function ParseTpIdNum(raw: string): Option<nat> {
    var s := Strip(raw);
    if IsTpPrefix(s) && AllDigits(s[3..]) then Some(DigitsValue(s[3..])) else None
  }

  lemma ParseTpDigits(digits: string)
    requires digits != "" && AllDigits(digits)
    ensures ParseTpIdNum("TP-" + digits) == Some(DigitsValue(digits))
  {
    var s := "TP-" + digits;
    assert s[3..] == digits;
    assert s[|s| - 1] == digits[|digits| - 1];
    StripTrimmed(s);
  }

  lemma PaddedValue(d: string, pad: string)
    requires AllDigits(d) && (pad == "" || pad == "0" || pad == "00")
    ensures AllDigits(pad + d) && DigitsValue(pad + d) == DigitsValue(d)
  {
    hide DigitsValue, AllDigits;
    LeadingZero(d);
    LeadingZero("0" + d);
    assert "" + d == d && "00" + d == "0" + ("0" + d);
  }

  lemma TpIdRoundTrip(i: nat)
    ensures ParseTpIdNum(FormatTpId(i)) == Some(i)
  {
    hide DigitsValue, ParseTpIdNum, Decimal;
    var d := Decimal(i);
    DecimalValue(i);
    var pad := if |d| == 1 then "00" else if |d| == 2 then "0" else "";
    PaddedValue(d, pad);
    assert FormatTpId(i) == "TP-" + (pad + d);
    ParseTpDigits(pad + d);
  }

  /** `TP-` and the number, padded to three digits. */
  lemma TpIdShape(i: nat)
    ensures var id := FormatTpId(i);
            && id[..3] == "TP-" && |id| == 3 + (if |Decimal(i)| < 3 then 3 else |Decimal(i)|)
            && AllDigits(id[3..]) && DigitsValue(id[3..]) == i
  {
    hide DigitsValue, AllDigits, Decimal;
    var d := Decimal(i);
    DecimalValue(i);
    var pad := if |d| == 1 then "00" else if |d| == 2 then "0" else "";
    PaddedValue(d, pad);
    assert FormatTpId(i) == "TP-" + (pad + d) && ("TP-" + (pad + d))[3..] == pad + d;
  }

  // ---- what the validator looks at ----

  function MinTpPerFr(priority: string): nat {
    if priority == "P0" || priority == "P1" then 4 else 2
  }

  function Related(e: Entry): string {
    if e.Tp? then Strip(e.relatedFr) else ""
  }

  /** `related_counts[id]`; blank references are not counted. */
  function CountRelated(tps: seq<Entry>, id: string): nat {
    if tps == [] then 0
    else (if id != "" && Related(tps[0]) == id then 1 else 0) + CountRelated(tps[1..], id)
  }

  function EntryNums(e: Entry): seq<nat> {
    if e.Tp? && ParseTpIdNum(e.id).Some? then [ParseTpIdNum(e.id).value] else []
  }

  function IdNums(tps: seq<Entry>): seq<nat> {
    if tps == [] then [] else EntryNums(tps[0]) + IdNums(tps[1..])
  }

  function EntryError(e: Entry): seq<CoverageError> {
    if e.NotObject? then [NonObjectEntry] else []
  }

  function EntryErrors(tps: seq<Entry>): seq<CoverageError> {
    if tps == [] then [] else EntryError(tps[0]) + EntryErrors(tps[1..])
  }

  predicate AllDistinct(s: seq<nat>) {
    forall i, j :: 0 <= i < j < |s| ==> s[i] != s[j]
  }

  function Min(s: seq<nat>): (m: nat)
    requires s != []
    ensures m in s && forall x :: x in s ==> m <= x
  {
    assert s == [s[0]] + s[1..];
    if |s| == 1 then s[0] else if s[0] <= Min(s[1..]) then s[0] else Min(s[1..])
  }

  function Max(s: seq<nat>): (m: nat)
    requires s != []
    ensures m in s && forall x :: x in s ==> x <= m
  {
    assert s == [s[0]] + s[1..];
    if |s| == 1 then s[0] else if s[0] >= Max(s[1..]) then s[0] else Max(s[1..])
  }

  function IdErrors(nums: seq<nat>, requireFull: bool): seq<CoverageError> {
    if nums == [] || !requireFull then []
    else (if Min(nums) > 1 then [IdsStartLate(Min(nums))] else [])
         + (if AllDistinct(nums) then [] else [DuplicateIds])
  }

  /** `{f.get("id"): f for f in fr_list if f.get("id")}`: the last of equal ids wins. */
  function FrMap(frs: seq<Requirement>): map<string, Requirement> {
    if frs == [] then map[]
    else
      var f := frs[|frs| - 1];
      var m := FrMap(frs[..|frs| - 1]);
      if f.id == "" then m else m[f.id := f]
  }

  /** The dictionary's keys in insertion order. */
  function FrKeys(frs: seq<Requirement>): seq<string> {
    if frs == [] then []
    else
      var f := frs[|frs| - 1];
      var ks := FrKeys(frs[..|frs| - 1]);
      if f.id == "" || f.id in ks then ks else ks + [f.id]
  }

  function Ids(rs: seq<Requirement>): seq<string> {
    if rs == [] then []
    else (if rs[0].id == "" then [] else [rs[0].id]) + Ids(rs[1..])
  }

  function FrNeed(frs: map<string, Requirement>, id: string): nat
    requires id in frs
  {
    MinTpPerFr(frs[id].priority)
  }

  function FrError(id: string, frs: map<string, Requirement>, tps: seq<Entry>): seq<CoverageError> {
    if id in frs && CountRelated(tps, id) < FrNeed(frs, id)
    then [FrShort(id, CountRelated(tps, id), FrNeed(frs, id))] else []
  }

  function FrErrors(targets: seq<string>, frs: map<string, Requirement>, tps: seq<Entry>): seq<CoverageError> {
    if targets == [] then [] else FrError(targets[0], frs, tps) + FrErrors(targets[1..], frs, tps)
  }

  function NfrError(id: string, tps: seq<Entry>): seq<CoverageError> {
    if CountRelated(tps, id) < 1 then [NfrMissing(id)] else []
  }

  function NfrErrors(targets: seq<string>, tps: seq<Entry>): seq<CoverageError> {
    if targets == [] then [] else NfrError(targets[0], tps) + NfrErrors(targets[1..], tps)
  }

  function TotalErrors(frCount: nat, nfrCount: nat, tpCount: nat, requireFull: bool): seq<CoverageError> {
    if requireFull && frCount > 0 && nfrCount > 0 && tpCount <= frCount + nfrCount
    then [TooFewTestPoints(tpCount, frCount + nfrCount)] else []
  }

  /** The validator's errors, in order. */
  function Errors(frs: seq<Requirement>, nfrs: seq<Requirement>, tps: seq<Entry>, requireFull: bool,
                  frIds: Option<seq<string>>, nfrIds: Option<seq<string>>): seq<CoverageError>
  {
    EntryErrors(tps)
    + IdErrors(IdNums(tps), requireFull)
    + FrErrors(if frIds.Some? then frIds.value else FrKeys(frs), FrMap(frs), tps)
    + NfrErrors(if nfrIds.Some? then nfrIds.value else Ids(nfrs), tps)
    + TotalErrors(|frs|, |nfrs|, |tps|, requireFull)
  }

  function Tally(tps: seq<Entry>): map<string, nat> {
    if tps == [] then map[]
    else Bump(Tally(tps[..|tps| - 1]), Related(tps[|tps| - 1]))
  }

  function Lookup(m: map<string, nat>, id: string): nat { if id in m then m[id] else 0 }

  /** `if rid: related_counts[rid] += 1` */
  function Bump(m: map<string, nat>, rid: string): map<string, nat> {
    if rid == "" then m else m[rid := 1 + Lookup(m, rid)]
  }

  lemma {:induction false} CountConcat(a: seq<Entry>, b: seq<Entry>, id: string)
    ensures CountRelated(a + b, id) == CountRelated(a, id) + CountRelated(b, id)
  {
    if a == [] {
      assert a + b == b;
    } else {
      assert (a + b)[1..] == a[1..] + b;
      CountConcat(a[1..], b, id);
    }
  }

  /** The counter the loop fills is the count. */
  lemma {:induction false} TallyCounts(tps: seq<Entry>, id: string)
    ensures Lookup(Tally(tps), id) == CountRelated(tps, id)
  {
    if tps != [] {
      var init, last := tps[..|tps| - 1], tps[|tps| - 1];
      TallyCounts(init, id);
      CountConcat(init, [last], id);
      assert tps == init + [last];
      assert CountRelated([last][1..], id) == 0;
    }
  }

  lemma {:induction false} ScanConcat(a: seq<Entry>, b: seq<Entry>)
    ensures EntryErrors(a + b) == EntryErrors(a) + EntryErrors(b)
    ensures IdNums(a + b) == IdNums(a) + IdNums(b)
  {
    hide EntryError, EntryNums;
    if a == [] {
      assert a + b == b;
    } else {
      assert (a + b)[1..] == a[1..] + b;
      ScanConcat(a[1..], b);
    }
  }

  lemma ScanSnoc(tps: seq<Entry>, i: nat)
    requires i < |tps|
    ensures EntryErrors(tps[..i + 1]) == EntryErrors(tps[..i]) + EntryError(tps[i])
    ensures IdNums(tps[..i + 1]) == IdNums(tps[..i]) + EntryNums(tps[i])
    ensures Tally(tps[..i + 1]) == Bump(Tally(tps[..i]), Related(tps[i]))
  {
    hide ParseTpIdNum, Strip;
    var init, last := tps[..i], [tps[i]];
    assert tps[..i + 1] == init + last && (init + last)[..i] == init;
    ScanConcat(init, last);
    assert last[1..] == [];
    assert EntryErrors(last) == EntryError(tps[i]) + [] && IdNums(last) == EntryNums(tps[i]) + [];
  }

  /** The first loop: non-objects, the counter, the id numbers. */
  method ScanEntries(tps: seq<Entry>) returns (errors: seq<CoverageError>, counts: map<string, nat>, idNums: seq<nat>)
    ensures errors == EntryErrors(tps) && idNums == IdNums(tps) && counts == Tally(tps)
  {
    errors, counts, idNums := [], map[], [];
    for i := 0 to |tps|
      invariant errors == EntryErrors(tps[..i]) && idNums == IdNums(tps[..i]) && counts == Tally(tps[..i])
    {
      hide ParseTpIdNum, Strip, EntryErrors, IdNums, Tally;
      var tp := tps[i];
      ScanSnoc(tps, i);
      if tp.NotObject? {
        errors := errors + [NonObjectEntry];
      } else {
        counts := Bump(counts, Strip(tp.relatedFr));
        var num := ParseTpIdNum(tp.id);
        if num.Some? {
          idNums := idNums + [num.value];
        }
      }
    }
    assert tps[..|tps|] == tps;
  }

  function Filter(ids: seq<string>, p: string -> bool): (r: seq<string>)
    ensures forall id :: id in r ==> id in ids && p(id)
  {
    if ids == [] then [] else (if p(ids[0]) then [ids[0]] else []) + Filter(ids[1..], p)
  }

  function IsShort(frs: map<string, Requirement>, tps: seq<Entry>): string -> bool {
    id => id in frs && CountRelated(tps, id) < FrNeed(frs, id)
  }

  function IsCovered(frs: map<string, Requirement>, tps: seq<Entry>): string -> bool {
    id => id in frs && CountRelated(tps, id) >= FrNeed(frs, id)
  }

  function IsMentioned(tps: seq<Entry>, mentioned: bool): string -> bool {
    id => (CountRelated(tps, id) >= 1) == mentioned
  }

  lemma {:induction false} FilterSnoc(ids: seq<string>, i: nat, p: string -> bool)
    requires i < |ids|
    ensures Filter(ids[..i + 1], p) == Filter(ids[..i], p) + (if p(ids[i]) then [ids[i]] else [])
  {
    FilterConcat(ids[..i], [ids[i]], p);
    assert ids[..i + 1] == ids[..i] + [ids[i]];
    assert [ids[i]][1..] == [];
  }

  lemma {:induction false} FilterConcat(a: seq<string>, b: seq<string>, p: string -> bool)
    ensures Filter(a + b, p) == Filter(a, p) + Filter(b, p)
  {
    if a == [] {
      assert a + b == b;
    } else {
      assert (a + b)[1..] == a[1..] + b;
      FilterConcat(a[1..], b, p);
    }
  }

  lemma {:induction false} FrErrorsConcat(a: seq<string>, b: seq<string>, frs: map<string, Requirement>, tps: seq<Entry>)
    ensures FrErrors(a + b, frs, tps) == FrErrors(a, frs, tps) + FrErrors(b, frs, tps)
  {
    hide FrError;
    if a == [] {
      assert a + b == b;
    } else {
      assert (a + b)[1..] == a[1..] + b && (a + b)[0] == a[0];
      FrErrorsConcat(a[1..], b, frs, tps);
      Reassociate(FrError(a[0], frs, tps), FrErrors(a[1..], frs, tps), FrErrors(b, frs, tps));
    }
  }

  lemma {:induction false} NfrErrorsConcat(a: seq<string>, b: seq<string>, tps: seq<Entry>)
    ensures NfrErrors(a + b, tps) == NfrErrors(a, tps) + NfrErrors(b, tps)
  {
    hide NfrError;
    if a == [] {
      assert a + b == b;
    } else {
      assert (a + b)[1..] == a[1..] + b && (a + b)[0] == a[0];
      NfrErrorsConcat(a[1..], b, tps);
      Reassociate(NfrError(a[0], tps), NfrErrors(a[1..], tps), NfrErrors(b, tps));
    }
  }

  lemma ErrorsSnoc(targets: seq<string>, i: nat, frs: map<string, Requirement>, tps: seq<Entry>)
    requires i < |targets|
    ensures FrErrors(targets[..i + 1], frs, tps) == FrErrors(targets[..i], frs, tps) + FrError(targets[i], frs, tps)
    ensures NfrErrors(targets[..i + 1], tps) == NfrErrors(targets[..i], tps) + NfrError(targets[i], tps)
  {
    hide FrError, NfrError;
    var last := [targets[i]];
    FrErrorsConcat(targets[..i], last, frs, tps);
    NfrErrorsConcat(targets[..i], last, tps);
    assert targets[..i + 1] == targets[..i] + last && last[1..] == [];
  }

  method CheckFrs(targets: seq<string>, frs: map<string, Requirement>, counts: map<string, nat>, ghost tps: seq<Entry>)
    returns (errors: seq<CoverageError>, covered: seq<string>, missing: seq<string>)
    requires forall id :: Lookup(counts, id) == CountRelated(tps, id)
    ensures errors == FrErrors(targets, frs, tps)
    ensures missing == Filter(targets, IsShort(frs, tps)) && covered == Filter(targets, IsCovered(frs, tps))
  {
    errors, covered, missing := [], [], [];
    for i := 0 to |targets|
      invariant errors == FrErrors(targets[..i], frs, tps)
      invariant missing == Filter(targets[..i], IsShort(frs, tps))
      invariant covered == Filter(targets[..i], IsCovered(frs, tps))
    {
      hide CountRelated, FrErrors, Filter;
      var id := targets[i];
      FilterSnoc(targets, i, IsShort(frs, tps));
      FilterSnoc(targets, i, IsCovered(frs, tps));
      ErrorsSnoc(targets, i, frs, tps);
      if id in frs {
        var cnt, need := Lookup(counts, id), MinTpPerFr(frs[id].priority);
        if cnt < need {
          missing := missing + [id];
          errors := errors + [FrShort(id, cnt, need)];
        } else {
          covered := covered + [id];
        }
      }
    }
    assert targets[..|targets|] == targets;
  }

  method CheckNfrs(targets: seq<string>, counts: map<string, nat>, ghost tps: seq<Entry>)
    returns (errors: seq<CoverageError>, covered: seq<string>, missing: seq<string>)
    requires forall id :: Lookup(counts, id) == CountRelated(tps, id)
    ensures errors == NfrErrors(targets, tps)
    ensures missing == Filter(targets, IsMentioned(tps, false)) && covered == Filter(targets, IsMentioned(tps, true))
  {
    errors, covered, missing := [], [], [];
    for i := 0 to |targets|
      invariant errors == NfrErrors(targets[..i], tps)
      invariant missing == Filter(targets[..i], IsMentioned(tps, false))
      invariant covered == Filter(targets[..i], IsMentioned(tps, true))
    {
      hide CountRelated, NfrErrors, Filter;
      var id := targets[i];
      FilterSnoc(targets, i, IsMentioned(tps, false));
      FilterSnoc(targets, i, IsMentioned(tps, true));
      ErrorsSnoc(targets, i, map[], tps);
      if Lookup(counts, id) < 1 {
        missing := missing + [id];
        errors := errors + [NfrMissing(id)];
      } else {
        covered := covered + [id];
      }
    }
    assert targets[..|targets|] == targets;
  }

  method ValidateTestpointCoverage(frs: seq<Requirement>, nfrs: seq<Requirement>, tps: seq<Entry>, requireFull: bool,
                                   frIds: Option<seq<string>>, nfrIds: Option<seq<string>>)
    returns (report: Report)
    ensures report.errors == Errors(frs, nfrs, tps, requireFull, frIds, nfrIds)
    ensures report.tpCount == |tps| && report.frCount == |frs| && report.nfrCount == |nfrs|
    ensures var targets := if frIds.Some? then frIds.value else FrKeys(frs);
            && report.missingFr == Filter(targets, IsShort(FrMap(frs), tps))
            && report.coveredFr == Filter(targets, IsCovered(FrMap(frs), tps))
    ensures var targets := if nfrIds.Some? then nfrIds.value else Ids(nfrs);
            && report.missingNfr == Filter(targets, IsMentioned(tps, false))
            && report.coveredNfr == Filter(targets, IsMentioned(tps, true))
    ensures report.ids == if IdNums(tps) == [] then None else Some((Min(IdNums(tps)), Max(IdNums(tps))))
  {
    hide EntryErrors, IdErrors, FrErrors, NfrErrors, IdNums, CountRelated, FrMap, FrKeys, Ids, Filter;
    var frMap := FrMap(frs);
    var targetFr := if frIds.Some? then frIds.value else FrKeys(frs);
    var targetNfr := if nfrIds.Some? then nfrIds.value else Ids(nfrs);
    var errors, counts, idNums := ScanEntries(tps);
    forall id ensures Lookup(counts, id) == CountRelated(tps, id) {
      TallyCounts(tps, id);
    }
    var ids := if idNums == [] then None else Some((Min(idNums), Max(idNums)));
    errors := errors + IdErrors(idNums, requireFull);
    var frErrors, coveredFr, missingFr := CheckFrs(targetFr, frMap, counts, tps);
    var nfrErrors, coveredNfr, missingNfr := CheckNfrs(targetNfr, counts, tps);
    errors := errors + frErrors + nfrErrors;
    if requireFull && frs != [] && nfrs != [] && |tps| <= |frs| + |nfrs| {
      errors := errors + [TooFewTestPoints(|tps|, |frs| + |nfrs|)];
    }
    report := Report(errors, |tps|, |frs|, |nfrs|, coveredFr, missingFr, coveredNfr, missingNfr, ids);
  }

  // ---- renumbering and batching ----

  function RenumberEntry(e: Entry, i: nat): seq<Entry> {
    if e.NotObject? then [] else [e.(id := FormatTpId(i))]
  }

  function RenumberFrom(tps: seq<Entry>, i: nat): seq<Entry> {
    if tps == [] then [] else RenumberEntry(tps[0], i) + RenumberFrom(tps[1..], i + 1)
  }

  function Renumber(tps: seq<Entry>): seq<Entry> { RenumberFrom(tps, 1) }

  method RenumberTestPoints(tps: seq<Entry>) returns (out: seq<Entry>)
    ensures out == Renumber(tps)
  {
    out := [];
    assert tps[0..] == tps;
    for i := 0 to |tps|
      invariant out + RenumberFrom(tps[i..], i + 1) == Renumber(tps)
    {
      hide FormatTpId, RenumberFrom, Renumber;
      RenumberStep(tps, i);
      Reassociate(out, RenumberEntry(tps[i], i + 1), RenumberFrom(tps[i + 1..], i + 2));
      if !tps[i].NotObject? {
        out := out + [tps[i].(id := FormatTpId(i + 1))];
      } else {
        assert out + [] == out;
      }
    }
    assert out + [] == out;
  }

  lemma RenumberStep(tps: seq<Entry>, i: nat)
    requires i < |tps|
    ensures RenumberFrom(tps[i..], i + 1) == RenumberEntry(tps[i], i + 1) + RenumberFrom(tps[i + 1..], i + 2)
  {
    hide RenumberEntry;
    assert tps[i..][1..] == tps[i + 1..];
  }

  function Chunks<T>(s: seq<T>, size: nat): seq<seq<T>>
    requires size >= 1
  {
    if s == [] then []
    else if |s| <= size then [s]
    else [s[..size]] + Chunks(s[size..], size)
  }

  method SplitFrBatches(frs: seq<Requirement>, size: nat) returns (batches: seq<seq<Requirement>>)
    requires size >= 1
    ensures batches == Chunks(frs, size)
  {
    batches := [];
    var i := 0;
    while i < |frs|
      invariant batches + Chunks(if i < |frs| then frs[i..] else [], size) == Chunks(frs, size)
    {
      var end := if i + size < |frs| then i + size else |frs|;
      assert frs[i..][..end - i] == frs[i..end];
      assert end < |frs| ==> frs[i..][size..] == frs[end..];
      assert end == |frs| ==> frs[i..end] == frs[i..];
      assert end == |frs| ==> Chunks(frs[i..], size) == [frs[i..end]] + Chunks([], size);
      batches := batches + [frs[i..end]];
      i := i + size;
    }
  }

  function Concat<T>(ss: seq<seq<T>>): seq<T> {
    if ss == [] then [] else ss[0] + Concat(ss[1..])
  }

  lemma {:induction false} ChunksConcat<T>(s: seq<T>, size: nat)
    requires size >= 1
    ensures Concat(Chunks(s, size)) == s
  {
    if |s| > size {
      ChunksConcat(s[size..], size);
      assert s == s[..size] + s[size..];
    } else if s != [] {
      assert Concat([s]) == s + Concat([s][1..]);
    }
  }

  // ---- the stage ----

  datatype Batch = Batch(frs: seq<Requirement>, nfrs: seq<Requirement>)

  function FrSpecs(chunks: seq<seq<Requirement>>): seq<Batch> {
    if chunks == [] then [] else [Batch(chunks[0], [])] + FrSpecs(chunks[1..])
  }

  function NfrSpecs(chunks: seq<seq<Requirement>>): seq<Batch> {
    if chunks == [] then [] else [Batch([], chunks[0])] + NfrSpecs(chunks[1..])
  }

  function BatchSpecs(frs: seq<Requirement>, nfrs: seq<Requirement>, frSize: nat, nfrSize: nat): seq<Batch>
    requires frSize >= 1 && nfrSize >= 1
  {
    FrSpecs(Chunks(frs, frSize)) + NfrSpecs(Chunks(nfrs, nfrSize))
  }

  predicate BatchOk(b: Batch, tps: seq<Entry>) {
    Errors(b.frs, b.nfrs, tps, false, Some(Ids(b.frs)), Some(Ids(b.nfrs))) == []
  }

  /** In all cases but the first the stage raises. */
  datatype StageResult =
    | Done(testPoints: seq<Entry>, healedWhole: bool)
    | NothingToDo
    | BatchFailed(index: nat)
    | CoverageFailed

  /** The agents' answers: what each batch returned, what healing it returned, and what healing the
      merged list would return; None where the call raises. */
  datatype Answers = Answers(
    first: nat -> Option<seq<Entry>>, healed: nat -> Option<seq<Entry>>, healedWhole: seq<Entry> -> Option<seq<Entry>>)

  function BatchAnswer(b: Batch, i: nat, a: Answers): Option<seq<Entry>> {
    if a.first(i).None? || BatchOk(b, a.first(i).value) then a.first(i)
    else if a.healed(i).None? || BatchOk(b, a.healed(i).value) then a.healed(i)
    else None
  }

  method RunBatch(b: Batch, i: nat, a: Answers) returns (r: Option<seq<Entry>>)
    ensures r == BatchAnswer(b, i, a)
  {
    r := a.first(i);
    if r.None? {
      return;
    }
    var cov := ValidateTestpointCoverage(b.frs, b.nfrs, r.value, false, Some(Ids(b.frs)), Some(Ids(b.nfrs)));
    if cov.Ok() {
      return;
    }
    r := a.healed(i);
    if r.None? {
      return;
    }
    cov := ValidateTestpointCoverage(b.frs, b.nfrs, r.value, false, Some(Ids(b.frs)), Some(Ids(b.nfrs)));
    if !cov.Ok() {
      r := None;
    }
  }

  datatype Gathered = Gathered(parts: seq<seq<Entry>>) | FailedAt(index: nat)

  /** The answers of the first `n` batches, up to the first one that fails. */
  function Gather(specs: seq<Batch>, a: Answers, n: nat): Gathered
    requires n <= |specs|
  {
    if n == 0 then Gathered([])
    else
      match Gather(specs, a, n - 1)
      case FailedAt(i) => FailedAt(i)
      case Gathered(parts) =>
        match BatchAnswer(specs[n - 1], n - 1, a)
        case None => FailedAt(n - 1)
        case Some(tps) => Gathered(parts + [tps])
  }

  /** The merged list renumbered, or the whole list healed and renumbered if that fails validation. */
  function Finished(frs: seq<Requirement>, nfrs: seq<Requirement>, parts: seq<seq<Entry>>, a: Answers): StageResult {
    var tps := Renumber(Concat(parts));
    if Errors(frs, nfrs, tps, true, None, None) == [] then Done(tps, false)
    else
      match a.healedWhole(tps)
      case None => CoverageFailed
      case Some(healed) =>
        if Errors(frs, nfrs, Renumber(healed), true, None, None) == [] then Done(Renumber(healed), true) else CoverageFailed
  }

  function Stage(frs: seq<Requirement>, nfrs: seq<Requirement>, frSize: nat, nfrSize: nat, a: Answers): StageResult
    requires frSize >= 1 && nfrSize >= 1
  {
    var specs := BatchSpecs(frs, nfrs, frSize, nfrSize);
    if specs == [] then NothingToDo
    else
      match Gather(specs, a, |specs|)
      case FailedAt(i) => BatchFailed(i)
      case Gathered(parts) => Finished(frs, nfrs, parts, a)
  }

  method RunTestpointDesignStage(frs: seq<Requirement>, nfrs: seq<Requirement>, frSize: nat, nfrSize: nat, a: Answers)
    returns (r: StageResult)
    requires frSize >= 1 && nfrSize >= 1
    ensures r == Stage(frs, nfrs, frSize, nfrSize, a)
  {
    hide Errors, Ids, Renumber, FrSpecs, NfrSpecs, Chunks, BatchAnswer;
    var frBatches := SplitFrBatches(frs, frSize);
    var nfrBatches := SplitFrBatches(nfrs, nfrSize);
    var specs := FrSpecs(frBatches) + NfrSpecs(nfrBatches);
    if specs == [] {
      return NothingToDo;
    }
    ghost var parts: seq<seq<Entry>> := [];
    var merged: seq<Entry> := [];
    for i := 0 to |specs|
      invariant Gather(specs, a, i) == Gathered(parts) && merged == Concat(parts)
    {
      var answer := RunBatch(specs[i], i, a);
      if answer.None? {
        FailureStays(specs, a, i, |specs|);
        return BatchFailed(i);
      }
      var tps := answer.value;
      ConcatSnoc(parts, tps);
      merged := merged + tps;
      parts := parts + [tps];
    }
    r := FinishStage(frs, nfrs, merged, parts, a);
  }

  /** The end of the stage: full validation and, at the last, healing of the whole list. */
  method FinishStage(frs: seq<Requirement>, nfrs: seq<Requirement>, merged: seq<Entry>, ghost parts: seq<seq<Entry>>, a: Answers)
    returns (r: StageResult)
    requires merged == Concat(parts)
    ensures r == Finished(frs, nfrs, parts, a)
  {
    hide Errors, Renumber;
    var testPoints := RenumberTestPoints(merged);
    var coverage := ValidateTestpointCoverage(frs, nfrs, testPoints, true, None, None);
    if coverage.Ok() {
      return Done(testPoints, false);
    }
    var healed := a.healedWhole(testPoints);
    if healed.None? {
      return CoverageFailed;
    }
    testPoints := RenumberTestPoints(healed.value);
    coverage := ValidateTestpointCoverage(frs, nfrs, testPoints, true, None, None);
    if !coverage.Ok() {
      return CoverageFailed;
    }
    return Done(testPoints, true);
  }

  lemma {:induction false} GatherMeans(specs: seq<Batch>, a: Answers, n: nat)
    requires n <= |specs|
    ensures var g := Gather(specs, a, n);
            && (g.Gathered? ==> |g.parts| == n && forall i :: 0 <= i < n ==> BatchAnswer(specs[i], i, a) == Some(g.parts[i]))
            && (g.FailedAt? ==> g.index < n && BatchAnswer(specs[g.index], g.index, a) == None)
  {
    hide BatchAnswer;
    if n > 0 {
      GatherMeans(specs, a, n - 1);
    }
  }

  lemma {:induction false} FailureStays(specs: seq<Batch>, a: Answers, i: nat, n: nat)
    requires i < n <= |specs| && Gather(specs, a, i).Gathered? && BatchAnswer(specs[i], i, a) == None
    ensures Gather(specs, a, n) == FailedAt(i)
    decreases n
  {
    hide BatchAnswer;
    if n > i + 1 {
      FailureStays(specs, a, i, n - 1);
    }
  }

  lemma {:induction false} ConcatSnoc<T>(ss: seq<seq<T>>, s: seq<T>)
    ensures Concat(ss + [s]) == Concat(ss) + s
  {
    if ss == [] {
      assert ([s])[1..] == [] && ss + [s] == [s];
      assert Concat([s]) == s + [];
    } else {
      assert (ss + [s])[1..] == ss[1..] + [s];
      ConcatSnoc(ss[1..], s);
    }
  }

  // ---- what passing means ----

  /** An id and how many test points must refer to it. */
  datatype Demand = Demand(id: string, count: nat)

  lemma {:induction false} KeysOfMap(frs: seq<Requirement>)
    ensures forall id :: id in FrKeys(frs) <==> id in FrMap(frs)
    ensures forall i :: 0 <= i < |FrKeys(frs)| ==> FrKeys(frs)[i] in FrMap(frs) && FrKeys(frs)[i] != ""
    ensures Grouping.NoRepeats(FrKeys(frs))
  {
    if frs != [] {
      KeysOfMap(frs[..|frs| - 1]);
    }
  }

  function FrDemands(frs: seq<Requirement>): (ds: seq<Demand>)
    ensures |ds| == |FrKeys(frs)|
  {
    KeysOfMap(frs);
    seq(|FrKeys(frs)|, i requires 0 <= i < |FrKeys(frs)| => Demand(FrKeys(frs)[i], FrNeed(FrMap(frs), FrKeys(frs)[i])))
  }

  function NfrDemands(nfrs: seq<Requirement>): (ds: seq<Demand>)
    ensures |ds| == |Grouping.Distinct(Ids(nfrs))|
  {
    seq(|Grouping.Distinct(Ids(nfrs))|, i requires 0 <= i < |Grouping.Distinct(Ids(nfrs))| => Demand(Grouping.Distinct(Ids(nfrs))[i], 1))
  }

  function Demands(b: Batch): seq<Demand> { FrDemands(b.frs) + NfrDemands(b.nfrs) }

  predicate Meets(tps: seq<Entry>, ds: seq<Demand>) {
    forall i :: 0 <= i < |ds| ==> CountRelated(tps, ds[i].id) >= ds[i].count
  }

  predicate AllObjects(tps: seq<Entry>) {
    forall i :: 0 <= i < |tps| ==> tps[i].Tp?
  }

  lemma {:induction false} EntryErrorsNone(tps: seq<Entry>)
    ensures EntryErrors(tps) == [] <==> AllObjects(tps)
  {
    if tps != [] {
      EntryErrorsNone(tps[1..]);
      assert forall i :: 0 < i < |tps| ==> tps[i] == tps[1..][i - 1];
    }
  }

  lemma {:induction false} FrErrorsNone(targets: seq<string>, frs: map<string, Requirement>, tps: seq<Entry>)
    ensures FrErrors(targets, frs, tps) == []
            <==> forall id :: id in targets && id in frs ==> CountRelated(tps, id) >= FrNeed(frs, id)
  {
    hide CountRelated;
    if targets != [] {
      FrErrorsNone(targets[1..], frs, tps);
      assert forall id :: id in targets <==> id == targets[0] || id in targets[1..];
    }
  }

  lemma NfrStep(targets: seq<string>, tps: seq<Entry>)
    requires targets != []
    ensures NfrErrors(targets, tps) == [] <==> CountRelated(tps, targets[0]) >= 1 && NfrErrors(targets[1..], tps) == []
  {
    hide CountRelated;
  }

  lemma {:induction false} NfrErrorsNone(targets: seq<string>, tps: seq<Entry>)
    ensures NfrErrors(targets, tps) == [] <==> forall id :: id in targets ==> CountRelated(tps, id) >= 1
  {
    hide CountRelated;
    if targets != [] {
      NfrStep(targets, tps);
      NfrErrorsNone(targets[1..], tps);
      hide NfrErrors;
      assert forall id :: id in targets <==> id == targets[0] || id in targets[1..];
    }
  }

  lemma FrErrorsMeet(targets: seq<string>, frs: seq<Requirement>, tps: seq<Entry>)
    requires forall id :: id in targets <==> id in FrMap(frs)
    ensures FrErrors(targets, FrMap(frs), tps) == [] <==> Meets(tps, FrDemands(frs))
  {
    hide FrErrors, CountRelated, FrMap, FrKeys, FrNeed;
    KeysOfMap(frs);
    FrErrorsNone(targets, FrMap(frs), tps);
    var keys, ds := FrKeys(frs), FrDemands(frs);
    if Meets(tps, ds) {
      forall id | id in targets && id in FrMap(frs) ensures CountRelated(tps, id) >= FrNeed(FrMap(frs), id) {
        var i :| 0 <= i < |keys| && keys[i] == id;
        assert ds[i] == Demand(id, FrNeed(FrMap(frs), id));
      }
    }
    if FrErrors(targets, FrMap(frs), tps) == [] {
      forall i | 0 <= i < |ds| ensures CountRelated(tps, ds[i].id) >= ds[i].count {
        assert keys[i] in targets;
      }
    }
  }

  lemma NfrErrorsMeet(nfrs: seq<Requirement>, tps: seq<Entry>)
    ensures NfrErrors(Ids(nfrs), tps) == [] <==> Meets(tps, NfrDemands(nfrs))
  {
    hide NfrErrors, CountRelated, Ids, Grouping.Distinct;
    NfrErrorsNone(Ids(nfrs), tps);
    Grouping.InDistinct(Ids(nfrs));
    var keys, ds := Grouping.Distinct(Ids(nfrs)), NfrDemands(nfrs);
    if Meets(tps, ds) {
      forall id | id in Ids(nfrs) ensures CountRelated(tps, id) >= 1 {
        var i :| 0 <= i < |keys| && keys[i] == id;
        assert ds[i] == Demand(id, 1);
      }
    }
    if NfrErrors(Ids(nfrs), tps) == [] {
      forall i | 0 <= i < |ds| ensures CountRelated(tps, ds[i].id) >= ds[i].count {
        assert keys[i] in Ids(nfrs);
      }
    }
  }

  lemma MeetsConcat(tps: seq<Entry>, a: seq<Demand>, b: seq<Demand>)
    ensures Meets(tps, a + b) <==> Meets(tps, a) && Meets(tps, b)
  {
    hide CountRelated;
    assert forall i :: 0 <= i < |a| ==> (a + b)[i] == a[i];
    assert forall i :: 0 <= i < |b| ==> (a + b)[|a| + i] == b[i];
  }

  lemma {:induction false} IdsAreKeys(frs: seq<Requirement>)
    ensures forall id :: id in Ids(frs) <==> id in FrMap(frs)
  {
    if frs != [] {
      var n := |frs| - 1;
      IdsAreKeys(frs[..n]);
      IdsConcat(frs[..n], [frs[n]]);
      assert frs[..n] + [frs[n]] == frs && [frs[n]][1..] == [];
    }
  }

  lemma {:induction false} IdsConcat(a: seq<Requirement>, b: seq<Requirement>)
    ensures Ids(a + b) == Ids(a) + Ids(b)
  {
    if a == [] {
      assert a + b == b;
    } else {
      assert (a + b)[1..] == a[1..] + b;
      IdsConcat(a[1..], b);
    }
  }

  /** A batch passes exactly when its entries are objects and meet its demands. */
  lemma BatchOkIff(b: Batch, tps: seq<Entry>)
    ensures BatchOk(b, tps) <==> AllObjects(tps) && Meets(tps, Demands(b))
  {
    hide EntryErrors, FrErrors, NfrErrors, Meets, AllObjects, Ids, FrMap, FrDemands, NfrDemands;
    EntryErrorsNone(tps);
    IdsAreKeys(b.frs);
    FrErrorsMeet(Ids(b.frs), b.frs, tps);
    NfrErrorsMeet(b.nfrs, tps);
    MeetsConcat(tps, FrDemands(b.frs), NfrDemands(b.nfrs));
  }

  // ---- passing, without the validator's own functions ----

  /** The test points that refer to `id`. */
  function Referring(tps: seq<Entry>, id: string): set<nat> {
    set i: nat | i < |tps| && tps[i].Tp? && Strip(tps[i].relatedFr) == id
  }

  lemma ReferringLast(tps: seq<Entry>, id: string)
    requires tps != []
    ensures var n := |tps| - 1;
            && n !in Referring(tps[..n], id)
            && Referring(tps, id) == Referring(tps[..n], id) + if tps[n].Tp? && Strip(tps[n].relatedFr) == id then {n} else {}
  {
    hide Strip;
  }

  lemma CountLast(tps: seq<Entry>, id: string)
    requires tps != [] && id != ""
    ensures var n := |tps| - 1;
            CountRelated(tps, id) == CountRelated(tps[..n], id) + if tps[n].Tp? && Strip(tps[n].relatedFr) == id then 1 else 0
  {
    hide Strip;
    var n := |tps| - 1;
    CountConcat(tps[..n], [tps[n]], id);
    assert tps == tps[..n] + [tps[n]];
    assert CountRelated([tps[n]][1..], id) == 0;
  }

  lemma {:induction false} CountIsReferring(tps: seq<Entry>, id: string)
    requires id != ""
    ensures CountRelated(tps, id) == |Referring(tps, id)|
  {
    if tps == [] {
      assert Referring(tps, id) == {};
    } else {
      CountIsReferring(tps[..|tps| - 1], id);
      CountLast(tps, id);
      ReferringLast(tps, id);
      hide CountRelated, Referring, Strip;
    }
  }

  /** `rs[i]` is the last requirement with its id. */
  predicate LastWithId(rs: seq<Requirement>, i: nat) {
    i < |rs| && rs[i].id != "" && forall j :: i < j < |rs| ==> rs[j].id != rs[i].id
  }

  /** Looking at one more requirement at the end. */
  lemma LastSnoc(rs: seq<Requirement>)
    requires rs != []
    ensures var n := |rs| - 1;
            forall i: nat :: LastWithId(rs, i) <==>
              if i < n then LastWithId(rs[..n], i) && rs[i].id != rs[n].id else i == n && rs[n].id != ""
  {
  }

  lemma {:induction false} FrMapHoldsLast(rs: seq<Requirement>, i: nat)
    requires LastWithId(rs, i)
    ensures rs[i].id in FrMap(rs) && FrMap(rs)[rs[i].id] == rs[i]
    decreases |rs|
  {
    var n := |rs| - 1;
    if i < n {
      LastSnoc(rs);
      FrMapHoldsLast(rs[..n], i);
    }
  }

  lemma {:induction false} KeyHasLast(rs: seq<Requirement>, id: string) returns (i: nat)
    requires id in FrMap(rs)
    ensures LastWithId(rs, i) && i < |rs| && rs[i].id == id
  {
    var n := |rs| - 1;
    if rs[n].id == id && id != "" {
      i := n;
    } else {
      i := KeyHasLast(rs[..n], id);
    }
  }

  /** Enough test points refer to every functional requirement: four of the two highest priorities, two of
      the others; of equal ids the last counts. */
  ghost predicate FrsCovered(frs: seq<Requirement>, tps: seq<Entry>) {
    forall i: nat :: LastWithId(frs, i) ==>
      |Referring(tps, frs[i].id)| >= if frs[i].priority in ["P0", "P1"] then 4 else 2
  }

  /** Some test point refers to every non-functional requirement. */
  predicate NfrsCovered(nfrs: seq<Requirement>, tps: seq<Entry>) {
    forall i :: 0 <= i < |nfrs| && nfrs[i].id != "" ==> |Referring(tps, nfrs[i].id)| >= 1
  }

  lemma FrErrorsMeaning(targets: seq<string>, frs: seq<Requirement>, tps: seq<Entry>)
    requires forall id :: id in targets <==> id in FrMap(frs)
    ensures FrErrors(targets, FrMap(frs), tps) == [] <==> FrsCovered(frs, tps)
  {
    hide FrErrors, CountRelated, FrMap, Referring, MinTpPerFr;
    FrErrorsNone(targets, FrMap(frs), tps);
    forall i: nat | i < |frs| && LastWithId(frs, i)
      ensures frs[i].id in targets && CountRelated(tps, frs[i].id) == |Referring(tps, frs[i].id)|
      ensures FrNeed(FrMap(frs), frs[i].id) == if frs[i].priority in ["P0", "P1"] then 4 else 2
    {
      LastHasId(frs, i);
      FrMapHoldsLast(frs, i);
      CountIsReferring(tps, frs[i].id);
      NeedOf(frs[i].priority);
    }
    if FrsCovered(frs, tps) {
      forall id | id in targets && id in FrMap(frs) ensures CountRelated(tps, id) >= FrNeed(FrMap(frs), id) {
        var i := KeyHasLast(frs, id);
      }
    }
  }

  lemma LastHasId(rs: seq<Requirement>, i: nat)
    requires LastWithId(rs, i)
    ensures i < |rs| && rs[i].id != ""
  {
  }

  lemma NeedOf(priority: string)
    ensures MinTpPerFr(priority) == if priority in ["P0", "P1"] then 4 else 2
  {
  }

  lemma NfrErrorsMeaning(nfrs: seq<Requirement>, tps: seq<Entry>)
    ensures NfrErrors(Ids(nfrs), tps) == [] <==> NfrsCovered(nfrs, tps)
  {
    hide NfrErrors, CountRelated, Ids, Referring;
    NfrErrorsNone(Ids(nfrs), tps);
    forall i | 0 <= i < |nfrs| && nfrs[i].id != ""
      ensures nfrs[i].id in Ids(nfrs) && CountRelated(tps, nfrs[i].id) == |Referring(tps, nfrs[i].id)|
    {
      IdListed(nfrs, i);
      CountIsReferring(tps, nfrs[i].id);
    }
    if NfrsCovered(nfrs, tps) {
      forall id | id in Ids(nfrs) ensures CountRelated(tps, id) >= 1 {
        NoBlankIds(nfrs, id);
        var i :| 0 <= i < |nfrs| && nfrs[i].id == id;
      }
    }
  }

  /** Test point `i` carries the number `v`. */
  predicate Numbered(tps: seq<Entry>, i: int, v: nat) {
    0 <= i < |tps| && tps[i].Tp? && ParseTpIdNum(tps[i].id) == Some(v)
  }

  predicate OneEach(tps: seq<Entry>) {
    forall i, j :: 0 <= i < j < |tps| && tps[i].Tp? && ParseTpIdNum(tps[i].id).Some? ==>
                     !Numbered(tps, j, ParseTpIdNum(tps[i].id).value)
  }

  /** No two test points carry the same number, and one numbered at most 1 exists if any is numbered. */
  ghost predicate NumbersFine(tps: seq<Entry>) {
    && OneEach(tps)
    && ((exists i, v: nat :: Numbered(tps, i, v)) ==> exists i, v: nat :: Numbered(tps, i, v) && v <= 1)
  }

  lemma NumberedShift(tps: seq<Entry>)
    requires tps != []
    ensures forall i, v: nat :: i > 0 ==> (Numbered(tps, i, v) <==> Numbered(tps[1..], i - 1, v))
    ensures forall i, v: nat :: i >= 0 ==> (Numbered(tps[1..], i, v) <==> Numbered(tps, i + 1, v))
  {
    hide ParseTpIdNum;
    assert forall i :: 0 < i < |tps| ==> tps[i] == tps[1..][i - 1];
  }

  lemma {:induction false} NumbersListed(tps: seq<Entry>)
    ensures forall v: nat :: v in IdNums(tps) <==> exists i :: Numbered(tps, i, v)
  {
    hide ParseTpIdNum;
    if tps != [] {
      NumbersListed(tps[1..]);
      FirstNumber(tps);
      NumberedShift(tps);
      forall v: nat ensures v in IdNums(tps) <==> exists i :: Numbered(tps, i, v) {
        assert v in IdNums(tps) <==> Numbered(tps, 0, v) || v in IdNums(tps[1..]);
        if i :| Numbered(tps[1..], i, v) {
          assert Numbered(tps, i + 1, v);
        }
        if i :| Numbered(tps, i, v) {
          assert i > 0 ==> Numbered(tps[1..], i - 1, v);
        }
      }
    }
  }

  lemma {:induction false} NumbersDistinct(tps: seq<Entry>)
    ensures AllDistinct(IdNums(tps)) <==> OneEach(tps)
  {
    hide ParseTpIdNum, AllDistinct;
    if tps == [] {
      NoneDistinct();
    } else {
      NumbersDistinct(tps[1..]);
      FirstNumber(tps);
      NumbersListed(tps[1..]);
      OneEachStep(tps);
      if tps[0].Tp? && ParseTpIdNum(tps[0].id).Some? {
        DistinctFirst(ParseTpIdNum(tps[0].id).value, IdNums(tps[1..]));
      }
    }
  }

  lemma OneEachStep(tps: seq<Entry>)
    requires tps != []
    ensures OneEach(tps) <==> OneEach(tps[1..]) && (tps[0].Tp? && ParseTpIdNum(tps[0].id).Some? ==>
                                forall i :: !Numbered(tps[1..], i, ParseTpIdNum(tps[0].id).value))
  {
    hide ParseTpIdNum;
    NumberedShift(tps);
    var rest := tps[1..];
    assert forall i :: 0 < i < |tps| ==> tps[i] == rest[i - 1];
    assert forall i :: 0 <= i < |rest| ==> rest[i] == tps[i + 1];
    if OneEach(tps) {
      forall i, j | 0 <= i < j < |rest| && rest[i].Tp? && ParseTpIdNum(rest[i].id).Some?
        ensures !Numbered(rest, j, ParseTpIdNum(rest[i].id).value)
      {
        assert !Numbered(tps, j + 1, ParseTpIdNum(tps[i + 1].id).value);
      }
      if tps[0].Tp? && ParseTpIdNum(tps[0].id).Some? {
        forall i ensures !Numbered(rest, i, ParseTpIdNum(tps[0].id).value) {
          assert 0 <= i < |rest| ==> !Numbered(tps, i + 1, ParseTpIdNum(tps[0].id).value);
        }
      }
    }
  }

  lemma FirstNumber(tps: seq<Entry>)
    requires tps != []
    ensures IdNums(tps) == (if tps[0].Tp? && ParseTpIdNum(tps[0].id).Some? then [ParseTpIdNum(tps[0].id).value] + IdNums(tps[1..])
                            else IdNums(tps[1..]))
  {
    hide ParseTpIdNum;
  }

  lemma DistinctFirst(v: nat, rest: seq<nat>)
    ensures AllDistinct([v] + rest) <==> v !in rest && AllDistinct(rest)
  {
    var all := [v] + rest;
    assert forall i :: 0 < i < |all| ==> all[i] == rest[i - 1];
    assert forall i :: 0 <= i < |rest| ==> rest[i] == all[i + 1];
    if v !in rest && AllDistinct(rest) {
      forall i, j | 0 <= i < j < |all| ensures all[i] != all[j] {
        assert all[j] == rest[j - 1] && rest[j - 1] in rest;
      }
    }
    if AllDistinct(all) {
      forall k | 0 <= k < |rest| ensures rest[k] != v {
        assert all[0] != all[k + 1];
      }
    }
  }

  lemma IdErrorsMeaning(tps: seq<Entry>)
    ensures IdErrors(IdNums(tps), true) == [] <==> NumbersFine(tps)
    ensures IdErrors(IdNums(tps), false) == []
  {
    hide ParseTpIdNum, AllDistinct, Numbered, OneEach, IdNums;
    NumbersListed(tps);
    NumbersDistinct(tps);
    var nums := IdNums(tps);
    if nums == [] {
      NoneDistinct();
      forall i, v: nat ensures !Numbered(tps, i, v) {
        assert v !in nums;
      }
    } else {
      assert nums[0] in nums;
      var m := Min(nums);
      hide Min;
      assert m in nums;
      if m <= 1 {
        var i :| Numbered(tps, i, m);
      } else {
        assert forall i, v: nat :: Numbered(tps, i, v) ==> v in nums;
      }
    }
  }

  lemma NoneDistinct()
    ensures AllDistinct([])
  {
  }

  /** Validation without chosen ids passes exactly if all entries are objects, all requirements are covered
      and, when the full set is demanded, the numbers are fine and outnumber the requirements. */
  lemma ValidationMeaning(frs: seq<Requirement>, nfrs: seq<Requirement>, tps: seq<Entry>, requireFull: bool)
    ensures Errors(frs, nfrs, tps, requireFull, None, None) == [] <==>
              && AllObjects(tps) && FrsCovered(frs, tps) && NfrsCovered(nfrs, tps)
              && (requireFull ==> NumbersFine(tps) && (frs != [] && nfrs != [] ==> |tps| > |frs| + |nfrs|))
  {
    hide EntryErrors, IdNums, IdErrors, FrErrors, NfrErrors, FrKeys, FrMap, Ids, AllObjects, FrsCovered, NfrsCovered, NumbersFine;
    EntryErrorsNone(tps);
    KeysOfMap(frs);
    FrErrorsMeaning(FrKeys(frs), frs, tps);
    NfrErrorsMeaning(nfrs, tps);
    IdErrorsMeaning(tps);
  }

  /** A batch passes exactly if all entries are objects and its own requirements are covered. */
  lemma BatchMeaning(b: Batch, tps: seq<Entry>)
    ensures BatchOk(b, tps) <==> AllObjects(tps) && FrsCovered(b.frs, tps) && NfrsCovered(b.nfrs, tps)
  {
    hide EntryErrors, IdNums, IdErrors, FrErrors, NfrErrors, FrMap, Ids, AllObjects, FrsCovered, NfrsCovered, NumbersFine;
    EntryErrorsNone(tps);
    IdsAreKeys(b.frs);
    FrErrorsMeaning(Ids(b.frs), b.frs, tps);
    NfrErrorsMeaning(b.nfrs, tps);
    IdErrorsMeaning(tps);
  }

  /** What the report lists under covered and missing, and what its errors say of a short requirement. */
  lemma ReportMeaning(frs: seq<Requirement>, tps: seq<Entry>, i: nat)
    requires LastWithId(frs, i)
    ensures var id, count, need := frs[i].id, |Referring(tps, frs[i].id)|, if frs[i].priority in ["P0", "P1"] then 4 else 2;
            && (IsShort(FrMap(frs), tps)(id) <==> count < need) && (IsCovered(FrMap(frs), tps)(id) <==> count >= need)
            && (IsMentioned(tps, true)(id) <==> count >= 1) && (IsMentioned(tps, false)(id) <==> count == 0)
            && FrError(id, FrMap(frs), tps) == (if count < need then [FrShort(id, count, need)] else [])
            && NfrError(id, tps) == (if count == 0 then [NfrMissing(id)] else [])
  {
    LastHasId(frs, i);
    FrMapHoldsLast(frs, i);
    CountIsReferring(tps, frs[i].id);
    NeedOf(frs[i].priority);
    hide CountRelated, Referring, FrMap, MinTpPerFr;
  }

  lemma {:induction false} FilterMeaning(ids: seq<string>, p: string -> bool)
    ensures forall id :: id in Filter(ids, p) <==> id in ids && p(id)
  {
    if ids != [] {
      FilterMeaning(ids[1..], p);
    }
  }

  // ---- the stage, by its answers ----

  /** All chunks but the last are full, none is empty. */
  predicate Sized<T>(cs: seq<seq<T>>, size: nat) {
    && (forall i :: 0 <= i < |cs| ==> 0 < |cs[i]| <= size)
    && (forall i :: 0 <= i < |cs| - 1 ==> |cs[i]| == size)
  }

  lemma SizedCons<T>(c: seq<T>, rest: seq<seq<T>>, size: nat)
    requires |c| == size > 0 && Sized(rest, size)
    ensures Sized([c] + rest, size)
  {
    var cs := [c] + rest;
    assert forall i :: 0 < i < |cs| ==> cs[i] == rest[i - 1];
  }

  lemma {:induction false} ChunkSizes<T>(s: seq<T>, size: nat)
    requires size >= 1
    ensures Sized(Chunks(s, size), size)
  {
    if |s| > size {
      ChunkSizes(s[size..], size);
      SizedCons(s[..size], Chunks(s[size..], size), size);
    }
  }

  /** `tps` passes for the batch: the first answer, or the healed one if the first does not pass. */
  predicate Answered(b: Batch, i: nat, a: Answers, tps: seq<Entry>) {
    && BatchOk(b, tps) && a.first(i).Some?
    && if BatchOk(b, a.first(i).value) then a.first(i).value == tps else a.healed(i) == Some(tps)
  }

  lemma AnsweredIff(b: Batch, i: nat, a: Answers, tps: seq<Entry>)
    ensures BatchAnswer(b, i, a) == Some(tps) <==> Answered(b, i, a, tps)
  {
    hide BatchOk;
  }

  /** If every batch is answered, the stage ends with the answers merged and renumbered if these pass, else with
      the healed whole if that passes, else it fails. */
  lemma StageOutcome(frs: seq<Requirement>, nfrs: seq<Requirement>, frSize: nat, nfrSize: nat, a: Answers, parts: seq<seq<Entry>>)
    requires frSize >= 1 && nfrSize >= 1
    requires var specs := BatchSpecs(frs, nfrs, frSize, nfrSize);
             specs != [] && |parts| == |specs| && forall i :: 0 <= i < |specs| ==> Answered(specs[i], i, a, parts[i])
    ensures var r, merged := Stage(frs, nfrs, frSize, nfrSize, a), Renumber(Concat(parts));
            var healed := a.healedWhole(merged);
            if Errors(frs, nfrs, merged, true, None, None) == [] then r == Done(merged, false)
            else if healed.Some? && Errors(frs, nfrs, Renumber(healed.value), true, None, None) == [] then
              r == Done(Renumber(healed.value), true)
            else r == CoverageFailed
  {
    hide Errors, Renumber, Concat, BatchSpecs, BatchAnswer, Answered;
    var specs := BatchSpecs(frs, nfrs, frSize, nfrSize);
    forall i | 0 <= i < |specs| ensures BatchAnswer(specs[i], i, a) == Some(parts[i]) {
      AnsweredIff(specs[i], i, a, parts[i]);
    }
    GatherAnswers(specs, a, parts, |specs|);
    assert parts[..|specs|] == parts;
  }

  lemma {:induction false} GatherAnswers(specs: seq<Batch>, a: Answers, parts: seq<seq<Entry>>, n: nat)
    requires n <= |specs| == |parts| && forall i :: 0 <= i < n ==> BatchAnswer(specs[i], i, a) == Some(parts[i])
    ensures Gather(specs, a, n) == Gathered(parts[..n])
  {
    hide BatchAnswer;
    if n > 0 {
      GatherAnswers(specs, a, parts, n - 1);
      assert parts[..n] == parts[..n - 1] + [parts[n - 1]];
    }
  }

  /** The first batch without an answer that passes ends the stage. */
  lemma StageStops(frs: seq<Requirement>, nfrs: seq<Requirement>, frSize: nat, nfrSize: nat, a: Answers, parts: seq<seq<Entry>>, n: nat)
    requires frSize >= 1 && nfrSize >= 1
    requires var specs := BatchSpecs(frs, nfrs, frSize, nfrSize);
             && n < |specs| == |parts| && (forall i :: 0 <= i < n ==> Answered(specs[i], i, a, parts[i]))
             && forall tps :: !Answered(specs[n], n, a, tps)
    ensures Stage(frs, nfrs, frSize, nfrSize, a) == BatchFailed(n)
  {
    hide BatchSpecs, BatchAnswer, Answered;
    var specs := BatchSpecs(frs, nfrs, frSize, nfrSize);
    forall i | 0 <= i < n ensures BatchAnswer(specs[i], i, a) == Some(parts[i]) {
      AnsweredIff(specs[i], i, a, parts[i]);
    }
    GatherAnswers(specs, a, parts, n);
    if BatchAnswer(specs[n], n, a).Some? {
      AnsweredIff(specs[n], n, a, BatchAnswer(specs[n], n, a).value);
    }
    FailureStays(specs, a, n, |specs|);
  }

  // ---- renumbered lists ----

  function Upto(i: nat, n: nat): seq<nat> {
    seq(n, k requires 0 <= k < n => i + k)
  }

  lemma {:induction false} RenumberShape(tps: seq<Entry>, i: nat)
    requires AllObjects(tps)
    ensures var out := RenumberFrom(tps, i);
            && |out| == |tps|
            && (forall k :: 0 <= k < |tps| ==> out[k] == tps[k].(id := FormatTpId(i + k)))
            && IdNums(out) == Upto(i, |tps|)
  {
    hide FormatTpId, ParseTpIdNum;
    if tps != [] {
      var tail := RenumberFrom(tps[1..], i + 1);
      RenumberShape(tps[1..], i + 1);
      TpIdRoundTrip(i);
      var out := RenumberFrom(tps, i);
      assert out == [out[0]] + tail && out[1..] == tail;
      assert Upto(i, |tps|) == [i] + Upto(i + 1, |tps| - 1);
      assert forall k :: 0 < k < |tps| ==> tps[k] == tps[1..][k - 1] && out[k] == tail[k - 1];
    }
  }

  lemma {:induction false} RenumberConcat(a: seq<Entry>, b: seq<Entry>, i: nat)
    ensures RenumberFrom(a + b, i) == RenumberFrom(a, i) + RenumberFrom(b, i + |a|)
  {
    hide RenumberEntry;
    if a == [] {
      assert a + b == b;
    } else {
      assert (a + b)[0] == a[0] && (a + b)[1..] == a[1..] + b;
      RenumberConcat(a[1..], b, i + 1);
      Reassociate(RenumberEntry(a[0], i), RenumberFrom(a[1..], i + 1), RenumberFrom(b, i + |a|));
    }
  }

  /** A further entry is numbered by its position in the whole list, and dropped if it is no object. */
  lemma RenumberLast(tps: seq<Entry>, e: Entry)
    ensures Renumber([]) == []
    ensures Renumber(tps + [e]) == Renumber(tps) + if e.Tp? then [Tp(FormatTpId(|tps| + 1), e.relatedFr)] else []
  {
    hide FormatTpId;
    RenumberConcat(tps, [e], 1);
    assert [e][1..] == [];
    assert RenumberFrom([e], |tps| + 1) == RenumberEntry(e, |tps| + 1) + [];
  }

  lemma {:induction false} RenumberKeepsCounts(tps: seq<Entry>, i: nat, id: string)
    ensures CountRelated(RenumberFrom(tps, i), id) == CountRelated(tps, id)
  {
    hide FormatTpId;
    if tps != [] {
      RenumberKeepsCounts(tps[1..], i + 1, id);
      var tail := RenumberFrom(tps[1..], i + 1);
      CountConcat(RenumberEntry(tps[0], i), tail, id);
      if tps[0].Tp? {
        assert RenumberEntry(tps[0], i)[1..] == [];
      }
    }
  }

  lemma NumbersFromOne(n: nat)
    ensures IdErrors(Upto(1, n), true) == []
  {
    var nums := Upto(1, n);
    if nums != [] {
      assert nums[0] == 1 && 1 in nums;
    }
  }

  lemma RenumberMeets(tps: seq<Entry>, ds: seq<Demand>)
    ensures Meets(Renumber(tps), ds) <==> Meets(tps, ds)
  {
    hide CountRelated, RenumberFrom;
    forall id ensures CountRelated(Renumber(tps), id) == CountRelated(tps, id) {
      RenumberKeepsCounts(tps, 1, id);
    }
  }

  /** The rule on the total is the only one besides the demands. */
  lemma FullIff(frs: seq<Requirement>, nfrs: seq<Requirement>, merged: seq<Entry>)
    requires AllObjects(merged)
    ensures Errors(frs, nfrs, Renumber(merged), true, None, None) == [] <==>
            && Meets(merged, FrDemands(frs)) && Meets(merged, NfrDemands(nfrs))
            && (frs == [] || nfrs == [] || |merged| > |frs| + |nfrs|)
  {
    hide EntryErrors, IdNums, IdErrors, FrErrors, NfrErrors, RenumberFrom, CountRelated, FrKeys, FrMap, Ids, Upto, Meets,
         FrDemands, NfrDemands;
    var out := Renumber(merged);
    RenumberShape(merged, 1);
    EntryErrorsNone(out);
    NumbersFromOne(|merged|);
    KeysOfMap(frs);
    FrErrorsMeet(FrKeys(frs), frs, out);
    NfrErrorsMeet(nfrs, out);
    RenumberMeets(merged, FrDemands(frs));
    RenumberMeets(merged, NfrDemands(nfrs));
  }

  // ---- batches that pass, and the merged list ----

  /** The batch answers, one per specification. */
  predicate AllBatchesOk(specs: seq<Batch>, parts: seq<seq<Entry>>) {
    && |parts| == |specs|
    && forall i :: 0 <= i < |specs| ==> BatchOk(specs[i], parts[i])
  }

  lemma {:induction false} CountInConcat(parts: seq<seq<Entry>>, i: nat, id: string)
    requires i < |parts|
    ensures CountRelated(Concat(parts), id) >= CountRelated(parts[i], id)
  {
    CountConcat(parts[0], Concat(parts[1..]), id);
    if i > 0 {
      CountInConcat(parts[1..], i - 1, id);
    }
  }

  lemma {:induction false} FrMapConcat(a: seq<Requirement>, b: seq<Requirement>)
    ensures FrMap(a + b) == FrMap(a) + FrMap(b)
    decreases |b|
  {
    if b == [] {
      assert a + b == a;
    } else {
      var n := |b| - 1;
      FrMapConcat(a, b[..n]);
      assert (a + b)[..|a| + n] == a + b[..n];
    }
  }

  /** What the whole map holds for an id, the map of some chunk holds: that of its last occurrence. */
  lemma {:induction false} ChunkWithKey(chunks: seq<seq<Requirement>>, id: string) returns (i: nat)
    requires id in FrMap(Concat(chunks))
    ensures i < |chunks| && id in FrMap(chunks[i]) && FrMap(chunks[i])[id] == FrMap(Concat(chunks))[id]
  {
    FrMapConcat(chunks[0], Concat(chunks[1..]));
    if id in FrMap(Concat(chunks[1..])) {
      i := ChunkWithKey(chunks[1..], id);
      i := i + 1;
    } else {
      i := 0;
    }
  }

  lemma {:induction false} ChunkWithId(chunks: seq<seq<Requirement>>, id: string) returns (i: nat)
    requires id in Ids(Concat(chunks))
    ensures i < |chunks| && id in Ids(chunks[i])
  {
    IdsConcat(chunks[0], Concat(chunks[1..]));
    if id in Ids(chunks[0]) {
      i := 0;
    } else {
      i := ChunkWithId(chunks[1..], id);
      i := i + 1;
    }
  }

  lemma {:induction false} SpecsIndexed(chunks: seq<seq<Requirement>>)
    ensures |FrSpecs(chunks)| == |NfrSpecs(chunks)| == |chunks|
    ensures forall i :: 0 <= i < |chunks| ==> FrSpecs(chunks)[i] == Batch(chunks[i], [])
    ensures forall i :: 0 <= i < |chunks| ==> NfrSpecs(chunks)[i] == Batch([], chunks[i])
  {
    if chunks != [] {
      SpecsIndexed(chunks[1..]);
      assert forall i :: 0 < i < |chunks| ==> chunks[i] == chunks[1..][i - 1];
    }
  }

  lemma DemandOfKey(frs: seq<Requirement>, id: string) returns (k: nat)
    requires id in FrMap(frs)
    ensures k < |FrDemands(frs)| && FrDemands(frs)[k] == Demand(id, FrNeed(FrMap(frs), id))
  {
    hide FrKeys, FrMap;
    KeysOfMap(frs);
    k :| 0 <= k < |FrKeys(frs)| && FrKeys(frs)[k] == id;
  }

  lemma DemandOfId(nfrs: seq<Requirement>, id: string) returns (k: nat)
    requires id in Ids(nfrs)
    ensures k < |NfrDemands(nfrs)| && NfrDemands(nfrs)[k] == Demand(id, 1)
  {
    hide Ids, Grouping.Distinct;
    Grouping.InDistinct(Ids(nfrs));
    k :| 0 <= k < |Grouping.Distinct(Ids(nfrs))| && Grouping.Distinct(Ids(nfrs))[k] == id;
  }

  lemma SpecsAt(frs: seq<Requirement>, nfrs: seq<Requirement>, frSize: nat, nfrSize: nat)
    requires frSize >= 1 && nfrSize >= 1
    ensures var fc, nc, specs := Chunks(frs, frSize), Chunks(nfrs, nfrSize), BatchSpecs(frs, nfrs, frSize, nfrSize);
            && Concat(fc) == frs && Concat(nc) == nfrs && |specs| == |fc| + |nc|
            && (forall i :: 0 <= i < |fc| ==> specs[i] == Batch(fc[i], []))
            && (forall i :: 0 <= i < |nc| ==> specs[|fc| + i] == Batch([], nc[i]))
  {
    hide Chunks, Concat;
    ChunksConcat(frs, frSize);
    ChunksConcat(nfrs, nfrSize);
    SpecsIndexed(Chunks(frs, frSize));
    SpecsIndexed(Chunks(nfrs, nfrSize));
  }

  lemma NoDemands()
    ensures FrDemands([]) == [] && NfrDemands([]) == []
  {
    assert |FrKeys([])| == 0 && Ids([]) == [];
    assert |Grouping.Distinct<string>([])| == 0;
  }

  lemma PartMeets(specs: seq<Batch>, parts: seq<seq<Entry>>, i: nat, k: nat)
    requires AllBatchesOk(specs, parts) && i < |specs| && k < |Demands(specs[i])|
    ensures CountRelated(Concat(parts), Demands(specs[i])[k].id) >= Demands(specs[i])[k].count
  {
    hide BatchOk, Demands, CountRelated, Concat;
    BatchOkIff(specs[i], parts[i]);
    CountInConcat(parts, i, Demands(specs[i])[k].id);
  }

  lemma MergedMeetsFr(frs: seq<Requirement>, nfrs: seq<Requirement>, frSize: nat, nfrSize: nat, parts: seq<seq<Entry>>)
    requires frSize >= 1 && nfrSize >= 1 && AllBatchesOk(BatchSpecs(frs, nfrs, frSize, nfrSize), parts)
    ensures Meets(Concat(parts), FrDemands(frs))
  {
    hide AllBatchesOk, BatchSpecs, Chunks, CountRelated, FrMap, FrKeys, FrNeed, Concat;
    SpecsAt(frs, nfrs, frSize, nfrSize);
    NoDemands();
    var specs, fc, ds := BatchSpecs(frs, nfrs, frSize, nfrSize), Chunks(frs, frSize), FrDemands(frs);
    KeysOfMap(frs);
    forall j | 0 <= j < |ds| ensures CountRelated(Concat(parts), ds[j].id) >= ds[j].count {
      var i := ChunkWithKey(fc, ds[j].id);
      var k := DemandOfKey(fc[i], ds[j].id);
      assert Demands(specs[i]) == FrDemands(fc[i]) + [];
      assert Demands(specs[i])[k] == ds[j] by {
        SameNeed(FrMap(fc[i]), FrMap(frs), ds[j].id);
      }
      PartMeets(specs, parts, i, k);
    }
  }

  lemma SameNeed(a: map<string, Requirement>, b: map<string, Requirement>, id: string)
    requires id in a && id in b && a[id] == b[id]
    ensures FrNeed(a, id) == FrNeed(b, id)
  {
  }

  lemma MergedMeetsNfr(frs: seq<Requirement>, nfrs: seq<Requirement>, frSize: nat, nfrSize: nat, parts: seq<seq<Entry>>)
    requires frSize >= 1 && nfrSize >= 1 && AllBatchesOk(BatchSpecs(frs, nfrs, frSize, nfrSize), parts)
    ensures Meets(Concat(parts), NfrDemands(nfrs))
  {
    hide AllBatchesOk, BatchSpecs, Chunks, CountRelated, Ids, Concat, Grouping.Distinct;
    SpecsAt(frs, nfrs, frSize, nfrSize);
    NoDemands();
    var specs, nc, ds := BatchSpecs(frs, nfrs, frSize, nfrSize), Chunks(nfrs, nfrSize), NfrDemands(nfrs);
    var first := |Chunks(frs, frSize)|;
    Grouping.InDistinct(Ids(nfrs));
    forall j | 0 <= j < |ds| ensures CountRelated(Concat(parts), ds[j].id) >= ds[j].count {
      var i := ChunkWithId(nc, ds[j].id);
      var k := DemandOfId(nc[i], ds[j].id);
      assert Demands(specs[first + i]) == [] + NfrDemands(nc[i]);
      PartMeets(specs, parts, first + i, k);
    }
  }

  lemma {:induction false} ConcatAllObjects(specs: seq<Batch>, parts: seq<seq<Entry>>)
    requires AllBatchesOk(specs, parts)
    ensures AllObjects(Concat(parts))
  {
    hide BatchOk, Demands, Meets;
    if parts != [] {
      BatchOkIff(specs[0], parts[0]);
      assert forall i :: 0 <= i < |specs[1..]| ==> specs[1..][i] == specs[i + 1] && parts[1..][i] == parts[i + 1];
      ConcatAllObjects(specs[1..], parts[1..]);
    }
  }

  /** Whatever ids the requirements have: if every batch passes its own validation, the merged and
      renumbered list passes full validation exactly when one of the lists is empty or there are more
      test points than requirements. */
  lemma MergedPassesIff(frs: seq<Requirement>, nfrs: seq<Requirement>, frSize: nat, nfrSize: nat, parts: seq<seq<Entry>>)
    requires frSize >= 1 && nfrSize >= 1 && AllBatchesOk(BatchSpecs(frs, nfrs, frSize, nfrSize), parts)
    ensures Errors(frs, nfrs, Renumber(Concat(parts)), true, None, None) == [] <==>
            frs == [] || nfrs == [] || |Concat(parts)| > |frs| + |nfrs|
  {
    hide *;
    ConcatAllObjects(BatchSpecs(frs, nfrs, frSize, nfrSize), parts);
    MergedMeetsFr(frs, nfrs, frSize, nfrSize, parts);
    MergedMeetsNfr(frs, nfrs, frSize, nfrSize, parts);
    FullIff(frs, nfrs, Concat(parts));
  }

  // ---- what demands cost ----

  function Sum(ds: seq<Demand>): nat {
    if ds == [] then 0 else ds[0].count + Sum(ds[1..])
  }

  predicate Separate(ds: seq<Demand>) {
    && (forall i :: 0 <= i < |ds| ==> ds[i].id != "")
    && (forall i, j :: 0 <= i < j < |ds| ==> ds[i].id != ds[j].id)
  }

  function CountSum(ds: seq<Demand>, tps: seq<Entry>): nat {
    if ds == [] then 0 else CountRelated(tps, ds[0].id) + CountSum(ds[1..], tps)
  }

  /** One test point is counted for at most one of several distinct ids. */
  lemma {:induction false} OnePointCountsOnce(ds: seq<Demand>, e: Entry)
    requires Separate(ds)
    ensures CountSum(ds, [e]) <= 1
    ensures (forall i :: 0 <= i < |ds| ==> ds[i].id != Related(e)) ==> CountSum(ds, [e]) == 0
  {
    if ds != [] {
      OnePointCountsOnce(ds[1..], e);
      assert forall i :: 0 < i < |ds| ==> ds[i] == ds[1..][i - 1];
      assert CountRelated([e][1..], ds[0].id) == 0;
    }
  }

  lemma {:induction false} CountSumConcat(ds: seq<Demand>, a: seq<Entry>, b: seq<Entry>)
    ensures CountSum(ds, a + b) == CountSum(ds, a) + CountSum(ds, b)
  {
    if ds != [] {
      CountConcat(a, b, ds[0].id);
      CountSumConcat(ds[1..], a, b);
    }
  }

  lemma {:induction false} CountSumOfNothing(ds: seq<Demand>)
    ensures CountSum(ds, []) == 0
  {
    if ds != [] { CountSumOfNothing(ds[1..]); }
  }

  /** Over distinct ids the counts sum to at most the number of test points. */
  lemma {:induction false} SumAtMostLength(ds: seq<Demand>, tps: seq<Entry>)
    requires Separate(ds)
    ensures CountSum(ds, tps) <= |tps|
  {
    if tps == [] {
      CountSumOfNothing(ds);
    } else {
      OnePointCountsOnce(ds, tps[0]);
      SumAtMostLength(ds, tps[1..]);
      CountSumConcat(ds, [tps[0]], tps[1..]);
      assert tps == [tps[0]] + tps[1..];
    }
  }

  lemma {:induction false} SumAtMostCounts(ds: seq<Demand>, tps: seq<Entry>)
    requires Meets(tps, ds)
    ensures Sum(ds) <= CountSum(ds, tps)
  {
    hide CountRelated;
    if ds != [] {
      assert forall i :: 0 < i < |ds| ==> ds[i] == ds[1..][i - 1];
      SumAtMostCounts(ds[1..], tps);
    }
  }

  /** Demands for different ids cost what they sum to. */
  lemma MeetingCosts(tps: seq<Entry>, ds: seq<Demand>)
    requires Separate(ds) && Meets(tps, ds)
    ensures Sum(ds) <= |tps|
  {
    hide *;
    SumAtMostLength(ds, tps);
    SumAtMostCounts(ds, tps);
  }

  lemma DemandsSeparate(rs: seq<Requirement>)
    ensures Separate(FrDemands(rs)) && Separate(NfrDemands(rs))
  {
    KeysOfMap(rs);
    Grouping.InDistinct(Ids(rs));
    hide FrKeys, FrMap, Grouping.Distinct;
    forall i | 0 <= i < |NfrDemands(rs)| ensures NfrDemands(rs)[i].id != "" {
      NoBlankIds(rs, Grouping.Distinct(Ids(rs))[i]);
    }
  }

  lemma {:induction false} NoBlankIds(rs: seq<Requirement>, id: string)
    requires id in Ids(rs)
    ensures id != "" && exists i :: 0 <= i < |rs| && rs[i].id == id
  {
    if rs[0].id == "" || rs[0].id != id {
      assert id in Ids(rs[1..]);
      NoBlankIds(rs[1..], id);
      var i :| 0 <= i < |rs[1..]| && rs[1..][i].id == id;
      assert rs[i + 1].id == id;
    }
  }

  /** The least number of test points with which all batches pass. */
  function Demanded(specs: seq<Batch>): nat {
    if specs == [] then 0 else Sum(Demands(specs[0])) + Demanded(specs[1..])
  }

  predicate OneSided(specs: seq<Batch>) {
    forall i :: 0 <= i < |specs| ==> specs[i].frs == [] || specs[i].nfrs == []
  }

  lemma OneSidedSeparate(b: Batch)
    requires b.frs == [] || b.nfrs == []
    ensures Separate(Demands(b))
  {
    DemandsSeparate(b.frs);
    DemandsSeparate(b.nfrs);
    NoDemands();
    hide FrDemands, NfrDemands, Separate;
    assert [] + NfrDemands(b.nfrs) == NfrDemands(b.nfrs) && FrDemands(b.frs) + [] == FrDemands(b.frs);
  }

  lemma {:induction false} PassingCosts(specs: seq<Batch>, parts: seq<seq<Entry>>)
    requires OneSided(specs) && AllBatchesOk(specs, parts)
    ensures Demanded(specs) <= |Concat(parts)|
  {
    hide BatchOk, Demands, Meets, Separate, Sum;
    if specs != [] {
      BatchOkIff(specs[0], parts[0]);
      OneSidedSeparate(specs[0]);
      MeetingCosts(parts[0], Demands(specs[0]));
      assert forall i :: 0 <= i < |specs[1..]| ==> specs[1..][i] == specs[i + 1] && parts[1..][i] == parts[i + 1];
      PassingCosts(specs[1..], parts[1..]);
    }
  }

  // ---- answers that cost no more ----

  function Copies(e: Entry, n: nat): (tps: seq<Entry>)
    ensures |tps| == n && forall i :: 0 <= i < n ==> tps[i] == e
  {
    seq(n, _ => e)
  }

  function Filled(ds: seq<Demand>): seq<Entry> {
    if ds == [] then [] else Copies(Tp("", ds[0].id), ds[0].count) + Filled(ds[1..])
  }

  predicate Matchable(ds: seq<Demand>) {
    forall i :: 0 <= i < |ds| ==> ds[i].id != "" && Strip(ds[i].id) == ds[i].id
  }

  lemma {:induction false} CountOfCopies(id: string, tps: seq<Entry>)
    requires id != "" && Strip(id) == id && forall i :: 0 <= i < |tps| ==> tps[i] == Tp("", id)
    ensures CountRelated(tps, id) == |tps|
  {
    if tps != [] {
      CountOfCopies(id, tps[1..]);
    }
  }

  lemma {:induction false} FilledMeets(ds: seq<Demand>)
    requires Matchable(ds)
    ensures AllObjects(Filled(ds)) && Meets(Filled(ds), ds) && |Filled(ds)| == Sum(ds)
  {
    hide CountRelated;
    if ds != [] {
      var first, rest := Copies(Tp("", ds[0].id), ds[0].count), Filled(ds[1..]);
      FilledMeets(ds[1..]);
      CountOfCopies(ds[0].id, first);
      forall i | 0 <= i < |ds| ensures CountRelated(first + rest, ds[i].id) >= ds[i].count {
        CountConcat(first, rest, ds[i].id);
        assert i > 0 ==> ds[i] == ds[1..][i - 1];
      }
    }
  }

  function FilledParts(specs: seq<Batch>): seq<seq<Entry>> {
    if specs == [] then [] else [Filled(Demands(specs[0]))] + FilledParts(specs[1..])
  }

  lemma {:induction false} FilledPartsPass(specs: seq<Batch>)
    requires forall i :: 0 <= i < |specs| ==> Matchable(Demands(specs[i]))
    ensures AllBatchesOk(specs, FilledParts(specs)) && |Concat(FilledParts(specs))| == Demanded(specs)
  {
    hide BatchOk, Demands, Meets, AllObjects, Sum, Filled, Matchable;
    if specs != [] {
      var part, rest := Filled(Demands(specs[0])), FilledParts(specs[1..]);
      FilledPartsPass(specs[1..]);
      FilledMeets(Demands(specs[0]));
      BatchOkIff(specs[0], part);
      var parts := [part] + rest;
      assert parts[1..] == rest && FilledParts(specs) == parts;
      forall i | 0 <= i < |specs| ensures BatchOk(specs[i], parts[i]) {
        assert i > 0 ==> specs[i] == specs[1..][i - 1] && parts[i] == rest[i - 1];
      }
    }
  }

  /** Some id can be met by no reference: references are stripped, the id is not. */
  predicate Unmatchable(rs: seq<Requirement>) {
    exists i :: 0 <= i < |rs| && rs[i].id != "" && Strip(rs[i].id) != rs[i].id
  }

  lemma {:induction false} NothingMatches(tps: seq<Entry>, id: string)
    requires id != "" && Strip(id) != id
    ensures CountRelated(tps, id) == 0
  {
    if tps != [] {
      NothingMatches(tps[1..], id);
      if tps[0].Tp? {
        StripTwice(tps[0].relatedFr);
      }
    }
  }

  lemma {:induction false} IdListed(rs: seq<Requirement>, i: nat)
    requires i < |rs| && rs[i].id != ""
    ensures rs[i].id in Ids(rs)
  {
    if i > 0 {
      IdListed(rs[1..], i - 1);
    }
  }

  /** Every id is referred to by answers that pass. */
  lemma PassingCovers(frs: seq<Requirement>, nfrs: seq<Requirement>, frSize: nat, nfrSize: nat, parts: seq<seq<Entry>>, id: string)
    requires frSize >= 1 && nfrSize >= 1 && AllBatchesOk(BatchSpecs(frs, nfrs, frSize, nfrSize), parts)
    requires id in Ids(frs) || id in Ids(nfrs)
    ensures CountRelated(Concat(parts), id) >= 1
  {
    hide AllBatchesOk, BatchSpecs, CountRelated, FrMap, FrKeys, Ids, FrDemands, NfrDemands, Concat;
    if id in Ids(frs) {
      IdsAreKeys(frs);
      var k := DemandOfKey(frs, id);
      MergedMeetsFr(frs, nfrs, frSize, nfrSize, parts);
      assert FrDemands(frs)[k].count >= 1;
    } else {
      var k := DemandOfId(nfrs, id);
      MergedMeetsNfr(frs, nfrs, frSize, nfrSize, parts);
      assert NfrDemands(nfrs)[k].count >= 1;
    }
  }

  /** With such an id no answers pass. */
  lemma UnmatchableNeverPasses(frs: seq<Requirement>, nfrs: seq<Requirement>, frSize: nat, nfrSize: nat, parts: seq<seq<Entry>>)
    requires frSize >= 1 && nfrSize >= 1 && Unmatchable(frs + nfrs)
    ensures !AllBatchesOk(BatchSpecs(frs, nfrs, frSize, nfrSize), parts)
  {
    hide AllBatchesOk, BatchSpecs, CountRelated, Ids, Concat, Strip;
    var rs := frs + nfrs;
    var i :| 0 <= i < |rs| && rs[i].id != "" && Strip(rs[i].id) != rs[i].id;
    NothingMatches(Concat(parts), rs[i].id);
    if i < |frs| {
      IdListed(frs, i);
    } else {
      IdListed(nfrs, i - |frs|);
    }
    if AllBatchesOk(BatchSpecs(frs, nfrs, frSize, nfrSize), parts) {
      PassingCovers(frs, nfrs, frSize, nfrSize, parts, rs[i].id);
    }
  }

  lemma DemandIsId(rs: seq<Requirement>, functional: bool, k: nat)
    requires k < |if functional then FrDemands(rs) else NfrDemands(rs)|
    ensures var id := (if functional then FrDemands(rs) else NfrDemands(rs))[k].id;
            id != "" && exists i :: 0 <= i < |rs| && rs[i].id == id
  {
    hide FrKeys, FrMap, Grouping.Distinct;
    KeysOfMap(rs);
    IdsAreKeys(rs);
    Grouping.InDistinct(Ids(rs));
    NoBlankIds(rs, (if functional then FrDemands(rs) else NfrDemands(rs))[k].id);
  }

  lemma {:induction false} InConcat<T>(ss: seq<seq<T>>, i: nat, k: nat)
    requires i < |ss| && k < |ss[i]|
    ensures ss[i][k] in Concat(ss)
  {
    if i > 0 {
      InConcat(ss[1..], i - 1, k);
    }
  }

  /** Every demand of a chunk is for the id of one of the requirements. */
  lemma ChunkMatchable(chunks: seq<seq<Requirement>>, i: nat, functional: bool)
    requires i < |chunks| && !Unmatchable(Concat(chunks))
    ensures Matchable(if functional then FrDemands(chunks[i]) else NfrDemands(chunks[i]))
  {
    hide FrDemands, NfrDemands, Strip, Concat;
    var ds := if functional then FrDemands(chunks[i]) else NfrDemands(chunks[i]);
    forall k | 0 <= k < |ds| ensures ds[k].id != "" && Strip(ds[k].id) == ds[k].id {
      DemandIsId(chunks[i], functional, k);
      var j :| 0 <= j < |chunks[i]| && chunks[i][j].id == ds[k].id;
      InConcat(chunks, i, j);
      var m :| 0 <= m < |Concat(chunks)| && Concat(chunks)[m] == chunks[i][j];
      assert Concat(chunks)[m].id == ds[k].id;
    }
  }

  lemma SpecMatchable(frs: seq<Requirement>, nfrs: seq<Requirement>, frSize: nat, nfrSize: nat, i: nat)
    requires frSize >= 1 && nfrSize >= 1 && !Unmatchable(frs + nfrs) && i < |BatchSpecs(frs, nfrs, frSize, nfrSize)|
    ensures Matchable(Demands(BatchSpecs(frs, nfrs, frSize, nfrSize)[i]))
  {
    hide BatchSpecs, Chunks, FrDemands, NfrDemands, Strip, Concat, Matchable;
    SpecsAt(frs, nfrs, frSize, nfrSize);
    NoDemands();
    assert forall k :: 0 <= k < |frs| ==> (frs + nfrs)[k] == frs[k];
    assert forall k :: 0 <= k < |nfrs| ==> (frs + nfrs)[|frs| + k] == nfrs[k];
    var fc, nc := Chunks(frs, frSize), Chunks(nfrs, nfrSize);
    if i < |fc| {
      ChunkMatchable(fc, i, true);
      assert FrDemands(fc[i]) + [] == FrDemands(fc[i]);
    } else {
      ChunkMatchable(nc, i - |fc|, false);
      assert [] + NfrDemands(nc[i - |fc|]) == NfrDemands(nc[i - |fc|]);
    }
  }

  // ---- exactly when batches compose ----

  /** Whatever answers pass batch by batch, the merged and renumbered list passes in full. */
  ghost predicate AlwaysComposes(frs: seq<Requirement>, nfrs: seq<Requirement>, frSize: nat, nfrSize: nat)
    requires frSize >= 1 && nfrSize >= 1
  {
    forall parts :: AllBatchesOk(BatchSpecs(frs, nfrs, frSize, nfrSize), parts)
                    ==> Errors(frs, nfrs, Renumber(Concat(parts)), true, None, None) == []
  }

  /** The exact condition, computable from the requirements: one list is empty, or the batches' own
      demands sum to more than the number of requirements, or no answers pass at all. */
  lemma ComposesIff(frs: seq<Requirement>, nfrs: seq<Requirement>, frSize: nat, nfrSize: nat)
    requires frSize >= 1 && nfrSize >= 1
    ensures AlwaysComposes(frs, nfrs, frSize, nfrSize) <==>
            || frs == [] || nfrs == []
            || Demanded(BatchSpecs(frs, nfrs, frSize, nfrSize)) > |frs| + |nfrs|
            || Unmatchable(frs + nfrs)
  {
    hide AllBatchesOk, BatchSpecs, Errors, Renumber, Concat, Demanded, Unmatchable, FilledParts, Matchable, Demands;
    var specs := BatchSpecs(frs, nfrs, frSize, nfrSize);
    SpecsOneSided(frs, nfrs, frSize, nfrSize);
    forall parts | AllBatchesOk(specs, parts)
      ensures Errors(frs, nfrs, Renumber(Concat(parts)), true, None, None) == [] <==>
              frs == [] || nfrs == [] || |Concat(parts)| > |frs| + |nfrs|
      ensures !Unmatchable(frs + nfrs) && Demanded(specs) <= |Concat(parts)|
    {
      MergedPassesIff(frs, nfrs, frSize, nfrSize, parts);
      PassingCosts(specs, parts);
      if Unmatchable(frs + nfrs) {
        UnmatchableNeverPasses(frs, nfrs, frSize, nfrSize, parts);
      }
    }
    if !Unmatchable(frs + nfrs) {
      forall i | 0 <= i < |specs| ensures Matchable(Demands(specs[i])) {
        SpecMatchable(frs, nfrs, frSize, nfrSize, i);
      }
      FilledPartsPass(specs);
    }
  }

  lemma SpecsOneSided(frs: seq<Requirement>, nfrs: seq<Requirement>, frSize: nat, nfrSize: nat)
    requires frSize >= 1 && nfrSize >= 1
    ensures OneSided(BatchSpecs(frs, nfrs, frSize, nfrSize))
  {
    hide BatchSpecs, Chunks, Concat;
    SpecsAt(frs, nfrs, frSize, nfrSize);
    var specs, n := BatchSpecs(frs, nfrs, frSize, nfrSize), |Chunks(frs, frSize)|;
    forall i | 0 <= i < |specs| ensures specs[i].frs == [] || specs[i].nfrs == [] {
      assert i >= n ==> specs[n + (i - n)] == Batch([], Chunks(nfrs, nfrSize)[i - n]);
    }
  }

  // ---- distinct ids ----

  /** Every requirement has an id of its own, across both lists. */
  predicate DistinctIds(rs: seq<Requirement>) {
    && (forall i :: 0 <= i < |rs| ==> rs[i].id != "")
    && (forall i, j :: 0 <= i < j < |rs| ==> rs[i].id != rs[j].id)
  }

  function AllIds(rs: seq<Requirement>): seq<string> {
    seq(|rs|, i requires 0 <= i < |rs| => rs[i].id)
  }

  lemma {:induction false} DistinctKeys(rs: seq<Requirement>)
    requires DistinctIds(rs)
    ensures FrKeys(rs) == AllIds(rs) == Ids(rs) == Grouping.Distinct(Ids(rs))
  {
    if rs == [] {
      assert AllIds(rs) == [];
    } else {
      var n := |rs| - 1;
      var init, id := rs[..n], rs[n].id;
      DistinctKeys(init);
      LastId(rs);
      hide AllIds, Ids;
      assert FrKeys(rs) == FrKeys(init) + [id];
      Grouping.DistinctStep(Ids(init), id);
    }
  }

  lemma LastId(rs: seq<Requirement>)
    requires rs != [] && DistinctIds(rs)
    ensures var init, id := rs[..|rs| - 1], rs[|rs| - 1].id;
            AllIds(rs) == AllIds(init) + [id] && Ids(rs) == Ids(init) + [id] && id !in AllIds(init) && DistinctIds(init)
  {
    var n := |rs| - 1;
    var init, last := rs[..n], rs[n];
    IdsConcat(init, [last]);
    assert init + [last] == rs && [last][1..] == [];
    assert Ids([last]) == [last.id];
    assert forall i :: 0 <= i < n ==> init[i] == rs[i];
    assert AllIds(rs) == AllIds(init) + [last.id];
  }

  lemma {:induction false} SumAtLeast(ds: seq<Demand>, each: nat)
    requires forall i :: 0 <= i < |ds| ==> ds[i].count >= each
    ensures Sum(ds) >= each * |ds|
  {
    if ds != [] {
      assert forall i :: 0 < i < |ds| ==> ds[i] == ds[1..][i - 1];
      SumAtLeast(ds[1..], each);
      assert each * |ds| == each + each * |ds[1..]|;
    }
  }

  lemma {:induction false} SumConcat(a: seq<Demand>, b: seq<Demand>)
    ensures Sum(a + b) == Sum(a) + Sum(b)
  {
    if a == [] {
      assert a + b == b;
    } else {
      assert (a + b)[1..] == a[1..] + b;
      SumConcat(a[1..], b);
    }
  }

  lemma DistinctFr(rs: seq<Requirement>)
    requires DistinctIds(rs)
    ensures |FrDemands(rs)| == |rs| && Sum(FrDemands(rs)) >= 2 * |rs|
    ensures forall i :: 0 <= i < |rs| ==> FrDemands(rs)[i].id == rs[i].id
  {
    DistinctKeys(rs);
    hide FrKeys, FrMap, Ids, Grouping.Distinct, Sum;
    SumAtLeast(FrDemands(rs), 2);
  }

  lemma DistinctNfr(rs: seq<Requirement>)
    requires DistinctIds(rs)
    ensures |NfrDemands(rs)| == |rs| && Sum(NfrDemands(rs)) >= |rs|
    ensures forall i :: 0 <= i < |rs| ==> NfrDemands(rs)[i].id == rs[i].id
  {
    DistinctKeys(rs);
    hide FrKeys, FrMap, Ids, Grouping.Distinct, Sum;
    SumAtLeast(NfrDemands(rs), 1);
  }

  /** With distinct ids the demands are for different ids and there is one for each requirement. */
  lemma DistinctDemands(frs: seq<Requirement>, nfrs: seq<Requirement>)
    requires DistinctIds(frs + nfrs)
    ensures var ds := FrDemands(frs) + NfrDemands(nfrs); Separate(ds) && Sum(ds) >= 2 * |frs| + |nfrs|
  {
    hide FrDemands, NfrDemands, Sum;
    var all, fd, nd := frs + nfrs, FrDemands(frs), NfrDemands(nfrs);
    assert forall i :: 0 <= i < |frs| ==> frs[i] == all[i];
    assert forall i :: 0 <= i < |nfrs| ==> nfrs[i] == all[|frs| + i];
    DistinctFr(frs);
    DistinctNfr(nfrs);
    SumConcat(fd, nd);
    assert forall i :: 0 <= i < |fd + nd| ==> (fd + nd)[i].id == all[i].id;
  }

  /** The main promise: with distinct ids across both lists batches always compose, so the healing
      of the whole list is never reached. */
  lemma BatchesCompose(frs: seq<Requirement>, nfrs: seq<Requirement>, frSize: nat, nfrSize: nat, parts: seq<seq<Entry>>)
    requires frSize >= 1 && nfrSize >= 1 && DistinctIds(frs + nfrs)
    requires AllBatchesOk(BatchSpecs(frs, nfrs, frSize, nfrSize), parts)
    ensures Errors(frs, nfrs, Renumber(Concat(parts)), true, None, None) == []
  {
    hide *;
    MergedPassesIff(frs, nfrs, frSize, nfrSize, parts);
    MergedMeetsFr(frs, nfrs, frSize, nfrSize, parts);
    MergedMeetsNfr(frs, nfrs, frSize, nfrSize, parts);
    MeetsConcat(Concat(parts), FrDemands(frs), NfrDemands(nfrs));
    DistinctDemands(frs, nfrs);
    MeetingCosts(Concat(parts), FrDemands(frs) + NfrDemands(nfrs));
    assert frs == [] || |frs| >= 1;
  }

  /** So with distinct ids the stage never needs its last resort: if every batch has an answer that
      passes, its result is those answers merged and renumbered. */
  lemma StageWithDistinctIds(frs: seq<Requirement>, nfrs: seq<Requirement>, frSize: nat, nfrSize: nat, a: Answers)
    requires frSize >= 1 && nfrSize >= 1 && DistinctIds(frs + nfrs)
    ensures var r, specs := Stage(frs, nfrs, frSize, nfrSize, a), BatchSpecs(frs, nfrs, frSize, nfrSize);
            && !r.CoverageFailed? && (r.Done? ==> !r.healedWhole)
            && (r.Done? <==> specs != [] && forall i :: 0 <= i < |specs| ==> BatchAnswer(specs[i], i, a).Some?)
            && (r.Done? ==> r.testPoints == Renumber(Concat(Gather(specs, a, |specs|).parts)))
  {
    hide Errors, Renumber, Concat, BatchSpecs, BatchAnswer, DistinctIds;
    var specs := BatchSpecs(frs, nfrs, frSize, nfrSize);
    GatherMeans(specs, a, |specs|);
    if specs != [] && Gather(specs, a, |specs|).Gathered? {
      var parts := Gather(specs, a, |specs|).parts;
      AnswersAreOk(specs, parts, a);
      BatchesCompose(frs, nfrs, frSize, nfrSize, parts);
    }
  }

  lemma AnswersAreOk(specs: seq<Batch>, parts: seq<seq<Entry>>, a: Answers)
    requires |parts| == |specs| && forall i :: 0 <= i < |specs| ==> BatchAnswer(specs[i], i, a) == Some(parts[i])
    ensures AllBatchesOk(specs, parts)
  {
    hide BatchOk;
  }

  /** Four non-functional requirements sharing one id pass as a batch with a single test point, and
      then the merged list is too short. */
  lemma SharedIdsDoNotCompose()
    ensures var f, n := Requirement("F", "P2"), Requirement("N", "P2"); !AlwaysComposes([f], [n, n, n, n], 8, 8)
  {
    hide AlwaysComposes, BatchSpecs, Demanded, Unmatchable;
    var f, n := Requirement("F", "P2"), Requirement("N", "P2");
    SharedDemand(f, n);
    TrimmedIds(f, n);
    ComposesIff([f], [n, n, n, n], 8, 8);
  }

  lemma TrimmedIds(f: Requirement, n: Requirement)
    requires f.id == "F" && n.id == "N"
    ensures !Unmatchable([f] + [n, n, n, n])
  {
    StripTrimmed("F");
    StripTrimmed("N");
  }

  lemma SharedDemand(f: Requirement, n: Requirement)
    requires f == Requirement("F", "P2") && n == Requirement("N", "P2")
    ensures Demanded(BatchSpecs([f], [n, n, n, n], 8, 8)) == 3
  {
    var fr, nfr := Batch([f], []), Batch([], [n, n, n, n]);
    SharedSpecs(f, n);
    FrDemandOf(f);
    NfrDemandOf(n);
    NoDemands();
    hide BatchSpecs, FrDemands, NfrDemands;
    var fd, nd := Demand("F", 2), Demand("N", 1);
    assert Demands(fr) == [fd] && Demands(nfr) == [nd];
    assert [fd][1..] == [] && [nd][1..] == [];
    assert Sum(Demands(fr)) == 2 && Sum(Demands(nfr)) == 1;
    assert [fr, nfr][1..] == [nfr] && [nfr][1..] == [];
    assert Demanded([nfr]) == 1;
  }

  lemma SharedSpecs(f: Requirement, n: Requirement)
    ensures BatchSpecs([f], [n, n, n, n], 8, 8) == [Batch([f], []), Batch([], [n, n, n, n])]
  {
    assert FrSpecs([[f]]) == [Batch([f], [])] && NfrSpecs([[n, n, n, n]]) == [Batch([], [n, n, n, n])];
  }

  lemma FrDemandOf(f: Requirement)
    requires f == Requirement("F", "P2")
    ensures FrDemands([f]) == [Demand("F", 2)]
  {
    assert [f][..0] == [];
    assert FrKeys([f]) == ["F"] && FrMap([f]) == map["F" := f];
  }

  lemma NfrDemandOf(n: Requirement)
    requires n == Requirement("N", "P2")
    ensures NfrDemands([n, n, n, n]) == [Demand("N", 1)]
  {
    FourIds(n);
    FourAlike("N");
    hide Ids, Grouping.Distinct;
  }

  lemma IdsCons(n: Requirement, rs: seq<Requirement>)
    requires n.id != ""
    ensures Ids([n] + rs) == [n.id] + Ids(rs)
  {
    assert ([n] + rs)[1..] == rs;
  }

  lemma FourIds(n: Requirement)
    requires n.id != ""
    ensures Ids([n, n, n, n]) == [n.id, n.id, n.id, n.id]
  {
    hide Ids;
    IdsCons(n, [n, n, n]);
    IdsCons(n, [n, n]);
    IdsCons(n, [n]);
    IdsCons(n, []);
    NoIds();
    assert [n] + [n, n, n] == [n, n, n, n] && [n] + [n, n] == [n, n, n] && [n] + [n] == [n, n] && [n] + [] == [n];
  }

  lemma NoIds()
    ensures Ids([]) == []
  {
  }

  lemma FourAlike(id: string)
    ensures Grouping.Distinct([id, id, id, id]) == [id]
  {
    assert [id, id, id, id][..3] == [id, id, id] && [id, id, id][..2] == [id, id] && [id, id][..1] == [id] && [id][..0] == [];
    assert Grouping.Distinct([id]) == [id] && Grouping.Distinct([id, id]) == [id] && Grouping.Distinct([id, id, id]) == [id];
  }
}
