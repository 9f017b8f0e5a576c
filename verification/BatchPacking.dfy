/** `pack_tp_batches_by_tokens`: greedy packing of test points into prompt batches, its optimality,
    and the default payload estimate that optimality relies on. */
module BatchPacking {
  import Grouping
  import opened PyText
  import opened JsonSyntax
  import opened JsonPrinter
  import opened TokenEstimate

  /** A value `json.dumps` can write. */
  type Dumpable = v: Json | Printable(v) witness Lit("null")

  /** Also what an absent key gives. */
  const NULL: Dumpable := Lit("null")

  /** A value and what `str` makes of it. */
  datatype Shown = Shown(json: Dumpable, text: string)

  /** Any JSON object as a test point.  The scenario lists hold what `str` makes of their entries;
      they are empty where the value is not a list. */
  datatype TestPoint = TestPoint(
    id: Dumpable, scenario: Dumpable, priority: Dumpable, relatedFr: Shown, relatedNfr: Dumpable,
    positive: seq<string>, boundary: seq<string>, negative: seq<string>, permission: seq<string>)
  datatype Fr = Fr(id: Dumpable, moduleName: Dumpable, description: string, priority: Dumpable)

  /** Python's truth value of a decoded JSON value. */
  predicate Truthy(v: Json) {
    match v
    case Lit(word) => word != "null" && word != "false"
    case Num(n) => exists i :: 0 <= i < |n.whole + n.frac| && (n.whole + n.frac)[i] != '0'
    case Str(points) => points != []
    case Arr(items) => items != []
    case Obj(fields) => fields != []
  }

  /** `str(tp.get("related_fr") or "").strip()`. */
  function Mentioned(tp: TestPoint): string {
    if Truthy(tp.relatedFr.json) then Strip(tp.relatedFr.text) else ""
  }

  type Batch = seq<TestPoint>

  // ---- the greedy packer ----

  /** The limits after the defaults for non-positive arguments. */
  function MaxTps(maxTps: int): (n: int) ensures n >= 1 { if maxTps <= 0 then 12 else maxTps }

  function Target(target: int): (n: int) ensures n >= 1 { if target <= 0 then 7000 else target }

  /** What one batch may hold; a single test point is exempt from the token target. */
  predicate Fits(b: Batch, est: Batch -> int, maxTps: int, target: int) {
    |b| <= MaxTps(maxTps) && (|b| <= 1 || est(b) <= Target(target))
  }

  predicate Allowed(b: Batch, est: Batch -> int, maxTps: int, target: int) {
    b != [] && Fits(b, est, maxTps, target)
  }

  function Flatten(bs: seq<Batch>): Batch {
    if bs == [] then [] else bs[0] + Flatten(bs[1..])
  }

  /** The batches still to be emitted when `current` is open. */
  function PackFrom(current: Batch, rest: Batch, est: Batch -> int, maxTps: int, target: int): seq<Batch>
    decreases rest
  {
    if rest == [] then (if current == [] then [] else [current])
    else if Fits(current + [rest[0]], est, maxTps, target) then
      PackFrom(current + [rest[0]], rest[1..], est, maxTps, target)
    else [current] + PackFrom([rest[0]], rest[1..], est, maxTps, target)
  }

  function Pack(tps: Batch, est: Batch -> int, maxTps: int, target: int): seq<Batch> {
    PackFrom([], tps, est, maxTps, target)
  }

  /** Limits that are not positive stand for twelve test points and 7000 tokens. */
  lemma DefaultLimits(b: Batch, est: Batch -> int, maxTps: int, target: int)
    ensures maxTps <= 0 ==> (Fits(b, est, maxTps, target) <==> Fits(b, est, 12, target))
    ensures target <= 0 ==> (Fits(b, est, maxTps, target) <==> Fits(b, est, maxTps, 7000))
  {
  }

  lemma PackStep(batches: seq<Batch>, current: Batch, rest: Batch, est: Batch -> int, maxTps: int, target: int)
    requires rest != []
    ensures var candidate, tail := current + [rest[0]], rest[1..];
            if Fits(candidate, est, maxTps, target) then
              PackFrom(current, rest, est, maxTps, target) == PackFrom(candidate, tail, est, maxTps, target)
            else
              batches + PackFrom(current, rest, est, maxTps, target)
              == batches + [current] + PackFrom([rest[0]], tail, est, maxTps, target)
  {
    hide Fits;
    Reassociate(batches, [current], PackFrom([rest[0]], rest[1..], est, maxTps, target));
  }

  method PackTpBatchesByTokens(tps: Batch, est: Batch -> int, maxTps: int, target: int)
    returns (batches: seq<Batch>)
    ensures batches == Pack(tps, est, maxTps, target)
  {
    hide Printable;
    if tps == [] {
      return [];
    }
    var limit := if maxTps <= 0 then 12 else maxTps;
    var budget := if target <= 0 then 7000 else target;
    batches := [];
    var current: Batch := [];
    for i := 0 to |tps|
      invariant |current| <= limit
      invariant batches + PackFrom(current, tps[i..], est, maxTps, target) == Pack(tps, est, maxTps, target)
    {
      var candidate := current + [tps[i]];
      assert tps[i..][0] == tps[i] && tps[i..][1..] == tps[i + 1..];
      PackStep(batches, current, tps[i..], est, maxTps, target);
      hide PackFrom;
      if |candidate| > limit {
        batches := batches + [current];
        current := [tps[i]];
      } else {
        var tokens := est(candidate);
        if current != [] && tokens > budget {
          batches := batches + [current];
          current := [tps[i]];
        } else {
          current := candidate;
        }
      }
    }
    assert tps[|tps|..] == [];
    if current != [] {
      batches := batches + [current];
    }
  }

  /** Nothing is lost, repeated or reordered, and every batch is allowed. */
  lemma {:induction false} PackFromSound(current: Batch, rest: Batch, est: Batch -> int, maxTps: int, target: int)
    requires Fits(current, est, maxTps, target)
    ensures var bs := PackFrom(current, rest, est, maxTps, target);
            && Flatten(bs) == current + rest
            && forall i :: 0 <= i < |bs| ==> Allowed(bs[i], est, maxTps, target)
    decreases rest
  {
    if rest != [] {
      var x := rest[0];
      assert rest == [x] + rest[1..];
      if Fits(current + [x], est, maxTps, target) {
        PackFromSound(current + [x], rest[1..], est, maxTps, target);
      } else {
        PackFromSound([x], rest[1..], est, maxTps, target);
        var tail := PackFrom([x], rest[1..], est, maxTps, target);
        assert ([current] + tail)[1..] == tail;
      }
    } else {
      assert Flatten([current]) == current + Flatten([]);
    }
  }

  lemma PackSound(tps: Batch, est: Batch -> int, maxTps: int, target: int)
    ensures var bs := Pack(tps, est, maxTps, target);
            && Flatten(bs) == tps
            && forall i :: 0 <= i < |bs| ==> Allowed(bs[i], est, maxTps, target)
  {
    PackFromSound([], tps, est, maxTps, target);
  }

  // ---- optimality ----

  predicate AllAllowed(bs: seq<Batch>, est: Batch -> int, maxTps: int, target: int) {
    forall i :: 0 <= i < |bs| ==> Allowed(bs[i], est, maxTps, target)
  }

  /** No order-preserving division of any list into allowed batches is shorter than the packer's. */
  ghost predicate AlwaysOptimal(est: Batch -> int, maxTps: int, target: int) {
    forall other :: AllAllowed(other, est, maxTps, target)
                    ==> |Pack(Flatten(other), est, maxTps, target)| <= |other|
  }

  /** What an allowed batch starts with is allowed. */
  ghost predicate PrefixClosed(est: Batch -> int, maxTps: int, target: int) {
    forall a, b :: a != [] && Allowed(a + b, est, maxTps, target) ==> Allowed(a, est, maxTps, target)
  }

  /** Where two allowed batches overlap in `p` and the first cannot take the next test point, what the
      second still has to come is allowed. */
  ghost predicate Exchange(est: Batch -> int, maxTps: int, target: int) {
    forall a, p, s :: a != [] && s != [] && Allowed(a + p, est, maxTps, target) && Allowed(p + s, est, maxTps, target)
                      && !Fits(a + p + [s[0]], est, maxTps, target)
                      ==> Allowed(s, est, maxTps, target)
  }

  function Count(current: Batch, rest: Batch, est: Batch -> int, maxTps: int, target: int): nat {
    |PackFrom(current, rest, est, maxTps, target)|
  }

  lemma CountStep(current: Batch, rest: Batch, est: Batch -> int, maxTps: int, target: int)
    requires rest != []
    ensures Count(current, rest, est, maxTps, target)
         == if Fits(current + [rest[0]], est, maxTps, target) then Count(current + [rest[0]], rest[1..], est, maxTps, target)
            else 1 + Count([rest[0]], rest[1..], est, maxTps, target)
  {
    hide Fits, Printable;
  }

  lemma CountNone(current: Batch, est: Batch -> int, maxTps: int, target: int)
    ensures Count(current, [], est, maxTps, target) == if current == [] then 0 else 1
  {
  }

  lemma CountOpens(x: TestPoint, rest: Batch, est: Batch -> int, maxTps: int, target: int)
    ensures Count([], [x] + rest, est, maxTps, target) == Count([x], rest, est, maxTps, target)
  {
    hide PackFrom, Printable;
    CountStep([], [x] + rest, est, maxTps, target);
    assert ([x] + rest)[1..] == rest && [] + [x] == [x];
  }

  // ---- the conditions suffice ----

  lemma PrefixAllowed(a: Batch, b: Batch, est: Batch -> int, maxTps: int, target: int)
    requires PrefixClosed(est, maxTps, target) && a != [] && Allowed(a + b, est, maxTps, target)
    ensures Allowed(a, est, maxTps, target)
  {
  }

  lemma RestAllowed(a: Batch, p: Batch, s: Batch, est: Batch -> int, maxTps: int, target: int)
    requires Exchange(est, maxTps, target) && a != [] && s != []
    requires Allowed(a + p, est, maxTps, target) && Allowed(p + s, est, maxTps, target)
    requires !Fits(a + p + [s[0]], est, maxTps, target)
    ensures Allowed(s, est, maxTps, target)
  {
  }

  /** Taking the first element of `s` to the end of `p`. */
  lemma MoveFirst(p: Batch, s: Batch)
    requires s != []
    ensures p + s == p + [s[0]] + s[1..]
  {
  }

  lemma FlattenFirst(t: seq<Batch>)
    requires t != []
    ensures Flatten(t) == t[0] + Flatten(t[1..])
  {
  }

  /** Greedy against a division whose open batch began no later and still has `h` to come, then `t`. */
  lemma {:induction false} GreedyStaysAhead(current: Batch, h: Batch, t: seq<Batch>, est: Batch -> int, maxTps: int, target: int)
    requires PrefixClosed(est, maxTps, target) && Exchange(est, maxTps, target)
    requires Allowed(current + h, est, maxTps, target) && current != [] && AllAllowed(t, est, maxTps, target)
    ensures Count(current, h + Flatten(t), est, maxTps, target) <= 1 + |t|
    decreases |h + Flatten(t)|, |t|, 0
  {
    hide PackFrom, Allowed, Fits, PrefixClosed, Exchange, Flatten, Count, Printable;
    var rest := h + Flatten(t);
    if h != [] {
      MoveFirst(current, h);
      assert rest[0] == h[0] && rest[1..] == h[1..] + Flatten(t);
      PrefixAllowed(current + [h[0]], h[1..], est, maxTps, target);
      AllowedFits(current + [h[0]], est, maxTps, target);
      CountStep(current, rest, est, maxTps, target);
      GreedyStaysAhead(current + [h[0]], h[1..], t, est, maxTps, target);
    } else if t == [] {
      FlattenNone();
      assert rest == [];
      CountNone(current, est, maxTps, target);
    } else {
      FlattenFirst(t);
      assert current + h == current && current + [] == current && [] + t[0] == t[0];
      assert rest == t[0] + Flatten(t[1..]);
      GreedyRunsOver(current, [], t[0], t[1..], est, maxTps, target);
    }
  }

  /** Greedy's open batch `a + p` has run over from an earlier batch of the division into `p + s`. */
  lemma {:induction false} GreedyRunsOver(a: Batch, p: Batch, s: Batch, t: seq<Batch>, est: Batch -> int, maxTps: int, target: int)
    requires PrefixClosed(est, maxTps, target) && Exchange(est, maxTps, target)
    requires a != [] && Allowed(a + p, est, maxTps, target) && Allowed(p + s, est, maxTps, target)
    requires AllAllowed(t, est, maxTps, target)
    ensures Count(a + p, s + Flatten(t), est, maxTps, target) <= 2 + |t|
    decreases |s + Flatten(t)|, |t|, 1
  {
    hide PackFrom, Allowed, Fits, PrefixClosed, Exchange, Flatten, Count, Printable;
    var rest := s + Flatten(t);
    if s == [] {
      assert rest == [] + Flatten(t) && (a + p) + [] == a + p;
      GreedyStaysAhead(a + p, [], t, est, maxTps, target);
    } else {
      var x := s[0];
      assert rest[0] == x && rest[1..] == s[1..] + Flatten(t);
      CountStep(a + p, rest, est, maxTps, target);
      MoveFirst(p, s);
      if Fits(a + p + [x], est, maxTps, target) {
        assert a + p + [x] == a + (p + [x]);
        FitsAllowed(a + (p + [x]), est, maxTps, target);
        GreedyRunsOver(a, p + [x], s[1..], t, est, maxTps, target);
      } else {
        RestAllowed(a, p, s, est, maxTps, target);
        assert [x] + s[1..] == s;
        GreedyStaysAhead([x], s[1..], t, est, maxTps, target);
      }
    }
  }

  lemma AllowedFits(b: Batch, est: Batch -> int, maxTps: int, target: int)
    requires Allowed(b, est, maxTps, target)
    ensures b != [] && Fits(b, est, maxTps, target)
  {
  }

  lemma FitsAllowed(b: Batch, est: Batch -> int, maxTps: int, target: int)
    requires b != [] && Fits(b, est, maxTps, target)
    ensures Allowed(b, est, maxTps, target)
  {
  }

  lemma FlattenNone()
    ensures Flatten([]) == []
  {
  }

  lemma ExchangeSuffices(other: seq<Batch>, est: Batch -> int, maxTps: int, target: int)
    requires PrefixClosed(est, maxTps, target) && Exchange(est, maxTps, target)
    requires AllAllowed(other, est, maxTps, target)
    ensures |Pack(Flatten(other), est, maxTps, target)| <= |other|
  {
    hide PackFrom, Allowed, Fits, PrefixClosed, Exchange, Flatten, Printable;
    if other == [] {
      FlattenNone();
      CountNone([], est, maxTps, target);
    } else {
      var b, t := other[0], other[1..];
      AllowedFits(b, est, maxTps, target);
      FlattenFirst(other);
      assert [b[0]] + b[1..] == b;
      assert b + Flatten(t) == [b[0]] + (b[1..] + Flatten(t));
      CountOpens(b[0], b[1..] + Flatten(t), est, maxTps, target);
      GreedyStaysAhead([b[0]], b[1..], t, est, maxTps, target);
    }
  }

  // ---- the conditions are needed ----

  /** One batch suffices for the rest only if each of its beginnings still fits. */
  lemma {:induction false} OneBatchFits(current: Batch, rest: Batch, n: nat, est: Batch -> int, maxTps: int, target: int)
    requires current != [] && Fits(current, est, maxTps, target) && n <= |rest|
    requires Count(current, rest, est, maxTps, target) <= 1
    ensures Fits(current + rest[..n], est, maxTps, target)
    decreases rest
  {
    hide PackFrom, Fits, Count, Printable;
    if n == 0 {
      assert current + rest[..0] == current;
    } else {
      var x := rest[0];
      CountStep(current, rest, est, maxTps, target);
      CountPositive([x], rest[1..], est, maxTps, target);
      OneBatchFits(current + [x], rest[1..], n - 1, est, maxTps, target);
      assert current + rest[..n] == current + [x] + rest[1..][..n - 1];
    }
  }

  lemma {:induction false} CountPositive(current: Batch, rest: Batch, est: Batch -> int, maxTps: int, target: int)
    requires current != []
    ensures Count(current, rest, est, maxTps, target) >= 1
    decreases rest
  {
    hide Fits, Printable;
    if rest != [] && Fits(current + [rest[0]], est, maxTps, target) {
      CountPositive(current + [rest[0]], rest[1..], est, maxTps, target);
    }
  }

  /** A list the packer puts into one batch has only beginnings that fit. */
  lemma OnePackedBatch(b: Batch, n: nat, est: Batch -> int, maxTps: int, target: int)
    requires 0 < n <= |b| && Count([], b, est, maxTps, target) <= 1
    ensures Allowed(b[..n], est, maxTps, target)
  {
    hide PackFrom, Count, Printable;
    assert [b[0]] + b[1..] == b;
    CountOpens(b[0], b[1..], est, maxTps, target);
    OneBatchFits([b[0]], b[1..], n - 1, est, maxTps, target);
    assert [b[0]] + b[1..][..n - 1] == b[..n];
  }

  lemma PrefixClosedNeeded(a: Batch, b: Batch, est: Batch -> int, maxTps: int, target: int)
    requires AlwaysOptimal(est, maxTps, target) && a != [] && Allowed(a + b, est, maxTps, target)
    ensures Allowed(a, est, maxTps, target)
  {
    hide PackFrom, Allowed, Fits, Flatten, Printable;
    var other := [a + b];
    FlattenFirst(other);
    FlattenNone();
    assert other[1..] == [] && (a + b) + [] == a + b;
    assert |Pack(Flatten(other), est, maxTps, target)| <= 1;
    OnePackedBatch(a + b, |a|, est, maxTps, target);
    assert (a + b)[..|a|] == a;
  }

  /** Greedy fills `a + p` while that may go on, and then goes on with `s`. */
  lemma {:induction false} GreedyFills(current: Batch, todo: Batch, s: Batch, est: Batch -> int, maxTps: int, target: int)
    requires PrefixClosed(est, maxTps, target) && current != [] && s != []
    requires Allowed(current + todo, est, maxTps, target) && !Fits(current + todo + [s[0]], est, maxTps, target)
    ensures Count(current, todo + s, est, maxTps, target) == 1 + Count([s[0]], s[1..], est, maxTps, target)
    decreases todo
  {
    hide PackFrom, Allowed, Fits, PrefixClosed, Count, Printable;
    CountStep(current, todo + s, est, maxTps, target);
    if todo == [] {
      assert todo + s == s && current + todo == current;
    } else {
      MoveFirst(current, todo);
      PrefixAllowed(current + [todo[0]], todo[1..], est, maxTps, target);
      AllowedFits(current + [todo[0]], est, maxTps, target);
      assert (todo + s)[0] == todo[0] && (todo + s)[1..] == todo[1..] + s;
      GreedyFills(current + [todo[0]], todo[1..], s, est, maxTps, target);
    }
  }

  lemma ExchangeNeeded(a: Batch, p: Batch, s: Batch, est: Batch -> int, maxTps: int, target: int)
    requires AlwaysOptimal(est, maxTps, target) && PrefixClosed(est, maxTps, target) && a != [] && s != []
    requires Allowed(a + p, est, maxTps, target) && Allowed(p + s, est, maxTps, target)
    requires !Fits(a + p + [s[0]], est, maxTps, target)
    ensures Allowed(s, est, maxTps, target)
  {
    hide PackFrom, Allowed, Fits, Flatten, PrefixClosed, Count, Printable;
    var first, todo := a[0], a[1..] + p;
    PrefixAllowed(a, p, est, maxTps, target);
    TwoBatches(a, p + s, est, maxTps, target);
    assert [first] + todo == a + p;
    assert a + (p + s) == [first] + (todo + s);
    CountOpens(first, todo + s, est, maxTps, target);
    GreedyFills([first], todo, s, est, maxTps, target);
    CountOpens(s[0], s[1..], est, maxTps, target);
    assert [s[0]] + s[1..] == s && s[..|s|] == s;
    OnePackedBatch(s, |s|, est, maxTps, target);
  }

  lemma TwoBatches(a: Batch, b: Batch, est: Batch -> int, maxTps: int, target: int)
    requires AlwaysOptimal(est, maxTps, target) && Allowed(a, est, maxTps, target) && Allowed(b, est, maxTps, target)
    ensures Count([], a + b, est, maxTps, target) <= 2
  {
    hide PackFrom, Allowed, Flatten, Printable;
    var other := [a, b];
    FlattenFirst(other);
    FlattenFirst([b]);
    FlattenNone();
    assert other[1..] == [b] && [b][1..] == [] && b + [] == b;
    assert |Pack(Flatten(other), est, maxTps, target)| <= 2;
  }

  /** For any estimator and limits: the packer is optimal on every list if and only if allowed batches
      are closed under prefixes and can be exchanged as stated. */
  lemma OptimalIff(est: Batch -> int, maxTps: int, target: int)
    ensures AlwaysOptimal(est, maxTps, target) <==> PrefixClosed(est, maxTps, target) && Exchange(est, maxTps, target)
  {
    hide Pack, Allowed, Fits, Flatten, Printable;
    if AlwaysOptimal(est, maxTps, target) {
      forall a, b | a != [] && Allowed(a + b, est, maxTps, target) ensures Allowed(a, est, maxTps, target) {
        PrefixClosedNeeded(a, b, est, maxTps, target);
      }
      forall a, p, s | a != [] && s != [] && Allowed(a + p, est, maxTps, target) && Allowed(p + s, est, maxTps, target)
                       && !Fits(a + p + [s[0]], est, maxTps, target)
        ensures Allowed(s, est, maxTps, target)
      {
        ExchangeNeeded(a, p, s, est, maxTps, target);
      }
    }
    if PrefixClosed(est, maxTps, target) && Exchange(est, maxTps, target) {
      forall other | AllAllowed(other, est, maxTps, target)
        ensures |Pack(Flatten(other), est, maxTps, target)| <= |other|
      {
        ExchangeSuffices(other, est, maxTps, target);
      }
    }
  }

  // ---- monotone estimates ----

  predicate IsPrefix(a: Batch, b: Batch) { |a| <= |b| && a == b[..|a|] }

  predicate IsSuffix(a: Batch, b: Batch) { |a| <= |b| && a == b[|b| - |a|..] }

  /** Shortening a batch at either end never makes it dearer. */
  ghost predicate Monotone(est: Batch -> int) {
    && (forall a, b :: IsPrefix(a, b) ==> est(a) <= est(b))
    && (forall a, b :: IsSuffix(a, b) ==> est(a) <= est(b))
  }

  lemma MonotoneExchanges(est: Batch -> int, maxTps: int, target: int)
    requires Monotone(est)
    ensures PrefixClosed(est, maxTps, target) && Exchange(est, maxTps, target)
  {
    hide Printable;
    forall a, b | a != [] && Allowed(a + b, est, maxTps, target) ensures Allowed(a, est, maxTps, target) {
      assert IsPrefix(a, a + b);
    }
    forall a, p, s | a != [] && s != [] && Allowed(a + p, est, maxTps, target) && Allowed(p + s, est, maxTps, target)
                     && !Fits(a + p + [s[0]], est, maxTps, target)
      ensures Allowed(s, est, maxTps, target)
    {
      assert IsSuffix(s, p + s);
    }
  }

  /** So for a monotone estimate no order-preserving division into allowed batches uses fewer batches. */
  lemma PackIsOptimal(tps: Batch, other: seq<Batch>, est: Batch -> int, maxTps: int, target: int)
    requires Monotone(est) && Flatten(other) == tps && AllAllowed(other, est, maxTps, target)
    ensures |Pack(tps, est, maxTps, target)| <= |other|
  {
    hide *;
    MonotoneExchanges(est, maxTps, target);
    ExchangeSuffices(other, est, maxTps, target);
  }

  /** Without monotonicity greedy can lose: an estimate that charges only for one pair. */
  lemma GreedyLosesWithoutMonotone()
    ensures exists est: Batch -> int, tps, other ::
              Flatten(other) == tps && AllAllowed(other, est, 3, 10) && |other| < |Pack(tps, est, 3, 10)|
  {
    hide Printable;
    var p := TestPoint(NULL, NULL, NULL, Shown(NULL, "None"), NULL, [], [], [], []);
    var est: Batch -> int := (b: Batch) => if |b| == 2 then 11 else 0;
    var tps := [p, p, p];
    var other := [tps];
    assert Flatten(other) == tps + Flatten(other[1..]);
    assert Allowed(other[0], est, 3, 10);
    assert Pack(tps, est, 3, 10) == PackFrom([p], [p, p], est, 3, 10) by {
      assert [] + [p] == [p] && tps[1..] == [p, p];
    }
    assert PackFrom([p], [p, p], est, 3, 10) == [[p]] + PackFrom([p], [p], est, 3, 10) by {
      assert [p, p][1..] == [p];
    }
    assert PackFrom([p], [p], est, 3, 10) == [[p]] + PackFrom([p], [], est, 3, 10);
  }

  // ---- the default estimate ----

  function Points(s: string): (r: seq<int>)
    ensures AllScalars(r) && |r| == |s|
    ensures forall i :: 0 <= i < |s| ==> r[i] == s[i] as int
  {
    seq(|s|, i requires 0 <= i < |s| => s[i] as int)
  }

  function JStr(s: string): (v: Json) ensures Printable(v) { Str(Points(s)) }

  /** `value or ""`. */
  function OrEmpty(v: Dumpable): Dumpable { if Truthy(v) then v else JStr("") }

  function Clip(s: string, n: nat): string { if |s| > n then s[..n] + "…" else s }

  function ClipScenarios(vals: seq<string>): (r: seq<Json>)
    ensures PrintableItems(r)
  {
    var kept := if |vals| > 6 then vals[..6] else vals;
    seq(|kept|, i requires 0 <= i < |kept| => JStr(Clip(Strip(kept[i]), 200)))
  }

  function ScenarioField(key: string, vals: seq<string>): (r: seq<Field>)
    ensures forall i :: 0 <= i < |r| ==> r[i].key == Points(key) && Printable(r[i].value)
    ensures |r| <= 1
  {
    if vals == [] then [] else [Field(Points(key), Arr(ClipScenarios(vals)))]
  }

  function NfrField(tp: TestPoint): (r: seq<Field>)
    ensures forall i :: 0 <= i < |r| ==> r[i].key == Points("related_nfr") && Printable(r[i].value)
    ensures |r| <= 1
  {
    if Truthy(tp.relatedNfr) then [Field(Points("related_nfr"), tp.relatedNfr)] else []
  }

  /** Adding at most one field under a new key. */
  lemma FreshField(a: seq<Field>, b: seq<Field>, key: string)
    requires DistinctKeys(a) && PrintableFields(a) && |b| <= 1
    requires b != [] ==> b[0].key == Points(key) && AllScalars(b[0].key) && Printable(b[0].value)
    requires forall i :: 0 <= i < |a| ==> a[i].key != Points(key)
    ensures DistinctKeys(a + b) && PrintableFields(a + b)
  {
    hide Printable, Points, DistinctKeys, PrintableFields;
    if b == [] {
      assert a + b == a;
    } else {
      assert b == [b[0]];
      FreshKey(a, b[0]);
      FreshPrintable(a, b[0]);
    }
  }

  lemma FreshKey(a: seq<Field>, f: Field)
    requires DistinctKeys(a) && forall i :: 0 <= i < |a| ==> a[i].key != f.key
    ensures DistinctKeys(a + [f])
  {
    var c := a + [f];
    assert forall i :: 0 <= i < |a| ==> c[i] == a[i];
  }

  lemma FreshPrintable(a: seq<Field>, f: Field)
    requires PrintableFields(a) && AllScalars(f.key) && Printable(f.value)
    ensures PrintableFields(a + [f])
  {
    hide Printable;
    var c := a + [f];
    assert forall i :: 0 <= i < |a| ==> c[i] == a[i];
  }

  function BaseFields(tp: TestPoint): (r: seq<Field>)
    ensures DistinctKeys(r) && PrintableFields(r)
    ensures forall i :: 0 <= i < |r| ==> |r[i].key| <= 10
  {
    assert Points("scenario")[0] != Points("priority")[0];
    [Field(Points("id"), tp.id), Field(Points("scenario"), OrEmpty(tp.scenario)),
     Field(Points("priority"), OrEmpty(tp.priority)), Field(Points("related_fr"), OrEmpty(tp.relatedFr.json))]
  }

  function TestPointFields(tp: TestPoint): seq<Field> {
    BaseFields(tp) + NfrField(tp)
    + ScenarioField("positive_scenarios", tp.positive)
    + ScenarioField("boundary_conditions", tp.boundary)
    + ScenarioField("negative_scenarios", tp.negative)
    + ScenarioField("permission_scenarios", tp.permission)
  }

  lemma TestPointFieldsPrintable(tp: TestPoint)
    ensures DistinctKeys(TestPointFields(tp)) && PrintableFields(TestPointFields(tp))
  {
    hide DistinctKeys, PrintableFields, Printable, BaseFields, ScenarioField, NfrField;
    var f0 := BaseFields(tp);
    var f1 := f0 + NfrField(tp);
    var f2 := f1 + ScenarioField("positive_scenarios", tp.positive);
    var f3 := f2 + ScenarioField("boundary_conditions", tp.boundary);
    var f4 := f3 + ScenarioField("negative_scenarios", tp.negative);
    FreshField(f0, NfrField(tp), "related_nfr");
    FreshField(f1, ScenarioField("positive_scenarios", tp.positive), "positive_scenarios");
    FreshField(f2, ScenarioField("boundary_conditions", tp.boundary), "boundary_conditions");
    assert Points("positive_scenarios")[0] != Points("negative_scenarios")[0];
    FreshField(f3, ScenarioField("negative_scenarios", tp.negative), "negative_scenarios");
    FreshField(f4, ScenarioField("permission_scenarios", tp.permission), "permission_scenarios");
  }

  function CompressTestPoint(tp: TestPoint): (v: Json)
    ensures Printable(v)
  {
    TestPointFieldsPrintable(tp);
    var fields := TestPointFields(tp);
    Obj(fields)
  }

  function CompressFrSummary(fr: Fr): (v: Json)
    ensures Printable(v)
  {
    var fields := [Field(Points("id"), fr.id), Field(Points("module"), OrEmpty(fr.moduleName)),
                   Field(Points("description"), JStr(Clip(fr.description, 120))),
                   Field(Points("priority"), OrEmpty(fr.priority))];
    Obj(fields)
  }

  // ---- what a payload says ----

  predicate Says(fields: seq<Field>, key: string, value: Json) { Field(Points(key), value) in fields }

  /** A list of texts is left out if it is empty; else its first six are there, stripped and cut to 200
      characters and an ellipsis. */
  ghost predicate SaysTexts(fields: seq<Field>, key: string, vals: seq<string>) {
    && (vals == [] ==> forall f :: f in fields ==> f.key != Points(key))
    && (vals != [] ==> exists items: seq<Json> ::
          Says(fields, key, Arr(items)) && |items| == (if |vals| < 6 then |vals| else 6)
          && forall k :: 0 <= k < |items| ==>
               items[k] == JStr(if |Strip(vals[k])| <= 200 then Strip(vals[k]) else Strip(vals[k])[..200] + "…"))
  }

  lemma ScenarioSays(key: string, vals: seq<string>, items: seq<Json>)
    requires vals != [] && items == ClipScenarios(vals)
    ensures ScenarioField(key, vals) == [Field(Points(key), Arr(items))]
    ensures |items| == (if |vals| < 6 then |vals| else 6)
    ensures forall k :: 0 <= k < |items| ==>
              items[k] == JStr(if |Strip(vals[k])| <= 200 then Strip(vals[k]) else Strip(vals[k])[..200] + "…")
  {
    forall k | 0 <= k < |items|
      ensures items[k] == JStr(if |Strip(vals[k])| <= 200 then Strip(vals[k]) else Strip(vals[k])[..200] + "…")
    {
      hide Strip, JStr;
      var s := Strip(vals[k]);
      assert items[k] == JStr(Clip(s, 200));
      assert Clip(s, 200) == if |s| <= 200 then s else s[..200] + "…";
    }
  }

  lemma KeysDiffer()
    ensures forall i, j :: 0 <= i < j < |KEYS| ==> Points(KEYS[i]) != Points(KEYS[j])
  {
    forall i, j | 0 <= i < j < |KEYS| ensures Points(KEYS[i]) != Points(KEYS[j]) {
      KeyPair(KEYS[i], KEYS[j]);
    }
  }

  const KEYS: seq<string> :=
    ["id", "scenario", "priority", "related_fr", "related_nfr",
     "positive_scenarios", "boundary_conditions", "negative_scenarios", "permission_scenarios"]

  lemma KeyPair(a: string, b: string)
    requires a != b
    ensures Points(a) != Points(b)
  {
    if |a| == |b| {
      var k :| 0 <= k < |a| && a[k] != b[k];
      assert Points(a)[k] != Points(b)[k];
    }
  }

  lemma ListSaid(fields: seq<Field>, key: string, vals: seq<string>)
    requires forall f :: f in ScenarioField(key, vals) ==> f in fields
    requires vals == [] ==> forall f :: f in fields ==> f.key != Points(key)
    ensures SaysTexts(fields, key, vals)
  {
    hide Strip, Points, ClipScenarios;
    if vals != [] {
      var items := ClipScenarios(vals);
      ScenarioSays(key, vals, items);
      assert Field(Points(key), Arr(items)) in ScenarioField(key, vals);
      assert Says(fields, key, Arr(items));
    }
  }

  /** The fields are those of the parts. */
  lemma FieldsOfParts(tp: TestPoint)
    ensures forall f :: f in TestPointFields(tp) <==>
              || f in BaseFields(tp) || f in NfrField(tp) || f in ScenarioField("positive_scenarios", tp.positive)
              || f in ScenarioField("boundary_conditions", tp.boundary) || f in ScenarioField("negative_scenarios", tp.negative)
              || f in ScenarioField("permission_scenarios", tp.permission)
  {
    hide BaseFields, NfrField, ScenarioField;
  }

  /** The compressed test point: id, scenario, priority and requirement as they are, a non-functional
      requirement only if there is one, and the four lists of texts. */
  lemma CompressMeaning(tp: TestPoint)
    ensures var v := CompressTestPoint(tp);
            && v.Obj? && Says(v.fields, "id", tp.id) && Says(v.fields, "scenario", OrEmpty(tp.scenario))
            && Says(v.fields, "priority", OrEmpty(tp.priority)) && Says(v.fields, "related_fr", OrEmpty(tp.relatedFr.json))
            && (Truthy(tp.relatedNfr) ==> Says(v.fields, "related_nfr", tp.relatedNfr))
            && SaysTexts(v.fields, "positive_scenarios", tp.positive) && SaysTexts(v.fields, "boundary_conditions", tp.boundary)
            && SaysTexts(v.fields, "negative_scenarios", tp.negative) && SaysTexts(v.fields, "permission_scenarios", tp.permission)
  {
    FieldsOfParts(tp);
    hide Strip, Truthy, OrEmpty, Printable, DistinctKeys, PrintableFields, SaysTexts, Points, BaseFields, ScenarioField, TestPointFields;
    var fields := TestPointFields(tp);
    assert CompressTestPoint(tp).fields == fields;
    KeysDiffer();
    KeyOfBase(tp);
    if Truthy(tp.relatedNfr) {
      assert Field(Points("related_nfr"), tp.relatedNfr) in NfrField(tp);
    }
    hide NfrField;
    KeyNames();
    hide KEYS;
    OthersLackKey(tp, 5);
    OthersLackKey(tp, 6);
    OthersLackKey(tp, 7);
    OthersLackKey(tp, 8);
    ListSaid(fields, "positive_scenarios", tp.positive);
    ListSaid(fields, "boundary_conditions", tp.boundary);
    ListSaid(fields, "negative_scenarios", tp.negative);
    ListSaid(fields, "permission_scenarios", tp.permission);
  }

  lemma KeyNames()
    ensures |KEYS| == 9 && KEYS[4] == "related_nfr" && KEYS[5] == "positive_scenarios" && KEYS[6] == "boundary_conditions"
    ensures KEYS[7] == "negative_scenarios" && KEYS[8] == "permission_scenarios"
  {
  }

  lemma KeyOfBase(tp: TestPoint)
    ensures var b := BaseFields(tp);
            && Says(b, "id", tp.id) && Says(b, "scenario", OrEmpty(tp.scenario))
            && Says(b, "priority", OrEmpty(tp.priority)) && Says(b, "related_fr", OrEmpty(tp.relatedFr.json))
            && forall f :: f in b ==> f.key == Points(KEYS[0]) || f.key == Points(KEYS[1]) || f.key == Points(KEYS[2]) || f.key == Points(KEYS[3])
  {
    hide Points, Printable, OrEmpty;
    var b := BaseFields(tp);
    assert b[0].key == Points("id") && b[1].key == Points("scenario") && b[2].key == Points("priority") && b[3].key == Points("related_fr");
  }

  function Lists(tp: TestPoint): seq<seq<string>> { [tp.positive, tp.boundary, tp.negative, tp.permission] }

  lemma KeyOfList(key: string, vals: seq<string>)
    ensures forall f :: f in ScenarioField(key, vals) ==> f.key == Points(key) && vals != []
  {
    hide Points, ClipScenarios;
  }

  lemma KeyOfNfr(tp: TestPoint)
    ensures forall f :: f in NfrField(tp) ==> f.key == Points("related_nfr")
  {
    hide Points, Truthy;
  }

  /** If list `i` is empty no field has its key. */
  lemma OthersLackKey(tp: TestPoint, i: nat)
    requires 5 <= i < 9 == |KEYS| && forall a, b :: 0 <= a < b < |KEYS| ==> Points(KEYS[a]) != Points(KEYS[b])
    ensures Lists(tp)[i - 5] == [] ==> forall f :: f in TestPointFields(tp) ==> f.key != Points(KEYS[i])
  {
    KeyOfBase(tp);
    KeyOfNfr(tp);
    KeyOfList("positive_scenarios", tp.positive);
    KeyOfList("boundary_conditions", tp.boundary);
    KeyOfList("negative_scenarios", tp.negative);
    KeyOfList("permission_scenarios", tp.permission);
    FieldsOfParts(tp);
    KeyNames();
    hide KEYS, Points, BaseFields, NfrField, ScenarioField, TestPointFields, Says;
    if Lists(tp)[i - 5] == [] {
      forall f | f in TestPointFields(tp) ensures f.key != Points(KEYS[i]) {
        var k := OtherKey(tp, f, i);
        assert if k < i then Points(KEYS[k]) != Points(KEYS[i]) else Points(KEYS[i]) != Points(KEYS[k]);
      }
    }
  }

  lemma OtherKey(tp: TestPoint, f: Field, i: nat) returns (k: nat)
    requires 5 <= i < 9 && f in TestPointFields(tp) && Lists(tp)[i - 5] == []
    ensures k < 9 == |KEYS| && k != i && f.key == Points(KEYS[k])
  {
    KeyOfBase(tp);
    KeyOfNfr(tp);
    KeyOfList("positive_scenarios", tp.positive);
    KeyOfList("boundary_conditions", tp.boundary);
    KeyOfList("negative_scenarios", tp.negative);
    KeyOfList("permission_scenarios", tp.permission);
    FieldsOfParts(tp);
    KeyNames();
    hide KEYS, Points, BaseFields, NfrField, ScenarioField, TestPointFields, Says;
    if f in BaseFields(tp) {
      k := if f.key == Points(KEYS[0]) then 0 else if f.key == Points(KEYS[1]) then 1 else if f.key == Points(KEYS[2]) then 2 else 3;
    } else if f in NfrField(tp) {
      k := 4;
    } else if f in ScenarioField("positive_scenarios", tp.positive) {
      k := 5;
    } else if f in ScenarioField("boundary_conditions", tp.boundary) {
      k := 6;
    } else if f in ScenarioField("negative_scenarios", tp.negative) {
      k := 7;
    } else {
      k := 8;
    }
  }

  /** The summary of a requirement: its description is cut to 120 characters and an ellipsis. */
  lemma FrSummaryMeaning(fr: Fr)
    ensures var v := CompressFrSummary(fr);
            && v.Obj? && |v.fields| == 4 && Says(v.fields, "id", fr.id) && Says(v.fields, "module", OrEmpty(fr.moduleName))
            && Says(v.fields, "priority", OrEmpty(fr.priority))
            && Says(v.fields, "description",
                    JStr(if |fr.description| <= 120 then fr.description else fr.description[..120] + "…"))
  {
    hide Points, OrEmpty, Printable, JStr;
    var fields := CompressFrSummary(fr).fields;
    assert fields[0].key == Points("id") && fields[1].key == Points("module")
        && fields[2].key == Points("description") && fields[3].key == Points("priority");
    assert Clip(fr.description, 120) == if |fr.description| <= 120 then fr.description else fr.description[..120] + "…";
    assert fields[0] in fields && fields[1] in fields && fields[2] in fields && fields[3] in fields;
  }

  /** The requirement ids a batch refers to, each once, in order of first mention. */
  function FrIds(batch: Batch, frs: map<string, Fr>, seen: set<string>): (ids: seq<string>)
    ensures forall i :: 0 <= i < |ids| ==> ids[i] in frs
    decreases batch
  {
    if batch == [] then []
    else
      var rid := Mentioned(batch[0]);
      if rid == "" || rid in seen || rid !in frs then FrIds(batch[1..], frs, seen)
      else [rid] + FrIds(batch[1..], frs, seen + {rid})
  }

  function Summaries(ids: seq<string>, frs: map<string, Fr>): (r: seq<Json>)
    requires forall i :: 0 <= i < |ids| ==> ids[i] in frs
    ensures PrintableItems(r)
  {
    if ids == [] then [] else [CompressFrSummary(frs[ids[0]])] + Summaries(ids[1..], frs)
  }

  lemma FrIdsStep(out: seq<Json>, batch: Batch, i: nat, frs: map<string, Fr>, seen: set<string>)
    requires i < |batch|
    ensures var rid, rest := Mentioned(batch[i]), batch[i + 1..];
            out + Summaries(FrIds(batch[i..], frs, seen), frs)
            == if rid == "" || rid in seen || rid !in frs then out + Summaries(FrIds(rest, frs, seen), frs)
               else out + [CompressFrSummary(frs[rid])] + Summaries(FrIds(rest, frs, seen + {rid}), frs)
  {
    hide Mentioned, CompressFrSummary, Printable;
    var rid, rest := Mentioned(batch[i]), batch[i + 1..];
    assert batch[i..][0] == batch[i] && batch[i..][1..] == rest;
    if !(rid == "" || rid in seen || rid !in frs) {
      var ids := FrIds(rest, frs, seen + {rid});
      assert ([rid] + ids)[1..] == ids;
      Reassociate(out, [CompressFrSummary(frs[rid])], Summaries(ids, frs));
    }
  }

  method BuildFrSummariesForBatch(batch: Batch, frs: map<string, Fr>) returns (out: seq<Json>)
    ensures out == Summaries(FrIds(batch, frs, {}), frs)
  {
    var seen: set<string> := {};
    out := [];
    for i := 0 to |batch|
      invariant out + Summaries(FrIds(batch[i..], frs, seen), frs) == Summaries(FrIds(batch, frs, {}), frs)
    {
      FrIdsStep(out, batch, i, frs, seen);
      hide Mentioned, CompressFrSummary, FrIds, Summaries, Printable, PrintableItems;
      var rid := Mentioned(batch[i]);
      if !(rid == "" || rid in seen || rid !in frs) {
        seen := seen + {rid};
        out := out + [CompressFrSummary(frs[rid])];
      }
    }
  }

  function Compressed(batch: Batch): (r: seq<Json>)
    ensures PrintableItems(r)
  {
    if batch == [] then [] else [CompressTestPoint(batch[0])] + Compressed(batch[1..])
  }

  /** `{"tps": [...], "frs": [...]}`. */
  function Skeleton(tps: seq<Json>, frs: seq<Json>): (v: Json)
    requires PrintableItems(tps) && PrintableItems(frs)
    ensures Printable(v)
  {
    assert Points("tps")[0] != Points("frs")[0];
    assert Printable(Arr(tps)) && Printable(Arr(frs));
    var fields := [Field(Points("tps"), Arr(tps)), Field(Points("frs"), Arr(frs))];
    assert PrintableFields(fields);
    Obj(fields)
  }

  function Payload(batch: Batch, frs: map<string, Fr>): (v: Json)
    ensures Printable(v)
  {
    Skeleton(Compressed(batch), Summaries(FrIds(batch, frs, {}), frs))
  }

  function EstimateBatchPayload(batch: Batch, frs: map<string, Fr>, overhead: int): int {
    overhead + EstimateTokens(Dumps(Payload(batch, frs), COMPACT))
  }

  // ---- the default estimate is monotone ----

  /** Weight of an array's elements, commas included. */
  function ItemsWeight(items: seq<Json>): nat
    requires PrintableItems(items)
  {
    Weight(PutElems(LayoutItems(items, COMPACT, 1, true), ""))
  }

  function ItemWeight(v: Json): nat
    requires Printable(v)
  {
    Weight(Text(Layout(v, COMPACT, 2)))
  }

  function Total(items: seq<Json>): nat
    requires PrintableItems(items)
  {
    if items == [] then 0 else ItemWeight(items[0]) + Total(items[1..])
  }

  function Commas(n: nat): nat { if n == 0 then 0 else 3 * (n - 1) }

  lemma {:induction false} ItemsWeightIsTotal(items: seq<Json>, first: bool)
    requires PrintableItems(items)
    ensures Weight(PutElems(LayoutItems(items, COMPACT, 1, first), "")) == Total(items) + Commas(|items|)
  {
    if items != [] {
      var d := Layout(items[0], COMPACT, 2);
      var more := LayoutItems(items[1..], COMPACT, 1, false);
      var tail := PutMoreElems(more, "");
      ItemsWeightIsTotal(items[1..], false);
      TextThen(d, tail);
      assert "" + Put(d, "" + tail) == Text(d) + tail by { assert "" + tail == tail; }
      WeightConcat(Text(d), tail);
      if more.Elem? {
        WeightConcat([','], PutElems(more, ""));
        assert Weight([',']) == 3;
      }
    }
  }

  /** The payload's text around the two arrays. */
  lemma PayloadWeight(batch: Batch, frs: map<string, Fr>)
    ensures Weight(Dumps(Payload(batch, frs), COMPACT)) == Weight(Dumps(Payload([], map[]), COMPACT))
            + ItemsWeight(Compressed(batch)) + ItemsWeight(Summaries(FrIds(batch, frs, {}), frs))
  {
    SkeletonWeight(Compressed(batch), Summaries(FrIds(batch, frs, {}), frs));
    SkeletonWeight([], []);
  }

  function Head(): string { ['{'] + PutString(Escape(Points("tps")), [':', '[']) }

  function Middle(): string { [']', ','] + PutString(Escape(Points("frs")), [':', '[']) }

  lemma SkeletonWeight(tps: seq<Json>, frs: seq<Json>)
    requires PrintableItems(tps) && PrintableItems(frs)
    ensures Weight(Dumps(Skeleton(tps, frs), COMPACT))
         == Weight(Head()) + ItemsWeight(tps) + Weight(Middle()) + ItemsWeight(frs) + 6
  {
    var e1, e2 := LayoutItems(tps, COMPACT, 1, true), LayoutItems(frs, COMPACT, 1, true);
    var t1, t2 := PutElems(e1, ""), PutElems(e2, "");
    SkeletonText(tps, frs);
    WeightConcat(Head() + t1 + Middle() + t2, "]}");
    WeightConcat(Head() + t1 + Middle(), t2);
    WeightConcat(Head() + t1, Middle());
    WeightConcat(Head(), t1);
    assert "]}"[1..] == "}" && Weight("}") == 3 && Weight("]}") == 6;
  }

  function ArrayMember(key: string, items: seq<Json>, more: Members): Members
    requires PrintableItems(items)
  {
    Member("", Escape(Points(key)), "", "", DArr("", LayoutItems(items, COMPACT, 1, true)), "", more)
  }

  lemma SkeletonLayout(tps: seq<Json>, frs: seq<Json>)
    requires PrintableItems(tps) && PrintableItems(frs)
    ensures Layout(Skeleton(tps, frs), COMPACT, 0)
         == DObj("", ArrayMember("tps", tps, ArrayMember("frs", frs, NoMembers)))
  {
    hide Points, Escape, LayoutItems, PrintableItems;
    assert Layout(Arr(tps), COMPACT, 1) == DArr("", LayoutItems(tps, COMPACT, 1, true));
    assert Layout(Arr(frs), COMPACT, 1) == DArr("", LayoutItems(frs, COMPACT, 1, true));
    var f1, f2 := Field(Points("tps"), Arr(tps)), Field(Points("frs"), Arr(frs));
    var fields := Skeleton(tps, frs).fields;
    assert fields == [f1, f2] && fields[1..] == [f2] && fields[1..][1..] == [];
    assert LayoutFields(fields[1..], COMPACT, 0, false) == ArrayMember("frs", frs, NoMembers);
  }

  lemma SkeletonText(tps: seq<Json>, frs: seq<Json>)
    requires PrintableItems(tps) && PrintableItems(frs)
    ensures Dumps(Skeleton(tps, frs), COMPACT)
         == Head() + PutElems(LayoutItems(tps, COMPACT, 1, true), "")
            + Middle() + PutElems(LayoutItems(frs, COMPACT, 1, true), "") + "]}"
  {
    hide Layout, LayoutItems, PutElems, PutString, Escape, Points, PrintableItems;
    SkeletonLayout(tps, frs);
    var t1 := PutElems(LayoutItems(tps, COMPACT, 1, true), "");
    var t2 := PutElems(LayoutItems(frs, COMPACT, 1, true), "");
    var k1, k2 := Escape(Points("tps")), Escape(Points("frs"));
    var m2 := ArrayMember("frs", frs, NoMembers);
    MemberText("frs", frs, NoMembers, "}");
    MemberText("tps", tps, m2, "}");
    assert t2 + "]" + "}" == t2 + "]}";
    var rest := [','] + PutMembers(m2, "}");
    PutStringAppend(k1, [':', '['], t1 + "]" + rest);
    PutStringAppend(k2, [':', '['], t2 + "]}");
    assert ['}'] + "" == "}";
    assert Put(DObj("", ArrayMember("tps", tps, m2)), "") == ['{'] + ("" + PutMembers(ArrayMember("tps", tps, m2), "}"));
  }

  /** One member holding an array, laid out without blanks. */
  lemma MemberText(key: string, items: seq<Json>, more: Members, k: string)
    requires PrintableItems(items)
    ensures PutMembers(ArrayMember(key, items, more), k)
         == PutString(Escape(Points(key)),
                      [':', '['] + (PutElems(LayoutItems(items, COMPACT, 1, true), "") + "]" + PutMoreMembers(more, k)))
  {
    hide LayoutItems, PutElems, PutString, Escape, Points, PrintableItems;
    var es, tail := LayoutItems(items, COMPACT, 1, true), PutMoreMembers(more, k);
    var t := PutElems(es, "");
    assert "" + tail == tail && "" + ([']'] + tail) == [']'] + tail;
    PutElemsAppend(es, "", [']'] + tail);
    assert Put(DArr("", es), tail) == ['['] + (t + "]" + tail);
    assert "" + ([':'] + ("" + (['['] + (t + "]" + tail)))) == [':', '['] + (t + "]" + tail);
  }

  lemma {:induction false} TotalConcat(a: seq<Json>, b: seq<Json>)
    requires PrintableItems(a) && PrintableItems(b)
    ensures PrintableItems(a + b) && Total(a + b) == Total(a) + Total(b)
  {
    if a == [] {
      assert a + b == b;
    } else {
      assert (a + b)[1..] == a[1..] + b;
      TotalConcat(a[1..], b);
    }
  }

  lemma {:induction false} CompressedConcat(a: Batch, b: Batch)
    ensures Compressed(a + b) == Compressed(a) + Compressed(b)
  {
    if a == [] {
      assert a + b == b;
    } else {
      assert (a + b)[1..] == a[1..] + b;
      CompressedConcat(a[1..], b);
    }
  }

  lemma {:induction false} CompressedLength(a: Batch)
    ensures |Compressed(a)| == |a|
  {
    if a != [] { CompressedLength(a[1..]); }
  }

  ghost function Mentions(batch: Batch, frs: map<string, Fr>): set<string> {
    set i | 0 <= i < |batch| && Mentioned(batch[i]) != "" && Mentioned(batch[i]) in frs
      :: Mentioned(batch[i])
  }

  /** The summaries list every mentioned requirement exactly once. */
  lemma {:induction false} FrIdsAreMentions(batch: Batch, frs: map<string, Fr>, seen: set<string>)
    ensures var ids := FrIds(batch, frs, seen);
            && Grouping.NoRepeats(ids)
            && forall id :: id in ids <==> id in Mentions(batch, frs) - seen
    decreases batch
  {
    if batch != [] {
      hide Mentions, Mentioned, Printable, Truthy;
      var rid, rest := Mentioned(batch[0]), batch[1..];
      FirstMention(batch, frs);
      if rid == "" || rid in seen || rid !in frs {
        FrIdsAreMentions(rest, frs, seen);
      } else {
        FrIdsAreMentions(rest, frs, seen + {rid});
        var more := FrIds(rest, frs, seen + {rid});
        assert rid !in more;
        FreshFirst(rid, more);
      }
    }
  }

  lemma FreshFirst(id: string, more: seq<string>)
    requires Grouping.NoRepeats(more) && id !in more
    ensures Grouping.NoRepeats([id] + more)
    ensures forall v :: v in [id] + more <==> v == id || v in more
  {
    var all := [id] + more;
    assert forall i :: 0 < i < |all| ==> all[i] == more[i - 1];
  }

  /** A batch mentions what its first test point refers to and what the others mention. */
  lemma FirstMention(batch: Batch, frs: map<string, Fr>)
    requires batch != []
    ensures var rid := Mentioned(batch[0]);
            forall id :: id in Mentions(batch, frs) <==> (id == rid && rid != "" && rid in frs) || id in Mentions(batch[1..], frs)
  {
    hide Mentioned, Printable;
    var rid, rest := Mentioned(batch[0]), batch[1..];
    forall id | id in Mentions(rest, frs) ensures id in Mentions(batch, frs) {
      var i :| 0 <= i < |rest| && Mentioned(rest[i]) == id && id != "" && id in frs;
      assert batch[i + 1] == rest[i];
    }
    forall id | id in Mentions(batch, frs) && id != rid ensures id in Mentions(rest, frs) {
      var i :| 0 <= i < |batch| && Mentioned(batch[i]) == id && id != "" && id in frs;
      assert rest[i - 1] == batch[i];
    }
    if rid != "" && rid in frs {
      assert Mentioned(batch[0]) in Mentions(batch, frs);
    }
  }

  lemma {:induction false} SummariesConcat(a: seq<string>, b: seq<string>, frs: map<string, Fr>)
    requires forall i :: 0 <= i < |a| ==> a[i] in frs
    requires forall i :: 0 <= i < |b| ==> b[i] in frs
    ensures Summaries(a + b, frs) == Summaries(a, frs) + Summaries(b, frs)
    ensures |Summaries(a, frs)| == |a|
  {
    hide CompressFrSummary, PrintableItems, Printable;
    if a == [] {
      assert a + b == b;
    } else {
      assert (a + b)[1..] == a[1..] + b && (a + b)[0] == a[0];
      SummariesConcat(a[1..], b, frs);
      var first := CompressFrSummary(frs[a[0]]);
      assert Summaries(a + b, frs) == [first] + Summaries(a[1..] + b, frs);
      Reassociate([first], Summaries(a[1..], frs), Summaries(b, frs));
    }
  }

  lemma OthersRemain(a: seq<string>, b: seq<string>, j: nat)
    requires a != [] && Grouping.NoRepeats(a) && forall i :: 0 <= i < |a| ==> a[i] in b
    requires j < |b| && b[j] == a[0]
    ensures Grouping.NoRepeats(a[1..]) && forall i :: 0 <= i < |a[1..]| ==> a[1..][i] in b[..j] + b[j + 1..]
  {
    var rest := b[..j] + b[j + 1..];
    forall i | 0 <= i < |a[1..]|
      ensures a[1..][i] in rest
    {
      var m :| 0 <= m < |b| && b[m] == a[i + 1];
      assert m != j;
      assert if m < j then rest[m] == b[m] else rest[m - 1] == b[m];
    }
  }

  /** Distinct ids drawn from a list cost at most what the list costs, in whatever order. */
  lemma {:induction false} FewerIdsCostLess(a: seq<string>, b: seq<string>, frs: map<string, Fr>)
    requires Grouping.NoRepeats(a) && forall i :: 0 <= i < |a| ==> a[i] in b
    requires forall i :: 0 <= i < |b| ==> b[i] in frs
    ensures forall i :: 0 <= i < |a| ==> a[i] in frs
    ensures |a| <= |b| && Total(Summaries(a, frs)) <= Total(Summaries(b, frs))
  {
    hide CompressFrSummary, ItemWeight, Printable;
    if a != [] {
      assert a[0] in b;
      var j :| 0 <= j < |b| && b[j] == a[0];
      var l, r := b[..j], b[j + 1..];
      OthersRemain(a, b, j);
      FewerIdsCostLess(a[1..], l + r, frs);
      SummariesConcat(l, r, frs);
      SummariesConcat(l, [a[0]] + r, frs);
      assert b == l + ([a[0]] + r);
      assert ([a[0]] + r)[1..] == r;
      TotalConcat(Summaries(l, frs), Summaries(r, frs));
      TotalConcat(Summaries(l, frs), Summaries([a[0]] + r, frs));
    }
  }

  lemma FrSummariesGrow(a: Batch, b: Batch, frs: map<string, Fr>)
    requires Mentions(a, frs) <= Mentions(b, frs)
    ensures ItemsWeight(Summaries(FrIds(a, frs, {}), frs)) <= ItemsWeight(Summaries(FrIds(b, frs, {}), frs))
  {
    var x, y := FrIds(a, frs, {}), FrIds(b, frs, {});
    FrIdsAreMentions(a, frs, {});
    FrIdsAreMentions(b, frs, {});
    hide FrIds, Summaries, Mentions, LayoutItems, PutElems, Weight;
    forall i | 0 <= i < |x|
      ensures x[i] in y
    {
      assert x[i] in x && x[i] in Mentions(a, frs) - {};
    }
    FewerIdsCostLess(x, y, frs);
    SummariesConcat(x, [], frs);
    SummariesConcat(y, [], frs);
    ItemsAndCommas(Summaries(x, frs));
    ItemsAndCommas(Summaries(y, frs));
  }

  lemma ItemsAndCommas(items: seq<Json>)
    requires PrintableItems(items)
    ensures ItemsWeight(items) == Total(items) + Commas(|items|)
  {
    hide Weight, Total, PutElems, LayoutItems;
    ItemsWeightIsTotal(items, true);
  }

  lemma MentionsGrow(l: Batch, b: Batch, r: Batch, frs: map<string, Fr>)
    ensures Mentions(b, frs) <= Mentions(l + b + r, frs)
  {
    var whole := l + b + r;
    forall id | id in Mentions(b, frs)
      ensures id in Mentions(whole, frs)
    {
      var i :| 0 <= i < |b| && Mentioned(b[i]) == id && id != "" && id in frs;
      assert whole[|l| + i] == b[i];
    }
  }

  /** A contiguous part of a batch is never dearer, although the summaries are de-duplicated. */
  lemma EstimateGrows(l: Batch, b: Batch, r: Batch, frs: map<string, Fr>, overhead: int)
    ensures EstimateBatchPayload(b, frs, overhead) <= EstimateBatchPayload(l + b + r, frs, overhead)
  {
    hide Compressed, Total, Weight, ItemsWeight, FrIds, Summaries, Mentions, Printable;
    var whole := l + b + r;
    PayloadWeight(b, frs);
    PayloadWeight(whole, frs);
    CompressedConcat(l + b, r);
    CompressedConcat(l, b);
    TotalConcat(Compressed(l) + Compressed(b), Compressed(r));
    TotalConcat(Compressed(l), Compressed(b));
    CompressedLength(b);
    CompressedLength(whole);
    ItemsAndCommas(Compressed(b));
    ItemsAndCommas(Compressed(whole));
    MentionsGrow(l, b, r, frs);
    FrSummariesGrow(b, whole, frs);
  }

  function DefaultEstimate(frs: map<string, Fr>, overhead: int): Batch -> int {
    (b: Batch) => EstimateBatchPayload(b, frs, overhead)
  }

  lemma DefaultEstimateIsMonotone(frs: map<string, Fr>, overhead: int)
    ensures Monotone(DefaultEstimate(frs, overhead))
  {
    hide EstimateBatchPayload;
    var est := DefaultEstimate(frs, overhead);
    forall a, b | IsPrefix(a, b)
      ensures est(a) <= est(b)
    {
      EstimateGrows([], a, b[|a|..], frs, overhead);
      assert [] + a + b[|a|..] == b;
    }
    forall a, b | IsSuffix(a, b)
      ensures est(a) <= est(b)
    {
      EstimateGrows(b[..|b| - |a|], a, [], frs, overhead);
      assert b[..|b| - |a|] + a + [] == b;
    }
  }

  /** With the default estimate the packer is optimal for every list of test points. */
  lemma DefaultPackIsOptimal(tps: Batch, frs: map<string, Fr>, overhead: int, maxTps: int, target: int, other: seq<Batch>)
    requires Flatten(other) == tps && AllAllowed(other, DefaultEstimate(frs, overhead), maxTps, target)
    ensures |Pack(tps, DefaultEstimate(frs, overhead), maxTps, target)| <= |other|
  {
    DefaultEstimateIsMonotone(frs, overhead);
    PackIsOptimal(tps, other, DefaultEstimate(frs, overhead), maxTps, target);
  }
}
