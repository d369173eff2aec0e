/** Bounding the arrays of a JSON snapshot (cli/commands/local-state.ts). */
module JsonTruncation {
  datatype Json =
    | Scalar(text: string)                          // null, booleans, numbers and strings
    | Arr(items: seq<Json>)
    | Obj(keys: seq<string>, values: seq<Json>)     // entries in order; |keys| == |values|

  function Min(a: nat, b: nat): nat {
    if a <= b then a else b
  }

  function Truncate(value: Json, limit: nat): Json {
    match value
    case Scalar(_) => value
    case Arr(items) => Arr(TruncateFirst(items, Min(limit, |items|), limit))
    case Obj(keys, values) => Obj(keys, TruncateFirst(values, |values|, limit))
  }

  /** The first `n` values, each truncated. */
  function TruncateFirst(values: seq<Json>, n: nat, limit: nat): (r: seq<Json>)
    requires n <= |values|
    ensures |r| == n
    ensures forall i :: 0 <= i < n ==> r[i] == Truncate(values[i], limit)
    decreases values, n
  {
    if n == 0 then [] else TruncateFirst(values, n - 1, limit) + [Truncate(values[n - 1], limit)]
  }

  /** The items dropped from every array that is reached. */
  function Omitted(value: Json, limit: nat): nat {
    match value
    case Scalar(_) => 0
    case Arr(items) => |items| - Min(limit, |items|) + OmittedFirst(items, Min(limit, |items|), limit)
    case Obj(_, values) => OmittedFirst(values, |values|, limit)
  }

  function OmittedFirst(values: seq<Json>, n: nat, limit: nat): nat
    requires n <= |values|
    decreases values, n
  {
    if n == 0 then 0 else OmittedFirst(values, n - 1, limit) + Omitted(values[n - 1], limit)
  }

  /** The shared counter the recursion bumps. */
  class OmittedCounter {
    var count: nat

    constructor ()
      ensures count == 0
    {
      count := 0;
    }
  }

  method TruncateArrays(value: Json, limit: nat, omitted: OmittedCounter) returns (r: Json)
    modifies omitted
    ensures r == Truncate(value, limit) && omitted.count == old(omitted.count) + Omitted(value, limit)
    decreases value, 1
  {
    match value {
      case Arr(items) =>
        if |items| > limit {
          omitted.count := omitted.count + (|items| - limit);
        }
        var bounded := TruncateEach(value, items, Min(limit, |items|), limit, omitted);
        r := Arr(bounded);
      case Obj(keys, values) =>
        var bounded := TruncateEach(value, values, |values|, limit, omitted);
        r := Obj(keys, bounded);
      case Scalar(_) =>
        r := value;
    }
  }

  /** The `map` over the first `n` entries of `parent`. */
  method TruncateEach(parent: Json, values: seq<Json>, n: nat, limit: nat, omitted: OmittedCounter)
    returns (r: seq<Json>)
    requires n <= |values| && forall i :: 0 <= i < |values| ==> values[i] < parent
    modifies omitted
    ensures r == TruncateFirst(values, n, limit)
    ensures omitted.count == old(omitted.count) + OmittedFirst(values, n, limit)
    decreases parent, 0
  {
    r := [];
    for i := 0 to n
      invariant r == TruncateFirst(values, i, limit)
      invariant omitted.count == old(omitted.count) + OmittedFirst(values, i, limit)
    {
      var next := TruncateArrays(values[i], limit, omitted);
      r := r + [next];
    }
  }

  predicate ArraysAtMost(value: Json, limit: nat) {
    match value
    case Scalar(_) => true
    case Arr(items) => |items| <= limit && forall i :: 0 <= i < |items| ==> ArraysAtMost(items[i], limit)
    case Obj(_, values) => forall i :: 0 <= i < |values| ==> ArraysAtMost(values[i], limit)
  }

  /** Every array of the result respects the limit. */
  lemma {:induction false} TruncateBounds(value: Json, limit: nat)
    ensures ArraysAtMost(Truncate(value, limit), limit)
  {
    match value {
      case Scalar(_) =>
      case Arr(items) =>
        forall i | 0 <= i < Min(limit, |items|) ensures ArraysAtMost(Truncate(items[i], limit), limit) {
          TruncateBounds(items[i], limit);
        }
      case Obj(_, values) =>
        forall i | 0 <= i < |values| ensures ArraysAtMost(Truncate(values[i], limit), limit) {
          TruncateBounds(values[i], limit);
        }
    }
  }

  /** Truncating at one limit and then at another is truncating once at the smaller. */
  lemma {:induction false} TruncateTwice(value: Json, a: nat, b: nat)
    ensures Truncate(Truncate(value, a), b) == Truncate(value, Min(a, b))
  {
    match value {
      case Scalar(_) =>
      case Arr(items) =>
        TruncateFirstTwice(items, a, b);
      case Obj(keys, values) =>
        var once := TruncateFirst(values, |values|, a);
        forall i | 0 <= i < |values| ensures Truncate(once[i], b) == Truncate(values[i], Min(a, b)) {
          TruncateTwice(values[i], a, b);
        }
        assert TruncateFirst(once, |once|, b) == TruncateFirst(values, |values|, Min(a, b));
    }
  }

  lemma {:induction false} TruncateFirstTwice(items: seq<Json>, a: nat, b: nat)
    ensures Truncate(Truncate(Arr(items), a), b) == Truncate(Arr(items), Min(a, b))
    decreases items
  {
    var once := TruncateFirst(items, Min(a, |items|), a);
    var n := Min(Min(a, b), |items|);
    assert Min(b, |once|) == n;
    forall i | 0 <= i < n ensures Truncate(once[i], b) == Truncate(items[i], Min(a, b)) {
      TruncateTwice(items[i], a, b);
    }
    assert TruncateFirst(once, n, b) == TruncateFirst(items, n, Min(a, b));
  }

  lemma {:induction false} OmittedFirstZeroIff(values: seq<Json>, n: nat, limit: nat)
    requires n <= |values|
    ensures OmittedFirst(values, n, limit) == 0 <==> forall i :: 0 <= i < n ==> Omitted(values[i], limit) == 0
  {
    if n > 0 {
      OmittedFirstZeroIff(values, n - 1, limit);
    }
  }

  /** Nothing is counted as omitted exactly when nothing changed. */
  lemma {:induction false} OmittedZeroIff(value: Json, limit: nat)
    ensures Omitted(value, limit) == 0 <==> Truncate(value, limit) == value
  {
    match value {
      case Scalar(_) =>
      case Arr(items) =>
        var n := Min(limit, |items|);
        var all := TruncateFirst(items, n, limit);
        OmittedFirstZeroIff(items, n, limit);
        forall i | 0 <= i < n ensures Omitted(items[i], limit) == 0 <==> all[i] == items[i] {
          OmittedZeroIff(items[i], limit);
        }
        assert n == |items| ==> (all == items <==> forall i :: 0 <= i < |items| ==> all[i] == items[i]);
      case Obj(_, values) =>
        var all := TruncateFirst(values, |values|, limit);
        OmittedFirstZeroIff(values, |values|, limit);
        forall i | 0 <= i < |values| ensures Omitted(values[i], limit) == 0 <==> all[i] == values[i] {
          OmittedZeroIff(values[i], limit);
        }
        assert all == values <==> forall i :: 0 <= i < |values| ==> all[i] == values[i];
    }
  }

  /** The number of values in a tree, arrays and objects included. */
  function Size(value: Json): (n: nat)
    ensures n >= 1
  {
    match value
    case Scalar(_) => 1
    case Arr(items) => 1 + SizeFirst(items, |items|)
    case Obj(_, values) => 1 + SizeFirst(values, |values|)
  }

  function SizeFirst(values: seq<Json>, n: nat): (size: nat)
    requires n <= |values|
    ensures size >= n
    decreases values, n
  {
    if n == 0 then 0 else SizeFirst(values, n - 1) + Size(values[n - 1])
  }

  /** For every item counted as omitted at least one value leaves the tree. */
  lemma {:induction false} TruncateShrinks(value: Json, limit: nat)
    ensures Size(Truncate(value, limit)) + Omitted(value, limit) <= Size(value)
    decreases value
  {
    match value {
      case Scalar(_) =>
      case Arr(items) =>
        var n := Min(limit, |items|);
        TruncateFirstShrinks(items, n, limit);
        SizeFirstGrows(items, n);
      case Obj(_, values) =>
        TruncateFirstShrinks(values, |values|, limit);
    }
  }

  lemma {:induction false} TruncateFirstShrinks(values: seq<Json>, n: nat, limit: nat)
    requires n <= |values|
    ensures SizeFirst(TruncateFirst(values, n, limit), n) + OmittedFirst(values, n, limit) <= SizeFirst(values, n)
    decreases values, n
  {
    if n > 0 {
      TruncateShrinks(values[n - 1], limit);
      TruncateFirstShrinks(values, n - 1, limit);
      SizeFirstPrefix(TruncateFirst(values, n, limit), TruncateFirst(values, n - 1, limit), n - 1);
    }
  }

  lemma {:induction false} SizeFirstPrefix(longer: seq<Json>, shorter: seq<Json>, n: nat)
    requires n <= |longer| && n <= |shorter| && forall i :: 0 <= i < n ==> longer[i] == shorter[i]
    ensures SizeFirst(longer, n) == SizeFirst(shorter, n)
  {
    if n > 0 {
      SizeFirstPrefix(longer, shorter, n - 1);
    }
  }

  lemma {:induction false} SizeFirstGrows(values: seq<Json>, n: nat)
    requires n <= |values|
    ensures SizeFirst(values, n) + (|values| - n) <= SizeFirst(values, |values|)
    decreases |values| - n
  {
    if n < |values| {
      SizeFirstGrows(values, n + 1);
    }
  }

  // ----- What is dropped

  /** The values dropped from every array that is reached, in no array below them again. */
  function Dropped(value: Json, limit: nat): seq<Json> {
    match value
    case Scalar(_) => []
    case Arr(items) => if |items| > limit then items[limit..] + DroppedFirst(items, limit, limit) else DroppedFirst(items, |items|, limit)
    case Obj(_, values) => DroppedFirst(values, |values|, limit)
  }

  function DroppedFirst(values: seq<Json>, n: nat, limit: nat): seq<Json>
    requires n <= |values|
    decreases values, n
  {
    if n == 0 then [] else DroppedFirst(values, n - 1, limit) + Dropped(values[n - 1], limit)
  }

  lemma {:induction false} SizeFirstAppend(a: seq<Json>, b: seq<Json>)
    ensures SizeFirst(a + b, |a + b|) == SizeFirst(a, |a|) + SizeFirst(b, |b|)
    decreases |b|
  {
    if b == [] {
      assert a + b == a;
    } else {
      var front := b[..|b| - 1];
      SizeFirstAppend(a, front);
      SizeFirstPrefix(a + b, a + front, |a + front|);
      SizeFirstPrefix(b, front, |front|);
    }
  }

  /** The size of a list of values. */
  function TotalSize(values: seq<Json>): nat {
    SizeFirst(values, |values|)
  }

  /** The counter is the number of values dropped, and what they and the result hold together
      is what the value held. */
  lemma {:induction false} OmittedAreDropped(value: Json, limit: nat)
    ensures |Dropped(value, limit)| == Omitted(value, limit)
    ensures Size(Truncate(value, limit)) + TotalSize(Dropped(value, limit)) == Size(value)
    decreases value
  {
    match value {
      case Scalar(_) =>
      case Arr(items) =>
        var n := Min(limit, |items|);
        FirstDropped(items, n, limit);
        if |items| > limit {
          SizeFirstAppend(items[limit..], DroppedFirst(items, limit, limit));
          SizeFirstAppend(items[..limit], items[limit..]);
          assert items[..limit] + items[limit..] == items;
          SizeFirstPrefix(items, items[..limit], limit);
        }
      case Obj(_, values) =>
        FirstDropped(values, |values|, limit);
    }
  }

  lemma {:induction false} FirstDropped(values: seq<Json>, n: nat, limit: nat)
    requires n <= |values|
    ensures |DroppedFirst(values, n, limit)| == OmittedFirst(values, n, limit)
    ensures SizeFirst(TruncateFirst(values, n, limit), n) + TotalSize(DroppedFirst(values, n, limit)) == SizeFirst(values, n)
    decreases values, n
  {
    if n > 0 {
      FirstDropped(values, n - 1, limit);
      OmittedAreDropped(values[n - 1], limit);
      SizeFirstAppend(DroppedFirst(values, n - 1, limit), Dropped(values[n - 1], limit));
      SizeFirstPrefix(TruncateFirst(values, n, limit), TruncateFirst(values, n - 1, limit), n - 1);
    }
  }

  const LIMITS: seq<nat> := [32, 16, 8, 4]

  datatype Bounded = Bounded(snapshot: Json, omitted: nat, truncated: bool)

  /** The first of the limits whose candidate fits, or 1. */
  function ChooseLimit(snapshot: Json, fits: Json -> bool, limits: seq<nat>): (limit: nat)
    ensures limit == 1 || (limit in limits && fits(Truncate(snapshot, limit)))
  {
    if limits == [] then 1
    else if fits(Truncate(snapshot, limits[0])) then limits[0]
    else ChooseLimit(snapshot, fits, limits[1..])
  }

  /** `fits` is the test of the serialised size against the output limit. */
  method BoundedSnapshot(snapshot: Json, fits: Json -> bool) returns (r: Bounded)
    ensures r == if fits(snapshot) then Bounded(snapshot, 0, false)
                 else var limit := ChooseLimit(snapshot, fits, LIMITS);
                      Bounded(Truncate(snapshot, limit), Omitted(snapshot, limit), true)
  {
    if fits(snapshot) {
      return Bounded(snapshot, 0, false);
    }
    for i := 0 to |LIMITS|
      invariant ChooseLimit(snapshot, fits, LIMITS[i..]) == ChooseLimit(snapshot, fits, LIMITS)
    {
      assert LIMITS[i..][1..] == LIMITS[i + 1..];
      var omitted := new OmittedCounter();
      var bounded := TruncateArrays(snapshot, LIMITS[i], omitted);
      if fits(bounded) {
        return Bounded(bounded, omitted.count, true);
      }
    }
    var omitted := new OmittedCounter();
    var bounded := TruncateArrays(snapshot, 1, omitted);
    r := Bounded(bounded, omitted.count, true);
  }

  /** The limit is 32, 16, 8 or 4, the largest of them that fits, or 1 when none does. */
  lemma ChooseLimitIsLargest(snapshot: Json, fits: Json -> bool)
    ensures var limit := ChooseLimit(snapshot, fits, LIMITS);
            && (limit == 1 || ((limit == 32 || limit == 16 || limit == 8 || limit == 4) && fits(Truncate(snapshot, limit))))
            && forall l :: l > limit && (l == 32 || l == 16 || l == 8 || l == 4) ==> !fits(Truncate(snapshot, l))
  {
    FirstFit(snapshot, fits, LIMITS);
    assert LIMITS[0] == 32 && LIMITS[1] == 16 && LIMITS[2] == 8 && LIMITS[3] == 4;
  }

  lemma {:induction false} FirstFit(snapshot: Json, fits: Json -> bool, limits: seq<nat>)
    requires forall i, j :: 0 <= i < j < |limits| ==> limits[i] > limits[j]
    ensures var limit := ChooseLimit(snapshot, fits, limits);
            forall l :: l in limits && l > limit ==> !fits(Truncate(snapshot, l))
  {
    if limits != [] && !fits(Truncate(snapshot, limits[0])) {
      FirstFit(snapshot, fits, limits[1..]);
    }
  }

  /** A snapshot marked as truncated lost something, unless it was too large although
      none of its arrays has a second item. */
  lemma TruncatedLosesSomething(snapshot: Json, fits: Json -> bool)
    requires !fits(snapshot)
    ensures var limit := ChooseLimit(snapshot, fits, LIMITS);
            Omitted(snapshot, limit) == 0 <==> Truncate(snapshot, 1) == snapshot
  {
    var limit := ChooseLimit(snapshot, fits, LIMITS);
    OmittedZeroIff(snapshot, limit);
    if Truncate(snapshot, 1) == snapshot {
      TruncateTwice(snapshot, 1, limit);
      assert limit >= 1;
    }
  }
}
