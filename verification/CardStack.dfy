/** Where each card of a stack sits and how tall it is, from `src/lib/card-stack.ts`,
    over the reals. */
module CardStack {
  import opened Wrappers

  const STACK_TOP := 4.0
  const STACK_FOOT := 8.0
  const STACK_TUCK := 8.0
  const PEEK_COVER := 22.0
  const PEEK_GAP := 6.0
  const MIN_BODY := 160.0
  const OPEN_SHARE := 0.6
  const PEEK_MIN := 10.0

  datatype Frame = Frame(y: real, h: real)

  function Max(x: real, y: real): real {
    if x > y then x else y
  }

  function Min(x: real, y: real): real {
    if x < y then x else y
  }

  function Floor(x: real): real {
    x.Floor as real
  }

  function PeekOf(head: real): (r: real)
    ensures head >= 0.0 ==> r >= 0.0
  {
    Max(head - PEEK_COVER, -Floor(-(head * 0.6)))
  }

  function Sum(s: seq<real>): real {
    if s == [] then 0.0 else Sum(s[..|s| - 1]) + s[|s| - 1]
  }

  // The fold.

  /** The peeks still free to fold, added up, among the first `n`. */
  function Free(natural: seq<real>, kept: set<int>, edged: set<int>, n: nat): real
    requires n <= |natural|
  {
    if n == 0 then 0.0
    else Free(natural, kept, edged, n - 1) + if n - 1 in kept || n - 1 in edged then 0.0 else natural[n - 1]
  }

  function FoldOf(natural: seq<real>, kept: set<int>, edged: set<int>, room: real): real {
    var free := Free(natural, kept, edged, |natural|);
    if free > 0.0 then Max(room - |edged| as real * PEEK_MIN, 0.0) / free else 0.0
  }

  predicate Thin(natural: seq<real>, kept: set<int>, edged: set<int>, fold: real, i: int) {
    0 <= i < |natural| && i !in kept && i !in edged && natural[i] * fold < PEEK_MIN
  }

  /** `findIndex`: the first peek that would fold past an edge, or the length when there is none. */
  method FirstThin(natural: seq<real>, kept: set<int>, edged: set<int>, fold: real) returns (next: nat)
    ensures next <= |natural| && (next < |natural| ==> Thin(natural, kept, edged, fold, next))
    ensures next == |natural| ==> forall i :: !Thin(natural, kept, edged, fold, i)
  {
    next := 0;
    while next < |natural|
      invariant next <= |natural|
      invariant forall i :: 0 <= i < next ==> !Thin(natural, kept, edged, fold, i)
    {
      if next !in kept && next !in edged && natural[next] * fold < PEEK_MIN { return; }
      next := next + 1;
    }
  }

  lemma {:induction false} FreeWithout(natural: seq<real>, kept: set<int>, edged: set<int>, i: nat, n: nat)
    requires n <= |natural| && i < |natural| && i !in kept && i !in edged
    ensures Free(natural, kept, edged + {i}, n) == Free(natural, kept, edged, n) - if i < n then natural[i] else 0.0
  {
    if n > 0 { FreeWithout(natural, kept, edged, i, n - 1); }
  }

  lemma {:induction false} FreeNonnegative(natural: seq<real>, kept: set<int>, edged: set<int>, n: nat)
    requires n <= |natural| && forall i :: 0 <= i < |natural| ==> natural[i] >= 0.0
    ensures Free(natural, kept, edged, n) >= 0.0
  {
    if n > 0 { FreeNonnegative(natural, kept, edged, n - 1); }
  }

  lemma Cross(a: real, b: real, c: real, d: real)
    requires b > 0.0 && d > 0.0 && a * d < c * b
    ensures a / b < c / d
  {
    var x, y := a / b, c / d;
    assert x * b == a && y * d == c;
    assert x * (b * d) == a * d && y * (b * d) == c * b;
    Cancel(x, y, b * d);
  }

  lemma Cancel(x: real, y: real, m: real)
    requires m > 0.0 && x * m < y * m
    ensures x < y
  {
  }

  /** Giving the edge to a peek too thin for the fold makes the fold strictly smaller, until it is 0. */
  lemma FoldDecreases(natural: seq<real>, kept: set<int>, edged: set<int>, room: real, i: nat)
    requires forall k :: 0 <= k < |natural| ==> natural[k] >= 0.0
    requires Thin(natural, kept, edged, FoldOf(natural, kept, edged, room), i)
    ensures
      var fold := FoldOf(natural, kept, edged, room);
      var less := FoldOf(natural, kept, edged + {i}, room);
      0.0 <= less <= fold && (fold > 0.0 ==> less < fold)
  {
    var n := |natural|;
    FreeWithout(natural, kept, edged, i, n);
    FreeNonnegative(natural, kept, edged, n);
    FreeNonnegative(natural, kept, edged + {i}, n);
    var free, rest := Free(natural, kept, edged, n), Free(natural, kept, edged + {i}, n);
    var left := room - |edged| as real * PEEK_MIN;
    assert |edged + {i}| == |edged| + 1;
    if rest > 0.0 && left > PEEK_MIN {
      var fold := left / free;
      assert fold * free == left;
      assert natural[i] * fold * free < PEEK_MIN * free;
      assert natural[i] * left == natural[i] * fold * free;
      assert (left - PEEK_MIN) * free < left * rest;
      Cross(left - PEEK_MIN, rest, left, free);
    }
  }

  function PeekAt(natural: seq<real>, kept: set<int>, edged: set<int>, fold: real, i: nat): real
    requires i < |natural|
  {
    if i in kept then natural[i] else if i in edged then PEEK_MIN else Floor(natural[i] * fold)
  }

  function Folded(natural: seq<real>, kept: set<int>, edged: set<int>, fold: real): (r: seq<real>)
    ensures |r| == |natural| && forall i :: 0 <= i < |natural| ==> r[i] == PeekAt(natural, kept, edged, fold, i)
  {
    seq(|natural|, i requires 0 <= i < |natural| => PeekAt(natural, kept, edged, fold, i))
  }

  /** What the peeks of a fold are: those kept as they were, every other one by the same factor but never
      thinner than an edge. */
  ghost predicate FoldedAlike(natural: seq<real>, kept: set<int>, fold: real, r: seq<real>) {
    |r| == |natural| && forall i :: 0 <= i < |natural| ==>
      r[i] == if i in kept then natural[i] else Max(PEEK_MIN, Floor(natural[i] * fold))
  }

  /** The peeks that are not kept, added up, among the first `n`; and how many they are. */
  function Others(r: seq<real>, kept: set<int>, n: nat): real
    requires n <= |r|
  {
    if n == 0 then 0.0 else Others(r, kept, n - 1) + if n - 1 in kept then 0.0 else r[n - 1]
  }

  function CountOthers(kept: set<int>, n: nat): nat {
    if n == 0 then 0 else CountOthers(kept, n - 1) + if n - 1 in kept then 0 else 1
  }

  function CountIn(edged: set<int>, n: nat): nat {
    if n == 0 then 0 else CountIn(edged, n - 1) + if n - 1 in edged then 1 else 0
  }

  lemma {:induction false} CountInMore(edged: set<int>, i: nat, n: nat)
    requires i !in edged
    ensures CountIn(edged + {i}, n) == CountIn(edged, n) + if i < n then 1 else 0
  {
    if n > 0 { CountInMore(edged, i, n - 1); }
  }

  lemma {:induction false} CountInNone(n: nat)
    ensures CountIn({}, n) == 0
  {
    if n > 0 { CountInNone(n - 1); }
  }

  lemma {:induction false} CountsBounded(kept: set<int>, edged: set<int>, n: nat)
    requires edged !! kept
    ensures CountIn(edged, n) <= CountOthers(kept, n)
  {
    if n > 0 { CountsBounded(kept, edged, n - 1); }
  }

  /** The fold's share of the free peeks, added up. */
  function Shares(natural: seq<real>, kept: set<int>, edged: set<int>, fold: real, n: nat): real
    requires n <= |natural|
  {
    if n == 0 then 0.0
    else Shares(natural, kept, edged, fold, n - 1) + if n - 1 in kept || n - 1 in edged then 0.0 else natural[n - 1] * fold
  }

  /** The other peeks take no more than the edges plus the fold's share of the free ones. */
  lemma {:induction false} OthersBound(natural: seq<real>, kept: set<int>, edged: set<int>, fold: real, n: nat)
    requires n <= |natural| && edged !! kept
    ensures Others(Folded(natural, kept, edged, fold), kept, n) <= CountIn(edged, n) as real * PEEK_MIN + Shares(natural, kept, edged, fold, n)
  {
    if n > 0 {
      OthersBound(natural, kept, edged, fold, n - 1);
      FloorEdge(natural[n - 1] * fold);
      assert Folded(natural, kept, edged, fold)[n - 1] == PeekAt(natural, kept, edged, fold, n - 1);
      assert n - 1 in edged ==> n - 1 !in kept;
    }
  }

  lemma {:induction false} SharesAre(natural: seq<real>, kept: set<int>, edged: set<int>, fold: real, n: nat)
    requires n <= |natural|
    ensures Shares(natural, kept, edged, fold, n) == fold * Free(natural, kept, edged, n)
  {
    if n > 0 {
      SharesAre(natural, kept, edged, fold, n - 1);
      Distributes(fold, Free(natural, kept, edged, n - 1), natural[n - 1]);
    }
  }

  lemma Distributes(x: real, a: real, b: real)
    ensures x * (a + b) == x * a + x * b && x * b == b * x
  {
  }

  lemma AllEdgedWhenFlat(natural: seq<real>, kept: set<int>, edged: set<int>, n: nat)
    requires n <= |natural| && forall i :: !Thin(natural, kept, edged, 0.0, i)
    ensures Free(natural, kept, edged, n) == 0.0
  {
    if n > 0 {
      AllEdgedWhenFlat(natural, kept, edged, n - 1);
      assert !Thin(natural, kept, edged, 0.0, n - 1);
    }
  }

  /** A fold in balance: it shares what the edges leave of the room, and the edges are exactly the peeks it
      would fold past one. */
  ghost predicate Balanced(natural: seq<real>, kept: set<int>, edged: set<int>, room: real, fold: real) {
    && (forall i :: i in edged ==> 0 <= i < |natural| && i !in kept)
    && fold == FoldOf(natural, kept, edged, room)
    && forall i :: 0 <= i < |natural| && i !in kept ==> (i in edged <==> natural[i] * fold < PEEK_MIN)
  }

  /** The largest fold in balance: no peek is thinner than it has to be. */
  ghost predicate LargestFold(natural: seq<real>, kept: set<int>, room: real, fold: real) {
    && (exists edged :: Balanced(natural, kept, edged, room, fold))
    && forall e, f :: Balanced(natural, kept, e, room, f) ==> f <= fold
  }

  lemma {:induction false} CountInAll(edged: set<int>, n: nat)
    requires forall i :: i in edged ==> 0 <= i < n
    ensures CountIn(edged, n) == |edged|
  {
    if n == 0 {
      forall i ensures i !in edged {}
      assert edged == {};
    } else if n - 1 in edged {
      CountInAll(edged - {n - 1}, n - 1);
      CountInBelow(edged, n - 1);
    } else {
      CountInAll(edged, n - 1);
    }
  }

  lemma {:induction false} CountInBelow(edged: set<int>, n: nat)
    ensures CountIn(edged - {n}, n) == CountIn(edged, n)
  {
    CountInSame(edged - {n}, edged, n, n);
  }

  lemma {:induction false} CountInSame(a: set<int>, b: set<int>, n: nat, top: nat)
    requires n <= top && forall i :: 0 <= i < top ==> (i in a <==> i in b)
    ensures CountIn(a, n) == CountIn(b, n)
  {
    if n > 0 { CountInSame(a, b, n - 1, top); }
  }

  /** Freeing some of the edges asks for no more than the edges they were. */
  lemma {:induction false} FreeingFits(natural: seq<real>, kept: set<int>, edged: set<int>, e: set<int>, f: real, n: nat)
    requires n <= |natural| && edged <= e && f >= 0.0 && forall i :: 0 <= i < |natural| ==> natural[i] >= 0.0
    requires forall i :: i in e ==> 0 <= i < |natural| && i !in kept && natural[i] * f < PEEK_MIN
    ensures Shares(natural, kept, edged, f, n) <= Shares(natural, kept, e, f, n) + (CountIn(e, n) - CountIn(edged, n)) as real * PEEK_MIN
    ensures Free(natural, kept, edged, n) >= Free(natural, kept, e, n)
  {
    if n > 0 { FreeingFits(natural, kept, edged, e, f, n - 1); }
  }

  lemma FreeingAsks(natural: seq<real>, kept: set<int>, edged: set<int>, e: set<int>, f: real)
    requires edged <= e && forall i :: 0 <= i < |natural| ==> natural[i] >= 0.0
    requires forall i :: i in e ==> 0 <= i < |natural| && i !in kept && natural[i] * f < PEEK_MIN
    ensures Free(natural, kept, edged, |natural|) >= Free(natural, kept, e, |natural|)
    ensures f > 0.0 ==> f * Free(natural, kept, edged, |natural|)
                        <= f * Free(natural, kept, e, |natural|) + |e| as real * PEEK_MIN - |edged| as real * PEEK_MIN
  {
    var n := |natural|;
    FreeingFits(natural, kept, edged, e, if f > 0.0 then f else 0.0, n);
    SharesAre(natural, kept, edged, f, n);
    SharesAre(natural, kept, e, f, n);
    CountInAll(edged, n);
    CountInAll(e, n);
  }

  /** No fold in balance is larger than the fold while fewer peeks are edges. */
  lemma FoldAtLeast(natural: seq<real>, kept: set<int>, edged: set<int>, e: set<int>, room: real, f: real)
    requires forall i :: 0 <= i < |natural| ==> natural[i] >= 0.0
    requires Balanced(natural, kept, e, room, f) && edged <= e
    ensures f <= FoldOf(natural, kept, edged, room)
  {
    var n := |natural|;
    FreeNonnegative(natural, kept, e, n);
    FreeingAsks(natural, kept, edged, e, f);
    ShareGrows(f, Free(natural, kept, edged, n), Free(natural, kept, e, n), room - |edged| as real * PEEK_MIN, room - |e| as real * PEEK_MIN);
  }

  /** More room for no more than it brings is a share at least as large. */
  lemma ShareGrows(f: real, free: real, rest: real, left: real, less: real)
    requires free >= rest >= 0.0 && f == (if rest > 0.0 then Max(less, 0.0) / rest else 0.0)
    requires f > 0.0 ==> f * free <= f * rest + left - less
    ensures f <= if free > 0.0 then Max(left, 0.0) / free else 0.0
  {
    if free > 0.0 { Nonnegative(Max(left, 0.0), free); }
    if f > 0.0 {
      Quotient(less, rest);
      AtMost(f, free, left);
    }
  }

  lemma Nonnegative(a: real, b: real)
    requires a >= 0.0 && b > 0.0
    ensures a / b >= 0.0
  {
  }

  lemma AtMost(f: real, free: real, left: real)
    requires free > 0.0 && f * free <= left
    ensures f <= left / free
  {
    Quotient(left, free);
    if f > left / free { Larger(f, left / free, free); }
  }

  lemma Larger(f: real, g: real, free: real)
    requires free > 0.0 && f > g
    ensures f * free > g * free
  {
  }

  /** While folding, every fold in balance has at least the edges given so far. */
  ghost predicate Ahead(natural: seq<real>, kept: set<int>, edged: set<int>, room: real) {
    forall e, f :: Balanced(natural, kept, e, room, f) ==> edged <= e
  }

  lemma StaysAhead(natural: seq<real>, kept: set<int>, edged: set<int>, room: real, next: nat)
    requires forall i :: 0 <= i < |natural| ==> natural[i] >= 0.0
    requires Ahead(natural, kept, edged, room) && Thin(natural, kept, edged, FoldOf(natural, kept, edged, room), next)
    ensures Ahead(natural, kept, edged + {next}, room)
  {
    forall e, f | Balanced(natural, kept, e, room, f) ensures edged + {next} <= e {
      FoldAtLeast(natural, kept, edged, e, room, f);
      Scales(natural[next], f, FoldOf(natural, kept, edged, room));
    }
  }

  /** `foldPeeks`: ends with the largest fold in balance for all, and within the room whenever the room holds
      every edge. */
  method FoldPeeks(natural: seq<real>, kept: set<int>, room: real) returns (peeks: seq<real>, fold: real)
    requires forall i :: 0 <= i < |natural| ==> natural[i] >= 0.0
    ensures fold >= 0.0 && FoldedAlike(natural, kept, fold, peeks)
    ensures LargestFold(natural, kept, room, fold) && fold <= FoldOf(natural, kept, {}, room)
    ensures room >= CountOthers(kept, |natural|) as real * PEEK_MIN ==> Others(peeks, kept, |natural|) <= room
  {
    var edged: set<int> := {};
    fold := FoldOf(natural, kept, edged, room);
    NoneEdged(natural, kept, room);
    var next := FirstThin(natural, kept, edged, fold);
    while next < |natural|
      invariant Edging(natural, kept, edged, room, fold) && Ahead(natural, kept, edged, room)
      invariant next <= |natural| && (next < |natural| ==> Thin(natural, kept, edged, fold, next))
      invariant next == |natural| ==> forall i :: !Thin(natural, kept, edged, fold, i)
      decreases |natural| - |edged|
    {
      OneMoreEdge(natural, kept, edged, room, fold, next);
      StaysAhead(natural, kept, edged, room, next);
      edged := edged + {next};
      fold := FoldOf(natural, kept, edged, room);
      next := FirstThin(natural, kept, edged, fold);
    }
    peeks := Folded(natural, kept, edged, fold);
    InBalance(natural, kept, edged, room, fold);
    AtLeastEdges(natural, kept, edged, fold);
    WithinRoom(natural, kept, edged, room, fold);
  }

  /** While folding: the peeks given the edge so far are too thin for the fold, which has only shrunk. */
  ghost predicate Edging(natural: seq<real>, kept: set<int>, edged: set<int>, room: real, fold: real) {
    && edged !! kept && CountIn(edged, |natural|) == |edged|
    && fold == FoldOf(natural, kept, edged, room) && 0.0 <= fold <= FoldOf(natural, kept, {}, room)
    && (forall i :: i in edged ==> 0 <= i < |natural| && natural[i] * fold < PEEK_MIN)
  }

  /** Where the fold ends, it is in balance, and no other in balance is larger. */
  lemma InBalance(natural: seq<real>, kept: set<int>, edged: set<int>, room: real, fold: real)
    requires forall i :: 0 <= i < |natural| ==> natural[i] >= 0.0
    requires Edging(natural, kept, edged, room, fold) && Ahead(natural, kept, edged, room)
    requires forall i :: !Thin(natural, kept, edged, fold, i)
    ensures LargestFold(natural, kept, room, fold)
  {
    forall i | 0 <= i < |natural| && i !in kept ensures i in edged <==> natural[i] * fold < PEEK_MIN {
      assert !Thin(natural, kept, edged, fold, i);
    }
    assert Balanced(natural, kept, edged, room, fold);
    forall e, f | Balanced(natural, kept, e, room, f) ensures f <= fold { FoldAtLeast(natural, kept, edged, e, room, f); }
  }

  lemma NoneEdged(natural: seq<real>, kept: set<int>, room: real)
    requires forall i :: 0 <= i < |natural| ==> natural[i] >= 0.0
    ensures Edging(natural, kept, {}, room, FoldOf(natural, kept, {}, room))
  {
    FreeNonnegative(natural, kept, {}, |natural|);
    CountInNone(|natural|);
  }

  lemma OneMoreEdge(natural: seq<real>, kept: set<int>, edged: set<int>, room: real, fold: real, next: nat)
    requires forall i :: 0 <= i < |natural| ==> natural[i] >= 0.0
    requires Edging(natural, kept, edged, room, fold) && Thin(natural, kept, edged, fold, next)
    ensures Edging(natural, kept, edged + {next}, room, FoldOf(natural, kept, edged + {next}, room))
    ensures |edged| < |edged + {next}| <= |natural|
  {
    CountInMore(edged, next, |natural|);
    CountsBounded(kept, edged + {next}, |natural|);
    CountOthersBound(kept, |natural|);
    FoldDecreases(natural, kept, edged, room, next);
    var less := FoldOf(natural, kept, edged + {next}, room);
    assert |edged + {next}| == |edged| + 1;
    ThinStays(natural, edged + {next}, less, fold);
  }

  lemma ThinStays(natural: seq<real>, edged: set<int>, less: real, fold: real)
    requires forall i :: 0 <= i < |natural| ==> natural[i] >= 0.0
    requires less <= fold && forall i :: i in edged ==> 0 <= i < |natural| && natural[i] * fold < PEEK_MIN
    ensures forall i :: i in edged ==> natural[i] * less < PEEK_MIN
  {
    forall i | i in edged ensures natural[i] * less < PEEK_MIN { Scales(natural[i], less, fold); }
  }

  lemma {:induction false} CountOthersBound(kept: set<int>, n: nat)
    ensures CountOthers(kept, n) <= n
  {
    if n > 0 { CountOthersBound(kept, n - 1); }
  }

  lemma Scales(x: real, less: real, more: real)
    requires x >= 0.0 && less <= more
    ensures x * less <= x * more
  {
  }

  lemma AtLeastEdges(natural: seq<real>, kept: set<int>, edged: set<int>, fold: real)
    requires forall i :: !Thin(natural, kept, edged, fold, i)
    requires forall i :: i in edged ==> 0 <= i < |natural| && i !in kept && natural[i] * fold < PEEK_MIN
    ensures FoldedAlike(natural, kept, fold, Folded(natural, kept, edged, fold))
  {
    var r := Folded(natural, kept, edged, fold);
    forall i | 0 <= i < |natural| ensures r[i] == if i in kept then natural[i] else Max(PEEK_MIN, Floor(natural[i] * fold)) {
      FloorEdge(natural[i] * fold);
      assert !Thin(natural, kept, edged, fold, i);
    }
  }

  lemma FloorEdge(x: real)
    ensures (x < PEEK_MIN <==> Floor(x) < PEEK_MIN) && Floor(x) <= x
  {
  }

  /** The free peeks share at most what the edges leave of the room. */
  lemma SharesFit(natural: seq<real>, kept: set<int>, edged: set<int>, room: real, fold: real)
    requires fold == FoldOf(natural, kept, edged, room) && forall i :: !Thin(natural, kept, edged, fold, i)
    ensures Shares(natural, kept, edged, fold, |natural|) <= Max(room - |edged| as real * PEEK_MIN, 0.0)
  {
    var free, left := Free(natural, kept, edged, |natural|), Max(room - |edged| as real * PEEK_MIN, 0.0);
    SharesAre(natural, kept, edged, fold, |natural|);
    if free > 0.0 {
      Quotient(left, free);
    } else {
      AllEdgedWhenFlat(natural, kept, edged, |natural|);
      assert fold == 0.0 && free == 0.0;
    }
  }

  lemma WithinRoom(natural: seq<real>, kept: set<int>, edged: set<int>, room: real, fold: real)
    requires edged !! kept && CountIn(edged, |natural|) == |edged| && fold == FoldOf(natural, kept, edged, room)
    requires forall i :: !Thin(natural, kept, edged, fold, i)
    ensures room >= CountOthers(kept, |natural|) as real * PEEK_MIN ==> Others(Folded(natural, kept, edged, fold), kept, |natural|) <= room
  {
    OthersBound(natural, kept, edged, fold, |natural|);
    SharesFit(natural, kept, edged, room, fold);
    CountsBounded(kept, edged, |natural|);
    FewerEdges(|edged|, CountOthers(kept, |natural|));
  }

  lemma FewerEdges(a: nat, b: nat)
    requires a <= b
    ensures a as real * PEEK_MIN <= b as real * PEEK_MIN
  {
  }

  lemma Quotient(a: real, b: real)
    requires b > 0.0
    ensures (a / b) * b == a
  {
  }

  // The layout.

  /** The peeks before any fold: nothing covers the last card, so under the open one it shows its whole head. */
  function Natural(heads: seq<real>, open: nat): (r: seq<real>)
    ensures |r| == |heads|
    ensures (forall i :: 0 <= i < |heads| ==> heads[i] >= 0.0) ==> forall i :: 0 <= i < |r| ==> r[i] >= 0.0
  {
    seq(|heads|, i requires 0 <= i < |heads| => if i == |heads| - 1 && i > open then heads[i] else PeekOf(heads[i]))
  }

  function FromOpen(open: nat, n: nat): (r: set<int>)
    ensures forall i :: i in r <==> open <= i < n
  {
    if n <= open then {} else FromOpen(open, n - 1) + {n - 1}
  }

  /** The room an open card has once every card above it is an edge. */
  function Most(room: real, open: nat): real {
    room - 2.0 * STACK_TOP - PEEK_MIN * open as real
  }

  /** How tall a measured open card may be. */
  function Fitted(content: real, room: real, heads: seq<real>, open: nat): real
    requires open < |heads|
  {
    Min(content, Max(Most(room, open), heads[open] + MIN_BODY))
  }

  /** The least an open card takes: its whole fitted height once measured, else its share of the room. */
  function OpenMin(heads: seq<real>, open: nat, room: real, content: Option<real>): real
    requires open < |heads|
  {
    if content.Some? then Fitted(content.value, room, heads, open) else Max(heads[open] + MIN_BODY, room * OPEN_SHARE)
  }

  /** What the open card leaves the cards above it. */
  function AboveRoom(heads: seq<real>, open: nat, room: real, content: Option<real>): real
    requires open < |heads|
  {
    room - 2.0 * STACK_TOP - OpenMin(heads, open, room, content)
  }

  /** `top` is the larger of the two, or either when they are one. */
  predicate IsLarger(top: real, x: real, y: real) {
    top >= x && top >= y && (top == x || top == y)
  }

  predicate IsSmaller(least: real, x: real, y: real) {
    least <= x && least <= y && (least == x || least == y)
  }

  /** Three fifths of it, rounded up to a whole number. */
  predicate IsThreeFifths(part: real, head: real) {
    part == (part.Floor as real) && head * 0.6 <= part < head * 0.6 + 1.0
  }

  /** Before any fold a card peeks by its head less 22, and by three fifths of it at least; but the last card,
      under the open one, by its whole head. */
  lemma NaturalPeeks(heads: seq<real>, open: nat, i: nat)
    requires i < |heads|
    ensures
      var peek := Natural(heads, open)[i];
      if open < i && i == |heads| - 1 then peek == heads[i]
      else exists part :: IsThreeFifths(part, heads[i]) && IsLarger(peek, heads[i] - 22.0, part)
  {
    var part := -Floor(-(heads[i] * 0.6));
    assert IsThreeFifths(part, heads[i]) by {
      assert part == (-((-(heads[i] * 0.6)).Floor)) as real;
    }
    assert PeekOf(heads[i]) == Max(heads[i] - 22.0, part);
  }

  /** `least` is the smaller of `whole` and the larger of the two. */
  ghost predicate IsAtMostLarger(least: real, whole: real, x: real, y: real) {
    exists top :: IsLarger(top, x, y) && IsSmaller(least, whole, top)
  }

  lemma SmallerOfLarger(whole: real, x: real, y: real)
    ensures IsAtMostLarger(Min(whole, Max(x, y)), whole, x, y)
  {
    assert IsLarger(Max(x, y), x, y) && IsSmaller(Min(whole, Max(x, y)), whole, Max(x, y));
  }

  /** What the cards above an open one share: the room, less eight and what the open one takes. Once measured
      that is its content, or if less the larger of what ten for each card above leaves of the room and of its head
      and 160; before, the larger of its head and 160 and three fifths of the room. */
  lemma OpenTakes(heads: seq<real>, open: nat, room: real, content: Option<real>)
    requires open < |heads|
    ensures
      var takes := room - 8.0 - AboveRoom(heads, open, room, content);
      match content
      case Some(whole) =>
        takes == Fitted(whole, room, heads, open)
        && IsAtMostLarger(takes, whole, room - 8.0 - 10.0 * open as real, heads[open] + 160.0)
      case None => IsLarger(takes, heads[open] + 160.0, 0.6 * room)
  {
    if content.Some? {
      var most, least := room - 8.0 - 10.0 * open as real, heads[open] + 160.0;
      assert Most(room, open) == most;
      SmallerOfLarger(content.value, most, least);
    }
  }

  lemma {:induction false} OthersAbove(r: seq<real>, open: nat, n: nat)
    requires open < |r| && n <= |r|
    ensures Others(r, FromOpen(open, |r|), n) == Sum(r[..if n < open then n else open])
    ensures CountOthers(FromOpen(open, |r|), n) == if n < open then n else open
    ensures Free(r, FromOpen(open, |r|), {}, n) == Others(r, FromOpen(open, |r|), n)
  {
    if n > 0 {
      OthersAbove(r, open, n - 1);
      if n <= open { assert r[..n][..n - 1] == r[..n - 1]; }
    }
  }

  /** The peeks of an open stack: as they are when the room holds them, or all above folded by the largest
      factor in balance. */
  ghost predicate PeeksFor(natural: seq<real>, open: nat, room: real, peeks: seq<real>)
    requires open < |natural|
  {
    if Sum(natural[..open]) <= room then peeks == natural
    else exists fold :: 0.0 <= fold <= 1.0 && LargestFold(natural, FromOpen(open, |natural|), Max(room, 0.0), fold)
                        && FoldedAlike(natural, FromOpen(open, |natural|), fold, peeks)
  }

  method OpenPeeks(natural: seq<real>, open: nat, room: real) returns (peeks: seq<real>)
    requires open < |natural| && forall i :: 0 <= i < |natural| ==> natural[i] >= 0.0
    ensures |peeks| == |natural| && PeeksFor(natural, open, room, peeks)
    ensures room >= PEEK_MIN * open as real ==> Sum(peeks[..open]) <= room
  {
    var n := |natural|;
    var kept := FromOpen(open, n);
    OthersAbove(natural, open, n);
    if Sum(natural[..open]) <= room { return natural; }
    var fold: real;
    peeks, fold := FoldPeeks(natural, kept, Max(room, 0.0));
    OthersAbove(peeks, open, n);
    FreeNonnegative(natural, kept, {}, n);
    AtMostOne(Max(room, 0.0), Free(natural, kept, {}, n));
  }

  lemma AtMostOne(a: real, b: real)
    requires 0.0 <= a && 0.0 <= b && a <= b
    ensures b > 0.0 ==> a / b <= 1.0
  {
  }

  /** Where the cards of an open stack sit: those above by their peeks, the open one, then those under it. */
  ghost predicate Laid(frames: seq<Frame>, heads: seq<real>, peeks: seq<real>, open: nat, height: real) {
    && open < |heads| == |peeks| == |frames|
    && (forall i :: 0 <= i < |heads| && i != open ==> frames[i].h == heads[i])
    && frames[0].y == STACK_TOP
    && (forall i :: 0 <= i < open ==> frames[i + 1].y == frames[i].y + peeks[i])
    && (open + 1 < |heads| ==> frames[open + 1].y == frames[open].y + frames[open].h + PEEK_GAP)
    && (forall i :: open < i < |heads| - 1 ==> frames[i + 1].y == frames[i].y + peeks[i])
    && (var last := |heads| - 1;
        height == (if last > open then frames[last].y + peeks[last] else frames[open].y + frames[open].h) + STACK_TOP)
  }

  /** A closed stack: each card tucked under the one in front of it, showing its head. */
  ghost predicate Tucked(frames: seq<Frame>, heads: seq<real>, height: real) {
    && 1 <= |heads| == |frames|
    && (forall i :: 0 <= i < |heads| ==> frames[i].h == heads[i])
    && frames[0].y == STACK_TOP
    && (forall i :: 0 <= i < |heads| - 1 ==> frames[i + 1].y == frames[i].y + heads[i] - STACK_TUCK)
    && height == frames[|heads| - 1].y + frames[|heads| - 1].h + STACK_FOOT
  }

  /** `stackLayout`. A measured open card always gets its whole height, up to what the cards above leave
      at their thinnest, and never less than its head and the least body: the last clamp never shortens
      it. With that much room, it and the cards above it end within the room. */
  method StackLayout(heads: seq<real>, open: Option<int>, room: real, content: Option<real>) returns (frames: seq<Frame>, height: real)
    requires forall i :: 0 <= i < |heads| ==> heads[i] >= 0.0
    ensures |frames| == |heads| && (heads == [] ==> height == 0.0)
    ensures heads != [] && (open.None? || !(0 <= open.value < |heads|)) ==> Tucked(frames, heads, height)
    ensures open.Some? && 0 <= open.value < |heads| ==>
              && (exists peeks :: |peeks| == |heads| && PeeksFor(Natural(heads, open.value), open.value, AboveRoom(heads, open.value, room, content), peeks)
                                  && Laid(frames, heads, peeks, open.value, height))
              && (content.Some? ==> frames[open.value].h == Fitted(content.value, room, heads, open.value))
              && (content.Some? && Most(room, open.value) >= heads[open.value] + MIN_BODY ==>
                    frames[open.value].y + frames[open.value].h + STACK_TOP <= room)
              && (content.None? ==> frames[open.value].h == Max(room - frames[open.value].y - STACK_TOP, heads[open.value] + MIN_BODY))
  {
    if heads == [] { return [], 0.0; }
    if open.None? || !(0 <= open.value < |heads|) {
      frames, height := Closed(heads);
      return;
    }
    var at := open.value;
    var natural := Natural(heads, at);
    var openMin := OpenMin(heads, at, room, content);
    var peeks := OpenPeeks(natural, at, AboveRoom(heads, at, room, content));
    var openY := STACK_TOP + Sum(peeks[..at]);
    var left := Max(room - openY - STACK_TOP, heads[at] + MIN_BODY);
    var openH := if content.Some? then Min(openMin, left) else left;
    frames, height := Place(heads, peeks, at, openH);
  }

  method Closed(heads: seq<real>) returns (frames: seq<Frame>, height: real)
    requires heads != []
    ensures |frames| == |heads| && Tucked(frames, heads, height)
  {
    frames := [];
    var y := STACK_TOP;
    for i := 0 to |heads|
      invariant |frames| == i
      invariant forall k :: 0 <= k < i ==> frames[k].h == heads[k]
      invariant i > 0 ==> frames[0].y == STACK_TOP && y == frames[i - 1].y + heads[i - 1] - STACK_TUCK
      invariant i == 0 ==> y == STACK_TOP
      invariant forall k :: 0 <= k < i - 1 ==> frames[k + 1].y == frames[k].y + heads[k] - STACK_TUCK
    {
      frames := frames + [Frame(y, heads[i])];
      y := y + heads[i] - STACK_TUCK;
    }
    height := frames[|heads| - 1].y + frames[|heads| - 1].h + STACK_FOOT;
  }

  method Place(heads: seq<real>, peeks: seq<real>, open: nat, openH: real) returns (frames: seq<Frame>, height: real)
    requires open < |heads| == |peeks|
    ensures |frames| == |heads| && Laid(frames, heads, peeks, open, height)
    ensures frames[open] == Frame(STACK_TOP + Sum(peeks[..open]), openH)
  {
    var above := PlaceAbove(heads, peeks, open);
    var openY := STACK_TOP + Sum(peeks[..open]);
    var under := PlaceUnder(heads, peeks, open + 1, openY + openH + PEEK_GAP);
    frames := above + [Frame(openY, openH)] + under;
    var below := |heads| - 1 - open;
    height := (if below > 0 then under[below - 1].y + peeks[|heads| - 1] else openY + openH) + STACK_TOP;
    Joined(heads, peeks, above, Frame(openY, openH), under);
  }

  ghost predicate Above(heads: seq<real>, peeks: seq<real>, frames: seq<Frame>, end: real)
    requires |frames| <= |heads| == |peeks|
  {
    && (forall k :: 0 <= k < |frames| ==> frames[k].h == heads[k])
    && (forall k :: 0 <= k < |frames| - 1 ==> frames[k + 1].y == frames[k].y + peeks[k])
    && (if frames == [] then end == STACK_TOP
        else frames[0].y == STACK_TOP && end == frames[|frames| - 1].y + peeks[|frames| - 1])
  }

  ghost predicate Under(heads: seq<real>, peeks: seq<real>, frames: seq<Frame>, from: nat, top: real)
    requires from + |frames| == |heads| == |peeks|
  {
    && (forall k :: from <= k < |heads| ==> frames[k - from].h == heads[k])
    && (frames != [] ==> frames[0].y == top)
    && (forall k :: from <= k < |heads| - 1 ==> frames[k + 1 - from].y == frames[k - from].y + peeks[k])
  }

  lemma Joined(heads: seq<real>, peeks: seq<real>, above: seq<Frame>, card: Frame, under: seq<Frame>)
    requires |above| + 1 + |under| == |heads| == |peeks|
    requires Above(heads, peeks, above, card.y) && Under(heads, peeks, under, |above| + 1, card.y + card.h + PEEK_GAP)
    ensures
      var frames := above + [card] + under;
      Laid(frames, heads, peeks, |above|,
           (if under != [] then under[|under| - 1].y + peeks[|heads| - 1] else card.y + card.h) + STACK_TOP)
  {
    var frames, open := above + [card] + under, |above|;
    assert forall k :: 0 <= k < open ==> frames[k] == above[k];
    assert frames[open] == card;
    forall k | open < k < |heads| ensures frames[k] == under[k - (open + 1)] {}
    forall k | 0 <= k < open ensures frames[k + 1].y == frames[k].y + peeks[k] {
      if k + 1 < open { assert above[k + 1].y == above[k].y + peeks[k]; }
    }
    forall k | open < k < |heads| - 1 ensures frames[k + 1].y == frames[k].y + peeks[k] {
      assert under[k + 1 - (open + 1)].y == under[k - (open + 1)].y + peeks[k];
    }
  }

  method PlaceAbove(heads: seq<real>, peeks: seq<real>, open: nat) returns (frames: seq<Frame>)
    requires open < |heads| == |peeks|
    ensures |frames| == open && Above(heads, peeks, frames, STACK_TOP + Sum(peeks[..open]))
  {
    frames := [];
    var y := STACK_TOP;
    for i := 0 to open
      invariant |frames| == i && y == STACK_TOP + Sum(peeks[..i]) && Above(heads, peeks, frames, y)
    {
      frames := frames + [Frame(y, heads[i])];
      y := y + peeks[i];
      assert peeks[..i + 1][..i] == peeks[..i];
    }
  }

  method PlaceUnder(heads: seq<real>, peeks: seq<real>, from: nat, top: real) returns (frames: seq<Frame>)
    requires from <= |heads| == |peeks|
    ensures |frames| == |heads| - from && Under(heads, peeks, frames, from, top)
  {
    frames := [];
    var y := top;
    for i := from to |heads|
      invariant |frames| == i - from
      invariant forall k :: from <= k < i ==> frames[k - from].h == heads[k]
      invariant (if frames != [] then frames[0].y else y) == top
      invariant frames != [] ==> y == frames[i - 1 - from].y + peeks[i - 1]
      invariant forall k :: from <= k < i - 1 ==> frames[k + 1 - from].y == frames[k - from].y + peeks[k]
    {
      frames := frames + [Frame(y, heads[i])];
      y := y + peeks[i];
    }
  }
}
