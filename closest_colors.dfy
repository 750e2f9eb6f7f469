/** A model of a brute-force nearest-colour search over a palette.
    Colours are RGB triples with 8-bit channels; the distance between two
    colours is the squared Euclidean distance, computed over unbounded
    integers so that no channel difference can wrap around. Because the
    square root is monotone, ordering and optimality by squared distance
    are the same as by Euclidean distance. */
module ClosestColors {

  /** An unsigned 8-bit channel value. */
  type Channel = x: int | 0 <= x <= 255

  /** A palette entry or a query. `id` stands for whatever the caller's own
      colour type carries besides its channels; it takes no part in the
      distance. */
  datatype Color = Color(id: int, r: Channel, g: Channel, b: Channel)

  /** A palette entry paired with its squared distance to the query. */
  datatype ColorDistance = ColorDistance(color: Color, distance: nat)

  datatype Error = InvalidCount(number: int)

  datatype Result<T> = Ok(value: T) | Err(error: Error)

  predicate SameRGB(c1: Color, c2: Color) {
    c1.r == c2.r && c1.g == c2.g && c1.b == c2.b
  }

  /** Largest squared distance two colours can be apart: three channels
      each differing by at most 255. */
  const MaxSqDistance: nat := 3 * 255 * 255

  /** Facts about squares that the distance's contract needs. */
  lemma SquareZero(x: int)
    ensures x * x >= 0
    ensures x * x == 0 <==> x == 0
  {
  }

  lemma SquareBound(x: int)
    requires -255 <= x <= 255
    ensures x * x <= 255 * 255
  {
  }

  /** Squared Euclidean distance between the channel triples of two
      colours. Each channel is widened before the subtraction, so the
      difference of 10 and 200 is -190 and not a wrapped-around byte. */
  function SqDistance(c1: Color, c2: Color): (d: nat)
    ensures d == 0 <==> SameRGB(c1, c2)
    ensures d <= MaxSqDistance
  {
    var dr, dg, db := c1.r - c2.r, c1.g - c2.g, c1.b - c2.b;
    SquareZero(dr); SquareZero(dg); SquareZero(db);
    SquareBound(dr); SquareBound(dg); SquareBound(db);
    dr * dr + dg * dg + db * db
  }

  lemma SqDistanceSymmetric(c1: Color, c2: Color)
    ensures SqDistance(c1, c2) == SqDistance(c2, c1)
  {
  }

  /** The distance ignores everything about a colour but its channels. */
  lemma SqDistanceOnlyRGB(q: Color, c1: Color, c2: Color)
    requires SameRGB(c1, c2)
    ensures SqDistance(q, c1) == SqDistance(q, c2)
  {
  }

  /** The pair built for one palette entry. */
  function Ranked(query: Color, c: Color): (p: ColorDistance)
  {
    ColorDistance(c, SqDistance(query, c))
  }

  /** A pair whose distance is the one the metric gives for its colour. */
  predicate RankedFor(query: Color, p: ColorDistance) {
    p.distance == SqDistance(query, p.color)
  }

  /** One pair per palette entry, in palette order. */
  function Pairs(query: Color, colors: seq<Color>): (ps: seq<ColorDistance>)
    ensures |ps| == |colors|
    ensures forall i :: 0 <= i < |colors| ==> ps[i] == Ranked(query, colors[i])
  {
    seq(|colors|, i requires 0 <= i < |colors| => Ranked(query, colors[i]))
  }

  function ColorsOf(s: seq<ColorDistance>): seq<Color>
  {
    seq(|s|, i requires 0 <= i < |s| => s[i].color)
  }

  predicate SortedByDistance(s: seq<ColorDistance>) {
    forall i, j :: 0 <= i < j < |s| ==> s[i].distance <= s[j].distance
  }

  /** No pair left out of `chosen` (counted with multiplicity among `all`)
      is closer than any pair in `chosen`. */
  predicate NothingCloserLeftOut(chosen: seq<ColorDistance>, all: seq<ColorDistance>) {
    forall p, q :: p in multiset(all) - multiset(chosen) && q in chosen ==> q.distance <= p.distance
  }

  /** What a successful search promises about its result `res`. */
  predicate IsClosest(query: Color, number: int, colors: seq<Color>, res: seq<ColorDistance>) {
    && |res| == number
    && SortedByDistance(res)
    && (forall p :: p in res ==> RankedFor(query, p))
    && multiset(res) <= multiset(Pairs(query, colors))
    && NothingCloserLeftOut(res, Pairs(query, colors))
  }

  predicate ValidCount(number: int, colors: seq<Color>) {
    1 <= number <= |colors|
  }

  /** Exchanges the entries at `j - 1` and `j`. */
  method SwapAdjacent(a: array<ColorDistance>, j: int)
    requires 0 < j < a.Length
    modifies a
    ensures a[j - 1] == old(a[j]) && a[j] == old(a[j - 1])
    ensures forall m :: 0 <= m < a.Length && m != j - 1 && m != j ==> a[m] == old(a[m])
    ensures multiset(a[..]) == multiset(old(a[..]))
  {
    a[j - 1], a[j] := a[j], a[j - 1];
  }

  /** Moves the entry at `i` down into the sorted run `a[..i]`, so that
      `a[..i + 1]` is sorted. */
  method InsertIntoSorted(a: array<ColorDistance>, i: int)
    requires 0 < i < a.Length
    requires forall k, l :: 0 <= k < l < i ==> a[k].distance <= a[l].distance
    modifies a
    ensures forall k, l :: 0 <= k < l <= i ==> a[k].distance <= a[l].distance
    ensures a[i + 1..] == old(a[i + 1..])
    ensures multiset(a[..]) == multiset(old(a[..]))
  {
    var j := i;
    while j > 0 && a[j - 1].distance > a[j].distance
      invariant 0 <= j <= i
      invariant multiset(a[..]) == multiset(old(a[..]))
      invariant forall k, l :: 0 <= k < l <= i && k != j && l != j ==> a[k].distance <= a[l].distance
      invariant forall l :: j < l <= i ==> a[j].distance <= a[l].distance
      invariant a[i + 1..] == old(a[i + 1..])
    {
      SwapAdjacent(a, j);
      j := j - 1;
    }
  }

  /** Sorts `a` in place by ascending distance (an insertion sort). Entries
      of equal distance may end up in any order. */
  method SortByDistance(a: array<ColorDistance>)
    modifies a
    ensures SortedByDistance(a[..])
    ensures multiset(a[..]) == multiset(old(a[..]))
  {
    if a.Length == 0 {
      return;
    }
    for i := 1 to a.Length
      invariant forall k, l :: 0 <= k < l < i ==> a[k].distance <= a[l].distance
      invariant multiset(a[..]) == multiset(old(a[..]))
    {
      InsertIntoSorted(a, i);
    }
  }

  /** Taking a prefix of a sorted list leaves out nothing closer than what
      it keeps. */
  lemma {:induction false} SortedPrefixIsClosest(s: seq<ColorDistance>, n: nat)
    requires n <= |s|
    requires SortedByDistance(s)
    ensures NothingCloserLeftOut(s[..n], s)
  {
    assert s == s[..n] + s[n..];
    assert multiset(s) - multiset(s[..n]) == multiset(s[n..]);
    forall p, q | p in multiset(s) - multiset(s[..n]) && q in s[..n]
      ensures q.distance <= p.distance
    {
      assert p in s[n..];
      var j :| n <= j < |s| && s[j] == p;
      var i :| 0 <= i < n && s[i] == q;
    }
  }

  /** Every pair drawn from the pairs built for a palette carries the
      metric's distance for its colour. */
  lemma SubMultisetOfPairsIsRanked(query: Color, colors: seq<Color>, s: seq<ColorDistance>)
    requires multiset(s) <= multiset(Pairs(query, colors))
    ensures forall p :: p in s ==> RankedFor(query, p)
  {
    forall p | p in s ensures RankedFor(query, p) {
      assert p in multiset(Pairs(query, colors));
      var i :| 0 <= i < |colors| && Pairs(query, colors)[i] == p;
    }
  }

  /** The first `number` entries of any sorted rearrangement of the pairs
      are a correct answer to the search. */
  lemma PrefixOfSortedPairsIsClosest(query: Color, number: int, colors: seq<Color>, sorted: seq<ColorDistance>)
    requires multiset(sorted) == multiset(Pairs(query, colors))
    requires SortedByDistance(sorted)
    requires 0 <= number <= |sorted|
    ensures IsClosest(query, number, colors, sorted[..number])
  {
    var chosen := sorted[..number];
    SortedPrefixIsClosest(sorted, number);
    assert multiset(chosen) <= multiset(sorted) by {
      assert sorted == chosen + sorted[number..];
    }
    SubMultisetOfPairsIsRanked(query, colors, chosen);
  }

  /** The search: fails when `number` is not between 1 and the palette's
      size; otherwise pairs every palette entry with its distance to
      `query`, sorts the pairs by distance and returns the first `number`
      of them. The palette is a value and is only read; the sort works on
      a fresh array. */
  method FindClosest(query: Color, number: int, colors: seq<Color>) returns (res: Result<seq<ColorDistance>>)
    ensures res.Err? <==> !ValidCount(number, colors)
    ensures res.Err? ==> res.error == InvalidCount(number)
    ensures res.Ok? ==> IsClosest(query, number, colors, res.value)
  {
    if number <= 0 || number > |colors| {
      return Err(InvalidCount(number));
    }
    var distances := new ColorDistance[|colors|];
    for i := 0 to |colors|
      invariant forall k :: 0 <= k < i ==> distances[k] == Ranked(query, colors[k])
    {
      distances[i] := Ranked(query, colors[i]);
    }
    assert distances[..] == Pairs(query, colors);
    SortByDistance(distances);
    PrefixOfSortedPairsIsClosest(query, number, colors, distances[..]);
    res := Ok(distances[..number]);
  }

  /** With a palette of 256 entries, as in the repository's test, a
      request for 0 or for 1000 results is refused. */
  method RejectsCountsOutsidePalette(query: Color, colors: seq<Color>) returns (none: Result<seq<ColorDistance>>, tooMany: Result<seq<ColorDistance>>)
    requires |colors| == 256
    ensures none == Err(InvalidCount(0))
    ensures tooMany == Err(InvalidCount(1000))
  {
    none := FindClosest(query, 0, colors);
    tooMany := FindClosest(query, 1000, colors);
  }

  /** A palette of one entry and a request for one result give back that
      entry, at distance zero exactly when it has the query's channels. */
  lemma SingleEntryPalette(query: Color, c: Color, res: seq<ColorDistance>)
    requires IsClosest(query, 1, [c], res)
    ensures res == [Ranked(query, c)]
    ensures res[0].distance == 0 <==> SameRGB(query, c)
  {
  }

  // Helpers on lists of pairs

  /** `t` without its entry at `k`. */
  function Without(t: seq<ColorDistance>, k: int): (rest: seq<ColorDistance>)
    requires 0 <= k < |t|
    ensures |rest| == |t| - 1
  {
    t[..k] + t[k + 1..]
  }

  lemma WithoutMultiset(t: seq<ColorDistance>, k: int)
    requires 0 <= k < |t|
    ensures multiset(Without(t, k)) == multiset(t) - multiset{t[k]}
  {
    assert t == t[..k] + [t[k]] + t[k + 1..];
  }

  lemma ColorsOfConcat(s: seq<ColorDistance>, t: seq<ColorDistance>)
    ensures ColorsOf(s + t) == ColorsOf(s) + ColorsOf(t)
  {
  }

  /** Removing the pair at `k` removes one occurrence of its colour. */
  lemma WithoutColors(t: seq<ColorDistance>, k: int)
    requires 0 <= k < |t|
    ensures multiset(ColorsOf(t)) == multiset(ColorsOf(Without(t, k))) + multiset{t[k].color}
  {
    var front, back := t[..k], t[k + 1..];
    assert t == front + [t[k]] + back;
    ColorsOfConcat(front + [t[k]], back);
    ColorsOfConcat(front, [t[k]]);
    ColorsOfConcat(front, back);
    assert ColorsOf([t[k]]) == [t[k].color];
  }

  lemma ColorsOfCons(s: seq<ColorDistance>)
    requires s != []
    ensures multiset(ColorsOf(s)) == multiset{s[0].color} + multiset(ColorsOf(s[1..]))
  {
    assert s == [s[0]] + s[1..];
    ColorsOfConcat([s[0]], s[1..]);
    assert ColorsOf([s[0]]) == [s[0].color];
  }

  lemma MultisetCons(s: seq<ColorDistance>)
    requires s != []
    ensures multiset(s[1..]) == multiset(s) - multiset{s[0]}
  {
    assert s == [s[0]] + s[1..];
  }

  /** Mapping pairs to their colours keeps a sub-multiset relation. */
  lemma {:induction false} ColorsOfSubMultiset(s: seq<ColorDistance>, t: seq<ColorDistance>)
    requires multiset(s) <= multiset(t)
    ensures multiset(ColorsOf(s)) <= multiset(ColorsOf(t))
  {
    if s != [] {
      assert s[0] in t by {
        assert s[0] in multiset(s);
      }
      var k :| 0 <= k < |t| && t[k] == s[0];
      MultisetCons(s);
      WithoutMultiset(t, k);
      ColorsOfSubMultiset(s[1..], Without(t, k));
      ColorsOfCons(s);
      WithoutColors(t, k);
    }
  }

  // What a correct answer implies

  /** Every returned colour is a palette entry, and is returned at most as
      many times as it occurs in the palette. */
  lemma ResultColorsFromPalette(query: Color, number: int, colors: seq<Color>, res: seq<ColorDistance>)
    requires IsClosest(query, number, colors, res)
    ensures multiset(ColorsOf(res)) <= multiset(colors)
    ensures forall p :: p in res ==> p.color in colors
  {
    ColorsOfSubMultiset(res, Pairs(query, colors));
    assert ColorsOf(Pairs(query, colors)) == colors;
    forall p | p in res ensures p.color in colors {
      var i :| 0 <= i < |res| && res[i] == p;
      assert ColorsOf(res)[i] == p.color;
      assert p.color in multiset(ColorsOf(res));
    }
  }

  /** Optimality stated on colours: a palette entry occurring more often in
      the palette than among the returned colours is at least as far from
      the query as every returned entry. */
  lemma LeftOutColorsAreFarther(query: Color, number: int, colors: seq<Color>, res: seq<ColorDistance>, c: Color)
    requires IsClosest(query, number, colors, res)
    requires multiset(ColorsOf(res))[c] < multiset(colors)[c]
    ensures forall q :: q in res ==> q.distance <= SqDistance(query, c)
  {
    var all := Pairs(query, colors);
    var p := Ranked(query, c);
    if p !in multiset(all) - multiset(res) {
      // every occurrence of `p` among the pairs is also in `res`
      CountRankedIsCountColor(query, colors, c);
      CountColorsOfAtLeast(res, p);
      assert false;
    }
  }

  /** Among the pairs built for a palette, pair `Ranked(query, c)` occurs
      exactly as often as colour `c` occurs in the palette. */
  lemma {:induction false} CountRankedIsCountColor(query: Color, colors: seq<Color>, c: Color)
    ensures multiset(Pairs(query, colors))[Ranked(query, c)] == multiset(colors)[c]
  {
    if colors != [] {
      var last := |colors| - 1;
      CountRankedIsCountColor(query, colors[..last], c);
      assert colors == colors[..last] + [colors[last]];
      assert Pairs(query, colors) == Pairs(query, colors[..last]) + [Ranked(query, colors[last])];
    }
  }

  /** Each occurrence of pair `p` in `s` contributes an occurrence of its
      colour to `ColorsOf(s)`. */
  lemma {:induction false} CountColorsOfAtLeast(s: seq<ColorDistance>, p: ColorDistance)
    ensures multiset(s)[p] <= multiset(ColorsOf(s))[p.color]
  {
    if s != [] {
      var last := |s| - 1;
      CountColorsOfAtLeast(s[..last], p);
      assert s == s[..last] + [s[last]];
      assert ColorsOf(s) == ColorsOf(s[..last]) + [s[last].color];
    }
  }

  /** The first returned entry is nearest to the query among the whole
      palette. */
  lemma FirstIsNearest(query: Color, number: int, colors: seq<Color>, res: seq<ColorDistance>)
    requires IsClosest(query, number, colors, res)
    requires number >= 1
    ensures forall c :: c in colors ==> res[0].distance <= SqDistance(query, c)
  {
  }

  // Counting pairs within a distance, and why the distances are determined

  /** The number of pairs in `s` whose distance is at most `v`. */
  function CountWithin(s: seq<ColorDistance>, v: int): (n: nat)
    ensures n <= |s|
  {
    if s == [] then 0
    else (if s[0].distance <= v then 1 else 0) + CountWithin(s[1..], v)
  }

  lemma {:induction false} CountWithinConcat(s: seq<ColorDistance>, t: seq<ColorDistance>, v: int)
    ensures CountWithin(s + t, v) == CountWithin(s, v) + CountWithin(t, v)
  {
    if s == [] {
      assert s + t == t;
    } else {
      assert (s + t)[1..] == s[1..] + t;
      CountWithinConcat(s[1..], t, v);
    }
  }

  lemma WithoutCount(t: seq<ColorDistance>, k: int, v: int)
    requires 0 <= k < |t|
    ensures CountWithin(t, v) == CountWithin(Without(t, k), v) + (if t[k].distance <= v then 1 else 0)
  {
    var front, back := t[..k], t[k + 1..];
    assert t == front + [t[k]] + back;
    CountWithinConcat(front + [t[k]], back, v);
    CountWithinConcat(front, [t[k]], v);
    CountWithinConcat(front, back, v);
  }

  /** A sub-multiset has no more pairs within any distance. */
  lemma {:induction false} CountWithinSubMultiset(s: seq<ColorDistance>, t: seq<ColorDistance>, v: int)
    requires multiset(s) <= multiset(t)
    ensures CountWithin(s, v) <= CountWithin(t, v)
  {
    if s != [] {
      assert s[0] in t by {
        assert s[0] in multiset(s);
      }
      var k :| 0 <= k < |t| && t[k] == s[0];
      MultisetCons(s);
      WithoutMultiset(t, k);
      CountWithinSubMultiset(s[1..], Without(t, k), v);
      WithoutCount(t, k, v);
    }
  }

  lemma RemoveFromBoth<T>(a: multiset<T>, b: multiset<T>, x: T)
    requires b <= a && x in b
    ensures b - multiset{x} <= a - multiset{x}
    ensures (a - multiset{x}) - (b - multiset{x}) == a - b
  {
  }

  lemma RemoveLeftOut<T>(a: multiset<T>, b: multiset<T>, x: T)
    requires b <= a && x in a && x !in b
    ensures x in a - b
    ensures b <= a - multiset{x}
    ensures (a - multiset{x}) - b <= a - b
  {
  }

  /** If everything `all` has beyond `chosen` is farther than `v`, then
      `chosen` holds at least as many pairs within `v` as `all`. */
  lemma {:induction false} CountWithinLeftOutFarther(all: seq<ColorDistance>, chosen: seq<ColorDistance>, v: int)
    requires multiset(chosen) <= multiset(all)
    requires forall p :: p in multiset(all) - multiset(chosen) ==> p.distance > v
    ensures CountWithin(all, v) <= CountWithin(chosen, v)
  {
    if all != [] {
      var x := all[0];
      MultisetCons(all);
      if x in multiset(chosen) {
        assert x in chosen;
        var k :| 0 <= k < |chosen| && chosen[k] == x;
        WithoutMultiset(chosen, k);
        RemoveFromBoth(multiset(all), multiset(chosen), x);
        CountWithinLeftOutFarther(all[1..], Without(chosen, k), v);
        WithoutCount(chosen, k, v);
      } else {
        RemoveLeftOut(multiset(all), multiset(chosen), x);
        CountWithinLeftOutFarther(all[1..], chosen, v);
      }
    }
  }

  /** If `all` has more pairs within `v` than its sub-multiset `chosen`,
      one of the pairs left out lies within `v`. */
  lemma LeftOutWithin(all: seq<ColorDistance>, chosen: seq<ColorDistance>, v: int)
    requires multiset(chosen) <= multiset(all)
    requires CountWithin(chosen, v) < CountWithin(all, v)
    ensures exists p :: p in multiset(all) - multiset(chosen) && p.distance <= v
  {
    if forall p :: p in multiset(all) - multiset(chosen) ==> p.distance > v {
      CountWithinLeftOutFarther(all, chosen, v);
      assert false;
    }
  }

  lemma {:induction false} CountWithinAll(s: seq<ColorDistance>, v: int)
    requires forall j :: 0 <= j < |s| ==> s[j].distance <= v
    ensures CountWithin(s, v) == |s|
  {
    if s != [] {
      CountWithinAll(s[1..], v);
    }
  }

  lemma {:induction false} CountWithinNone(s: seq<ColorDistance>, v: int)
    requires forall j :: 0 <= j < |s| ==> s[j].distance > v
    ensures CountWithin(s, v) == 0
  {
    if s != [] {
      CountWithinNone(s[1..], v);
    }
  }

  /** In a sorted list whose entry at `i` is within `v`, more than `i`
      entries are within `v`. */
  lemma SortedCountWithinAbove(s: seq<ColorDistance>, i: int, v: int)
    requires SortedByDistance(s)
    requires 0 <= i < |s| && s[i].distance <= v
    ensures CountWithin(s, v) > i
  {
    assert s == s[..i + 1] + s[i + 1..];
    CountWithinConcat(s[..i + 1], s[i + 1..], v);
    CountWithinAll(s[..i + 1], v);
  }

  /** In a sorted list whose entry at `i` is beyond `v`, at most `i`
      entries are within `v`. */
  lemma SortedCountWithinBelow(s: seq<ColorDistance>, i: int, v: int)
    requires SortedByDistance(s)
    requires 0 <= i < |s| && s[i].distance > v
    ensures CountWithin(s, v) <= i
  {
    assert s == s[..i] + s[i..];
    CountWithinConcat(s[..i], s[i..], v);
    CountWithinNone(s[i..], v);
  }

  lemma ClosestDistanceAtMost(query: Color, number: int, colors: seq<Color>, r1: seq<ColorDistance>, r2: seq<ColorDistance>, i: int)
    requires IsClosest(query, number, colors, r1)
    requires IsClosest(query, number, colors, r2)
    requires 0 <= i < number
    ensures r2[i].distance <= r1[i].distance
  {
    var v := r1[i].distance;
    if r2[i].distance > v {
      var all := Pairs(query, colors);
      SortedCountWithinAbove(r1, i, v);
      SortedCountWithinBelow(r2, i, v);
      CountWithinSubMultiset(r1, all, v);
      LeftOutWithin(all, r2, v);
      assert false;
    }
  }

  /** Any two results the search may return agree on the distance at each
      position: the only freedom left to the sort is which of several
      equally distant entries appear, and in which order. */
  lemma ClosestDistancesAgree(query: Color, number: int, colors: seq<Color>, r1: seq<ColorDistance>, r2: seq<ColorDistance>)
    requires IsClosest(query, number, colors, r1)
    requires IsClosest(query, number, colors, r2)
    ensures forall i :: 0 <= i < number ==> r1[i].distance == r2[i].distance
  {
    forall i | 0 <= i < number ensures r1[i].distance == r2[i].distance {
      ClosestDistanceAtMost(query, number, colors, r1, r2, i);
      ClosestDistanceAtMost(query, number, colors, r2, r1, i);
    }
  }
}
