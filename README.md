# closest_colors in Dafny

This project models `closest_colors`, a Go package that finds the colours in a
fixed palette that are nearest to a query colour. `FindClosestRGBColors`
checks that the requested count lies between 1 and the palette size. It then
pairs every palette entry with its Euclidean RGB distance to the query, sorts
the pairs by ascending distance and returns the first `number` of them. The
distance helper `getDistance` widens each 8-bit channel before subtracting,
so channel differences never wrap around.

The model is one module, `ClosestColors`, in `closest_colors.dfy`:

- `Color(id, r, g, b)` stands for any value that implements the `RGBColor`
  interface. Its channels are the subset type `Channel` (0..255). `id`
  stands for the rest of the caller's value and takes no part in the distance.
- `ColorDistance(color, distance)` is the Go struct of the same name.
- `SqDistance` is the squared Euclidean distance over unbounded integers.
  Square root is monotone, so ordering and optimality by squared distance are
  the same as by the Go `float64` distance.
- `FindClosest` is the search, written imperatively like the Go code. It has
  the same guard and returns `Err(InvalidCount(number))` instead of
  `nil, error`. A loop fills a fresh array with one pair per palette entry, in
  palette order. `SortByDistance` sorts that array in place with an insertion
  sort, and the method returns a copy of its first `number` entries.
- `IsClosest` is the specification of a correct answer: exactly `number`
  pairs, sorted by distance, each with the metric's distance for its colour,
  a sub-multiset of the palette's pairs, and nothing left out that is closer
  than anything kept. `FindClosest` is proved against it. The lemmas below
  it derive what callers rely on: returned colours come from the palette, the
  first one is nearest, and the distances at each position are fully
  determined.

The Go code sorts with `sort.Slice`, which is not stable. So the model
promises only that the sorted pairs are non-decreasing and a permutation of
the palette's pairs. It promises no order among pairs of equal distance. (The
insertion sort used here happens to be stable; nothing proved depends on
that.)

## Model

| member | source | states |
|---|---|---|
| `ClosestColors.SqDistance` | closest_colors.go:21-28 | The distance is zero exactly when all three channels are equal. It never exceeds 3·255², because channels are widened before subtraction and cannot wrap. |
| `ClosestColors.SqDistanceSymmetric` | closest_colors.go:21-28 | The distance from c1 to c2 equals the distance from c2 to c1. |
| `ClosestColors.SqDistanceOnlyRGB` | closest_colors.go:12-14 | Two colours with the same `RGB()` channels are equally far from any query. Nothing else about a colour matters. |
| `ClosestColors.Pairs` | closest_colors.go:35-38 | The pair list has one entry per palette entry, in palette order. Entry i pairs colour i with its distance to the query. |
| `ClosestColors.SwapAdjacent` | closest_colors.go:39-41 | Exchanges two neighbouring pairs, leaves every other entry unchanged, and keeps the multiset of pairs. |
| `ClosestColors.InsertIntoSorted` | closest_colors.go:39-41 | Given a sorted prefix `a[..i]`, it leaves `a[..i+1]` sorted by distance, the entries after `i` unchanged, and the array a permutation of its old contents. |
| `ClosestColors.SortByDistance` | closest_colors.go:39-41 | The array ends up non-decreasing by distance and is a permutation of its old contents. There is no promise about the order of equal distances. |
| `ClosestColors.SortedPrefixIsClosest` | closest_colors.go:39-43 | In a sorted list, no entry after the first n is closer than any entry among the first n. |
| `ClosestColors.SubMultisetOfPairsIsRanked` | closest_colors.go:35-38 | Every pair taken from the palette's pairs carries exactly the metric's distance for its colour. |
| `ClosestColors.PrefixOfSortedPairsIsClosest` | closest_colors.go:35-43 | The first n entries of any sorted permutation of the palette's pairs are a correct answer. |
| `ClosestColors.FindClosest` | closest_colors.go:30-44 | It fails with `InvalidCount(number)` exactly when `number <= 0` or `number > len(colors)`. Otherwise the result has exactly `number` pairs and is sorted by distance. Each pair's distance is the metric's distance for its colour. The result is a sub-multiset of the palette's pairs, and no pair left out is closer than any returned pair. |
| `ClosestColors.RejectsCountsOutsidePalette` | closest_colors_test.go:87-95 | With a 256-entry palette, requests for 0 and for 1000 results both fail with an error and return no results. |
| `ClosestColors.SingleEntryPalette` | closest_colors.go:30-44 | For a one-entry palette and count 1, the answer is that entry with its distance. The distance is zero exactly when the entry has the query's channels. |
| `ClosestColors.ResultColorsFromPalette` | closest_colors.go:35-43 | Every returned colour is a palette entry, and it is returned no more often than it occurs in the palette. |
| `ClosestColors.LeftOutColorsAreFarther` | closest_colors.go:39-43 | Suppose a palette colour occurs more often in the palette than in the result. Then it is at least as far from the query as every returned pair. |
| `ClosestColors.FirstIsNearest` | closest_colors.go:39-43 | The first returned pair is at least as close to the query as every palette entry. This is the single-result case the test checks. |
| `ClosestColors.ClosestDistanceAtMost` | closest_colors.go:39-43 | Take any two correct answers. Neither has a larger distance than the other at any position. |
| `ClosestColors.ClosestDistancesAgree` | closest_colors.go:39-43 | Any two correct answers have the same distance at every position. An unstable sort only changes which of several equally distant entries appear, and in what order. |

## Left out

- Floating point: `math.Sqrt` and `float64` distances are replaced by the exact integer squared distance. Because the square root is monotone, order and optimality are unchanged. The test's `EPSILON` tolerance checks are not modelled.
- Tie order: `sort.Slice` (closest_colors.go:39) is not stable, so no order among equal distances is promised.
- Interface dispatch: the `RGBColor` interface and its dynamic dispatch are replaced by the concrete `Color` datatype. Its `id` stands for the caller's own value, and pairs hold a copy of the colour rather than a reference.
- Nil colours: a nil `RGBColor`, as the query or as a palette entry, makes `getDistance` panic when it calls `RGB()` (closest_colors.go:22-23). `Color` cannot be nil, so this panic path is not modelled.
- Repeated `RGB()` calls: Go calls the caller's `RGB()` method on the query once per palette entry (closest_colors.go:22, 37). The model assumes that method is a deterministic function of the value, with no side effects.
- Error text: the `fmt.Errorf` message is not modelled. The failure is the `InvalidCount` variant carrying the rejected `number`.
- Slice aliasing: the returned `colorDistances[:number]` shares its backing array with the full sorted slice. The model returns a fresh sequence instead.
- Test harness: closest_colors_test.go loads a JSON palette from `testdata/term_colors.json` and uses `log.Panic` and the `testing` package. These are I/O. The data file is not part of this model, so the expected ids (125; 58, 94, 64, 3, 100) and distances cannot be stated.
- Integer width: Go's `int` for `number` and `len(colors)` is unbounded here. No comparison in the guard can overflow for real slice lengths.
