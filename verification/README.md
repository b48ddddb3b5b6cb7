# btrdb-explained, modelled in Dafny

This models the logic of an explanatory front end for a time-series tree
database. It has four parts:

- **Statistics cache** (`src/datagen.js`). Every node of a 64-ary tree
  over time carries a `{min, mean, max}` statistic. The cache fills in
  lazily:
  - `getStatPoint` looks a path up in a nested cache;
  - on a miss, `computeChildren` samples the 64 raw siblings from per-level
    noise fields;
  - it resolves the parent recursively;
  - below the root, `fitChildren` stretches the siblings into the parent's
    envelope;
  - `cacheWrite` stores them together with six mid-resolution groupings
    (`midResChildren`).
- **Nanosecond time scale** (`src/scaleTimeNano.js`):
  - conversion between nanosecond timestamps and millisecond dates;
  - the nanosecond durations;
  - the tick-interval table and the choice among its rows;
  - ticks on a reversed domain;
  - the digit-slicing tick labels;
  - the common digits of the context label.
- **Tree layout** (`src/Tree.js`):
  - the time domain of every level of the expanded path;
  - the placement of the mid-resolution cone;
  - which cells are expanded or clickable, and the path that a click sets.
- **Mesh helpers** (`src/geometry.js`): cutting a flat index list into
  triangles, looking points up by index, and the adjacency graph of a mesh.

Modules, one file each:

| module | file | models |
|---|---|---|
| `Wrappers` | `wrappers.dfy` | `Option` |
| `Powers` | `powers.dfy` | integer and real powers of two |
| `Stats` | `stats.dfy` | the statistic record, the d3-array aggregates, and `midResChildren` |
| `Noise` | `noise.dfy` | `getNoiseXFromPath` and `getNoise`, with the noise library as function values |
| `Fit` | `fit.dfy` | `fitChildren` |
| `Cache` | `cache.dfy` | `copyStat`, `cacheLookup`, `cacheWrite`, `computeChildren` and `getStatPoint`, with the cache as the class `StatCache` |
| `Decimal` | `decimal.dfy` | JavaScript's decimal text of an integer and `String.prototype.slice` with negative indices |
| `TimeScale` | `timescale.dfy` | the discrete parts of `scaleTimeNano` |
| `TreeLayout` | `treelayout.dfy` | the level domains, `midResStart`, `cone`, `isCellExpanded`, `levelClickable` and `cellClickable` |
| `Geometry` | `geometry.dfy` | `triangulate`, `pointLookup` and `createGraph` |

### The cache and its specification

- **What every node must hold.** The functions `Cache.ChildStats` and
  `Cache.Resolve` define, for every path, the statistic a cache node must
  carry:
  - at the root, the raw siblings;
  - below it, the siblings fitted into the parent's resolved statistic.
- **The class invariant.** `StatCache.Valid` requires two things:
  - every node the cache holds carries exactly the statistic its path
    resolves to;
  - every written node has the shape `cacheWrite` gives it.
- **What the methods prove.**
  - `GetStatPoint` keeps the invariant.
  - It returns the resolved statistic of any path with indices in [0, 64).
  - It finds every non-empty prefix of the path afterwards.
  - It never changes the statistic of a node that was already cached.
- **The root.** The cache object itself has a list of children but no
  statistic. This is why the root's children are never fitted.

The time-scale, layout and mesh code work on integers: timestamps,
nanosecond domains and indices. Statistics and cone positions are reals.

## Model

| member | source | states |
|---|---|---|
| `Noise.GetNoiseXFromPath` | src/datagen.js:62-70 | the accumulating loop returns the sum over the path of entry times its weight (`NoiseX`) |
| `Noise.TermIsPower` | src/datagen.js:63-67 | the entry at position `i` is weighted by `2 ** (40 - 6 i)` |
| `Noise.NoiseXPositional` | src/datagen.js:62-70 | the noise coordinate is the path read as a base-64 numeral, scaled by the weight of its deepest position |
| `Noise.NoiseXInjective` | src/datagen.js:62-70 | two paths of one depth with indices in [0, 64) get the same noise coordinate only if they are equal |
| `Noise.Base64Injective` | src/datagen.js:62-70 | distinct paths of one depth with indices in [0, 64) are distinct base-64 numerals |
| `Noise.GetNoise` | src/datagen.js:72-80 | the mean is the level `|path| - 1` mean field at the path's noise coordinate; `mean - min` and `max - mean` are the two shadow samples, so non-negative shadows give `min <= mean <= max` and positive ones `min < mean < max` |
| `Stats.MinOfMins` | src/datagen.js:102 | the result is at most every point's min, and some point's min equals it |
| `Stats.MaxOfMaxes` | src/datagen.js:103 | the result is at least every point's max, and some point's max equals it |
| `Stats.MeanOfMeansWithin` | src/datagen.js:104 | bounds on every mean bound the average of the means |
| `Stats.MeanOfMeansBetween` | src/datagen.js:104 | for ordered points, the average mean lies between the smallest min and the largest max |
| `Stats.Aggregate` | src/datagen.js:99-106 | a mid-resolution point encloses every point of its run, some point of the run attains each of its extremes, and its mean times the run's length is the sum of the run's means |
| `Stats.AggregateOrdered` | src/datagen.js:99-106 | the aggregate of ordered points is ordered |
| `Stats.GroupWidth` | src/datagen.js:97-98 | the width is `2 ** (6 - res)`, and `2 ** res` groups of that width cover the 64 children exactly |
| `Stats.GroupStart` | src/datagen.js:100 | group `i` starts at `i * width` and ends inside the 64 children |
| `Stats.Group` | src/datagen.js:100 | the slice of group `i` is non-empty and `width` long |
| `Stats.MidResChildren` | src/datagen.js:96-108 | there are `2 ** res` groups; `MidResMean`, `MidResCoversChild` and `MidResAttained` state their means and extremes |
| `Stats.MidResMean` | src/datagen.js:99-105 | group `i`'s mean is the average of the means of children `i * width` to `(i + 1) * width` |
| `Stats.AllMidRes` | src/datagen.js:114-116 | six groupings, and grouping `res` has `2 ** res` points |
| `Stats.GroupOf` | src/datagen.js:98-100 | child `j` is covered by group `j / width` |
| `Stats.MidResCoversChild` | src/datagen.js:96-108 | every child lies inside the envelope of the group that covers it |
| `Stats.MidResAttained` | src/datagen.js:99-106 | each group's min and max are attained by a child that group covers |
| `Stats.MidResCoarsest` | src/datagen.js:96-108 | resolution 0 is a single point with the overall min, average mean and max |
| `Stats.MidResFinest` | src/datagen.js:96-108 | at resolution 6 the grouping would be the children themselves |
| `Stats.MidResWithin` | src/datagen.js:96-108 | groupings of ordered children inside an envelope are ordered and inside it too |
| `Fit.Relative` | src/datagen.js:124-128 | one relative point per point |
| `Fit.RelativeExtremes` | src/datagen.js:124-132 | re-centering shifts the lowest min and the highest max by the center |
| `Fit.FindIndex` | src/datagen.js:133-134 | `findIndex`: the first index whose key equals the value, or -1 when there is none |
| `Fit.ExtremesFound` | src/datagen.js:131-134 | both searches for the local extremes succeed on non-empty points |
| `Fit.IndexOfMin` | src/datagen.js:131-133 | the first point whose min is the lowest min |
| `Fit.IndexOfMax` | src/datagen.js:132-134 | the first point whose max is the highest max |
| `Fit.FirstLowest` | src/datagen.js:122-133 | searching the relative points finds the first point with the lowest min of the original points |
| `Fit.FirstHighest` | src/datagen.js:122-134 | searching the relative points finds the first point with the highest max of the original points |
| `Fit.Stretch` | src/datagen.js:142-146 | the stretch factor; `StretchFits`, `StretchIsSmaller`, `MinSideWhenMaxBinds` and `FlatStretchIsZero` carry its contract |
| `Fit.StretchFor` | src/datagen.js:122-146 | the stretch for these points and this parent, from their relative extremes and the parent's; `FittedContained` uses it |
| `Fit.SpreadHasOffset` | src/datagen.js:131-145 | ordered points whose extremes differ have a non-zero relative extreme, so the stretch is a finite quotient |
| `Fit.FlatStretchIsZero` | src/datagen.js:142-146 | ordered points whose extremes coincide have both relative extremes zero, and the model's stretch is 0 where JavaScript's is `0 / 0` |
| `Fit.StretchFits` | src/datagen.js:142-146 | with local and global extremes on either side of zero, the chosen stretch is non-negative and satisfies `fit` |
| `Fit.StretchIsSmaller` | src/datagen.js:144-146 | with both local extremes strictly on either side of zero, the stretch is the smaller of `minStretch` and `maxStretch` |
| `Fit.MinSideWhenMaxBinds` | src/datagen.js:142-146 | when `minStretch` overshoots the max bound, `maxStretch` keeps the min side inside |
| `Fit.FitChildren` | src/datagen.js:119-163 | the method, building the stretched points and then overwriting the two extremes, returns `Fitted` |
| `Fit.Fitted` | src/datagen.js:119-163 | one fitted point per point |
| `Fit.SnapTwice` | src/datagen.js:154-160 | overwriting the min at `indexOfMin` and then the max at `indexOfMax` gives the snapped points |
| `Fit.FittedSnaps` | src/datagen.js:131-160 | the first point with the lowest min gets `parent.min` exactly, and the first with the highest max gets `parent.max` |
| `Fit.FittedContained` | src/datagen.js:142-160 | for an ordered parent and ordered, spread points, every fitted point is ordered and within the parent's envelope, and the fitted points reach both parent extremes |
| `Fit.SnappedContained` | src/datagen.js:149-160 | containment for any stretch that fits, whichever two indices are snapped |
| `Fit.PointContained` | src/datagen.js:149-153 | one point stretched by a fitting factor stays ordered and inside the envelope |
| `Fit.FittedMean` | src/datagen.js:122-154 | spread points, once fitted, average exactly to the parent's mean |
| `Fit.SnappedMean` | src/datagen.js:149-160 | snapping changes only mins and maxes, so relative means summing to zero average to the parent's mean |
| `Fit.RelativeSum` | src/datagen.js:122-128 | re-centering lowers the sum of the means by the center per point |
| `Fit.SumAffine` | src/datagen.js:149-154 | the same affine map applied to every mean applies to their sum |
| `Cache.CopyStat` | src/datagen.js:92-94 | a fresh unexpanded node with the statistic; `LeavesRoundTrip` states that copies keep exactly the statistics |
| `Cache.Leaves` | src/datagen.js:113 | one copied node per point |
| `Cache.LeavesRoundTrip` | src/datagen.js:92-94 | the copies keep exactly the statistics and are not expanded |
| `Cache.Siblings` | src/datagen.js:167 | 64 raw siblings, each ordered when the shadows are non-negative |
| `Cache.ChildStats` | src/datagen.js:165-170 | the 64 children written below a parent |
| `Cache.Resolve` | src/datagen.js:174-184 | the statistic a path resolves to, its entry among its parent's children; `ResolveChild`, `ResolveOrdered`, `ChildrenFitParent` and `WithinAncestor` carry its contract |
| `Cache.SiblingsSpread` | src/datagen.js:72-80 | with positive shadows the 64 raw siblings are ordered and their extremes differ |
| `Cache.PositiveShadowsSpread` | src/datagen.js:72-80 | positive shadows are non-negative and make every set of siblings below the root spread |
| `Cache.ResolveChild` | src/datagen.js:167-170 | a child path resolves to its entry among its parent's children |
| `Cache.ChildStatsOrdered` | src/datagen.js:165-170 | with non-negative shadows and spread siblings below the root, every child statistic is ordered, fitted or not |
| `Cache.ResolveOrdered` | src/datagen.js:174-184 | every resolved statistic is ordered |
| `Cache.ChildrenFitParent` | src/datagen.js:165-170 | below the root, the children lie within their parent's envelope, reach both of its extremes and average to its mean |
| `Cache.CoarsestMidResIsParent` | src/datagen.js:114-116 | the coarsest grouping of a fitted node's children is the node's own statistic |
| `Cache.WithinAncestor` | src/datagen.js:165-184 | every resolved statistic lies within the envelope of each of its ancestors |
| `Cache.LookupIn` | src/datagen.js:82-90 | a node is found only for a non-empty path whose first index is in range |
| `Cache.LookupExtend` | src/datagen.js:85-88 | looking up `p + [i]` is looking up `p` and then taking child `i` of an expanded node |
| `Cache.LookupPrefix` | src/datagen.js:82-90 | every non-empty prefix of a found path is found, and every proper prefix is expanded |
| `Cache.DeadEnd` | src/datagen.js:86 | nothing is found below a missing or unexpanded node |
| `Cache.WriteIn` | src/datagen.js:110-113 | a write below the root keeps the number of root children |
| `Cache.WriteAt` | src/datagen.js:110-117 | after a write, the node at the path is the old node expanded with copies of the points and their groupings |
| `Cache.WriteKeeps` | src/datagen.js:110-117 | every node found before and not below the written one is still found, with its old statistic |
| `Cache.WriteStats` | src/datagen.js:110-117 | the statistics directly below the root do not change by a write further down |
| `Cache.WriteFound` | src/datagen.js:110-117 | a node found after a write is a fresh copy directly below the written node, or an old node with its old statistic |
| `Cache.LookupShaped` | src/datagen.js:110-117 | every node found in a well-shaped tree is well-shaped |
| `Cache.WriteShaped` | src/datagen.js:110-117 | a write keeps the tree well-shaped |
| `Cache.BelowFound` | src/datagen.js:165-171 | when anything strictly below `p` is found, all 64 children of `p` are found |
| `Cache.FoundIsResolved` | src/datagen.js:174-178 | in a valid cache a found node carries its path's resolved statistic |
| `Cache.MissKeeps` | src/datagen.js:180-182 | filling a missing child's parent keeps every node found before, with its statistic |
| `Cache.WriteResolved` | src/datagen.js:165-171 | writing a node's resolved children keeps every found node resolved |
| `Cache.RootResolved` | src/datagen.js:165-170 | the first write at the root leaves every found node resolved |
| `Cache.LeavesShaped` | src/datagen.js:113-116 | fresh copies form a well-shaped list of children |
| `Cache.MissFilled` | src/datagen.js:180-183 | after a miss is filled, every prefix of the path and the path itself are found, the new node is unexpanded, and old nodes are kept |
| `Cache.StatCache.constructor` | src/datagen.js:187 | the empty cache `{ children: [] }` is valid |
| `Cache.StatCache.CacheLookup` | src/datagen.js:82-90 | the loop returns exactly `LookupIn` of the path: nothing for an empty path, a missing index or an unexpanded node |
| `Cache.StatCache.CacheWrite` | src/datagen.js:110-117 | the node at the path gets copies of the points and their six groupings, and nothing else changes |
| `Cache.StatCache.ComputeChildren` | src/datagen.js:165-171 | keeps the invariant, writes the resolved children below the parent, finds every prefix, and keeps the statistic of every node not below the parent |
| `Cache.StatCache.GetStatPoint` | src/datagen.js:174-184 | nothing for an empty path; a hit writes nothing; otherwise it returns the resolved statistic, keeps old nodes and their statistics, and finds every prefix |
| `Decimal.SliceLast` | src/scaleTimeNano.js:139 | `slice(-k)` is the last `k` characters, or the whole string when it is shorter |
| `Decimal.SliceBetween` | src/scaleTimeNano.js:140 | `slice(-k, -m)` of a string of at least `k` characters is the characters from `k` to `m` before the end |
| `Decimal.DigitsSplit` | src/scaleTimeNano.js:137-140 | the decimal digits of `n` are those of `n / 10^k` followed by its last `k` digits, zero-padded |
| `Decimal.PaddedZero` | src/scaleTimeNano.js:141-142 | a zero-padded group reads all zeros exactly when its value is zero |
| `TimeScale.DateToNs` | src/scaleTimeNano.js:43-46 | a date's timestamp is a whole number of milliseconds |
| `TimeScale.NsToDate` | src/scaleTimeNano.js:39-42 | the date is the millisecond floor: `dateToNs(d) <= ns < dateToNs(d) + 10^6` |
| `TimeScale.DateRoundTrip` | src/scaleTimeNano.js:39-46 | `nsToDate(dateToNs(ms)) == ms` |
| `TimeScale.NsToDateMonotone` | src/scaleTimeNano.js:39-42 | later timestamps never floor to earlier dates |
| `TimeScale.UnitDuration` | src/scaleTimeNano.js:51-59 | each calendar unit lasts at least a second and a whole number of milliseconds |
| `TimeScale.TableRowsConsistent` | src/scaleTimeNano.js:198-217 | every row's step is at least one, its duration is that many of its unit's durations, and a whole number of milliseconds |
| `TimeScale.TableIncreasing` | src/scaleTimeNano.js:198-217 | 18 rows, durations strictly increasing from one second, and the last row is one year |
| `TimeScale.BisectRight` | src/scaleTimeNano.js:225 | the rows before the result have durations at most the target, and the rows from it on have durations above it |
| `TimeScale.Closer` | src/scaleTimeNano.js:230 | the picked row is one of the two that bracket the target |
| `TimeScale.TickInterval` | src/scaleTimeNano.js:221-239 | the interval `tickInterval` picks; `TickIntervalChoice`, `CloserIsCloser` and `DefaultIsTen` carry its contract |
| `TimeScale.TickIntervalChoice` | src/scaleTimeNano.js:221-239 | linear ticks when the target is below one second, years from one year up, otherwise a bracketing row chosen by ratio |
| `TimeScale.CloserIsCloser` | src/scaleTimeNano.js:229-232 | the picked row is no further from the target in ratio than the other one |
| `TimeScale.DefaultIsTen` | src/scaleTimeNano.js:222 | an absent interval behaves as a count of ten |
| `TimeScale.Reverse` | src/scaleTimeNano.js:267 | entry `k` of the reverse is entry `n - 1 - k` |
| `TimeScale.ReverseReverse` | src/scaleTimeNano.js:267 | reversing twice gives the ticks back |
| `TimeScale.DatesToNs` | src/scaleTimeNano.js:264 | each tick date is mapped to its timestamp |
| `TimeScale.ReverseInPlace` | src/scaleTimeNano.js:267 | the array afterwards holds the reverse of its old contents |
| `TimeScale.ForwardTicks` | src/scaleTimeNano.js:238-264 | nothing where `every` yields null and reading `t.NANO` throws, else the linear ticks or the calendar ticks mapped to timestamps |
| `TimeScale.TicksOf` | src/scaleTimeNano.js:242-268 | the forward ticks, reversed for a reversed domain |
| `TimeScale.Ticks` | src/scaleTimeNano.js:242-268 | the method, which swaps a reversed domain, stops where `every` yields null, and reverses the result back, returns `TicksOf` |
| `TimeScale.TicksReversed` | src/scaleTimeNano.js:243-267 | reversing the domain throws exactly when the other direction does, and otherwise reverses the ticks |
| `TimeScale.CalendarTicksWholeMs` | src/scaleTimeNano.js:256-264 | calendar ticks fall on whole milliseconds |
| `TimeScale.ZeroCountThrows` | src/scaleTimeNano.js:226-238 | a tick count of zero takes the year branch with a non-finite step, and `ticks` throws |
| `TimeScale.ExplicitStepThrows` | src/scaleTimeNano.js:238 | an explicit interval with an explicit step throws exactly when the step is below one |
| `TimeScale.CountTicksDefined` | src/scaleTimeNano.js:221-238 | a non-zero tick count never throws |
| `TimeScale.TickFormatAsWritten` | src/scaleTimeNano.js:136-145 | the label as written, with the two-character micro suffix; `MicroSuffixMisspelt` carries its contract |
| `TimeScale.TickFormat` | src/scaleTimeNano.js:136-145 | the label with the micro sign; `TickFormatDigits` and `DigitGroups` carry its contract |
| `TimeScale.MicroSuffixMisspelt` | src/scaleTimeNano.js:142 | one microsecond is labelled `"1"` followed by two characters, U+00C2 U+00B5, rather than by the micro sign |
| `TimeScale.TickFormatDigits` | src/scaleTimeNano.js:136-145 | from a millisecond up, the label is the nanosecond group and "n" unless it is zero, else the microsecond group and the micro sign unless it is zero, else the date label |
| `TimeScale.DigitGroups` | src/scaleTimeNano.js:139-140 | the two sliced groups are the zero-padded nanosecond and microsecond digits |
| `TimeScale.CommonPrefix` | src/scaleTimeNano.js:179-183 | a prefix of both strings, at most `cap` long, that stops only at the cap, at an end, or at a difference |
| `TimeScale.CommonDigits` | src/scaleTimeNano.js:179-183 | the loop builds the common prefix of the two strings, capped at five characters |
| `TimeScale.FirstAgreeing` | src/scaleTimeNano.js:188-190 | the first breadcrumb level from `k` on whose floors of the two dates agree, with no earlier one agreeing |
| `TimeScale.ContextOf` | src/scaleTimeNano.js:168-191 | the context label of a domain; `ContextDigits` and `ContextLevelFinest` carry its contract |
| `TimeScale.ContextFormat` | src/scaleTimeNano.js:168-191 | the method returns `ContextOf` of the domain |
| `TimeScale.ContextDigits` | src/scaleTimeNano.js:176-186 | within one millisecond, the context shows the common prefix of the last six digits, capped at five |
| `TimeScale.ContextLevelFinest` | src/scaleTimeNano.js:188-190 | otherwise the context is the finest breadcrumb level whose floors agree, or nothing |
| `TreeLayout.RootStartIsPower` | src/Tree.js:97 | `rootStart` is `-(2 ** 60)` |
| `TreeLayout.LevelDomains` | src/Tree.js:170-192 | the loop gives one domain per path entry, and domain `i` starts at `LevelStart(path, i)` and is `LevelWidth(i)` wide |
| `TreeLayout.RootDomain` | src/Tree.js:171-176 | level 0's domain is `[-(2 ** 60), 3 * 2 ** 60)` |
| `TreeLayout.LevelWidthIs` | src/Tree.js:170-191 | level `i` spans `2 ** (62 - 6 i)` ns, that is `2 ** (56 - 6 i) * 64` |
| `TreeLayout.LevelNested` | src/Tree.js:188-191 | for an entry in [0, 64), level `i + 1`'s domain is that entry's slice of level `i`'s domain cut into 64 |
| `TreeLayout.LevelInsideAncestor` | src/Tree.js:175-191 | for indices in [0, 64), every level's domain lies inside the domain of every level above it |
| `TreeLayout.MidResStart` | src/Tree.js:719-728 | the linear map of `[0, 63]` onto `[0, 64 - 2 ** exp]`; `MidResStartEnds` and `MidResStartBounds` carry its contract |
| `TreeLayout.MidResStartEnds` | src/Tree.js:719-728 | 0 at parent 0, `64 - 2 ** exp` at parent 63, and the identity when `exp` is 0 |
| `TreeLayout.MidResStartBounds` | src/Tree.js:719-728 | for a parent cell in [0, 63] and `exp <= 6`, the start lies in `[0, 64 - 2 ** exp]` |
| `TreeLayout.Cone` | src/Tree.js:235-242 | the cone's box at a row; `ConeInsideRow` carries its contract |
| `TreeLayout.ConeInsideRow` | src/Tree.js:235-242 | the cone has `2 ** max(0, row)` cells, and for a parent in [0, 63] and `row <= 6` it stays inside the tree row |
| `TreeLayout.IsCellExpanded` | src/Tree.js:707-709 | whether the path's entry after `level` is the cell; `ExpandedUnique` and `ClickExpands` carry its contract |
| `TreeLayout.ExpandedUnique` | src/Tree.js:707-709 | a visible level has exactly one expanded cell, the next path entry, and a level past the path has none |
| `TreeLayout.SliceTo` | src/Tree.js:847 | `path.slice(0, n)` is the prefix of clamped length, counting back from the end for a negative `n` |
| `TreeLayout.ClickPath` | src/Tree.js:846-862 | the path down to the clicked level followed by the cell; `ClickExpands` and `ClickKeepsPathShort` carry its contract |
| `TreeLayout.ClickExpands` | src/Tree.js:846-862 | clicking a cell at a visible level keeps the path above it, expands that cell, and collapses the levels below |
| `TreeLayout.LevelClickable` | src/Tree.js:874-876 | levels below 9 are clickable; `ClickKeepsPathShort` uses it |
| `TreeLayout.CellClickable` | src/Tree.js:877-881 | a hit on a full-resolution cell of a clickable level; `ClickKeepsPathShort` uses it |
| `TreeLayout.ClickKeepsPathShort` | src/Tree.js:743-881 | from a path of at most ten entries, a clickable hit at any level, the root level -1 included, yields a path of at most ten entries |
| `Geometry.Triangulate` | src/geometry.js:4-11 | the stride-three loop returns `Triangles`, whose entry `k` is `indices[3k .. min(3k + 3, n))` |
| `Geometry.TrianglesFlatten` | src/geometry.js:7-9 | laid end to end, the triangles give back the index list |
| `Geometry.TrianglesWhole` | src/geometry.js:7-9 | for a length divisible by three, there are `n / 3` triangles of exactly three indices |
| `Geometry.PointLookup` | src/geometry.js:13-15 | one entry per index, defined exactly when the index is in range |
| `Geometry.PointLookupAppend` | src/geometry.js:13-15 | looking up two index lists one after the other is looking up their concatenation |
| `Geometry.PointLookupVertex` | src/geometry.js:13-15 | entry `k` is the point at `indexes[k]` |
| `Geometry.AllSidesMembers` | src/geometry.js:43-46 | the side list holds exactly the sides of the triangles |
| `Geometry.CreateGraph` | src/geometry.js:41-49 | one adjacency set per point; `y` is in `x`'s set exactly when a side joins them in either direction |
| `Geometry.GraphSymmetric` | src/geometry.js:45 | the adjacency is symmetric and stays within the point list |
| `Geometry.GraphIsSides` | src/geometry.js:42-47 | the edges are exactly the sides `(a, b)`, `(b, c)`, `(c, a)` of the triangles |

## Left out

- **Noise library.** FastSimplexNoise and seedrandom are not modelled. The
  per-level mean and shadow fields are function values of (level, x, t).
  The shadow fields' `min: 0` becomes the hypothesis `ShadowNonNegative`.
  The knob table only fixes that there are ten levels.
- **Floating point.** Statistics and cone positions are exact reals.
  Timestamps and domains are unbounded integers. JavaScript doubles are
  only microsecond-accurate at these magnitudes and lose exactness at deep
  tree levels; no rounding is modelled.
- `Fit.Stretch`: with all local mins at zero, or all local maxes at zero,
  JavaScript divides by zero and gets an infinite or NaN factor. The model
  follows the comparison outcomes IEEE arithmetic gives (`fit` of such a
  quotient is false). When both relative extremes are zero, all siblings
  sit on one value and JavaScript's stretch is NaN or infinite, so every
  fitted mean is NaN. There the model uses the stretch 0
  (`FlatStretchIsZero`), which collapses the points onto the parent's mean.
- `Fit.FittedContained`, `Fit.FittedMean`: proved only for spread points
  (`Spread`), where JavaScript's stretch is a finite quotient. They say
  nothing about flat siblings, whose fitted statistics are NaN in
  JavaScript.
- `Cache.ChildStatsOrdered`, `Cache.ResolveOrdered`,
  `Cache.ChildrenFitParent`, `Cache.CoarsestMidResIsParent`,
  `Cache.WithinAncestor`: besides non-negative shadows, these assume that
  below the root every set of raw siblings is spread
  (`FittedSiblingsSpread`). They say nothing about a node whose 64
  siblings all have zero shadow samples and one common mean: `fitChildren`
  then computes `0 / 0`, and JavaScript gives NaN statistics below that
  node. Zero shadows with differing means still give finite stretches and
  are covered. Strictly positive shadows (`ShadowPositive`) rule the flat
  case out everywhere (`PositiveShadowsSpread`).
- `Cache.WriteIn`: `cacheWrite` walks pointers and mutates the node in
  place. The model rebuilds the path functionally. Sharing between nodes
  cannot arise, because every node is created fresh by `copyStat`.
- `Cache.StatCache.GetStatPoint`: two preconditions stand for cases where
  JavaScript throws:
  - all indices but the last must be in [0, 64), otherwise `cacheWrite`
    reads a missing node;
  - paths may have at most ten entries, otherwise `meanNoise[level]` is
    undefined.

  An out-of-range last index is modelled: the parent's children are
  regenerated and nothing is returned.
- **The `count` field** is not modelled, and neither is forcing
  `min = mean = max` at the leaves; the source does neither.
- **Scope of the source, as modelled.**
  - The noise coordinate weights every path entry, entry `i` by
    `2 ** (40 - 6 i)` (src/datagen.js:62-70).
  - The stored groupings are the resolutions 0 to 5, that is 1 to 32
    points (src/datagen.js:114-116).
  - The time scale has a single mode, with no offset
    (src/scaleTimeNano.js).
- `test()`, which logs to the console, is not modelled.
- **d3 libraries.** The calendar intervals of d3-time (floors, `every`,
  `range`), d3-time-format, and d3-array's `ticks` and `tickStep` are
  inputs (`Library`, the `floor` function) or symbolic results
  (`YearTickStep`, `DateLabel`, `AtLevel`). The same holds for the linear
  scale behind `scaleTimeNano` and its inherited methods `invert`,
  `domain`, `range`, `rangeRound`, `clamp` and `interpolate`.
- **`scale.nice` and `scale.copy`** only forward to d3 and are not
  modelled.
- `TimeScale.ForwardTicks`: `tickStep` is not modelled, so the year step
  of a non-zero count is taken to floor to a positive whole number. It
  does, because the year branch is only taken when the domain spans at
  least one year per tick. A non-finite explicit step cannot be written as
  a real, so only a step below one throws.
- `TimeScale.TickFormat`: `ns + ""` is modelled as plain decimal digits.
  JavaScript switches to exponent notation from 10^21 on; that case is not
  modelled.
- `TreeLayout.ConeInsideRow`: `cone` is also drawn at fractional rows
  during animation. The model takes whole rows only.
- **Tree UI.** Canvas drawing, hit-testing, mouse handling, animation and
  transitions in `src/Tree.js` are UI and are not modelled. Only the path
  a click sets (`ClickPath`) is modelled. Nor are `src/Calendar.js`,
  `src/Viz.js`, `src/App.js`, `src/Demo.js` or `src/Ping.js`.
- `Geometry.Triangulate`: the Delaunay triangulation is a foreign library.
  Its flat index list is the input.
- `Geometry.CreateGraph`: JavaScript object keys become integer sets. The
  precondition that every vertex indexes a point stands for the TypeError
  JavaScript throws on `graph[i]` of a missing point.
- **Geometry extras.** `randomMesh`, `dist`, `triangleArea` and
  `triangleAngles` use randomness, square roots and arc cosines, and are
  not modelled.

## Findings

| source | as written | input that shows it | evidently intended | confidence | as-written member | corrected member |
|---|---|---|---|---|---|---|
| src/scaleTimeNano.js:142 | the micro suffix is the two characters U+00C2 U+00B5 ("Âµ"): the UTF-8 bytes of the micro sign read as Latin-1 | `tickFormat(1000)` gives `"1Âµ"` | the micro sign U+00B5 alone, `"1µ"` | medium, not executed | `TimeScale.MicroSuffixMisspelt` | `TimeScale.TickFormatDigits` |
