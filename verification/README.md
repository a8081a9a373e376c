# Models of the hellomantids web page and message board

A Dafny model of the algorithms behind the hellomantids web application, with proofs. Most of them
come from the JavaScript bundle that the pages load: Popper 1.14.7, which positions tooltips and
menus, and Bootstrap 4.3.1. The rest is the small message board of the C++ server. Verify everything
with `dafny verify dfyconfig.toml`.

## How it is organised

- `Geometry.dfy`: rectangles whose far edges are stored and can be stale, placements, nearest points.
- `OffsetParser.dfy`, `OffsetText.dfy`, `OffsetTheorems.dfy`: the parser of offset expressions with
  its loops, what it does to the text of an expression, and the agreement with a printer and a meaning.
- `PopperSpec.dfy`: every modifier, `flip` and the driver as functions on the value of `data`.
  `PopperEngine.dfy`: the same as methods on mutable objects, proved equal to those functions.
  `PopperAuto.dfy`: the choice of an `auto` placement. `PopperTheorems.dfy`: what single modifiers
  achieve. `PopperPipeline.dfy`: what whole runs keep and reach. `PopperSearch.dfy`: `flip` as a
  search. `PopperEdges.dfy`: far edges that are out of date. `PopperUpdate.dfy`: a whole update.
  `PopperEffects.dfy`: what the modifiers store and what they require, in coordinates.
- `Optional.dfy`, `Sequences.dfy`: a value that may be absent; concatenations grouped differently.
- `Sanitizer.dfy`: the mutating loop of the HTML sanitizer against a recursive filter.
- `Tooltip.dfy`, `Carousel.dfy`, `TransitionEnd.dfy`, `Listeners.dfy`, `ScrollSpy.dfy`: objects that
  react to events and timers. Each has a class whose methods are proved equal to step functions, and
  theorems about all runs of those steps. Pending timers are an explicit set or map; any pending
  timer may fire at any time.
- `Board.dfy`: histories of the board as a sequential table. `BoardServer.dfy`: routing, and clients
  interleaving under a readers-writer lock. `Database.dfy`: the database object, call by call.

Measurements of the page (sizes, rectangles, boundaries, scroll positions, computed styles), delays,
answers of preventable events and outcomes of database queries are parameters. Numbers are exact
reals with a floor.

## What the proofs found

- `preventOverflow`, `keepTogether` and `arrow` are each the nearest point of an interval. Through all
  flips the popper ends attached to its reference exactly if the arrow is short enough
  (`PopperPipeline.DefaultPipelineAttaches`). If it fits the boundary it ends inside, on the cross axis
  exactly when the reference reaches far enough in (`PopperPipeline.DefaultPipelineSettles`); if not,
  flush with one edge (`PopperPipeline.DefaultPipelineOverfull`).
- `flip` can test attempts after the first with far edges that are out of date: exactly if the last
  enabled modifier before it moved the popper and is neither `arrow` nor `inner`, or if no modifier
  before it is enabled and the new box does not end at the edges stored before
  (`PopperEdges.FreshIffEdgesAgree`). `PopperEdges.TestIsTrueIff` says when that changes the outcome,
  which takes `preventOverflow` or `offset` last, or no modifier at all (`PopperEdges.MisledOnlyBy`).
  Then an overlapping position can be accepted or a free one rejected
  (`PopperEdges.StaleEdgeHidesOverlap`, `PopperEdges.StaleEdgeRejectsFree`). Both poppers that this
  bundle makes, for dropdowns (line 4237) and for tooltips (line 5547), leave `arrow` enabled, so they
  are not affected, with an arrow element or without; and the bundle does not export Popper (lines
  6997-7008). The failing cases are reached only through the constructor of the library, with `arrow`
  off.
- A fallback list is searched correctly from the current side on, entries with a variation of their own
  included (`PopperSearch.FlipFollowsTrail`); `clockwise` and `counterclockwise` leave the current side
  out and do nothing (`PopperSearch.WalkingAroundDoesNothing`).
- The documentation of the offset option allows white space between the two offsets. Before a signed
  second offset it does not divide them, so `10 -5` is five and zero (`OffsetTheorems.SpaceDividesIff`).
- A tooltip that is asked to show while disabled gets stuck: enabled again, it shows nothing until all
  triggers are left. That is the only way in which visibility fails to follow the triggers
  (`Tooltip.FaithfulIffNothingIgnored`).
- Calls of `to` during a slide wait, and the last of them wins (`Carousel.LastCallWins`).
- Popper looks the window up again on disabling, so a listener is left behind exactly if the reference
  has moved to another document (`Listeners.DisableRemovesAllIffSameWindow`).
- Removing an id that was never issued reports success and is not final
  (`Board.RemovalIsFinalIffIssued`); a failed fetch shortens a listing silently,
  exactly if a row was left (`BoardServer.FailureShortensIff`).

## Model

| member | source | states |
|---|---|---|
| PopperTheorems.BesideTouchesAndCentres | hellomantids/var/www/hellomantids/assets/js/bootstrap.bundle.js:2293-2320 | the initial position stands against the side of the placement, has the measured size and is centred on the reference |
| PopperTheorems.ShiftAligns | hellomantids/var/www/hellomantids/assets/js/bootstrap.bundle.js:3417-3441 | `start` aligns the near edges on the cross axis, `end` the far edges; the main axis is left alone |
| PopperTheorems.OffsetWidensGap | hellomantids/var/www/hellomantids/assets/js/bootstrap.bundle.js:3321-3333 | on every side, the first offset slides along the reference and the second widens the gap to it by exactly its amount |
| PopperTheorems.InnerIsFlush | hellomantids/var/www/hellomantids/assets/js/bootstrap.bundle.js:3488-3505 | `inner` makes the popper flush with the inside of its side and leaves the other axis and the size alone |
| PopperTheorems.CheckSidesFitting | hellomantids/var/www/hellomantids/assets/js/bootstrap.bundle.js:3382-3403 | for any priority list, also one that does not name every side: where a popper that fits ends up on an axis |
| PopperTheorems.PreventOverflowIsNearest | hellomantids/var/www/hellomantids/assets/js/bootstrap.bundle.js:3382-3403 | when the popper fits, every list naming both sides of an axis, in any order and with repeats, gives the point of the boundary interval nearest to the original |
| PopperTheorems.PreventOverflowIsUnique | hellomantids/var/www/hellomantids/assets/js/bootstrap.bundle.js:3382-3403 | there is no other such point, so all these lists agree |
| PopperTheorems.PreventOverflowIsIdempotent | hellomantids/var/www/hellomantids/assets/js/bootstrap.bundle.js:3382-3408 | after re-normalising, a second pass with any list changes nothing |
| PopperTheorems.CheckSidesOverfull | hellomantids/var/www/hellomantids/assets/js/bootstrap.bundle.js:3382-3403 | for any list: where a popper that does not fit ends up, which depends on the stale far edge and on the side named last |
| PopperTheorems.PreventOverflowOverfull | hellomantids/var/www/hellomantids/assets/js/bootstrap.bundle.js:3382-3403 | when it does not fit, it ends flush with the far edge exactly if that edge overflowed on arrival and the far side is named last, else flush with the near edge |
| PopperTheorems.DefaultPriorityOverfull | hellomantids/var/www/hellomantids/assets/js/bootstrap.bundle.js:3626 | the same for the default list: far edge if that edge overflowed on arrival, near edge otherwise |
| PopperTheorems.CheckSidesStay | hellomantids/var/www/hellomantids/assets/js/bootstrap.bundle.js:3382-3403 | for any list, fitting or not: exactly when the loop leaves the position on an axis alone |
| PopperTheorems.KeepTogetherIsNearest | hellomantids/var/www/hellomantids/assets/js/bootstrap.bundle.js:3143-3163 | `keepTogether` is the least move after which popper and floored reference touch or overlap on the cross axis |
| PopperTheorems.KeepTogetherIsIdempotent | hellomantids/var/www/hellomantids/assets/js/bootstrap.bundle.js:3143-3163 | a second application is the identity |
| PopperTheorems.ArrowIsNearest | hellomantids/var/www/hellomantids/assets/js/bootstrap.bundle.js:2941-2949 | if both tests cannot fire at once, `arrow` is the least move after which popper and reference share an arrow length at either end |
| PopperTheorems.ArrowPointsAtReference | hellomantids/var/www/hellomantids/assets/js/bootstrap.bundle.js:2941-2962 | without margin and border and before rounding, the arrow lies wholly within popper and reference, as near to the reference's centre as the popper reaches |
| PopperTheorems.RoundIsNear | hellomantids/var/www/hellomantids/assets/js/bootstrap.bundle.js:2965 | rounding the arrow's offset gives the nearest whole pixel, halves upward |
| PopperTheorems.KeptInsideIffReferenceTouches | hellomantids/var/www/hellomantids/assets/js/bootstrap.bundle.js:3143-3163 | after `preventOverflow` and `keepTogether` a popper that fits is inside on the main axis, and on the cross axis if and only if the floored reference touches the boundary |
| PopperTheorems.VisibleMeansInside | hellomantids/var/www/hellomantids/assets/js/bootstrap.bundle.js:3450-3479 | if `hide` reports the reference visible and the near boundary edges are whole pixels, the popper is inside on both axes |
| PopperTheorems.NoConflictIsStrip | hellomantids/var/www/hellomantids/assets/js/bootstrap.bundle.js:3094-3106 | on whole pixels `flip` finds no conflict if and only if the popper lies between reference and boundary on its own side |
| PopperTheorems.VariationSideIsAligned | hellomantids/var/www/hellomantids/assets/js/bootstrap.bundle.js:3108-3110 | the side tested for flipping a variation is the side that the variation aligns |
| PopperTheorems.ThreeMoves | hellomantids/var/www/hellomantids/assets/js/bootstrap.bundle.js:2941-2949 | the three moves on one axis: attached always, inside the boundary if and only if the reference reaches far enough in |
| PopperEffects.NumberSlides | hellomantids/var/www/hellomantids/assets/js/bootstrap.bundle.js:3305-3333 | a number as offset slides the popper along the reference and keeps its distance |
| PopperEffects.PairMoves | hellomantids/var/www/hellomantids/assets/js/bootstrap.bundle.js:3305-3333 | a pair of expressions as offset slides it by the value of the first and moves it away by that of the second, percentages taken on the axis of each move |
| PopperEffects.RequiredIff | hellomantids/var/www/hellomantids/assets/js/bootstrap.bundle.js:2870-2886 | a required modifier counts if and only if an enabled one of its name has a lower order than the first that requires it |
| PopperEffects.RequirementsMatter | hellomantids/var/www/hellomantids/assets/js/bootstrap.bundle.js:2899-2919 | without what they require, or without an arrow element, `arrow` and `hide` change nothing |
| PopperEffects.DefaultPipelineStoresArrow | hellomantids/var/www/hellomantids/assets/js/bootstrap.bundle.js:2951-2965 | for any margin and border, the arrow stored by the default pipeline is rounded from under the centre of the reference, or from as near to it as the popper reaches, at the position the run ends with |
| PopperEffects.StoredArrowPoints | hellomantids/var/www/hellomantids/assets/js/bootstrap.bundle.js:2951-2965 | without margin and border that is at most half a pixel from the place where the arrow points at the reference |
| PopperEffects.DefaultPipelineReports | hellomantids/var/www/hellomantids/assets/js/bootstrap.bundle.js:3450-3479 | with `hide` on, the default pipeline reports the reference hidden if and only if it lies wholly outside the boundary |
| PopperEffects.HideCrashesIff | hellomantids/var/www/hellomantids/assets/js/bootstrap.bundle.js:3450-3458 | `hide` fails exactly if its requirement stands in the list but no boundary was left for it |
| PopperEffects.InnerTurnsPlacement | hellomantids/var/www/hellomantids/assets/js/bootstrap.bundle.js:3500-3502 | `inner` turns the placement to the opposite side and keeps the variation |
| PopperEffects.FlipIsSkippedIff | hellomantids/var/www/hellomantids/assets/js/bootstrap.bundle.js:3053-3062 | `flip` is skipped if and only if `inner` is on or flipping has led back to the original placement |
| PopperEffects.ConflictInWholePixels | hellomantids/var/www/hellomantids/assets/js/bootstrap.bundle.js:3094-3106 | the conflict test depends on the whole pixels of the edges only |
| PopperEffects.VariationChangesIff | hellomantids/var/www/hellomantids/assets/js/bootstrap.bundle.js:3108-3110 | the variation changes if and only if `flipVariations` is on and the popper leaves the boundary on the side it is aligned with |
| PopperEffects.RestartMarks | hellomantids/var/www/hellomantids/assets/js/bootstrap.bundle.js:3112-3131 | a restart marks the data as flipped, has the placement it tries, and keeps the original one |
| PopperSpec.FindIndex | hellomantids/var/www/hellomantids/assets/js/bootstrap.bundle.js:2350-2363 | the first modifier of that name, or -1 if there is none |
| PopperSpec.BeforeHasNoFlip | hellomantids/var/www/hellomantids/assets/js/bootstrap.bundle.js:2375-2376 | the list that `flip` re-enters the driver with contains no `flip`, whatever the list it stands in |
| PopperPipeline.RunListConserves | hellomantids/var/www/hellomantids/assets/js/bootstrap.bundle.js:2375-2396 | for any list of the modifiers in any order, through all flips: the popper keeps its measured size and the reference does not move |
| PopperPipeline.FlipLoopConserves | hellomantids/var/www/hellomantids/assets/js/bootstrap.bundle.js:3086-3132 | the same for every remaining part of flip's loop |
| PopperPipeline.CoreRectSettles | hellomantids/var/www/hellomantids/assets/js/bootstrap.bundle.js:2941-2949 | preventOverflow, keepTogether and arrow, re-normalised in between: attached by an arrow length, inside on the main axis, inside on the cross axis if and only if the reference reaches far enough into the boundary |
| PopperPipeline.BeforeFlipSettles | hellomantids/var/www/hellomantids/assets/js/bootstrap.bundle.js:2375-2396 | the same for a run of shift and offset modifiers followed by the three, from any position of the measured size |
| PopperPipeline.DefaultPipelineEnds | hellomantids/var/www/hellomantids/assets/js/bootstrap.bundle.js:3112-3131 | however often `flip` restarts, the default pipeline ends where one pass of the modifiers before `flip` takes the popper, from the original data or from beside the reference |
| PopperPipeline.DefaultPipelineSettles | hellomantids/var/www/hellomantids/assets/js/bootstrap.bundle.js:2375-2396 | the whole default pipeline, flips and hide included, when the popper fits: it is settled with respect to the placement the run ends with |
| PopperPipeline.DefaultPipelineAttaches | hellomantids/var/www/hellomantids/assets/js/bootstrap.bundle.js:2941-2949 | fitting or not, whatever the priorities and the fallback list: the popper ends attached by an arrow length if and only if the arrow is short enough, and on the main axis stands where `preventOverflow` puts the arriving popper |
| PopperPipeline.DefaultPipelineOverfull | hellomantids/var/www/hellomantids/assets/js/bootstrap.bundle.js:3382-3405 | with the default priorities a popper that does not fit on the main axis ends flush with the far edge if that edge overflowed on arrival, and with the near edge otherwise |
| PopperSearch.FlipFollowsTrail | hellomantids/var/www/hellomantids/assets/js/bootstrap.bundle.js:3053-3134 | `flip` for every fallback list, `flipVariations` on or off, lists that come back to a side included: from the first entry that is the current side it visits the next entry on a conflict, the next entry of the same side when only the variation changed, and accepts the last visit |
| PopperSearch.FlipFindsFirst | hellomantids/var/www/hellomantids/assets/js/bootstrap.bundle.js:3053-3134 | for lists that, with `flipVariations` on, do not come back to a side: `flip` ends at the first attempt without conflict or at the last; without `flipVariations` the variation stays |
| PopperSearch.FlipNeedsCurrent | hellomantids/var/www/hellomantids/assets/js/bootstrap.bundle.js:3086-3089 | a list without the current side before its last entry changes nothing |
| PopperSearch.WalkingAroundDoesNothing | hellomantids/var/www/hellomantids/assets/js/bootstrap.bundle.js:3032-3038 | so `clockwise` and `counterclockwise` never change anything |
| PopperSearch.FlipFindsFirstPlacement | hellomantids/var/www/hellomantids/assets/js/bootstrap.bundle.js:3053-3134 | without `flipVariations`, and if some modifier before `flip` is enabled, the same with every attempt replaced by the position computed for its placement from scratch |
| PopperSearch.TrailFromScratch | hellomantids/var/www/hellomantids/assets/js/bootstrap.bundle.js:3116-3130 | with `flipVariations` or without, every visit of the general search stands where its own placement alone would put it |
| PopperUpdate.UpdateFindsFirstFree | hellomantids/var/www/hellomantids/assets/js/bootstrap.bundle.js:2405-2439 | without `flipVariations`, a whole update of the default pipeline, with an arrow or not, ends at the first placement of the fallback list whose own final position has no conflict, or at the last, and stands where that placement alone would have put it; with an arrow and enough room it is settled there |
| PopperUpdate.UpdateFollowsTrail | hellomantids/var/www/hellomantids/assets/js/bootstrap.bundle.js:2405-2439 | for every fallback list, with `flipVariations` or without, a whole update makes the visits of a trail, all judged by where their own placement puts the popper, and accepts the last |
| PopperUpdate.UpdateStandsAsPlaced | hellomantids/var/www/hellomantids/assets/js/bootstrap.bundle.js:2405-2439 | for every fallback list, with `flipVariations` or without, an update leaves the popper where the placement it ends with would have put it by itself |
| PopperUpdate.UpdateKeepsFree | hellomantids/var/www/hellomantids/assets/js/bootstrap.bundle.js:2405-2439 | for every fallback list: a placement asked for that has no conflict, and no reason to change its variation, is kept, and the popper stands there |
| PopperUpdate.UpdateTriesOpposite | hellomantids/var/www/hellomantids/assets/js/bootstrap.bundle.js:3072-3118 | the default behaviour: an update ends at the side asked for if the popper has no conflict there, else at the opposite one, and stands as if that had been asked for |
| PopperUpdate.UpdateSearchesSides | hellomantids/var/www/hellomantids/assets/js/bootstrap.bundle.js:3081-3131 | for any list of plain sides that starts with the one asked for: an update ends at the first of them where the popper alone has no conflict, or at the last |
| PopperUpdate.UpdateIgnoresFallbacks | hellomantids/var/www/hellomantids/assets/js/bootstrap.bundle.js:3086-3089 | a list that does not name the side asked for before its last entry leaves the placement alone |
| PopperSearch.FlipsIffConflict | hellomantids/var/www/hellomantids/assets/js/bootstrap.bundle.js:3072-3118 | the default behaviour changes to the opposite side if and only if there is a conflict |
| PopperSearch.AttemptFromScratch | hellomantids/var/www/hellomantids/assets/js/bootstrap.bundle.js:3116-3130 | what a restart computes does not depend on the attempts before it |
| PopperEdges.FreshIffEdgesAgree | hellomantids/var/www/hellomantids/assets/js/bootstrap.bundle.js:3128-3130 | a restart is tested with up-to-date edges if and only if the last enabled modifier before `flip` is `arrow` or `inner` or left the popper where it was, or, with none enabled, the new box ends at the edges stored before |
| PopperEdges.UnmovedIffGuards | hellomantids/var/www/hellomantids/assets/js/bootstrap.bundle.js:2384-2391 | and each modifier leaves it there exactly under its guards |
| PopperEdges.RestartIsFresh | hellomantids/var/www/hellomantids/assets/js/bootstrap.bundle.js:2949 | with an enabled `arrow` last the edges are up to date, whether or not it finds an arrow element |
| PopperEdges.TestIsTrueIff | hellomantids/var/www/hellomantids/assets/js/bootstrap.bundle.js:3099-3106 | a stale edge changes the outcome of the conflict test if and only if the other half of the test finds nothing and the limit lies between the stored edge and the true one |
| PopperEdges.MisledOnlyBy | hellomantids/var/www/hellomantids/assets/js/bootstrap.bundle.js:3099-3106 | the conflict test sees a wrong conflict only after `preventOverflow` or `offset` as the last enabled modifier before `flip`, or with none enabled |
| PopperEdges.StaleEdgeHidesOverlap | hellomantids/var/www/hellomantids/assets/js/bootstrap.bundle.js:3099 | a whole update with `keepTogether` and `arrow` off in which the stale far edge makes `flip` accept a position over the reference |
| PopperEdges.StaleEdgeRejectsFree | hellomantids/var/www/hellomantids/assets/js/bootstrap.bundle.js:3099 | a whole update with all modifiers before `flip` off in which the stale far edge makes it reject a free position |
| PopperPipeline.NeverCrashes | hellomantids/var/www/hellomantids/assets/js/bootstrap.bundle.js:3450-3458 | in a pipeline sorted by order `hide` always finds the boundaries that `preventOverflow` leaves, flips included |
| PopperEngine.RunShift | hellomantids/var/www/hellomantids/assets/js/bootstrap.bundle.js:3417-3441 | the modifier on the mutable data object computes its specification |
| PopperEngine.RunOffset | hellomantids/var/www/hellomantids/assets/js/bootstrap.bundle.js:3305-3337 | the modifier, in place, with the amounts that `ParseOffset` computes |
| PopperEngine.RunPreventOverflow | hellomantids/var/www/hellomantids/assets/js/bootstrap.bundle.js:3346-3408 | the loop over the priorities with its stale far edges computes its specification and leaves a new offsets object |
| PopperEngine.RunKeepTogether | hellomantids/var/www/hellomantids/assets/js/bootstrap.bundle.js:3143-3163 | with `popper` and `data.popper` the same object, the second test sees the first assignment |
| PopperEngine.ExtendKeepTogether | hellomantids/var/www/hellomantids/assets/js/bootstrap.bundle.js:2941-2949 | the same aliasing in the first half of `arrow` |
| PopperEngine.RunArrow | hellomantids/var/www/hellomantids/assets/js/bootstrap.bundle.js:2895-2968 | `arrow` on the data object, including when it is not required or has no element |
| PopperEngine.RunInner | hellomantids/var/www/hellomantids/assets/js/bootstrap.bundle.js:3488-3505 | `inner` mutates the offsets, then replaces them by a normalised copy |
| PopperEngine.RunHide | hellomantids/var/www/hellomantids/assets/js/bootstrap.bundle.js:3450-3479 | `hide` reports whether the reference lies outside the boundaries |
| PopperEngine.RunModifiers | hellomantids/var/www/hellomantids/assets/js/bootstrap.bundle.js:2375-2396 | the driver terminates although `flip` re-enters it, every modifier finds normalised offsets (its precondition), and the result is the specified run |
| PopperEngine.RunFlip | hellomantids/var/www/hellomantids/assets/js/bootstrap.bundle.js:3053-3134 | the loop over the fallback list, with restarts, computes its specification |
| PopperAuto.AutoIsLargest | hellomantids/var/www/hellomantids/assets/js/bootstrap.bundle.js:2182-2231 | an `auto` placement keeps its variation and stands on the side whose room, as far as reference and boundary leave it, is the largest of those that hold the popper, or of all; with equal rooms on the first side |
| PopperEngine.Positioner.Update | hellomantids/var/www/hellomantids/assets/js/bootstrap.bundle.js:2405-2449 | an update of a popper that is not destroyed starts from the placement asked for if it is fixed, else from the side with the most room, or from the top without a boundary; it runs all modifiers from beside the reference, and calls back once |
| OffsetParser.MergeFragments | hellomantids/var/www/hellomantids/assets/js/bootstrap.bundle.js:3263-3278 | the stateful reduce over fragments is the specified fold |
| OffsetParser.SumAxis | hellomantids/var/www/hellomantids/assets/js/bootstrap.bundle.js:3285-3292 | the accumulating loop of one axis computes the specified total |
| OffsetParser.ParseOffset | hellomantids/var/www/hellomantids/assets/js/bootstrap.bundle.js:3229-3294 | the parser with its loops computes the two specified offsets |
| OffsetParser.Divider | hellomantids/var/www/hellomantids/assets/js/bootstrap.bundle.js:3245-3247 | the first fragment with a comma or white space, or none |
| OffsetText.FragmentsOfAxis | hellomantids/var/www/hellomantids/assets/js/bootstrap.bundle.js:3239-3241 | splitting a printed expression on its signs and trimming gives back operators, unary signs and operands, whatever the white space |
| OffsetText.PairAxisFragments | hellomantids/var/www/hellomantids/assets/js/bootstrap.bundle.js:3245-3256 | a printed pair is divided into exactly the fragments of its two expressions |
| OffsetText.MergeAxis | hellomantids/var/www/hellomantids/assets/js/bootstrap.bundle.js:3263-3278 | merging gives every operand its unary sign and leaves the operators |
| OffsetTheorems.ScanOfOperand | hellomantids/var/www/hellomantids/assets/js/bootstrap.bundle.js:3179-3182 | the number pattern reads back sign, digits and unit of a printed operand |
| OffsetTheorems.FractionRoundTrip | hellomantids/var/www/hellomantids/assets/js/bootstrap.bundle.js:3180 | the digits behind the point are worth what the decimal says |
| OffsetTheorems.OperandRoundTrip | hellomantids/var/www/hellomantids/assets/js/bootstrap.bundle.js:3177-3216 | `toValue` turns a printed operand into its signed number of pixels |
| OffsetTheorems.OperandIsNoLiteral | hellomantids/var/www/hellomantids/assets/js/bootstrap.bundle.js:2613-2615 | a printed operand is never mistaken for a hexadecimal, octal or binary literal |
| OffsetTheorems.AxisTotalIsValue | hellomantids/var/www/hellomantids/assets/js/bootstrap.bundle.js:3285-3292 | the total of one axis is the signed sum of its terms |
| OffsetTheorems.SingleOffset | hellomantids/var/www/hellomantids/assets/js/bootstrap.bundle.js:3229-3294 | a printed single expression gives its value and zero, measured along the heights for left and right and along the widths for top and bottom |
| OffsetTheorems.PairOfOffsets | hellomantids/var/www/hellomantids/assets/js/bootstrap.bundle.js:3229-3294 | a printed pair gives the two values: for left and right the first measured along the heights and the second along the widths, the other way round for top and bottom |
| OffsetTheorems.AmountIsRead | hellomantids/var/www/hellomantids/assets/js/bootstrap.bundle.js:3177-3216 | a number with a unit gives that many of what the unit is worth |
| OffsetTheorems.UnitIsWorth | hellomantids/var/www/hellomantids/assets/js/bootstrap.bundle.js:3191-3215 | each unit is worth a pixel or a hundredth of the reference, the popper or the viewport, on the axis of the placement |
| OffsetTheorems.RadixLiteral | hellomantids/var/www/hellomantids/assets/js/bootstrap.bundle.js:2613-2615 | a literal with a radix, which `toValue` leaves as text, counts with the value JavaScript gives it |
| OffsetTheorems.SpaceBeforeSignIsAnOperator | hellomantids/var/www/hellomantids/assets/js/bootstrap.bundle.js:3239-3256 | white space alone before a signed second offset does not divide: every such text is read as one expression |
| OffsetTheorems.JoinedValue | hellomantids/var/www/hellomantids/assets/js/bootstrap.bundle.js:3239-3292 | that one expression is worth the sum of the two |
| OffsetTheorems.SpaceDividesIff | hellomantids/var/www/hellomantids/assets/js/bootstrap.bundle.js:3239-3292 | a pair separated by white space is read as its two values if and only if the second has no unary sign in front or is zero |
| OffsetTheorems.TenMinusFive | hellomantids/var/www/hellomantids/assets/js/bootstrap.bundle.js:3239-3292 | `10 -5` gives five and zero |
| Sanitizer.AllowedAttribute | hellomantids/var/www/hellomantids/assets/js/bootstrap.bundle.js:5247-5269 | the loops decide: a name listed outright by its value if it is a URL attribute, any other by the patterns |
| Sanitizer.CleanElement | hellomantids/var/www/hellomantids/assets/js/bootstrap.bundle.js:5294-5300 | removing attributes one by one leaves exactly the allowed ones in order |
| Sanitizer.StillAttached | hellomantids/var/www/hellomantids/assets/js/bootstrap.bundle.js:5290 | an element about to be visited has its original parent, also inside a removed subtree |
| Sanitizer.VisitElement | hellomantids/var/www/hellomantids/assets/js/bootstrap.bundle.js:5285-5301 | one iteration keeps the state described by the set of visited elements |
| Sanitizer.SanitizeHtml | hellomantids/var/www/hellomantids/assets/js/bootstrap.bundle.js:5271-5310 | the mutating loop over the snapshot leaves a page that shows exactly the recursively filtered tree; every listed element keeps exactly those of its attributes that the whitelist lets survive, in order |
| Sanitizer.ShowsOneTree | hellomantids/var/www/hellomantids/assets/js/bootstrap.bundle.js:5309 | the page determines the tree it shows |
| Sanitizer.CleanIsIdempotent | hellomantids/var/www/hellomantids/assets/js/bootstrap.bundle.js:5271-5310 | sanitizing again changes nothing |
| Sanitizer.CleanIsClean | hellomantids/var/www/hellomantids/assets/js/bootstrap.bundle.js:5271-5310 | every element left is listed and every attribute left is allowed |
| Sanitizer.CleanKeepsTheRest | hellomantids/var/www/hellomantids/assets/js/bootstrap.bundle.js:5271-5310 | in document order the nodes left are the original ones minus exactly the unlisted elements and everything below them |
| Sanitizer.UnsafeUrlIsDropped | hellomantids/var/www/hellomantids/assets/js/bootstrap.bundle.js:5247-5256 | a URL attribute listed by name stays if and only if its value is safe |
| Sanitizer.AllowedIff | hellomantids/var/www/hellomantids/assets/js/bootstrap.bundle.js:5247-5269 | an attribute is allowed if and only if its name is listed outright for all elements or for this one and its value is safe if it is one of the eight URL attributes, or it is not listed outright and a pattern for one of the two matches |
| Sanitizer.AttributesSurvive | hellomantids/var/www/hellomantids/assets/js/bootstrap.bundle.js:5294-5300 | the attributes left on an element are exactly those that this lets survive |
| Sanitizer.ShownNodesAreParsed | hellomantids/var/www/hellomantids/assets/js/bootstrap.bundle.js:5271-5310 | every node of the filtered tree is a parsed one under listed ancestors, with the surviving attributes |
| Sanitizer.ListedPathsAreShown | hellomantids/var/www/hellomantids/assets/js/bootstrap.bundle.js:5271-5310 | every parsed node that is listed with all its ancestors is in the filtered tree, with the surviving attributes |
| Tooltip.Controller.Enter | hellomantids/var/www/hellomantids/assets/js/bootstrap.bundle.js:5794-5825 | `_enter` on the controller's fields |
| Tooltip.Controller.Leave | hellomantids/var/www/hellomantids/assets/js/bootstrap.bundle.js:5827-5857 | `_leave` on the controller's fields |
| Tooltip.Controller.ShowTip | hellomantids/var/www/hellomantids/assets/js/bootstrap.bundle.js:5504-5600 | `show` without animation |
| Tooltip.Controller.Hide | hellomantids/var/www/hellomantids/assets/js/bootstrap.bundle.js:5602-5653 | `hide` without animation |
| Tooltip.Controller.Toggle | hellomantids/var/www/hellomantids/assets/js/bootstrap.bundle.js:5447-5477 | `toggle` by a click |
| Tooltip.Controller.Handle | hellomantids/var/www/hellomantids/assets/js/bootstrap.bundle.js:5447-5857 | every event leads to the specified next state |
| Tooltip.ConsistentUnlessIgnored | hellomantids/var/www/hellomantids/assets/js/bootstrap.bundle.js:5513 | a step keeps the invariant if and only if it does not ask a disabled tooltip to show; one that does leaves the tooltip stuck |
| Tooltip.FaithfulIffNothingIgnored | hellomantids/var/www/hellomantids/assets/js/bootstrap.bundle.js:5447-5857 | over all runs, disabling included: visibility follows the triggers in every state if and only if no step asked a disabled tooltip to show |
| Tooltip.OneTimerOnePopper | hellomantids/var/www/hellomantids/assets/js/bootstrap.bundle.js:5447-5857 | in every run, disabling included, at most one timer and one Popper instance exist, and with no timer pending the tip is visible if and only if a trigger is active and the tooltip is not stuck |
| Tooltip.VisibleIffActive | hellomantids/var/www/hellomantids/assets/js/bootstrap.bundle.js:5447-5857 | a run without disabling is faithful throughout: in every state without pending timer the tip is visible if and only if a trigger is active |
| Tooltip.ActiveIsHeld | hellomantids/var/www/hellomantids/assets/js/bootstrap.bundle.js:5794-5857 | in every run the active triggers are those entered and not left since the last hide by a closing modal: hover by the pointer, focus by the focus, click toggled |
| Tooltip.VisibleIffHeld | hellomantids/var/www/hellomantids/assets/js/bootstrap.bundle.js:5794-5857 | so, without disabling and with no timer pending, the tip is visible if and only if some trigger has been entered and not left |
| Tooltip.ClosingHides | hellomantids/var/www/hellomantids/assets/js/bootstrap.bundle.js:5602-5653 | a closing modal hides the tip and clears the triggers |
| Tooltip.LastLeaveHides | hellomantids/var/www/hellomantids/assets/js/bootstrap.bundle.js:5827-5857 | the last leave hides at once without a delay, with one when the one pending timer fires and not before |
| Tooltip.FirstEnterShows | hellomantids/var/www/hellomantids/assets/js/bootstrap.bundle.js:5794-5825 | the first enter shows at once without a delay, with one when the one pending timer fires and not before |
| Tooltip.EnterKeepsShown | hellomantids/var/www/hellomantids/assets/js/bootstrap.bundle.js:5807-5824 | entering while a hide is under way keeps the tip |
| Tooltip.LeaveGivesUpShow | hellomantids/var/www/hellomantids/assets/js/bootstrap.bundle.js:5840-5856 | leaving before a delayed show gives it up |
| Tooltip.FiringSettles | hellomantids/var/www/hellomantids/assets/js/bootstrap.bundle.js:5820-5856 | firing the pending timer leaves none, the triggers as they are, and the tip visible if and only if one is active |
| Tooltip.StuckUntilLeft | hellomantids/var/www/hellomantids/assets/js/bootstrap.bundle.js:5807-5810 | a stuck tooltip stays stuck until an event leaves no trigger active, which makes it consistent again |
| Tooltip.StuckWhileActive | hellomantids/var/www/hellomantids/assets/js/bootstrap.bundle.js:5807-5810 | no run in which triggers stay active shows anything from there |
| Tooltip.DisabledEnterSticks | hellomantids/var/www/hellomantids/assets/js/bootstrap.bundle.js:5513 | for all delays, a run that leaves an enabled tooltip stuck |
| Carousel.Slider.Cycle | hellomantids/var/www/hellomantids/assets/js/bootstrap.bundle.js:691-704 | `cycle` on the fields |
| Carousel.Slider.Pause | hellomantids/var/www/hellomantids/assets/js/bootstrap.bundle.js:677-689 | `pause` does not end a slide and clears the interval |
| Carousel.Slider.StartSlide | hellomantids/var/www/hellomantids/assets/js/bootstrap.bundle.js:944-1034 | `_slide` on the fields |
| Carousel.Slider.To | hellomantids/var/www/hellomantids/assets/js/bootstrap.bundle.js:706-733 | `to` slides, restarts the interval, or waits for the slid event |
| Carousel.Slider.Complete | hellomantids/var/www/hellomantids/assets/js/bootstrap.bundle.js:1015-1023 | the end of a slide hands the active class over |
| Carousel.Slider.Slid | hellomantids/var/www/hellomantids/assets/js/bootstrap.bundle.js:717-722 | the waiting calls are unbound, then run in order |
| Carousel.Slider.TouchEnded | hellomantids/var/www/hellomantids/assets/js/bootstrap.bundle.js:820-845 | the end of a touch slides, pauses and restarts the touch timeout |
| Carousel.SlideConsistent | hellomantids/var/www/hellomantids/assets/js/bootstrap.bundle.js:944-1034 | a slide from an idle carousel changes nothing, begins one slide to the right item, or moves the active class at once |
| Carousel.SafeInEveryRun | hellomantids/var/www/hellomantids/assets/js/bootstrap.bundle.js:657-1034 | in every run one item is active, `_isSliding` holds exactly while one slide is pending, and the running intervals are the one `_interval` names |
| Carousel.DirectionsAreInverse | hellomantids/var/www/hellomantids/assets/js/bootstrap.bundle.js:898-914 | `prev` leads back from where `next` leads unless an end stops it |
| Carousel.SlidingRequeues | hellomantids/var/www/hellomantids/assets/js/bootstrap.bundle.js:717-722 | while a slide is in progress waiting calls are bound again, all and in order |
| Carousel.WaitingCallsRun | hellomantids/var/www/hellomantids/assets/js/bootstrap.bundle.js:717-722 | when the slid event comes, the first waiting call that is not for the active item slides there and those behind it wait again |
| Carousel.LastCallWins | hellomantids/var/www/hellomantids/assets/js/bootstrap.bundle.js:717-722 | after at most one slide for each waiting call, and the one in progress, the carousel rests at the item of the last call |
| Carousel.IdleCallsSlide | hellomantids/var/www/hellomantids/assets/js/bootstrap.bundle.js:657-675 | an idle carousel goes one item on for `next` and for a tick of its interval on a visible page, and one back for `prev` |
| Carousel.IdleSwipesSlide | hellomantids/var/www/hellomantids/assets/js/bootstrap.bundle.js:755-774 | and one item on for a swipe to the left, one back for a swipe to the right |
| Carousel.NothingElseSlides | hellomantids/var/www/hellomantids/assets/js/bootstrap.bundle.js:657-675 | no such call slides during a slide, on a hidden page, or if the slide event is refused |
| Carousel.PausingStops | hellomantids/var/www/hellomantids/assets/js/bootstrap.bundle.js:677-704 | a pause by call lasts, one by the pointer ends when it leaves, and a cycle starts the interval |
| Carousel.RestsUntilCycled | hellomantids/var/www/hellomantids/assets/js/bootstrap.bundle.js:691-704 | a carousel paused by call stays without interval through every event but a cycle, a touch timeout, a slid event, or `to` with the active item |
| Carousel.SlidingGoesOnCycling | hellomantids/var/www/hellomantids/assets/js/bootstrap.bundle.js:968-1033 | a slide of a cycling carousel leaves it cycling with a new timer, that of any other starts no interval |
| Carousel.TouchPausesUntilTimeout | hellomantids/var/www/hellomantids/assets/js/bootstrap.bundle.js:828-844 | the end of a touch pauses until its one timeout starts the interval again |
| Carousel.SlidesSetTheirInterval | hellomantids/var/www/hellomantids/assets/js/bootstrap.bundle.js:1005-1013 | in every run with an interval configured, a slide sets the interval of the item it goes to, or the configured one if that has none of its own |
| Carousel.IntervalComesBackIff | hellomantids/var/www/hellomantids/assets/js/bootstrap.bundle.js:1005-1013 | after an item with its own interval the configured one comes back if and only if there is one |
| TransitionEnd.Element.Start | hellomantids/var/www/hellomantids/assets/js/bootstrap.bundle.js:104-117 | registering a completion with its emulation binds two handlers and sets one timer |
| TransitionEnd.Element.RunHandler | hellomantids/var/www/hellomantids/assets/js/bootstrap.bundle.js:90-101 | a one-shot handler is unbound and run |
| TransitionEnd.Element.TimeOut | hellomantids/var/www/hellomantids/assets/js/bootstrap.bundle.js:110-114 | the emulation timer triggers the event only if the flag is not set |
| TransitionEnd.RunNextConsistent | hellomantids/var/www/hellomantids/assets/js/bootstrap.bundle.js:104-117 | handlers run in the order of binding, each once |
| TransitionEnd.ExactlyOnce | hellomantids/var/www/hellomantids/assets/js/bootstrap.bundle.js:90-122 | over all runs each completion runs once, in order, no later than its own timer |
| TransitionEnd.NativeEndCompletes | hellomantids/var/www/hellomantids/assets/js/bootstrap.bundle.js:90-101 | in every run, the end of a transition on the element completes everything registered by then; one on a descendant completes nothing |
| TransitionEnd.TimerCompletesUnlessCalled | hellomantids/var/www/hellomantids/assets/js/bootstrap.bundle.js:110-114 | in every run, a timer whose transition has ended does nothing, any other completes everything registered by then |
| Listeners.ScrollParent | hellomantids/var/www/hellomantids/assets/js/bootstrap.bundle.js:1629-1655 | the climb terminates on every finite tree, at a scrolling element or a body |
| Listeners.ClimbRecordsScrollingAncestors | hellomantids/var/www/hellomantids/assets/js/bootstrap.bundle.js:2526-2535 | recorded are the window and then exactly the scrolling ancestors, outermost first |
| Listeners.ScrollTargetsDistinct | hellomantids/var/www/hellomantids/assets/js/bootstrap.bundle.js:2526-2535 | nothing is recorded twice |
| Listeners.EnablingInstalls | hellomantids/var/www/hellomantids/assets/js/bootstrap.bundle.js:2526-2555 | enabling installs resize on the window of the reference, and scroll on the window at which the climb ends and on every scrolling element that is the reference or an ancestor of it below that point, and nothing else |
| Listeners.ClimbEndsInDocument | hellomantids/var/www/hellomantids/assets/js/bootstrap.bundle.js:1629-1655 | that window is the reference's own if it is attached to its document, else the script's |
| Listeners.CallsAreIdempotent | hellomantids/var/www/hellomantids/assets/js/bootstrap.bundle.js:2563-2590 | enabling twice is enabling once, disabling twice is disabling once |
| Listeners.Popper.EnableEventListeners | hellomantids/var/www/hellomantids/assets/js/bootstrap.bundle.js:2543-2567 | enabling installs and records the listeners unless enabled already |
| Listeners.Popper.DisableEventListeners | hellomantids/var/www/hellomantids/assets/js/bootstrap.bundle.js:2575-2604 | disabling removes the recorded listeners one by one and resets the state |
| Listeners.Popper.Destroy | hellomantids/var/www/hellomantids/assets/js/bootstrap.bundle.js:2491-2507 | destroying disables the listeners |
| Listeners.ListenersAreRecorded | hellomantids/var/www/hellomantids/assets/js/bootstrap.bundle.js:2526-2604 | over all calls with changes of the tree in between, the installed listeners are exactly the recorded ones and none are left when disabled, while the reference stays in one document |
| Listeners.DisableRemovesAllIffSameWindow | hellomantids/var/www/hellomantids/assets/js/bootstrap.bundle.js:2575-2577 | disabling leaves no listener if and only if the reference is still in the same document, and the resize listener on the old window otherwise |
| Listeners.ListenerIsLeftBehind | hellomantids/var/www/hellomantids/assets/js/bootstrap.bundle.js:2575-2604 | a run of enabling, moving the reference and disabling that leaves a listener |
| Listeners.DisableUndoesEnable | hellomantids/var/www/hellomantids/assets/js/bootstrap.bundle.js:2543-2590 | enabling and disabling is the identity |
| ScrollSpy.Spy.Refresh | hellomantids/var/www/hellomantids/assets/js/bootstrap.bundle.js:6296-6333 | the lists become the measured targets, each as often as it was measured, sorted by offset |
| ScrollSpy.Spy.Process | hellomantids/var/www/hellomantids/assets/js/bootstrap.bundle.js:6379-6417 | the loop leaves the expected target active; it triggers one event for it if it is new, and no other |
| ScrollSpy.ActiveIsLastPassed | hellomantids/var/www/hellomantids/assets/js/bootstrap.bundle.js:6390-6416 | the active target has the greatest offset passed, or the greatest at the bottom, duplicates included |
| ScrollSpy.NothingPassed | hellomantids/var/www/hellomantids/assets/js/bootstrap.bundle.js:6400-6406 | above a positive first offset nothing is active, above any other what was active stays |
| ScrollSpy.NoTargets | hellomantids/var/www/hellomantids/assets/js/bootstrap.bundle.js:6390-6416 | without targets the active one stays, or at the bottom becomes the last of an empty list |
| ScrollSpy.ProcessIsStable | hellomantids/var/www/hellomantids/assets/js/bootstrap.bundle.js:6379-6417 | a second `_process` at the same position activates nothing |
| ScrollSpy.ScrollingDownMovesOn | hellomantids/var/www/hellomantids/assets/js/bootstrap.bundle.js:6408-6416 | scrolling down never makes a smaller offset the active one |
| ScrollSpy.OrderOfEqualsIsIrrelevant | hellomantids/var/www/hellomantids/assets/js/bootstrap.bundle.js:6326-6328 | how the sort orders equal offsets does not change which offset is active |
| Board.RemovedNeverReturns | hellomantids/src/db/db_messagescontrol.cpp:44-63 | an issued id whose removal succeeded appears in no later listing |
| Board.UnissuedIdAppearsLater | hellomantids/src/db/db_messagescontrol.cpp:52-63 | deleting an id not yet issued succeeds too, and a later listing can show it |
| Board.RemovalIsFinalIffIssued | hellomantids/src/db/db_messagescontrol.cpp:44-63 | a successful removal is final in every continuation if and only if the id had been issued |
| Board.ListingsAreDistinct | hellomantids/src/db/db.cpp:72-78 | no listing shows two rows with the same id |
| Board.DeleteLeavesOthers | hellomantids/src/db/db_messagescontrol.cpp:52-63 | a delete leaves exactly the rows with another id, in order |
| BoardServer.EndpointsAreSeparate | hellomantids/src/webserverimpl.cpp:28-73 | whatever method name a request carries, only the control endpoint reaches the writing operations |
| BoardServer.RequestsAreRouted | hellomantids/src/webserverimpl.cpp:28-73 | the four method names of the two endpoints reach their operations with the payload and the user of the request, and all others reach none |
| BoardServer.AnswersMatchRequests | hellomantids/src/db/db_messagescontrol.cpp:19-63 | what a finished call of any run has done to the table, by the name it was called with: a removal that answers true leaves exactly the other rows, a creation that answers true appends its message, a listing answers rows from the beginning, and all else leaves the table alone |
| BoardServer.StepConsistent | hellomantids/src/db/db_messagescontrol.cpp:25-63 | every step of every client keeps the lock discipline and the history legal |
| BoardServer.HistoryIsSequential | hellomantids/src/db/db_messagescontrol.cpp:25-63 | after any interleaving the history is one of the sequential board and leaves the stored table; calls and entries correspond one to one, each answer being the outcome of an entry of its own made during the call |
| BoardServer.ListingIsSnapshot | hellomantids/src/db/db_webdisplay.cpp:28-43 | a listing collected row by row is the whole table at one moment of the call, or the beginning of it if the query or a fetch failed |
| BoardServer.FailureShortensIff | hellomantids/src/db/db_webdisplay.cpp:33-34 | a failure shortens the listing if and only if a row was left to fetch |
| BoardServer.FailureIsSilent | hellomantids/src/db/db_webdisplay.cpp:33-43 | whatever the table holds, a listing whose first fetch fails answers like one of an empty table |
| BoardServer.StoredRowIsNotListed | hellomantids/src/db/db_webdisplay.cpp:33-43 | a run from the start in which a row is stored and the listing after it shows none |
| BoardServer.RealTimeOrder | hellomantids/src/db/db_webdisplay.cpp:28-43 | a call that began after another was answered comes later in the history |
| BoardServer.StatsRunsWriteNothing | hellomantids/src/webserverimpl.cpp:65-73 | runs of `remote.stats` requests leave the table unchanged |
| Database.DB.CreateMessage | hellomantids/src/db/db_messagescontrol.cpp:19-42 | an insert that succeeds appends the row, one that fails changes no row |
| Database.DB.RemoveMessage | hellomantids/src/db/db_messagescontrol.cpp:44-63 | a delete removes the rows of that id, one that fails changes nothing |
| Database.DB.GetMessages | hellomantids/src/db/db_webdisplay.cpp:19-44 | the cursor loop collects the rows in order, a listing with rows is an array, and without rows the answer stays null |
| Database.DB.RunLocalRPCMethod | hellomantids/src/db/db.cpp:84-113 | by method name: what it answers and which rows it leaves, as one step of the sequential board; an unknown one changes nothing, and the error reports success even then |
| Database.DB.RmtCaller | hellomantids/src/webserverimpl.cpp:28-63 | by endpoint and method name: a creation appends its row, a removal leaves the rows with another id, a failure of either leaves all, `stats.getMessages` answers the rows, `stats.getAdd1` the successor; without the caller's prefix nothing is dispatched |

## Left out

- Startup, configuration, TLS, logging, sessions and remote targets of a request: input, output and calls into libMantids.
- MariaDB and the lock: insert, delete and select with their SQL meaning, automatic ids that are never reissued, and a correct readers-writer lock are assumed. Sizes of columns and of the id are covered by inserts that may fail at any time.
- DOM measurement, `computeStyle`, `applyStyle` and the special cases for Internet Explorer: their results are parameters. `getBoundaries` is taken to give the same boundary throughout one update.
- PopperEngine.Positioner.Update: debouncing, and what the callbacks do.
- PopperSearch.FlipFindsFirst: with `flipVariations` on, for lists that do not come back to a side; `PopperSearch.FlipFollowsTrail` has no such limit.
- PopperSearch.FlipFindsFirstPlacement: with `flipVariations` off, and with some modifier before `flip` enabled, as otherwise the stored edges of one attempt reach the next; `PopperSearch.TrailFromScratch` covers `flipVariations`.
- PopperUpdate.UpdateFindsFirstFree: with `flipVariations` off, which `PopperUpdate.UpdateFollowsTrail` covers; the order of the default pipeline, with any of shift and offset in front.
- PopperEdges.UnmovedIffGuards: for boxes without negative lengths.
- PopperTheorems.ArrowPointsAtReference: for zero margin and border, as the arrow's offset is relative to the padding box and the source does not know the rest.
- OffsetParser.ParseOffset: an option that JavaScript reads as one number never reaches the parser; which texts those are is not modelled. Numbers have no greatest value.
- Modifiers added by users, and `offset` as a function.
- The HTML parser and serialiser: `SanitizeHtml` starts from the parsed page and ends with the page to serialise. `template` contents and the two URL patterns are a parameter or absent.
- Sanitizer.Document: nodes are entries of maps by identity instead of objects; removal in place and the parent links are modelled, other DOM mutation is not.
- Tooltips with animation, tooltips shown or hidden by direct calls other than a closing modal, and delegation by selector.
- Tooltip.OneTimerOnePopper: for a tooltip that always has content.
- `Carousel.dispose` and handlers that call the carousel again from inside its own events. That the pending completion of a slide runs once is `TransitionEnd.ExactlyOnce`.
- Carousel.Slider.To: an index given as text is a decimal number; the rest of the data attributes is left out.
- Carousel.SlidesSetTheirInterval: with an interval configured, as without one that of an item stays; `Carousel.IntervalComesBackIff` has both cases.
- Listeners.ClimbEndsInDocument: if every parent is in the document of its child.
- Carousel.LastCallWins: if no other event intervenes and no handler refuses a slide.
- TransitionEnd.Element: a completion that itself triggers the end of a transition synchronously.
- Modal, Alert, Button, Collapse, Dropdown, Tab, Toast and Popover content.
- ScrollSpy's marking of links and their parents as active.
