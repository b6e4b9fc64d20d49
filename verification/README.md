# Flyer evidence pipeline: a Dafny model

The repository collects weekly grocery flyers and turns them into evidence that a later step may rely on. Most of its
tools are guards; this project models those whose answer depends on a matching, a partition, a calendar, a stream, a
file system or a chain of runs, and proves what their answers mean.

- **Parity.** `parity_model.dfy` is the specification of one offer-to-card run (scores, decision, reverse index,
  blockers), `parity_run.dfy` the run as loops over dictionaries, `parity_matching.dfy`, `parity_accounting.dfy`,
  `parity_order.dfy` and `parity_pages.dfy` what a report guarantees. `parity_rules.dfy`, `parity_decisions.dfy` and
  `parity_reports.dfy` say which card fits which offer, what becomes of an offer and what a report lists, on token sets,
  prices, pages and keys. `card_ledger.dfy` is the ledger a run starts from, `exact_ledgers.dfy` what it accepts.
- **Gate C.** `gate_c.dfy` is the separately written re-check of a parity bundle, `gate_c_agreement.dfy` compares it with
  the producer, `exact_bundles.dfy` describes the accepted bundles, `orphan_rows.dfy` says which reverse rows either
  validator misses, `page_relabelling.dfy`, `relabelling_conserves.dfy` and `accepted_plan.dfy` carry accepted cards over
  to new pages, `preflight_chain.dfy` repeats the preflight on its own answers.
- **Rollover.** `rollover.dfy`, `rollover_matching.dfy` and `rollover_order.dfy` classify old and new pages by content,
  `acquisition.dfy` reads pages up to a terminal boundary, `image_metrics.dfy` and `image_pairs.dfy` compare decoded pages.
- **Weekly baseline.** `iso_calendar.dfy`, `week_selection.dfy` and `week_choice.dfy` choose the week,
  `shadow_producer.dfy`, `producer_acceptance.dfy` and `producer_meaning.dfy` bind offers to visible cards,
  `page_card_rows.dfy`, `page_card_gate.dfy`, `page_card_inverse.dfy`, `page_card_stability.dfy` and
  `page_card_meaning.dfy` check the two-way ledger, `gate_results.dfy` and `replay_gate.dfy` accept repeated runs,
  `weekly_cycles.dfy` and `weekly_meaning.dfy` chain weeks, `campaign_chains.dfy` says which campaigns a chain may carry,
  `publishing.dfy` writes the outputs.
- **Diagnostics and recovery.** `card_families.dfy` and `family_meaning.dfy` are the card bridge diagnostic,
  `recovery_inventory.dfy`, `recovery_sources.dfy`, `recovery_decision.dfy` and `recovery_meaning.dfy` go from page files
  to the recovery decision, `backup_discovery.dfy`, `discovery_report.dfy` and `discovery_meaning.dfy` to the decision
  over several backups.
- **EDEKA accounting.** `edeka_manifest.dfy`, `edeka_join.dfy`, `edeka_accounting.dfy`, `edeka_conservation.dfy`,
  `edeka_meaning.dfy`.
- **Shared.** `foundations.dfy`, `sorting.dfy`, `formats.dfy`, `regions.dfy`, `page_numbers.dfy`, `zero_padding.dfy`.

Conventions. SHA-256 over a canonical encoding is a datatype constructor, hence injective and otherwise unknown. Numbers
rounded to six decimals are integers in millionths, rounded half to even; ratios are exact. Dates are day ordinals, and
the ISO 8601:2004 week (sections 2.2.10 and 4.1.4) is defined from them. Loops over lists are methods proved against
functions or predicates; the publishing tool's file system is a class whose steps may each fail.

The files of what is accepted and written (`parity_rules.dfy`, `parity_decisions.dfy`, `parity_reports.dfy`, the three
named `exact_*` or `accepted_*`, and those named `*_meaning.dfy`) state every condition and every written field on the
values themselves, without the checks and helpers of the model, and prove that the model agrees.

Hypotheses. Card ordinals are at least 1 where the ledger meets Gate C (`c000` passes the ledger and is refused by
Gate C, which `PassAcceptedIffOrdinals` turns into the exact condition). At least one terminal failure is required of an
acquisition. The families of the bridge diagnostic use only offers of the selection; they need not be distinct.

Where the code and a natural reading of it differ:

- From any bundle the core Gate C validator accepts, any reverse row may be taken away without its noticing
  (`DroppedRowPassesCore`); the wrapper takes the shortened bundle exactly when the row listed no offer and the card
  counters were adjusted (`DroppedRowIffUnlisted`). `CoreMissesOrphanCards` is an input at the counts the gate requires.
- A prior result is compared with Python's `==`, for which 1 equals True. The `is` tests on some flags are therefore not
  implied by the comparison of the whole; `PriorAcceptedIff` gives the exact condition and `GatesDifferOnNumbers` the
  inputs on which the two gates part.
- The replay gate's decision, READY or NO_OP, is part of the two-cycle identity, so the two answers of one gate lead to
  different fingerprints in the other; they agree exactly when decision and replay identity do (`FingerprintIff`).
- The core preflight gate refuses its own NO_OP answer; only the wrapper makes the chain stable (`CoreChainStops`,
  `WrapperChainIsStable`). The archive digest is not among the digests a prior is held to (`NoOpIffSameInputs`).
- The excluded count checked after EDEKA validation is implied only when the base list has no excluded candidate
  (`PostChecksIff`); for a base list made by the join it always is (`EndToEnd`).
- Only neighbouring weeks are compared, so a campaign may return after one week. Any week of an accepted chain may be
  given any well-formed campaign and artifact that its neighbours do not have, and no other (`CampaignFits`); chains are
  free of repeated campaigns up to length two and not beyond (`RepeatFreeIffShort`). `CampaignsMayRepeat` is an input.
- The join of EDEKA offers does not look at date, digest and parser formats; its list is accepted later exactly when
  they are right (`JoinedManifestOk`, `EndToEnd`).

## Model

| member | source | states |
|---|---|---|
| ParityRun.CollectCandidates | tools/aldi_a31_offer_page_parity.py:306-379 | a run aborts exactly when some target row names no known page, has no offer ID or an invalid price, and the error is that of such a row; otherwise every target row is viewed in input order |
| ParityRun.IndexExplicit | tools/aldi_a31_offer_page_parity.py:383-387 | the explicit dictionary gives for every offer key the last card claiming it |
| ParityRun.DecideOne | tools/aldi_a31_offer_page_parity.py:402-482 | one candidate is decided as the specification says, and a match names a card |
| ParityRun.MapCandidates | tools/aldi_a31_offer_page_parity.py:400-482 | mappings, reverse index and blockers grown in one loop are those of the specification |
| ParityRun.CoverCards | tools/aldi_a31_offer_page_parity.py:484-516 | each card's reverse row and each unexplained-card blocker follow from the finished mappings |
| ParityRun.RunParity | tools/aldi_a31_offer_page_parity.py:368-566 | the run aborts exactly on such a row and otherwise, with its dictionaries, lists and in-place sorts, yields exactly the report whose mappings, reverse rows, blockers and numbers the rows of ParityRules, ParityDecisions and ParityReports describe |
| ParityRun.MappingsSorted | tools/aldi_a31_offer_page_parity.py:379-526 | mapping rows come out in key order, so the final sort moves nothing |
| ParityMatching.ScoreBounds | tools/aldi_a31_offer_page_parity.py:343-365 | an eligible score lies in 80..125 points, at most 105 without equal price, at least 120 with full recall and equal price |
| ParityMatching.MatchedIffLeads | tools/aldi_a31_offer_page_parity.py:431-455 | without an explicit claim an offer is matched to a card iff that card is scored and leads every other scored card by 10 points; which cards are scored and with how many points is ParityRules.ScoredIffFits and ScoreIsPoints |
| ParityMatching.FullRecallPriceMatchWins | tools/aldi_a31_offer_page_parity.py:343-455 | a card with full recall and equal price wins against any cards of other prices |
| ParityMatching.OtherPricesNeverInterfere | tools/aldi_a31_offer_page_parity.py:343-455 | adding cards of other prices never takes such a card's match away, makes it ambiguous or creates another match |
| ParityRules.ScoredIffFits | tools/aldi_a31_offer_page_parity.py:343-365 | a card is scored for an offer iff it is on the offer's page, in scope, shares a title token, and either has the offer's price and at least 60% of the title tokens, or has at least 85% of them and, if the offer has brand tokens, one of those |
| ParityRules.ScoreIsPoints | tools/aldi_a31_offer_page_parity.py:343-365 | the score of such a card is 100 for the share of title tokens, 20 for an equal price and 5 for the share of brand tokens, rounded to six decimals with its parts |
| ParityDecisions.UnlistedOffer | tools/aldi_a31_offer_page_parity.py:400-482 | an offer no card lists is matched to the fitting card that is ahead of all other fitting cards by 10 points, so to the only one if there is one, and has no match iff none fits; unmatched offers wait for review only with a review status and a reason |
| ParityDecisions.ListedOffer | tools/aldi_a31_offer_page_parity.py:402-430 | an offer listed by one card is matched to it without a score, or blocked if that card is out of scope |
| ParityDecisions.NamedCards | tools/aldi_a31_offer_page_parity.py:431-482 | an unlisted offer names the first five fitting cards by points, then ID, and the score of the first |
| ParityDecisions.ReportMappings | tools/aldi_a31_offer_page_parity.py:368-526 | the mappings are the decisions on the offers to be reviewed or published, one each, in key order |
| ParityReports.RawRow | tools/aldi_a31_offer_page_parity.py:306-379 | which raw rows end a run with which error, and as what the others are read |
| ParityReports.ReportReverse | tools/aldi_a31_offer_page_parity.py:484-545 | every card has one reverse row, in order of ID, that lists in order the keys of the offers matched to it and says if it is unexplained |
| ParityReports.ReportBlockerMembers | tools/aldi_a31_offer_page_parity.py:389-516 | the blockers are drifted counts, each blocked offer with its reason and each unexplained card, and nothing else |
| ParityReports.BlockersInOrder | tools/aldi_a31_offer_page_parity.py:517-526 | blockers are listed by kind and then by what they name |
| ParityReports.SummaryCounts | tools/aldi_a31_offer_page_parity.py:527-566 | every number of the summary is the size of the list it names, both digests are those of the lists, and the run passes iff there is no blocker |
| ParityAccounting.EveryCandidateMapped | tools/aldi_a31_offer_page_parity.py:400-545 | each target row has exactly one mapping; matched, review-unmatched and blocked add up to the candidates |
| ParityAccounting.BlockersCounted | tools/aldi_a31_offer_page_parity.py:389-551 | blockers are the blocked candidates, the unexplained cards and one for drifted counts; pass holds iff all are absent |
| ParityAccounting.BlockersSoundAndComplete | tools/aldi_a31_offer_page_parity.py:389-516 | every blocker has its cause in the report and every cause has its blocker |
| ParityOrder.ParityDeterministic | tools/aldi_a31_offer_page_parity.py:374-526 | with unique keys, permuting rows and cards changes nothing in the report |
| ParityPages.PagesAreIndependent | tools/aldi_a31_offer_page_parity.py:334-526 | without expected counts a run over both pages is the merge of the runs over each page |
| CardLedger.LedgerPagesAreIndependent | tools/aldi_a31_offer_page_parity.py:222-526 | on an accepted ledger the same holds, as its card IDs name their pages |
| CardLedger.CardIdRoundTrip | tools/aldi_a31_offer_page_parity.py:25-25 | card IDs and triples of page, page number and ordinal are in bijection |
| CardLedger.PrefixNamesPage | tools/aldi_a31_offer_page_parity.py:222-303 | the prefix test on a card ID holds iff the ID names that page and number |
| CardLedger.ValidateLedger | tools/aldi_a31_offer_page_parity.py:222-303 | accepts exactly the ledgers with the right schema and page set whose rows are well formed (page, prefix, scope, title, region, price), with unique IDs and disjoint claims, and returns the cards sorted |
| CardLedger.ValidateRows | tools/aldi_a31_offer_page_parity.py:238-303 | the loop with its two sets refuses exactly the lists with a bad row, a repeated ID or an offer claimed twice |
| ExactLedgers.LedgerIffGood | tools/aldi_a31_offer_page_parity.py:222-303 | the ledger accepts exactly the rows whose ID spells their page, number and ordinal, with a title if in scope, a positive price or none, a rectangle on the page, no repeated ID and no offer listed twice |
| ExactLedgers.CardReadsRow | tools/aldi_a31_offer_page_parity.py:222-303 | the card read from an accepted row has that row's page, tokens, price, scope, reason and offers |
| CardLedger.LedgerCardsValid | tools/aldi_a31_offer_page_parity.py:222-303 | an accepted ledger has unique IDs naming their own pages and no offer claimed twice |
| CardLedger.ClaimIsUnambiguous | tools/aldi_a31_offer_page_parity.py:384-430 | on a valid ledger the card that lists an offer is the card the run uses for it |
| GateC.ValidateCore | tools/aldi_weekly_gate_c_shadow_replay_preflight_core.py:408-558 | accepts exactly the bundles with the fixed values, the relational checks of the report and the file digest of their own content |
| GateC.ValidateBundle | tools/aldi_weekly_gate_c_shadow_replay_preflight.py:131-190 | accepts exactly those that also cover every mapped card and have the summary counters of their rows |
| ExactBundles.AcceptedIffExact | tools/aldi_weekly_gate_c_shadow_replay_preflight.py:131-190 | the wrapper accepts exactly the reports without blockers whose mappings and reverse rows have well-formed IDs and list each other exactly, with the expected counts and a summary of the true numbers and digests |
| GateCAgreement.PassAcceptedIffOrdinals | tools/aldi_weekly_gate_c_shadow_replay_preflight_core.py:389-558 | a passing report on a valid ledger is accepted by the wrapper iff every card ordinal is at least 1 |
| GateCAgreement.AcceptedIsInverse | tools/aldi_weekly_gate_c_shadow_replay_preflight.py:139-190 | in an accepted bundle reverse rows are the exact inverse of the matched mappings and their lengths add up to the matched count |
| GateCAgreement.CoreCounts | tools/aldi_weekly_gate_c_shadow_replay_preflight_core.py:474-558 | after the core checks alone the listed keys number the matched mappings iff every mapped card has a reverse row |
| OrphanRows.DroppedRowPassesCore | tools/aldi_weekly_gate_c_shadow_replay_preflight_core.py:408-558 | from every bundle the core accepts, any reverse row may be removed and the rest re-hashed, whatever the card counters |
| OrphanRows.DroppedRowIffUnlisted | tools/aldi_weekly_gate_c_shadow_replay_preflight.py:139-190 | the wrapper accepts the shortened bundle iff the removed row listed no offer and both card counters were brought down with it |
| OrphanRows.CoreMissesOrphanCards | tools/aldi_weekly_gate_c_shadow_replay_preflight_core.py:432-558 | an accepted bundle at 346 automatic and 54 reviewed candidates whose only reverse row can go: the core still accepts, the wrapper refuses |
| PageRelabelling.CollectBindings | tools/aldi_weekly_gate_c_shadow_replay_preflight_core.py:507-566 | the collecting loop gives each preview page its reverse rows, as AcceptedPlan.BindingsRead describes them |
| AcceptedPlan.BindingsRead | tools/aldi_weekly_gate_c_shadow_replay_preflight_core.py:507-566 | a preview page's bindings are one entry for each of its reverse rows, with exactly its offer keys sorted, its scope and its reason, in order of card ID |
| PageRelabelling.RelabelKeepsOrdinal | tools/aldi_weekly_gate_c_shadow_replay_preflight_core.py:692-699 | a new card ID names the new page with the old ordinal and is valid again |
| PageRelabelling.BuildPageWorkPackage | tools/aldi_weekly_gate_c_shadow_replay_preflight_core.py:664-736 | fails exactly on a page that is neither carried nor page 3 nor page 41, otherwise returns the whole package: page rows with digests, methods and card counts, carried cards in order, fresh candidates and the completeness flag |
| RelabellingConserves.RelabellingIsExact | tools/aldi_weekly_gate_c_shadow_replay_preflight_core.py:670-728 | exactly the preview cards of carried pages appear, under unique new IDs, and each once when the carry map is injective |
| RelabellingConserves.RelabelInjective | tools/aldi_weekly_gate_c_shadow_replay_preflight_core.py:692-699 | two cards of one old page never get the same new ID |
| RelabellingConserves.OfferKeyCarriedOnce | tools/aldi_weekly_gate_c_shadow_replay_preflight_core.py:474-728 | with an accepted bundle and an injective carry map no offer key is carried by two cards |
| AcceptedPlan.EveryCardMoves | tools/aldi_weekly_gate_c_shadow_replay_preflight_core.py:227-728 | with an accepted plan every preview reverse row, save those of the dropped pages 37 and 41, is carried by exactly one entry, under its ordinal on the new page, with exactly its offer keys sorted, its scope and its reason |
| AcceptedPlan.OnlyCardsMove | tools/aldi_weekly_gate_c_shadow_replay_preflight_core.py:227-728 | every carried entry comes from such a row |
| AcceptedPlan.MatchedOfferMovesOnce | tools/aldi_weekly_gate_c_shadow_replay_preflight_core.py:474-728 | with an accepted bundle, the offer of every mapping matched to a preview card of a kept page is carried by exactly one entry |
| AcceptedPlan.PackageOfPlan | tools/aldi_weekly_gate_c_shadow_replay_preflight_core.py:545-736 | the work package of an accepted plan has one row for each of the 41 pages with its digest, its old page or its way of capture, and its number of cards, and is complete iff both evidences are there |
| AcceptedPlan.CarriedInOrder | tools/aldi_weekly_gate_c_shadow_replay_preflight_core.py:728-728 | carried entries are in order of new page, then new card ID |
| PreflightChain.WrapperChainIsStable | tools/aldi_weekly_gate_c_shadow_replay_preflight.py:193-226 | over fixed complete inputs the wrapped gate is READY once, then NO_OP for ever with the same identity |
| PreflightChain.CoreChainStops | tools/aldi_weekly_gate_c_shadow_replay_preflight_core.py:739-888 | the core alone answers READY, NO_OP and is then blocked for good |
| PreflightChain.NoOpIffSameInputs | tools/aldi_weekly_gate_c_shadow_replay_preflight_core.py:771-888 | an accepted prior leads to NO_OP iff its whole work package and its digests, the archive's apart, are those of the current inputs; otherwise it blocks |
| PreflightChain.WaitingNeverConcludes | tools/aldi_weekly_gate_c_shadow_replay_preflight_core.py:801-888 | with an input missing no prior leads past waiting, and a waiting answer is never an acceptable prior |
| PreflightChain.AcceptsIff | tools/aldi_weekly_gate_c_shadow_replay_preflight.py:193-226 | which results either validator takes as a prior: fixed digests and inputs present, the work digest that of the work, the replay digest that of its seven parts, and for the wrapper READY or NO_OP with the next step that goes with it |
| PreflightChain.FreshRead | tools/aldi_weekly_gate_c_shadow_replay_preflight_core.py:801-888 | the first result names exactly the missing inputs, carries the digests of the others and of its work, and is READY iff nothing is missing |
| PreflightChain.NoOpPriorIsOwnResult | tools/aldi_weekly_gate_c_shadow_replay_preflight.py:193-226 | with the wrapper a prior leads to NO_OP iff it is the first or the repeated result of the same inputs in every field but the archive digest |
| Rollover.IndexPages | tools/aldi_a30_rollover_review.py:87-92 | the index lists for every digest its page numbers in ascending order |
| Rollover.SplitCommon | tools/aldi_a30_rollover_review.py:111-119 | removing shared positions one by one leaves both lists without exactly those positions |
| Rollover.ClassifyRollover | tools/aldi_a30_rollover_review.py:83-140 | the loop over digests computes the specified classification |
| RolloverMatching.ClassificationPartitions | tools/aldi_a30_rollover_review.py:94-140 | old pages and new pages are each partitioned into same position, moved and only |
| RolloverMatching.MatchesAreExact | tools/aldi_a30_rollover_review.py:111-128 | same-position pairs are exactly the indices with equal digests; moved pairs have equal digests and different positions |
| RolloverMatching.MatchedIsIntersection | tools/aldi_a30_rollover_review.py:121-122 | the matched count is the size of the multiset intersection of the two contents |
| RolloverMatching.MatchingIsMaximum | tools/aldi_a30_rollover_review.py:121-140 | no content-preserving partial injection between the flyers is larger |
| RolloverMatching.ManualReviewIffContentsDiffer | tools/aldi_a30_rollover_review.py:311-311 | manual review is required iff the two page multisets differ |
| RolloverMatching.SwapSymmetry | tools/aldi_a30_rollover_review.py:83-140 | exchanging old and new exchanges the only lists and inverts the moved pairs |
| RolloverOrder.CopiesPairInOrder | tools/aldi_a30_rollover_review.py:111-131 | copies of one page are paired first with first; those left over come after all paired ones |
| RolloverOrder.ListsInOrder | tools/aldi_a30_rollover_review.py:132-140 | all four lists are in page order |
| RolloverOrder.DuplicateGroups | tools/aldi_a30_rollover_review.py:94-131 | the duplicate groups are exactly the digests with several pages on a side, once each and in order, with all their pages |
| Acquisition.AcquireSource | tools/aldi_a30_authoritative_cycle.py:94-132 | succeeds iff pages 1..n are live and the next failures are enough, for an n in range; stores 1..n with n plus that many requests; the gap check never fires |
| Acquisition.PageCountIsUnique | tools/aldi_a30_authoritative_cycle.py:103-116 | at most one page count can complete a source |
| Acquisition.ResumedIsIncomplete | tools/aldi_a30_authoritative_cycle.py:106-107 | a page answering after too few failures excludes every way of completing |
| ImageMetrics.MaeAtMostRms | tools/aldi_a30_rollover_review.py:186-200 | the mean absolute error is at most the root mean square error |
| ImageMetrics.RmsSquaredAtMost | tools/aldi_a30_rollover_review.py:186-200 | for gray values the squared root mean square error is at most 255 times the mean absolute error |
| ImageMetrics.P99IsNearestRank | tools/aldi_a30_rollover_review.py:186-202 | the chosen element is the nearest-rank 99th percentile |
| ImageMetrics.P99BoundsSum | tools/aldi_a30_rollover_review.py:186-202 | eleven times the percentile is at most the sum of the differences |
| ImageMetrics.MetricsSymmetric | tools/aldi_a30_rollover_review.py:186-202 | all metrics are symmetric and vanish on equal inputs |
| ImageMetrics.MetricBounds | tools/aldi_a30_rollover_review.py:186-202 | the bounds above hold together for any two decoded pages |
| ImageMetrics.ScoreSeparatesSizes | tools/aldi_a30_rollover_review.py:203-228 | pairs of equal size score at most 4, others at least 10 |
| ImagePairs.SameSizeFirst | tools/aldi_a30_rollover_review.py:231-257 | nothing is compared iff there are more than 64 pairs; otherwise every pair of equal size comes before any other |
| ImagePairs.PairsAreExact | tools/aldi_a30_rollover_review.py:203-257 | up to 64 pairs, the listed pairs are every old page with every new page; each says truly whether these two images have equal size, with the score of the formula for these two within half a unit; the order is by score, old page, new page |
| ImagePairs.MetricsAreCounts | tools/aldi_a30_rollover_review.py:186-202 | the numbers in the formula: the pixels on which just one image reaches its mean, and sum, squares and percentile of the absolute differences |
| ImageMetrics.StrictTestsAgree | tools/aldi_a30_authoritative_cycle.py:176-198 | both tools, each with its own order of tests and a square root, accept the same pairs |
| ImageMetrics.RmsTestBySquares | tools/aldi_a30_authoritative_cycle.py:185-198 | the test of the root mean square error against a limit is the comparison of the squares, for any root function |
| IsoWeeks.WeekKeyExact | tools/aldi_new_baseline_weekly_shadow_producer.py:183-189 | a day's key is k iff the day lies in the seven days from k's Monday |
| IsoWeeks.LibraryFollowsIso | tools/aldi_new_baseline_weekly_shadow_producer.py:183-185 | the library's week equals the week of the day's Thursday, as ISO 8601:2004 defines it |
| IsoWeeks.WeeksFillYear | tools/aldi_new_baseline_weekly_shadow_producer.py:188-189 | week years have 52 or 53 whole weeks and follow each other without gap |
| IsoWeeks.SevenDaysIsNextWeek | tools/aldi_new_baseline_two_cycle_shadow_gate.py:120-129 | Mondays seven days apart are exactly successive ISO weeks, at every year end |
| WeekSelection.SelectWeek | tools/aldi_new_baseline_weekly_shadow_producer.py:166-234 | fails iff no priced row has a promotion or epoch date; otherwise returns the chosen week, its Monday and Sunday and the offers dated in it, by promotion date first |
| WeekSelection.CountWeeks | tools/aldi_new_baseline_weekly_shadow_producer.py:196-204 | the counter holds exactly the weeks with offers and their numbers |
| WeekSelection.SelectedStartInWeek | tools/aldi_new_baseline_weekly_shadow_producer.py:166-231 | a priced offer with a promotion date is selected iff that date lies from the Monday to the Sunday, whatever its epoch date, one without iff its epoch date does, an unpriced one never |
| WeekSelection.ChoiceUnique | tools/aldi_new_baseline_weekly_shadow_producer.py:206-220 | target week, then nearest Monday, then smallest key leave one week only |
| WeekChoice.ChosenByDates | tools/aldi_new_baseline_weekly_shadow_producer.py:192-222 | no week has more dated offers than the chosen one; the week of the observation day, or of the day after on a Sunday, is taken if it has as many, otherwise the nearest Monday, the earlier of two |
| WeekSelection.OrderIrrelevant | tools/aldi_new_baseline_weekly_shadow_producer.py:192-234 | the choice and its offers do not depend on row order |
| WeekSelection.TargetWeekHasView | tools/aldi_new_baseline_weekly_shadow_producer.py:237-251 | a modal target week always has a view; the rollover alias appears iff it is Sunday and the week starts tomorrow |
| WeeklyCycles.ChainAdvancesWeekly | tools/aldi_new_baseline_two_cycle_shadow_gate.py:372-404 | the i-th cycle of a chain lies exactly i ISO weeks after the first, with the same parser and parity contract |
| WeeklyCycles.ChainCoversWeeksOnce | tools/aldi_new_baseline_weekly_shadow_bridge.py:437-452 | in a chain of acceptances no week is repeated or skipped |
| WeeklyMeaning.WeekTextRead | tools/aldi_new_baseline_two_cycle_shadow_gate.py:120-129 | exactly the texts of existing ISO weeks are read, each as its own week |
| WeeklyMeaning.AcceptedIff | tools/aldi_new_baseline_two_cycle_shadow_gate.py:246-404 | a weekly run accepts exactly a clean current cycle, whose validity starts in its own week, and with a prior one only a clean one that it follows by a week, from another run, campaign and files, by the same parser and parity contract |
| CampaignChains.CampaignGuard | tools/aldi_new_baseline_two_cycle_shadow_gate.py:372-404 | an accepted week stays accepted under another campaign and artifact iff both are well formed and not those of the week before |
| CampaignChains.CampaignFits | tools/aldi_new_baseline_two_cycle_shadow_gate.py:246-404 | renaming any week of an accepted chain leaves an accepted chain iff the name is well formed and differs from both neighbours |
| CampaignChains.EarlierCampaignMayReturn | tools/aldi_new_baseline_two_cycle_shadow_gate.py:372-404 | the last week may take the campaign of any week before the last but one, unless that is the campaign of its neighbour |
| CampaignChains.RepeatFreeIffShort | tools/aldi_new_baseline_two_cycle_shadow_gate.py:372-404 | all chains of a given length are free of repeated campaigns iff the length is at most two or no chain has it |
| CampaignChains.CampaignsMayRepeat | tools/aldi_new_baseline_two_cycle_shadow_gate.py:246-404 | an accepted chain of three weeks with one campaign in weeks one and three and all runs and digests different |
| Regions.RegionIdempotent | tools/aldi_new_baseline_page_card_parity.py:75-91 | rounding an accepted region again gives the same region |
| Regions.InsidePageStaysInside | tools/aldi_new_baseline_page_card_parity.py:75-91 | a rectangle inside the page is refused iff a side rounds to zero, and never uses the tolerance |
| PageCardRows.CleanIdsPermuted | tools/aldi_new_baseline_page_card_parity.py:219-220 | the candidate IDs of a card may be listed in any order |
| PageCardRows.CleanCardIdempotent | tools/aldi_new_baseline_page_card_parity.py:203-240 | a normalized card is its own normal form |
| PageCardGate.ValidateCandidates | tools/aldi_new_baseline_page_card_parity.py:141-186 | accepts exactly the lists with valid rows, unique IDs and the declared digest, and returns them normalized and sorted |
| PageCardGate.ValidateCards | tools/aldi_new_baseline_page_card_parity.py:189-245 | the same for cards, with scope, route, reason and region rules |
| PageCardGate.CollectReferences | tools/aldi_new_baseline_page_card_parity.py:253-270 | succeeds iff every candidate finds a fitting card, and collects for each card the candidates naming it |
| PageCardGate.CheckDeclared | tools/aldi_new_baseline_page_card_parity.py:272-279 | succeeds iff every card declares exactly what was collected for it |
| PageCardGate.ValidateParity | tools/aldi_new_baseline_page_card_parity.py:114-337 | the gate with its header, the whole baseline binding, both lists and the two-way check: one error per stage, the fingerprint of the normalized content otherwise; PageCardMeaning.AcceptedIffGood says which payloads pass |
| PageCardInverse.PageAndScopeImplied | tools/aldi_new_baseline_page_card_parity.py:256-269 | page and scope comparisons follow from the row checks once card and route agree |
| PageCardInverse.LaterChecksImplied | tools/aldi_new_baseline_page_card_parity.py:275-279 | the unexplained-card and unknown-candidate checks follow from the list comparison |
| PageCardInverse.RelationIffInverse | tools/aldi_new_baseline_page_card_parity.py:248-279 | the relation is accepted iff declared lists are the preimages of the card assignment and routes agree |
| PageCardInverse.CountsBalance | tools/aldi_new_baseline_page_card_parity.py:281-290 | declared lists add up to the candidates, route by route; automatic candidates number at least the in-scope cards |
| PageCardStability.AcceptedIffInverse | tools/aldi_new_baseline_page_card_parity.py:293-312 | a payload with good rows and digests is accepted iff its lists are exact inverses |
| PageCardStability.AcceptedBalances | tools/aldi_new_baseline_page_card_parity.py:293-337 | what the fingerprint of any accepted payload certifies |
| PageCardStability.RowOrderIrrelevant | tools/aldi_new_baseline_page_card_parity.py:183-312 | permuting rows gives the same verdict and fingerprint |
| PageCardStability.IdOrderIrrelevant | tools/aldi_new_baseline_page_card_parity.py:219-220 | permuting the IDs within a card leaves the cleaned card unchanged |
| PageCardStability.RevalidationIsStable | tools/aldi_new_baseline_page_card_parity.py:293-337 | the normalized output fed back in gets the same fingerprint |
| PageCardMeaning.AcceptedIffGood | tools/aldi_new_baseline_page_card_parity.py:75-337 | a payload passes iff header, baseline, every candidate row, every card row, uniqueness, both digests and the two-way relation hold of its stripped texts and rounded sides; the fingerprint covers the baseline and the contents of both digests |
| ShadowProducer.ValidatedGeometry | tools/aldi_new_baseline_weekly_shadow_producer.py:426-486 | returns the rows unchanged exactly when size, counts, object IDs and container keys meet every check |
| ShadowProducer.GeometryIsBijection | tools/aldi_new_baseline_weekly_shadow_producer.py:426-486 | accepted geometry pairs selected offers and visible cards one to one, with no visible card left over |
| ShadowProducer.BuildRows | tools/aldi_new_baseline_weekly_shadow_producer.py:697-745 | stops exactly on a candidate-ID collision or an unusable rectangle, otherwise writes both numbered lists |
| ProducerAcceptance.CardIdOrder | tools/aldi_new_baseline_weekly_shadow_producer.py:714-714 | zero-padded card IDs sort as text in index order |
| ProducerAcceptance.CardsInIndexOrder | tools/aldi_new_baseline_weekly_shadow_producer.py:747-753 | sorting the ledger by card ID moves nothing and its IDs are unique |
| ProducerAcceptance.ProducerAccepted | tools/aldi_new_baseline_weekly_shadow_producer.py:697-753 | the page/card gate accepts every payload the producer builds, keeping index order |
| ProducerMeaning.Produce | tools/aldi_new_baseline_weekly_shadow_producer.py:369-753 | succeeds iff the geometry is accepted, no two object IDs share the first half of their digests and every rectangle lies on the page once rounded; then it writes the rows in reading order, numbered from 1, as candidates and as cards with the page's digest and the rounded shares of the rectangle, and the gate accepts them |
| ProducerAcceptance.ReportOrderIrrelevant | tools/aldi_new_baseline_weekly_shadow_producer.py:697-704 | the order in which the page reports its rows does not reach the output |
| ProducerAcceptance.InsidePageHasRegion | tools/aldi_new_baseline_weekly_shadow_producer.py:369-384 | a card inside the page is refused only when its rounded width or height is zero |
| GateResults.PriorAcceptedIff | tools/aldi_new_baseline_gate_c_replay.py:348-404 | a prior is accepted iff it equals the READY result up to its decision and its strict flags are booleans; the other field checks are implied |
| GateResults.ChainIsStable | tools/aldi_new_baseline_gate_c_replay.py:407-419 | fed its own last result a gate answers READY once and then NO_OP with the same content |
| GateResults.NumberForFlagRefused | tools/aldi_new_baseline_gate_c_replay.py:367-403 | a strict flag written as a number equals the READY flag and is refused all the same |
| GateResults.NumberElsewhereAccepted | tools/aldi_new_baseline_two_cycle_shadow_gate.py:526-528 | any other flag written as a number is accepted |
| ReplayGate.ValidateReplays | tools/aldi_new_baseline_gate_c_replay.py:165-298 | accepts exactly two rows, replay-01 and replay-02, bound to the parity result, read-only and with one output digest |
| ReplayGate.ReplaysRead | tools/aldi_new_baseline_gate_c_replay.py:165-298 | field by field: both rows name the parity result's five identifying values as input, give back its digests and counts, wrote nothing and have one output digest |
| ReplayGate.IdentityRead | tools/aldi_new_baseline_gate_c_replay.py:311-317 | the identity names the parity result, the output and both replays in order |
| ReplayGate.SameIdentityIff | tools/aldi_new_baseline_gate_c_replay.py:311-317 | two accepted payloads have one identity digest iff binding and replay rows are all equal |
| ReplayGate.PriorsOfBothGates | tools/aldi_new_baseline_two_cycle_shadow_gate.py:490-528 | the exact acceptance condition for the replay gate and for the two-cycle gate |
| ReplayGate.GatesAreStable | tools/aldi_new_baseline_two_cycle_shadow_gate.py:531-542 | both gates answer NO_OP with one identity from the second run on |
| ReplayGate.GatesDifferOnNumbers | tools/aldi_new_baseline_two_cycle_shadow_gate.py:490-528 | the duplicate-free flag written as 1 is refused by the replay gate, which tests it with `is`, and accepted by the two-cycle gate |
| ReplayGate.TwoCycleToleratesNumbers | tools/aldi_new_baseline_two_cycle_shadow_gate.py:490-528 | each of the six flags the two-cycle gate does not test one by one may be written as 1 |
| ReplayGate.TwoCycleIdentityIff | tools/aldi_new_baseline_two_cycle_shadow_gate.py:207-214 | two replay results give one two-cycle identity iff they agree in decision and replay identity |
| ReplayGate.FingerprintIff | tools/aldi_new_baseline_two_cycle_shadow_gate.py:207-503 | their acceptance fingerprints agree exactly then; otherwise the result built on one is no accepted prior for the other |
| Publishing.ManifestListsExactly | tools/aldi_new_baseline_weekly_shadow_bridge.py:528-543 | the manifest of a complete output lists every other file with its digest and nothing else |
| Publishing.ManifestDeterminesOutput | tools/aldi_new_baseline_weekly_shadow_bridge.py:528-543 | equal manifests mean equal outputs |
| Publishing.Disk.NewStage | tools/aldi_new_baseline_weekly_shadow_bridge.py:516-520 | makes an empty staging directory iff the output is absent, the parent usable and no step fails |
| Publishing.Disk.WriteSuccessFiles | tools/aldi_new_baseline_weekly_shadow_bridge.py:528-543 | writes all files and the manifest, or leaves damage in the stage only |
| Publishing.Disk.PublishStage | tools/aldi_new_baseline_weekly_shadow_bridge.py:523-525 | one rename publishes the stage, or nothing changes |
| Publishing.Disk.WriteOutputs | tools/aldi_new_baseline_weekly_shadow_bridge.py:546-549 | publishes the complete success set iff the output is absent and no step fails; otherwise the output path is untouched |
| Publishing.Disk.WriteBlocked | tools/aldi_new_baseline_weekly_shadow_bridge.py:578-616 | the same for the blocked receipt |
| Publishing.RunCommand | tools/aldi_new_baseline_weekly_shadow_bridge.py:656-742 | the exit ladder under any faults: what each exit code means for the output path, and codes 0, 20, 21 and 23 exactly for a free output path, a usable parent, no fault and the run that belongs to them |
| Publishing.OutcomeIsAllOrNothing | tools/aldi_new_baseline_weekly_shadow_bridge.py:656-742 | an existing output is never altered, a new one is complete, a failing run leaves at most a receipt |
| Publishing.ReasonsByCode | tools/aldi_new_baseline_weekly_shadow_bridge.py:578-742 | exit codes 20 to 23 leave a receipt with the reason of their own and a manifest of it, bad arguments leave nothing |
| CardFamilies.GroupTokens | tools/aldi_visual_card_bridge_diagnostic_v2.py:428-446 | one offer's tokens are grouped into its families with the cards found |
| CardFamilies.CollectFamilies | tools/aldi_visual_card_bridge_diagnostic_v2.py:426-452 | nested buckets hold for every occurring family each offer's cards |
| CardFamilies.SummariseFamilies | tools/aldi_visual_card_bridge_diagnostic_v2.py:462-494 | one summary for each occurring family and no other |
| CardFamilies.FamilySummary | tools/aldi_visual_card_bridge_diagnostic_v2.py:423-504 | at most 96 families, each once and best first; a family left out is no better than any kept |
| CardFamilies.OffersAccountedFor | tools/aldi_visual_card_bridge_diagnostic_v2.py:454-490 | bridged, ambiguous and missing offers add up to the selected count |
| CardFamilies.FullCoverage | tools/aldi_visual_card_bridge_diagnostic_v2.py:476-484 | coverage is a million iff every selected offer is bridged |
| CardFamilies.ExactIsInjection | tools/aldi_visual_card_bridge_diagnostic_v2.py:507-512 | a family is exact iff it maps every selected offer to one card, different offers to different cards |
| CardFamilies.FirstDecides | tools/aldi_visual_card_bridge_diagnostic_v2.py:492-518 | the first sorted family is exact, or bridges something, iff some family does |
| CardFamilies.TruncationKeepsDecision | tools/aldi_visual_card_bridge_diagnostic_v2.py:492-518 | keeping the first 96 families never changes the decision |
| CardFamilies.Diagnose | tools/aldi_visual_card_bridge_diagnostic_v2.py:423-518 | the decision says whether an exact family exists and whether anything is bridged at all |
| FamilyMeaning.SummaryIff | tools/aldi_visual_card_bridge_diagnostic_v2.py:423-494 | a summary is listed iff its family occurs and its numbers count the offers with a token, on one card, on several cards, the rest, the cards shared by offers and the share in millionths, by each offer's last row |
| FamilyMeaning.KeptRead | tools/aldi_visual_card_bridge_diagnostic_v2.py:492-504 | the list has at most 96 of them, ordered by bridged offers, ambiguous offers, shared cards, path and kind, and what is left out comes after all of it |
| FamilyMeaning.DecisionRead | tools/aldi_visual_card_bridge_diagnostic_v2.py:507-518 | exact means that some family leads every selected offer to one card and no two to the same; none means that no family leads any offer to one card |
| RecoveryInventory.FormatFromPrefix | tools/aldi_gate_d3_recovery_inventory.py:50-57 | twelve bytes determine the image format |
| RecoveryInventory.StreamImage | tools/aldi_gate_d3_recovery_inventory.py:60-81 | streaming equals the check of the concatenated bytes |
| RecoveryInventory.ChunkingIrrelevant | tools/aldi_gate_d3_recovery_inventory.py:60-81 | any two ways of chunking the same bytes give the same result |
| RecoveryMeaning.CheckedIffImage | tools/aldi_gate_d3_recovery_inventory.py:50-81 | a file passes iff it has the expected length, between 10000 bytes and 32 MiB, and the first bytes of JPEG, PNG or WebP, and is reported with its digest and that format |
| RecoveryInventory.IdentityIsContent | tools/aldi_gate_d3_recovery_inventory.py:172-193 | complete families have the same identity iff every page has the same bytes |
| RecoveryMeaning.IdentityRows | tools/aldi_gate_d3_recovery_inventory.py:141-193 | exactly the families of 49 and 41 page images have an identity: the digest of their ninety rows of side, page, length, digest and format in order |
| RecoveryInventory.PageNames | tools/aldi_gate_d3_recovery_inventory.py:150-160 | page file names sort in page order and name their page uniquely |
| RecoverySources.ScanSide | tools/aldi_gate_d3_recovery_inventory.py:147-171 | a directory side is reported complete iff exactly its expected pages are present and valid |
| RecoverySources.CollectDirectory | tools/aldi_gate_d3_recovery_inventory.py:141-193 | a directory's identity is that of its page family |
| RecoverySources.ArchiveIdentities | tools/aldi_gate_d3_recovery_inventory.py:269-335 | hashing stays within the budget, and yields the identities of exactly the complete groups |
| RecoveryMeaning.BudgetOfGroup | tools/aldi_gate_d3_recovery_inventory.py:290-320 | the budget counts all bytes of a group with all ninety pages and nothing of any other |
| RecoveryMeaning.BudgetAdds | tools/aldi_gate_d3_recovery_inventory.py:290-320 | the budget of a list of groups is that of its parts added |
| RecoverySources.DirectoryEqualsArchive | tools/aldi_gate_d3_recovery_inventory.py:141-335 | the same page files have one identity in a directory and in an archive |
| RecoveryDecision.BuildInventory | tools/aldi_gate_d3_recovery_inventory.py:342-376 | the decision is drawn from the set of identities of all usable sources |
| RecoveryDecision.RepeatedSourcesDoNotCount | tools/aldi_gate_d3_recovery_inventory.py:361-376 | further sources of known families change nothing; one candidate means one distinct family |
| RecoveryDecision.DecisionByFamilies | tools/aldi_gate_d3_recovery_inventory.py:342-376 | a set holding the identities of all usable sources decides by the pages: none, one or several different complete families |
| RecoveryMeaning.HeldIff | tools/aldi_gate_d3_recovery_inventory.py:141-376 | a source holds a family iff all its ninety pages are page images and they are the files named page-NNN.img of a directory, or a group of an archive that is safe, not excluded and within one GiB |
| RecoveryDecision.RecoveryInventoryOf | tools/aldi_gate_d3_recovery_inventory.py:141-376 | from directory listings and archive members to the decision: a candidate is found iff complete families exist and all have the same pages |
| BackupDiscovery.ValidateRequest | tools/aldi_gate_d4_backup_discovery.py:115-192 | the incremental checks accept exactly the requests with distinct IDs, usable paths and pairwise separate inputs |
| DiscoveryMeaning.RequestIff | tools/aldi_gate_d4_backup_discovery.py:115-192 | the accepted requests on IDs and paths: one to eight inputs, no broad or state directory, archives by their ending, no path in two inputs |
| DiscoveryMeaning.InputsInOrder | tools/aldi_gate_d4_backup_discovery.py:190-191 | roots and files are handed on by increasing ID |
| BackupDiscovery.ApartIffDisjoint | tools/aldi_gate_d4_backup_discovery.py:166-175 | the pairwise root test holds iff the two subtrees share no path |
| BackupDiscovery.InputsAreDisjoint | tools/aldi_gate_d4_backup_discovery.py:159-188 | every path belongs to at most one input of an accepted request |
| DiscoveryReport.BuildDiscovery | tools/aldi_gate_d4_backup_discovery.py:195-388 | fails exactly when a report does not sanitise, otherwise returns the rows of all sources sorted, the union of identities and the decision |
| DiscoveryMeaning.ReportIff | tools/aldi_gate_d4_backup_discovery.py:195-340 | a report is taken iff its identities are digests and no absolute path shows at any depth |
| DiscoveryMeaning.SourcesListed | tools/aldi_gate_d4_backup_discovery.py:295-371 | the rows listed are exactly the families held by the inputs, archives excluded or unsafe apart |
| DiscoveryMeaning.OrderRead | tools/aldi_gate_d4_backup_discovery.py:340-371 | the order of the rows: identity, files before roots, input, archives before directories, place |
| DiscoveryReport.AbsolutePathIffText | tools/aldi_gate_d4_backup_discovery.py:195-202 | the recursive test finds an absolute path iff some text at any depth of the inventory is one |
| DiscoveryReport.RowsNameIdentities | tools/aldi_gate_d4_backup_discovery.py:295-371 | the source rows name exactly the identities found |
| DiscoveryReport.DecisionFromUnion | tools/aldi_gate_d4_backup_discovery.py:372-388 | discoveries holding the same identities decide alike, whatever the copies, kinds and order |
| DiscoveryReport.DecisionMeaning | tools/aldi_gate_d4_backup_discovery.py:372-388 | the four decisions are two different identities, one, and none with and without a complete source set |
| EdekaJoin.Join | tools/edeka_live_provenance_bridge.py:152-415 | the join succeeds exactly when source, normalization report and database rows agree in every bound field and name the same offers once; a row is automatic iff its normalization row has the status resolved, and under review and ambiguous iff it has review_required |
| EdekaMeaning.JoinIff | tools/edeka_live_provenance_bridge.py:152-360 | which sources, reports and database rows belong together, field by field |
| EdekaMeaning.JoinedRead | tools/edeka_live_provenance_bridge.py:137-415 | what a join writes, field by field: the manifest with its campaign text, and for each database row one candidate with the route of its status |
| EdekaJoin.FinalSetCheckImplied | tools/edeka_live_provenance_bridge.py:359-360 | the final comparison of the two ID sets can never fail |
| EdekaJoin.JoinedManifestOk | tools/edeka_regional_source_manifest.py:56-119 | the manifest a join writes is valid iff campaign window, digests and parser name have the right formats |
| EdekaAccounting.ValidateProvenance | tools/edeka_candidate_provenance.py:30-132 | accepts exactly the payloads with the fixed values, a valid and shadow-ready manifest, valid rows with unique IDs and no write flag, and counts every route |
| EdekaAccounting.Augment | tools/edeka_accounted_live_provenance_bridge.py:78-189 | adds the exclusions exactly when the counts hold, the accounting was made from the payload's snapshot, files and parser, the whole validates and both later counts hold |
| EdekaMeaning.AugmentedIff | tools/edeka_accounted_live_provenance_bridge.py:78-189 | the exclusions are added iff the list is valid field by field and has none, and the accounting balances, names the list's snapshot, files and parser, and excludes distinct new cards under their own dialogs |
| EdekaMeaning.AugmentedRows | tools/edeka_accounted_live_provenance_bridge.py:127-189 | the result is the old rows and one row for each excluded card, in order of ID, and nothing else changes |
| EdekaConservation.JoinRoutes | tools/edeka_live_provenance_bridge.py:340-357 | as many rows are automatic, and as many under review, as normalization rows have the text resolved, and review_required; the rows validate as they are |
| EdekaConservation.PostChecksIff | tools/edeka_accounted_live_provenance_bridge.py:184-188 | the total always agrees; the excluded count agrees iff the base has no excluded candidate |
| EdekaConservation.AugmentIff | tools/edeka_accounted_live_provenance_bridge.py:102-188 | the exact conditions under which the exclusions are added |
| EdekaConservation.SourceCardsConserved | tools/edeka_accounted_live_provenance_bridge.py:127-188 | the IDs are the disjoint union of parsed and excluded IDs, and route counts add up to the source cards |
| EdekaConservation.EndToEnd | tools/edeka_accounted_live_provenance_bridge.py:78-189 | on a joined base the exclusions are added iff the source formats hold and the accounting fits; the later counts never fail, and the result has as many automatic and review rows as normalization rows have either text, and as many excluded ones as cards |
| ZeroPadding.Pad3Order | tools/aldi_gate_d3_recovery_inventory.py:150-160 | three-digit numbers sort as text in numeric order |
| Formats.StripTakesOff | tools/aldi_new_baseline_page_card_parity.py:56-59 | white space around a text is taken off, and nothing else |

## Left out

- Browser, network, Docker, database, git and authorisation tools: their observations enter as arbitrary inputs.
- Receipts pinned to fixed hashes or to one page permutation: finite constant checks; carry maps are arbitrary here.
- Constant safety flags and "authorized: false" fields: true by construction; one representative safety object is kept.
- Tokenising and normalising text, price parsing and the Unicode digits that `\d` also accepts: tokens, cents and ASCII digits are inputs.
- `_tokens_for_offer` and `_flatten_leaves` of the bridge diagnostic: tokens and their matching cards are inputs; `carrier_kinds` and `token_count` are not reported.
- Rounding inside binary floating point: scores, regions and metrics are exact numbers rounded once; square roots are a parameter with the defining property.
- Error message texts and the order of failures within one validator: a refusal is one error, or one per stage.
- Malformed JSON types: rows are typed records, except gate results, where Python's comparison of numbers and flags is modelled.
- `_product_slug` and the browser's matching of slugs to links: geometry rows with their container keys are inputs.
- Observability proofs of the two-cycle gate and the bridge's descriptor and execution-evidence checks: one-pass guard lists.
- Concurrent processes on one output path: one process at a time; a run that fails may leave its staging directory behind, as in the source.
- The order of manifest lines: the manifest is a set of lines.
- Dates after the year 9999: the calendar is unbounded upwards.
- An acquisition that requires no terminal failure: the plan demands at least one.
- Tar and SQLite internals: members, rows and file contents are inputs.
- The fingerprint and input echoes of the discovery report, and the input summaries of the preflight result: copies of values modelled elsewhere.
- The preflight's check of the plan file itself (fixed digests and fixed values): `PlanOk` states what it leaves of manifest and carry map.
- EDEKA cycle evidence: file paths, file digests, persistence counters and safety flags are compared with fixed or given values in one pass.
- Splitting a URL and reading an ISO date: the parts of the URL and a function from texts to days are inputs.
- Lower case of non-ASCII text in EDEKA snapshot IDs and host names.
