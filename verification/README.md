# A verified model of the matrimony backend's state machines

The backend's guarantees mostly hold because several services agree on the same rows. Each HTTP request or worker job
is modelled as one committed step over in-memory tables, or as no change when it raises; the configuration cache is
modelled action by action, because there the interleaving is the point. The tables and the transitions are values and
functions; the services are classes whose methods update fields and are proved to make exactly those transitions; the
guarantees are lemmas about every run. The `Outcomes` modules say what each single request does and answers, in terms of
the request and the tables before it.

- **Billing** (`Billing`, `BillingInvariant`, `BillingTheorems`, `BillingSales`, `BillingOutcomes`, `BillingService`): payments, webhooks, subscriptions,
  job verifications, refunds and sweeps. The subscription rows refine one number per user; premium time enjoyed is
  exactly the time sold; webhooks take effect once in whatever order they come.
- **Social graph** (`SocialGraph`, `SocialGraphTheorems`, `SocialGraphOutcomes`,
  `SocialGraphService`, `Candidates`): swipes, matches, blocks,
  conversations and the candidate query.
- **Recommendations** (`Scoring`, `ScoringOutcomes`, `Feed`, `Decimal`): the weighted score, the stable ranking and the page walk.
- **Refresh tokens** (`RefreshTokens`, `RefreshTokenTheorems`, `RefreshTokenOutcomes`).
- **App configuration** (`AppConfig`, `AppConfigService`, `AppConfigTheorems`, `AppConfigStaleness`,
  `AppConfigOutcomes`): the grouped payload,
  its version, and how old a cached copy can be.
- **Bounded mechanisms** (`Series`, `CivilDates`, `Campaigns`, `RateLimit`, `Messages`).

Where the code does not do what its own text says, the model follows the code and a lemma says exactly when the two
agree:

- A second PASS on the same user violates the unique constraint, although the model's comment calls multiple PASS rows
  fine (`app/db/models/swipe.py:19`): `SocialGraphTheorems.SwipeErrors`, `SocialGraphTheorems.SecondPassFails`.
- The limiter calls itself a sliding window (`app/security/rate_limit.py:1`) and slides only in degenerate cases:
  `RateLimit.SlidesExactly`.
- The configuration version is to change whenever the public configuration does (`docs/architecture.md:205`), but it
  ignores categories: `AppConfigTheorems.ChangesTheVersionMisses` says exactly which changes it misses, and
  `AppConfigTheorems.FirstMoveIsMissed` gives inputs. Two feature keys can also claim one entry:
  `AppConfigTheorems.FeaturePrefixesClash`, `AppConfigTheorems.ClashIsReached`.
- The architecture notes say a configuration change commits and then invalidates the cache
  (`docs/architecture.md:225`); the routes commit after the service has invalidated it, so a request between the two
  can put the old payload back for a whole time to live: `AppConfigStaleness.OvertakenServesOld`. Exactly when a copy is
  stale: `AppConfigStaleness.StaleExactly`, `AppConfigStaleness.StaleNeedsOvertaking`.
- The "7d" dashboard series drops the current day, and the weekly ones drop it on Mondays: `Series.SevenDaysDropsToday`,
  `Series.WeeklyDropsMondays`.
- Marking a conversation read can leave unread messages behind: `Messages.ClearsExactly`,
  `Messages.DeletedFillTheBatch`.
- A rerun that finds nobody left finishes with an old delivered count: `Campaigns.CountsAgreeWhenDone`,
  `Campaigns.EmptyRerunKeepsCount`.

## Model

| member | source | states |
|---|---|---|
| `Billing.GetActive` | app/repositories/billing_repo.py:15-22 | The user's ACTIVE row that expires last, or none exactly when the user has no ACTIVE row |
| `Billing.GetByProviderId` | app/repositories/billing_repo.py:51-54 | A payment with this provider and provider id, or none exactly when there is none |
| `BillingInvariant.PremiumIsUntil` | app/repositories/billing_repo.py:24-28 | From the last commit on, `is_premium` is the comparison of the clock with the latest expiry of all the user's rows, expired ones included |
| `BillingInvariant.ActivateMovesUntil` | app/services/subscription_service.py:51-90 | Renewing in place and re-creating after a sweep do the same to that number: the later of it and now, plus the plan's duration, for the buyer and nobody else; at most one ACTIVE row remains |
| `BillingInvariant.SuccessKeepsInv` | app/services/payment_service.py:216-234 | On an unpaid payment the success transition never raises in a reachable state, writes one payment, one log record and at most its own verification, and keeps the invariant |
| `BillingInvariant.StepKeepsInv` | app/services/payment_service.py:178-273 | Every committed request or job keeps the billing invariant (rows, plans, payments, verifications, log, provider ids) |
| `BillingInvariant.RunKeepsInv` | app/workers/tasks.py:51-102 | The invariant holds after every run from empty tables at nondecreasing times |
| `BillingTheorems.RowsAreOneNumber` | app/services/subscription_service.py:33-34 | After any run: at most one ACTIVE row per user, `starts_at <= expires_at` on every row, and `is_premium(now)` iff the number computed from the activation log alone exceeds now |
| `BillingTheorems.SweepsInvisible` | app/workers/tasks.py:51-66 | Runs that differ only in where expiry sweeps fall agree on payments, verifications, log, every expiry and premium status ever after |
| `BillingTheorems.SoldAtTheTime` | app/services/subscription_service.py:52-66 | Every logged sale was made by one webhook, on a payment unpaid until then, for the duration the plan had in the tables at that moment |
| `BillingTheorems.PaidTimeConserved` | app/services/subscription_service.py:61-82 | At every instant, premium time enjoyed plus premium time still ahead equals time sold |
| `BillingTheorems.PaidTimeEnjoyed` | app/services/subscription_service.py:61-82 | Over a timeline that outlasts the last paid period, the premium time units are exactly those sold |
| `BillingTheorems.PremiumTimeIsWhatWasSold` | app/services/subscription_service.py:61-82 | The premium time units are the sum, over exactly the user's subscription payments that ever succeeded, of what each was credited |
| `BillingSales.PaidByOne` | app/services/payment_service.py:194-219 | Each payment is paid by one event at most |
| `BillingSales.SaleIsThePlan` | app/services/subscription_service.py:52-66 | What is credited to a paid subscription payment is the duration of its plan in the tables at the one webhook that paid it |
| `BillingSales.PremiumTimeIsPlanTime` | app/services/subscription_service.py:61-82 | The premium time units of the whole timeline are the sum of the plan durations, each read at the webhook that paid for it, of exactly the user's subscription payments that ever succeeded |
| `BillingTheorems.ActivatedExactlyOnce` | app/services/payment_service.py:194-234 | Activation ran at most once per payment, and once iff its status is SUCCESS or REFUNDED, iff `paid_at` is set |
| `BillingTheorems.UnderReviewIsPaid` | app/services/verification_service.py:98-107 | A verification under review has a linked payment that is paid and was activated exactly once |
| `BillingTheorems.WebhookNeverRaises` | app/api/v1/payments.py:35-38 | In reachable states a webhook raises iff it names another provider: the missing-metadata branches are dead |
| `BillingTheorems.WebhookOnPayments` | app/services/payment_service.py:194-214 | A webhook leaves paid payments alone and writes only status and `paid_at` of an unpaid one |
| `BillingTheorems.PaidAbsorbs` | app/services/payment_service.py:197-199 | In any continuation a paid payment keeps every field but the status, which can only go from SUCCESS to REFUNDED |
| `BillingTheorems.DuplicatesAreInert` | app/services/payment_service.py:197-199 | Dropping the webhooks answered "duplicate" from a run leaves the final tables unchanged |
| `BillingTheorems.LaterWebhooksAreDuplicates` | app/services/payment_service.py:182-199 | Once paid, every webhook that resolves to the payment, by either id, is answered "duplicate" in any continuation |
| `BillingTheorems.ProviderIdNamesForGood` | app/db/models/billing.py:60 | A provider id that names a payment names the same payment in every continuation |
| `BillingTheorems.SuccessWinsInAnyOrder` | app/services/payment_service.py:201-214 | After any deliveries for an unpaid payment, FAILED before or after SUCCESS, duplicated or not, it is paid iff at least one carried no status or, in whatever case, one of the three success words |
| `BillingOutcomes.WebhookNames` | app/services/payment_service.py:182-192 | A provider id decides which payment a webhook names; without one the internal id does, as payment id before as provider id |
| `BillingOutcomes.WebhookOutcome` | app/services/payment_service.py:178-238 | An unknown or paid payment is answered "ignored" or "duplicate" and nothing changes; else a success word or no status pays it now, a failure word fails it, and any other text changes nothing |
| `BillingOutcomes.ActivationWrites` | app/services/subscription_service.py:61-90 | Exactly one row of the buyer is written: it starts at the later of the time paid for and now, lasts the duration, carries the payment's provider and id, and keeps its plan if renewed or takes the payment's if fresh |
| `BillingOutcomes.PaidSubscriptionRow` | app/services/payment_service.py:216-234 | The webhook that pays a subscription payment writes that row with the plan's duration then, and no verification |
| `BillingOutcomes.PaidVerification` | app/services/verification_service.py:98-107 | The webhook that pays for a verification moves it on from waiting for payment and touches no other row |
| `BillingOutcomes.PaidOther` | app/services/payment_service.py:216-234 | Any other payment leaves subscriptions and verifications alone |
| `BillingOutcomes.CheckoutOutcome` | app/services/payment_service.py:144-176 | A checkout commits iff the plan is active and the provider id new, and adds one pending payment with these fields |
| `BillingOutcomes.SubmitOutcome` | app/services/verification_service.py:45-87 | A submission adds the two rows naming each other iff the provider id is new |
| `BillingOutcomes.PlanOutcome` | app/api/v1/admin_subscriptions.py:63-118 | A plan is written iff its duration is positive, and other plans stay |
| `BillingOutcomes.RefundOutcome` | app/services/payment_service.py:240-273 | An accepted refund turns SUCCESS into REFUNDED and changes nothing else; each refusal has its reason |
| `BillingOutcomes.ReviewOutcome` | app/services/verification_service.py:111-144 | An approval verifies from now for the days given, a rejection rejects and keeps the dates |
| `BillingOutcomes.SweepOutcome` | app/workers/tasks.py:51-66 | After a sweep no ACTIVE row is past its expiry; exactly those that were expired, and nothing else changed |
| `BillingOutcomes.VerificationSweepOutcome` | app/workers/tasks.py:87-102 | The same for verified verifications |
| `BillingService.Session.ActivateFromPayment` | app/services/subscription_service.py:51-90 | The in-place updates make the specified activation; on success the returned row is the buyer's ACTIVE row |
| `BillingService.Session.MarkUnderReviewFromPayment` | app/services/verification_service.py:98-107 | Only a verification waiting for payment moves to UNDER_REVIEW; both missing-row errors are reported |
| `BillingService.Session.MarkPaymentSuccess` | app/services/payment_service.py:216-234 | Status, `paid_at` and the downstream effect by payment type, as specified |
| `BillingService.Session.FindPayment` | app/services/payment_service.py:182-192 | The candidate loop finds the payment by provider id first, then by either identifier as internal id |
| `BillingService.Session.HandleWebhook` | app/services/payment_service.py:178-214 | Reply, error and resulting tables are the specified webhook transition |
| `BillingService.Session.PostWebhook` | app/api/v1/payments.py:35-38 | The route commits the transition and gives its reply or, when the service raised after partial writes, leaves the tables as they were |
| `BillingService.Session.RefundPayment` | app/services/payment_service.py:240-273 | Only SUCCESS payments are refunded; every error leaves the tables unchanged |
| `BillingService.Session.ExpireDueSubscriptions` | app/workers/tasks.py:51-66 | The loop expires exactly the ACTIVE rows strictly past their expiry and changes nothing else |
| `BillingService.Session.ExpireDueVerifications` | app/workers/tasks.py:87-102 | The loop lapses exactly the verified rows strictly past their expiry and changes nothing else |
| `BillingService.Session.ReviewVerification` | app/services/verification_service.py:111-144 | Only a reviewing role decides, and the decision overwrites whatever status the row had |
| `BillingService.Session.CreateCheckout` | app/services/subscription_service.py:36-49 | An inactive or missing plan is refused; otherwise one pending payment is added |
| `BillingService.Session.InsertPayment` | app/services/payment_service.py:144-176 | A payment is appended unless another one has its provider id |
| `BillingService.Session.Submit` | app/services/verification_service.py:45-87 | Verification and payment are added linked to each other, or neither is |
| `SocialGraphTheorems.StepKeepsInv` | app/services/swipe_service.py:43-85 | Every step keeps: normalized unique pairs, match row iff mutual like, no active match across a block, conversations on matches |
| `SocialGraphTheorems.MatchIffMutualLike` | app/services/swipe_service.py:66-85 | In every reachable state a match row of any status exists for a pair iff each has a LIKE or SUPER_LIKE of the other |
| `SocialGraphTheorems.MatchInsertSucceeds` | app/repositories/match_repo.py:51-53 | The like that completes a mutual like finds no row: the insert meets neither the unique nor the order constraint, and no active match exists |
| `SocialGraphTheorems.SwipeErrors` | app/services/swipe_service.py:43-85 | ALREADY_MATCHED is unreachable, and the database refuses a swipe row iff it is a repeated PASS that passed the guard |
| `SocialGraphTheorems.SecondPassFails` | app/db/models/swipe.py:19-21 | A run that ends in such a refused PASS |
| `SocialGraphTheorems.BlockedNeverActivelyMatched` | app/services/block_service.py:22-40 | In every run a block in either direction implies no ACTIVE match |
| `SocialGraphTheorems.EndedForGood` | app/services/match_service.py:44-56 | A match row never disappears, and one that is not ACTIVE stays so under every continuation |
| `SocialGraphTheorems.MatchesNeverComeBack` | app/services/match_service.py:44-56 | A pair whose match left ACTIVE is never actively matched again, unblocking and further swipes included |
| `SocialGraphTheorems.ConversationsSitOnMatches` | app/repositories/message_repo.py:41-52 | Every conversation has exactly two distinct participants, who have a match row and have liked each other |
| `SocialGraphTheorems.OneConversationPerPair` | app/repositories/message_repo.py:24-39 | Two conversations with the same participants are the same |
| `SocialGraphTheorems.StartNeverFindsBlock` | app/services/message_service.py:77-82 | The block check after the active-match check never fires |
| `SocialGraphTheorems.ReopeningIsIdempotent` | app/services/message_service.py:84-87 | Opening again, from either side, returns the same conversation and writes nothing |
| `SocialGraphOutcomes.GuardOutcome` | app/services/swipe_service.py:26-41 | A swipe passes the guard iff the users differ, the target is active, neither banned nor deleted, and neither blocks the other; each refusal has its reason |
| `SocialGraphOutcomes.SwipeOutcome` | app/services/swipe_service.py:43-85 | In reachable states a swipe commits iff it passes the guard and is new; it adds its row and answers `match_created` iff it is a like of someone who liked the swiper, iff the pair got its match row, which is active |
| `SocialGraphOutcomes.UnmatchOutcome` | app/services/match_service.py:29-50 | Exactly a participant ends a match; the pair is not actively matched afterwards and nothing else changes |
| `SocialGraphOutcomes.BlockOutcome` | app/services/block_service.py:22-40 | An accepted block is recorded and turns exactly the pair's active match into a blocked one; each refusal has its reason |
| `SocialGraphOutcomes.UnblockOutcome` | app/services/block_service.py:42-49 | Exactly one's own block of that user goes, and no match changes |
| `SocialGraphOutcomes.StartOutcome` | app/services/message_service.py:72-87 | In reachable states a conversation is given iff the target exists and the pair is actively matched: the one it has, or a new one of just the two |
| `SocialGraph.FindMatch` | app/repositories/match_repo.py:22-24 | The row of an ordered pair, or none exactly when there is none |
| `SocialGraph.GetDirectConversation` | app/repositories/message_repo.py:24-39 | A conversation both take part in, or none exactly when they share none |
| `SocialGraph.Without` | app/services/block_service.py:42-49 | Unblocking removes exactly that directed block |
| `SocialGraphService.Session.AssertCanInteract` | app/services/swipe_service.py:26-41 | The guard's first error in its order of checks |
| `SocialGraphService.Session.Swipe` | app/services/swipe_service.py:43-85 | Swipe row, match row, result and each error as specified |
| `SocialGraphService.Session.PostSwipe` | app/api/v1/swipes.py:15-24 | The route commits, or an error leaves the tables as they were |
| `SocialGraphService.Session.InsertMatch` | app/repositories/match_repo.py:51-53 | The normalized pair is inserted, or a constraint refuses it |
| `SocialGraphService.Session.EndMatch` | app/services/match_service.py:44-50 | Only a participant ends the match, whatever its status was |
| `SocialGraphService.Session.Block` | app/services/block_service.py:22-40 | One block row and the ended match, or an error and no change |
| `SocialGraphService.Session.RemoveBlock` | app/services/block_service.py:42-49 | The block row goes and no match returns |
| `SocialGraphService.Session.OpenConversation` | app/services/message_service.py:72-87 | The existing or the new conversation, with the errors in order |
| `Candidates.BlockedSet` | app/repositories/moderation_repo.py:18-24 | The users blocked by or blocking the viewer |
| `Candidates.SwipedSet` | app/repositories/swipe_repo.py:34-37 | The users the viewer has swiped on |
| `Candidates.MatchedSet` | app/services/recommendation_service.py:197-206 | The other sides of the viewer's active matches |
| `Candidates.CandidatesFor` | app/services/recommendation_service.py:197-219 | The fresh candidates are, in profile order, the users the swipe guard lets through whom the viewer has not swiped on |
| `Candidates.CandidatesExact` | app/services/recommendation_service.py:197-219 | In every reachable state that set results with or without subtracting the active matches |
| `Candidates.InProfileOrder` | app/services/recommendation_service.py:197-219 | The candidates stand in the order of the profile rows, each eligible row once |
| `Candidates.CandidatesCanBeSwiped` | app/services/swipe_service.py:26-53 | Any action on a fresh candidate succeeds, and the user is a candidate no more |
| `RefreshTokenTheorems.RunKeepsInv` | app/services/auth_service.py:131-174 | Every run keeps jtis unique, successors of the same user later in the table and unshared, and replaced records revoked |
| `RefreshTokenTheorems.ChainsAreOneUse` | app/services/auth_service.py:141-159 | Following `replaced_by_jti` goes forward, within one user, to an unshared record; of two records of a chain the earlier is revoked |
| `RefreshTokenTheorems.ChainIsLine` | app/services/auth_service.py:141-159 | Of two records of one chain the earlier leads to the later |
| `RefreshTokenTheorems.OneChainPerLogin` | app/services/auth_service.py:131-139 | There are exactly as many chains as committed logins |
| `RefreshTokenTheorems.RedeemedAtMostOnce` | app/services/auth_service.py:141-159 | Over any run a token is redeemed once if its record names a successor and otherwise never |
| `RefreshTokenTheorems.RefreshKeepsLive` | app/services/auth_service.py:152-159 | A refresh leaves every user with as many unrevoked tokens as before |
| `RefreshTokenTheorems.RevokeAllLeavesNone` | app/repositories/user_repo.py:234-243 | Revoking all leaves the user no unrevoked token |
| `RefreshTokenTheorems.RevokeAllRefusesForever` | app/repositories/user_repo.py:223-243 | After that, every earlier token of the user is refused in every continuation |
| `RefreshTokenOutcomes.RefreshAcceptedExactly` | app/services/auth_service.py:141-159 | After any run a refresh with a new jti is accepted iff a committed login or refresh minted the token for that user at most thirty days ago and no committed refresh or logout of it and no revoke-all of the user came after; else it is refused as revoked |
| `RefreshTokenOutcomes.ExpiredForGood` | app/services/auth_service.py:153 | Thirty days after it was minted a token is refused, whatever happened |
| `RefreshTokenOutcomes.EndedForGood` | app/services/auth_service.py:141-174 | A token that a refresh, a logout or a revoke-all ended is refused in every continuation |
| `RefreshTokenOutcomes.LoggedOutForGood` | app/services/auth_service.py:161-171 | In particular a token logged out after it was minted |
| `RefreshTokenOutcomes.RecordTells` | app/services/auth_service.py:131-139 | A record names the one event that minted it and for whom, expires thirty days after it, and is revoked iff some later event ended the token |
| `RefreshTokenOutcomes.UndecodedIsRefused` | app/services/auth_service.py:141-171 | A token that does not decode is refused as invalid |
| `RefreshTokenOutcomes.RevokeAllOutcome` | app/repositories/user_repo.py:234-243 | Revoking all ends every token of the user, keeps earlier revocations and spares everyone else's |
| `RefreshTokens.TokenStore.CreateTokenPair` | app/services/auth_service.py:131-139 | A record is added with the fixed lifetime, unless its jti exists |
| `RefreshTokens.TokenStore.RefreshToken` | app/services/auth_service.py:141-159 | Rotation as specified; each refusal leaves the records unchanged |
| `RefreshTokens.TokenStore.LogoutToken` | app/services/auth_service.py:161-171 | The token's record, if still unrevoked, is revoked without a successor |
| `RefreshTokens.TokenStore.RevokeAllForUser` | app/repositories/user_repo.py:234-243 | The loop revokes exactly the user's unrevoked records |
| `Scoring.Score` | app/services/recommendation_service.py:64-149 | The engine's additions, straight-line and table-driven, yield the specified score and reason codes |
| `Scoring.RoundHalfEven` | app/services/recommendation_service.py:149 | The rounded value is a nearest one, and the even one of two |
| `Scoring.WeightsSumTo100` | app/services/recommendation_service.py:23-39 | The weights of the factors, each added once, sum to 100 points |
| `Scoring.ScoreBounds` | app/services/recommendation_service.py:64-149 | With no family values on either side every score is within [7.1, 97.5], rounded or not |
| `Scoring.BoundsAttained` | app/services/recommendation_service.py:179-286 | Both ends occur |
| `Scoring.CodesAreNamed` | app/services/recommendation_service.py:69-73 | The codes are exactly the factors that earned one, without repeats, in the order of the additions |
| `Scoring.ReasonsCarryScore` | app/services/recommendation_service.py:69-73 | The score is at least 70% of the summed weight of the factors named |
| `Scoring.DirectionsDiffer` | app/services/recommendation_service.py:75-147 | The two directions of a pair differ by exactly the age and height terms |
| `Scoring.NearSymmetry` | app/services/recommendation_service.py:75-147 | They differ by at most 14.4 points, and not at all when no band applies and heights are known on both sides or neither |
| `Scoring.NearSymmetryIsTight` | app/services/recommendation_service.py:75-96 | The gap of 14.4 occurs |
| `ScoringOutcomes.SharesAreShares` | app/services/recommendation_service.py:69-73 | A factor's points are its weight times a share between 0 and 1 that is never clipped |
| `ScoringOutcomes.AgeShare` | app/services/recommendation_service.py:75-88 | Half for an unknown age, all in the viewer's band, else a twentieth less per year of difference down to nothing |
| `ScoringOutcomes.HeightShare` | app/services/recommendation_service.py:90-96 | All within five centimetres, else two fifths or, for an unknown height, half |
| `ScoringOutcomes.LocationShare` | app/services/recommendation_service.py:98-108 | 0.3, 0.5, 0.8 or 1 as country, state and city agree from the country down |
| `ScoringOutcomes.FieldShare` | app/services/recommendation_service.py:110-139 | Half unless both sides speak, then all or nothing, free texts up to case |
| `ScoringOutcomes.InterestsShare` | app/services/recommendation_service.py:141-147 | The shared interests as a share of all the two have, half if a side has none |
| `ScoringOutcomes.ReasonsExactly` | app/services/recommendation_service.py:69-149 | A reason is given iff the two profiles agree on the factor, stated on the profiles for each of the fifteen |
| `Decimal.ParsePrint` | app/services/recommendation_service.py:237-239 | Printing an offset as a cursor and parsing it back is the identity |
| `Feed.RankRanks` | app/services/recommendation_service.py:265-266 | The sort permutes, descends by score and keeps ties in order |
| `Feed.RankingUnique` | app/services/recommendation_service.py:265-266 | There is only one such list |
| `Feed.ComputeFeed` | app/services/recommendation_service.py:246-266 | The feed is the one stable descending ranking of the scored candidates |
| `Feed.WalkDelivers` | app/services/recommendation_service.py:237-244 | From any cursor inside the list the pages concatenate to the rest of it |
| `Feed.PagesAreFull` | app/services/recommendation_service.py:237-244 | Every page but the last holds as many items as the limit |
| `Feed.WalkLength` | app/services/recommendation_service.py:237-244 | How many pages follow from any cursor inside the list |
| `Feed.WalkIsWholeFeed` | app/services/recommendation_service.py:230-244 | From no cursor, `max(1, ceil(n / limit))` pages concatenate to the whole list |
| `Feed.NoCursorIsFirst` | app/services/recommendation_service.py:237-244 | No cursor, or one that is no number, gives the first page |
| `Feed.CursorIsOffset` | app/services/recommendation_service.py:237-244 | A printed offset gives the items from there, and a next offset exactly while items remain |
| `Feed.FeedEndpoint.BuildFeed` | app/services/recommendation_service.py:230-317 | The page is cut from the list a visit is shown, and the cache is left as specified |
| `Feed.FeedIsRecent` | app/services/recommendation_service.py:230-317 | After any visits one is shown what the last visit that wrote had computed iff Redis can be read and less than 900 seconds have passed since, and otherwise a fresh feed, empty without a profile |
| `CivilDates.OrdinalOrders` | app/repositories/user_repo.py:189-191 | Day ordinals order valid Gregorian dates as the calendar does |
| `CivilDates.AgeMonotone` | app/services/profile_service.py:19-23 | The calendar age never decreases |
| `CivilDates.FastAgeWithinOne` | app/repositories/user_repo.py:189-191 | Up to age 1000, `_age <= days // 365 <= _age + 1`, 29 February births included |
| `CivilDates.LastBirthday` | app/services/profile_service.py:19-23 | The calendar age counts to the last birthday, which 365 days a year and the leap days lived through reach |
| `CivilDates.FastAgeAheadExactly` | app/repositories/user_repo.py:189-191 | Up to age 1000 the fast age is one ahead iff the days since the last birthday and the leap days lived through come to 365 |
| `CivilDates.FastAgeCanBeAhead` | app/repositories/user_repo.py:189-191 | The extra year occurs a day before a birthday |
| `CivilDates.MonthOfIsMonth` | app/services/admin_analytics_service.py:113-121 | The month key of a day is the month whose first day is the last one not after it |
| `Series.FillSeries` | app/services/admin_analytics_service.py:123-144 | One bucket per step of the range, each holding the sum of its days' counts; the total is that of the days whose bucket exists |
| `Series.EmptyBuckets` | app/services/admin_analytics_service.py:123-134 | The buckets are exactly those some step of the range falls in |
| `Series.Revenue` | app/services/admin_analytics_service.py:258-277 | Each bucket holds the sum of the amounts of the rows in the range whose day falls into it; the series total equals the ungrouped sum whenever the range is lossless |
| `Series.BucketsHoldTheirRows` | app/services/admin_analytics_service.py:102-111 | Summing per day and then per bucket puts every row's amount into the bucket of its own day |
| `Series.BucketHoldsInstant` | app/services/admin_analytics_service.py:113-121 | An instant's bucket is the hour, day, Monday week or calendar month that holds it |
| `Series.RangeOutcome` | app/services/admin_analytics_service.py:51-72 | Start, end and granularity for each text of a range, and the one error |
| `Series.ConservesIffLossless` | app/services/admin_analytics_service.py:169-173 | A range keeps the total for all rows iff no instant of it falls on a day without a bucket |
| `Series.LosslessExactly` | app/services/admin_analytics_service.py:113-144 | For day, week and month series only the last day can be lost, and it is lost iff the range starts later in the day than it ends and no earlier day of the range shares its bucket |
| `Series.MidnightStartIsLossless` | app/services/admin_analytics_service.py:123-144 | A midnight start loses nothing at any granularity |
| `Series.HourlyIsLossless` | app/services/admin_analytics_service.py:51-72 | Hourly series never lose a count |
| `Series.SevenDaysDropsToday` | app/services/admin_analytics_service.py:51-72 | "7d" keeps the total iff the clock is at midnight |
| `Series.WeeklyDropsMondays` | app/services/admin_analytics_service.py:51-72 | The weekly presets keep it iff the clock is at midnight or it is not Monday |
| `Campaigns.Worker.Process` | app/services/notification_campaign_service.py:120-156 | After any number of surviving commits the committed row and notifications are the specified ones |
| `Campaigns.BatchesPartition` | app/services/notification_campaign_service.py:133-151 | After k commits `delivered_count` is `min(1000 * k, n)` and commit k added exactly the k-th batch |
| `Campaigns.CrashFree` | app/services/notification_campaign_service.py:120-156 | Without a crash each target is notified once and the counts agree |
| `Campaigns.CountsAgreeWhenDone` | app/services/notification_campaign_service.py:120-156 | Over any crashes and reruns from a fresh campaign, the counts of a finished one agree iff the completing attempt had an audience or no earlier attempt committed a batch |
| `Campaigns.EmptyRerunKeepsCount` | app/services/notification_campaign_service.py:128-156 | A crash before the last commit and a rerun without targets finish with a delivered count of 1 and a target count of 0 |
| `Campaigns.AtMostOncePerAttempt` | app/services/notification_campaign_service.py:120-156 | Over crashes and reruns a user gets at most one notification per attempt that targeted them |
| `Campaigns.CompletingAttemptReachesAll` | app/services/notification_campaign_service.py:120-156 | Everyone in the completing attempt's audience is notified |
| `Campaigns.DoneForGood` | app/services/notification_campaign_service.py:125-126 | After DONE reruns change nothing |
| `Campaigns.PremiumAudienceExact` | app/services/notification_campaign_service.py:78-87 | In every billing run the joined audience has no duplicates and is exactly the premium users not deleted |
| `RateLimit.ParseLimitRoundTrip` | app/security/rate_limit.py:27-30 | A printed limit parses to its numbers, for each unit |
| `RateLimit.ParseLimitExactly` | app/security/rate_limit.py:27-30 | A text parses iff it is a count, a slash, a number and one of the units m, h, d, and then to that many times 60, 3600 or 86400 seconds |
| `RateLimit.Limiter.CheckRateLimit` | app/security/rate_limit.py:33-52 | Increment, expiry and failing open as specified |
| `RateLimit.CounterIsExact` | app/security/rate_limit.py:40-46 | With Redis up a window's counter is the number of its requests and outlives the window |
| `RateLimit.WindowAdmits` | app/security/rate_limit.py:40-52 | Admissions in an aligned window are `min(requests, limit)` |
| `RateLimit.SpanAdmitsTwice` | app/security/rate_limit.py:40-52 | Any span of one window's length admits at most twice the limit |
| `RateLimit.BurstBreaksTheLimit` | app/security/rate_limit.py:1 | A span that admits limit + 1, for every limit and window of two seconds or more |
| `RateLimit.SlidesExactly` | app/security/rate_limit.py:1 | The sliding-window promise holds iff nothing is admitted or a window is one second |
| `RateLimit.OutageNeverLocksOut` | app/security/rate_limit.py:43-48 | Under any failures a request is refused only if its window already saw at least the limit of requests |
| `RateLimit.FailsOpen` | app/security/rate_limit.py:43-48 | With Redis down, or failing at a window's first request, the request is let through |
| `Messages.Session.UnreadCount` | app/repositories/message_repo.py:72-79 | The count of others' unread, undeleted messages in the conversation |
| `Messages.Session.MarkConversationRead` | app/repositories/message_repo.py:81-96 | Exactly the rows the query returned become read |
| `Messages.UnreadIsExact` | app/repositories/message_repo.py:72-79 | Counted are others' messages of the conversation, neither read nor deleted |
| `Messages.SendingAddsOne` | app/repositories/message_repo.py:72-79 | A message sent is one more to read for everyone else in its conversation and changes no other count |
| `Messages.MarkedAreRead` | app/repositories/message_repo.py:81-96 | The rows marked are read as of now and nothing else of any message changes |
| `Messages.MarkSettlesABatch` | app/repositories/message_repo.py:81-96 | One call settles 500 of the pending messages, or all, and touches nothing else |
| `Messages.ClearsExactly` | app/services/message_service.py:115-117 | A call is certain to bring the unread count to zero iff it is zero already or at most 500 messages, deleted ones included, are pending |
| `Messages.DeletedFillTheBatch` | app/repositories/message_repo.py:81-96 | With one message to read among 500 or more deleted ones a call can leave it unread |
| `Messages.CallsSettleAll` | app/services/message_service.py:115-117 | Repeated calls settle 500 each, and enough of them bring the count to zero |
| `AppConfig.Find` | app/services/app_config_service.py:141-145 | The row with the key, or none exactly when there is none |
| `AppConfigTheorems.RunKeepsTable` | app/services/app_config_service.py:147-225 | In every run keys stay distinct, values fit their type, rows are never removed and keys and types never change |
| `AppConfigOutcomes.CreateOutcome` | app/services/app_config_service.py:147-179 | A creation commits iff its key matches and is new and its value may be stored; it appends its row, and each refusal has its reason |
| `AppConfigOutcomes.UpdateOutcome` | app/services/app_config_service.py:181-211 | An update commits iff the key exists and a given value may be stored; the one row takes the given fields and keeps the others |
| `AppConfigOutcomes.DeactivateOutcome` | app/services/app_config_service.py:213-225 | A deactivation hides the one row with the key and changes nothing else |
| `AppConfigOutcomes.KeysExactly` | app/services/app_config_service.py:31-61 | A key matches iff it is at least two words joined by dots, the first starting with a letter, with or without a final line feed |
| `AppConfigOutcomes.ColorsExactly` | app/services/app_config_service.py:32-79 | A colour matches iff it is a hash sign and three or six hex digits, with or without a final line feed |
| `AppConfigOutcomes.ValueTypes` | app/services/app_config_service.py:35-52 | Which value types each kind of value fits |
| `AppConfigOutcomes.GroupIsSmallName` | app/services/app_config_keys.py:366-367 | A category's group is its name in small letters |
| `AppConfigOutcomes.FeatureNames` | app/services/app_config_keys.py:374-388 | A feature is named without its prefix |
| `AppConfigOutcomes.SupportNames` | app/services/app_config_keys.py:384-387 | The support address and number are named email and phone |
| `AppConfigOutcomes.OtherNames` | app/services/app_config_keys.py:374-388 | Any other key is named by what follows its first dot |
| `AppConfigTheorems.ListingIsVisibleRows` | app/repositories/app_config_repo.py:39-45 | The listing holds exactly the public, active rows |
| `AppConfigTheorems.ListingIsSorted` | app/repositories/app_config_repo.py:39-45 | It is ordered by category and key |
| `AppConfigTheorems.EntryHasWinner` | app/services/app_config_service.py:106-111 | An entry is served iff a visible row is placed there, with the value of the one with the greatest key |
| `AppConfigTheorems.ServedIsWinner` | app/services/app_config_service.py:106-111 | With distinct keys, what is served at an entry is the value of its one winner |
| `AppConfigTheorems.NothingHiddenIsServed` | app/services/app_config_service.py:90-111 | Whatever is served is the value of a public, active row of that category and public name |
| `AppConfigTheorems.EverythingServedExactly` | app/services/app_config_service.py:106-111 | Every public, active row is served iff no two of them claim one entry with different values |
| `AppConfigTheorems.FeaturePrefixesClash` | app/services/app_config_keys.py:374-388 | A feature key with and without its prefix are both valid, and with different values one of the two rows is not served |
| `AppConfigTheorems.FeatureIsAccepted` | app/services/app_config_service.py:147-179 | A switch for a new feature is accepted and appended |
| `AppConfigTheorems.ClashIsReached` | app/services/app_config_service.py:147-179 | Two accepted creates from an empty table, with and without the prefix, leave a public, active row unserved |
| `AppConfigTheorems.VersionIsVisibleValues` | app/services/app_config_service.py:113-116 | The version stands for exactly the visible keys and their values |
| `AppConfigTheorems.VersionFixesData` | app/services/app_config_service.py:113-116 | Tables that agree on categories and have equal versions have equal payloads |
| `AppConfigTheorems.UpdateShowsInVersion` | app/services/app_config_service.py:181-211 | An update changes the version iff it changes the row's visibility, or its value while visible |
| `AppConfigTheorems.MoveShows` | app/services/app_config_service.py:106-111 | Moving a visible row to another category leaves the payload as it is iff, in both groups, the other rows at its name make up for it: their winner has a greater key or the same value |
| `AppConfigTheorems.UpdatesTheVersionMisses` | app/services/app_config_service.py:106-116 | An update changes the payload under an unchanged version iff it moves a visible row to another category with its value kept and the row is not made up for in both groups |
| `AppConfigTheorems.ChangesTheVersionMisses` | app/services/app_config_service.py:147-225 | Of all accepted creates, updates and deactivations, exactly those updates change the payload under an unchanged version |
| `AppConfigTheorems.MovesAreMissed` | app/services/app_config_service.py:106-116 | Where visible rows have entries of their own, every such move is missed |
| `AppConfigTheorems.FirstMoveIsMissed` | app/services/app_config_service.py:147-211 | After any accepted public, active first creation, moving the row to another category is missed |
| `AppConfigStaleness.ServedWasCommitted` | app/services/app_config_service.py:90-104 | Under any interleaving and any Redis failures a served payload and version are those of one committed table, read by a request whose cache write is less than the time to live ago |
| `AppConfigStaleness.BoundedStaleness` | app/services/app_config_service.py:227-251 | So it was current within the last time to live plus the caching request's read-to-write delay |
| `AppConfigStaleness.HitExactly` | app/services/app_config_service.py:90-104 | A request is answered from the cache iff it reaches Redis while a kept copy is less than 900 seconds old, with what that copy's query saw; else it goes on to query |
| `AppConfigStaleness.OvertakenServesOld` | app/api/v1/admin_app_config.py:67-107 | With Redis up throughout, a read between the invalidation and the commit makes the old payload be served for the whole time to live |
| `AppConfigStaleness.StaleExactly` | app/services/app_config_service.py:90-104 | Under any interleaving and any failures the copy is stale iff the request whose copy was kept queried when the payload was another |
| `AppConfigStaleness.StaleNeedsOvertaking` | app/services/app_config_service.py:181-251 | With every change's invalidation reaching Redis, before or after its commit, a stale copy needs a request that queried before a change's commit, wrote after its invalidation and was kept; and such a request leaves one unless the payload it read came back |
| `AppConfigStaleness.OneChangeStaleExactly` | app/api/v1/admin_app_config.py:67-107 | Around a single change the copy ends up stale iff the request that wrote it queried before the commit and wrote after the invalidation |
| `AppConfigStaleness.HitsAreCurrent` | app/services/app_config_service.py:90-104 | With any number of requests in flight, while none overtakes a change every payload served from the cache is the current one |
| `AppConfigStaleness.SerialIsCurrent` | app/services/app_config_service.py:90-104 | With requests one at a time and invalidations reaching Redis, every answer is the current rows' |
| `AppConfigService.Service.Group` | app/services/app_config_service.py:106-111 | The loop builds the specified grouping |
| `AppConfigService.Service.ComputeVersion` | app/services/app_config_service.py:113-116 | The loop builds the specified key-value map |
| `AppConfigService.Service.GetPublic` | app/services/app_config_service.py:90-104 | A whole request answers and leaves the cache as its three atomic actions in a row do |
| `AppConfigService.Service.CreateEntry` | app/services/app_config_service.py:147-179 | The row is added and the cache dropped, or an error leaves both alone |
| `AppConfigService.Service.UpdateEntry` | app/services/app_config_service.py:181-211 | Only the given fields change and the cache is dropped, or an error leaves both alone |
| `AppConfigService.Service.DeactivateEntry` | app/services/app_config_service.py:213-225 | The row stays, inactive, and the cache is dropped |

## Left out

- HTTP routing, request schemas, authentication of the acting user, audit rows, notification rows, logging and SQL session mechanics; only the rule that an error before the commit leaves the tables unchanged is kept.
- Identifier parsing: ids are table indices, and a webhook identifier carries the internal id its text parses to, if any.
- A request reads the clock once; two readings in one request are taken as equal.
- Payment providers, storage, mail, password hashing and token signing: webhook verification is taken as done, a new jti is an input, the version's hash is taken as collision-free.
- Interleavings inside uncommitted transactions, except for the configuration cache, whose steps do interleave there.
- `upper()` and `lower()` are modelled for ASCII letters, and `isdigit()` cursors for ASCII digits.
- Scoring.ScoreBounds: over exact reals with half-to-even rounding of the exact value; binary floating-point rounding is not modelled.
- Scoring.NearSymmetry: over exact reals, as above.
- Series.FillSeries: buckets come in insertion order; the final sort of the output by its text key is not modelled, and instants are UTC.
- Series.SevenDaysDropsToday: requires a clock at least 90 days after the calendar's first day, below which the subtraction overflows in the source.
- RateLimit.WindowAdmits: a window of zero seconds, which the source parses but cannot divide by, is excluded; limits read from the settings are positive.
- RateLimit.ParseLimitRoundTrip: spaces, signs and underscores, which integer parsing also accepts, are not modelled.
- Campaigns.Worker.Process: start and completion timestamps, scheduling and the missing-campaign reply are not modelled.
- Campaigns.PremiumAudienceExact: the other audiences are single-table filters and would add easy members.
- AppConfig.Find: descriptions, `updated_by` and the registry of known keys are not modelled.
- AppConfigTheorems.ListingIsSorted: keys are ordered by code point, where the database's collation may differ.
- AppConfigService.Service.CommitDraft: a commit that the database refuses is a rollback and changes nothing.
- Feed.FeedEndpoint.BuildFeed: one viewer's cache; swipes and blocks do not invalidate it in the source, so a cached feed may hold users who are candidates no more.
- BillingService.Session.ReviewVerification: the reviewer's notes, identity and rejection reason are not modelled.
- Series.Revenue: the rows are the payments in SUCCESS with the time they were paid; the filter on status is taken as applied.
- SocialGraphOutcomes.SwipeOutcome: the answer's row ids and the notifications are not modelled.
- Messages.Session.MarkConversationRead: the rows the query returns are an input, since the query has no order; new messages arriving between calls are not modelled.
- Candidates.CandidatesFor: the optional discovery filters are not passed by this caller, and REQUIRED preference filters are not applied in the source.
- The profile-share expiry sweep, which is the subscription sweep on another table.
- The worker's copy of the webhook handler, which never commits.
- Message paging by `before`, `distance_km`, and the engagement and moderation series.
- Sending a message does not re-check match or block in the source; nothing is claimed about it.
- Refunds do not shorten subscriptions in the source, so refunded time counts as sold.
- Permission tables, photos, family, astrology and preference editing, the admin web application, migrations and seed data.
