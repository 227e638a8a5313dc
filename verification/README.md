# Verification of the hard core of Compass Tools

This project models the parts of the Compass Tools CRM whose correctness depends on more than reading one
function: an in-place image algorithm, calendar arithmetic, protocols between browser tabs and between
concurrent server calls, a data reconciliation, and some codecs and arithmetic. Each file holds one module.

| module | what it models |
|---|---|
| `LogoProcessing` | the background fill of uploaded logos, on arrays, with the caller that decides whether to use it |
| `CivilCalendar`, `PayPeriods`, `ReportRanges`, `CivilZone`, `HireAge` | Gregorian days, the agency's pay periods, report selections, civil days as instants in a zone with changing offsets, and the length of service |
| `SharedPoll` | leadership between tabs over one lock that can be stolen |
| `BookingNotification` | the team e-mail claimed through a unique row |
| `LeadIntake`, `ContactResolution` | idempotent creation of a website lead and its contact |
| `ContactReassignment` | compare-and-set moves of a contact's owner |
| `QuoteStatus` | the quote status machine and its side effects |
| `AirlineHistory` | re-pointing old flight segments, with an undo that survives interruption |
| `SeedParsing`, `CuratedAirlines` | reading the airline seed data and correcting its rows in place |
| `CardValidation`, `LikePattern`, `Money` | card checksum and grouping, LIKE escaping, rounding and conversion |
| `Text`, `Arithmetic` | strings and division, shared by the others |

How to read the models:

- A protocol is a state machine: one step is one transaction, one callback or one failure, and calls interleave
  freely. `Inv` is kept by every step, `IsRun` and its relatives describe whole runs, and the main results speak about every
  state of every run. Where the program is a sequence of updates there is also a class with its fields, whose methods are
  proved to make exactly those steps.
- Loops and in-place updates are methods proved against functions or properties of the old state; the results
  about those functions are lemmas.
- What is taken from elsewhere (Prisma, Web Locks, Gmail, Intl, libphonenumber, sharp) is a parameter or a step rule:
  a lock excludes and can be stolen, a unique index excludes, a serializable transaction is one step, any call may fail.

Where the code does something else than its comments say, the model follows the code and a lemma gives the input:

- `resolveReportRange` returns undefined for the periods `constructor` and `__proto__` (`AnswersUnlessInherited`).
- While another live tab holds the lock, a tab that is shown takes over exactly if it has no loop: one that has lost the lock
  but has not been told yet does not (`ShownTabLeadsExactly`).
- The team e-mail goes out again for every send whose answer is lost, and after the downgrade of a row whose final update failed
  (`MessagesAccounted`).
- `undoRepoint` also moves a segment that somebody, not the run, had moved to its new airline (`UndoRestores`).
- `reconcileQuoteStatus` without a transaction reports a refused move as made (`WhenReportIsRight`).
- A civil day starts at the right instant exactly if no change of offset harms its midnight; west of Greenwich a skipped midnight does
  (`StartIsExact`).
- `Date.UTC` reads the years 0 to 99 as 1900 to 1999 (`AddDaysExact`, `DaysInMonthExact`,
  `NeighboursExactly`, `CoversExactly`, `PreviousRangeTouches`).
- `convertToUsd` recovers every whole-cent amount exactly if the rate is at least 1 (`RoundTripIsExact`).

Two more results say when something holds that one might expect: the converted parts of bookings add up to the converted total exactly
at whole rates (`PartsAddUpExactly`), and a curated file keeps all its entries exactly if no `own` is the finished row of an earlier one
(`SettlesExactly`).

## Model

| member | source | states |
|---|---|---|
| `LogoProcessing.FloodFillBackgroundMask` | src/lib/logo-processing.ts:202-238 | a pixel is marked exactly when a chain of 4-adjacent pixels, each within the colour threshold of `bg`, joins it to some border pixel; no chain wraps from one row to the next |
| `LogoProcessing.EnclosedIsNotBackground` | src/lib/logo-processing.ts:199-202 | a region of matching pixels cut off from the border (the inside of an O) is never background |
| `LogoProcessing.BackgroundFill.MaybeEnqueue` | src/lib/logo-processing.ts:207-216 | one visit keeps the working state sound, looks at the cell if it is in the image, and leaves fewer unvisited pixels whenever the stack grows |
| `LogoProcessing.BackgroundFill.Run` | src/lib/logo-processing.ts:218-238 | seeding and spreading end, with the mask equal to the border-reachable region in both directions |
| `LogoProcessing.MaybeRemoveFlatBackground` | src/lib/logo-processing.ts:105-144 | acts exactly for four channels, both sides at least 32, no meaningful transparency, agreeing corners and at least 15% marked; then zeroes alpha on exactly the marked pixels and keeps every other byte; otherwise hands back the input |
| `LogoProcessing.ClearAlpha` | src/lib/logo-processing.ts:132-135 | only the alpha bytes of marked pixels change, to zero |
| `LogoProcessing.CountMarked` | src/lib/logo-processing.ts:123-124 | the reduction is the number of marked pixels |
| `LogoProcessing.HasMeaningfulExistingTransparency` | src/lib/logo-processing.ts:146-155 | true exactly when more than one in twenty of the sampled pixels has alpha below 250 |
| `LogoProcessing.SamplesInImage` | src/lib/logo-processing.ts:148-153 | the rounded-up quotient is the number of sampled pixels, all of them in the image |
| `LogoProcessing.SampleSize` | src/lib/logo-processing.ts:149-153 | images of less than 10000 pixels are sampled in full, others at 5000 to 9999 pixels |
| `LogoProcessing.TransparencyIsAShare` | src/lib/logo-processing.ts:146-155 | transparency is meaningful exactly if more than 5% of the sampled pixels have alpha below 250 |
| `LogoProcessing.OpaqueAndClear` | src/lib/logo-processing.ts:146-155 | an opaque image has no meaningful transparency, a fully transparent one has |
| `LogoProcessing.SampleCornerColor` | src/lib/logo-processing.ts:169-180 | the mean of the top left block if the other three means are within the threshold of it, else nothing |
| `LogoProcessing.AverageBlock` | src/lib/logo-processing.ts:182-197 | the exact mean of the sixteen pixels of a corner block |
| `LogoProcessing.UniformBlock` | src/lib/logo-processing.ts:182-197 | the mean of a block of one colour is that colour |
| `LogoProcessing.MeanOfSixteen` | src/lib/logo-processing.ts:182-197 | for any block, 16 times the mean is the sum of its sixteen pixels, each counted once, channel by channel |
| `LogoProcessing.CornersDecide` | src/lib/logo-processing.ts:169-180 | with corner blocks each of one colour the answer is that of the top left one if each of the other three is close to it, and nothing otherwise |
| `LogoProcessing.UnlikeCornersAreNoBackdrop` | src/lib/logo-processing.ts:113-116 | so an image with such a corner that is not close to the first is handed back |
| `LogoProcessing.LikeCornersAreBackdrop` | src/lib/logo-processing.ts:105-144 | an opaque image with like corners is changed if and only if the background of that colour is at least 15% of it |
| `LogoProcessing.OneChannelApart` | src/lib/logo-processing.ts:162-164 | colours that differ in one channel, whichever it is, are close exactly up to a difference of 18 |
| `LogoProcessing.NeighboursAreOneApart` | src/lib/logo-processing.ts:207-238 | neighbours are one column or one row apart, and rows do not run on |
| `CivilCalendar.NumbersCountDays` | src/lib/pay-period.ts:45-48 | day numbers (MakeDay of section 21.4.1 of ECMA-262) count days: the epoch is day 0 and the next date of the calendar has the next number |
| `CivilCalendar.DayRoundTrip` | src/lib/pay-period.ts:45-48 | every day number reads back as a real date with that number |
| `CivilCalendar.CivilRoundTrip` | src/lib/pay-period.ts:45-48 | every real date is read back from its number |
| `CivilCalendar.OrderIsDayOrder` | src/lib/pay-period.ts:55-59 | `compareCivil` orders dates as their day numbers do, and is 0 exactly for equal dates |
| `CivilCalendar.AddDaysExact` | src/lib/pay-period.ts:45-48 | `addDays` moves by exactly the given days if and only if the year is not one of 0 to 99, which Date.UTC reads as 19xx |
| `CivilCalendar.AddDaysInverse` | src/lib/pay-period.ts:45-63 | adding and taking back days is the identity and `daysBetween` recovers the number |
| `CivilCalendar.AddOneIsTomorrow` | src/lib/pay-period.ts:45-48 | one day later is the calendar's next day |
| `CivilCalendar.DaysInMonthExact` | src/lib/pay-period.ts:37-39 | `daysInMonth` is the Gregorian month length except, exactly, for February of year 0 |
| `CivilCalendar.AddMonthsExact` | src/lib/pay-period.ts:50-53 | `addMonths` gives the right real month if and only if the month index is not negative or is a whole number of years (the remainder truncates) |
| `PayPeriods.ContainingIsIndexed` | src/lib/pay-period.ts:132-143 | `payPeriodContaining` picks the period with the index given by the 5th/20th rule |
| `PayPeriods.PeriodsPartition` | src/lib/pay-period.ts:132-143 | each date lies in exactly one period, that of its index |
| `PayPeriods.PeriodsTouch` | src/lib/pay-period.ts:132-143 | a period starts on the day after the one before it ends |
| `PayPeriods.PeriodOfEveryDay` | src/lib/pay-period.ts:132-143 | each day is inside its period, and every day of a period maps to that same period |
| `PayPeriods.NeighboursExactly` | src/lib/pay-period.ts:146-147 | next and previous are the neighbouring periods (so they are inverse) if and only if the year they start from is not one Date.UTC misreads |
| `PayPeriods.KeysAreUnique` | src/lib/pay-period.ts:127-130 | no two periods share a key |
| `PayPeriods.KeyRoundTrip` | src/lib/pay-period.ts:150-160 | reading back a period's key gives the period if and only if its pay year is 1900 to 2200 |
| `PayPeriods.AcceptedKeyIsTheKey` | src/lib/pay-period.ts:150-160 | any accepted text is, trimmed, the key of the period returned |
| `PayPeriods.RecentPayPeriods` | src/lib/pay-period.ts:336-340 | the list starts with the current period, has the requested length (at least 1) and each next element is the previous period: no gaps |
| `ReportRanges.IsoRoundTrip` | src/lib/pay-period.ts:41-78 | printing then parsing a date is the identity exactly on valid dates |
| `ReportRanges.AcceptedIsoIsTheDate` | src/lib/pay-period.ts:71-78 | any accepted text is, trimmed, the valid date it is read as |
| `ReportRanges.AnswersUnlessInherited` | src/lib/pay-period.ts:184-305 | the function answers unless nothing else is selected and the trimmed lower-case period is `constructor` or `__proto__`, which object literals inherit; then it returns undefined |
| `ReportRanges.UndefinedForConstructor` | src/lib/pay-period.ts:274-305 | the concrete input for which it returns undefined, although the comment at line 226 promises a fallback |
| `ReportRanges.NamedKindIsResolved` | src/lib/pay-period.ts:184-196 | the name of each kind resolves to that kind, bare `custom` to a warning |
| `ReportRanges.ShortNames` | src/lib/pay-period.ts:184-189 | `pay` and `previous` answer as `pay-period` and `previous-pay-period` |
| `ReportRanges.CaseIsIgnored` | src/lib/pay-period.ts:274-276 | names that differ in case, or in white space around them, get the same answer |
| `ReportRanges.KeyIsAnswered` | src/lib/pay-period.ts:261-271 | without dates, the key of a pay period from 1900 to 2200 selects exactly the days of that period, whatever kind is named |
| `ReportRanges.NothingSelectedIsCurrent` | src/lib/pay-period.ts:274-279 | without dates and key, no name or an unknown one selects exactly the days of today's pay period, without warning |
| `ReportRanges.DatesAreAnswered` | src/lib/pay-period.ts:243-259 | two valid dates in order select exactly the days from one to the other |
| `ReportRanges.PeriodIsRecognised` | src/lib/pay-period.ts:249-257 | explicit dates are recognised as the current or the previous period exactly if they are its first and last day |
| `ReportRanges.SelectionPriority` | src/lib/pay-period.ts:243-274 | explicit dates win over a key, a key over a kind, and surrounding white space is immaterial |
| `ReportRanges.WarnsExactly` | src/lib/pay-period.ts:243-303 | a warning comes with the current period, exactly for unusable dates, an unreadable key or bare `custom` |
| `ReportRanges.RangeCoversSelection` | src/lib/pay-period.ts:229-305 | every answer has from <= to (or is unbounded for `all`), and holds exactly the days its selection is meant to cover if a week or previous period steps from no year Date.UTC misreads |
| `ReportRanges.CoversExactly` | src/lib/pay-period.ts:229-305 | for every today and selection, the answer holds exactly those days if and only if it steps from no such year (today's and the Sunday's for a week, that of the current period's first day for the previous period; no condition for the rest) |
| `ReportRanges.LaterTodaysAreRead` | src/lib/pay-period.ts:229-327 | from the year 102 on every selection and comparison meets these conditions |
| `ReportRanges.WeekIsExact` | src/lib/pay-period.ts:296-299 | for every real date the week range holds exactly the days of its Sunday-to-Saturday week if and only if neither the year of today nor that of the Sunday is one of 0 to 99 |
| `ReportRanges.MisreadWeekMissesToday` | src/lib/pay-period.ts:296-299 | if today's year is misread, the range does not even hold today |
| `ReportRanges.MisreadSundayRunsOn` | src/lib/pay-period.ts:296-299 | if only the Sunday's is, the range runs on over the next Sunday |
| `ReportRanges.CurrentFlagIsExact` | src/lib/pay-period.ts:229-305 | `isCurrentPayPeriod` is true exactly when the range equals the current period |
| `ReportRanges.PrecedingDays` | src/lib/pay-period.ts:323-326 | for every ordered range of real dates the general branch gives as many days, ending the day before, if and only if neither the years of its ends nor that of the day before are misread |
| `ReportRanges.PreviousRangeTouches` | src/lib/pay-period.ts:312-327 | for every answer: the previous range ends on the day before `from` and, unless the answer is a pay period or whole month, has as many days, if and only if no year stepped from is misread (none is for whole months) |
| `ReportRanges.PreviousRangeHolds` | src/lib/pay-period.ts:312-327 | which days the previous range holds, for every answer that steps from no misread year: the pay period before, the month before, or as many days directly before |
| `ReportRanges.OtherRangesStepByDays` | src/lib/pay-period.ts:314-326 | a range that carries a pay period it does not equal is compared by days |
| `CivilZone.StartOfCivilDay` | src/lib/pay-period.ts:111-118 | the two-step correction as a method: for whole-second offsets below a day that change at most every two days, the instant returned separates the instants of earlier dates from the others if and only if no change of offset harms that midnight |
| `CivilZone.StartIsExact` | src/lib/pay-period.ts:104-118 | the same equivalence for every day number near which Date.UTC misreads no year |
| `CivilZone.CivilRangeToInstants` | src/lib/pay-period.ts:120-123 | for such a zone, if the first midnight of the range and the one after its end are unharmed, an instant is in [start, endExclusive) exactly when its civil date is between `from` and `to` |
| `CivilZone.RangeIsExact` | src/lib/pay-period.ts:98-123 | that equivalence for all instants; nothing is asked of any other midnight of the zone |
| `CivilZone.LaterDatesArePlain` | src/lib/pay-period.ts:98-123 | every date after the year 100 meets the conditions on years |
| `CivilZone.TwoOClockChangesAreFine` | src/lib/pay-period.ts:17-17 | a zone all of whose changes, however many, move the clock by an hour when it shows two, as the business zone does, harms no midnight |
| `CivilZone.SummerTimeIsFine` | src/lib/pay-period.ts:17-17 | there are such zones: an hour forward at two and back at two, with any whole-second standard offset |
| `CivilZone.SkippedMidnightIsMissed` | src/lib/pay-period.ts:111-118 | west of Greenwich a skipped midnight gives a start on the day before |
| `HireAge.FormatHireAgeCompact` | src/lib/account-format.ts:45-72 | null without a hire date; else, for today outside the years 0 to 100 and any hire date, the answer is right (null for a date to come, otherwise the text of the unique age) if and only if Date.UTC does not read a past hire date as a future one |
| `HireAge.AgeTextShows` | src/lib/account-format.ts:71-71 | the text reads back as the years, the months below twelve and the days |
| `HireAge.OldHireDatesOnly` | src/lib/account-format.ts:50-54 | which it only does for hire dates in the years 0 to 99, and never once it is 2000 |
| `HireAge.AncientHireDateIsRefused` | src/lib/account-format.ts:50-54 | such a hire date |
| `HireAge.AnniversaryIsClamped` | src/lib/account-format.ts:57-63 | the anniversary computed with Date.UTC is the same day a number of months later, clamped to a shorter month, if and only if its year is not one of 0 to 99 |
| `HireAge.StepsDownAtMostOnce` | src/lib/account-format.ts:65-68 | the calendar-month difference overshoots by at most one, so the loop steps down at most once |
| `HireAge.LeftoverDays` | src/lib/account-format.ts:69-69 | between 0 and 30 days are left over |
| `HireAge.AgeIsGreatest` | src/lib/account-format.ts:65-71 | the months are the greatest number whose clamped anniversary is not after today, so the age is unique |
| `SharedPoll.StepInv` | src/lib/use-shared-poll.ts:78-172 | every step (open, show, hide, grant, steal, notice, loop exit, unmount, close) keeps the invariant |
| `SharedPoll.RunInv` | src/lib/use-shared-poll.ts:78-172 | so every state of every run has it |
| `SharedPoll.LeadershipIsSafe` | src/lib/use-shared-poll.ts:102-135 | a polling loop holds the lock or its rejection notice is pending; with no notice pending at most one loop polls; every live tab leads, waits, has a steal in flight or a notice pending |
| `SharedPoll.InternalStepsSettle` | src/lib/use-shared-poll.ts:102-135 | every step nobody decides on lowers a measure |
| `SharedPoll.InternalRunsAreShort` | src/lib/use-shared-poll.ts:102-135 | so such steps alone come to rest |
| `SharedPoll.RestMeansNoStep` | src/lib/use-shared-poll.ts:102-135 | at rest means exactly that no such step is possible |
| `SharedPoll.OneLeaderAtRest` | src/lib/use-shared-poll.ts:102-135 | at rest, if any tab is live, exactly one loop polls, it holds the lock and every other live tab is queued: leadership is not lost |
| `SharedPoll.ShownTabLeadsExactly` | src/lib/use-shared-poll.ts:137-144 | with a live tab holding the lock and no steal in flight, a shown tab leads once the system is at rest if and only if it had no loop or held the lock itself; line 143 alone promises it always takes over |
| `SharedPoll.ShownTabLeads` | src/lib/use-shared-poll.ts:137-144 | the half that leads needs no live holder, and holds in every later state |
| `SharedPoll.ShownTabStaysBehind` | src/lib/use-shared-poll.ts:137-144 | the other half: in every run the system makes by itself the other tab keeps the lock |
| `SharedPoll.ShownTabMayWait` | src/lib/use-shared-poll.ts:137-144 | a run from the empty system that reaches the negative case of ShownTabLeadsExactly |
| `SharedPoll.WaitIsWithdrawn` | src/lib/use-shared-poll.ts:104-107 | a tab that is unmounted, or shown without a loop, takes the request it waits with out of the queue, and no other |
| `SharedPoll.OpenedTabLeadsExactly` | src/lib/use-shared-poll.ts:146-154 | with a live tab holding the lock and no steal in flight, an opened tab leads once the system is at rest if and only if it is visible; a hidden one leaves the lock where it is |
| `SharedPoll.OpenedTabLeads` | src/lib/use-shared-poll.ts:152-154 | a tab opened in the foreground is ahead in every later state and leads at rest, whoever held the lock |
| `SharedPoll.OpenedTabWaits` | src/lib/use-shared-poll.ts:149-151 | a tab opened in the background leaves the lock with its live holder in every later state, and is in the queue at rest |
| `SharedPoll.Browser.AskForLeadership` | src/lib/use-shared-poll.ts:102-135 | `requestLeadership` makes exactly the transition of the step system |
| `SharedPoll.Browser.StartEffect` | src/lib/use-shared-poll.ts:146-155 | the effect's start is the open step |
| `SharedPoll.Browser.HandleVisibility` | src/lib/use-shared-poll.ts:137-144 | `handleVisibility` is the show or hide step |
| `SharedPoll.Browser.LockGranted` | src/lib/use-shared-poll.ts:119-124 | the lock callback is the grant step |
| `SharedPoll.Browser.LockStolen` | src/lib/use-shared-poll.ts:126-134 | the rejection handler is the notice step |
| `SharedPoll.Browser.Cleanup` | src/lib/use-shared-poll.ts:163-172 | the cleanup function is the unmount step |
| `BookingNotification.StepInv` | src/server/booking-notification.ts:279-460 | every step of any number of concurrent calls keeps the claim invariant |
| `BookingNotification.OneCallSends` | src/server/booking-notification.ts:279-460 | at most one call is between its claim and the update that ends it (answered or not), and none is once another has succeeded |
| `BookingNotification.MessagesAccounted` | src/server/booking-notification.ts:396-457 | in every state of every run the messages sent are one for each send whose answer was lost, one for each downgrade of a row with a reported message, and the one behind the SENT row; so at most one was sent if and only if these come to at most one |
| `BookingNotification.DeliveriesAccounted` | src/server/booking-notification.ts:428-457 | the same account on the rows alone |
| `BookingNotification.MoreMessagesIffFree` | src/server/booking-notification.ts:286-303 | when no call is at work, another message can still go out if and only if the slot is free |
| `BookingNotification.UnheardClaimBlocks` | src/server/booking-notification.ts:282-306 | a claim that is stored without its caller hearing of it takes the slot for good, and no message goes out |
| `BookingNotification.SuccessIsFinal` | src/server/booking-notification.ts:299-304 | after a call reported success no later call changes a row or sends |
| `BookingNotification.FailureReopensSlot` | src/server/booking-notification.ts:428-457 | a call that fails and whose update goes through leaves the slot open |
| `BookingNotification.AtMostOneMessage` | src/server/booking-notification.ts:279-460 | if every send is answered and no final update fails after a message was reported as sent, at most one message goes out, whatever else fails or dies |
| `BookingNotification.SentMeansDelivered` | src/server/booking-notification.ts:279-460 | if moreover every claim is answered, no downgrade fails and nothing dies holding a claim, a row says SENT at rest exactly if a message went out |
| `BookingNotification.TwoMessages` | src/server/booking-notification.ts:428-457 | a run with such a downgrade and two messages |
| `BookingNotification.LostAnswerSendsTwice` | src/server/booking-notification.ts:398-426 | a run in which one call sends two messages, because the first was taken but reported as failed (src/server/email/gmail-send.ts:172-191) |
| `BookingNotification.CandidatesAreRecipients` | src/server/booking-notification.ts:384-385 | nobody is dropped or tried twice, and an active creator comes first |
| `BookingNotification.CandidatesInOrder` | src/server/booking-notification.ts:384-385 | an active creator, then the others in their order |
| `BookingNotification.BccList` | src/server/booking-notification.ts:359-365 | the blind-copy list holds no address twice, whatever its case, every recipient's address in its last spelling, and no other |
| `BookingNotification.Notifier.TrySenders` | src/server/booking-notification.ts:396-426 | the loop stops at the first candidate whose message is reported as sent, or that throws; the messages that went out are that one and those of earlier candidates whose answer was lost |
| `BookingNotification.Notifier.SendBookingProfitNotification` | src/server/booking-notification.ts:279-460 | one undisturbed call, as a run of the steps: its effect on the log table and the outbox for each way the claim, the sends, the final update and the downgrade may fail, with lost answers to the claim, the sends and the final update |
| `BookingNotification.RowCountsMessages` | src/server/booking-notification.ts:396-438 | the row such a call leaves counts exactly the messages it sent |
| `BookingNotification.RowTellsOutcome` | src/server/booking-notification.ts:428-457 | if the downgrade does not fail, the row of one call says SENT exactly if success was reported; if it does, FAILED only through a final update |
| `BookingNotification.OneMailboxIsEnough` | src/server/booking-notification.ts:396-439 | if any active user's mailbox takes the message and nothing throws, the call reports success and the row says SENT |
| `BookingNotification.UnheardAreThese` | src/server/booking-notification.ts:396-426 | the messages nobody heard of are those of the candidates whose answer was lost, each as often as it was tried |
| `ContactResolution.FindOrCreateOnce` | src/server/contact-resolution.ts:45-69 | after the transaction the same person matches, and asking again changes nothing |
| `ContactResolution.NewContactMatches` | src/lib/contact-matching.ts:12-31 | the contact stored for a person is found by the same person's phone |
| `ContactResolution.NewContactIsFound` | src/server/contact-resolution.ts:33-65 | a new contact holds the number in its normal form and the trimmed address, belongs to nobody, and is recognised by everyone of the company who gives the same number or address |
| `ContactResolution.MatchesMeans` | src/server/contact-resolution.ts:43-50 | who counts as the same customer, spelled out |
| `ContactResolution.DuplicateContactWhere` | src/lib/contact-matching.ts:12-31 | the alternatives built for a phone and an address select exactly the contacts with the number, raw or normalised, or the address without regard to case; the list is empty exactly if both are missing |
| `ContactResolution.FindFirstMatch` | src/server/contact-resolution.ts:47-51 | the query with these alternatives finds the first contact of the company that is the same customer, if there is one |
| `ContactResolution.ContactTable.ResolveContactForNewLead` | src/server/contact-resolution.ts:18-76 | at most three attempts, again only after a serialization conflict; a result is exactly one find-or-create, a failure changes nothing |
| `LeadIntake.OnlyTheLeadKeyCollides` | src/server/lead-intake.ts:86-94 | exactly which errors count as a duplicate: a uniqueness violation on Lead whose constraint, or without one whose target, names the primary key as a list or a text |
| `LeadIntake.UnquotedId` | src/server/lead-intake.ts:90-93 | which spellings of the column are accepted |
| `LeadIntake.MapLegs` | src/server/lead-intake.ts:120-124 | the loop over the legs gives the stored segments |
| `LeadIntake.LegsAreKept` | src/server/lead-intake.ts:167-178 | every leg is stored, in order, numbered 1..n |
| `LeadIntake.RouteIsFirstLeg` | src/server/lead-intake.ts:130-134 | the lead-level route and date are those of segment 1, and there is no return date |
| `LeadIntake.RowHoldsInquiry` | src/server/lead-intake.ts:116-182 | field by field, what is stored is what was sent: legs as numbered segments with the lead's route from the first, or the request's own route and dates, with no airport for a missing, empty or unknown code |
| `LeadIntake.StepInv` | src/server/lead-intake.ts:104-218 | every step of any number of requests, with failures and deaths anywhere, keeps the invariant |
| `LeadIntake.LeadStays` | src/server/lead-intake.ts:104-218 | a stored lead never changes or disappears |
| `LeadIntake.ReplyStays` | src/server/lead-intake.ts:104-218 | a given reply is never revised |
| `LeadIntake.OneLeadPerSubmission` | src/server/lead-intake.ts:136-142 | all created and duplicate replies for one key carry one id, that lead exists, and at most one reply is created |
| `LeadIntake.CollisionIsDuplicate` | src/server/lead-intake.ts:208-216 | a request whose lead another one has stored runs into the key, finds the row and answers duplicate |
| `LeadIntake.ContactIsResolved` | src/server/lead-intake.ts:146-150 | the contact of a request matches its sender: an existing one, with nothing added, or else a new one that belongs to nobody |
| `LeadIntake.LeadFollowsContact` | src/server/lead-intake.ts:152-155 | in every run a lead's agent is the owner its contact had when its request looked, and nobody for a new contact |
| `LeadIntake.LeadIsOfThisSubmission` | src/server/lead-intake.ts:158-199 | if ids derived from different keys differ, the lead was made from a request with this key and holds what that request asked for |
| `LeadIntake.OneContactPerPerson` | src/server/contact-resolution.ts:41-74 | no two contacts are ever made for the same person |
| `LeadIntake.ResendingIsHarmless` | src/server/lead-intake.ts:104-218 | a submission sent any number of times amid any other requests: every lead that came of it has the id of its key and holds what was sent, and no two contacts are made for its sender |
| `LeadIntake.OneSubmissionAlone` | src/server/lead-intake.ts:104-218 | if nothing else is sent, at most one lead and one new contact are left |
| `LeadIntake.OneActivityPerLead` | src/server/lead-intake.ts:192-207 | each lead has exactly one creation activity; distribution starts at most once, never for an owned lead, and once for every unowned lead reported as created, also if the request dies in between |
| `LeadIntake.Store.CreateWebsiteFlightLead` | src/server/lead-intake.ts:104-218 | one undisturbed request in every failure case: reply and tables, as a run of the steps |
| `AirlineHistory.CandidateIsTheJoin` | src/server/airline-history.ts:41-51 | with unique ids and codes a segment has a candidate exactly when two airline rows satisfy the join, and it is that one |
| `AirlineHistory.CandidatesAreOfSegments` | src/server/airline-history.ts:53-70 | the report lists exactly the candidates of the segments |
| `AirlineHistory.CandidateIdsDiffer` | src/server/airline-history.ts:53-70 | at most one per segment |
| `AirlineHistory.ReportCounts` | src/server/airline-history.ts:53-81 | the two numbers of the report are those of the segments on retired rows and of those among them that are no candidates |
| `AirlineHistory.OnRetiredMeans` | src/server/airline-history.ts:55-58 | a segment is on a retired row exactly if an inactive airline without code has its id |
| `AirlineHistory.BtrimDropsSpaces` | src/server/airline-history.ts:41-51 | btrim drops the spaces around a code |
| `AirlineHistory.UpperIsLarge` | src/server/airline-history.ts:41-51 | upper writes small letters large and nothing else |
| `AirlineHistory.ByPair` | src/server/airline-history.ts:71-79 | one row per pair that occurs, with its exact count, earliest and latest departure and the names of its first candidate; the counts add up to the number of candidates |
| `AirlineHistory.KeyIsThePair` | src/server/airline-history.ts:71-72 | a pair is the old and the new airline by id |
| `AirlineHistory.SegmentTable.ApplyRepoint` | src/server/airline-history.ts:91-102 | the undo list is complete before the first write; interrupted after any number of updates the table is that prefix applied, and the counters are right |
| `AirlineHistory.SegmentTable.UndoRepoint` | src/server/airline-history.ts:105-114 | the table and counters after the undo loop |
| `AirlineHistory.UndoRestores` | src/server/airline-history.ts:105-114 | for any table, undoing an interrupted run restores it if and only if no listed segment already pointed at its new airline |
| `AirlineHistory.LaterEditsSurvive` | src/server/airline-history.ts:104-112 | undo changes exactly the listed segments that still point at their new airline |
| `AirlineHistory.InterruptedRunIsUndone` | src/server/airline-history.ts:87-114 | a run made from a report on this table, stopped anywhere, is undone exactly |
| `AirlineHistory.CountersTell` | src/server/airline-history.ts:96-112 | both counters, from the table a run starts on: an update counts if its segment is where the list says it was, an undo if it is where the list says it went |
| `AirlineHistory.UndoCountsWhatWasDone` | src/server/airline-history.ts:105-113 | undoing a run interrupted after n updates restores n segments |
| `AirlineHistory.SecondRunFindsNothing` | src/server/airline-history.ts:15-15 | after a whole run a second report has no candidates and the same number of segments that cannot be inferred |
| `AirlineHistory.EveryUpdateHits` | src/server/airline-history.ts:94-101 | undisturbed, every update applies: `applied` is the number of candidates |
| `AirlineHistory.UndoMovesHandMadeChange` | src/server/airline-history.ts:104-114 | a witness of the exception of UndoRestores, with the undo list its own report gives: a segment moved by hand after the report is skipped by the run but moved by the undo |
| `CardValidation.LuhnCheck` | src/lib/card-validation.ts:43-58 | the right-to-left loop computes the check of Annex B of ISO/IEC 7812-1 on 12 to 19 digits |
| `CardValidation.WrongLengthIsRejected` | src/lib/card-validation.ts:43-45 | only texts with 12 to 19 digits are accepted, whatever stands between them |
| `CardValidation.SingleDigitErrorIsRejected` | src/lib/card-validation.ts:40-58 | changing one digit of an accepted number is always rejected, whatever else was typed around it |
| `CardValidation.NeighbourSwapIsRejected` | src/lib/card-validation.ts:40-58 | swapping neighbouring digits is accepted if and only if they are equal or are 0 and 9 |
| `CardValidation.OneCheckDigit` | src/lib/card-validation.ts:43-58 | each prefix of 11 to 18 digits has exactly one check digit |
| `CardValidation.BrandIsByRange` | src/lib/card-validation.ts:19-26 | the prefix patterns as ranges of the first four digits (Mastercard from 2220) |
| `CardValidation.ShortBrandIsByRange` | src/lib/card-validation.ts:19-26 | the same for one, two and three digits |
| `CardValidation.BrandIsFinal` | src/lib/card-validation.ts:19-26 | typing on never changes a brand that is shown |
| `CardValidation.FormatKeepsDigits` | src/lib/card-validation.ts:30-38 | stripping the formatted text gives the first 19 digits typed, 15 for American Express |
| `CardValidation.FormatIsIdempotent` | src/lib/card-validation.ts:30-38 | formatting twice is formatting once |
| `CardValidation.SpacesAreByGroup` | src/lib/card-validation.ts:28-38 | where the spaces are, and that none is last |
| `CardValidation.FormatKeepsChecksum` | src/lib/card-validation.ts:30-58 | formatting a number that fits its brand does not change whether it is accepted |
| `QuoteStatus.MovesAreBounded` | src/server/quote-status.ts:144-150 | every move but a cancellation gains a rank, so a quote makes at most as many as ranks are left from its first status |
| `QuoteStatus.RankRises` | src/server/quote-status.ts:64-101 | along the history of a quote ranks only rise, and only cancellations follow a cancellation |
| `QuoteStatus.MovesByOrder` | src/server/quote-status.ts:82-149 | which moves are accepted, by the order of the statuses alone |
| `QuoteStatus.EnteredOnce` | src/server/quote-status.ts:144-150 | no status but CANCELED is entered twice |
| `QuoteStatus.StepInv` | src/server/quote-status.ts:132-180 | every write and every firing of side effects keeps the invariant |
| `QuoteStatus.HistoryTellsEverything` | src/server/quote-status.ts:152-177 | in every run the history rows chain from the first status to the current one, rising; exactly the reached statuses with a column are stamped, each with the time it was last reached; `lastActivityAt` is the time of the last row; every activity is of a history row |
| `QuoteStatus.CanceledForGood` | src/server/quote-status.ts:145-147 | CANCELED is never left and history only grows |
| `QuoteStatus.AnnouncedAtMostOnce` | src/server/quote-status.ts:45-62 | READ, VIEWED and SIGNED are each announced at most once per quote, to its agent, only when reached, however often effects are fired |
| `QuoteStatus.MoveOwesEffects` | src/server/quote-status.ts:215-292 | every accepted move owes its side effects |
| `QuoteStatus.CompletedIsAnnounced` | src/server/quote-status.ts:169-181 | in every later state a move whose effects were started is in the activity log unless logging failed, and a milestone is announced to the agent unless that failed |
| `QuoteStatus.ReachedIsStamped` | src/server/quote-status.ts:103-163 | exactly SENT to CHARGED and CANCELED are stamped when reached |
| `QuoteStatus.SideEffects.FireSideEffects` | src/server/quote-status.ts:284-292 | the returned callback acts on its first call only, even if that call fails half-way |
| `QuoteStatus.QuoteStore.WriteQuoteStatus` | src/server/quote-status.ts:132-167 | nothing for a refused move, else status, timestamp, activity time and history row together |
| `QuoteStatus.QuoteStore.TransitionQuoteStatus` | src/server/quote-status.ts:210-219 | the write, then its side effects if it was accepted |
| `QuoteStatus.QuoteStore.ReconcileQuoteStatus` | src/server/quote-status.ts:263-293 | with the caller's transaction only the write and a callback that owes the effects, without it everything at once; nothing for other booking statuses |
| `QuoteStatus.RefusedMoveIsReported` | src/server/quote-status.ts:275-277 | a wrong report: a ticketed booking of a charged quote, without a transaction |
| `QuoteStatus.WhenReportIsRight` | src/server/quote-status.ts:275-282 | `transitioned` agrees with what happened if and only if a transaction was passed, there was no target, or the move was not refused |
| `ContactReassignment.StepInv` | src/server/contact-reassignment.ts:46-173 | every step of any number of concurrent reassignments keeps the invariant |
| `ContactReassignment.RecordsTellTheMoves` | src/server/contact-reassignment.ts:74-123 | activity rows chain from the first owner to the current one, never to the same owner, audit rows match one to one, and a call that lost or returned without moving wrote none |
| `ContactReassignment.RepeatedCallsMoveOnce` | src/server/contact-reassignment.ts:74-78 | calls that all ask for one owner move the contact at most once |
| `ContactReassignment.MovedAwayBetween` | src/server/contact-reassignment.ts:74-78 | two moves to the same owner have a move to somebody else between them |
| `ContactReassignment.QuietMeansAlreadyDone` | src/server/contact-reassignment.ts:124-131 | a call returns quietly without moving only if in that read the owner was the one it asked for |
| `ContactReassignment.ReadDecides` | src/server/contact-reassignment.ts:57-72 | the read ends a call that has nothing to do and else remembers the owner |
| `ContactReassignment.ClaimDecides` | src/server/contact-reassignment.ts:74-123 | the transaction moves the contact, with both records, if and only if the owner is the one remembered |
| `ContactReassignment.RereadDecides` | src/server/contact-reassignment.ts:124-131 | a call that lost succeeds quietly if and only if the owner is the one it wanted |
| `ContactReassignment.MoveIsTold` | src/server/contact-reassignment.ts:133-170 | after the move the previous owner, if any, is told and mailed, and the new one told |
| `ContactReassignment.RacingCallsConflict` | src/server/contact-reassignment.ts:74-131 | a run in which two calls for different owners race and the second conflicts |
| `ContactReassignment.CompletedToldEveryone` | src/server/contact-reassignment.ts:133-170 | a call that completed has notified the new owner and, if there was one, notified and mailed the previous owner; mails are queued once per completed move |
| `ContactReassignment.ToldOnce` | src/server/contact-reassignment.ts:135-153 | each party of a recorded move is notified of it at most once, and of no other |
| `ContactReassignment.Contact.PerformContactReassignment` | src/server/contact-reassignment.ts:46-173 | one call, with other moves before its transaction and before its second read: result, records, notices and mails |
| `SeedParsing.ParseCsvLine` | prisma/seed-data/parse.ts:67-90 | the loop computes the recursive reading of a line |
| `SeedParsing.PrintThenParse` | prisma/seed-data/parse.ts:67-90 | every non-empty list of fields of any characters is read back from every way section 2 of RFC 4180 allows to write it |
| `SeedParsing.QuotedPartIsRead` | prisma/seed-data/parse.ts:67-90 | quotes in the middle of a field open a part in which commas and doubled quotes belong to it |
| `SeedParsing.OpenQuoteIsRead` | prisma/seed-data/parse.ts:67-90 | a quote that is never closed runs to the end of the line |
| `SeedParsing.LineIsRead` | prisma/seed-data/parse.ts:156-181 | which column gives what: a line with the eight columns, in any spelling, is the airline with that name, codes, country and status, and none for a placeholder name or without a code |
| `SeedParsing.ParseAirlineRows` | prisma/seed-data/parse.ts:137-186 | the loop with its two sets keeps the first row of each airline |
| `SeedParsing.FirstLineWins` | prisma/seed-data/parse.ts:156-186 | every airline of the file is listed, with the values of its first line |
| `SeedParsing.RowsInOrder` | prisma/seed-data/parse.ts:143-181 | rows are in the order of their lines |
| `SeedParsing.FileRowsAreDistinct` | prisma/seed-data/parse.ts:143-155 | distinct IATA codes, distinct ICAO codes among rows without one, no empty code |
| `CuratedAirlines.SanitizeAirlineRows` | prisma/seed-data/curated-airlines.ts:56-65 | the loop gives the cleaned rows |
| `CuratedAirlines.SanitizedAreUnique` | prisma/seed-data/curated-airlines.ts:51-65 | only real designators remain, every row with one is kept, IATA codes stay unique |
| `CuratedAirlines.SanitizedExactly` | prisma/seed-data/curated-airlines.ts:48-65 | the cleaned rows are exactly the rows that keep a code, with only the codes dropped that are not two letters or digits, or not three letters |
| `CuratedAirlines.SanitizedOfConcat` | prisma/seed-data/curated-airlines.ts:56-65 | in the order of the input |
| `CuratedAirlines.ApplyOne` | prisma/seed-data/curated-airlines.ts:71-107 | the assignments of one entry to the row objects are the value-level step |
| `CuratedAirlines.FilterRows` | prisma/seed-data/curated-airlines.ts:114-127 | the filter with its two sets keeps exactly the first row of each code |
| `CuratedAirlines.ApplyCuratedAirlines` | prisma/seed-data/curated-airlines.ts:67-128 | the in-place program returns new objects showing the value-level result; the input is untouched |
| `CuratedAirlines.EntrySettles` | prisma/seed-data/curated-airlines.ts:71-107 | each entry keeps IATA codes unique and puts its code on a row with its name, ICAO code and status |
| `CuratedAirlines.EntryInPlace` | prisma/seed-data/curated-airlines.ts:72-91 | all rows after an entry for the airline that holds the code or is renamed: its row has everything the entry says and keeps its country; the previous identity is added, inactive and without code, exactly if asked for, other and not listed yet |
| `CuratedAirlines.EntryElsewhere` | prisma/seed-data/curated-airlines.ts:92-107 | all rows after an entry that takes the code: the first of its own rows or a new one has everything the entry says, the holder becomes inactive without code and keeps the rest |
| `CuratedAirlines.HolderIsRetired` | prisma/seed-data/curated-airlines.ts:92-95 | an airline that loses its code becomes inactive and keeps name, ICAO code and country |
| `CuratedAirlines.DisplacedInResult` | prisma/seed-data/curated-airlines.ts:10-17 | so it is in the result of the whole file, unless a later entry takes its row or an earlier row without code has its ICAO code |
| `CuratedAirlines.PreviousInResult` | prisma/seed-data/curated-airlines.ts:10-17 | and so is the previous identity of a renamed airline |
| `CuratedAirlines.RowUntouched` | prisma/seed-data/curated-airlines.ts:71-107 | an entry changes no row that neither holds its code nor is described as its own |
| `CuratedAirlines.UnmentionedRowsStay` | prisma/seed-data/curated-airlines.ts:71-107 | so rows no entry mentions come through all entries unchanged |
| `CuratedAirlines.DisplacedAirlineIsKept` | prisma/seed-data/curated-airlines.ts:10-17 | an airline that loses its IATA code stays listed under its ICAO code |
| `CuratedAirlines.FilteredRows` | prisma/seed-data/curated-airlines.ts:114-127 | a row is in the filtered list exactly if it is the first with its code |
| `CuratedAirlines.FilteredInOrder` | prisma/seed-data/curated-airlines.ts:114-127 | in the order of the rows |
| `CuratedAirlines.FilteredIsUnique` | prisma/seed-data/curated-airlines.ts:114-127 | after the filter IATA codes are unique, ICAO codes unique among rows without one, and every row has a code |
| `CuratedAirlines.DeactivateFlips` | prisma/seed-data/curated-airlines.ts:109-112 | deactivation only sets the active flag of the rows found |
| `CuratedAirlines.ResultIsSettled` | prisma/seed-data/curated-airlines.ts:67-128 | for distinct codes and no `own` naming a finished row: unique codes, each entry on a row with its codes, name and status, every named row inactive |
| `CuratedAirlines.OneRowPerEntry` | prisma/seed-data/curated-airlines.ts:67-128 | exactly one row has an entry's code, and it has its ICAO code and name |
| `CuratedAirlines.ApplyingIsIdempotent` | prisma/seed-data/curated-airlines.ts:67-128 | applying the file to its own result gives back the same list |
| `CuratedAirlines.SeedIsSettled` | prisma/seed-data/parse.ts:187-189 | the rows of any airlines file, deduplicated and cleaned, meet these conditions |
| `CuratedAirlines.SettlesExactly` | prisma/seed-data/curated-airlines.ts:67-128 | entries with distinct codes settle every list with distinct codes if and only if no `own` is the finished row of an earlier entry; applying the file to no rows at all decides it |
| `CuratedAirlines.TakenEntryIsLost` | prisma/seed-data/curated-airlines.ts:97-103 | if one is, that earlier entry's row is lost for good |
| `CuratedAirlines.OwnCanTakeFinishedRow` | prisma/seed-data/curated-airlines.ts:97-103 | a smallest file of that kind |
| `LikePattern.EscapedMatchesItself` | src/lib/airline-search.ts:26-29 | an escaped text matches that text only |
| `LikePattern.EscapedHead` | src/lib/airline-search.ts:26-29 | at the head of a pattern it matches exactly that prefix |
| `LikePattern.SearchFindsSubstring` | src/lib/airline-search.ts:26-29 | between two percent signs it matches exactly the strings that contain the text |
| `LikePattern.UnescapedFindsMore` | src/lib/airline-search.ts:26-29 | why escaping is needed |
| `Money.BreakdownAddsUp` | src/lib/pricing.ts:32-43 | for all amounts the rounded lines add up to the total exactly, within 0.03 of the exact amount |
| `Money.LinesAreNearest` | src/lib/pricing.ts:32-43 | each line is the exact amount of its seats or fee, rounded to the cent, halves up |
| `Money.WholeCentsAreExact` | src/lib/pricing.ts:32-43 | on whole cents nothing is rounded |
| `Money.SellingPriceIsTicketSubtotal` | src/lib/currency.ts:171-180 | the selling price rounded once is the ticket subtotal rounded by line on whole cents, and within 0.02 of it always |
| `Money.RoundTripIsExact` | src/lib/currency.ts:120-160 | conversion there and back is exact on all whole-cent amounts if and only if the rate is at least 1 |
| `Money.RoundTripError` | src/lib/currency.ts:120-160 | it is never off by more than 0.005/rate + 0.005 |
| `Money.ConversionsAreNearest` | src/lib/currency.ts:120-160 | both conversions are the exact product and quotient, rounded |
| `Money.EachPartIsConverted` | src/lib/currency.ts:134-142 | each amount of a booking is converted by itself |
| `Money.ConvertedTotalIsNear` | src/lib/currency.ts:134-142 | the converted total of a booking is within 0.025 of the sum of its converted parts |
| `Money.PartsAddUpExactly` | src/lib/currency.ts:134-142 | the converted parts of every booking of whole cents add up to its converted total if and only if the rate is a whole number |
| `Money.WholeRateAddsUp` | src/lib/currency.ts:134-142 | at a whole rate those of every booking do |
| `Money.PartsCanMissTotal` | src/lib/currency.ts:134-142 | a booking that misses by two cents: four parts of one cent at half the rate |
| `Money.DollarsAreNotConverted` | src/lib/currency.ts:134-142 | at rate 1 a booking is unchanged |
| `Money.SnapshotKeepsPrices` | src/lib/currency.ts:201-215 | a dollar snapshot holds the dollar prices, and one at a rate of at least 1 still determines them |
| `Money.SnapshotIsConverted` | src/lib/currency.ts:201-215 | a snapshot names its currency and rate, 1 for dollars, and holds every price at that rate |

## Left out

- Presentation: React components, pages, labels of ranges (`formatCivilRange`, `payPeriodName`), `percentChange`, `buildReportHref`, e-mail contents and HTML.
- I/O and libraries: sharp decoding and resizing, Prisma and PostgreSQL themselves, Gmail, HMAC, libphonenumber, Intl data; they appear as parameters or step rules.
- IEEE-754 effects: colours, shares and money are exact reals, colour distance is compared by squares, and the EPSILON in `round2` is dropped.
- Time values beyond 100 million days from the epoch, for which Date gives NaN; the calendar goes on.
- LogoProcessing: the exception handler around the whole heuristic, which hands back the input, and buffers that sharp would not produce (length other than width x height x channels).
- RangeCoversSelection: dates before the year 1, which Intl does not print and the reference numbering of pay periods does not reach; the same holds of the other results about resolved ranges.
- RecentPayPeriods: its elements are named only where the periods start in year 100 or later; `PeriodOfEveryDay` and `ContainingIsIndexed` hold from year 1.
- StartIsExact: for offsets of whole seconds below a day and changes more than two days apart, as zones have them today, and days around which Date.UTC misreads no year; that includes every date after the year 100. Years before 1 are numbered on, not counted by era as Intl prints them.
- FormatHireAgeCompact: nothing is said of a today in the years 0 to 100, except for hire dates from the year 100 on when it is the year 100.
- SharedPoll: the polling interval, the poll/rearm modes of `wake`, failing fetches, the broadcast channel and the fallback without Web Locks; the queue may grant any waiting request, which is more than the first-come order of the browser.
- BookingNotification: message contents and the texts in the log row; a process that dies holding its claim leaves the slot taken, as in the program.
- LeadIntake: fields copied unchanged into the lead (cabin class, passengers, notes, status history), the submission row, the fingerprint row and the contact-created activity; the alphabet of codes is the route's.
- LeadIntake.Store.CreateWebsiteFlightLead: one request at a time; interleaving is in the steps, not in the method. The same holds for `BookingNotification.Notifier.SendBookingProfitNotification`.
- AirlineHistory: `upper` on letters other than a to z, ISO texts of years above 9999, and the count of all segments with an airline.
- QuoteStatus: writers of `Quote.status` in other modules (their rows are part of the starting state), the `extra` fields of a transition, the actor's lookup, and other isolation than one transaction at a time.
- ContactResolution: a query without an order may return any match; the model takes the first. Names of the contact are left out.
- ContactReassignment: texts of records and messages, the e-mails after the response, and `recheckContactOwnershipMatch`, which only decides whether to call the function.
- SeedParsing: reading files, splitting lines, country names and time zones of airports (the airport loop is the airline loop with one key).
- CuratedAirlines: the JSON file itself; its entries are any that meet `ValidEntries`, and `frees`, `holder`, `logo` and `sources`, which the function does not read.
- CardValidation: expiry, security code and allocation checks, which are single comparisons.
- LikePattern: accent folding (a character table) and the comparator of `rankAirlineMatches`.
- Permission tables, route guards, status label sets, rate limits and other finite case tables: easy members only.
