# Frank Pilot: verified model

A Dafny 4.11 model of the parts of the repository where a mistake is expensive and hard to see:
the PII filter behind the logger, the cluster locks of the scheduler and the migration runner, the
allocators and importers that write property data, and a few cores with real arithmetic or history.
`dafny verify dfyconfig.toml` checks all of it.

| module | models |
|---|---|
| `Regex`, `FoldedWords`, `Replacement`, `Cutting` | regular expressions with `\b` and `$`: a backtracking matcher, exact against the language of the pattern, and the global `replace` of ECMA-262 (2023), section 22.2.6.11, as a leftmost, non-overlapping scan |
| `PiiPatterns`, `PiiKeys`, `PiiJson`, `Sanitizer`, `Timestamps`, `Logger` | `src/utils/pii-filter.ts` and the formats of `src/utils/logger.ts`: the four value patterns, the key patterns, the JSON key/value rewrite, the depth-bounded walk over possibly cyclic values, the second application after the timestamp |
| `PiiForms`, `PiiTags`, `FiniteValues` | the same filter without regular expressions, graphs or named constants: what SSNs, cards, addresses and phone numbers look like character by character, and what becomes of a value level by level |
| `AdvisoryLock`, `Migrate`, `MigrationFiles` | `src/db/migrate.ts`: any number of `up` runs with failures and crashes between any two steps, beside other users of the lock space |
| `AdvisoryLock`, `JobLock` | `withJobLock` of `src/scheduler.ts` over instances, pooled sessions, lost sessions and colliding hashes |
| `LargestRemainder` | `distributeMix` of `src/db/seed-property-geo.ts`, with the list `order` aliasing the cells of `floored` |
| `Decimal`, `UnitPlan`, `PlannedUnits` | `buildUnitPlan` of `src/db/onboard-property.ts`, and each planned unit read off the input |
| `Query`, `Windsor`, `GpmParcels` | the fail-closed importers, over tables that their own statements change |
| `Csv` | the CSV report of `scripts/screening-backtest.ts`, against a parser for section 2 of RFC 4180 |
| `Slugs` | the slug derivations of the backend, the seeds, the SQL and the retriever |
| `BusinessDays`, `AmiTiers`, `HousingIndex`, `Listings`, `DemoCapture`, `QaSessionReplay` | business days, income tiers, the retriever's index and its listings, replay segments and the rolling replay buffer |
| `Lists`, `Strings`, `Options`, `JsNumbers` | what several of these share |

Code that changes state is a class or a method with loops, proved equal to a function of the old
state; what the source promises is proved about those functions. The concurrent parts are step
relations, and their results hold in every state that any interleaving reaches.

## Where the code and its own documentation disagree

The model follows the code. The lemmas named here say exactly when a documented claim holds and show
where it fails.

- `sanitizeObject` is not idempotent on long arrays: the marker's number changes. The exact bound is
  1001 elements, not 1000, because a marker of one dropped element is its own marker
  (`Sanitizer.SanitizeTwice`; `Sanitizer.LongArrayDiffers` with 1002 numbers). A marker with nine digits
  matches the SSN pattern (`Sanitizer.NineDigitMarker`), and the full redaction promised for a PII-keyed
  array stops at an object in it (`Sanitizer.PiiArrayRedacted`, `Sanitizer.ObjectEndsPromise`).
- The header of `migrate.ts` says that each delta is applied exactly once. A run that dies between
  `psql` and the insert makes its delta run again (`Migrate.CrashRepeatsFile`); the exact count is in
  `Migrate.UpIsSafe`.
- The scheduler's comment says that exactly one instance runs a job. A task whose session the database
  has ended runs on without its lock, and then the next tick runs beside it (`JobLock.OneTaskPerKey`,
  `JobLock.TickOverlaps`).
- The Windsor importer is called idempotent. It is not when a lot loses the unit that carried its uid
  to a later lot and its house number names another unit (`Windsor.RowsTwiceExactly`,
  `Windsor.ImportTwiceDiffers`).
- The parcel data file says that the buildings of a provisional APN are left unlinked. The import links
  them when the site has no other parcel (`GpmParcels.ProvisionalIsLinked`).
- The header of `business-days.ts` says that ignoring holidays can only lengthen the window. It can only
  shorten it (`BusinessDays.HolidaysLengthen`; `BusinessDays.MondayOff`).
- The header of `demoCapture.ts` calls every replay segment self-contained. A segment that resumes after
  a hidden, left or stopped page need not be (`DemoCapture.SelfContainedExactly`,
  `DemoCapture.HidingCutsASegment`), and segment names stop sorting in order after the thousandth
  (`DemoCapture.NameOrderBreaks`).
- `buildUnitPlan` plans `unit_mix` units of each label only without negative tiers
  (`UnitPlan.BreakdownMatchesMix`, `UnitPlan.NegativeTier`), and rail 2 of the onboarding script lets
  plans through that exceed `unit_count` (`UnitPlan.PlanWithinUnitCount`, `UnitPlan.NegativeMix`,
  `UnitPlan.SentinelTiers`).
- A later GPMG record can overwrite the data of an earlier one in the retriever's index, so the number
  of available records can fall below the number of records in the feed (`HousingIndex.CarriedExactly`,
  `HousingIndex.CountExactly`, `HousingIndex.FeedLost`).

## Model

| member | source | states |
|---|---|---|
| Regex.EndsExact | src/utils/pii-filter.ts:16-50 | the backtracking matcher reports an end position exactly if the pattern matches that span |
| Regex.TestExact | src/utils/pii-filter.ts:52-54 | `test` succeeds exactly if the pattern matches some span |
| Regex.MatchLocal | src/utils/pii-filter.ts:16-19 | a pattern without anchors matches a span by its characters alone, so it moves with the text |
| FoldedWords.WordTest | src/utils/pii-filter.ts:30-50 | a word pattern with /i succeeds exactly if the word occurs somewhere in any case |
| FoldedWords.LowerTable | src/utils/pii-filter.ts:30-50 | case folding pairs the 26 letters and leaves every other character alone |
| Replacement.SpansComplete | src/utils/pii-filter.ts:63-70 | the spans a global replace rewrites leave no match that does not overlap one of them |
| Replacement.ReplaceWeaves | src/utils/pii-filter.ts:63-70 | text and replaced text share all gaps; only the matches of the scan give way, in order |
| Replacement.TaggedFree | src/utils/pii-filter.ts:63-70 | putting bracketed tags in place of spans creates no match of any sealed pattern that was not there |
| PiiForms.FormsExactly | src/utils/pii-filter.ts:16-19 | each of the four patterns matches a span exactly if its characters have the form: digit groups with their gaps, local@domain.tld, the phone prefixes |
| PiiForms.CleanExactly | src/utils/pii-filter.ts:16-19 | a text is clean exactly if nothing of the four forms stands in it between two word edges |
| PiiTags.RedactSensitiveStrings | src/utils/pii-filter.ts:63-70 | nothing of the four forms stands in the result, only a text that holds one is changed, and a text that is an SSN, a card number, an address or a phone number becomes its tag, under the conditions of the rows below |
| PiiTags.CardTagged | src/utils/pii-filter.ts:17 | every text of four groups of four digits, with a dash, a space or nothing in each gap, becomes the card tag |
| PiiTags.PhoneTagged | src/utils/pii-filter.ts:19 | every phone number becomes the phone tag if and only if it starts with a digit; a plus, a bracket or a gap at the start stays in front of the tag |
| PiiTags.EmailTagged | src/utils/pii-filter.ts:18 | every address, all dots of its domain included, becomes the e-mail tag if and only if it begins and ends at a word edge and no SSN or card number stands in it |
| PiiTags.RedactedApart | src/utils/pii-filter.ts:63-70 | at a character that no form can hold, such as a comma or a colon, the two sides are redacted independently |
| PiiPatterns.PassRemoves | src/utils/pii-filter.ts:65-68 | a pass leaves no match of its own pattern |
| PiiPatterns.PassKeeps | src/utils/pii-filter.ts:65-68 | a pass never re-creates a match of a pattern that was absent before it |
| PiiPatterns.FourPasses | src/utils/pii-filter.ts:63-70 | four passes over any sealed patterns, in any order, leave a text free of all four |
| PiiPatterns.RedactedIsClean | src/utils/pii-filter.ts:63-70 | for every input the output matches none of the SSN, card, e-mail and phone patterns |
| PiiPatterns.UnchangedIffClean | src/utils/pii-filter.ts:63-70 | redaction leaves a text alone if and only if none of the four patterns matches it |
| PiiPatterns.WholeTagged | src/utils/pii-filter.ts:63-70 | a text that is one match as a whole becomes the tag of the first of the four patterns that matches it |
| PiiPatterns.NineDigits | src/utils/pii-filter.ts:16 | every text of nine digits becomes the SSN tag |
| PiiPatterns.RedactedTwice | src/utils/pii-filter.ts:63-70 | redaction is idempotent |
| PiiKeys.KeyMatchesExactly | src/utils/pii-filter.ts:30-54 | a key is a PII key exactly if it holds a listed word, two or three listed words in order on one line, or a listed word of its own, in any case |
| PiiKeys.UuidIdKeySuffix | src/utils/pii-filter.ts:100-102 | the id-key test is exactly a case-insensitive suffix test for `ids` |
| PiiJson.FilterPII | src/utils/pii-filter.ts:72-88 | none of the patterns matches the result, every pair found in it under a PII key is redacted, and only a text that needs it is changed |
| PiiJson.PairMatch | src/utils/pii-filter.ts:82 | where the pair pattern matches and how far, in terms of the text between quotes |
| PiiJson.RewriteIsSegments | src/utils/pii-filter.ts:83-85 | the regex rewrite is a rewrite of the segments between quotes |
| PiiJson.RewriteSegmentsTwice | src/utils/pii-filter.ts:83-85 | a second scan finds the same pairs and changes nothing |
| PiiJson.FilteredIsClean | src/utils/pii-filter.ts:72-88 | the output of `filterPII` matches none of the four patterns |
| PiiJson.FilteredPairsRedacted | src/utils/pii-filter.ts:79-85 | every pair that a scan of the output finds under a PII key has the value `[REDACTED]` |
| PiiJson.PairRewritten | src/utils/pii-filter.ts:79-85 | a pair in a text without other quotes becomes `"key":"[REDACTED]"` under a PII key and stays as it is under any other |
| PiiJson.FilteredTwice | src/utils/pii-filter.ts:72-88 | `filterPII` is idempotent |
| PiiJson.UnchangedIffSettled | src/utils/pii-filter.ts:72-88 | `filterPII` leaves a text alone if and only if no pattern matches it and every scanned pair under a PII key is redacted already |
| PiiJson.RedactedAfterFiltered | src/utils/logger.ts:17-30 | redaction after the message filter changes nothing |
| Sanitizer.SanitizeArray | src/utils/pii-filter.ts:109-130 | the array walk computes its specification on any graph and terminates |
| Sanitizer.SanitizeObjectInner | src/utils/pii-filter.ts:132-165 | the object walk computes its specification on any graph and terminates |
| FiniteValues.SanitizeObject | src/utils/pii-filter.ts:167-169 | the walk from depth 0, cyclic values included, gives what recursion on the unrolled value gives, and for a finite value what recursion on the value itself gives |
| FiniteValues.SanitizedExactly | src/utils/pii-filter.ts:90-169 | of every value, cyclic or not: objects and arrays at depth 10 or less are entered and those at depth 11 give way to the cut, arrays keep 1000 elements and a marker, strings are redacted, PII keys hold the redaction |
| FiniteValues.ShallowIsKept | src/utils/pii-filter.ts:90-169 | a finite value of at most eleven levels without sensitive texts, PII keys or arrays beyond 1000 comes back as its copy |
| Sanitizer.SanitizedIsSafe | src/utils/pii-filter.ts:109-169 | at most 12 levels, and every string leaf is free of the four patterns or a truncation marker |
| Sanitizer.SanitizedIsCopy | src/utils/pii-filter.ts:109-169 | the output is a copy of the argument if and only if nothing in it is sensitive, too deep, too long or behind a PII key |
| Sanitizer.NineDigitMarker | src/utils/pii-filter.ts:126-128 | every marker with a nine-digit number matches the SSN pattern, so markers must be excepted |
| Sanitizer.PiiArrayRedacted | src/utils/pii-filter.ts:104-130 | every string reached from a PII-keyed array through arrays alone is `[REDACTED]`, the depth cut or a marker |
| Sanitizer.ObjectEndsPromise | src/utils/pii-filter.ts:117-120 | an object inside a PII-keyed array lets any clean string under a plain key through |
| Sanitizer.KeysKept | src/utils/pii-filter.ts:132-165 | above the depth cut keys are kept in order, and a PII key holds `[REDACTED]`, a fully redacted array, or an id array handed on as it is |
| Sanitizer.MarkerTwice | src/utils/pii-filter.ts:112-128 | the marker of an array is stable exactly up to 1001 elements |
| Sanitizer.SanitizeTwice | src/utils/pii-filter.ts:109-169 | a second application returns the first result if and only if no visited array has more than 1001 elements |
| Sanitizer.LongArrayDiffers | src/utils/pii-filter.ts:112-128 | an array of 1002 numbers is cut differently the second time |
| Sanitizer.SanitizeThrice | src/utils/pii-filter.ts:109-169 | a third application never changes anything |
| Logger.FormatTwice | src/utils/logger.ts:17-56 | a formatted and then stamped record is left alone by the format of the console path, timestamp included, if and only if no visited array outside the replaced property is longer than 1001 |
| Logger.Formatted | src/utils/logger.ts:17-30 | a text message becomes what `filterPII` makes of it, and every other property is sanitised under its key |
| Timestamps.TimestampKept | src/utils/logger.ts:36 | no pattern matches a timestamp of the logger's format, so the filter leaves every one as it is |
| Timestamps.OwnKeys | src/utils/logger.ts:23-24 | `timestamp`, `message` and `level` are no PII keys |
| Timestamps.ServiceKey | src/utils/logger.ts:23-24 | nor is `service` |
| Logger.MessagesFinal | src/utils/logger.ts:18-28 | a formatted message is left alone by a second message filter |
| AdvisoryLock.TakeUnlock | src/db/migrate.ts:53-67 | taking and giving back a re-entrant lock restores the lock table |
| Migrate.InvStep | src/db/migrate.ts:53-169 | every step of every run, failure, crash and foreign lock user keeps the invariant |
| Migrate.InvRun | src/db/migrate.ts:53-169 | so does every interleaving |
| Migrate.MutualExclusion | src/db/migrate.ts:45-67 | at most one run is inside the lock |
| Migrate.UpIsSafe | src/db/migrate.ts:141-169 | in every reachable state: one run inside, recorded files never run again, and a newly recorded file was executed once plus once for each run that lost it between executing and recording |
| Migrate.UpIsComplete | src/db/migrate.ts:141-169 | a run that ends without an error leaves all its files recorded |
| Migrate.UpIsNoOp | src/db/migrate.ts:148-157 | a run finds nothing pending if and only if all its files are recorded |
| Migrate.NoDeadlock | src/db/migrate.ts:45-67 | while a run is unfinished and no foreign session holds the lock, some run can move |
| Migrate.UpAppliesInOrder | src/db/migrate.ts:147-164 | over one file list the table stays a prefix of it, never shrinks, and is the whole list once a run has completed |
| Migrate.UpFollowsList | src/db/migrate.ts:147-164 | in every reachable state, whatever the table held: a run that executes or records a file has every file before it in its list recorded |
| Migrate.Server.Up | src/db/migrate.ts:142-169 | an uninterrupted run executes and records exactly the unrecorded files of its list up to the first that psql refuses, for any table, and returns the lock |
| Migrate.CrashRepeatsFile | src/db/migrate.ts:160-164 | a run that dies between psql and the insert makes the file run twice |
| MigrationFiles.ListExact | src/db/migrate.ts:69-74 | the list is strictly ascending by code and holds exactly the names that end in `.sql` |
| MigrationFiles.ListUnique | src/db/migrate.ts:69-74 | the list does not depend on the order of the directory listing |
| JobLock.InvStep | src/scheduler.ts:24-43 | every step of every task, every lost session, eviction and instance crash keeps the invariant |
| JobLock.OneTaskPerKey | src/scheduler.ts:17-43 | in every reachable state at most one task with a standing session runs under a key or a job name, colliding hashes included, and idle or lost sessions hold no lock |
| JobLock.SkipsExactly | src/scheduler.ts:27-34 | a tick is skipped if and only if another task that still has its session runs under the key |
| JobLock.TickOverlaps | src/index.ts:579-587 | the next tick runs beside a running task of its job if and only if that task has lost its session and no rival holds the key |
| JobLock.EvictKeeps | src/config/database.ts:51-54 | closing an idle session frees no lock, because it holds none |
| JobLock.Cluster.WithJobLock | src/scheduler.ts:24-43 | on each path, a lost session included, the lock table and the checked-out sessions end as they began, no other task changes, and a lost session leaves the pool |
| LargestRemainder.DistributeMix | src/db/seed-property-geo.ts:166-190 | each key of positive weight gets `total * weight / sum` rounded down or up, larger remainders first and then smaller keys, all other keys nothing, and the total is met |
| LargestRemainder.ApportionedIsFair | src/db/seed-property-geo.ts:173-188 | an apportionment over the exact shares is that allocation in whole numbers, key by key |
| LargestRemainder.HandOut | src/db/seed-property-geo.ts:179-186 | increments through `order` reach the cells of `floored`, the index never wraps, and the total is met |
| LargestRemainder.GiveOne | src/db/seed-property-geo.ts:183 | one increment raises the sum over `floored` by one |
| LargestRemainder.LeastDeviation | src/db/seed-property-geo.ts:164-190 | no whole-number allocation of the total deviates less from the exact shares |
| LargestRemainder.OnlyFractionsRoundUp | src/db/seed-property-geo.ts:176-186 | a whole share is never rounded up |
| LargestRemainder.ApportionedUnique | src/db/seed-property-geo.ts:179-180 | beds, shares and total determine the apportionment |
| LargestRemainder.DistributeMixIsFair | src/db/seed-property-geo.ts:164-190 | the total is handed out, each key gets the quota of its own weight or one more if something is left over, and no other allocation is closer |
| PlannedUnits.BuildUnitPlan | src/db/onboard-property.ts:127-184 | the plan goes label by label or tier by tier and each unit is the one that the input and the tables give, or the reconciliation throws |
| PlannedUnits.PlanIsPlanned | src/db/onboard-property.ts:30-55 | every planned unit has the kind, size, number, rent and designation of its own label or tier |
| PlannedUnits.RentExactly | src/db/onboard-property.ts:98-106 | the rent of a label is its own entry, else the first entry that continues it with an underscore in any case, else 747, 995, 1194 or 1380 |
| PlannedUnits.NumberExactly | src/db/onboard-property.ts:141-145 | unit numbers read S-001, A-101, B-201, C-301 and so on |
| PlannedUnits.SplitsExactly | src/db/onboard-property.ts:161-174 | the label is what stands before the first underscore, and the tier what follows it |
| UnitPlan.Reconcile | src/db/onboard-property.ts:159-170 | the two loops accept a breakdown exactly if each label's tiers sum to its number in the mix |
| UnitPlan.Planner.Emit | src/db/onboard-property.ts:133-155 | one call appends its batch and keeps the counters equal to the planned units of each letter |
| UnitPlan.UnitNumberInjective | src/db/onboard-property.ts:141-145 | a unit number determines the kind and the sequence number |
| UnitPlan.UnitNumbersUnique | src/db/onboard-property.ts:122-155 | no two planned units share a number, and each letter counts 1, 2, 3, ... across tiers and labels |
| UnitPlan.SizeForLabel | src/db/onboard-property.ts:159-175 | a label's planned units equal the sum of its tiers exactly if none is negative |
| UnitPlan.BreakdownMatchesMix | src/db/onboard-property.ts:157-176 | an accepted breakdown plans `unit_mix[label]` units of a known label if and only if none of its tiers is negative |
| UnitPlan.NegativeTier | src/db/onboard-property.ts:157-176 | tiers of 3 and -1 are accepted for a mix of 2 and plan 3 units |
| UnitPlan.BatchUnits | src/db/onboard-property.ts:133-155 | the units of one call of `emit` follow those of the calls before |
| UnitPlan.TierAmiExact | src/db/onboard-property.ts:171-175 | the designation is `market` exactly if the part after the label holds that word in any case |
| UnitPlan.PlanLength | src/db/onboard-property.ts:127-184 | the plan has as many units as its batches ask for |
| UnitPlan.PlanAgainstMix | src/db/onboard-property.ts:127-184 | a plan misses the mix total by what negative counts fail to take back, less the uncovered units and the known labels missing from the mix |
| UnitPlan.PlanWithinUnitCount | src/db/onboard-property.ts:212-222 | past the rail the plan has at most `unit_count` units if and only if that balance is not positive, and exactly so many if and only if it is zero |
| UnitPlan.PlanWithoutNegatives | src/db/onboard-property.ts:212-222 | without negative counts the rail holds, and the plan is complete exactly if every label with units is known and covered |
| UnitPlan.NegativeMix | src/db/onboard-property.ts:212-222 | a mix of 5 and -2 passes as 3 units and plans 5 |
| UnitPlan.SentinelTiers | src/db/onboard-property.ts:159-170 | tiers that sum to -1 for a label missing from the mix pass the reconciliation and plan 4 units for a count of 1 |
| Windsor.Database.ImportWindsorIdentity | src/db/import-windsor-identity.ts:89-184 | the loop over the lots ends in the specified tables and counts each lot as linked or skipped |
| Windsor.Database.ResolveUnit | src/db/import-windsor-identity.ts:62-82 | the only unit that carries the lot's uid, else the only one that its number names, else none |
| Windsor.ImportedExactly | src/db/import-windsor-identity.ts:89-184 | after the import: the parcel, the columns of each unit, the permits, and nothing else |
| Windsor.NoSiteNoImport | src/db/import-windsor-identity.ts:97-112 | without exactly one property named Windsor Park nothing changes |
| Windsor.UnitAfter | src/db/import-windsor-identity.ts:145-167 | units are neither created nor removed; each has its own columns and the identity of the last lot linked to it |
| Windsor.PermitsAfter | src/db/import-windsor-identity.ts:168-177 | the permits are those before, unchanged, and one building permit of the fixed source for each linked lot |
| Windsor.UidsStayUnique | src/db/import-windsor-identity.ts:67-71 | external uids stay unique in the property |
| Windsor.UidAfter | src/db/import-windsor-identity.ts:67-81 | after its turn a lot's uid is only on the unit whose last lot it is |
| Windsor.SkippedStaySkipped | src/db/import-windsor-identity.ts:145-156 | a lot skipped in the first run is skipped in the second, whatever happened to the others |
| Windsor.LinkedStayLinked | src/db/import-windsor-identity.ts:145-156 | a lot still on its unit finds it again unless an earlier lot was displaced |
| Windsor.ImportTwice | src/db/import-windsor-identity.ts:84-184 | a second import changes nothing if no lot was displaced, and uids stay unique |
| Windsor.OwnUnits | src/db/import-windsor-identity.ts:84-184 | if no two lots resolve to the same unit, none is displaced |
| Windsor.ApartIsStable | src/db/import-windsor-identity.ts:84-184 | if no two lots resolve to the same unit in the tables before the import, a second import changes no row |
| Windsor.RowsTwiceExactly | src/db/import-windsor-identity.ts:145-178 | for lots with permits of their own, not yet recorded on the units they name, the second run leaves the rows alone if and only if no lot was displaced |
| Windsor.ImportTwiceDiffers | src/db/import-windsor-identity.ts:84-87 | two lots and two units on which the second run moves a lot |
| Windsor.ParcelEnsured | src/db/import-windsor-identity.ts:116-139 | the parcel without an APN is reused or made once, says what the import says, and no other parcel changes |
| Windsor.ParcelTwice | src/db/import-windsor-identity.ts:116-139 | the single parcel is found again and not changed |
| GpmParcels.DeriveExact | src/db/import-gpm-parcels.ts:79-89 | a row is provisional exactly if it says so or its notes hold one of nine warning words in any case |
| GpmParcels.PropertyFound | src/db/import-gpm-parcels.ts:67-76 | a row resolves exactly to the one property that bears its name or, for eight listed names, the catalog's name |
| GpmParcels.Database.ImportGpmParcels | src/db/import-gpm-parcels.ts:100-187 | both passes end in the specified tables, or stop where a statement is refused |
| GpmParcels.ImportStops | src/db/schema.ts:1258-1261 | the import stops exactly where a parcel of another property already holds the row's confirmed APN; it then keeps what the earlier rows wrote and links nothing |
| GpmParcels.FirstPassKeeps | src/db/schema.ts:1258-1261 | both unique constraints survive every prefix of the first pass |
| GpmParcels.ParcelAfter | src/db/import-gpm-parcels.ts:143-158 | a parcel holds, column by column, what the last row with its key says, and otherwise what it held; a new one without an APN says what some row says |
| GpmParcels.UnresolvedUntouched | src/db/import-gpm-parcels.ts:116-140 | the parcels of a property that no row resolves to are untouched |
| GpmParcels.BuildingAfter | src/db/import-gpm-parcels.ts:161-187 | a building is linked exactly if its property was resolved and has one parcel, whatever the order of the properties |
| GpmParcels.BuildingsExactly | src/db/import-gpm-parcels.ts:161-187 | after a completed import a building is linked to the only parcel of its property if some row resolves to that property, and is otherwise as it was |
| GpmParcels.LinksAreSafe | src/db/import-gpm-parcels.ts:161-187 | a building whose link changes points to the only parcel of its own resolved property |
| GpmParcels.ImportTwice | src/db/import-gpm-parcels.ts:95-187 | two completed runs end in the same tables if and only if every resolved row has an APN |
| GpmParcels.ImportTwiceDistinct | src/db/import-gpm-parcels.ts:95-187 | with known APNs and distinct keys a second run repeats the outcome of the first, a refused statement included, and changes nothing |
| GpmParcels.ProvisionalIsLinked | src/db/import-gpm-parcels.ts:161-187 | the only parcel of a site is linked although it is provisional |
| Csv.RenderCsv | scripts/screening-backtest.ts:467-500 | the loop builds the header and one line for each row |
| Csv.QuotedExactly | scripts/screening-backtest.ts:460-465 | a field is quoted exactly if it holds a quote, a comma or a line break |
| Csv.FieldBack | scripts/screening-backtest.ts:460-465 | an escaped field parses back to itself, whatever characters it holds |
| Csv.RecordBack | scripts/screening-backtest.ts:483-497 | so does a record of fields |
| Csv.FileBack | scripts/screening-backtest.ts:481-499 | so does a file of records of two or more fields |
| Csv.ReportReadsBack | scripts/screening-backtest.ts:467-500 | parsing a report gives exactly the eleven column names and every row's columns, booleans as `true` and `false`, the number in decimal |
| Csv.ReportInjective | scripts/screening-backtest.ts:467-500 | reports with different field values are different texts |
| Slugs.CollapseShape | src/db/onboard-property.ts:40 | collapsing gives the words joined by the separator, with a separator at each end that had other characters |
| Slugs.SlugsAgree | src/db/seed.ts:251 | the trimming, the one-dash and the SQL forms all give the lower-case words joined by dashes |
| Slugs.RetrieverAgrees | tools/housing-qa/retriever.py:57-64 | the normalised name is the words joined by spaces, and its slug is the same slug |
| Slugs.SlugTwice | src/db/seed-property-geo.ts:44-49 | a slug has no leading, trailing or doubled dash and is its own slug |
| Slugs.AlnumTable | src/db/onboard-property.ts:40 | the characters that words keep are the small letters and the digits |
| BusinessDays.WeekendsAre | src/utils/business-days.ts:13-17 | the days that do not count are the Saturdays and Sundays of the calendar |
| BusinessDays.AddBusinessDays | src/utils/business-days.ts:25-35 | the day loop ends on a business day with exactly n business days passed, at the closed form, time of day kept; a degenerate n returns the start |
| BusinessDays.Landing | src/utils/business-days.ts:25-35 | the closed form lands on a business day with exactly n business days in between |
| BusinessDays.LandingUnique | src/utils/business-days.ts:25-35 | no other business day is n business days away |
| BusinessDays.Additive | src/utils/business-days.ts:25-35 | adding m and then n is adding m + n |
| BusinessDays.Monotone | src/utils/business-days.ts:25-35 | a later start never lands earlier |
| BusinessDays.HolidaysLengthen | src/utils/business-days.ts:6-8 | the date that respects holidays is never earlier, and later exactly if a holiday falls on a business day of the window |
| BusinessDays.RespectfulDate | src/utils/business-days.ts:6-8 | the date that respects holidays exists exactly if enough days stay open, and is unique |
| BusinessDays.FiniteHolidays | src/utils/business-days.ts:6-8 | under finitely many holidays enough days stay open |
| BusinessDays.MondayOff | src/utils/business-days.ts:6-8 | from a Sunday before a holiday Monday, the code's date is a day earlier than the one that respects the holiday |
| AmiTiers.QualifyAmiTier | client-tenant/src/lib/ami.ts:135-149 | the lowest tier whose limit the income meets; none for an income that is negative or not finite |
| AmiTiers.QualifiesExactly | client-tenant/src/lib/ami.ts:135-164 | a tier is offered exactly if the income is finite, not negative and within its limit, for any table and any household size |
| AmiTiers.KeptExactly | client-tenant/src/lib/ami.ts:135-164 | every income keeps a tier under another household size exactly if the limit does not fall |
| AmiTiers.LargerHousehold | client-tenant/src/lib/ami.ts:49-74 | over a monotone table a larger household keeps every tier, except that an infinite one keeps it exactly if one person has the same limit |
| AmiTiers.InfiniteHousehold | client-tenant/src/lib/ami.ts:49-54 | an infinite household is refused a tier that two people are offered |
| AmiTiers.LimitNearest | client-tenant/src/lib/ami.ts:36-74 | a limit is 30, 50, 60 or 80 fiftieths of the base for one to twelve persons, to the nearest dollar, halves up |
| AmiTiers.RentGreatest | client-tenant/src/lib/ami.ts:76-89 | the rent cap is the greatest whole rent within the tier's share of the 60% rent |
| HousingIndex.BuildIndex | tools/housing-qa/retriever.py:263-276 | the merge in place, with identities in `matched_ids`, builds the specified index of distinct objects |
| HousingIndex.Conserved | tools/housing-qa/retriever.py:263-276 | records number statewide + GPMG less overlays, no record is overlaid twice, statewide records keep their place |
| HousingIndex.AvailableCounted | tools/housing-qa/retriever.py:283-287 | available records number GPMG less the overlays onto appended records |
| HousingIndex.CarriedExactly | tools/housing-qa/retriever.py:268-276 | a GPMG record's data is in the index if and only if the match function does not pick the record appended for it when a later one comes |
| HousingIndex.CountExactly | tools/housing-qa/retriever.py:283-287 | as many records are available as the feed has exactly if the match function never picks an appended record |
| HousingIndex.FeedLost | tools/housing-qa/retriever.py:268-276 | a match function that picks the first record keeps one of two |
| Listings.FilterAttributes | tools/housing-qa/retriever.py:324-348 | the loop lists in order exactly the records whose city has the slug asked for, whose kind and unit types hold the texts, whose tiers hold the tier but for signs and blanks, and that are available if that is asked |
| Listings.CitiesAsSlugs | tools/housing-qa/retriever.py:317-319 | cities compare equal exactly if their slugs are equal |
| Listings.AvailableShownFirst | tools/housing-qa/retriever.py:630-649 | at most eight matches are shown, and one that is available now is left out only if all shown are available now |
| DemoCapture.Capture.StartDemoCapture | client-tenant/src/lib/demoCapture.ts:126-131 | a start takes the run id once and keeps the record of the history |
| DemoCapture.Capture.FlushSegment | client-tenant/src/lib/demoCapture.ts:53-68 | sealing uploads the open segment under the next number, or does nothing if it is empty or there is no run |
| DemoCapture.Capture.OnEmit | client-tenant/src/lib/demoCapture.ts:149-155 | the callback seals before a full snapshot and keeps the record of the history |
| DemoCapture.Capture.OnExit | client-tenant/src/lib/demoCapture.ts:134-143 | after an exit the uploads hold the whole session and the manifest counts them |
| DemoCapture.Capture.StopDemoCapture | client-tenant/src/lib/demoCapture.ts:171-180 | so they do after a stop |
| DemoCapture.NothingLost | client-tenant/src/lib/demoCapture.ts:53-68 | over every history uploads and open segment are the recorded events in order, numbered without gaps, none empty, and `segSeq` equals `segmentsWritten` |
| DemoCapture.PathsDistinct | client-tenant/src/lib/demoCapture.ts:48-64 | no upload overwrites another, even when the run id changes |
| DemoCapture.PathExactly | client-tenant/src/lib/demoCapture.ts:48-64 | a segment's file name prints its index with at least three digits |
| DemoCapture.NameOrder | client-tenant/src/lib/demoCapture.ts:48-50 | up to a thousand segments sort by name in order |
| DemoCapture.NameOrderBreaks | client-tenant/src/lib/demoCapture.ts:48-50 | the next one does not |
| DemoCapture.SelfContainedExactly | client-tenant/src/lib/demoCapture.ts:14-16 | over every history each segment after the first starts with a full snapshot if and only if recording never resumes without one after the page was hidden, left or stopped under a run |
| DemoCapture.VisibleIsSelfContained | client-tenant/src/lib/demoCapture.ts:14-16 | so it does while the page stays visible, whatever is restarted |
| DemoCapture.SnapshotsStartSegments | client-tenant/src/lib/demoCapture.ts:149-155 | if events are recorded only under a run, a full snapshot stands only at the start of a segment |
| DemoCapture.HidingCutsASegment | client-tenant/src/lib/demoCapture.ts:134-143 | after a hidden page a segment starts without one |
| QaSessionReplay.ReplayBuffer.Emit | client-tenant/src/lib/qaSessionReplay.ts:33-41 | the push and trim keep the buckets of the history |
| QaSessionReplay.ReplayBuffer.GetQaReplayEvents | client-tenant/src/lib/qaSessionReplay.ts:61-63 | returns the events since the second-latest checkout or the latest clear |
| QaSessionReplay.ReplayBuffer.ClearQaReplay | client-tenant/src/lib/qaSessionReplay.ts:65-67 | clearing starts the history of the buffer anew |
| QaSessionReplay.RollingWindow | client-tenant/src/lib/qaSessionReplay.ts:18-67 | over every history there are one or two buckets, reaching back to the latest and the second-latest checkout |

## Left out

- Strings are sequences of Unicode scalar values, not of UTF-16 code units; the patterns treat both alike, and file names are taken to sort alike.
- Numbers in the models are exact: floating-point rounding in `distributeMix` shares, income limits and rent caps is not modelled.
- Sanitizer: dates, errors and other class instances, and the contents of `*ids` arrays, which are handed on as they are.
- Logger: the symbol-keyed properties, the other formats and an own key `__proto__` on the record itself.
- LargestRemainder.DistributeMix: weights are whole numbers, as in the source's tables.
- UnitPlan.BuildUnitPlan: counts and rents are whole numbers, and labels that are names of inherited object properties are not treated as the source would.
- Migrate: a delta is one step that succeeds or fails, so partial effects of a failed file and a psql process that outlives its parent are not modelled; `baseline`, `down` and `reset` take no lock and are excluded.
- Migrate.NoDeadlock: one step of progress only; a foreign session that never gives back a colliding lock can block every run.
- JobLock: the unlock query does not fail on a standing session, which would hand a locked session back to the pool, and the database frees the locks of a lost session at once.
- Windsor.ImportTwice: idempotence is stated for lots that are not displaced, because it fails for the others.
- GpmParcels.ImportTwice: assumes that both runs complete; which statements are refused is stated by ImportStops, and a second run after a refusal by ImportTwiceDistinct for distinct keys only.
- GpmParcels: column lengths, and row names that are names of inherited object properties.
- `updated_at`, log lines, and the ids that the database generates: rows are numbered instead.
- Slugs: names are ASCII, and the retriever's fallback for an empty result is not included.
- BusinessDays: a date is a day number and a time of day; clocks, time zones and daylight saving are not modelled.
- HousingIndex: the match function is a parameter, and only where a record came from and whose availability data it carries are modelled; the attribute tests are in Listings.
- DemoCapture: uploads count as made when issued; an event counts as a full snapshot by the checkout flag of the callback, because what `@rrweb/record` emits is not part of this model; the funnel events and their debounce timer are not modelled.
- React pages, Express wiring, authentication, encryption, payments and rate limits: thin wrappers over libraries.
- The RBAC tables and the verdict precedence of the screening harness: finite tables without state, loops or arithmetic.
- The compliance tape: its triggers are plain DDL and its hash chain is not part of this model.
