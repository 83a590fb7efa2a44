# SoroProbe: a verified model of its core

SoroProbe inspects the state of Soroban contracts: it encodes typed arguments, reads ledger entries, judges
their remaining lifetime, simulates calls and checks their results and costs, for one contract or for a batch
of them, from a command line or a rate-limited HTTP service. This project models the parts of it that carry
logic over unbounded inputs, in Dafny, and proves what those parts are for.

`dafny verify dfyconfig.toml` checks everything.

## How the model is laid out

| file | models |
|---|---|
| `Wrappers`, `Text`, `Hex`, `Decimal`, `Words` | results and options; the `strings`, `hex` and `big.Int` behaviour the codec relies on; decimal literals; two's complement words |
| `ScVals`, `Codec`, `Spellings` | Soroban values; `Registry.Encode` and `Decode` with vec and map; which texts stand for which values |
| `Annotate`, `TypedArguments`, `JsonText` | typing arguments from a contract's interface; what typing does to their meaning; the JSON text it prints |
| `Wasm` | the reader of LEB128 numbers and custom sections |
| `Health`, `Inspect`, `Check` | TTL status, `inspectUncached`, the check and its verdict |
| `Batch`, `Prefetch`, `Replay`, `Refinement`, `Workers` | batch validation; the two fetch rounds; the replay; why they may stand in for separate checks; the worker pool |
| `LedgerReports` | what a report, a check and a batch say of the ledger, over its entries |
| `CacheKeys`, `Reports`, `InspectCache`, `CachedInspect` | the inspect cache: its keys, the reports on the heap and their clones, the cache object, `Inspect` over it |
| `TokenBucket` | the HTTP rate limit |
| `CostGates` | the spread of repeated simulations and the comparison with a baseline |

Where the source updates things step by step there is a method with the same loop, proved equal to a function
or against a predicate; the lemmas are about that function. `Context`, the reports and their cells, the cache, the
prober and the rate limiter are classes. The worker pool is a step relation: one event is one atomic step of
one goroutine, and a run is any sequence of events.

What stands for the outside world:

- the RPC client is a function from a list of keys to entries or an error; the lemmas about one ledger ask only
  that whatever it answers is that ledger's (`Refinement.ReadsLedger`), so any set of requests may fail;
- a context lives for some number of moments, any number or for ever (`Batch.Context`); a moment passes at each
  look at it and while a check runs. What a check ends in when its context is done by then, an error or its own
  outcome because it did not notice, is a parameter (`Replay.RunCheck`);
- the prober's remaining calls (simulation, extension estimates, contract id parsing) are functions it is given,
  and the note on the close time, which on a live context can always be had, is a value; `CachedInspect` lets
  prober and client differ from moment to moment;
- the clock is an argument: nanoseconds as `int`, which do not go back, in the cache; seconds as `real` in the rate
  limit, where the time is read before the lock is taken, so requests come in any order of their times;
- percentages and token counts are exact reals;
- an argument that holds a JSON array is kept as its text together with the parsed elements
  and the whitespace around it (`Codec.Spec`, case `Array`); `json.Marshal` of a list of strings produces such a
  value.

## Where the code differs from what is said about it

- `internal/scval/encode.go:241-244` calls 76 the largest useful decimal count because ten to the
  seventy-seventh does not fit in 256 bits. It does fit unsigned (`ScVals.LargestPowerOfTen`); 76 is only a
  bound, and nothing here uses it as more.
- Inference is described as a total fallback to symbol and string. It is not: `Codec.InferenceFailsExactly` says
  when it fails, and `Codec.InferenceRefuses` has `-+5`, taken for an integer, and `TrUE`, taken for a boolean.
- The comment on `spec` says a literal is returned unchanged when it names its type or its declared type has no
  literal form; a vec or map literal that does not start with `[` is passed through as well, and nothing else is:
  `Annotate.UnchangedExactly`.
- `annotator.vec` and `mapSpec` look for `[` after trimming Unicode whitespace but unmarshal the untrimmed text,
  so whitespace that JSON does not know makes them fail where the codec succeeds. When the elements annotate, only
  that does (`Annotate.OnlyJsonWhitespaceAnnotates`, with a no-break space in `Annotate.NoBreakSpaceIsRefused`).
  Where a map is declared they also refuse lists that are no pairs, although the codec encodes those as vecs
  (`Annotate.ListsAreNoPairs`). `Annotate.FailsExactly` is the whole condition, at any depth.
- RPC takes at most 200 keys a request. Only the prefetched batch splits its requests, so a check with 200 data
  keys or more runs in a batch and is refused alone: `Refinement.OnlyBatchesSplitTheirRequests`.
- The prefetch can be incomplete: when the second round brings, unasked, an instance entry of a checked contract
  whose code is none of those fetched, the replay ends in the "not prefetched" error, and only then:
  `Refinement.ReplaysAreStarvedExactly`, with such a server in `Refinement.UnsolicitedEntriesStarveAReplay`.
- `checkBatchPrefetched` does not look at its context after the last check. So the last item, and no other, is the
  error of a check cut short exactly when the context ends behind the last look and that check is replayed and
  notices: `Replay.CheckBatchPrefetched`.
- The comment on `inspectCacheKey` says the key identifies the contract, the durability and the exact ordered set of
  data keys. It identifies the list of the parts between separators (`CacheKeys.KeysAgreeExactly`). With ids that
  have no NUL in them, only a request for no data key, or for one without a NUL, has its key to itself
  (`CacheKeys.ShortRequestsOwnTheirKeys`); any other shares it with a different question, which a cached report
  then answers (`CachedInspect.SharedKeysShareAnswers`).
- The inspect cache hands out the cached slice of extension estimates itself (`CachedInspect.EstimatesAreShared`),
  and leaves the requested extension out of its keys (`CacheKeys.KeysIdentifyQuestions`).
- `evictOldestClient` takes an empty client address for "none yet". It evicts a client not seen for longest, in
  whatever order the map is walked, exactly when no client with an empty address was seen before all others:
  `TokenBucket.EvictsTheOldestExactly`.
- Replacing a report in a full cache evicts first, though no room is needed, so `max - 1` others suffice to lose a
  live entry: `InspectCache.OverwritingPushesOut`, with a run in `InspectCache.OverwritingLosesALiveKey`.
- `SpreadReport.Max` is the maximum of every figure but keeps the first run's total fee:
  `CostGates.TotalFeeIsTheFirst`.
- Footprint changes can be wrong about a label that a run has twice. `CostGates.ChangesAreRightExactly` says when
  they are right, and `CostGates.DuplicateLabelsMislead` has one case of each kind where they are not.
- An object decoded from a map loses entries whose keys decode alike: `Codec.MergedKeys`.

## Model

| member | source | states |
|---|---|---|
| LedgerReports.ReportsDescribeTheLedger | internal/probe/inspect.go:138-221 | On a client that reads the ledger and never fails, everything an inspection returns: the error of a bad contract id, of the first bad data key, of an unreadable instance or of the estimate; or whether the contract is deployed, its executable, hash and storage, and for the instance, the code (when there is a hash) and every data key at the durability asked for: present if and only if the entry is on the ledger, with the entry's own live-until, the ledgers left, the thresholds set for that kind or else the common ones, and the status that comparing them gives; and as status the worst of these |
| LedgerReports.ChecksJudgeTheLedger | internal/probe/check.go:136-204 | On such a client a check cannot run if and only if there is no such report or its call cannot be made; and it is OK if and only if instance, code and all data keys are on the ledger with more ledgers left than the critical threshold, the call with exactly these arguments succeeds, and it returns the expected value |
| LedgerReports.JudgeBatch | internal/probe/batch.go:175-304 | The prefetched engine on such a client and a living context: every item is the one check's result so described, the batch is OK if and only if every contract deserves it, and has errors if and only if some check cannot run |
| Refinement.BatchRefinesSeparateChecks | internal/probe/batch.go:175-304 | On one ledger, for any list of checks with shared or repeated keys and whatever requests fail, each check's outcome in the prefetched batch is the error of the first lost key it needs, else of its lost code entry, else exactly what a separate Check on a client that never fails returns |
| Refinement.FirstErrorIsFirstLost | internal/probe/batch.go:209-214 | The search between the rounds finds the error of the first key, in the plan's order, that was lost |
| Refinement.WithoutFailuresTheBatchIsTheChecks | internal/probe/batch.go:175-304 | When no request fails, every check gets exactly the result or error of its own separate Check |
| Refinement.CheckBatchOnLedger | internal/probe/batch.go:175-304 | The engine run on one ledger: while its context lives it reports the items just described, and when no request fails exactly those of the separate Checks |
| Refinement.ReplaysAreStarvedExactly | internal/probe/batch.go:240-363 | For any two clients, any chunk failures and any end of the context in either round: a check that reaches the replay gets its first request answered, and it asks for code that was never fetched if and only if the second round brought its instance entry unasked, readable, with a hash whose code key is none of those collected; its outcome is then that error |
| Refinement.ReplaysAreNeverStarved | internal/probe/batch.go:338-363 | So when the second round brings nothing unasked, every request of a replayed report is answered from the tables, whatever failed, whenever the context ended and however the network changed between the rounds |
| Refinement.UnsolicitedEntriesStarveAReplay | internal/probe/batch.go:345-363 | A family of servers that answer with an entry nobody asked for, for which the replay does end in "not prefetched" |
| Refinement.OnlyBatchesSplitTheirRequests | internal/probe/batch.go:161-161 | A server limit of 200 keys or more changes nothing for the two rounds; a separate check is refused exactly when its data keys reach the limit, and is unchanged otherwise |
| Refinement.FetchIsTruthful | internal/probe/batch.go:306-336 | What a round brings from one ledger is that ledger's, only for keys asked for, and nothing is missing for an answered key |
| Refinement.CachedGetAnswers | internal/probe/batch.go:345-363 | The cached client answers prefetched keys as the ledger would |
| Refinement.ReportsDependOnTheLedger | internal/probe/inspect.go:138-221 | Two clients that serve the same ledger, in whatever order they list entries, give the same report or error |
| Refinement.InitialKeysFacts | internal/probe/batch.go:176-198 | The first round's keys are distinct, are data keys and include every key of every plan |
| Refinement.CodeKeysFacts | internal/probe/batch.go:200-237 | The second round's keys are distinct, are code keys and include every code key discovered |
| Refinement.KeysComeInOrder | internal/probe/batch.go:176-237 | Both rounds ask for their keys in the order in which the checks, and the plan of each, first bring them |
| Prefetch.FetchBatchEntries | internal/probe/batch.go:306-336 | The chunk loop brings what FetchUpTo says for the number of chunks sent before the context ended, all of them while it lives |
| Prefetch.EveryKeyIsAnswered | internal/probe/batch.go:306-336 | After the round each distinct key is in exactly one of latest and errors, and no other key is in either, whatever failed and whenever the context ended |
| Prefetch.KeysShareTheirRequest | internal/probe/batch.go:312-336 | Each key sent for has the ledger of the answer to its own request, or the error with which that request failed |
| Prefetch.UnsentKeysHaveTheContextsError | internal/probe/batch.go:316-322 | A key that was not sent for has the context's error |
| Prefetch.RequestsCoverTheKeys | internal/probe/batch.go:312-322 | The requests sent, end to end, are a prefix of the key list and at the end all of it; each has 1 to 200 keys, and there are as few as that allows; so no distinct key is sent twice |
| Prefetch.CachedGetLoop | internal/probe/batch.go:345-363 | The loop of the cached client returns what CachedGet defines |
| Prefetch.CachedGetExactly | internal/probe/batch.go:345-363 | The cached client answers if and only if every key is known and none is lost, with their entries in order and the first key's ledger; otherwise with the trouble of the first key that has any |
| Replay.CheckBatchPrefetched | internal/probe/batch.go:175-304 | The whole engine: it fails if and only if its context is done by the last look; otherwise item i is what the two complete rounds make of check i, and the last item is the error of a check cut short exactly when the context ends behind that look, the check is replayed and it notices; every item has its check's name and contract, and the flags summarise the items |
| Replay.PlanRound | internal/probe/batch.go:176-198 | The first loop plans every check and collects the new keys in order, unless the context ends by its last look |
| Replay.CodeRound | internal/probe/batch.go:200-237 | The second loop finds each check's state and collects the new code keys in order |
| Replay.ReplayRound | internal/probe/batch.go:266-304 | The third loop reports an item for every check, in input order, or the ended context, each exactly when; only the last check can be cut short in a report |
| Replay.RunCheck | internal/probe/ledger_time.go:43-60 | A check returns its own outcome, unless its context is done and it notices: then the error it ends in |
| Batch.ValidateBatch | internal/probe/batch.go:434-464 | A batch is accepted if and only if it has 1 to 100 checks, each with a contract id, a non-negative timeout and a known durability, and no two that go by one name, the given one or else the contract id; otherwise the first thing wrong is reported, with its index and kind, everything before it being in order |
| Batch.Summarize | internal/probe/batch.go:147-157 | OK if and only if every check ran and passed; Errored if and only if some check could not be run |
| Batch.Context.Err | internal/probe/batch.go:180-182 | A look takes one moment and sees whether the life of the context is over; a context once done stays done |
| Workers.WorkerCount | internal/probe/batch.go:91-98 | One worker for a concurrency of zero, the requested number up to the number of checks, and that number beyond it |
| Workers.StepKeepsInv | internal/probe/batch.go:107-142 | Every step of every worker, and cancellation at any moment, keeps: no two workers hold one index, held slots are empty, items are legitimate, and while the batch lives no taken check is dropped |
| Workers.EverySlotIsFilled | internal/probe/batch.go:91-158 | In every run that ends alive, every slot holds exactly one of result and error, of its own check; anything but the check's own outcome only under a time limit |
| Workers.ItemsReportTheirRuns | internal/probe/batch.go:116-141 | In every run, whatever stands in a slot has its check's name and contract and reports the outcome in which some worker's run of that very check ended: its result, its error, or a timeout if and only if the check has a time limit and the deadline passed |
| Workers.ResultsAreKept | internal/probe/batch.go:116-141 | No result is dropped, not even when the batch is cancelled after the check has run: with all workers gone it is in its own slot |
| Workers.ConcurrencyIsInvisible | internal/probe/batch.go:91-158 | Without time limits, every interleaving with any number of workers yields the sequential items |
| Workers.EachIndexOnce | internal/probe/batch.go:100-122 | In every run, no index is taken twice and no slot is written twice |
| Workers.EveryRunEnds | internal/probe/batch.go:107-142 | No run is longer than six steps a check, one a worker and one for cancellation |
| Workers.NoWorkerIsStuck | internal/probe/batch.go:109-141 | In every reachable state each worker that is not gone has a step it can take, so runs end only with all workers gone |
| Workers.Report | internal/probe/batch.go:143-157 | With all workers gone: an error exactly when cancelled, else all items and their summary |
| Workers.EnginesAgree | internal/probe/batch.go:70-86 | On one ledger without failures and time limits, the worker pool and the prefetched batch report the same items |
| Inspect.EncodeDataKeysLoop | internal/probe/inspect.go:442-461 | The loop over the data keys: all encoded in order, or the first failure |
| Inspect.IndexEntriesLoop | internal/probe/inspect.go:465-471 | The index holds the last entry of each key |
| Inspect.LastEntryIsFound | internal/probe/inspect.go:465-471 | Of the entries with one key the last is found, and a key without an entry is not |
| Inspect.ReportsOnlyAge | internal/probe/inspect.go:138-221 | With entries fixed, a report at a later ledger is never milder than at an earlier one |
| Check.RunStepsLoop | internal/probe/check.go:171-180 | The step loop: all checks of the steps up to the first that stops, or the first error |
| Check.FindFailure | internal/probe/check.go:182-188 | OK if and only if no check failed |
| Check.VerdictIsCharacterised | internal/probe/check.go:136-204 | A check is OK if and only if the status has severity at most 2, the call succeeded if there was one, and the expectation is met if there was one |
| Check.ChecksAreListed | internal/probe/check.go:95-180 | The list of checks: one failure without a contract, else all six steps in order, each entry passing, warned about or failing by its status |
| Check.TtlFailuresDoNotHeal | internal/probe/check.go:195-204 | With entries fixed, a check that fails on expiration fails at every later ledger |
| Check.EntriesFailFromTheirCriticalLedger | internal/probe/check.go:195-204 | The exact ledgers in which an entry fails and is warned about |
| Check.MatchMeaning | internal/probe/check.go:369-391 | Values match if and only if they are the same number, or neither is a number and they are equal |
| Check.MatchingIsAnEquivalence | internal/probe/check.go:369-391 | Matching is reflexive, symmetric and transitive |
| Check.NumbersMatchAcrossWidths | internal/probe/check.go:369-391 | A number that fits two integer types matches itself across them |
| Check.IntegersMatchByValue | internal/probe/check.go:369-391 | Two encoded literals of any integer types match if and only if they are the same number |
| Check.MismatchIsByType | internal/probe/check.go:369-391 | A type mismatch is reported exactly when the values cannot match by type, and never with a match |
| Health.WorstLoop | internal/health/health.go:82-90 | The scan finds the first status of the highest severity |
| Health.Worst | internal/health/health.go:82-90 | The worst status is one of those given (or healthy) and no milder than any |
| Health.EntriesOnlyAge | internal/health/health.go:202-233 | An entry's severity never drops as ledgers close, whatever the thresholds |
| Health.WorstIsMonotone | internal/health/health.go:82-90 | The worst status rises when every status does |
| Text.TrimmedExactly | internal/scval/encode.go:107-107 | Trimming takes the whitespace around a literal, only that and all of it |
| Decimal.ScanDigits | internal/scval/encode.go:336-343 | The scan accepts exactly the runs of digits |
| Decimal.ScaledLiteralsAreExact | internal/scval/encode.go:257-331 | A literal with "@" is accepted with value n if and only if it spells a sign, whole digits, a point and fraction digits, not all empty, with a decimal count of at most 76 that covers the fraction, and n is exactly that amount |
| Decimal.UnitsAreExact | internal/scval/encode.go:292-298 | The accepted number of base units is the amount times ten to the decimals, without rounding, and the only such number |
| Decimal.ScaleOfSpelling | internal/scval/encode.go:299-331 | Every well-formed spelling is scaled exactly or refused because its fraction is too fine |
| Decimal.PlainLiterals | internal/scval/encode.go:279-290 | A literal without "@" is accepted exactly when it is an optional sign and digits |
| Decimal.WholeNumbersAreExact | internal/scval/encode.go:279-290 | A whole number is read exactly from an optional sign and digits: plus changes nothing, minus negates |
| Decimal.RefusalsAreExact | internal/scval/encode.go:257-331 | Every refusal of an integer literal, exactly: nothing in it, a point without a decimal count, a count that is none or above 76, a value that spells no amount, or more fraction digits than the count |
| Decimal.ParseFormatInt | internal/scval/encode.go:257-290 | The canonical text of every integer parses back to it |
| Decimal.CanonicalTextsAreKept | internal/scval/encode.go:279-290 | Exactly the texts without a plus sign, superfluous zeros or a minus before zero are printed again as they were read |
| Words.TwosComplementWords | internal/scval/encode.go:364-379 | The masking and shifting loop leaves the two's-complement words, most significant first |
| Words.WordsToBigInt | internal/scval/decode.go:236-247 | The shifting loop and the sign correction give the number the words spell |
| Words.FromToWords | internal/scval/encode.go:364-379 | Every number that fits survives the trip through words, signed or not, for any count |
| Words.ToFromWords | internal/scval/decode.go:236-247 | Every word list survives the trip through numbers and spells one that fits |
| ScVals.IntegerEncodingIsFaithful | internal/scval/encode.go:346-437 | For all eight types a literal encodes exactly when it parses to a number in range, and the value reads back as that number |
| ScVals.IntegerRoundTrip | internal/scval/encode.go:346-437 | The decimal text of n encodes and reads back as n if and only if n is in the type's range |
| ScVals.IntegerValueRoundTrip | internal/scval/decode.go:250-305 | Every integer value is what its own decimal text encodes to |
| ScVals.LargestPowerOfTen | internal/scval/encode.go:241-245 | Ten to the seventy-seventh fits an unsigned 256-bit integer and the next power does not, while the limit is 76 |
| Spellings.ScalarsReadBack | internal/scval/encode.go:17-42 | For every scalar value, under each name of its type in any case, its text encodes to that value if and only if a symbol in it is legal, an address valid and a string not in quotes |
| Spellings.DecodingShowsTheText | internal/scval/decode.go:18-117 | That text is what decoding shows, and booleans and 32-bit numbers decode to themselves |
| Spellings.ArgumentsStandForExactly | internal/scval/scval.go:106-136 | Arguments can stand for exactly the values, however deep, whose symbols are legal and addresses valid and that hold nothing only the network makes |
| Spellings.SpellingsReadBack | internal/scval/collections.go:14-135 | Every such value has a spelling, printed level by level, that encodes back to it |
| Spellings.EncodedCanBeSpelled | internal/scval/scval.go:106-136 | And nothing else is ever encoded |
| Spellings.InferenceReadsBack | internal/scval/encode.go:44-64 | The bare text of a value is inferred to be that value if and only if it is void, a boolean, an address, an i128, a symbol or a string that no earlier rule takes |
| Spellings.BooleansAgree | internal/scval/encode.go:106-112 | A boolean literal is accepted if and only if, trimmed, it is one of the spellings, and means what "true" or "false" means |
| Spellings.CountsAreUnsigned | internal/scval/encode.go:162-178 | Points in time and durations are accepted if and only if an unsigned 64-bit integer in bare digits is, as the same number |
| Spellings.QuotedTextIsKept | internal/scval/encode.go:95-104 | Between quotes of either kind every string is kept as it is |
| Spellings.BytesAreHexText | internal/scval/encode.go:197-205 | A literal is some bytes if and only if, but for the case of letters, quotes and "0x", it is their hex text |
| Spellings.TypedExactly | internal/scval/scval.go:144-174 | An argument names its type if and only if it is void or null or begins with a registered name in any case and a colon |
| Spellings.BareElementsAreNoText | internal/scval/collections.go:109-138 | A bare JSON element is a truth value, void or an integer, never text, and an object is refused |
| Codec.IntegersDecodeCanonically | internal/scval/decode.go:31-89 | An integer in range, encoded and decoded, is its canonical decimal text (or the number itself at 32 bits) |
| Codec.CanonicalTextSurvives | internal/scval/decode.go:31-89 | A canonical decimal text encodes if and only if its number is in range, and then decodes to that same text (at 32 bits to its number) |
| Codec.InferenceFailsExactly | internal/scval/encode.go:44-80 | Inference fails if and only if the text is a truth value in mixed case, or an integer form that starts with "-+" or does not fit an i128 |
| Codec.InferenceRefuses | internal/scval/encode.go:44-80 | Two arguments that inference refuses: one with two signs, one a boolean in mixed case |
| Codec.EncodeVecLoop | internal/scval/collections.go:53-71 | The vec loop encodes as the recursive definition does, at every depth |
| Codec.EncodeMapLoop | internal/scval/collections.go:79-105 | The map loop encodes as the recursive definition does, at every depth |
| Codec.EncodeAll | internal/scval/scval.go:126-136 | All arguments in order, or the index and cause of the first that fails |
| Codec.ElementsPointwise | internal/scval/collections.go:53-71 | A vec encodes exactly when every element does, in order and one for one |
| Codec.PairsPointwise | internal/scval/collections.go:79-105 | A map encodes exactly when every item is a pair whose halves encode; order and count are kept |
| Codec.NestingLimit | internal/scval/collections.go:51-140 | For array nesting whose leaves encode, exactly the nesting up to 32 levels is accepted |
| Codec.VecDecodesElementwise | internal/scval/decode.go:119-131 | Decoding an encoded vec is decoding each element's own encoding |
| Codec.ItemsPointwise | internal/scval/decode.go:119-131 | Decoding a vec is decoding each item, in order |
| Codec.EntriesPointwise | internal/scval/decode.go:159-200 | Decoding map entries succeeds exactly when every key and value decodes, and is then each of them, in order |
| Codec.DecodeMapLoop | internal/scval/decode.go:159-200 | The loop of decodeMap builds an object when every key is text and a list of pairs otherwise |
| Codec.ObjectsKeepEveryEntry | internal/scval/decode.go:159-200 | The object has one field per entry if and only if the decoded keys are distinct |
| Codec.LastEntryWins | internal/scval/decode.go:159-200 | Of entries whose keys decode alike, the last is kept |
| Codec.MergedKeys | internal/scval/decode.go:159-200 | A map with two different keys that decodes to an object with one field |
| Codec.BytesRoundTrip | internal/scval/encode.go:197-205 | The hex text of any bytes encodes to those bytes |
| Annotate.AnnotationIsSound | internal/abi/abi.go:149-280 | If a literal annotates and its annotation encodes, every position holds a value of the declared kind, recursively through option, vec and map, except where the literal named its own type or is passed through as described |
| TypedArguments.AnnotationKeepsTheMeaning | internal/abi/abi.go:149-280 | What annotation makes of a literal encodes to the value that the literal spells when read by its declared type, position by position through option, vec and map, or fails to for the same reason |
| TypedArguments.TypingKeepsTheLiteral | internal/abi/abi.go:199-206 | A scalar literal gets its kind and a colon in front, and the codec splits off just that and has the literal back |
| TypedArguments.IntegersKeepTheirNumber | internal/abi/abi.go:199-206 | A typed integer argument encodes if and only if its text reads as a number in the declared range, and is then that number in that type |
| TypedArguments.EncodeArguments | internal/probe/simulate.go:313-321 | Typing and encoding the arguments of a call: each the value it spells at its declared type, or by inference without an interface; otherwise the wrong count, the argument that is refused, or the index and cause of one that does not encode |
| JsonText.ListsReadBack | internal/abi/abi.go:282-288 | The JSON text of a typed list reads back as the texts of its elements |
| JsonText.TablesReadBack | internal/abi/abi.go:227-252 | The JSON text of a typed map reads back as its pairs |
| Annotate.AnnotationIsIdempotent | internal/abi/abi.go:173-206 | Annotating an annotated argument changes nothing |
| Annotate.AnnotatedOrUnchanged | internal/abi/abi.go:171-206 | What the annotator returns names its type or is the literal as written |
| Annotate.UnchangedExactly | internal/abi/abi.go:171-206 | A literal is returned unchanged if and only if it names its type, its type has no literal form for it, or it is a vec or map literal that does not open an array, through any options |
| Annotate.FailsExactly | internal/abi/abi.go:171-280 | A literal is refused if and only if, through options and at any depth of elements, keys and values, one that does not name its type and opens an array is no JSON array as it stands, or one item of a map is not a list of two |
| Annotate.OnlyJsonWhitespaceAnnotates | internal/abi/abi.go:185-252 | A vec or map literal between whitespace whose elements annotate is refused if and only if some of that whitespace is none that JSON knows; the codec encodes it as if there were none |
| Annotate.NoBreakSpaceIsRefused | internal/abi/abi.go:185-252 | An array behind a no-break space that the codec encodes and the annotator refuses |
| Annotate.ListsAreNoPairs | internal/abi/abi.go:227-252 | A list of two empty lists in a vec of maps: the codec encodes it, the annotator refuses it |
| Annotate.BracketsArePassedThrough | internal/abi/abi.go:257-280 | The annotator leaves a leading "[" only when it passes the literal through |
| Spellings.BracketsAreSeen | internal/abi/abi.go:191-198 | A literal opens an array if and only if its trimmed text begins with a bracket, and is kept a vec if and only if its text as it is does |
| Annotate.AnnotateVecLoop | internal/abi/abi.go:210-224 | The element loop annotates as the recursive definition does |
| Annotate.AnnotateArguments | internal/abi/abi.go:149-165 | Every argument typed by its own parameter; a wrong count is reported before anything else, and otherwise the index and cause of the first argument that fails |
| Wasm.ReadUlebLoop | internal/abi/chain.go:164-181 | The loop reads what ReadUleb defines, within bounds on any bytes |
| Wasm.ReadUlebAcceptsExactly | internal/abi/chain.go:164-181 | A read succeeds with v and end if and only if the bytes up to end are a one to five byte LEB128 encoding of a 32-bit v |
| Wasm.ReadInvertsEncode | internal/abi/chain.go:164-181 | Reading inverts the canonical encoder, whatever stands around it |
| Wasm.LoopNeverRunsOut | internal/abi/chain.go:180-180 | The return after the loop is never reached |
| Wasm.CustomSectionLoop | internal/abi/chain.go:134-162 | On any bytes the scan stays within bounds, moves forward and returns what CustomSection defines |
| Wasm.PrintedModulesParse | internal/abi/chain.go:134-162 | For a header and any well-formed sections the scan yields the payload of the first custom section of the wanted name, or fails if there is none |
| Wasm.FindPast | internal/abi/chain.go:134-162 | The same with arbitrary bytes behind the sections: the first of its name among them is found, and otherwise the scan goes on behind them |
| Wasm.FoundSectionsArePrinted | internal/abi/chain.go:134-162 | Conversely whatever is found on arbitrary bytes stood in well-formed sections, the last of them the first of its name |
| Wasm.LackingSectionsArePrinted | internal/abi/chain.go:134-162 | And when the section is reported missing, the bytes are well-formed sections to their end, none of its name |
| Wasm.CustomSectionExactly | internal/abi/chain.go:134-162 | On any bytes: a content is returned if and only if well-formed sections behind the header show it first, whatever follows; the section is missing if and only if the rest is well-formed sections without it; the module is invalid if and only if its header is |
| CacheKeys.InspectCacheKeyLoop | internal/probe/inspect_cache.go:50-65 | The builder loop writes the key |
| CacheKeys.KeysAgreeExactly | internal/probe/inspect_cache.go:50-65 | Any two requests have one key if and only if their contract, defaulted durability and data keys, each split at every NUL, are the same list |
| CacheKeys.KeysAgreeOnIds | internal/probe/inspect_cache.go:50-65 | With ids that have no NUL in them: if and only if the ids are equal and the data keys, split at every NUL, are the same list |
| CacheKeys.ShortRequestsOwnTheirKeys | internal/probe/inspect_cache.go:50-65 | With such ids a request shares its key with no other question if and only if it asks for no data key, or for one without a NUL |
| CacheKeys.KeysIdentifyQuestions | internal/probe/inspect_cache.go:50-65 | So between requests without any NUL, two keys are equal if and only if contract, defaulted durability and ordered data keys are; the extension is not part of it |
| CacheKeys.DurabilityDefaultsToPersistent | internal/probe/inspect_cache.go:50-54 | A request that names no durability shares its key with one for persistent data |
| CacheKeys.KeyAsOneList | internal/probe/inspect_cache.go:50-65 | The key is its parts with a separator before each, and never empty |
| CacheKeys.SeparatorsInKeysCollide | internal/probe/inspect_cache.go:57-65 | One data key with a separator in it has the key of the two data keys around it, whatever else is asked |
| CacheKeys.ReportsAnswerQuestions | internal/probe/inspect.go:378-400 | Requests with the same question and extension get the same report |
| Reports.CloneEntry | internal/probe/inspect_cache.go:153-160 | The copy has the same value and a live-until cell of its own |
| Reports.Report.Clone | internal/probe/inspect_cache.go:134-149 | The copy has the same value, owns everything reachable through its instance, code and data, and shares its estimates |
| InspectCache.InspectCache.constructor | internal/probe/inspect_cache.go:35-45 | An empty cache of the given size, or of 256 when that is not positive |
| InspectCache.InspectCache.Get | internal/probe/inspect_cache.go:68-85 | A hit if and only if a live entry is present, with the value last put under the key less than ttl ago, in a report the caller owns; an expired entry is dropped |
| InspectCache.InspectCache.Put | internal/probe/inspect_cache.go:88-102 | Afterwards the key holds the value, at most one live entry gave way, one that expires first, and the invariant holds: never more than max entries, and a live entry proves that every key put later is present |
| InspectCache.InspectCache.Evict | internal/probe/inspect_cache.go:106-129 | Room is made by dropping the expired entries, and one that expires first only if that is not enough |
| InspectCache.MakingRoomKeepsAge | internal/probe/inspect_cache.go:106-129 | Eviction leaves room and keeps the order of ages: only the least recently put live entry goes |
| InspectCache.MakingRoomEarnsLosses | internal/probe/inspect_cache.go:106-129 | A live key is lost only when at least max - 1 other keys were put no earlier |
| InspectCache.OverwritingPushesOut | internal/probe/inspect_cache.go:97-129 | In a full cache of live entries, storing a present key again may push out another live one although only max - 1 others were put since: the bound is reached |
| InspectCache.OverwritingLosesALiveKey | internal/probe/inspect_cache.go:88-129 | A run of three puts that does so, with room for two |
| InspectCache.PuttingKeepsAge | internal/probe/inspect_cache.go:97-101 | Storing the new entry keeps both |
| CachedInspect.CachingProber.Inspect | internal/probe/inspect.go:119-135 | For any request: an answer is the uncached one, or the uncached answer, less than ttl earlier, to a request with the same key; to the same question where the key tells it, and to the same request where that asked for the same extension; a live entry always answers; errors are never cached; and whether hit or miss, what the caller gets shares nothing it owns with the cache, which holds the same value |
| CachedInspect.SourcedHit | internal/probe/inspect.go:119-135 | A stored report is the answer, when it was stored, to a request that was asked and has its key |
| CachedInspect.EarlierAnswersCount | internal/probe/inspect.go:119-135 | Where no NUL is in either request, or the asking one has its key to itself, that request asked the same question, and with the same extension it is the answer the asking one would have had then |
| CachedInspect.SharedKeysShareAnswers | internal/probe/inspect.go:119-135 | Of two requests that share a key, the second gets the report of the first while that lives |
| CachedInspect.HitsAreIsolated | internal/probe/inspect_cache.go:131-149 | Whatever a caller writes into the instance, code and data of a hit, the next hit is unchanged |
| CachedInspect.AnswersAreIsolated | internal/probe/inspect.go:119-135 | Whatever a caller writes into the instance, code and data of any answer, a hit or the report a miss has just cached, the next hit has the value of that answer, and it is a hit while the entry lives |
| CachedInspect.EstimatesAreShared | internal/probe/inspect_cache.go:134-149 | Writing to a hit's estimates changes the cached report |
| TokenBucket.RateLimiter.TakeTokens | internal/api/api.go:316-339 | At any time, earlier ones included: a request is told to wait if and only if, since its client's bucket was made, with the burst in it, or since one of its requests, with the capacity then, more would be admitted than was there and flowed in; a new client's request within the burst is admitted and leaves burst minus cost; other clients stay, but for the one that the scan chooses to make room; there are never more than 10000 clients |
| TokenBucket.RateLimiter.EvictOldestClient | internal/api/api.go:341-350 | The scan over the clients in some order evicts the one that Chosen defines, a client that was there |
| TokenBucket.EvictsTheOldestExactly | internal/api/api.go:341-350 | In every order the client evicted was seen no later than any other, if and only if no empty address is a client, or it is the only one, or some other client was seen no later than it |
| TokenBucket.Draw | internal/api/api.go:328-338 | The field updates in order give the bucket and delay that TakeFrom defines |
| TokenBucket.RefusedExactly | internal/api/api.go:328-338 | The same for any bucket, any requests and any order of their times: refused if and only if some part of the run does not allow the cost |
| TokenBucket.UncutRunsLoseNothing | internal/api/api.go:328-338 | While the capacity never cuts a refill, a request is refused if and only if what was admitted plus its cost exceeds what was there plus what flowed in |
| TokenBucket.TheBurstIsGranted | internal/api/api.go:319-338 | With times in order, requests of a new client that cost no more than the burst in all are admitted, every one |
| TokenBucket.RunsConserve | internal/api/api.go:316-339 | Over any run, its times in any order: tokens at most the capacity, which is the largest of the first one and the costs seen; and what was admitted plus what is left is at most what there was plus what flowed in up to the last request's time |
| TokenBucket.AnyOrderIsBounded | internal/api/api.go:316-339 | So, in any order of the times, a client is admitted at most what it had plus what the rate brought up to the latest of them |
| TokenBucket.EveryClientIsBounded | internal/api/api.go:316-339 | That bound for every bucket that the server keeps, from its burst and its creation on |
| TokenBucket.OrderedRunsStaySound | internal/api/api.go:316-339 | With times in order the tokens never go below zero |
| TokenBucket.BurstAndRateBoundARun | internal/api/api.go:316-339 | With times in order a client was, since its creation, admitted at most burst plus rate times elapsed time, and its tokens are between zero and a capacity that is the largest of burst and costs |
| TokenBucket.CapacityAndRateBoundAWindow | internal/api/api.go:316-339 | With times in order, in any later window at most capacity plus rate times window |
| TokenBucket.RetryAfterIsTight | internal/api/api.go:331-336 | A rejected request is told k >= 1; repeated it is admitted after k seconds or more and rejected after k - 1 or fewer, even when it costs more than the burst |
| TokenBucket.LargestIsLargest | internal/api/api.go:331-333 | The capacity bound is reached by the burst or by one of the costs |
| CostGates.CompareCost | internal/probe/simulate.go:118-159 | The four figures in order, each with its delta and a percentage p with p * baseline = 100 * delta, absent if and only if the baseline is zero; and Exceeded if and only if a threshold was given and for some figure current > baseline and the baseline is zero or 100 * delta is beyond threshold * baseline |
| CostGates.SpreadCost | internal/probe/spread.go:54-113 | The four figures in order, each with its smallest and largest value over the runs and their exact percentage, the Max cost, the footprint changes in order, and Noisy if and only if a threshold was given and for some figure the step from smallest to largest is beyond it in the same sense |
| CostGates.SpreadOf | internal/probe/spread.go:63-80 | The inner loop finds bounds that hold for all runs and are reached |
| CostGates.MaxCostHasTheMaxima | internal/probe/spread.go:82-88 | Every figure of the Max cost is the largest of the runs |
| CostGates.LeastFeesAreBounded | internal/probe/spread.go:82-88 | So is its minimum fee, which is not among the figures |
| CostGates.SpreadEndsAtMaxCost | internal/probe/spread.go:54-113 | The per-figure Max equals the figure of the Max cost |
| CostGates.TotalFeeIsTheFirst | internal/probe/spread.go:62-88 | The Max cost keeps the first run's total fee |
| CostGates.NoisyMeansSomePairExceeds | internal/probe/spread.go:97-112 | With non-negative figures, runs are noisy at a threshold if and only if comparing some run with some other exceeds it |
| CostGates.RepeatsAreJudgedByTheirWorstRun | internal/probe/simulate.go:373-383 | Comparing a baseline with the Max cost exceeds the threshold if and only if comparing it with some single run does |
| CostGates.FootprintChanges | internal/probe/spread.go:117-136 | The counting loops list, each once and in ascending order, the labels whose number of occurrences is not the number of runs |
| CostGates.BelowIsLexicographic | internal/probe/spread.go:134-134 | Ascending order: one label comes before another if and only if, where they part, it ends or has the smaller character |
| CostGates.ChangesAreRightExactly | internal/probe/spread.go:115-136 | The report is right about a label if and only if, where every run has it, every run has it once, and otherwise its occurrences do not add up to the number of runs |
| CostGates.ChangesAreExact | internal/probe/spread.go:115-136 | So when no run repeats a label, the changes are exactly the labels of some run and not of every run |
| CostGates.ReadLabels | internal/probe/spread.go:119-126 | The two prefixes keep reads and writes of one entry apart |
| CostGates.DuplicateLabelsMislead | internal/probe/spread.go:117-136 | With a label twice in a run, a change goes unnoticed and a footprint that never moved is reported |

## Left out

- HTTP routing, authentication, CORS, TLS, shutdown, readiness; the command line and all rendering; config and environment: plumbing.
- XDR, base64, strkey, transaction building and the SDK: ledger keys are an injective datatype, the strkey library is the set of texts it accepts (none with quotes or whitespace around it), XDR equality is value equality, arms that are nil after decoding do not occur, and `stellar.EncodeKey` does not fail.
- Error texts, kept as kinds: an error text is taken not to be empty, since the batch uses the empty text for "no error". Summaries and durations as text, and the estimated time left, are not modelled.
- JSON text syntax: JSON values are a datatype; `json.Marshal` of strings escapes only quote and backslash; object keys and number forms inside arguments stay raw text.
- `Register`: the registry has its built-in encoders. Contract instances, error codes and ledger keys decode to placeholders of their kind.
- `Lookup`, `Signature`, `specType` and the interface cache of `ChainSource`: one-branch mappings.
- `CheckBatch`'s own dispatch, and `time.ParseDuration`: a timeout is none, invalid, or a number of nanoseconds.
- The mutually recursive encoders, decoders and the annotator are functions; each of their loops is a method that calls those functions for the recursive positions.
- `estimateExtends` and the simulation call are parameters of the prober; on a live context their answers do not change while one batch runs. The measurement behind the close-time note is not modelled.
- The batch results are about a prober without an inspect cache; with one, a replayed check may be answered from it, as a separate check may.
- `Workers`: each goroutine step is atomic and a check on a live context always returns its own outcome; the transport's own timeout, which guarantees that it returns, is not modelled. The memory model and mutexes are not modelled.
- `InspectCache`: the instance storage is a value, so sharing it is not visible; a nil data slice and an empty one are the same.
- CachedInspect.CachingProber.Inspect: one call at a time; the cache's own invariant holds between the locked regions of concurrent calls as well, since Get and Put each keep it.
- Token buckets are values in the client map, which is how the source reaches them; an evicted client that returns starts with a full bucket, so the conservation results are about one life of a bucket. Rounding of floating-point tokens and percentages is not modelled.
- The request weight and the client address of the rate limit middleware: field lookups.
- 64-bit overflow of cost deltas is not modelled, and strings are compared by character, as UTF-8 bytes compare.
- CostGates.NoisyMeansSomePairExceeds: figures are taken to be non-negative, as the network reports them; three of them are unsigned in the source.
- SoroVault lookups, notes, events and authorization decoding: one-branch mappings.
