# vera: fee grants, fees and priorities, verified

A Dafny model of the parts of vera that decide what a transaction may do, who pays for it and how it is ranked,
with proofs about them. `dafny verify dfyconfig.toml` checks the whole project.

- **Matching** (`Glob`): wildcard matching by greedy search.
- **Wire format** (`Varint`, `Wire`, `Decoder`, `Messages`, `GrantMessages`, `WireLayout`, `Marshaller`): the generated
  protobuf code of the fee grant messages. Marshallers are methods that fill an array from back to front, decoders are
  loops; each is proved against a grammar of records, which is defined without reference to the code.
- **Allowances** (`Coins`, `Allowance`, `AcceptExact`, `AllowanceObjects`, `PeriodicRuns`, `RateLimits`, `ResetLimits`): one
  use of a basic, periodic or message-filtered allowance, on values and as objects updated in place, and runs of such uses.
- **Storage** (`GrantStore`, `Calendar`, `Dates`, `Keys`, `KeeperStore`, `KeeperRuns`, `KeeperOps`, `AccountGrants`,
  `Keeper`): grants as bytes, the store keys, the keeper's operations, its expiry queues and their pruning.
- **Transactions** (`Bearer`, `Bank`, `Ante`, `AnteProperties`, `AnteExact`, `GrantLife`, `AnteRuns`, `TokenRuns`,
  `AnteObjects`): the extension and fee decorators, one transaction at a time and over every run,
  down to the grants, balances and token records.
- **Numbers** (`Decimal`, `FeePolicy`, `Priority`, `Mint`): minimum fees on both sides, mempool priorities,
  effective inflation. Decimals are integers scaled by 10^18.
- `Wrappers`, `Lex`, `Arithmetic`: options and results, byte strings and their order, facts about quotients.

The results build on each other: `AnteRuns.ChargesWithinLimits` speaks about every run of transactions and grant changes, and
rests on `AnteProperties.GrantsStep` and `GrantLife.ChangeRespects` for one event, on `KeeperOps.UseFirstAvailable` and
`AccountGrants.UseAccountIsStep` for the keeper, and on `Allowance.Conservation` for the allowance itself.
`AnteExact.AcceptedExactly` says of every transaction, with all constants in figures, whether it is accepted; what it says about
a grant is made exact by `AcceptExact.PaysExactly`.

Parameters of the model: block time and height, the libraries underneath a bearer token (JSON, DID syntax, signature
verification, SHA-256), the rendering of addresses, the sub-codecs of coins, Any, timestamps and durations (any that round-trip),
the chain settings, and the set of existing accounts. A Go nil spend limit is `None`, an empty one is `Some([])`.
A transaction that is rejected leaves no trace, as the application discards its writes.

Where the code differs from its own comments or names, the model follows the code:

- `tryResetPeriod` is documented to set the budget to the lesser of the two limits. It picks one whole list, which is the
  lesser one exactly when the lists are comparable (`PeriodicRuns.TopUpIsLesserIffComparable`). With several denominations a
  run of ordinary transactions can therefore outspend the period limits; `RateLimits.RateLimitExact` says exactly for which
  allowances.
- `ExpireDIDAllowance` overwrites the expiry that is there. A grant that has already expired is revived when the new expiry
  is later (`KeeperOps.ExpireOnlyShortens`, `KeeperOps.ExpireRevives`).
- `revokeAllowance` builds the queue key with granter and grantee exchanged, so its entry is deleted exactly when that makes
  no difference (`KeeperOps.RevokeAccountKeepsIndex`), and the entry of the grant in the other direction may go instead
  (`KeeperOps.RevokeAccountUnqueues`).
- Saving a limit that is an empty list loads as no limit (`GrantMessages.BasicRoundTrip`); no stored allowance has one
  (`GrantStore.StoredLimitIsConserved`).
- `checkTxFeeWithMinGasPrices` and `getGasPrice` cast the gas limit to int64 (`FeePolicy.FloorHoldsIffGasFits`,
  `Priority.HugeGasRanksLast`). This is true of the functions alone: the SDK's ValidateBasic decorator, which
  `app/ante/ante.go` runs before the fee decorator, refuses gas limits above 2^63 − 1.
- Token records are kept under the hash of the text as presented, while claims and signature are read after leading blanks
  are trimmed. Revoking a token therefore revokes one spelling of it (`TokenRuns.RevokedClaimsExact`).
- Priority texts hold 32 digits of the gas price, so the order of the texts is that of the prices only below 10^32
  (`Priority.OrderExact`).
- A bearer token is still accepted during the second in which it expires, but not for its first use
  (`Bearer.DirectTokenExact`, `TokenRuns.TokenIsRecorded`).

## Model

| member | source | states |
|---|---|---|
| `Glob.Match` | utils/glob.go:12-57 | returns true exactly when every `*` can be replaced by some text so that the pattern becomes the subject; no slice bound is ever left |
| `Glob.LeftmostIsEnough` | utils/glob.go:35-53 | taking the leftmost occurrence of a part loses no match: the remaining parts can be placed after some occurrence exactly when they can be placed after the first |
| `Glob.MatchesParts` | utils/glob.go:23-56 | the definition by substitution agrees with the definition by parts: first part at the start, the others in order, the last at the end |
| `Glob.FirstPart` | utils/glob.go:35-53 | the test made in the first iteration rejects only subjects that do not match, and otherwise reduces matching to the rest |
| `Glob.LastPart` | utils/glob.go:55-56 | the test after the loop decides whether what is left of the subject matches the last part |
| `Varint.SizeIsLength` | x/feegrant/feegrant.pb.go:793-795 | the bit-length formula is the number of bytes the encoder writes, for every value |
| `Varint.Write` | x/feegrant/feegrant.pb.go:675-685 | fills exactly the bytes in front of the offset with the encoding, returns where they start and changes nothing else |
| `Varint.EncodeIsVarint` | x/feegrant/feegrant.pb.go:675-685 | every uint64 is encoded as one varint of at most ten bytes with that value |
| `Varint.ReadExact` | x/feegrant/feegrant.pb.go:1409-1423 | the read loop stops at `j` exactly when the bytes up to `j` are one varint, whatever follows |
| `Varint.RoundTrip` | x/feegrant/feegrant.pb.go:1409-1423 | decoding undoes encoding for every uint64, wherever the bytes stand |
| `Varint.Accumulate` | x/feegrant/feegrant.pb.go:1417-1422 | adding a shifted group never carries into the bits already read; after ten bytes the value is that of the groups modulo 2^64 |
| `Varint.ReadLoop` | x/feegrant/feegrant.pb.go:1409-1423 | the shift-and-or loop gives value, end and error as the grammar of varints says |
| `Wire.SkipStep` | x/feegrant/feegrant.pb.go:1558-1629 | one iteration of the scan, with its varint loops, is one step over the grammar: position, group depth and error |
| `Wire.Skip` | x/feegrant/feegrant.pb.go:1554-1631 | the loop of skipFeegrant ends and returns the length or error that the scan over steps gives |
| `Wire.SkipsRecord` | x/feegrant/feegrant.pb.go:1554-1631 | a well-formed field, with groups nested to any depth, is skipped to exactly its end at any depth |
| `Wire.RecordSkipped` | x/feegrant/feegrant.pb.go:1554-1631 | whatever is skipped within the data is one well-formed field with balanced groups |
| `Wire.SkipExact` | x/feegrant/feegrant.pb.go:1554-1631 | skipFeegrant returns `n` within the data exactly when the first `n` bytes are one well-formed field |
| `Decoder.ReadFieldLoop` | x/feegrant/feegrant.pb.go:1407-1547 | one iteration of an Unmarshal loop is one step of the decoder: next position and message, or the error |
| `Decoder.UnmarshalLoop` | x/feegrant/feegrant.pb.go:1404-1553 | the whole loop gives the message or error of the step-by-step decoder |
| `Decoder.UnmarshalExact` | x/feegrant/feegrant.pb.go:1404-1553 | Unmarshal returns `x` exactly when the data is a sequence of well-formed records whose known fields, stored in order, give `x` |
| `Decoder.UnknownFieldsIgnored` | x/feegrant/feegrant.pb.go:1533-1546 | unknown fields, nested groups included, change nothing wherever they stand |
| `Messages.SizeIsLength` | x/feegrant/feegrant.pb.go:686-791 | Size is the number of bytes marshalled, for any list of fields |
| `Messages.FieldsDecode` | x/feegrant/feegrant.pb.go:799-1553 | decoding marshalled fields stores them in order |
| `Messages.FieldsDecodeAmongUnknown` | x/feegrant/feegrant.pb.go:799-1553 | the same with unknown records anywhere between the fields |
| `GrantMessages.BasicRoundTrip` | x/feegrant/feegrant.pb.go:799-918 | a BasicAllowance comes back as written, except that an empty limit comes back as a missing, unlimited one: identity exactly when the limit is not an empty list |
| `GrantMessages.PeriodicRoundTrip` | x/feegrant/feegrant.pb.go:919-1135 | the same for a PeriodicAllowance with its nested basic part |
| `GrantMessages.FilterRoundTrip` | x/feegrant/feegrant.pb.go:1136-1253 | Unmarshal undoes Marshal for every AllowedMsgAllowance |
| `GrantMessages.GrantRoundTrip` | x/feegrant/feegrant.pb.go:1254-1553 | Unmarshal undoes Marshal for every Grant and DIDGrant; which tag carries which part is stated by GrantLayout and GrantReads |
| `GrantMessages.GrantRoundTripAmongUnknown` | x/feegrant/feegrant.pb.go:1404-1631 | the same after well-formed unknown fields, nested groups included, were inserted anywhere between the fields |
| `WireLayout.GrantLayout` | x/feegrant/feegrant.pb.go:592-673 | a Grant or DIDGrant is the granter behind the tag 0x0a, then the grantee or its DID behind 0x12, then the allowance behind 0x1a, each with its length; empty ones are left out |
| `WireLayout.BasicLayout` | x/feegrant/feegrant.pb.go:424-454 | a BasicAllowance is its coins, each behind 0x0a, then the expiry behind 0x12 |
| `WireLayout.PeriodicLayout` | x/feegrant/feegrant.pb.go:471-531 | a PeriodicAllowance is its basic part (0x0a), period (0x12), period limit (0x1a), what is left (0x22) and next reset (0x2a), in this order |
| `WireLayout.FilterLayout` | x/feegrant/feegrant.pb.go:548-575 | an AllowedMsgAllowance is the packed allowance behind 0x0a, then every message behind 0x12 |
| `WireLayout.GrantReads` | x/feegrant/feegrant.pb.go:1283-1382 | read on top of any message, 0x0a sets the granter and nothing else, 0x12 the grantee, 0x1a merges into the allowance |
| `WireLayout.BasicReads` | x/feegrant/feegrant.pb.go:828-897 | 0x0a appends a coin to the limit, 0x12 merges into the expiry; a sub-message that does not parse is an error |
| `WireLayout.PeriodicReads` | x/feegrant/feegrant.pb.go:948-1114 | 0x0a merges into the basic part, 0x12 into the period, 0x2a into the next reset |
| `WireLayout.PeriodicReadsCoins` | x/feegrant/feegrant.pb.go:1014-1081 | 0x1a appends a coin to the period limit, 0x22 one to what is left of it |
| `WireLayout.FilterReads` | x/feegrant/feegrant.pb.go:1165-1232 | 0x0a merges into the packed allowance, 0x12 appends an allowed message |
| `WireLayout.OneRecord` | x/feegrant/feegrant.pb.go:1424-1546 | on any message: a known field that is not length-delimited is an error, an unknown one has no effect |
| `WireLayout.FieldNumber` | x/feegrant/feegrant.pb.go:1424-1424 | the field number is the low 32 bits of the tag without its type, as a signed number |
| `WireLayout.LengthErrors` | x/feegrant/feegrant.pb.go:1437-1463 | a length is invalid exactly if it takes the position past 2^63 − 1, and else an unexpected end exactly if it takes it past the data |
| `Marshaller.MarshalBasic` | x/feegrant/feegrant.pb.go:424-454 | writes exactly the bytes of the fields in front of the end of the buffer and nothing behind it; fails exactly when a sub-codec does |
| `Marshaller.MarshalPeriodic` | x/feegrant/feegrant.pb.go:471-531 | the same for a PeriodicAllowance, whose basic part is written in place and then given its header |
| `Marshaller.MarshalFilter` | x/feegrant/feegrant.pb.go:548-575 | the same for an AllowedMsgAllowance |
| `Marshaller.MarshalGrant` | x/feegrant/feegrant.pb.go:592-624 | the same for a Grant, whose bytes GrantLayout spells out; a DIDGrant has the same layout (641-673) |
| `Marshaller.Marshal` | x/feegrant/feegrant.pb.go:577-585 | a buffer of Size() bytes is filled from back to front without a gap: granter behind 0x0a, grantee behind 0x12, allowance behind 0x1a, empty ones left out, and nothing else; fails exactly when the sub-codec does |
| `Marshaller.PrependAll` | x/feegrant/feegrant.pb.go:439-452 | the loop over a repeated field, last element first, leaves the elements in order in front of what was there |
| `GrantStore.UnpacksUnique` | x/feegrant/filtered_fee.go:28-31 | type URL and bytes determine the allowance, at any nesting depth |
| `GrantStore.PackRoundTrip` | x/feegrant/filtered_fee.go:34-69 | unpacking undoes packing into Any, at any nesting depth |
| `GrantStore.PackLayout` | x/feegrant/filtered_fee.go:34-69 | the Any of an allowance: its type URL, and the bytes of its fields behind their tags; a filter holds the Any of its inner allowance |
| `GrantStore.SaveLayout` | x/feegrant/keeper/keeper.go:96-104 | what is stored under a key is the granter, the grantee and the Any of the allowance, behind 0x0a, 0x12 and 0x1a |
| `GrantStore.LoadsExact` | x/feegrant/keeper/keeper.go:206-225 | bytes load to a grant exactly when they decode to a message with these two names whose Any unpacks to the allowance |
| `GrantStore.SaveLoad` | x/feegrant/keeper/keeper.go:123-156 | what is saved for a grant loads to that allowance and to no other |
| `GrantStore.ByteRunRefines` | x/feegrant/keeper/keeper.go:248-276 | a run of load, Accept and save over bytes goes exactly through the encodings of the run over values |
| `GrantStore.StoredLimitIsConserved` | x/feegrant/fees.go:13-31 | in every run over stored bytes: initial limit = stored limit + accepted fees per denomination, the stored limit is never missing or empty, and after removal the accepted fees are at most the limit |
| `Allowance.ValidatedIsSound` | x/feegrant/basic_fee.go:44-59 | what ValidateBasic accepts starts in the invariant that every stored allowance keeps |
| `AcceptExact.ValidatesExactly` | x/feegrant/periodic_fee.go:80-110 | ValidateBasic passes, at any nesting depth, exactly when no list of messages is empty and the innermost allowance is well made: valid non-empty limits, an expiry not before 1970, no negative period, and a period limit in denominations that the total limit holds |
| `AcceptExact.BasicVerdict` | x/feegrant/basic_fee.go:25-41 | refused exactly after the expiry or when the limit does not cover the fee, never without a limit; which error, when removed, and every field after acceptance |
| `AcceptExact.ResetExact` | x/feegrant/periodic_fee.go:59-77 | a due reset makes one whole limit available, the total one exactly when it does not cover the period limit, and moves the reset time to one period after the last, or after now if that has passed |
| `AcceptExact.PeriodicVerdict` | x/feegrant/periodic_fee.go:25-51 | refused exactly after the expiry, when what the period may spend at that time does not cover the fee, or when the total limit does not, in this order |
| `AcceptExact.PeriodicEffect` | x/feegrant/periodic_fee.go:25-51 | after acceptance both budgets are smaller by exactly the fee, the reset time has moved on if it was due, all else is as before; removed exactly when the fee was all of the total limit |
| `AcceptExact.PaysExactly` | x/feegrant/filtered_fee.go:72-112 | at any nesting depth a use is paid exactly when every message is in every list, the innermost allowance has not expired, its limit, if any, covers the fee and, if it is periodic, so does what the period may spend |
| `AcceptExact.FilterGasExact` | x/feegrant/filtered_fee.go:91-112 | ten gas for each list entry at every level reached, each message at every level passed, and each message examined at the level that refuses |
| `Coins.SafeSub` | x/feegrant/basic_fee.go:30-40 | on sorted lists the flag tells exactly whether the first covers the second; then the difference is a valid list holding the difference per denomination |
| `Allowance.StepConserves` | x/feegrant/basic_fee.go:25-41 | an accepted fee lowers the limit by exactly that fee, keeps the invariant, and removes the allowance exactly when nothing is left |
| `Allowance.UsedUpExactly` | x/feegrant/basic_fee.go:25-41 | at any nesting depth: removal without error happens exactly when the accepted fee equals all that was left |
| `Allowance.RunRefinesInnermost` | x/feegrant/filtered_fee.go:72-89 | a run of a filtered allowance is the run of the innermost one over the uses that pass all filters, with the same fees spent |
| `Allowance.Conservation` | x/feegrant/fees.go:13-31 | at any nesting depth and over every run: initial limit = remaining limit + accepted fees; used up means all of it was spent; an expired one spent at most the limit |
| `Allowance.FilterRefinesInnermost` | x/feegrant/filtered_fee.go:72-138 | a use passes exactly when every message is in every list; then results and state are those of the innermost allowance, otherwise nothing changes |
| `Allowance.RemovedWithError` | x/feegrant/filtered_fee.go:72-138 | removal together with an error happens exactly when the messages pass every filter and the expiry is before the block time |
| `AllowanceObjects.BasicAllowance.Accept` | x/feegrant/basic_fee.go:25-41 | new object state, `remove` and error are those of the value model, which AcceptExact.BasicVerdict determines in full |
| `AllowanceObjects.PeriodicAllowance.TryResetPeriod` | x/feegrant/periodic_fee.go:59-77 | the object after the reset is the reset of its old value, which AcceptExact.ResetExact determines in full |
| `AllowanceObjects.PeriodicAllowance.Accept` | x/feegrant/periodic_fee.go:25-51 | new object state, which also keeps the reset and the deduction after a rejection, `remove` and error are those of the value model |
| `AllowanceObjects.AllowedMsgAllowance.constructor` | x/feegrant/filtered_fee.go:34-48 | the new object caches the inner allowance and packs its present value |
| `AllowanceObjects.AllowedMsgAllowance.SetAllowance` | x/feegrant/filtered_fee.go:61-69 | packs the present value of the cached inner allowance |
| `AllowanceObjects.AllowedMsgAllowance.AllowedMsgsToMap` | x/feegrant/filtered_fee.go:91-99 | the map holds exactly the allowed messages; 10 gas per list entry |
| `AllowanceObjects.AllowedMsgAllowance.AllMsgTypesAllowed` | x/feegrant/filtered_fee.go:101-112 | true exactly when every message is allowed; 10 gas per list entry and per message examined up to the first refused one |
| `AllowanceObjects.AllowedMsgAllowance.Accept` | x/feegrant/filtered_fee.go:72-89 | at any depth: results and cached state as on values, gas of every level reached, and the packed value changes exactly on an acceptance that keeps the grant |
| `PeriodicRuns.ResetSchedule` | x/feegrant/periodic_fee.go:59-77 | a due reset moves on by at least a period and lands in [now, now + period]: by exactly one period when at most one period late, else to exactly one period from now |
| `PeriodicRuns.WholePeriodAfterLateReset` | x/feegrant/periodic_fee.go:71-76 | in every run, after a saved reset that came more than a period late none happens for one whole period from that time, and then one is due |
| `PeriodicRuns.ScheduleOverRun` | x/feegrant/periodic_fee.go:59-77 | after k saved resets the reset time has moved by at least k periods, by exactly k in a run without late resets |
| `PeriodicRuns.TopUpIsLesserIffComparable` | x/feegrant/periodic_fee.go:53-69 | a reset delivers the lesser of the two limits in every denomination, and at most the period limit, exactly when one list covers the other |
| `PeriodicRuns.RateLimitFailsForIncomparableLimits` | x/feegrant/periodic_fee.go:53-69 | a validated allowance with two denominations in which one use right after a reset spends 60 where the period limit is 10 |
| `RateLimits.ResetSpendExact` | x/feegrant/periodic_fee.go:25-69 | at a due reset before the expiry, every fee that can be paid is within the period limit exactly when the two limits are comparable |
| `RateLimits.WithinRateExact` | x/feegrant/periodic_fee.go:53-77 | the condition read off an allowance says: by no period in which some coin can be spent short of its period limit does the total of any coin exceed what was left plus one period limit per period |
| `RateLimits.RateLimit` | x/feegrant/periodic_fee.go:25-77 | if the condition holds, in every run the fees accepted by any time T are at most PeriodCanSpend + PeriodSpendLimit × (floor((T − PeriodReset)/Period) + 1) |
| `RateLimits.BreakingRun` | x/feegrant/periodic_fee.go:25-77 | if it does not, a run that exceeds this, in order of time and with one coin and the given messages in every use: spend what is left of one coin, then its period limit at every reset, and take all of the other coin |
| `RateLimits.RateLimitExact` | x/feegrant/periodic_fee.go:25-77 | under any filters, with or without an expiry, for any number of denominations: every run the chain can produce (in order of time, every use with a message and at most one coin) keeps to the rate exactly when the condition holds or no message passes all filters |
| `RateLimits.DisjointFiltersUnusable` | x/feegrant/filtered_fee.go:115-129 | ValidateBasic admits nested filters that no message passes |
| `ResetLimits.SingleStaysComparable` | x/feegrant/periodic_fee.go:25-77 | limits in one denomination, or no total limit, stay comparable along every run |
| `ResetLimits.CoveredStaysComparable` | x/feegrant/periodic_fee.go:25-77 | a total limit that the period limit covers stays comparable along every run |
| `ResetLimits.EveryResetExact` | x/feegrant/periodic_fee.go:25-77 | with or without an expiry: in every run the chain can produce every reset finds comparable limits, so keeps to the period limit, exactly when a condition read off the allowance holds |
| `ResetLimits.ResetsWithinExact` | x/feegrant/periodic_fee.go:53-77 | that condition says: whenever some coin can be spent short of its period limit in time, no other coin's total is above its period limit |
| `ResetLimits.UnexpiringResets` | x/feegrant/periodic_fee.go:53-77 | without an expiry it is: no total limit, or one that the period limit covers, or both in one denomination |
| `ResetLimits.SimpleLimitsWithinRate` | x/feegrant/periodic_fee.go:25-77 | allowances with no total limit, or one that the period limit covers, or both in one denomination meet the condition of the rate limit |
| `ResetLimits.RateLimitHolds` | x/feegrant/periodic_fee.go:25-77 | so under any filters they keep to the rate in every run |
| `PeriodicRuns.ResetCaps` | x/feegrant/periodic_fee.go:59-69 | a due reset leaves no more for the period than the total limit holds, in any number of denominations |
| `PeriodicRuns.CappedStep` | x/feegrant/periodic_fee.go:25-51 | from a state within the total limit, or at a due reset, a fee is never refused by the absolute limit, and the saved state is within it again |
| `PeriodicRuns.CappedRun` | x/feegrant/periodic_fee.go:25-51 | every run keeps the period budget within the total limit |
| `PeriodicRuns.AbsoluteLimitNeverFires` | x/feegrant/periodic_fee.go:41-47 | in every run, from the first paid use that resets the period on, a fee is never refused by the absolute limit |
| `Calendar.EpochIs1970` | x/feegrant/key.go:90-111 | the calendar of the timestamps puts Unix time zero on 1 January 1970 |
| `Calendar.FormatTimeExact` | x/feegrant/key.go:90-111 | for years 0 to 9999 the order and equality of instants can be read off the text |
| `Dates.NextDay` | x/feegrant/key.go:90-111 | the date that is written advances as the Gregorian calendar does: next of the month, first of the next month, first of the next year, with its leap years; `Calendar.EpochIs1970` anchors it |
| `Dates.DayAndClock` | x/feegrant/key.go:90-111 | an instant is its day and the nanoseconds since midnight |
| `Dates.ClockReads` | x/feegrant/key.go:90-111 | hours, minutes, seconds and nanoseconds of the clock, each in its range |
| `Dates.TextLayout` | x/feegrant/key.go:90-111 | the text is YYYY-MM-DDThh:mm:ss.nnnnnnnnn, field by field |
| `Dates.RangeInFigures` | x/feegrant/key.go:90-111 | the instants that can be written are those of the years 0 to 9999, in figures |
| `Keys.KeyLayout` | x/feegrant/key.go:24-111 | the four kinds of key byte by byte: namespaces 0 to 3, grantee before granter, each behind its length, the time between in queue keys |
| `Keys.ParseUndoesKey` | x/feegrant/key.go:114-152 | each parser gives granter and grantee (or DID) back exactly when neither is empty |
| `Keys.ParseUndoesQueueKey` | x/feegrant/key.go:127-167 | the same for queue keys built over a grant key without its first byte |
| `Keys.GrantKeyInjective` | x/feegrant/key.go:47-58 | a grant key determines namespace, granter and grantee |
| `Keys.QueueKeyInjective` | x/feegrant/key.go:81-102 | a queue key determines queue, expiry and the key it points to |
| `Keys.ScanIsExact` | x/feegrant/key.go:64-75 | a grant key lies under the scan prefix of a grantee (or DID) exactly when it is a grant to it |
| `Keys.QueueOrder` | x/feegrant/key.go:77-111 | an earlier expiry gives a lexicographically smaller queue key, whatever it points to |
| `Keys.NamespacesDisjoint` | x/feegrant/key.go:24-41 | grant keys and queue entries of different namespaces never coincide |
| `Keys.PruneRangeIsExpired` | x/feegrant/keeper/keeper.go:358-420 | the key range that pruning walks holds an entry exactly when it expired strictly before now |
| `KeeperStore.GrantRefused` | x/feegrant/keeper/keeper.go:444-472 | a grant of either kind is refused exactly if there is one already, or if it expires before the time of the block; one that expires at that time is stored |
| `KeeperStore.SetGrantGet` | x/feegrant/keeper/keeper.go:444-503 | replacing one grant changes that grant and no other |
| `KeeperStore.SetGrantIndexed` | x/feegrant/keeper/keeper.go:444-571 | the queue stays in step with the grants whenever one is set, replaced or removed with its entry |
| `KeeperStore.GrantIsSet` | x/feegrant/keeper/keeper.go:55-120 | a successful grant stores the allowance and one queue entry for its expiry; so does GrantDIDAllowance (444-503) |
| `KeeperStore.RevokeIsSet` | x/feegrant/keeper/keeper.go:538-571 | a DID revocation removes the grant together with its queue entry |
| `KeeperStore.UpdateIsSet` | x/feegrant/keeper/keeper.go:645-701 | a DID update replaces the grant and moves the queue entry exactly when the expiry changes |
| `KeeperRuns.WalkedExact` | x/feegrant/keeper/keeper.go:358-420 | a positive limit takes that many of the overdue entries, least keys first; any other takes all |
| `KeeperRuns.PruneExact` | x/feegrant/keeper/keeper.go:358-420 | pruning keeps the index and removes exactly the grants named by the first `limit` overdue entries, all expired before now; a limit that is not positive or not below their number removes every expired grant |
| `KeeperRuns.PruneKeysGet` | x/feegrant/keeper/keeper.go:366-385 | in any store, in step with its queue or not, walking entries deletes exactly the grants they name |
| `KeeperRuns.PruneEarliestFirst` | x/feegrant/keeper/keeper.go:358-420 | a limited pruning never removes a grant that expires after one it leaves overdue |
| `KeeperRuns.PrunedCouldNotPay` | x/feegrant/keeper/keeper.go:358-420 | a grant that pruning removes would have been refused by Accept from then on |
| `KeeperOps.UseDIDIsStep` | x/feegrant/keeper/keeper.go:616-642 | a use succeeds exactly when the stored grant covers the fee, saves the allowance's next state or deletes it, and keeps the index |
| `KeeperOps.UseDIDFrame` | x/feegrant/keeper/keeper.go:616-642 | a use touches no other DID grant |
| `KeeperOps.ExpireExact` | x/feegrant/keeper/keeper.go:574-613 | a basic grant then ends now, a periodic one with its period, all else about it stays; a filtered one is refused as unsupported, a missing one as not found |
| `KeeperOps.ExpireIsSet` | x/feegrant/keeper/keeper.go:574-613 | expiring a grant sets its expiry to now or to the end of the period and moves the queue entry along |
| `KeeperOps.ExpiryEnds` | x/feegrant/keeper/keeper.go:574-613 | an expiry, given or replaced, ends payments after that instant and changes nothing before it |
| `KeeperOps.ExpireOnlyShortens` | x/feegrant/keeper/keeper.go:574-613 | expiring a grant never makes it pay where it did not exactly when it has no expiry or the new one, now or the end of the period, is not later |
| `KeeperOps.ExpireEffect` | x/feegrant/keeper/keeper.go:574-613 | for every use: before the call the old expiry decides, after it the new one, and otherwise only whether the limits cover the fee |
| `KeeperOps.ExpireRevives` | x/feegrant/keeper/keeper.go:584-593 | so a grant that had expired is revived: every use between the old and the new expiry that its limits cover is refused before the call and accepted after it |
| `KeeperOps.GrantersExact` | x/feegrant/keeper/keeper.go:741-752 | the scan under the DID's prefix meets every granter of that DID, each once, and nobody else |
| `KeeperOps.UseFirstAvailable` | x/feegrant/keeper/keeper.go:741-791 | the granter returned is the first in key order whose grant covers the fee; none is returned exactly when no grant does; grants tried in vain stay unless expired, and other DIDs' grants stay |
| `KeeperOps.EveryRunIsSynced` | x/feegrant/keeper/keeper.go:390-791 | in every state reached by grants, revocations, uses, expiries and prunings, a DID grant is queued exactly under its own expiry |
| `KeeperOps.RevokeAccountKeepsIndex` | x/feegrant/keeper/keeper.go:159-191 | revoking an account grant keeps its queue in step exactly when the grant has no expiry or granter and grantee are the same |
| `KeeperOps.StaleEntryPrunesNewGrant` | x/feegrant/keeper/keeper.go:159-191 | otherwise the entry stays behind, and a pruning after the old expiry deletes a later grant between the two, whatever its own expiry, exactly if an entry for them is among those it walks, so whenever its limit admits all overdue entries |
| `KeeperOps.RevokeAccountUnqueues` | x/feegrant/keeper/keeper.go:159-191 | after the revocation every remaining expiring grant is still queued exactly when the revoked one has no expiry or the grant in the other direction does not expire at the same instant |
| `KeeperOps.QueuedIsPruned` | x/feegrant/keeper/keeper.go:358-387 | pruning account grants deletes exactly those that a walked entry names, in step or not |
| `AccountGrants.UseAccountIsStep` | x/feegrant/keeper/keeper.go:248-276 | UseGrantedFees succeeds exactly when the stored account grant covers the fee, stores its next state, and leaves all DID grants and their queue alone |
| `AccountGrants.UseAccountFrame` | x/feegrant/keeper/keeper.go:248-276 | it touches no other account grant |
| `AccountGrants.UseFirstOutside` | x/feegrant/keeper/keeper.go:741-791 | trying DID grants never changes anything outside the DID namespaces |
| `Keeper.FeegrantKeeper.GrantDIDAllowance` | x/feegrant/keeper/keeper.go:444-503 | the new store, or an error for an existing grant or a past expiry with the store unchanged, is that of the operation proved to keep the index; the index is kept and no other DID grant changes |
| `Keeper.FeegrantKeeper.RevokeDIDAllowance` | x/feegrant/keeper/keeper.go:538-571 | the new store, or NotFound with the store unchanged, is that of the operation proved to remove grant and entry together; the index is kept and no other DID grant changes |
| `Keeper.FeegrantKeeper.UpdateDIDAllowance` | x/feegrant/keeper/keeper.go:645-701 | the new store, or NotFound with the store unchanged, is that of the operation proved to move the entry with the expiry; the index is kept and no other DID grant changes |
| `Keeper.FeegrantKeeper.UseGrantedFeesByDID` | x/feegrant/keeper/keeper.go:616-642 | store and error after load, Accept and save or delete are those of one allowance step; it succeeds exactly when the grant covers the fee and no other DID grant changes |
| `Keeper.FeegrantKeeper.TryGrants` | x/feegrant/keeper/keeper.go:748-788 | the loop stops at the first grant that pays and leaves the store as the uses tried so far leave it |
| `Keeper.FeegrantKeeper.UseFirstAvailableDIDGrant` | x/feegrant/keeper/keeper.go:741-791 | the loop over the scanned grants ends with the store and granter of the functional model |
| `Keeper.FeegrantKeeper.RemoveExpiredDIDAllowances` | x/feegrant/keeper/keeper.go:390-420 | the counting loop removes the same grants and entries as the functional pruning |
| `Keeper.FeegrantKeeper.PruneEntries` | x/feegrant/keeper/keeper.go:397-417 | the loop deletes entry and grant of the first `limit` entries, of all of them for a limit that is not positive |
| `Keeper.FeegrantKeeper.RevokeAllowance` | x/feegrant/keeper/keeper.go:159-191 | store or error as in the functional model, with the queue key built in the order the code uses; no other grant changes |
| `Keeper.FeegrantKeeper.UpdateAllowance` | x/feegrant/keeper/keeper.go:123-156 | store or error as in the functional model; the queue is not touched; no other grant changes |
| `Keeper.FeegrantKeeper.UseGrantedFees` | x/feegrant/keeper/keeper.go:248-276 | store and error after load, Accept and save or delete are those of one allowance step; it succeeds exactly when the grant covers the fee and no other grant changes |
| `Bearer.BlanksIgnored` | app/ante/extension_utils.go:26-27 | blanks in front of a token change neither its claims nor its signature |
| `Bearer.TrimExact` | app/ante/extension_utils.go:26-26 | what is trimmed is the longest run of blanks, line feeds, tabs and carriage returns in front |
| `Bearer.DirectTokenExact` | app/ante/extension_utils.go:25-196 | without a relay a token is accepted exactly when its claims are signed by the issuer, carry no provider token, name a valid account, are not issued after their expiry and the expiry second is not over; actor and account are issuer and authorized account |
| `Bearer.RelayTokenExact` | app/ante/extension_utils.go:104-196 | through a relay the actor is the DID of a complete provider token if there is one, else the issuer; the account need not be valid |
| `Ante.CreatorsExact` | app/ante/extension.go:113-133 | the creator check passes exactly when every message names the signer and the signer is not empty |
| `AnteProperties.WhoPays` | app/ante/fee.go:205-271 | who is charged: the relay's granter, else the first granter whose grant to the context DID covers the fee, else the account the transaction names; the grant charged covered the fee and is stored as used |
| `AnteProperties.PayerFoundExactly` | app/ante/fee.go:205-271 | exactly when somebody is found to pay, in terms of the grants before |
| `AnteProperties.GrantsStep` | app/ante/fee.go:205-271 | every grant, of either kind, takes at most one step, and pays exactly if it is the one charged |
| `AnteProperties.FeeIsMoved` | app/ante/fee.go:162-285 | in every accepted transaction above genesis height the charged account loses exactly the fee, the collector gains it, and no other balance changes |
| `AnteProperties.RelayAgreement` | app/ante/extension.go:33-187 | an accepted relay transaction charges exactly its fee granter, a trusted account other than the payer whose grant to the payer covered the fee; all messages were created by the payer |
| `AnteProperties.BearerAgreement` | app/ante/extension.go:33-142 | an accepted transaction with a token outside relay mode has all messages created by the account the token authorizes, and the context DID is the issuer whose signature was checked |
| `AnteProperties.NoTokenNoDIDGrant` | app/ante/fee.go:237-271 | a transaction without a token is never charged under a DID grant |
| `AnteExact.ExtensionExact` | app/ante/extension.go:33-187 | the extension check accepts exactly the transactions without a token and those whose single token is genuine, in time, for the right parties, with a valid or new record, and with all messages from the one who may act; and what context it sets |
| `AnteExact.FeeExact` | app/ante/fee.go:66-160 | above genesis height and outside simulation the fee check passes exactly with gas, at most one coin, none only where allowed, and in CheckTx at least price × gas, ten times that in `ucredit`, a price of zero counting as 0.001 |
| `AnteExact.DeductExact` | app/ante/fee.go:274-285 | the fee can be deducted exactly when the account exists and, unless the fee is zero, the fee is valid and within its unlocked balance |
| `AnteExact.AcceptedExactly` | app/ante/fee.go:56-271 | above genesis height a transaction is accepted exactly when its token fits, its fee fits unless it is simulated, and whoever is first in line to pay has granted the use where needed and is solvent |
| `AnteExact.AcceptedAtGenesis` | app/ante/fee.go:64-67 | at genesis height only the token decides, and neither grants nor balances change |
| `AnteExact.CheckTxPaysThePrice` | app/ante/fee.go:69-86 | every transaction accepted above genesis height and outside simulation has gas, and in CheckTx pays the validator's price in the figures above |
| `AnteExact.PriceOnlyInCheckTx` | app/ante/fee.go:122-123 | outside CheckTx, and in a simulation, the outcome is the same for all validator prices |
| `Bank.SendMoves` | app/ante/fee.go:274-285 | a transfer succeeds exactly when the unlocked balance covers every coin, and then moves exactly the coins |
| `Bank.NoEntryNoFunds` | app/ante/fee.go:274-285 | an account without an entry in some denomination of a valid fee cannot pay it |
| `AnteRuns.BooksBalance` | app/ante/fee.go:56-95 | over every run each balance falls by the fees charged to it and the collector's rises by all fees charged |
| `AnteRuns.ChargesWithinLimits` | app/ante/fee.go:205-271 | over every run of transactions, grants, revocations, expiries and prunings: what is charged under the grants between two parties is at most the limit at the start plus the limits of all grants made on the way, per denomination |
| `AnteRuns.ChargesWithinGrants` | app/ante/fee.go:205-271 | from a chain without grants on, in every run, what is charged under the grants between two parties is at most the sum of the limits granted |
| `AnteRuns.InitialIsValid` | x/feegrant/keeper/keeper.go:34-40 | the store without grants is valid, so the run theorems apply to every chain from its start |
| `AnteRuns.GrantNeverOverdrawn` | app/ante/fee.go:205-271 | until it is granted anew, a limited grant pays at most its limit, and while it is there its limit is exactly the original one less what was charged |
| `GrantLife.ChangeRespects` | x/feegrant/keeper/keeper.go:55-613 | a grant, revocation, expiry or pruning of either kind keeps the store valid, creates a grant only where there was none, and otherwise keeps a grant, removes it or changes only its expiry |
| `TokenRuns.TokenIsRecorded` | x/core/keeper/jws_token.go:307-350 | an accepted transaction records its token: first use only before the expiry, with the acting DID, account and times; later uses change only the time of last use; other records stay |
| `TokenRuns.RunStorable` | x/core/keeper/jws_token.go:36-83 | every record in every reachable state can be stored again, so no status change is lost |
| `TokenRuns.RevokedForever` | x/core/keeper/jws_token.go:228-252 | no run revives a revoked record |
| `TokenRuns.WhoRevokes` | x/core/keeper/msg_invalidate_jws.go:17-76 | after any run a valid token is revoked exactly by a request under its DID or from its account |
| `TokenRuns.EndOfBlockRevokesLapsed` | x/core/keeper/jws_token.go:278-303 | after any run the end of a block revokes exactly the tokens whose expiry has come |
| `TokenRuns.RevokedForGood` | x/core/keeper/jws_token.go:321-327 | once the hash of a text is revoked, that text is rejected after every further run |
| `TokenRuns.RecordDecides` | x/core/keeper/jws_token.go:307-350 | the record under the hash of the presented text decides: a known text is accepted exactly when its record is valid and all else passes, an unknown one exactly when it would be with no records at all |
| `TokenRuns.RevokedClaimsExact` | app/ante/extension.go:82-105 | after any run, a transaction with the claims of a revoked token, in whatever text, that would pass were that text new is rejected exactly when the hash of the text it presents is itself revoked |
| `TokenRuns.RevocationIsPerSpelling` | app/ante/extension.go:82-105 | with a blank in front, as long as that text is unknown, a revoked token is accepted as if it were new, with the same actor |
| `TokenRuns.RevokedTokenRespelled` | app/ante/extension.go:82-105 | an instance: one setting, one record and one token for which this happens |
| `AnteObjects.FirstBadCreator` | app/ante/extension.go:113-133 | the loop reports the first message that breaks the rule, and nothing exactly when every message was created by the signer |
| `AnteObjects.FindRelay` | app/ante/extension.go:144-187 | accepted in relay mode only with a fee granter, whose address it returns, and with all messages created by the payer |
| `AnteObjects.TokenKeeper.Record` | x/core/keeper/jws_token.go:307-350 | records or error as in the functional model; an error leaves the records unchanged |
| `AnteObjects.BankKeeper.SendCoins` | app/ante/fee.go:274-285 | succeeds exactly when the sender affords every coin, and then the balances have moved by exactly the coins |
| `AnteObjects.AnteHandler.ExtensionOptions` | app/ante/extension.go:33-142 | context, token records and error are those of the functional extension check |
| `AnteObjects.AnteHandler.FindPayer` | app/ante/fee.go:205-271 | grant store and charged account, or the error, are those of the functional handleFeegrant |
| `AnteObjects.AnteHandler.ChargeFee` | app/ante/fee.go:162-200 | grants and balances after the charge, or the error, are those of the functional model |
| `AnteObjects.AnteHandler.DeductFees` | app/ante/fee.go:56-95 | the same for the whole decorator, with genesis, gas and fee checks; when it accepts is stated by AnteExact.AcceptedExactly |
| `AnteObjects.AnteHandler.Run` | app/ante/extension.go:33-142 | both decorators in sequence end in the state, context and charge that the theorems speak about |
| `Decimal.ChopNearest` | app/ante/fee.go:146-146 | rounding takes a nearest value, the even one on a tie |
| `Decimal.CeilIsCeiling` | app/ante/fee.go:146-146 | rounding up gives the least whole number not below the value |
| `FeePolicy.RequiredIsCeiling` | app/ante/fee.go:141-146 | the required fee is price × gas × multiplier rounded up once, in spite of three roundings |
| `FeePolicy.PassesIffPriceMet` | app/ante/fee.go:123-155 | for every gas limit a fee passes exactly when its denomination has a price and what it pays per gas, taken as the int64 the code casts to, meets that price times the multiplier |
| `FeePolicy.PriceInFigures` | app/ante/fee.go:123-155 | the same with every constant written out: units of 10^-18, zero counting as 0.001, `ucredit` ten times as much, gas read as an int64; and which error otherwise |
| `FeePolicy.FeeCheckedExactly` | app/ante/fee.go:100-160 | no fee passes only where the chain allows it, more than one denomination never, one always outside CheckTx |
| `FeePolicy.ClientFeeInFigures` | sdk/tx.go:177-188 | the client's fee is 0.001 a unit of gas, ten times that in `ucredit`, rounded up |
| `FeePolicy.FloorHoldsIffGasFits` | app/ante/fee.go:146-146 | of the function alone: the check is a lower bound on the fee exactly when the gas limit is below 2^63; above, the cast lets every fee pass |
| `FeePolicy.ClientFeePasses` | sdk/tx.go:177-191 | for every gas limit in 1..2^63−1 and both denominations the client's fee passes every validator minimum up to the default; at zero or the default, one unit less is refused |
| `FeePolicy.ClientFeeFits` | sdk/tx.go:177-191 | the client's fee fits an int64 and is zero only for zero gas |
| `FeePolicy.TxBuilder.EvaluateTx` | sdk/tx.go:156-198 | gas limit, fee, fee amount and fee granter after the call; without simulated gas nothing changes |
| `Priority.PriorityGroup` | app/lanes/priority_lane.go:67-107 | in spite of the early return the group is the least class over the messages, and the lowest for none |
| `Priority.GroupByModules` | app/lanes/priority_lane.go:67-107 | a transaction is in group 3 exactly if all messages are of acp, in 2 or above exactly if of acp or tier, in 1 or above exactly if of acp, tier, orbis or bulletin |
| `Priority.ModulesRank` | app/lanes/priority_lane.go:45-107 | at whatever prices, acp-only transactions rank above all others, those of acp and tier only above all with another message, those of the four modules above the rest |
| `Priority.PriorityShape` | app/lanes/priority_lane.go:45-52 | every priority is the digit of the group, a colon and 32 characters |
| `Priority.GroupIgnoresOrder` | app/lanes/priority_lane.go:67-107 | the group depends only on which messages there are |
| `Priority.AppendNeverRaises` | app/lanes/priority_lane.go:67-107 | appending messages to a non-empty list never raises the group |
| `Priority.FormatIsDigits` | app/lanes/priority_lane.go:127-136 | the text of every price that is not negative is its 32 leading digits, padded with zeros |
| `Priority.FormatCutsOff` | app/lanes/priority_lane.go:127-136 | a price of more than 32 digits is written without its last digit |
| `Priority.NegativeIsBelow` | app/lanes/priority_lane.go:127-136 | the text of a negative price is below that of every other |
| `Priority.PriorityOrder` | app/lanes/priority_lane.go:45-63 | comparing two priority texts compares groups first and the 32 leading digits of the scaled prices next, for all prices that are not negative |
| `Priority.OrderExact` | app/lanes/priority_lane.go:45-63 | for every N, all prices below N are ordered by their texts exactly when N is at most 10^32 |
| `Priority.OrderInverts` | app/lanes/priority_lane.go:127-136 | a pair for which it is not: 10^32 ranks below 9·10^31 |
| `Priority.MinValueIsLeast` | app/lanes/priority_lane.go:61-61 | a priority ranks below MinValue exactly if it is of the lowest group with a negative price |
| `Priority.HigherPayerNeverRanksBelow` | app/lanes/priority_lane.go:110-136 | within a group and below 2^63 gas, paying at least as much per gas gives at least the price, in spite of truncation and half-even rounding, and never ranks below if the price fits 32 digits; else exactly if its leading digits are not less |
| `Priority.GasPriceInFigures` | app/lanes/priority_lane.go:110-124 | the price is the `uopen` part of the fee per unit of gas, to 18 places, cut at 36 and rounded; zero without fee, without gas, and for a transaction that carries no fee |
| `Priority.HugeGasRanksLast` | app/lanes/priority_lane.go:110-124 | of the function alone: from 2^63 gas on the cast makes the price zero or negative, and the transaction never ranks above another of its group whose price is not negative |
| `Mint.RatioIsDelegatorPart` | app/mint.go:75-102 | a ratio is returned exactly when the delegators' stake is positive; it lies in [0, 1] and is their part of the total, correctly rounded |
| `Mint.RatioRefused` | app/mint.go:75-102 | no ratio exactly beyond 256 bits or, else, when the total or the delegators' stake is not positive; and which error it is |
| `Mint.InflationBounds` | app/mint.go:105-124 | effective inflation lies between zero and the minter's inflation and is the product with the ratio rounded to the nearest |

## Left out

- RateLimits.RateLimitExact: which fee denominations a validator accepts, and by which block time a run starts, are not part of the condition.
- KeeperStore.GrantRefused: for an account grant, the creation of the grantee's account and the refusal of a blocked address are not modelled.
- Priority.PriorityOrder: nothing is said about the order of two negative prices.
- FeePolicy.TxBuilder.EvaluateTx: starts from the adjusted gas limit; the floating-point adjustment is not modelled.
- Mint.RatioIsDelegatorPart: overflow panics of the big-integer type are not modelled.
- Bearer.DirectTokenExact: parsing, key decoding and signature verification are parameters.
- AllowanceObjects.AllowedMsgAllowance.Accept: running out of gas and an Any that was never unpacked are not modelled.
- KeeperOps.EveryRunIsSynced: DID grants only; for account grants the revocation breaks it, exactly as stated beside it.
- KeeperRuns.PruneExact: iterators are taken to walk the keys present when they were opened.
- Calendar.FormatTimeExact: expiries outside the years 0 to 9999, which a protobuf timestamp cannot hold.
- Bank.SendMoves: the bank is a library; only its transfer is modelled, and vesting locks are a parameter.
- AnteRuns.GrantNeverOverdrawn: chain settings and existing accounts stay fixed along a run.
- TokenRuns.TokenIsRecorded: the secondary indices by DID and account are not represented.
- AnteObjects.AnteHandler.Run: the decorators of the SDK and IBC that stand between and after the two are not represented.
- The denomination syntax that coin validation checks: coins are sorted lists of names and amounts.
- Addresses that are empty or longer than 255 bytes hold no grant; key building panics on them.
- The bitwise operations of the varint code are written as arithmetic on disjoint bits.
- Genesis import and export, queries, events, logging and metrics.
- The generated code of the request, query and genesis messages, which repeats the same pattern.
- The `x/tier`, `x/acp`, `x/bulletin` and `x/orbis` modules, the faucet, the command line and the network clients.
