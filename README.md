# kon utilities, modelled in Dafny

This project models the parts of the Go utility repository `kon` that hold real logic.

- **Identifier generator** (`id/new.go`). It derives a three-byte machine tag from the host name's MD5 digest, or from the clock when there is no host name. It then forces and masks bits of the tag's first byte. Each identifier packs two eight-byte blocks:
  - *high*: a constant, the 32-bit Unix time, and the low 16 bits of a counter that wraps at 2^32;
  - *low*: three bits of tag byte 0, tag bytes 1 and 2, and 32 random bits.

  Each block is read as a big-endian `uint64`, written in base 36, and appended to a caller's prefix. The model proves the facts below:
  - the forced bits;
  - the exact values of both blocks;
  - that each base-36 segment decodes back to its block;
  - that the counter never repeats within 2^32 calls. The high block embeds only the counter's low 16 bits, so within one second the identifiers of calls fewer than 2^16 apart differ whatever the jitter. The high block repeats every 2^16 calls in the same second, and with equal jitter the identifier repeats too;
  - when the identifier has the 20 characters that the comment at `id/new.go:79` promises. It has them while the 32-bit time is below 4248942864; from then on the high block needs 11 digits. The source only prints a diagnostic then, and the model returns that diagnostic as `lengthWarning`.
- **Case converters** (`str/convert.go`). `UnderscoreToCamelCase` and `CamelCaseToUnderscore` are byte loops. Both are proved against recursive definitions, with exact length and content results. Two round trips are proved: a snake-case name survives camel-casing and back, and an underscore-free camel-case name survives snake-casing and back. So are the examples of the doc comment and of `str/convert_test.go`.
- **Set** (`data_struct/set/set.go`). The Go type is a mutable set over a map. The model is a class whose field `m` is a Dafny `set`. Each method states its new state or its answer in terms of `m`. `Equal` and `IsSubOf` keep their early-return loops. The scenario of `set_test.go` is replayed on the model.
- **Logger bookkeeping** (`log/logger.go`):
  - `appendFields` pairs a variadic argument list into named fields. It handles a single `[]interface{}` argument, non-string keys (`"invalidKey"`) and an odd last argument (`"danglingKey"`).
  - `AddHook` and `NewLevel` work on the logger's hook slice. That slice is modelled as Go's backing array plus a length, so sharing it between two loggers is visible (see Findings).
- **gorm adapter** (`log/gorm.go`):
  - reading the configured gorm level;
  - the CallerSkip clamp in `NewGormLogger`;
  - the level mapping of `LogMode`;
  - the branch choice of `Trace`;
  - `IsDuplicateEntry`.

  gorm levels are kept as integers (Silent 1, Error 2, Warn 3, Info 4), as gorm defines them. This way the `default` case of `LogMode` and the `<= Silent` test of `Trace` are both reachable.

Go strings are byte strings (`seq<byte>`) in the identifier and converter modules. Logging keys and messages are `string`.

## Model

| member | source | states |
|---|---|---|
| Id.GoRem | id/new.go:39 | Go's `%` truncates toward zero: the remainder has the dividend's sign and lies strictly between -d and d |
| Id.ShiftOffset | id/new.go:39-40 | the shift offset is `UnixNano() % 3` in 0..2. It is absent (Go panics on a negative shift) exactly when the nanoseconds are negative and not a multiple of 3 |
| Id.ForceTagBits | id/new.go:40-42 | the three in-place updates leave `sum[0]` forced and masked, with `sum[1]` and `sum[2]` unchanged |
| Id.GenMachineId | id/new.go:24-45 | genMachineID returns the tag built from the digest's first three bytes, or else from the low three bytes of the 32-bit time, with byte 0 forced. The tag has three bytes and byte 0 is below 64 |
| Id.ForcedBits | id/new.go:39-42 | after setting bits `offset` and `offset+3` and masking with `0b00111111`, tag byte 0 is below 64, bits `offset` and `offset+3` are set, and its three low bits are not all zero |
| Id.MachineTagShape | id/new.go:24-45 | whatever the digest or clock, a produced tag has three bytes, byte 0 below 64, and both forced bits set |
| Id.FallbackSeedIsTime | id/new.go:26-30 | without a host name, the seed bytes, read little-endian, are the 32-bit time's low 24 bits |
| Id.FallbackTagIsTime | id/new.go:26-42 | without a host name, tag bytes 1 and 2 are time bytes 1 and 2, and byte 0 is the time's low byte with the bits forced |
| Id.DigitValueOfDigit | id/new.go:83-84 | every base-36 digit character decodes back to its digit |
| Id.FormatParse | id/new.go:83-84 | `FormatUint(v, 36)` is canonical (no leading zero unless "0") and decodes back to v |
| Id.ParseFormat | id/new.go:83-84 | a canonical digit string decodes to a value whose rendering is that string |
| Id.ParseLowerBound | id/new.go:83-84 | a canonical rendering with n ≥ 2 digits is worth at least 36^(n-1) |
| Id.DigitCount | id/new.go:83-84 | a value with 36^(k-1) ≤ v < 36^k renders in exactly k digits |
| Id.DigitCountBounds | id/new.go:83-84 | conversely, a positive value rendered in k digits lies between 36^(k-1) and 36^k |
| Id.FormatUpperBound | id/new.go:83-84 | a value rendered in n digits is below 36^n |
| Id.Uint64Range | id/new.go:83-84 | eight bytes read big-endian fit in a uint64, the range `binary.BigEndian.Uint64` returns |
| Id.TenDigits | id/new.go:79-88 | a value renders in exactly ten digits if and only if 36^9 ≤ v < 36^10 |
| Id.HighBlockValue | id/new.go:47-61 | the high block read as a uint64 is 12·2^48 + ts·2^16 + (counter mod 2^16) |
| Id.HighValue | id/new.go:47-61 | the time and the counter's low 16 bits read back from the high block's value by division and remainder |
| Id.LowValue | id/new.go:64-77 | the low block read as a uint64 is (m0 & 7)·2^48 + m1·2^40 + m2·2^32 + (jitter mod 2^32) |
| Id.LowTagByte | id/new.go:67 | low-block byte 1 is at most 7, and is nonzero for every tag genMachineID makes |
| Id.LowIsTenDigits | id/new.go:64-84 | for every tag genMachineID makes, the low block renders as exactly ten base-36 digits |
| Id.HighDigits | id/new.go:47-84 | the high block renders as ten digits while the 32-bit time is below 4248942864, and as eleven from then on |
| Id.IdentifierLayout | id/new.go:79-94 | the identifier starts with the prefix. It has 20 generated characters exactly while the time is below 4248942864, and then its two halves decode to the high and low block values |
| Id.AdvanceIsAddition | id/new.go:58 | n counter increments leave the counter at (c + n) mod 2^32 |
| Id.CounterValuesDistinct | id/new.go:58 | two calls fewer than 2^32 increments apart never see the same counter value |
| Id.Counter16 | id/new.go:58-60 | the counter's low 16 bits, the part high() embeds, after n calls are (c + n) mod 2^16 |
| Id.HighBlocksDistinct | id/new.go:47-62 | within one second, calls fewer than 2^16 increments apart give high blocks with different values |
| Id.IdentifiersDistinct | id/new.go:47-94 | within one second, calls fewer than 2^16 increments apart give different identifiers, whatever their jitters |
| Id.HighBlockRepeats | id/new.go:58-60 | 2^16 calls later in the same second the high block is the same, and with the same jitter so is the identifier |
| Id.Generator.constructor | id/new.go:15-45 | package initialisation: the machine tag is exactly genMachineID's result for the given digest and clock, so it has the forced shape, and the counter is the 32-bit Unix time. A panicking genMachineID leaves no generator |
| Id.Generator.High | id/new.go:47-62 | high() increments the counter once (wrapping at 2^32), returns the high block of the time and the new counter, and the block's value carries both |
| Id.Generator.Low | id/new.go:64-77 | low() returns the low block of the machine tag and the jitter. Byte 1 is between 1 and 7, the value's low 32 bits are the jitter's, and the value fits a uint64 |
| Id.Generator.NewWithPrefix | id/new.go:79-94 | the identifier is prefix ++ base36(high) ++ base36(low), after exactly one counter increment. The length diagnostic fires exactly when the generated part is not 20 characters, which is exactly when the 32-bit time is at least 4248942864 |
| Convert.CamelUpToFrom | str/convert.go:19-38 | after i iterations, what the loop has appended plus the conversion of the rest is the whole conversion |
| Convert.UnderscoreToCamelCase | str/convert.go:19-38 | the loop computes the flag-driven conversion: no `_` in the output, and the length is the input length minus the number of underscores |
| Convert.CamelShape | str/convert.go:29-35 | the conversion drops every underscore and nothing else |
| Convert.CamelIsCapitalizedWithoutUnderscores | str/convert.go:21-35 | the conversion upper-cases a lower-case letter at the start or after `_`, copies every other byte in order, and drops the underscores |
| Convert.CamelSuffix | str/convert.go:21-35 | the same characterisation for every suffix of the input |
| Convert.SnakeUpToFrom | str/convert.go:41-54 | after i iterations, what the loop has appended plus the conversion of the rest is the whole conversion |
| Convert.CamelCaseToUnderscore | str/convert.go:41-54 | the loop computes the conversion: no upper-case letter in the output, and one extra `_` per upper-case letter after index 0 |
| Convert.SnakeShape | str/convert.go:45-51 | no upper-case letter remains, and the length is the input length plus the number of capitals after index 0 |
| Convert.SnakeKeepsOtherBytes | str/convert.go:51 | a string without capitals passes through unchanged |
| Convert.SnakeAt | str/convert.go:43-52 | input byte j lands at position j plus the capitals after index 0 before it. There an inner capital becomes `_` followed by its lower case, a capital at index 0 becomes its lower case alone, and any other byte is copied unchanged |
| Convert.SnakeNameRoundTrip | str/convert.go:19-54 | a snake-case name (lower-case, each `_` followed by a lower-case letter, not starting with `_`) comes back unchanged from UnderscoreToCamelCase then CamelCaseToUnderscore |
| Convert.SnakeCamel | str/convert.go:19-54 | the same round trip for a suffix, whatever the starting flag |
| Convert.CamelNameRoundTrip | str/convert.go:19-54 | an underscore-free name not starting lower-case comes back unchanged from CamelCaseToUnderscore then UnderscoreToCamelCase |
| Convert.CamelSnake | str/convert.go:19-54 | the same round trip for a suffix, whatever the starting position |
| ConvertExamples.DocToCamel | str/convert.go:17-18 | `aa_bb_cc` converts to `AaBbCc` |
| ConvertExamples.DocToSnake | str/convert.go:17-18 | `AaBbCc` converts back to `aa_bb_cc`, by the snake-name round trip |
| ConvertExamples.TestToCamel | str/convert_test.go:20-25 | `custom_config_path` converts to `CustomConfigPath` |
| ConvertExamples.TestToSnake | str/convert_test.go:27-32 | `CustomConfigPath` converts to `custom_config_path`, by the snake-name round trip on the test's input |
| Sets.SubsetSize | data_struct/set/set.go:49-53 | a subset is never larger than its superset, so IsSubOf's early size test never changes the answer |
| Sets.SubsetSameSize | data_struct/set/set.go:37-47 | a subset of equal size is the whole set, so Equal's size test plus a membership scan decides equality |
| Sets.Set.constructor | data_struct/set/set.go:7-12 | New(elems...) holds exactly the distinct given elements |
| Sets.Set.Has | data_struct/set/set.go:14-17 | Has is true if and only if the element is a member |
| Sets.Set.Add | data_struct/set/set.go:19-23 | Add makes every given element a member and keeps every earlier member |
| Sets.Set.Del | data_struct/set/set.go:25-27 | Del removes just that element, and deleting an absent element changes nothing |
| Sets.Set.Clear | data_struct/set/set.go:29-31 | Clear leaves the set empty |
| Sets.Set.Size | data_struct/set/set.go:33-35 | Size is the number of distinct members |
| Sets.Set.Equal | data_struct/set/set.go:37-47 | Equal is true if and only if both sets have the same members |
| Sets.Set.IsSubOf | data_struct/set/set.go:49-59 | IsSubOf is true if and only if every member is in the other set |
| SetsExamples.SetTestScenario | data_struct/set/set_test.go:5-29 | the test's calls give size 5, membership before and not after Del, not a subset, size 0 after Clear, and equality after Add |
| Logging.PairedLength | log/logger.go:126-139 | pairing n arguments yields n/2 + n%2 fields |
| Logging.PairedAt | log/logger.go:129-135 | pair j of the arguments is field j, named by its key if that is a string and `invalidKey` otherwise |
| Logging.PairedDangling | log/logger.go:137-139 | with an odd count, the last field is `danglingKey` carrying the last argument |
| Logging.PairedSnoc | log/logger.go:129-135 | appending a key-value pair appends exactly its field |
| Logging.PairedStep | log/logger.go:129-135 | one loop iteration adds the field of pair i |
| Logging.PairedLast | log/logger.go:137-139 | an odd list pairs as its even prefix plus the dangling field |
| Logging.PairedRest | log/logger.go:129-139 | when the loop stops, only a dangling key can remain, and exactly when the count is odd |
| Logging.AppendFields | log/logger.go:120-141 | appendFields returns the given fields followed by the pairing of the flattened arguments |
| Logging.AppendedFieldsShape | log/logger.go:126-139 | the result starts with an exact copy of the given fields and adds len(kvs)/2 + len(kvs)%2 fields after flattening |
| Logging.LogForwardsAsOneValue | log/logger.go:121-125 | a single `[]interface{}` argument (as Log forwards at line 173) pairs exactly as its elements would |
| Logging.NextCapacity | log/logger.go:157 | a full slice's append always allocates strictly more room |
| Logging.Logger.constructor | log/logger.go:112-117 | a new logger holds a copy of its configuration, the core and level, and no hooks |
| Logging.Logger.Derived | log/logger.go:149-153 | the logger literal of NewLevel: no configuration, and the given core, level and hook slice |
| Logging.Logger.NewLevel | log/logger.go:147-154 | NewLevel returns a fresh logger with the same core and hooks and the given level. The receiver is unchanged, and the new logger shares the receiver's hook array |
| Logging.Logger.NewLevelOwnHooks | log/logger.go:147-154 | the corrected NewLevel: same core, same hooks in order, the given level, and a hook array of its own |
| Logging.Logger.AddHook | log/logger.go:156-158 | AddHook appends the hook and keeps earlier hooks in order. It writes into the existing array while there is room, and otherwise moves to a larger fresh one |
| Logging.SharedHooksExample | log/logger.go:147-158 | after NewLevel, a hook added to the child overwrites the hook just added to the parent |
| Logging.OwnHooksExample | log/logger.go:147-158 | with NewLevelOwnHooks the same calls leave each logger its own hooks |
| GormLog.StrToGormLogLevel | log/gorm.go:17-26 | "error"/"ERROR" give Error, "info"/"INFO" give Info, and every other string gives Warn |
| GormLog.ConfiguredLevelIsValid | log/gorm.go:17-26 | a configured gorm level is never Silent and is always one LogMode accepts |
| GormLog.ClampCallerSkip | log/gorm.go:29-34 | a CallerSkip of 2 or less becomes exactly 3, a larger one leaves the configuration unchanged, and every other field is the caller's |
| GormLog.NewGormLogger | log/gorm.go:28-47 | a level parse error is returned as is. Otherwise the adapter's logger has the clamped configuration copy and no hooks, and the adapter has the gorm level, threshold and flags from the configuration |
| GormLog.ZapLevelFor | log/gorm.go:58-71 | Info maps to Info, Warn to Warn, Error to Error and Silent to Fatal; no other gorm level has a zap level |
| GormLog.ZapLevelForReversesOrder | log/gorm.go:58-71 | a more verbose gorm level gets a strictly lower zap threshold (Info, Warn, Error, then Fatal for Silent) |
| GormLog.LogMode | log/gorm.go:57-79 | an unknown level returns the receiver itself. A known one returns a new adapter whose logger comes from NewLevel: the mapped zap level, the same core, and the receiver's hook slice with its backing array. The adapter has the new gorm level and carries over the threshold and both flags |
| GormLog.IsDuplicateEntry | log/gorm.go:125-131 | an error is a duplicate entry if and only if it is itself a MySQL driver error numbered 1062 |
| GormLog.WrappingIsSeenOnlyForRecordNotFound | log/gorm.go:100-131 | errors.Is sees record-not-found through wrapping; IsDuplicateEntry does not see through wrapping; MySQL error 1062 is a duplicate |
| GormLog.Trace | log/gorm.go:93-123 | nothing is logged at Silent or below. The error, slow and info branches are each taken exactly under the source's conditions, in that order of precedence. Every call carries the cost, rows unless -1, and sql |
| GormLog.IgnoredErrorIsNoError | log/gorm.go:100 | an error the flags say to ignore is traced as if the statement had succeeded |
| GormLog.TraceVerbosityMonotone | log/gorm.go:94-121 | raising the gorm level never silences a statement that was logged |
| GormLog.TraceEntriesPassZapThreshold | log/gorm.go:57-123 | after LogMode, each entry Trace emits is at or above the derived logger's zap level |
| GormLog.TraceFields | log/gorm.go:101-121 | once paired by appendFields, a Trace call's fields are cost, rows (omitted when -1) and sql |

## Left out

- Clock, host name, randomness: `time.Now`, `os.Hostname`, the MD5 digest and `rand.Int` are not computed. Their results are parameters (`seconds`, `nanos`, `digest`, `jitter`).
- Counter atomicity: `atomic.AddUint32` is modelled as a sequential update of a field, so concurrent callers are not modelled.
- Diagnostics: the `fmt.Println` diagnostics in id/new.go are left out. The one in `NewWithPrefix` is represented by the `lengthWarning` result.
- Id.ShiftOffset: a negative `UnixNano()` that is not a multiple of 3 makes Go panic on the shift. The model gives None instead.
- Bit operations: Go's `|`, `& 0b00111111` and `& 0b111` on bytes are modelled arithmetically, as setting a bit (`SetBit`), `% 64` and `% 8`.
- The panic on a failed `hw.Write` in genMachineID is not modelled: writing to an MD5 hash never fails.
- Unhashable keys: the set is modelled over element types with equality. Go panics at run time when `Has`, `Add` or `Del` is given an unhashable `interface{}` key (a slice, map or function). The model has no such keys, so that panic is not modelled.
- `ToUpper`/`ToLower` in str/convert.go: they wrap Unicode-aware library case mapping, which is outside the byte model.
- Zap and file output: zap core construction, lumberjack file rotation and console syncers in `newZapCore`/`NewLogger` are not modelled. The logger holds its zap core as an opaque identity.
- Level parsing: zap's parse of the configured level string is a parameter of `GormLog.NewGormLogger`.
- Logger operations not modelled: `Log` (its level gate and dispatch to zap and hooks), `Close`, `Core`, and the Debug/Info/Warn/Error wrappers. They depend on zap's behaviour.
- Logging.NextCapacity: Go's growth rule is modelled without the rounding to allocation size classes, so the exact capacity after growth can differ. The examples only rely on the small-slice doubling.
- GormLog.LogMode: the "invalid gorm log level" warning logged in the default case is not modelled, only that the receiver is returned.
- GormLog.Trace: not modelled:
  - the `time.Since` clock, since elapsed nanoseconds are a parameter;
  - the float millisecond cost, which is kept as the integer nanoseconds;
  - the `err.Error()` text and the "SLOW SQL >= %v" message formatting;
  - the callback `fc`, whose results are parameters.
- Unmodelled files: log/global.go (delegating wrappers), orm/gorm.go (database open, migration and pool settings) and main.go (demo wiring) are not part of this model.

## Findings

| source | as written | input that shows it | evidently intended | confidence | as-written member | corrected member |
|---|---|---|---|---|---|---|
| log/logger.go:147-158 | `NewLevel` copies the `hooks` slice header, so the parent and the derived logger share one backing array, and `AddHook` appends in place while capacity lasts | add hooks 1, 2, 3 (capacity 4), derive with NewLevel, add 4 to the parent, then 5 to the child. The parent's hooks become [1, 2, 3, 5] | each logger keeps its own hooks: the parent [1, 2, 3, 4], the child [1, 2, 3, 5] | not executed | Logging.SharedHooksExample | Logging.OwnHooksExample |
