/**
 * The gorm logger adapter of log/gorm.go: reading the configured gorm level, building
 * the adapter, switching its level (LogMode) and deciding what a finished SQL
 * statement logs (Trace).
 */
module GormLog {
  import opened GoTypes
  import opened Logging

  /** gorm's logger.LogLevel is an int; these are its named values. */
  const SILENT: int := 1
  const ERROR: int := 2
  const WARN: int := 3
  const INFO: int := 4

  /** MySQL's ER_DUP_ENTRY. */
  const DUPLICATE_ENTRY: int := 1062

  /** strToGormLogLevel: "error"/"ERROR" and "info"/"INFO" are recognised, with exactly
      those spellings; everything else (including "silent") means Warn. */
  function StrToGormLogLevel(str: string): (lv: int)
    ensures lv == ERROR <==> str == "error" || str == "ERROR"
    ensures lv == INFO <==> str == "info" || str == "INFO"
    ensures lv == WARN <==> str !in {"error", "ERROR", "info", "INFO"}
  {
    if str == "error" || str == "ERROR" then ERROR
    else if str == "info" || str == "INFO" then INFO
    else WARN
  }

  /** No configuration string silences the adapter or yields an unknown level. */
  lemma ConfiguredLevelIsValid(str: string)
    ensures SILENT < StrToGormLogLevel(str) <= INFO
    ensures ZapLevelFor(StrToGormLogLevel(str)).Some?
  {
  }

  /** The copy of the configuration NewGormLogger hands on: a CallerSkip of 2 or less
      becomes 3, every other field is the caller's. */
  function ClampCallerSkip(c: Config): (r: Config)
    ensures c.callerSkip <= 2 ==> r.callerSkip == 3
    ensures c.callerSkip > 2 ==> r == c
    ensures r == c.(callerSkip := r.callerSkip)
  {
    if c.callerSkip <= 2 then c.(callerSkip := 3) else c
  }

  /** The adapter; LogMode never updates one, it builds another. */
  datatype GormLogger = GormLogger(
    logger: Logger, level: int, slowThreshold: int,
    ignoreRecordNotFoundError: bool, ignoreDuplicateError: bool)

  /** NewGormLogger. `parsedLevel` is what zap makes of the configured Level string
      (an error for an unknown name); `core` is the global logger's core. */
  method NewGormLogger(config: Config, parsedLevel: Result<ZapLevel>, core: Core)
    returns (r: Result<GormLogger>)
    ensures parsedLevel.Err? ==> r == Err(parsedLevel.message)
    ensures parsedLevel.Ok? ==> r.Ok? && fresh(r.value.logger) && r.value.logger.Valid()
    ensures r.Ok? ==>
              && r.value.logger.config == Some(ClampCallerSkip(config))
              && r.value.logger.level == parsedLevel.value
              && r.value.logger.core == core
              && r.value.logger.Hooks() == []
              && r.value.level == StrToGormLogLevel(config.gormLevel)
              && r.value.slowThreshold == config.sqlSlowThreshold
              && r.value.ignoreRecordNotFoundError == config.ignoreRecordNotFoundError
              && r.value.ignoreDuplicateError == config.ignoreDuplicateError
  {
    var c := config;
    var level := StrToGormLogLevel(config.gormLevel);
    if c.callerSkip <= 2 {
      c := c.(callerSkip := 3);
    }
    if parsedLevel.Err? {
      return Err(parsedLevel.message);
    }
    var l := new Logger(c, core, parsedLevel.value);
    r := Ok(GormLogger(l, level, c.sqlSlowThreshold, c.ignoreRecordNotFoundError, c.ignoreDuplicateError));
  }

  /** The zap level LogMode gives the derived logger for a gorm level, if it accepts it. */
  function ZapLevelFor(level: int): (l: Option<ZapLevel>)
    ensures l.Some? <==> SILENT <= level <= INFO
    ensures level == INFO ==> l == Some(Info)
    ensures level == WARN ==> l == Some(Warn)
    ensures level == ERROR ==> l == Some(Error)
    ensures level == SILENT ==> l == Some(Fatal)
  {
    if level == INFO then Some(Info)
    else if level == WARN then Some(Warn)
    else if level == ERROR then Some(Error)
    else if level == SILENT then Some(Fatal)
    else None
  }

  /** A more verbose gorm level gets a strictly lower zap threshold. */
  lemma ZapLevelForReversesOrder(a: int, b: int)
    requires SILENT <= a < b <= INFO
    ensures Rank(ZapLevelFor(a).value) > Rank(ZapLevelFor(b).value)
  {
  }

  /** LogMode: an unknown level gives back the receiver; a known one gives a new adapter
      whose logger (from Logger.NewLevel) has the mapped zap level, the same core and
      the receiver's hook slice, backing array included, and which keeps the threshold
      and both ignore flags. */
  method LogMode(g: GormLogger, level: int) returns (r: GormLogger)
    requires g.logger.Valid()
    ensures ZapLevelFor(level).None? ==> r == g
    ensures ZapLevelFor(level).Some? ==>
              && fresh(r.logger) && r.logger.Valid()
              && r.logger.level == ZapLevelFor(level).value
              && r.logger.core == g.logger.core
              && r.logger.hookBuf == g.logger.hookBuf && r.logger.hookLen == g.logger.hookLen
              && r.logger.Hooks() == g.logger.Hooks()
              && r.level == level
              && r.slowThreshold == g.slowThreshold
              && r.ignoreRecordNotFoundError == g.ignoreRecordNotFoundError
              && r.ignoreDuplicateError == g.ignoreDuplicateError
  {
    var l: ZapLevel;
    if level == INFO {
      l := Info;
    } else if level == WARN {
      l := Warn;
    } else if level == ERROR {
      l := Error;
    } else if level == SILENT {
      l := Fatal;
    } else {
      return g;
    }
    var nl := g.logger.NewLevel(l);
    r := GormLogger(nl, level, g.slowThreshold, g.ignoreRecordNotFoundError, g.ignoreDuplicateError);
  }

  /** The errors Trace can be handed: gorm's record-not-found sentinel, a MySQL driver
      error, an error wrapping another one (fmt.Errorf with %w), or any other error. */
  datatype DbError =
    | RecordNotFound
    | MySqlError(number: int, message: string)
    | Wrapped(message: string, cause: DbError)
    | OtherError(message: string)

  /** errors.Is(err, gorm.ErrRecordNotFound): the error or one it wraps is the sentinel. */
  predicate IsRecordNotFound(e: DbError) {
    match e
    case RecordNotFound => true
    case Wrapped(_, cause) => IsRecordNotFound(cause)
    case _ => false
  }

  /** IsDuplicateEntry: the error is itself a MySQL error numbered 1062. */
  function IsDuplicateEntry(e: DbError): (dup: bool)
    ensures dup <==> e.MySqlError? && e.number == DUPLICATE_ENTRY
  {
    match e
    case MySqlError(number, _) => number == DUPLICATE_ENTRY
    case _ => false
  }

  /** The sentinel is found through any number of wraps; a duplicate-entry error is
      recognised only unwrapped. */
  lemma WrappingIsSeenOnlyForRecordNotFound(e: DbError, message: string)
    ensures IsRecordNotFound(Wrapped(message, e)) == IsRecordNotFound(e)
    ensures !IsDuplicateEntry(Wrapped(message, e))
    ensures IsDuplicateEntry(MySqlError(DUPLICATE_ENTRY, message))
  {
  }

  /** What Trace does: nothing, or one log call with the arguments `kvs`. */
  datatype TraceEntry =
    | NoEntry
    | ErrorEntry(err: DbError, kvs: seq<Any>)
    | SlowEntry(threshold: int, kvs: seq<Any>)
    | InfoEntry(kvs: seq<Any>)

  /** The zap level of the call an entry makes (g.Error, g.Warn or g.Info). */
  function EntryLevel(e: TraceEntry): ZapLevel
    requires !e.NoEntry?
  {
    match e
    case ErrorEntry(_, _) => Error
    case SlowEntry(_, _) => Warn
    case InfoEntry(_) => Info
  }

  /** The arguments of every Trace log call: cost, then rows unless they are -1, then sql. */
  function TraceValues(elapsed: int, sql: string, rows: int): seq<Any> {
    if rows == -1 then [Str("cost"), Millis(elapsed), Str("sql"), Str(sql)]
    else [Str("cost"), Millis(elapsed), Str("rows"), Int(rows), Str("sql"), Str(sql)]
  }

  /** The error case: an error that is not ignored, at level Error or more verbose. */
  predicate ErrorCase(g: GormLogger, err: Option<DbError>) {
    && err.Some?
    && g.level >= ERROR
    && (!IsRecordNotFound(err.value) || !g.ignoreRecordNotFoundError)
    && (!IsDuplicateEntry(err.value) || !g.ignoreDuplicateError)
  }

  /** The slow case: a nonzero threshold exceeded, at level Warn or more verbose. */
  predicate SlowCase(g: GormLogger, elapsed: int) {
    elapsed > g.slowThreshold && g.slowThreshold != 0 && g.level >= WARN
  }

  /** Trace, for a statement that took `elapsed` nanoseconds and reported `sql` and
      `rows` (the results of fc) and `err`. */
  function Trace(g: GormLogger, elapsed: int, sql: string, rows: int, err: Option<DbError>): (e: TraceEntry)
    ensures g.level <= SILENT ==> e == NoEntry
    ensures e.ErrorEntry? <==> g.level > SILENT && ErrorCase(g, err)
    ensures e.SlowEntry? <==> g.level > SILENT && !ErrorCase(g, err) && SlowCase(g, elapsed)
    ensures e.InfoEntry? <==> g.level == INFO && !ErrorCase(g, err) && !SlowCase(g, elapsed)
    ensures e.ErrorEntry? ==> e.err == err.value
    ensures e.SlowEntry? ==> e.threshold == g.slowThreshold
    ensures !e.NoEntry? ==> e.kvs == TraceValues(elapsed, sql, rows)
  {
    if g.level <= SILENT then NoEntry
    else if ErrorCase(g, err) then ErrorEntry(err.value, TraceValues(elapsed, sql, rows))
    else if SlowCase(g, elapsed) then SlowEntry(g.slowThreshold, TraceValues(elapsed, sql, rows))
    else if g.level == INFO then InfoEntry(TraceValues(elapsed, sql, rows))
    else NoEntry
  }

  /** An error the flags say to ignore is traced as if the statement had succeeded. */
  lemma IgnoredErrorIsNoError(g: GormLogger, elapsed: int, sql: string, rows: int, e: DbError)
    requires (IsRecordNotFound(e) && g.ignoreRecordNotFoundError) || (IsDuplicateEntry(e) && g.ignoreDuplicateError)
    ensures Trace(g, elapsed, sql, rows, Some(e)) == Trace(g, elapsed, sql, rows, None)
  {
  }

  /** Raising the level within Silent..Info never silences a statement that was logged. */
  lemma TraceVerbosityMonotone(g: GormLogger, level: int, elapsed: int, sql: string, rows: int, err: Option<DbError>)
    requires SILENT <= g.level <= level <= INFO
    ensures Trace(g, elapsed, sql, rows, err) != NoEntry ==>
              Trace(g.(level := level), elapsed, sql, rows, err) != NoEntry
  {
  }

  /** For an adapter LogMode built, whatever Trace decides to log passes the derived
      logger's zap level threshold: gorm's level and zap's level agree. */
  lemma TraceEntriesPassZapThreshold(g: GormLogger, elapsed: int, sql: string, rows: int, err: Option<DbError>)
    requires SILENT <= g.level <= INFO
    ensures Trace(g, elapsed, sql, rows, err) != NoEntry ==>
              Rank(EntryLevel(Trace(g, elapsed, sql, rows, err))) >= Rank(ZapLevelFor(g.level).value)
  {
  }

  /** The fields a Trace log call ends up with, once Log has paired its arguments. */
  lemma TraceFields(elapsed: int, sql: string, rows: int)
    ensures rows == -1 ==>
              (AppendedFields([], [List(TraceValues(elapsed, sql, rows))]) ==
               [Field("cost", Millis(elapsed)), Field("sql", Str(sql))])
    ensures rows != -1 ==>
              (AppendedFields([], [List(TraceValues(elapsed, sql, rows))]) ==
               [Field("cost", Millis(elapsed)), Field("rows", Int(rows)), Field("sql", Str(sql))])
  {
    var kvs := TraceValues(elapsed, sql, rows);
    LogForwardsAsOneValue([], kvs);
    var sqlPair := [Str("sql"), Str(sql)];
    assert Paired(sqlPair) == [Field("sql", Str(sql))] by {
      assert sqlPair[2..] == [];
    }
    if rows == -1 {
      assert kvs[2..] == sqlPair;
    } else {
      var rest := [Str("rows"), Int(rows)] + sqlPair;
      assert kvs[2..] == rest && rest[2..] == sqlPair;
    }
  }
}
