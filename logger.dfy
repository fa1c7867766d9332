/**
 * The field builder and the hook/level bookkeeping of log/logger.go.
 *
 * Go's `interface{}` values are the tagged datatype `Any`; a `zap.Field` is a key and
 * a value. A logger's `hooks` slice is kept as Go keeps it, a backing array plus a
 * length, so that what `append` does to a slice shared by two loggers is visible.
 */
module Logging {
  import opened GoTypes

  /** The logger configuration (only the fields the model reads are interpreted). */
  datatype Config = Config(
    filename: string, maxSize: int, maxAge: int, maxBackups: int, localTime: bool, compress: bool,
    callerSkip: int, level: string, console: string,
    gormLevel: string, sqlSlowThreshold: int, ignoreRecordNotFoundError: bool, ignoreDuplicateError: bool)

  /** zapcore.Level. */
  datatype ZapLevel = Debug | Info | Warn | Error | DPanic | Panic | Fatal

  /** zapcore's numeric value of a level: Debug is -1, Fatal is 5. */
  function Rank(l: ZapLevel): int {
    match l
    case Debug => -1
    case Info => 0
    case Warn => 1
    case Error => 2
    case DPanic => 3
    case Panic => 4
    case Fatal => 5
  }

  /** A dynamically typed argument: a string, an integer, a `[]interface{}`, a float
      holding a duration in milliseconds, or any other value (by identity). */
  datatype Any = Str(s: string) | Int(i: int) | List(items: seq<Any>) | Millis(nanos: int) | Other(id: nat)

  /** zap.Any(key, value). */
  datatype Field = Field(key: string, value: Any)

  /** A single argument that is a `[]interface{}` stands for its elements. */
  function Flatten(kvs: seq<Any>): seq<Any> {
    if |kvs| == 1 && kvs[0].List? then kvs[0].items else kvs
  }

  /** The field name a key yields: the key itself when it is a string. */
  function KeyName(k: Any): string {
    if k.Str? then k.s else "invalidKey"
  }

  /** Consecutive pairs become fields; an odd last element becomes a "danglingKey" field. */
  function Paired(kvs: seq<Any>): seq<Field>
    decreases |kvs|
  {
    if |kvs| == 0 then []
    else if |kvs| == 1 then [Field("danglingKey", kvs[0])]
    else [Field(KeyName(kvs[0]), kvs[1])] + Paired(kvs[2..])
  }

  /** What appendFields(fields, kvs...) returns. */
  function AppendedFields(fields: seq<Field>, kvs: seq<Any>): seq<Field> {
    fields + Paired(Flatten(kvs))
  }

  lemma {:induction false} PairedLength(kvs: seq<Any>)
    ensures |Paired(kvs)| == |kvs| / 2 + |kvs| % 2
    decreases |kvs|
  {
    if |kvs| >= 2 {
      PairedLength(kvs[2..]);
    }
  }

  /** Pair j of the arguments is field j, named by its key. */
  lemma {:induction false} PairedAt(kvs: seq<Any>, j: nat)
    requires j < |kvs| / 2
    ensures j < |Paired(kvs)|
    ensures Paired(kvs)[j] == Field(KeyName(kvs[2 * j]), kvs[2 * j + 1])
    decreases j
  {
    PairedLength(kvs);
    if j > 0 {
      PairedAt(kvs[2..], j - 1);
    }
  }

  /** With an odd count, the last field carries the last argument under "danglingKey". */
  lemma {:induction false} PairedDangling(kvs: seq<Any>)
    requires |kvs| % 2 == 1
    ensures |Paired(kvs)| == |kvs| / 2 + 1
    ensures Paired(kvs)[|kvs| / 2] == Field("danglingKey", kvs[|kvs| - 1])
    decreases |kvs|
  {
    PairedLength(kvs);
    if |kvs| > 1 {
      PairedDangling(kvs[2..]);
    }
  }

  lemma {:induction false} PairedSnoc(kvs: seq<Any>, k: Any, v: Any)
    requires |kvs| % 2 == 0
    ensures Paired(kvs + [k, v]) == Paired(kvs) + [Field(KeyName(k), v)]
    decreases |kvs|
  {
    if |kvs| > 0 {
      assert (kvs + [k, v])[2..] == kvs[2..] + [k, v];
      PairedSnoc(kvs[2..], k, v);
    }
  }

  lemma PairedStep(kv: seq<Any>, i: nat)
    requires i % 2 == 0 && i + 2 <= |kv|
    ensures Paired(kv[..i + 2]) == Paired(kv[..i]) + [Field(KeyName(kv[i]), kv[i + 1])]
  {
    assert kv[..i + 2] == kv[..i] + [kv[i], kv[i + 1]];
    PairedSnoc(kv[..i], kv[i], kv[i + 1]);
  }

  lemma {:induction false} PairedLast(kv: seq<Any>)
    requires |kv| % 2 == 1
    ensures Paired(kv) == Paired(kv[..|kv| - 1]) + [Field("danglingKey", kv[|kv| - 1])]
    decreases |kv|
  {
    var n := |kv|;
    if n == 1 {
      assert kv[..0] == [];
    } else {
      var tail := kv[2..];
      PairedLast(tail);
      assert kv[..n - 1][2..] == tail[..n - 3];
      assert kv[..n - 1][0] == kv[0] && kv[..n - 1][1] == kv[1];
    }
  }

  /** Once fewer than two values remain, at most the dangling key is left to pair. */
  lemma {:induction false} PairedRest(kv: seq<Any>, i: nat)
    requires i % 2 == 0 && |kv| - 1 <= i <= |kv|
    ensures i < |kv| <==> |kv| % 2 != 0
    ensures Paired(kv) == Paired(kv[..i]) + (if i < |kv| then [Field("danglingKey", kv[i])] else [])
  {
    if i < |kv| {
      assert |kv| == i + 1;
      PairedLast(kv);
    } else {
      assert kv[..i] == kv;
    }
  }

  /** appendFields: the existing fields copied, then one field per pair of the
      (flattened) arguments and one for an odd last argument. */
  method AppendFields(fields: seq<Field>, kvs: seq<Any>) returns (r: seq<Field>)
    ensures r == AppendedFields(fields, kvs)
  {
    var kv := kvs;
    if |kv| == 1 {
      if kv[0].List? {
        kv := kv[0].items;
      }
    }
    assert kv == Flatten(kvs);
    var newFields := fields;
    var i := 0;
    while i < |kv| - 1
      invariant 0 <= i <= |kv| && i % 2 == 0
      invariant newFields == fields + Paired(kv[..i])
    {
      var k, v := kv[i], kv[i + 1];
      PairedStep(kv, i);
      if k.Str? {
        newFields := newFields + [Field(k.s, v)];
      } else {
        newFields := newFields + [Field("invalidKey", v)];
      }
      i := i + 2;
    }
    PairedRest(kv, i);
    if |kv| % 2 != 0 {
      newFields := newFields + [Field("danglingKey", kv[|kv| - 1])];
    }
    r := newFields;
  }

  /** The result starts with the given fields unchanged and adds one field per pair of
      the flattened arguments, plus one for an odd last argument. */
  lemma AppendedFieldsShape(fields: seq<Field>, kvs: seq<Any>)
    ensures AppendedFields(fields, kvs)[..|fields|] == fields
    ensures |AppendedFields(fields, kvs)| == |fields| + |Flatten(kvs)| / 2 + |Flatten(kvs)| % 2
  {
    PairedLength(Flatten(kvs));
  }

  /** Log hands its variadic arguments to appendFields as one `[]interface{}` value;
      the flattening makes that the same as pairing the arguments themselves. */
  lemma LogForwardsAsOneValue(fields: seq<Field>, kvs: seq<Any>)
    ensures AppendedFields(fields, [List(kvs)]) == fields + Paired(kvs)
    ensures |AppendedFields(fields, [List(kvs)])| == |fields| + |kvs| / 2 + |kvs| % 2
  {
    PairedLength(kvs);
  }

  /** A hook function, identified by a number (Go function values have no equality). */
  type Hook = nat

  /** The shared *zap.Logger, by identity. */
  type Core = nat

  /** The capacity Go's `append` allocates when a slice of pointer-sized elements is
      full: double while small, then grow by about a quarter. */
  function NextCapacity(cap: nat): (n: nat)
    ensures n > cap
  {
    if cap == 0 then 1
    else if cap < 256 then 2 * cap
    else cap + (cap + 3 * 256) / 4
  }

  class Logger {
    /** c: the logger's private copy of its configuration (nil for a derived logger). */
    var config: Option<Config>
    /** z: the zap logger doing the output. */
    var core: Core
    /** l: the level threshold. */
    var level: ZapLevel
    /** hooks: the slice's backing array (its length is the slice's capacity)... */
    var hookBuf: array<Hook>
    /** ...and the slice's length. */
    var hookLen: nat

    predicate Valid()
      reads this
    {
      hookLen <= hookBuf.Length
    }

    /** The hooks the slice currently holds, in order. */
    function Hooks(): seq<Hook>
      reads this, hookBuf
      requires Valid()
    {
      hookBuf[..hookLen]
    }

    /** The literal that ends NewLogger: a copy of the configuration and no hooks. */
    constructor (config: Config, core: Core, level: ZapLevel)
      ensures fresh(hookBuf) && hookBuf.Length == 0 && hookLen == 0 && Valid() && Hooks() == []
      ensures this.config == Some(config) && this.core == core && this.level == level
    {
      this.config := Some(config);
      this.core := core;
      this.level := level;
      hookBuf := new Hook[0];
      hookLen := 0;
    }

    /** A logger literal without a configuration that takes over a hooks slice. */
    constructor Derived(core: Core, level: ZapLevel, hookBuf: array<Hook>, hookLen: nat)
      requires hookLen <= hookBuf.Length
      ensures Valid()
      ensures config == None && this.core == core && this.level == level
      ensures this.hookBuf == hookBuf && this.hookLen == hookLen
    {
      config := None;
      this.core := core;
      this.level := level;
      this.hookBuf := hookBuf;
      this.hookLen := hookLen;
    }

    /** NewLevel as written: same core and hooks, the given level, no configuration.
        The new logger shares the receiver's hooks slice, backing array included. */
    method NewLevel(lv: ZapLevel) returns (r: Logger)
      requires Valid()
      ensures fresh(r) && r.Valid()
      ensures r.config == None && r.core == core && r.level == lv
      ensures r.hookBuf == hookBuf && r.hookLen == hookLen && r.Hooks() == Hooks()
    {
      r := new Logger.Derived(core, lv, hookBuf, hookLen);
    }

    /** NewLevel with the hooks copied into a slice of the new logger's own. */
    method NewLevelOwnHooks(lv: ZapLevel) returns (r: Logger)
      requires Valid()
      ensures fresh(r) && fresh(r.hookBuf) && r.Valid()
      ensures r.config == None && r.core == core && r.level == lv && r.Hooks() == Hooks()
    {
      var buf := new Hook[hookLen];
      forall i | 0 <= i < hookLen {
        buf[i] := hookBuf[i];
      }
      r := new Logger.Derived(core, lv, buf, hookLen);
    }

    /** AddHook: `hooks = append(hooks, hook)`. With room left the hook is written into
        the existing backing array; otherwise a larger array is allocated. */
    method AddHook(h: Hook)
      requires Valid()
      modifies this, hookBuf
      ensures Valid() && Hooks() == old(Hooks()) + [h]
      ensures config == old(config) && core == old(core) && level == old(level)
      ensures old(hookLen) < old(hookBuf.Length) ==> hookBuf == old(hookBuf)
      ensures old(hookLen) == old(hookBuf.Length) ==>
                fresh(hookBuf) && hookBuf.Length == NextCapacity(old(hookBuf.Length))
      ensures forall i :: 0 <= i < old(hookBuf.Length) && i != old(hookLen) ==>
                old(hookBuf)[i] == old(hookBuf[i])
    {
      if hookLen < hookBuf.Length {
        hookBuf[hookLen] := h;
      } else {
        var buf := new Hook[NextCapacity(hookBuf.Length)];
        forall i | 0 <= i < hookLen {
          buf[i] := hookBuf[i];
        }
        buf[hookLen] := h;
        hookBuf := buf;
      }
      hookLen := hookLen + 1;
    }
  }

  /** A logger with three hooks (capacity 4 after Go's growth 1, 2, 4) is derived with
      NewLevel; each logger then adds a hook. The second append overwrites the first
      logger's newest hook, because both slices write slot 3 of the same array. */
  method SharedHooksExample(config: Config) returns (parentHooks: seq<Hook>, childHooks: seq<Hook>)
    ensures parentHooks == [1, 2, 3, 5]
    ensures childHooks == [1, 2, 3, 5]
  {
    var parent := new Logger(config, 0, Info);
    parent.AddHook(1);
    assert parent.hookLen == 1 && parent.hookBuf.Length == 1;
    parent.AddHook(2);
    assert parent.hookLen == 2 && parent.hookBuf.Length == 2;
    parent.AddHook(3);
    assert parent.Hooks() == [1, 2, 3] && parent.hookBuf.Length == 4;
    var child := parent.NewLevel(Warn);
    parent.AddHook(4);
    assert parent.Hooks() == [1, 2, 3, 4];
    child.AddHook(5);
    parentHooks := parent.Hooks();
    childHooks := child.Hooks();
  }

  /** The same sequence of calls with NewLevelOwnHooks keeps each logger's hooks its own. */
  method OwnHooksExample(config: Config) returns (parentHooks: seq<Hook>, childHooks: seq<Hook>)
    ensures parentHooks == [1, 2, 3, 4]
    ensures childHooks == [1, 2, 3, 5]
  {
    var parent := new Logger(config, 0, Info);
    parent.AddHook(1);
    assert parent.hookLen == 1 && parent.hookBuf.Length == 1;
    parent.AddHook(2);
    assert parent.hookLen == 2 && parent.hookBuf.Length == 2;
    parent.AddHook(3);
    assert parent.Hooks() == [1, 2, 3] && parent.hookBuf.Length == 4;
    var child := parent.NewLevelOwnHooks(Warn);
    parent.AddHook(4);
    assert parent.Hooks() == [1, 2, 3, 4];
    child.AddHook(5);
    parentHooks := parent.Hooks();
    childHooks := child.Hooks();
  }
}
