/**
 * The identifier generator of id/new.go: a 3-byte machine tag, a 32-bit counter,
 * two 8-byte blocks ("high" and "low") and their base-36 rendering.
 *
 * The clock (`time.Now`), the host name digest (`os.Hostname` + MD5) and the random
 * source (`rand.Int`) are parameters; the atomic counter is a field updated sequentially.
 */
module Id {
  import opened GoTypes

  // ---------------------------------------------------------------------------
  // Bit-level helpers
  // ---------------------------------------------------------------------------

  function Pow2(i: nat): (p: nat)
    ensures p > 0
  {
    if i == 0 then 1 else 2 * Pow2(i - 1)
  }

  /** Bit i (0 = least significant) of x. */
  function Bit(x: nat, i: nat): (r: nat)
    ensures r < 2
  {
    if i == 0 then x % 2 else Bit(x / 2, i - 1)
  }

  /** Bit i of a byte is set. */
  predicate HasBit(b: byte, i: nat)
    requires i < 8
  {
    Bit(b as nat, i) == 1
  }

  /** Go's `b | 1 << i` on a byte: bit i set, the others kept. */
  function SetBit(b: byte, i: nat): byte
    requires i < 8
  {
    if HasBit(b, i) then b else SetClearBit(b, i)
  }

  function SetClearBit(b: byte, i: nat): (r: byte)
    requires i < 8 && !HasBit(b, i)
    ensures r as int == b as int + Pow2(i)
  {
    assert Pow2(4) == 16 && Pow2(8) == 0x100;
    ClearBitRoom(b as nat, i, 8);
    (b as int + Pow2(i)) as byte
  }

  /** Below 2^n, a clear bit i leaves room to add 2^i. */
  lemma {:induction false} ClearBitRoom(x: nat, i: nat, n: nat)
    requires i < n && x < Pow2(n) && Bit(x, i) == 0
    ensures x + Pow2(i) < Pow2(n)
  {
    if i > 0 {
      ClearBitRoom(x / 2, i - 1, n - 1);
    }
  }

  lemma {:induction false} ZeroHasNoBits(i: nat)
    ensures Bit(0, i) == 0
  {
    if i > 0 {
      ZeroHasNoBits(i - 1);
    }
  }

  /** Adding 2^i to x whose bit i is clear sets that bit. */
  lemma {:induction false} AddClearBitSets(x: nat, i: nat)
    requires Bit(x, i) == 0
    ensures Bit(x + Pow2(i), i) == 1
  {
    if i > 0 {
      assert (x + Pow2(i)) / 2 == x / 2 + Pow2(i - 1);
      AddClearBitSets(x / 2, i - 1);
    }
  }

  /** Adding 2^j leaves every lower bit i as it was. */
  lemma {:induction false} AddHigherBitKeeps(x: nat, i: nat, j: nat)
    requires i < j
    ensures Bit(x + Pow2(j), i) == Bit(x, i)
  {
    if i > 0 {
      assert (x + Pow2(j)) / 2 == x / 2 + Pow2(j - 1);
      AddHigherBitKeeps(x / 2, i - 1, j - 1);
    }
  }

  /** Reducing modulo 2^n (Go's `& (1<<n - 1)`) leaves bits below n as they were. */
  lemma {:induction false} LowBitsKept(x: nat, i: nat, n: nat)
    requires i < n
    ensures Bit(x % Pow2(n), i) == Bit(x, i)
  {
    var c := Pow2(n - 1);
    HalfMod(x, c);
    if i > 0 {
      LowBitsKept(x / 2, i - 1, n - 1);
    }
  }

  /** Halving commutes with reduction modulo an even number, and reduction keeps parity. */
  lemma HalfMod(x: nat, c: nat)
    requires c > 0
    ensures x % (2 * c) / 2 == x / 2 % c
    ensures x % (2 * c) % 2 == x % 2
  {
    var q, r := x / (2 * c), x % (2 * c);
    assert q * (2 * c) == 2 * (q * c);
    assert x == 2 * (q * c) + r;
    DivModUnique(x / 2, c, q, r / 2);
  }

  /** Go's `%` on signed integers truncates toward zero; the divisor here is positive. */
  function GoRem(a: int, d: nat): (r: int)
    requires d > 0
    ensures -(d as int) < r < d
    ensures a >= 0 ==> r == a % d
    ensures a < 0 ==> r == -((-a) % d)
  {
    if a >= 0 then a % d else -((-a) % d)
  }

  // ---------------------------------------------------------------------------
  // Machine tag (genMachineID)
  // ---------------------------------------------------------------------------

  /**
   * The offset `time.Now().UnixNano() % 3`, or None when it is negative: Go then
   * panics on the shift `0b1001 << offset`, which needs a non-negative count.
   */
  function ShiftOffset(nanos: int): (r: Option<nat>)
    ensures r.Some? ==> r.value < 3 && r.value == nanos % 3
    ensures r.None? <==> nanos < 0 && (-nanos) % 3 != 0
  {
    var k := GoRem(nanos, 3);
    if k < 0 then None else Some(k)
  }

  /**
   * The three bytes the tag starts from: the first three bytes of the host name's MD5
   * digest, or, when the host name cannot be read (digest None), the three low bytes
   * of the 32-bit Unix time, least significant first.
   */
  function SeedBytes(digest: Option<seq<byte>>, seconds: int): seq<byte>
    requires digest.Some? ==> |digest.value| == 16
  {
    match digest
    case Some(d) => d[..3]
    case None =>
      var n := ToUint32(seconds) as nat;
      [LowByte(n), LowByte(n / 0x100), LowByte(n / 0x1_0000)]
  }

  /** Go's `b | 0b1001 << offset`: bits offset and offset + 3 set. */
  function SetNineBits(b: byte, offset: nat): byte
    requires offset < 3
  {
    SetBit(SetBit(b, offset), offset + 3)
  }

  /**
   * Tag byte 0 as genMachineID leaves it: `|= 0b1001 << offset`, `|= 1 << offset`, then
   * `&= 0b00111111`, which keeps the value's six low bits.
   */
  function ForceBits(b0: byte, offset: nat): byte
    requires offset < 3
  {
    SetBit(SetNineBits(b0, offset), offset) % 64
  }

  /** The machine tag genMachineID returns, or None when it panics. */
  function MachineTag(digest: Option<seq<byte>>, seconds: int, nanos: int): Option<seq<byte>>
    requires digest.Some? ==> |digest.value| == 16
  {
    match ShiftOffset(nanos)
    case None => None
    case Some(k) =>
      var seed := SeedBytes(digest, seconds);
      Some([ForceBits(seed[0], k)] + seed[1..])
  }

  /** The three in-place updates of `sum[0]` in genMachineID. */
  method ForceTagBits(sum: array<byte>, k: nat)
    requires sum.Length == 3 && k < 3
    modifies sum
    ensures sum[0] == ForceBits(old(sum[0]), k)
    ensures sum[1] == old(sum[1]) && sum[2] == old(sum[2])
  {
    sum[0] := SetNineBits(sum[0], k);
    sum[0] := SetBit(sum[0], k);
    sum[0] := sum[0] % 64;
  }

  /** genMachineID, updating `sum[0]` in place as the source does. */
  method GenMachineId(digest: Option<seq<byte>>, seconds: int, nanos: int) returns (tag: Option<seq<byte>>)
    requires digest.Some? ==> |digest.value| == 16
    ensures tag == MachineTag(digest, seconds, nanos)
    ensures tag.Some? ==> |tag.value| == 3 && tag.value[0] < 64
  {
    var sum := new byte[3];
    if digest.None? {
      var n := ToUint32(seconds) as nat;
      sum[0] := LowByte(n);
      sum[1] := LowByte(n / 0x100);
      sum[2] := LowByte(n / 0x1_0000);
    } else {
      sum[0], sum[1], sum[2] := digest.value[0], digest.value[1], digest.value[2];
    }
    ghost var seed := SeedBytes(digest, seconds);
    assert sum[..] == seed;
    var offset := ShiftOffset(nanos);
    if offset.None? {
      return None;
    }
    var k := offset.value;
    ForceTagBits(sum, k);
    ForcedBits(seed[0], k);
    tag := Some(sum[..]);
    assert tag.value == [ForceBits(seed[0], k)] + seed[1..];
  }

  /** The mask clears the top two bits; bits `offset` and `offset + 3` are always set. */
  lemma ForcedBits(b0: byte, offset: nat)
    requires offset < 3
    ensures ForceBits(b0, offset) < 64
    ensures HasBit(ForceBits(b0, offset), offset) && HasBit(ForceBits(b0, offset), offset + 3)
    ensures ForceBits(b0, offset) % 8 != 0
  {
    var n1 := SetBit(b0, offset);
    var n := SetBit(n1, offset + 3);
    if !HasBit(b0, offset) {
      AddClearBitSets(b0 as nat, offset);
    }
    if !HasBit(n1, offset + 3) {
      AddClearBitSets(n1 as nat, offset + 3);
      AddHigherBitKeeps(n1 as nat, offset, offset + 3);
    }
    assert SetBit(n, offset) == n;
    assert Pow2(6) == 64 && Pow2(3) == 8;
    LowBitsKept(n as nat, offset, 6);
    LowBitsKept(n as nat, offset + 3, 6);
    var r := n % 64;
    LowBitsKept(r as nat, offset, 3);
    ZeroHasNoBits(offset);
  }

  /** Whatever the digest or clock, a produced tag has the forced shape. */
  lemma MachineTagShape(digest: Option<seq<byte>>, seconds: int, nanos: int)
    requires digest.Some? ==> |digest.value| == 16
    requires MachineTag(digest, seconds, nanos).Some?
    ensures var t := MachineTag(digest, seconds, nanos).value;
      && |t| == 3
      && t[0] < 64
      && HasBit(t[0], nanos % 3) && HasBit(t[0], nanos % 3 + 3)
      && t[0] % 8 != 0
  {
    var k := ShiftOffset(nanos).value;
    ForcedBits(SeedBytes(digest, seconds)[0], k);
  }

  /** Without a host name, the seed reads back, little-endian, as the 32-bit time's low 24 bits. */
  lemma FallbackSeedIsTime(seconds: int)
    ensures var s := SeedBytes(None, seconds);
      s[0] as int + 0x100 * s[1] as int + 0x1_0000 * s[2] as int == ToUint32(seconds) as int % 0x100_0000
  {
    var n := ToUint32(seconds) as nat;
    Split16(n);
    Split16(n / 0x100);
    assert n / 0x100 / 0x100 == n / 0x1_0000;
    assert n % 0x100_0000 == (n / 0x100) % 0x1_0000 * 0x100 + n % 0x100;
  }

  /**
   * Without a host name, tag bytes 1 and 2 are bytes 1 and 2 of the 32-bit time, and
   * byte 0 is the time's low byte with the forced bits applied.
   */
  lemma FallbackTagIsTime(seconds: int, nanos: int)
    requires MachineTag(None, seconds, nanos).Some?
    ensures var t := MachineTag(None, seconds, nanos).value;
      var n := ToUint32(seconds) as nat;
      && t[1] == LowByte(n / 0x100) && t[2] == LowByte(n / 0x1_0000)
      && t[0] == ForceBits(LowByte(n), nanos % 3)
  {
  }

  // ---------------------------------------------------------------------------
  // Big-endian decoding (binary.BigEndian.Uint64)
  // ---------------------------------------------------------------------------

  /** The unsigned value of a byte string read most significant byte first. */
  function BigEndian(b: seq<byte>): nat
  {
    if b == [] then 0 else BigEndian(b[..|b| - 1]) * 0x100 + b[|b| - 1] as nat
  }

  lemma {:induction false} BigEndianBound(b: seq<byte>, bound: nat)
    requires bound == Pow256(|b|)
    ensures BigEndian(b) < bound
  {
    if b != [] {
      BigEndianBound(b[..|b| - 1], Pow256(|b| - 1));
    }
  }

  /** Eight bytes read big-endian fit in a uint64, the range of `binary.BigEndian.Uint64`. */
  lemma Uint64Range(b: seq<byte>)
    requires |b| == 8
    ensures BigEndian(b) < 0x1_0000_0000_0000_0000
  {
    BigEndianBound(b, Pow256(8));
  }

  function Pow256(n: nat): (r: nat)
    ensures r > 0
  {
    if n == 0 then 1 else 0x100 * Pow256(n - 1)
  }

  /** Two low bytes of n, most significant first, make up n mod 2^16. */
  lemma Split16(n: nat)
    ensures n % 0x1_0000 == LowByte(n / 0x100) as int * 0x100 + LowByte(n) as int
  {
    var h := n / 0x100;
    assert LowByte(h) as int == h % 0x100 && LowByte(n) as int == n % 0x100;
    DivModUnique(n, 0x1_0000, h / 0x100, h % 0x100 * 0x100 + n % 0x100);
  }

  /** Four low bytes of n, most significant first, make up n mod 2^32. */
  lemma Split32(n: nat)
    ensures n % 0x1_0000_0000 == LowByte(n / 0x100_0000) as int * 0x100_0000 + LowByte(n / 0x1_0000) as int * 0x1_0000
      + LowByte(n / 0x100) as int * 0x100 + LowByte(n) as int
  {
    var hi := n / 0x1_0000;
    Split16(n);
    Split16(hi);
    DivModUnique(hi, 0x100, hi / 0x100, hi % 0x100);
    DivModUnique(n, 0x100_0000, hi / 0x100, hi % 0x100 * 0x1_0000 + n % 0x1_0000);
    DivModUnique(n, 0x1_0000_0000, hi / 0x1_0000, hi % 0x1_0000 * 0x1_0000 + n % 0x1_0000);
  }

  /** Quotient and remainder are the only q, r with n == q * d + r and 0 <= r < d. */
  lemma DivModUnique(n: int, d: int, q: int, r: int)
    requires d > 0 && 0 <= r < d && n == q * d + r
    ensures n / d == q && n % d == r
  {
    var q0, r0 := n / d, n % d;
    assert (q - q0) * d == r0 - r;
    if q > q0 {
      MulAtLeast(q - q0, d);
    } else if q < q0 {
      MulAtLeast(q0 - q, d);
    }
  }

  lemma MulAtLeast(k: int, d: int)
    requires k >= 1 && d > 0
    ensures k * d >= d
  {
  }

  /** An 8-byte block read as a Go uint64. */
  lemma BigEndian8(b: seq<byte>)
    requires |b| == 8
    ensures BigEndian(b) ==
      b[0] as int * 0x100_0000_0000_0000 + b[1] as int * 0x1_0000_0000_0000
      + b[2] as int * 0x100_0000_0000 + b[3] as int * 0x1_0000_0000
      + b[4] as int * 0x100_0000 + b[5] as int * 0x1_0000 + b[6] as int * 0x100 + b[7] as int
  {
    assert b[..7][..6] == b[..6] && b[..6][..5] == b[..5] && b[..5][..4] == b[..4];
    assert b[..4][..3] == b[..3] && b[..3][..2] == b[..2] && b[..2][..1] == b[..1];
    assert b[..1][..0] == [];
    assert BigEndian(b[..1]) == b[0] as int;
    assert BigEndian(b[..2]) == b[0] as int * 0x100 + b[1] as int;
    assert BigEndian(b[..3]) == BigEndian(b[..2]) * 0x100 + b[2] as int;
    assert BigEndian(b[..4]) == BigEndian(b[..3]) * 0x100 + b[3] as int;
    assert BigEndian(b[..5]) == BigEndian(b[..4]) * 0x100 + b[4] as int;
    assert BigEndian(b[..6]) == BigEndian(b[..5]) * 0x100 + b[5] as int;
    assert BigEndian(b[..7]) == BigEndian(b[..6]) * 0x100 + b[6] as int;
    assert b[..8] == b;
  }

  // ---------------------------------------------------------------------------
  // Base-36 rendering (strconv.FormatUint(v, 36))
  // ---------------------------------------------------------------------------

  /** The digit character for 0..35: '0'..'9' then 'a'..'z'. */
  function Digit(d: nat): (c: byte)
    requires d < 36
  {
    if d < 10 then (0x30 + d) as byte else (0x57 + d) as byte
  }

  predicate IsDigit(c: byte) {
    0x30 <= c <= 0x39 || 0x61 <= c <= 0x7a
  }

  /** The value of a base-36 digit character; the inverse of Digit. */
  function DigitValue(c: byte): (d: nat)
    requires IsDigit(c)
    ensures d < 36 && Digit(d) == c
  {
    if c <= 0x39 then c as nat - 0x30 else c as nat - 0x57
  }

  lemma DigitValueOfDigit(d: nat)
    requires d < 36
    ensures IsDigit(Digit(d)) && DigitValue(Digit(d)) == d
  {
  }

  /** `strconv.FormatUint(v, 36)`: most significant digit first, no leading zeros. */
  function FormatBase36(v: nat): seq<byte>
    decreases v
  {
    if v < 36 then [Digit(v)] else FormatBase36(v / 36) + [Digit(v % 36)]
  }

  predicate AllDigits(s: seq<byte>) {
    forall i :: 0 <= i < |s| ==> IsDigit(s[i])
  }

  /** The value of a string of base-36 digits, most significant first. */
  function ParseBase36(s: seq<byte>): nat
    requires AllDigits(s)
  {
    if s == [] then 0 else ParseBase36(s[..|s| - 1]) * 36 + DigitValue(s[|s| - 1])
  }

  /** A rendering the formatter could have produced: non-empty, no leading '0' unless "0". */
  predicate Canonical(s: seq<byte>) {
    |s| > 0 && AllDigits(s) && (s[0] == 0x30 ==> |s| == 1)
  }

  function Pow36(n: nat): (r: nat)
    ensures r > 0
  {
    if n == 0 then 1 else 36 * Pow36(n - 1)
  }

  /** Rendering produces canonical digit strings that decode back to the value. */
  lemma {:induction false} FormatParse(v: nat)
    ensures Canonical(FormatBase36(v))
    ensures ParseBase36(FormatBase36(v)) == v
    decreases v
  {
    var s := FormatBase36(v);
    if v < 36 {
      DigitValueOfDigit(v);
    } else {
      FormatParse(v / 36);
      DigitValueOfDigit(v % 36);
      assert s[..|s| - 1] == FormatBase36(v / 36);
    }
  }

  /** A canonical string of length n >= 2 is worth at least 36^(n-1). */
  lemma {:induction false} ParseLowerBound(s: seq<byte>)
    requires Canonical(s) && |s| >= 2
    ensures ParseBase36(s) >= Pow36(|s| - 1)
  {
    var p := s[..|s| - 1];
    assert p[0] == s[0];
    if |s| == 2 {
      assert p == [s[0]];
      assert ParseBase36(p) == DigitValue(s[0]) >= 1;
    } else {
      ParseLowerBound(p);
    }
  }

  /** Decoding then re-rendering a canonical string gives it back. */
  lemma {:induction false} ParseFormat(s: seq<byte>)
    requires Canonical(s)
    ensures FormatBase36(ParseBase36(s)) == s
    decreases |s|
  {
    var n := |s|;
    if n == 1 {
      assert s[..0] == [];
    } else {
      var p := s[..n - 1];
      assert p[0] == s[0];
      var d := DigitValue(s[n - 1]);
      ParseLowerBound(s);
      assert Pow36(n - 1) >= 36 by { assert Pow36(n - 1) == 36 * Pow36(n - 2); }
      var v := ParseBase36(s);
      assert v == ParseBase36(p) * 36 + d;
      assert v / 36 == ParseBase36(p) && v % 36 == d;
      ParseFormat(p);
      assert s == p + [s[n - 1]];
    }
  }

  /** A value with 36^(k-1) <= v < 36^k renders in k digits. */
  lemma {:induction false} DigitCount(v: nat, k: nat)
    requires k >= 1 && Pow36(k - 1) <= v < Pow36(k)
    ensures |FormatBase36(v)| == k
    decreases k
  {
    if k > 1 {
      assert Pow36(k) == 36 * Pow36(k - 1);
      assert Pow36(k - 1) == 36 * Pow36(k - 2);
      DigitCount(v / 36, k - 1);
    }
  }

  /** Conversely, a positive value rendered in k digits lies in [36^(k-1), 36^k). */
  lemma DigitCountBounds(v: nat)
    requires v >= 1
    ensures var k := |FormatBase36(v)|;
      k >= 1 && Pow36(k - 1) <= v < Pow36(k)
  {
    FormatParse(v);
    FormatUpperBound(v);
    if |FormatBase36(v)| >= 2 {
      ParseLowerBound(FormatBase36(v));
    }
  }

  const POW36_9: nat := 101559956668416
  const POW36_10: nat := 3656158440062976
  const POW36_11: nat := 131621703842267136

  lemma Pow36Values()
    ensures Pow36(9) == POW36_9 && Pow36(10) == POW36_10 && Pow36(11) == POW36_11
  {
  }

  /** Exactly ten digits precisely for 36^9 <= v < 36^10. */
  lemma TenDigits(v: nat)
    ensures |FormatBase36(v)| == 10 <==> POW36_9 <= v < POW36_10
  {
    Pow36Values();
    if POW36_9 <= v < POW36_10 {
      DigitCount(v, 10);
    } else if v < POW36_9 {
      if |FormatBase36(v)| == 10 {
        FormatParse(v);
        ParseLowerBound(FormatBase36(v));
      }
    } else if v >= POW36_10 {
      if |FormatBase36(v)| == 10 {
        FormatParse(v);
        FormatUpperBound(v);
      }
    }
  }

  /** A value rendered with n digits is below 36^n. */
  lemma {:induction false} FormatUpperBound(v: nat)
    ensures v < Pow36(|FormatBase36(v)|)
    decreases v
  {
    if v >= 36 {
      FormatUpperBound(v / 36);
      assert |FormatBase36(v)| == |FormatBase36(v / 36)| + 1;
    }
  }

  // ---------------------------------------------------------------------------
  // The two blocks
  // ---------------------------------------------------------------------------

  /** `atomic.AddUint32(&counter, 1)`: a uint32 increment that wraps at 2^32. */
  function Increment(c: uint32): uint32 {
    ((c as int + 1) % TWO_32) as uint32
  }

  /** The high block: 0, 0b1100, the 32-bit time big-endian, the counter's low 16 bits. */
  function HighBlock(ts: uint32, c: uint32): seq<byte> {
    var t := ts as nat;
    var i := c as nat;
    [0, 12, LowByte(t / 0x100_0000), LowByte(t / 0x1_0000), LowByte(t / 0x100), LowByte(t),
     LowByte(i / 0x100), LowByte(i)]
  }

  /** The low block: 0, tag byte 0's low three bits, tag bytes 1 and 2, 32 bits of jitter. */
  function LowBlock(tag: seq<byte>, jitter: nat): seq<byte>
    requires |tag| == 3
  {
    [0, tag[0] % 8, tag[1], tag[2],
     LowByte(jitter / 0x100_0000), LowByte(jitter / 0x1_0000), LowByte(jitter / 0x100), LowByte(jitter)]
  }

  /** The high block as a uint64 is 12*2^48 + ts*2^16 + (c mod 2^16), so ts and c's low bits read back. */
  lemma HighValue(ts: uint32, c: uint32)
    ensures var v := BigEndian(HighBlock(ts, c));
      && v == 12 * 0x1_0000_0000_0000 + ts as int * 0x1_0000 + c as int % 0x1_0000
      && v / 0x1_0000_0000_0000 == 12
      && (v / 0x1_0000) % TWO_32 == ts as int
      && v % 0x1_0000 == c as int % 0x1_0000
  {
    var c16 := c as int % 0x1_0000;
    HighBlockValue(ts, c);
    HighFields(ts as int, c16);
  }

  lemma HighBlockValue(ts: uint32, c: uint32)
    ensures BigEndian(HighBlock(ts, c)) == 12 * 0x1_0000_0000_0000 + ts as int * 0x1_0000 + c as int % 0x1_0000
  {
    var b := HighBlock(ts, c);
    BigEndian8(b);
    Split32(ts as nat);
    Split16(c as nat);
    assert ts as int % TWO_32 == ts as int;
  }

  /** The fields of 12*2^48 + t*2^16 + c16 read back by division and remainder. */
  lemma HighFields(t: int, c16: int)
    requires 0 <= t < TWO_32 && 0 <= c16 < 0x1_0000
    ensures var v := 12 * 0x1_0000_0000_0000 + t * 0x1_0000 + c16;
      && v / 0x1_0000_0000_0000 == 12
      && (v / 0x1_0000) % TWO_32 == t
      && v % 0x1_0000 == c16
  {
    var v := 12 * 0x1_0000_0000_0000 + t * 0x1_0000 + c16;
    DivModUnique(v, 0x1_0000_0000_0000, 12, t * 0x1_0000 + c16);
    DivModUnique(v, 0x1_0000, 12 * 0x1_0000_0000 + t, c16);
    DivModUnique(12 * 0x1_0000_0000 + t, TWO_32, 12, t);
  }

  /** The low block as a uint64 is (m0 & 7)*2^48 + m1*2^40 + m2*2^32 + (jitter mod 2^32). */
  lemma LowValue(tag: seq<byte>, jitter: nat)
    requires |tag| == 3
    ensures var v := BigEndian(LowBlock(tag, jitter));
      && v == tag[0] as int % 8 * 0x1_0000_0000_0000
           + tag[1] as int * 0x100_0000_0000 + tag[2] as int * 0x1_0000_0000 + jitter % TWO_32
      && v % TWO_32 == jitter % TWO_32
  {
    var b := LowBlock(tag, jitter);
    BigEndian8(b);
    Split32(jitter);
    var hi := tag[0] as int % 8 * 0x1_0000 + tag[1] as int * 0x100 + tag[2] as int;
    assert BigEndian(b) == hi * TWO_32 + jitter % TWO_32;
    DivModUnique(BigEndian(b), TWO_32, hi, jitter % TWO_32);
  }

  /** Byte 1 of the low block is at most 7, and nonzero for every tag genMachineID makes. */
  lemma LowTagByte(tag: seq<byte>, jitter: nat)
    requires |tag| == 3
    ensures LowBlock(tag, jitter)[1] <= 7
    ensures tag[0] % 8 != 0 ==> LowBlock(tag, jitter)[1] != 0
  {
  }

  // ---------------------------------------------------------------------------
  // The identifier (NewWithPrefix)
  // ---------------------------------------------------------------------------

  /** prefix ++ base36(uint64(high)) ++ base36(uint64(low)). */
  function Identifier(prefix: seq<byte>, tag: seq<byte>, ts: uint32, c: uint32, jitter: nat): seq<byte>
    requires |tag| == 3
  {
    prefix + FormatBase36(BigEndian(HighBlock(ts, c))) + FormatBase36(BigEndian(LowBlock(tag, jitter)))
  }

  /** Times from this one on make the high block eleven digits long. */
  const TEN_DIGIT_TIME_LIMIT: nat := 4248942864

  /** The low block renders as exactly ten digits for any tag genMachineID makes. */
  lemma LowIsTenDigits(tag: seq<byte>, jitter: nat)
    requires |tag| == 3 && tag[0] % 8 != 0
    ensures |FormatBase36(BigEndian(LowBlock(tag, jitter)))| == 10
  {
    LowValue(tag, jitter);
    LowTagByte(tag, jitter);
    TenDigits(BigEndian(LowBlock(tag, jitter)));
  }

  /** The high block renders as ten digits while ts < 4248942864, as eleven from then on. */
  lemma HighDigits(ts: uint32, c: uint32)
    ensures |FormatBase36(BigEndian(HighBlock(ts, c)))| == if ts as int < TEN_DIGIT_TIME_LIMIT then 10 else 11
  {
    HighValue(ts, c);
    var v := BigEndian(HighBlock(ts, c));
    Pow36Values();
    TenDigits(v);
    if ts as int >= TEN_DIGIT_TIME_LIMIT {
      assert POW36_10 <= v < POW36_11;
      DigitCount(v, 11);
    }
  }

  /**
   * The generated part is 20 characters exactly when the 32-bit time is below 4248942864;
   * then the identifier splits at fixed offsets into the prefix and the two blocks' values.
   */
  lemma IdentifierLayout(prefix: seq<byte>, tag: seq<byte>, ts: uint32, c: uint32, jitter: nat)
    requires |tag| == 3 && tag[0] % 8 != 0
    ensures var id := Identifier(prefix, tag, ts, c, jitter);
      && id[..|prefix|] == prefix
      && (|id| == |prefix| + 20 <==> ts as int < TEN_DIGIT_TIME_LIMIT)
      && (|id| == |prefix| + 20 ==>
            && AllDigits(id[|prefix|..])
            && ParseBase36(id[|prefix|..|prefix| + 10]) == BigEndian(HighBlock(ts, c))
            && ParseBase36(id[|prefix| + 10..]) == BigEndian(LowBlock(tag, jitter)))
  {
    var id := Identifier(prefix, tag, ts, c, jitter);
    var h := FormatBase36(BigEndian(HighBlock(ts, c)));
    var l := FormatBase36(BigEndian(LowBlock(tag, jitter)));
    HighDigits(ts, c);
    LowIsTenDigits(tag, jitter);
    FormatParse(BigEndian(HighBlock(ts, c)));
    FormatParse(BigEndian(LowBlock(tag, jitter)));
    assert id == prefix + h + l;
    assert id[..|prefix|] == prefix;
    if |id| == |prefix| + 20 {
      assert id[|prefix|..|prefix| + 10] == h;
      assert id[|prefix| + 10..] == l;
      assert id[|prefix|..] == h + l;
    }
  }

  // ---------------------------------------------------------------------------
  // The generator state: machine tag and counter
  // ---------------------------------------------------------------------------

  /** Applying Increment n times. */
  function Advance(c: uint32, n: nat): uint32 {
    if n == 0 then c else Increment(Advance(c, n - 1))
  }

  /** n calls from counter c leave it at (c + n) mod 2^32. */
  lemma {:induction false} AdvanceIsAddition(c: uint32, n: nat)
    ensures Advance(c, n) as int == (c as int + n) % TWO_32
  {
    if n > 0 {
      AdvanceIsAddition(c, n - 1);
      ModSucc(c as int + n - 1);
    }
  }

  lemma ModSucc(a: nat)
    ensures (a % 0x1_0000_0000 + 1) % 0x1_0000_0000 == (a + 1) % 0x1_0000_0000
  {
    var q := a / 0x1_0000_0000;
    var r := a % 0x1_0000_0000;
    if r + 1 < 0x1_0000_0000 {
      DivModUnique(a + 1, 0x1_0000_0000, q, r + 1);
    } else {
      DivModUnique(a + 1, 0x1_0000_0000, q + 1, 0);
    }
  }

  /** Fewer than 2^32 calls apart, two calls never see the same counter value. */
  lemma CounterValuesDistinct(c: uint32, m: nat, n: nat)
    requires m < n < m + TWO_32
    ensures Advance(c, m) != Advance(c, n)
  {
    AdvanceIsAddition(c, m);
    AdvanceIsAddition(c, n);
    ModShift(c as int + m, n - m, TWO_32);
  }

  /** Adding 0 < d < k always changes a value's residue mod k. */
  lemma ModShift(a: nat, d: nat, k: nat)
    requires 0 < d < k
    ensures (a + d) % k != a % k
  {
    var q, r := a / k, a % k;
    if r + d < k {
      DivModUnique(a + d, k, q, r + d);
    } else {
      DivModUnique(a + d, k, q + 1, r + d - k);
    }
  }

  /** The counter's low 16 bits, the part high() embeds, after n calls are (c + n) mod 2^16. */
  lemma Counter16(c: uint32, n: nat)
    ensures Advance(c, n) as int % 0x1_0000 == (c as int + n) % 0x1_0000
  {
    AdvanceIsAddition(c, n);
    var a := c as int + n;
    var q, r := a / TWO_32, a % TWO_32;
    assert q * TWO_32 == (q * 0x1_0000) * 0x1_0000;
    assert r == (r / 0x1_0000) * 0x1_0000 + r % 0x1_0000;
    assert a == (q * 0x1_0000 + r / 0x1_0000) * 0x1_0000 + r % 0x1_0000;
    DivModUnique(a, 0x1_0000, q * 0x1_0000 + r / 0x1_0000, r % 0x1_0000);
  }

  /**
   * Within one second, calls fewer than 2^16 apart give different high blocks: the
   * counter's low 16 bits differ, and the block's value carries them.
   */
  lemma HighBlocksDistinct(ts: uint32, c: uint32, m: nat, n: nat)
    requires m < n < m + 0x1_0000
    ensures BigEndian(HighBlock(ts, Advance(c, m))) != BigEndian(HighBlock(ts, Advance(c, n)))
    ensures HighBlock(ts, Advance(c, m)) != HighBlock(ts, Advance(c, n))
  {
    Counter16(c, m);
    Counter16(c, n);
    ModShift(c as int + m, n - m, 0x1_0000);
    HighValue(ts, Advance(c, m));
    HighValue(ts, Advance(c, n));
  }

  /**
   * So, whatever the jitter, calls fewer than 2^16 apart within one second give
   * different identifiers: the high segments have the same length and decode to
   * different values.
   */
  lemma IdentifiersDistinct(prefix: seq<byte>, tag: seq<byte>, ts: uint32, c: uint32, m: nat, n: nat, j1: nat, j2: nat)
    requires |tag| == 3 && m < n < m + 0x1_0000
    ensures Identifier(prefix, tag, ts, Advance(c, m), j1) != Identifier(prefix, tag, ts, Advance(c, n), j2)
  {
    var v1 := BigEndian(HighBlock(ts, Advance(c, m)));
    var v2 := BigEndian(HighBlock(ts, Advance(c, n)));
    var h1, h2 := FormatBase36(v1), FormatBase36(v2);
    HighBlocksDistinct(ts, c, m, n);
    HighDigits(ts, Advance(c, m));
    HighDigits(ts, Advance(c, n));
    FormatParse(v1);
    FormatParse(v2);
    assert h1 != h2;
    var id1 := Identifier(prefix, tag, ts, Advance(c, m), j1);
    var id2 := Identifier(prefix, tag, ts, Advance(c, n), j2);
    assert id1[|prefix|..|prefix| + |h1|] == h1;
    assert id2[|prefix|..|prefix| + |h2|] == h2;
  }

  /** `byte(i >> 8)` and `byte(i)` depend only on i's low 16 bits. */
  lemma LowBytes16(i: nat)
    ensures LowByte(i / 0x100) == LowByte(i % 0x1_0000 / 0x100)
    ensures LowByte(i) == LowByte(i % 0x1_0000)
  {
    var q, r := i / 0x1_0000, i % 0x1_0000;
    assert i == (q * 0x100 + r / 0x100) * 0x100 + r % 0x100;
    DivModUnique(i, 0x100, q * 0x100 + r / 0x100, r % 0x100);
    DivModUnique(q * 0x100 + r / 0x100, 0x100, q, r / 0x100);
  }

  /**
   * The window is no wider: 2^16 calls later in the same second the high block, and
   * with the same jitter the whole identifier, repeat.
   */
  lemma HighBlockRepeats(prefix: seq<byte>, tag: seq<byte>, ts: uint32, c: uint32, j: nat)
    requires |tag| == 3
    ensures HighBlock(ts, Advance(c, 0x1_0000)) == HighBlock(ts, c)
    ensures Identifier(prefix, tag, ts, Advance(c, 0x1_0000), j) == Identifier(prefix, tag, ts, c, j)
  {
    var c2 := Advance(c, 0x1_0000);
    Counter16(c, 0x1_0000);
    DivModUnique(c as int + 0x1_0000, 0x1_0000, c as int / 0x1_0000 + 1, c as int % 0x1_0000);
    LowBytes16(c as nat);
    LowBytes16(c2 as nat);
  }

  /** The package-level `machineID` and `counter`. */
  class Generator {
    const machineId: seq<byte>
    var counter: uint32

    /** The shape every tag from genMachineID has, which the length results rely on. */
    predicate Valid() {
      |machineId| == 3 && machineId[0] < 64 && machineId[0] % 8 != 0
    }

    /**
     * Package initialisation: `machineID = genMachineID()` and `counter = genCounter()`,
     * each reading the clock on its own. A panic in genMachineID aborts the program's
     * start, so a generator exists only when genMachineID returns a tag.
     */
    constructor (digest: Option<seq<byte>>, tagSeconds: int, nanos: int, counterSeconds: int)
      requires digest.Some? ==> |digest.value| == 16
      requires MachineTag(digest, tagSeconds, nanos).Some?
      ensures machineId == MachineTag(digest, tagSeconds, nanos).value
      ensures counter == ToUint32(counterSeconds)
      ensures Valid()
    {
      var tag := GenMachineId(digest, tagSeconds, nanos);
      MachineTagShape(digest, tagSeconds, nanos);
      machineId := tag.value;
      counter := ToUint32(counterSeconds);
    }

    /** high(): fills the block slot by slot and bumps the counter once. */
    method High(seconds: int) returns (block: seq<byte>)
      modifies this
      ensures counter == Increment(old(counter))
      ensures block == HighBlock(ToUint32(seconds), counter)
      ensures BigEndian(block) == 12 * 0x1_0000_0000_0000 + ToUint32(seconds) as int * 0x1_0000 + counter as int % 0x1_0000
    {
      var a := new byte[8];
      a[0] := 0;
      a[1] := 12;
      var now := ToUint32(seconds) as nat;
      a[2] := LowByte(now / 0x100_0000);
      a[3] := LowByte(now / 0x1_0000);
      a[4] := LowByte(now / 0x100);
      a[5] := LowByte(now);
      counter := Increment(counter);
      var i := counter as nat;
      a[6] := LowByte(i / 0x100);
      a[7] := LowByte(i);
      block := a[..];
      HighValue(ToUint32(seconds), counter);
    }

    /** low(): fills the block from the machine tag and 32 bits of `rand.Int()`. */
    method Low(jitter: nat) returns (block: seq<byte>)
      requires Valid()
      ensures block == LowBlock(machineId, jitter)
      ensures 0 < block[1] <= 7 && BigEndian(block) % TWO_32 == jitter % TWO_32
      ensures BigEndian(block) < 0x1_0000_0000_0000_0000
    {
      var a := new byte[8];
      a[0] := 0;
      a[1] := machineId[0] % 8;  // `& 7` keeps the three low bits
      a[2] := machineId[1];
      a[3] := machineId[2];
      a[4] := LowByte(jitter / 0x100_0000);
      a[5] := LowByte(jitter / 0x1_0000);
      a[6] := LowByte(jitter / 0x100);
      a[7] := LowByte(jitter);
      block := a[..];
      LowValue(machineId, jitter);
      LowTagByte(machineId, jitter);
      Uint64Range(block);
    }

    /**
     * NewWithPrefix: `lengthWarning` is whether the length diagnostic is printed; the
     * identifier is returned either way. The diagnostic fires exactly once the 32-bit
     * time reaches TEN_DIGIT_TIME_LIMIT.
     */
    method NewWithPrefix(prefix: seq<byte>, seconds: int, jitter: nat) returns (id: seq<byte>, lengthWarning: bool)
      requires Valid()
      modifies this
      ensures Valid()
      ensures counter == Increment(old(counter))
      ensures id == Identifier(prefix, machineId, ToUint32(seconds), counter, jitter)
      ensures id[..|prefix|] == prefix
      ensures lengthWarning <==> |id| != |prefix| + 20
      ensures lengthWarning <==> ToUint32(seconds) as int >= TEN_DIGIT_TIME_LIMIT
    {
      var hi := High(seconds);
      var lo := Low(jitter);
      var high := FormatBase36(BigEndian(hi));
      var low := FormatBase36(BigEndian(lo));
      lengthWarning := |high| + |low| != 20;
      id := prefix + high + low;
      IdentifierLayout(prefix, machineId, ToUint32(seconds), counter, jitter);
    }
  }
}
