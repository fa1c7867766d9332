/**
 * The case converters of str/convert.go. Go strings are byte strings, and both
 * functions work byte by byte: only ASCII letters change, every other byte is copied.
 */
module Convert {
  import opened GoTypes

  const UNDERSCORE: byte := 0x5f

  predicate IsLower(c: byte) { 0x61 <= c <= 0x7a }   // 'a'..'z'
  predicate IsUpper(c: byte) { 0x41 <= c <= 0x5a }   // 'A'..'Z'

  function ToUpperByte(c: byte): byte requires IsLower(c) { c - 32 }
  function ToLowerByte(c: byte): byte requires IsUpper(c) { c + 32 }

  /** The number of occurrences of x in s. */
  function Count(s: seq<byte>, x: byte): nat {
    if s == [] then 0 else (if s[0] == x then 1 else 0) + Count(s[1..], x)
  }

  // ---------------------------------------------------------------------------
  // UnderscoreToCamelCase
  // ---------------------------------------------------------------------------

  /**
   * What byte x becomes when `nextCharShouldBeUpper` is `upper`: a lower-case letter is
   * raised when the flag is set, an underscore is dropped, any other byte is kept.
   */
  function CamelPiece(x: byte, upper: bool): seq<byte> {
    var c := if upper && IsLower(x) then ToUpperByte(x) else x;
    if c == UNDERSCORE then [] else [c]
  }

  /** The flag before index i: set at the start and right after an underscore. */
  predicate UpperAt(s: seq<byte>, i: nat)
    requires i <= |s|
  {
    i == 0 || s[i - 1] == UNDERSCORE
  }

  /** The conversion of s when the flag starts as `upper`; the flag is next set iff the byte was `_`. */
  function CamelFrom(s: seq<byte>, upper: bool): seq<byte> {
    if s == [] then [] else CamelPiece(s[0], upper) + CamelFrom(s[1..], s[0] == UNDERSCORE)
  }

  /** What the loop has appended after i iterations. */
  function CamelUpTo(s: seq<byte>, i: nat): seq<byte>
    requires i <= |s|
  {
    if i == 0 then [] else CamelUpTo(s, i - 1) + CamelPiece(s[i - 1], UpperAt(s, i - 1))
  }

  /** After i iterations, the rest of the input still converts to the rest of the output. */
  lemma {:induction false} CamelUpToFrom(s: seq<byte>, i: nat)
    requires i <= |s|
    ensures CamelUpTo(s, i) + CamelFrom(s[i..], UpperAt(s, i)) == CamelFrom(s, true)
  {
    if i > 0 {
      CamelUpToFrom(s, i - 1);
      assert s[i - 1..][1..] == s[i..];
      var p := CamelPiece(s[i - 1], UpperAt(s, i - 1));
      assert CamelFrom(s[i - 1..], UpperAt(s, i - 1)) == p + CamelFrom(s[i..], UpperAt(s, i));
      ConcatAssoc(CamelUpTo(s, i - 1), p, CamelFrom(s[i..], UpperAt(s, i)));
    }
  }

  lemma ConcatAssoc(a: seq<byte>, b: seq<byte>, c: seq<byte>)
    ensures (a + b) + c == a + (b + c)
  {
  }

  /** UnderscoreToCamelCase: `aa_bb_cc` becomes `AaBbCc`. */
  method UnderscoreToCamelCase(str: seq<byte>) returns (r: seq<byte>)
    ensures r == CamelFrom(str, true)
    ensures |r| == |str| - Count(str, UNDERSCORE)
    ensures forall j :: 0 <= j < |r| ==> r[j] != UNDERSCORE
  {
    var res: seq<byte> := [];
    var nextCharShouldBeUpper := true;
    var i := 0;
    while i < |str|
      invariant 0 <= i <= |str|
      invariant nextCharShouldBeUpper == UpperAt(str, i)
      invariant res == CamelUpTo(str, i)
    {
      var c := str[i];
      if nextCharShouldBeUpper {
        if c >= 0x61 && c <= 0x7a {
          c := c - 32;
        }
      }
      if c == UNDERSCORE {
        nextCharShouldBeUpper := true;
        i := i + 1;
        continue;
      } else {
        nextCharShouldBeUpper := false;
      }
      res := res + [c];
      i := i + 1;
    }
    CamelUpToFrom(str, i);
    assert str[i..] == [];
    r := res;
    CamelShape(str, true);
  }

  /** The output holds no underscore and is shorter than the input by the underscores. */
  lemma {:induction false} CamelShape(s: seq<byte>, upper: bool)
    ensures |CamelFrom(s, upper)| == |s| - Count(s, UNDERSCORE)
    ensures forall j :: 0 <= j < |CamelFrom(s, upper)| ==> CamelFrom(s, upper)[j] != UNDERSCORE
  {
    if s != [] {
      CamelShape(s[1..], true);
      CamelShape(s[1..], false);
    }
  }

  /**
   * The same conversion stated position by position: byte i is raised when it is a
   * lower-case letter at the start or right after an underscore.
   */
  function Capitalized(s: seq<byte>): (r: seq<byte>)
    ensures |r| == |s|
  {
    seq(|s|, i requires 0 <= i < |s| =>
      if (i == 0 || s[i - 1] == UNDERSCORE) && IsLower(s[i]) then ToUpperByte(s[i]) else s[i])
  }

  /** The bytes of s other than underscores, in order. */
  function DropUnderscores(s: seq<byte>): seq<byte> {
    if s == [] then [] else (if s[0] == UNDERSCORE then [] else [s[0]]) + DropUnderscores(s[1..])
  }

  /** Scanning with the flag is capitalising position by position, then dropping underscores. */
  lemma CamelIsCapitalizedWithoutUnderscores(s: seq<byte>)
    ensures CamelFrom(s, true) == DropUnderscores(Capitalized(s))
  {
    CamelSuffix(s, 0);
  }

  lemma {:induction false} CamelSuffix(s: seq<byte>, i: nat)
    requires i <= |s|
    ensures CamelFrom(s[i..], i == 0 || s[i - 1] == UNDERSCORE) == DropUnderscores(Capitalized(s)[i..])
    decreases |s| - i
  {
    if i < |s| {
      CamelSuffix(s, i + 1);
      assert s[i..][1..] == s[i + 1..];
      assert Capitalized(s)[i..][1..] == Capitalized(s)[i + 1..];
    }
  }

  // ---------------------------------------------------------------------------
  // CamelCaseToUnderscore
  // ---------------------------------------------------------------------------

  /** What one byte becomes: an upper-case letter is lowered, with `_` before it unless first. */
  function SnakePiece(c: byte, first: bool): seq<byte> {
    if IsUpper(c) then (if first then [] else [UNDERSCORE]) + [ToLowerByte(c)] else [c]
  }

  /** The conversion of s; `first` says whether s[0] is at index 0 of the input. */
  function SnakeFrom(s: seq<byte>, first: bool): seq<byte> {
    if s == [] then [] else SnakePiece(s[0], first) + SnakeFrom(s[1..], false)
  }

  /** What the loop has appended after i iterations. */
  function SnakeUpTo(s: seq<byte>, i: nat): seq<byte>
    requires i <= |s|
  {
    if i == 0 then [] else SnakeUpTo(s, i - 1) + SnakePiece(s[i - 1], i - 1 == 0)
  }

  /** After i iterations, the rest of the input still converts to the rest of the output. */
  lemma {:induction false} SnakeUpToFrom(s: seq<byte>, i: nat)
    requires i <= |s|
    ensures SnakeUpTo(s, i) + SnakeFrom(s[i..], i == 0) == SnakeFrom(s, true)
  {
    if i > 0 {
      SnakeUpToFrom(s, i - 1);
      assert s[i - 1..][1..] == s[i..];
      var p := SnakePiece(s[i - 1], i - 1 == 0);
      assert SnakeFrom(s[i - 1..], i - 1 == 0) == p + SnakeFrom(s[i..], false);
      ConcatAssoc(SnakeUpTo(s, i - 1), p, SnakeFrom(s[i..], false));
    }
  }

  /** The number of upper-case letters in s, not counting s[0] when `first`. */
  function InnerUpper(s: seq<byte>, first: bool): nat {
    if s == [] then 0 else (if IsUpper(s[0]) && !first then 1 else 0) + InnerUpper(s[1..], false)
  }

  /** CamelCaseToUnderscore: `CustomConfigPath` becomes `custom_config_path`. */
  method CamelCaseToUnderscore(str: seq<byte>) returns (r: seq<byte>)
    ensures r == SnakeFrom(str, true)
    ensures |r| == |str| + InnerUpper(str, true)
    ensures forall j :: 0 <= j < |r| ==> !IsUpper(r[j])
  {
    var res: seq<byte> := [];
    var i := 0;
    while i < |str|
      invariant 0 <= i <= |str|
      invariant res == SnakeUpTo(str, i)
    {
      var c := str[i];
      if c >= 0x41 && c <= 0x5a {
        c := c + 32;
        if i != 0 {
          res := res + [UNDERSCORE];
        }
      }
      res := res + [c];
      i := i + 1;
    }
    SnakeUpToFrom(str, i);
    assert str[i..] == [];
    r := res;
    SnakeShape(str, true);
  }

  /** The output has no upper-case letter and one extra byte per upper-case letter after index 0. */
  lemma {:induction false} SnakeShape(s: seq<byte>, first: bool)
    ensures |SnakeFrom(s, first)| == |s| + InnerUpper(s, first)
    ensures forall j :: 0 <= j < |SnakeFrom(s, first)| ==> !IsUpper(SnakeFrom(s, first)[j])
  {
    if s != [] {
      SnakeShape(s[1..], false);
    }
  }

  /**
   * Where input byte j lands: at output position j plus the inner capitals before it.
   * An inner capital becomes `_` followed by its lower case, a capital at index 0 just
   * its lower case, and any other byte is copied as it is.
   */
  lemma {:induction false} SnakeAt(s: seq<byte>, first: bool, j: nat)
    requires j < |s|
    ensures var r := SnakeFrom(s, first);
      var p := j + InnerUpper(s[..j], first);
      && (IsUpper(s[j]) && (j > 0 || !first) ==>
            p + 1 < |r| && r[p] == UNDERSCORE && r[p + 1] == ToLowerByte(s[j]))
      && (IsUpper(s[j]) && j == 0 && first ==> p < |r| && r[p] == ToLowerByte(s[j]))
      && (!IsUpper(s[j]) ==> p < |r| && r[p] == s[j])
    decreases j
  {
    if j > 0 {
      SnakeAt(s[1..], false, j - 1);
      assert s[..j][1..] == s[1..][..j - 1];
      assert s[..j][0] == s[0];
    }
  }

  /** A string without upper-case letters passes through unchanged. */
  lemma {:induction false} SnakeKeepsOtherBytes(s: seq<byte>, first: bool)
    requires forall j :: 0 <= j < |s| ==> !IsUpper(s[j])
    ensures SnakeFrom(s, first) == s
  {
    if s != [] {
      SnakeKeepsOtherBytes(s[1..], false);
    }
  }

  // ---------------------------------------------------------------------------
  // Round trips
  // ---------------------------------------------------------------------------

  /**
   * A snake-case name: no upper-case letter, and every underscore is followed by a
   * lower-case letter (so none is last and none is doubled).
   */
  predicate SnakeName(u: seq<byte>) {
    && (forall j :: 0 <= j < |u| ==> !IsUpper(u[j]))
    && (forall j :: 0 <= j < |u| && u[j] == UNDERSCORE ==> j + 1 < |u| && IsLower(u[j + 1]))
  }

  /** A snake-case name not starting with `_` comes back from CamelCase unchanged. */
  lemma SnakeNameRoundTrip(u: seq<byte>)
    requires SnakeName(u) && (u == [] || u[0] != UNDERSCORE)
    ensures SnakeFrom(CamelFrom(u, true), true) == u
  {
    SnakeCamel(u, true);
  }

  lemma {:induction false} SnakeCamel(u: seq<byte>, start: bool)
    requires SnakeName(u) && (start ==> u == [] || u[0] != UNDERSCORE)
    ensures SnakeFrom(CamelFrom(u, start), start) == u
    decreases |u|
  {
    if u == [] {
    } else if u[0] == UNDERSCORE {
      SnakeNameSuffix(u, 2);
      SnakeCamel(u[2..], false);
      SnakeCamelUnderscore(u, start);
    } else {
      SnakeNameSuffix(u, 1);
      SnakeCamel(u[1..], false);
      SnakeCamelLetter(u, start);
    }
  }

  /** The step of SnakeCamel for an underscore and the lower-case letter after it. */
  lemma SnakeCamelUnderscore(u: seq<byte>, start: bool)
    requires |u| >= 2 && u[0] == UNDERSCORE && IsLower(u[1]) && !start
    requires SnakeFrom(CamelFrom(u[2..], false), false) == u[2..]
    ensures SnakeFrom(CamelFrom(u, start), start) == u
  {
    var up := ToUpperByte(u[1]);
    var rest := CamelFrom(u[2..], false);
    CamelAfterUnderscore(u, start);
    SnakeCons(up, rest, false);
    assert u == [UNDERSCORE, u[1]] + u[2..];
  }

  /** The step of SnakeCamel for a byte other than an underscore. */
  lemma SnakeCamelLetter(u: seq<byte>, start: bool)
    requires |u| >= 1 && u[0] != UNDERSCORE && !IsUpper(u[0])
    requires SnakeFrom(CamelFrom(u[1..], false), false) == u[1..]
    ensures SnakeFrom(CamelFrom(u, start), start) == u
  {
    var c := if start && IsLower(u[0]) then ToUpperByte(u[0]) else u[0];
    var rest := CamelFrom(u[1..], false);
    assert CamelFrom(u, start) == [c] + rest;
    SnakeCons(c, rest, start);
    assert SnakePiece(c, start) == [u[0]];
    assert u == [u[0]] + u[1..];
  }

  lemma SnakeNameSuffix(u: seq<byte>, k: nat)
    requires SnakeName(u) && k <= |u|
    ensures SnakeName(u[k..])
  {
    forall j | 0 <= j < |u[k..]|
      ensures !IsUpper(u[k..][j])
      ensures u[k..][j] == UNDERSCORE ==> j + 1 < |u[k..]| && IsLower(u[k..][j + 1])
    {
      assert u[k..][j] == u[k + j];
      if u[k + j] == UNDERSCORE {
        assert u[k..][j + 1] == u[k + j + 1];
      }
    }
  }

  /** An underscore followed by a lower-case letter becomes that letter in upper case. */
  lemma CamelAfterUnderscore(u: seq<byte>, start: bool)
    requires |u| >= 2 && u[0] == UNDERSCORE && IsLower(u[1])
    ensures CamelFrom(u, start) == [ToUpperByte(u[1])] + CamelFrom(u[2..], false)
  {
    assert u[1..][1..] == u[2..];
    assert CamelFrom(u[1..], true) == [ToUpperByte(u[1])] + CamelFrom(u[2..], false);
  }

  lemma SnakeCons(c: byte, rest: seq<byte>, first: bool)
    ensures SnakeFrom([c] + rest, first) == SnakePiece(c, first) + SnakeFrom(rest, false)
  {
    assert ([c] + rest)[1..] == rest;
  }

  /**
   * A camel-case name (no underscore, not starting with a lower-case letter) comes back
   * from snake case unchanged.
   */
  lemma CamelNameRoundTrip(s: seq<byte>)
    requires forall j :: 0 <= j < |s| ==> s[j] != UNDERSCORE
    requires s == [] || !IsLower(s[0])
    ensures CamelFrom(SnakeFrom(s, true), true) == s
  {
    CamelSnake(s, true);
  }

  lemma {:induction false} CamelSnake(s: seq<byte>, first: bool)
    requires forall j :: 0 <= j < |s| ==> s[j] != UNDERSCORE
    requires first ==> s == [] || !IsLower(s[0])
    ensures CamelFrom(SnakeFrom(s, first), first) == s
    decreases |s|
  {
    if s != [] {
      assert forall j :: 0 <= j < |s[1..]| ==> s[1..][j] == s[j + 1];
      CamelSnake(s[1..], false);
      CamelSnakeStep(s, first);
    }
  }

  /** The step of CamelSnake: the first byte's snake piece turns back into that byte. */
  lemma CamelSnakeStep(s: seq<byte>, first: bool)
    requires |s| >= 1 && s[0] != UNDERSCORE && (first ==> !IsLower(s[0]))
    requires CamelFrom(SnakeFrom(s[1..], false), false) == s[1..]
    ensures CamelFrom(SnakeFrom(s, first), first) == s
  {
    var rest := SnakeFrom(s[1..], false);
    var piece := SnakePiece(s[0], first);
    calc {
      SnakeFrom(s, first);
      { assert s == [s[0]] + s[1..]; SnakeCons(s[0], s[1..], first); }
      piece + rest;
    }
    PieceBack(s[0], first, rest);
    assert s == [s[0]] + s[1..];
  }

  /** A byte's snake piece followed by `rest` reads back, in camel case, as the byte
      followed by the camel form of `rest`. */
  lemma PieceBack(c: byte, first: bool, rest: seq<byte>)
    requires c != UNDERSCORE && (first ==> !IsLower(c))
    ensures CamelFrom(SnakePiece(c, first) + rest, first) == [c] + CamelFrom(rest, false)
  {
    if IsUpper(c) && !first {
      var low := ToLowerByte(c);
      assert SnakePiece(c, first) + rest == [UNDERSCORE] + ([low] + rest);
      CamelCons(UNDERSCORE, [low] + rest, first);
      CamelCons(low, rest, true);
      assert CamelPiece(low, true) == [c];
    } else if IsUpper(c) {
      var low := ToLowerByte(c);
      assert SnakePiece(c, first) == [low];
      CamelCons(low, rest, first);
      assert CamelPiece(low, first) == [c];
    } else {
      assert SnakePiece(c, first) == [c];
      CamelCons(c, rest, first);
      assert CamelPiece(c, first) == [c];
    }
  }

  lemma CamelCons(c: byte, rest: seq<byte>, upper: bool)
    ensures CamelFrom([c] + rest, upper) == CamelPiece(c, upper) + CamelFrom(rest, c == UNDERSCORE)
  {
    assert ([c] + rest)[1..] == rest;
  }

}
