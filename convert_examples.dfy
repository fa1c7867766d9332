/**
 * Worked examples of str/convert.go: the doc comment's `aa_bb_cc => AaBbCc` and the
 * pair the package's test converts in both directions.
 */
module ConvertExamples {
  import opened GoTypes
  import opened Convert

  const DOC_SNAKE: seq<byte> := [0x61, 0x61, 0x5f, 0x62, 0x62, 0x5f, 0x63, 0x63]  // "aa_bb_cc"
  const DOC_CAMEL: seq<byte> := [0x41, 0x61, 0x42, 0x62, 0x43, 0x63]  // "AaBbCc"

  lemma DocCamelSteps1(s: seq<byte>, c: seq<byte>)
    requires s == DOC_SNAKE && c == DOC_CAMEL
    ensures CamelUpTo(s, 4) == c[..3]
  {
    assert CamelUpTo(s, 1) == c[..1];
    assert CamelUpTo(s, 2) == c[..2];
    assert CamelUpTo(s, 3) == c[..2];
    assert CamelUpTo(s, 4) == c[..3];
  }

  lemma DocCamelSteps2(s: seq<byte>, c: seq<byte>)
    requires s == DOC_SNAKE && c == DOC_CAMEL
    ensures CamelUpTo(s, 8) == c[..6]
  {
    DocCamelSteps1(s, c);
    assert CamelUpTo(s, 5) == c[..4];
    assert CamelUpTo(s, 6) == c[..4];
    assert CamelUpTo(s, 7) == c[..5];
    assert CamelUpTo(s, 8) == c[..6];
  }

  /** UnderscoreToCamelCase turns "aa_bb_cc" into "AaBbCc". */
  lemma DocToCamel()
    ensures CamelFrom(DOC_SNAKE, true) == DOC_CAMEL
  {
    DocCamelSteps2(DOC_SNAKE, DOC_CAMEL);
    assert DOC_CAMEL[..6] == DOC_CAMEL;
    CamelUpToFrom(DOC_SNAKE, |DOC_SNAKE|);
    assert DOC_SNAKE[|DOC_SNAKE|..] == [];
  }

  /** The doc example is lower case, and each underscore is followed by a letter. */
  lemma DocIsSnakeName(s: seq<byte>)
    requires s == DOC_SNAKE
    ensures SnakeName(s) && s[0] != UNDERSCORE
  {
    assert forall j :: 0 <= j < |s| ==> !IsUpper(s[j]);
    assert forall j :: 0 <= j < |s| && s[j] == UNDERSCORE ==> j == 2 || j == 5;
  }

  /** CamelCaseToUnderscore turns "AaBbCc" back into "aa_bb_cc": the doc example
      is a snake-case name, so the round trip applies. */
  lemma DocToSnake()
    ensures SnakeFrom(DOC_CAMEL, true) == DOC_SNAKE
  {
    DocToCamel();
    DocIsSnakeName(DOC_SNAKE);
    SnakeNameRoundTrip(DOC_SNAKE);
  }

  const TEST_SNAKE: seq<byte> := [0x63, 0x75, 0x73, 0x74, 0x6f, 0x6d, 0x5f, 0x63, 0x6f, 0x6e, 0x66, 0x69, 0x67, 0x5f, 0x70, 0x61, 0x74, 0x68]  // "custom_config_path"
  const TEST_CAMEL: seq<byte> := [0x43, 0x75, 0x73, 0x74, 0x6f, 0x6d, 0x43, 0x6f, 0x6e, 0x66, 0x69, 0x67, 0x50, 0x61, 0x74, 0x68]  // "CustomConfigPath"

  lemma TestCamelSteps1(s: seq<byte>, c: seq<byte>)
    requires s == TEST_SNAKE && c == TEST_CAMEL
    ensures CamelUpTo(s, 3) == c[..3]
  {
    assert CamelUpTo(s, 1) == c[..1];
    assert CamelUpTo(s, 2) == c[..2];
    assert CamelUpTo(s, 3) == c[..3];
  }

  lemma TestCamelSteps2(s: seq<byte>, c: seq<byte>)
    requires s == TEST_SNAKE && c == TEST_CAMEL
    ensures CamelUpTo(s, 6) == c[..6]
  {
    TestCamelSteps1(s, c);
    assert CamelUpTo(s, 4) == c[..4];
    assert CamelUpTo(s, 5) == c[..5];
    assert CamelUpTo(s, 6) == c[..6];
  }

  lemma TestCamelSteps3(s: seq<byte>, c: seq<byte>)
    requires s == TEST_SNAKE && c == TEST_CAMEL
    ensures CamelUpTo(s, 9) == c[..8]
  {
    TestCamelSteps2(s, c);
    assert CamelUpTo(s, 7) == c[..6];
    assert CamelUpTo(s, 8) == c[..7];
    assert CamelUpTo(s, 9) == c[..8];
  }

  lemma TestCamelSteps4(s: seq<byte>, c: seq<byte>)
    requires s == TEST_SNAKE && c == TEST_CAMEL
    ensures CamelUpTo(s, 11) == c[..10]
  {
    TestCamelSteps3(s, c);
    assert CamelUpTo(s, 10) == c[..9];
    assert CamelUpTo(s, 11) == c[..10];
  }

  lemma TestCamelSteps5(s: seq<byte>, c: seq<byte>)
    requires s == TEST_SNAKE && c == TEST_CAMEL
    ensures CamelUpTo(s, 13) == c[..12]
  {
    TestCamelSteps4(s, c);
    assert CamelUpTo(s, 12) == c[..11];
    assert CamelUpTo(s, 13) == c[..12];
  }

  lemma TestCamelSteps6(s: seq<byte>, c: seq<byte>)
    requires s == TEST_SNAKE && c == TEST_CAMEL
    ensures CamelUpTo(s, 15) == c[..13]
  {
    TestCamelSteps5(s, c);
    assert CamelUpTo(s, 14) == c[..12];
    assert CamelUpTo(s, 15) == c[..13];
  }

  lemma TestCamelSteps7(s: seq<byte>, c: seq<byte>)
    requires s == TEST_SNAKE && c == TEST_CAMEL
    ensures CamelUpTo(s, 17) == c[..15]
  {
    TestCamelSteps6(s, c);
    assert CamelUpTo(s, 16) == c[..14];
    assert CamelUpTo(s, 17) == c[..15];
  }

  lemma TestCamelSteps8(s: seq<byte>, c: seq<byte>)
    requires s == TEST_SNAKE && c == TEST_CAMEL
    ensures CamelUpTo(s, 18) == c[..16]
  {
    TestCamelSteps7(s, c);
    assert CamelUpTo(s, 18) == c[..16];
  }

  /** The test's input is lower case, and each underscore is followed by a letter. */
  lemma TestIsSnakeName(s: seq<byte>)
    requires s == TEST_SNAKE
    ensures SnakeName(s) && s[0] != UNDERSCORE
  {
    assert forall j :: 0 <= j < |s| ==> !IsUpper(s[j]);
    assert forall j :: 0 <= j < |s| && s[j] == UNDERSCORE ==> j == 6 || j == 13;
  }

  /** UnderscoreToCamelCase turns "custom_config_path" into "CustomConfigPath". */
  lemma TestToCamel()
    ensures CamelFrom(TEST_SNAKE, true) == TEST_CAMEL
  {
    TestCamelSteps8(TEST_SNAKE, TEST_CAMEL);
    assert TEST_CAMEL[..16] == TEST_CAMEL;
    CamelUpToFrom(TEST_SNAKE, |TEST_SNAKE|);
    assert TEST_SNAKE[|TEST_SNAKE|..] == [];
  }

  /** CamelCaseToUnderscore turns "CustomConfigPath" back into "custom_config_path",
      by the round trip on the test's snake-case input. */
  lemma TestToSnake()
    ensures SnakeFrom(TEST_CAMEL, true) == TEST_SNAKE
  {
    TestToCamel();
    TestIsSnakeName(TEST_SNAKE);
    SnakeNameRoundTrip(TEST_SNAKE);
  }

}
