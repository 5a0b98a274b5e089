/** The package's own test, TestDSV: a text with every kind of escape, two
    records and a blank line between them is read into the expected records,
    and writing those records gives the text back with one more newline. */
module PackageTest {
  import opened DsvFormat
  import opened Decoding
  import opened Encoding
  import opened RoundTrip
  import opened DsvReader
  import opened DsvWriter

  const Input: seq<char> := ":a: :a : a::\\::\\\n\nThis:is:a:\"test\\\\"
  const First: Record := ["", "a", " ", "a ", " a", "", ":", "\n"]
  const Second: Record := ["This", "is", "a", "\"test\\"]

  /** Joining a field in front of other fields whose escaped forms are
      known. */
  lemma {:induction false} JoinInFront(cfg: Config, f: Field, fs: seq<Field>, e: seq<char>, j: seq<char>)
    requires |fs| >= 1 && EscapeField(cfg, f) == e && JoinFields(cfg, fs) == j
    ensures JoinFields(cfg, [f] + fs) == e + [cfg.separator] + j
  {
    assert ([f] + fs)[0] == f && ([f] + fs)[1..] == fs;
  }

  /** The fields of the first record without special runes are written as
      they are. */
  lemma {:induction false} PlainFieldsOfFirst(cfg: Config)
    requires cfg == DefaultConfig
    ensures EscapeField(cfg, "a") == "a" && EscapeField(cfg, " ") == " "
    ensures EscapeField(cfg, "a ") == "a " && EscapeField(cfg, " a") == " a"
  {
    EscapeFieldOfPlain(cfg, "a");
    EscapeFieldOfPlain(cfg, " ");
    EscapeFieldOfPlain(cfg, "a ");
    EscapeFieldOfPlain(cfg, " a");
  }

  /** So are those of the second record, up to the escape rune of the last
      one. */
  lemma {:induction false} PlainFieldsOfSecond(cfg: Config)
    requires cfg == DefaultConfig
    ensures EscapeField(cfg, "This") == "This" && EscapeField(cfg, "is") == "is"
    ensures EscapeField(cfg, "a") == "a" && EscapeField(cfg, "\"test") == "\"test"
  {
    EscapeFieldOfPlain(cfg, "This");
    EscapeFieldOfPlain(cfg, "is");
    EscapeFieldOfPlain(cfg, "a");
    EscapeFieldOfPlain(cfg, "\"test");
  }

  /** The last four fields of the first record, three of them escaped. */
  lemma {:induction false} FirstRecordTail(cfg: Config)
    requires cfg == DefaultConfig
    ensures JoinFields(cfg, First[4..]) == " a::\\::\\\n"
  {
    assert "\\:" + ":" + "\\\n" == "\\::\\\n";
    assert "" + ":" + "\\::\\\n" == ":\\::\\\n";
    assert " a" + ":" + ":\\::\\\n" == " a::\\::\\\n";
    var f7 := ["\n"];
    var f6 := [":"] + f7;
    var f5 := [""] + f6;
    var f4 := [" a"] + f5;
    assert f4 == First[4..];
    PlainFieldsOfFirst(cfg);
    assert EscapeField(cfg, ":") == "\\:";
    assert JoinFields(cfg, f7) == "\\\n";
    JoinInFront(cfg, ":", f7, "\\:", "\\\n");
    JoinInFront(cfg, "", f6, "", "\\::\\\n");
    JoinInFront(cfg, " a", f5, " a", ":\\::\\\n");
  }

  /** The fields of the first record from its third on. */
  lemma {:induction false} FirstRecordMiddle(cfg: Config)
    requires cfg == DefaultConfig
    ensures JoinFields(cfg, First[2..]) == " :a : a::\\::\\\n"
  {
    assert "a " + ":" + " a::\\::\\\n" == "a : a::\\::\\\n";
    assert " " + ":" + "a : a::\\::\\\n" == " :a : a::\\::\\\n";
    var f3 := ["a "] + First[4..];
    var f2 := [" "] + f3;
    assert f2 == First[2..];
    FirstRecordTail(cfg);
    PlainFieldsOfFirst(cfg);
    JoinInFront(cfg, "a ", First[4..], "a ", " a::\\::\\\n");
    JoinInFront(cfg, " ", f3, " ", "a : a::\\::\\\n");
  }

  /** The first record, which starts with an empty field and ends with an
      escaped newline. */
  lemma {:induction false} FirstEncoding(cfg: Config)
    requires cfg == DefaultConfig
    ensures EncodeRecord(cfg, First) == ":a: :a : a::\\::\\\n\n"
  {
    assert "a" + ":" + " :a : a::\\::\\\n" == "a: :a : a::\\::\\\n";
    assert "" + ":" + "a: :a : a::\\::\\\n" + "\n" == ":a: :a : a::\\::\\\n\n";
    var f1 := ["a"] + First[2..];
    var f0 := [""] + f1;
    assert f0 == First;
    FirstRecordMiddle(cfg);
    PlainFieldsOfFirst(cfg);
    JoinInFront(cfg, "a", First[2..], "a", " :a : a::\\::\\\n");
    JoinInFront(cfg, "", f1, "", "a: :a : a::\\::\\\n");
  }

  /** The escape rune on its own is written twice. */
  lemma {:induction false} LoneEscape(cfg: Config)
    requires cfg == DefaultConfig
    ensures EscapeField(cfg, "\\") == "\\\\"
  {
    assert EscapeField(cfg, "\\") == EscapeRune(cfg, '\\') + EscapeField(cfg, "");
  }

  /** The last field of the second record ends with the escape rune,
      which is written twice. */
  lemma {:induction false} QuotedTestField(cfg: Config)
    requires cfg == DefaultConfig
    ensures EscapeField(cfg, "\"test\\") == "\"test\\\\"
  {
    var plain, esc := "\"test", "\\";
    assert plain + esc == "\"test\\" && plain + "\\\\" == "\"test\\\\";
    PlainFieldsOfSecond(cfg);
    LoneEscape(cfg);
    EscapeFieldAppend(cfg, plain, esc);
  }

  /** The last two fields of the second record. */
  lemma {:induction false} SecondRecordTail(cfg: Config)
    requires cfg == DefaultConfig
    ensures JoinFields(cfg, Second[2..]) == "a:\"test\\\\"
  {
    assert "a" + ":" + "\"test\\\\" == "a:\"test\\\\";
    var f3 := ["\"test\\"];
    var f2 := ["a"] + f3;
    assert f2 == Second[2..];
    QuotedTestField(cfg);
    PlainFieldsOfSecond(cfg);
    JoinInFront(cfg, "a", f3, "a", "\"test\\\\");
  }

  /** The second record, whose last field ends with an escaped escape. */
  lemma {:induction false} SecondEncoding(cfg: Config)
    requires cfg == DefaultConfig
    ensures EncodeRecord(cfg, Second) == "This:is:a:\"test\\\\\n"
  {
    var tail := "is" + ":" + "a:\"test\\\\";
    assert tail == "is:a:\"test\\\\";
    assert "This" + ":" + tail + "\n" == "This:is:a:\"test\\\\\n";
    var f1 := ["is"] + Second[2..];
    var f0 := ["This"] + f1;
    assert f0 == Second;
    SecondRecordTail(cfg);
    PlainFieldsOfSecond(cfg);
    JoinInFront(cfg, "is", Second[2..], "is", "a:\"test\\\\");
    JoinInFront(cfg, "This", f1, "This", "is:a:\"test\\\\");
  }

  /** Writing the expected records gives the input and one final newline. */
  lemma {:induction false} TestWriteAll(cfg: Config)
    requires cfg == DefaultConfig
    ensures EncodeAll(cfg, [First, Second]) == Input + "\n"
  {
    assert Input + "\n" == ":a: :a : a::\\::\\\n\n" + "This:is:a:\"test\\\\\n";
    var rs := [First, Second];
    assert rs[1..] == [Second] && rs[1..][1..] == [];
    FirstEncoding(cfg);
    SecondEncoding(cfg);
    assert EncodeAll(cfg, rs[1..]) == EncodeRecord(cfg, Second);
    assert EncodeAll(cfg, rs) == EncodeRecord(cfg, First) + EncodeRecord(cfg, Second);
  }

  /** Neither expected record is blank, so none is lost in a round trip. */
  lemma {:induction false} ExpectedRecordsSurvive()
    ensures NonBlank([First, Second]) == [First, Second]
  {
    var rs := [First, Second];
    assert |rs[0]| == 8 && |rs[1]| == 4;
    NonBlankOfNonBlank(rs);
  }

  /** The input is what WriteAll writes for the expected records, without
      the final newline. */
  lemma {:induction false} InputIsTrimmedOutput(cfg: Config)
    requires cfg == DefaultConfig
    ensures var full := EncodeAll(cfg, [First, Second]); |full| >= 1 && full[..|full| - 1] == Input
  {
    var full := EncodeAll(cfg, [First, Second]);
    TestWriteAll(cfg);
    assert full == Input + ['\n'];
    assert full[..|Input|] == Input;
  }

  /** Reading the input gives the expected records and no error. */
  lemma {:induction false} TestReadAll(cfg: Config)
    requires cfg == DefaultConfig
    ensures ReadAll(cfg, Stream(Input, None)) == ReadAllResult([First, Second], Nil, |Input|)
  {
    var rs := [First, Second];
    InputIsTrimmedOutput(cfg);
    FinalNewlineOptional(cfg, rs);
    ExpectedRecordsSurvive();
  }

  /** The reading half of TestDSV: ReadAll on a Reader over the input. */
  method ReadTestInput() returns (output: seq<Record>, err: Err)
    ensures err == Nil && output == [First, Second]
  {
    var reader := new Reader(Stream(Input, None));
    output, err := reader.ReadAll();
    TestReadAll(DefaultConfig);
  }

  /** The writing half of TestDSV: WriteAll of the records read, on a
      Writer into a sink without limit. */
  method WriteTestRecords(records: seq<Record>) returns (encoded: seq<char>, err: Err)
    requires records == [First, Second]
    ensures err == Nil && encoded == Input + "\n"
  {
    var writer := new Writer(None);
    err := writer.WriteAll(records);
    TestWriteAll(DefaultConfig);
    encoded := writer.out;
  }

  /** TestDSV itself: both halves report no error, the records read are
      the expected ones, and writing them gives the input and one
      newline. */
  method TestDSV() returns (output: seq<Record>, readErr: Err, encoded: seq<char>, writeErr: Err)
    ensures readErr == Nil && output == [First, Second]
    ensures writeErr == Nil && encoded == Input + "\n"
  {
    output, readErr := ReadTestInput();
    encoded, writeErr := WriteTestRecords(output);
  }
}
