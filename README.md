# DSV codec, modelled in Dafny

The `dsv` package reads and writes delimiter-separated values. A record is a
list of fields, and a field is a string of runes. Records end with a newline
and fields are separated by a separator rune (`:` by default). An escape rune
(`\` by default) makes the rune after it literal. `Reader` decodes records from
an `io.RuneReader`, and `Writer` encodes them into an `io.Writer`.

The project has seven modules:

- `DsvFormat` (`format.dfy`): the shared vocabulary. It defines records, the
  separator/escape configuration, the three error values the codec tells
  apart (nil, `io.EOF`, any other error) and the two *blank* records `[]`
  and `[""]`.
- `Decoding` (`decoding.dfy`): what one `Read` and one `ReadAll` compute, as
  pure functions.
  - The rune source is a `Stream` value: the runes it yields and,
    optionally, the index of the read at which it fails with an error other
    than `io.EOF`.
  - Lemmas state each branch of the record loop.
- `Encoding` (`encoding.dfy`): what `Write` and `WriteAll` emit, as pure
  functions, with lemmas about how the encoding splits.
- `DsvReader` (`reader.dfy`): the `Reader` class.
  - It has the exported `Escape`/`Separator` fields, the source, the read
    position and the in-place field buffer.
  - `Read` and `ReadAll` are loops over `ReadRune`, proved equal to the
    `Decoding` functions.
- `DsvWriter` (`writer.dfy`): the `Writer` class.
  - The sink is the sequence of runes written so far plus a capacity. A
    write past the capacity fails with the prefix already written staying
    behind, and the sink keeps that error, as a `bufio.Writer` does.
  - `Write` and `WriteAll` are loops over `WriteRune`, proved to deliver,
    in closed form, the `Encoding` text into that sink.
- `RoundTrip` (`roundtrip.dfy`): the round-trip law and its exact
  exceptions.
  - For a configuration with separator, escape and newline distinct,
    reading what `WriteAll` wrote gives the records back with the blank ones
    removed.
  - So the records come back exactly when none is blank.
  - The module also proves counterexamples: colliding configurations, lost
    blank records, re-encoding, a dropped trailing escape, and a source
    error that discards every record.
- `PackageTest` (`example.dfy`): the package's own `TestDSV`, proved on the
  pure functions and, as a method, on the `Reader` and `Writer` classes.

The `Read` code and its doc comment disagree, and the model follows the code
(dsv.go:99-103). When the stream ends inside a record, `Read` returns that
record *together with* `io.EOF`. The doc comment (dsv.go:57-59) says EOF is
not reported. `ReadAll` (dsv.go:118-119) relies on the code's behaviour: it
keeps that last record and returns nil.

## Model

| member | source | states |
|---|---|---|
| Decoding.Next | dsv.go:99 | one ReadRune on the abstract source: the source's error exactly at its failing index, io.EOF exactly past the last rune otherwise, and else the rune at that position |
| Decoding.ReadAll | dsv.go:115-129 | ReadAll on a fresh Reader: no error means the whole source was read; an error means no records and the source failed there; io.EOF is never reported |
| Decoding.SkipNewlines | dsv.go:64-76 | the leading loop stops at the first read that is not a newline; every read it passes over is a newline |
| Decoding.ScanRecord | dsv.go:80-108 | the record loop never moves the source backwards and stays within it |
| Decoding.ScanRecordOutcome | dsv.go:80-108 | the record loop always returns a record and adds at least one field. It ends without error only after consuming a newline, with io.EOF only at the end of the source, and with any other error only where the source fails |
| Decoding.ReadRecord | dsv.go:60-110 | Read returns a record with at least one field, or no record. A record with no error ends with the newline it consumed. No record comes with either the source's error or no error; no error means the rest of the source was newlines, now consumed. io.EOF always comes with a record |
| Decoding.ReadAllFrom | dsv.go:115-129 | ReadAll reports nil or the source's error, never io.EOF. On nil, the records are appended in source order and the source is exhausted. On error, no records are returned |
| Decoding.LeadingNewlineSkipped | dsv.go:64-76 | a leading newline is consumed and changes nothing else |
| Decoding.OnlyNewlinesYieldNothing | dsv.go:64-72 | a source of only newlines that does not fail yields no record and no error, and is left exhausted |
| Decoding.FailureAmongNewlines | dsv.go:67-70 | a source error met among leading newlines yields no record and that error |
| Decoding.EscapedRuneIsLiteral | dsv.go:82-84 | an unescaped escape adds nothing; the next rune joins the field verbatim, whatever it is, and escaping ends |
| Decoding.SeparatorClosesField | dsv.go:87-89 | an unescaped separator closes the current field, even an empty one, and starts a new empty field |
| Decoding.NewlineEndsRecord | dsv.go:92-94 | an unescaped newline closes the field and ends the record with no error. The newline is consumed and belongs to no field |
| Decoding.EndClosesField | dsv.go:99-103 | at the end of the source the current field, even an empty one, is closed and the record comes back with io.EOF. A pending escape leaves no rune behind |
| Decoding.FailureKeepsPartialField | dsv.go:99-107 | a source error inside a field of ordinary runes (no separator, escape or newline) returns the fields closed so far plus the partial field, together with the error |
| Decoding.ReadAllOfInfallibleSource | dsv.go:115-129 | over a source that never fails, ReadAll reports no error and reads to the end |
| Decoding.ReadAllOfOnlyNewlines | dsv.go:115-129 | ReadAll of an empty source, or one holding only newlines, returns zero records and no error |
| Decoding.ReadAllRecordsAreNonEmpty | dsv.go:115-129 | every record ReadAll returns has at least one field |
| Encoding.EscapeRune | dsv.go:162-181 | every rune is written as itself, preceded by the escape rune exactly when it is the escape rune, the separator or a newline |
| Encoding.JoinFields | dsv.go:156-161 | (no contract of its own) the escaped fields with one separator between each two; its laws are stated by Encoding.JoinFieldsAppend, Encoding.BareNewlineExactlyForBlank and DsvWriter.JoinFieldsStep |
| Encoding.EscapeField | dsv.go:162-185 | an escaped field is empty exactly when the field is, and is at most twice its length |
| Encoding.EncodeRecord | dsv.go:155-189 | the text Write emits for a record always ends with a newline |
| Encoding.EncodeAll | dsv.go:192-199 | WriteAll emits at least one rune per record |
| Encoding.EscapeFieldAppend | dsv.go:162-185 | a field is escaped rune by rune, so escaping distributes over concatenation |
| Encoding.JoinFieldsAppend | dsv.go:156-161 | joining two lists of fields puts exactly one separator between them when both are non-empty |
| Encoding.EncodeAllAppend | dsv.go:193-197 | WriteAll's text for a list of records is the concatenation of the texts for its parts |
| Encoding.EscapeFieldOfPlain | dsv.go:179-180 | a field with no escape, separator or newline is written unchanged |
| Encoding.BareNewlineExactlyForBlank | dsv.go:155-189 | Write emits a bare newline if and only if the record is [] or [""] |
| Encoding.FirstRuneOfNonBlank | dsv.go:155-185 | under a well-formed configuration, a non-blank record's text starts with a rune other than a newline |
| RoundTrip.NonBlank | dsv.go:64-76 | the records that survive a round trip: none of them is blank, and no record is lost exactly when none was blank |
| RoundTrip.NonBlankOfNonBlank | dsv.go:64-76 | a list with no blank record is left unchanged by NonBlank |
| RoundTrip.NonBlankSnoc | dsv.go:118-127 | appending a blank record to the list adds nothing to its NonBlank; appending any other record appends it |
| RoundTrip.NonBlankAppend | dsv.go:118-127 | NonBlank distributes over concatenation |
| RoundTrip.ScanEscapedRune | dsv.go:82-91 | the reader turns the writer's form of any rune back into that rune |
| RoundTrip.SplitEscapedField | dsv.go:162-185 | an escaped field in the text is its first rune's escaped form followed by the rest of the field's escaped form |
| RoundTrip.ScanEscapedField | dsv.go:80-98 | the reader turns an escaped field back into the field, wherever it stands in the text |
| RoundTrip.SplitJoinedFields | dsv.go:156-161 | joined fields in the text are the first escaped field, a separator, then the remaining joined fields |
| RoundTrip.ScanFirstField | dsv.go:86-89 | reading joined fields closes the first field at the separator that follows it |
| RoundTrip.ScanLastField | dsv.go:92-103 | the last field is closed by the newline after it, or by the end of the stream with io.EOF |
| RoundTrip.ScanJoinedFields | dsv.go:80-108 | reading joined fields returns the record, ended by a newline or by the end of the stream |
| RoundTrip.ReadEncodedRecord | dsv.go:60-110 | Read returns a non-blank record written by Write, whole and with no error, and stops just after its newline |
| RoundTrip.ReadAllOverRecord | dsv.go:115-129 | the ReadAll loop collects a written record unless it is blank |
| RoundTrip.ReadAllAcrossEncoding | dsv.go:115-129 | over WriteAll's text, the ReadAll loop collects exactly the non-blank records, in order, and goes on where that text ends |
| RoundTrip.DecodeEncoded | dsv.go:115-129 | ReadAll of WriteAll's output is the records with the blank ones removed, with no error |
| RoundTrip.RoundTrip | dsv.go:192-199 | if separator, escape and newline differ and no record is blank, reading back what WriteAll wrote gives the records exactly |
| RoundTrip.RoundTripExactlyWhenNoneBlank | dsv.go:192-199 | the round trip gives the records back if and only if none of them is blank |
| RoundTrip.ReadAllOverLastRecord | dsv.go:99-103 | a record written without its newline at the end of the stream is still read back; ReadAll absorbs its io.EOF |
| RoundTrip.EncodeAllButNewline | dsv.go:187 | WriteAll's output without its last newline is the earlier records followed by the last record's joined fields |
| RoundTrip.ReadAllAfterEncoding | dsv.go:115-129 | after WriteAll's output, ReadAll has collected its non-blank records and goes on reading whatever follows |
| RoundTrip.FinalNewlineOptional | dsv.go:99-103 | WriteAll's output without its final newline reads back as the same records |
| RoundTrip.ReencodeIsStable | dsv.go:115-129 | a second write-and-read cycle returns what the first one returned |
| RoundTrip.ReencodeOfDecodedText | dsv.go:115-129 | writing what ReadAll read from any text and reading it again gives the records read without the blank ones; so it gives them back exactly when none of them is [""] |
| RoundTrip.ReencodeCanLoseRecords | dsv.go:82-84 | reading, writing and reading again can lose a record: a lone escape reads as [""], which is written as a bare newline and then skipped |
| RoundTrip.BlankRecordsVanish | dsv.go:64-76 | both blank records are written as a bare newline, which ReadAll reads as no record |
| RoundTrip.CollidingConfigBreaksRoundTrip | dsv.go:86-91 | with ':' as both separator and escape, the record [":"] is written as "::\n" and read back as three empty fields, because the reader tests the separator first |
| RoundTrip.TrailingEscapeDropped | dsv.go:99-103 | an escape at the very end of the stream is dropped |
| RoundTrip.SourceErrorMidRecord | dsv.go:104-107 | on "ab:cd" failing at its fifth read, Read returns ["ab", "c"], the partial field included, with the error |
| RoundTrip.FirstRecordRead | dsv.go:92-94 | in that example stream, the first Read returns ["x"] with no error |
| RoundTrip.SecondRecordFails | dsv.go:104-107 | in that stream, the second Read returns the partial record ["ab", ""] with the error |
| RoundTrip.SourceErrorDropsEarlierRecords | dsv.go:121-123 | when a later record fails, ReadAll discards the records it had already read and returns only the error |
| PackageTest.PlainFieldsOfFirst | dsv_test.go:14 | the plain fields of the first expected record are written unchanged |
| PackageTest.PlainFieldsOfSecond | dsv_test.go:15 | the plain fields of the second expected record are written unchanged |
| PackageTest.FirstRecordTail | dsv_test.go:14 | the writer's text for the last fields of the first record |
| PackageTest.FirstRecordMiddle | dsv_test.go:14 | the writer's text for the first record from its third field on |
| PackageTest.FirstEncoding | dsv_test.go:12-14 | the first expected record is written as the first line of the input |
| PackageTest.LoneEscape | dsv_test.go:15 | a field holding only the escape rune is written as two escape runes |
| PackageTest.QuotedTestField | dsv_test.go:15 | the writer's text for the field "test\ (starting with a double quote) |
| PackageTest.SecondRecordTail | dsv_test.go:15 | the writer's text for the second record from its third field on |
| PackageTest.SecondEncoding | dsv_test.go:12-15 | the second expected record is written as the last line of the input |
| PackageTest.TestWriteAll | dsv_test.go:40-49 | writing the expected records gives the test input followed by one newline |
| PackageTest.ExpectedRecordsSurvive | dsv_test.go:13-16 | neither expected record is blank |
| PackageTest.InputIsTrimmedOutput | dsv_test.go:47 | the test input is the written text without its last newline |
| PackageTest.TestReadAll | dsv_test.go:18-38 | ReadAll of the test input gives exactly the two expected records with no error |
| PackageTest.ReadTestInput | dsv_test.go:18-38 | ReadAll on a Reader over the test input returns the expected records with no error |
| PackageTest.WriteTestRecords | dsv_test.go:40-49 | WriteAll of the expected records on a Writer returns no error and writes the input and one newline |
| PackageTest.TestDSV | dsv_test.go:11-50 | on a Reader over the test input, ReadAll returns the expected records with no error; on a Writer, WriteAll of them returns no error and writes the input and one newline |
| DsvReader.Reader.constructor | dsv.go:49-55 | NewReader: '\\' escapes, ':' separates, and nothing has been read yet |
| DsvReader.Reader.ReadRune | dsv.go:99 | one ReadRune on the source: a rune that advances the position, io.EOF at the end, or the source's error |
| DsvReader.Reader.Read | dsv.go:60-110 | Read computes exactly the records and errors ReadRecord describes, and leaves the field buffer empty |
| DsvReader.Reader.ReadAll | dsv.go:115-129 | ReadAll computes exactly what ReadAllFrom describes |
| DsvWriter.Deliver | dsv.go:155-199 | a write into the sink succeeds exactly when everything fits; on failure the sink is full |
| DsvWriter.DeliverKeepsOrder | dsv.go:155-189 | a write keeps what the sink held and adds a prefix of what was written |
| DsvWriter.DeliverConcat | dsv.go:155-189 | writing two texts one after the other is writing their concatenation; the second is attempted only if the first fit |
| DsvWriter.DeliverFailedPrefix | dsv.go:182-184 | once part of a text fails to be written, writing the whole text leaves the sink in the same state |
| DsvWriter.DeliverStep | dsv.go:156-189 | after a successful prefix, one more piece either extends the prefix or ends the whole write where its failure leaves it |
| DsvWriter.EscapeFieldStep | dsv.go:162-185 | the escaped field grows by one rune's escaped form per loop iteration, and each stage is a prefix of the whole |
| DsvWriter.JoinFieldsStep | dsv.go:156-161 | field n is written right after the fields before it and their separator |
| DsvWriter.EncodeRecordSplit | dsv.go:155-189 | a record's text is its first n+1 fields joined, then the rest and the newline |
| DsvWriter.WriteStagesArePrefixes | dsv.go:156-186 | every intermediate state of Write is a prefix of the record's text |
| DsvWriter.EncodeAllStep | dsv.go:193-197 | the k-th Write of WriteAll extends the text of the records before it, and stays a prefix of the whole |
| DsvWriter.Writer.constructor | dsv.go:132-138 | NewWriter: '\\' escapes, ':' separates, and the sink starts empty with no error kept |
| DsvWriter.Writer.Error | dsv.go:141-144 | Error reports the error the sink has kept, if any |
| DsvWriter.Writer.WriteRune | dsv.go:180 | one WriteRune into the sink: the rune is taken if it fits, otherwise the write fails and the sink keeps that error; each writing method keeps an error exactly when it reports one |
| DsvWriter.Writer.WriteEscaped | dsv.go:165-177 | the escape rune, then the rune, the second written only if the first was accepted |
| DsvWriter.Writer.WriteFieldRune | dsv.go:163-184 | the rune switch writes the rune's escaped form into the sink |
| DsvWriter.Writer.WriteField | dsv.go:162-185 | the loop over a field writes its escaped form, stopping at the first failure |
| DsvWriter.Writer.Write | dsv.go:155-189 | Write writes the record's encoding, separators and final newline included, and stops at the first failure |
| DsvWriter.Writer.WriteAll | dsv.go:192-199 | WriteAll writes the records' encodings in order and stops at the first failure. The final Flush reports the error the sink has kept, so an error from an earlier call is returned even when no record is written |

## Left out

- Buffering: the buffer of the `bufio.Writer` is not modelled.
  - The model's sink reports a failure on the very write that overflows it, not at a later write or `Flush`.
  - What it keeps from `bufio` is the sticky error: the first failure is remembered (`Writer.failed`), later writes fail, and `Error` (dsv.go:141-144) and the `Flush` that ends `WriteAll` (dsv.go:198) report it.
  - `Writer.Flush` (dsv.go:148-150) only pushes the buffer, so without a buffer there is nothing for it to do, and it is not modelled.
- UTF-8: strings are sequences of runes.
  - Encoding runes as bytes is not modelled.
  - Neither is decoding invalid bytes to U+FFFD.
- The `io.RuneReader` is not modelled as an interface. It becomes a value fixed in advance: its runes and the one index at which it fails. That failure is sticky.
- The `io.Writer` is likewise a sequence plus a capacity.
- Any other kind of reader or writer behaviour is not modelled. That includes interleaved reads, writes that fail at will, and partial runes.
- ReadRune's size result (dsv.go:66, dsv.go:99) is ignored, as the source ignores it.
- The `defer r.field.Reset()` (dsv.go:78) becomes an explicit reset of the field buffer before `Read` returns.
- Which error occurred is not modelled. Any error other than `io.EOF` from the source or the sink is the single value `IOError`.
- The harness mechanics of dsv_test.go are not modelled: `testing`, `fmt.Sprintf` and logging.
- The test's expectations are proved about the model instead.
