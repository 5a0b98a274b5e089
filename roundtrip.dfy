/** Decoding what the encoder wrote: the round-trip law, its two exceptions,
    and the example of the package's own test. */
module RoundTrip {
  import opened DsvFormat
  import opened Decoding
  import opened Encoding

  /** The records that survive a round trip: blank records vanish, because
      they are written as a bare newline and the reader skips those. */
  function NonBlank(rs: seq<Record>): (r: seq<Record>)
    ensures |r| <= |rs|
    ensures |r| == |rs| <==> forall i :: 0 <= i < |rs| ==> !Blank(rs[i])
    ensures forall i :: 0 <= i < |r| ==> !Blank(r[i])
  {
    if rs == [] then []
    else if Blank(rs[0]) then NonBlank(rs[1..])
    else [rs[0]] + NonBlank(rs[1..])
  }

  /** A list without blank records is left alone by NonBlank. */
  lemma {:induction false} NonBlankOfNonBlank(rs: seq<Record>)
    requires forall i :: 0 <= i < |rs| ==> !Blank(rs[i])
    ensures NonBlank(rs) == rs
  {
    if rs != [] {
      assert forall i :: 0 <= i < |rs[1..]| ==> !Blank(rs[1..][i]) by {
        forall i | 0 <= i < |rs[1..]| ensures !Blank(rs[1..][i]) {
          assert rs[1..][i] == rs[i + 1];
        }
      }
      NonBlankOfNonBlank(rs[1..]);
    }
  }

  /** The runes of text at p..q are the escaped form of field f. */
  predicate EscapedAt(cfg: Config, text: seq<char>, p: nat, f: Field, q: nat) {
    q == p + |EscapeField(cfg, f)| && q <= |text| && text[p..q] == EscapeField(cfg, f)
  }

  /** The runes of text at p..q are the joined fields of record r. */
  predicate JoinedAt(cfg: Config, text: seq<char>, p: nat, r: Record, q: nat) {
    q == p + |JoinFields(cfg, r)| && q <= |text| && text[p..q] == JoinFields(cfg, r)
  }

  /** The reader turns one escaped rune, found at p..q, back into the rune
      itself. */
  lemma {:induction false} ScanEscapedRune(cfg: Config, src: Stream, p: nat, c: char, q: nat,
                                           fields: seq<Field>, field: Field, field': Field)
    requires WellFormed(cfg) && src.failAt == None
    requires q == p + |EscapeRune(cfg, c)| && field' == field + [c]
    requires q <= |src.text| && src.text[p..q] == EscapeRune(cfg, c)
    ensures ScanRecord(cfg, src, p, false, fields, field) == ScanRecord(cfg, src, q, false, fields, field')
  {
    var e := EscapeRune(cfg, c);
    assert src.text[p] == e[0];
    if |e| == 2 {
      assert src.text[p + 1] == e[1] == c;
    }
  }

  /** Splits the escaped form of a non-empty field after its first rune. */
  lemma {:induction false} SplitEscapedField(cfg: Config, text: seq<char>, p: nat, f: Field, q: nat)
    requires f != [] && EscapedAt(cfg, text, p, f, q)
    ensures var mid := p + |EscapeRune(cfg, f[0])|;
            && mid <= q && text[p..mid] == EscapeRune(cfg, f[0])
            && EscapedAt(cfg, text, mid, f[1..], q)
  {
    var e := EscapeRune(cfg, f[0]);
    var tail := EscapeField(cfg, f[1..]);
    assert EscapeField(cfg, f) == e + tail;
    assert text[p..p + |e|] == (e + tail)[..|e|];
    assert text[p + |e|..q] == (e + tail)[|e|..];
  }

  /** The reader turns an escaped field, found at p..q, back into the field
      itself: reading it appends the field to the one being built. */
  lemma {:induction false} ScanEscapedField(cfg: Config, src: Stream, p: nat, f: Field, q: nat,
                                            fields: seq<Field>, field: Field, field': Field)
    requires WellFormed(cfg) && src.failAt == None
    requires EscapedAt(cfg, src.text, p, f, q) && field' == field + f
    ensures ScanRecord(cfg, src, p, false, fields, field) == ScanRecord(cfg, src, q, false, fields, field')
    decreases |f|
  {
    if f == [] {
      assert field' == field;
    } else {
      var c := f[0];
      SplitEscapedField(cfg, src.text, p, f, q);
      var mid, field'' := p + |EscapeRune(cfg, c)|, field + [c];
      ScanEscapedRune(cfg, src, p, c, mid, fields, field, field'');
      assert field' == field'' + f[1..];
      ScanEscapedField(cfg, src, mid, f[1..], q, fields, field'', field');
    }
  }

  /** Splits the joined form of a record with two or more fields at the
      separator after its first field. */
  lemma {:induction false} SplitJoinedFields(cfg: Config, text: seq<char>, p: nat, r: Record, q: nat)
    requires |r| >= 2 && JoinedAt(cfg, text, p, r, q)
    ensures var mid := p + |EscapeField(cfg, r[0])|;
            && mid < q && EscapedAt(cfg, text, p, r[0], mid) && text[mid] == cfg.separator
            && JoinedAt(cfg, text, mid + 1, r[1..], q)
  {
    var e := EscapeField(cfg, r[0]);
    var join := JoinFields(cfg, r[1..]);
    var whole := e + [cfg.separator] + join;
    assert JoinFields(cfg, r) == whole;
    assert text[p..p + |e|] == whole[..|e|];
    assert text[p + |e|] == whole[|e|];
    assert text[p + |e| + 1..q] == whole[|e| + 1..];
  }

  /** The first field of a record with more fields, found at p, is read up
      to its separator and closed; what follows is the joined rest. */
  lemma {:induction false} ScanFirstField(cfg: Config, src: Stream, p: nat, r: Record, q: nat,
                                          fields: seq<Field>)
    requires WellFormed(cfg) && src.failAt == None
    requires |r| >= 2 && JoinedAt(cfg, src.text, p, r, q)
    ensures var mid := p + |EscapeField(cfg, r[0])|;
            && JoinedAt(cfg, src.text, mid + 1, r[1..], q)
            && ScanRecord(cfg, src, p, false, fields, [])
               == ScanRecord(cfg, src, mid + 1, false, fields + [r[0]], [])
  {
    var mid := p + |EscapeField(cfg, r[0])|;
    SplitJoinedFields(cfg, src.text, p, r, q);
    assert [] + r[0] == r[0];
    ScanEscapedField(cfg, src, p, r[0], mid, fields, [], r[0]);
    SeparatorClosesField(cfg, src, mid, fields, r[0]);
  }

  /** The last field of a record, found at p..q, is closed by the newline
      at q, or by the end of the stream when q is the end. */
  lemma {:induction false} ScanLastField(cfg: Config, src: Stream, p: nat, r: Record, q: nat,
                                         fields: seq<Field>, fields': seq<Field>)
    requires WellFormed(cfg) && src.failAt == None
    requires |r| == 1 && JoinedAt(cfg, src.text, p, r, q)
    requires q == |src.text| || src.text[q] == '\n'
    requires fields' == fields + r
    ensures ScanRecord(cfg, src, p, false, fields, [])
         == if q == |src.text| then ReadResult(Some(fields'), EOF, q)
            else ReadResult(Some(fields'), Nil, q + 1)
  {
    var f := r[0];
    assert JoinFields(cfg, r) == EscapeField(cfg, f);
    assert [] + f == f && r == [f];
    ScanEscapedField(cfg, src, p, f, q, fields, [], f);
    if q == |src.text| {
      EndClosesField(cfg, src, false, fields, f);
    } else {
      NewlineEndsRecord(cfg, src, q, fields, f);
    }
  }

  /** The reader turns the joined fields of a record, found at p..q, back
      into the record, whether a newline follows (no error) or the stream
      ends (io.EOF). */
  lemma {:induction false} ScanJoinedFields(cfg: Config, src: Stream, p: nat, r: Record, q: nat,
                                            fields: seq<Field>, fields': seq<Field>)
    requires WellFormed(cfg) && src.failAt == None
    requires |r| >= 1 && JoinedAt(cfg, src.text, p, r, q)
    requires q == |src.text| || src.text[q] == '\n'
    requires fields' == fields + r
    ensures ScanRecord(cfg, src, p, false, fields, [])
         == if q == |src.text| then ReadResult(Some(fields'), EOF, q)
            else ReadResult(Some(fields'), Nil, q + 1)
    decreases |r|
  {
    if |r| == 1 {
      ScanLastField(cfg, src, p, r, q, fields, fields');
    } else {
      ScanFirstField(cfg, src, p, r, q, fields);
      var next := fields + [r[0]];
      assert fields' == next + r[1..];
      ScanJoinedFields(cfg, src, p + |EscapeField(cfg, r[0])| + 1, r[1..], q, next, fields');
    }
  }

  /** A non-blank record written at position |pre| is read back whole, and
      the reader stops right after its newline. */
  lemma {:induction false} ReadEncodedRecord(cfg: Config, text: seq<char>, pre: seq<char>, r: Record, rest: seq<char>)
    requires WellFormed(cfg) && !Blank(r)
    requires text == pre + EncodeRecord(cfg, r) + rest
    ensures ReadRecord(cfg, Stream(text, None), |pre|)
         == ReadResult(Some(r), Nil, |pre| + |EncodeRecord(cfg, r)|)
  {
    var src := Stream(text, None);
    var join := JoinFields(cfg, r);
    var q := |pre| + |join|;
    assert text == pre + join + (['\n'] + rest);
    assert text[|pre|..q] == join && text[q] == '\n';
    FirstRuneOfNonBlank(cfg, r);
    assert text[|pre|] == join[0];
    assert SkipNewlines(src, |pre|) == |pre|;
    assert [] + r == r;
    ScanJoinedFields(cfg, src, |pre|, r, q, [], r);
  }

  /** One encoded record read by the ReadAll loop: a blank one adds
      nothing, any other adds itself. */
  lemma {:induction false} ReadAllOverRecord(cfg: Config, text: seq<char>, pre: seq<char>,
                                             r: Record, rest: seq<char>, acc: seq<Record>, acc': seq<Record>)
    requires WellFormed(cfg)
    requires text == pre + EncodeRecord(cfg, r) + rest
    requires acc' == if Blank(r) then acc else acc + [r]
    ensures ReadAllFrom(cfg, Stream(text, None), |pre|, acc)
         == ReadAllFrom(cfg, Stream(text, None), |pre + EncodeRecord(cfg, r)|, acc')
  {
    var src := Stream(text, None);
    var q := |pre + EncodeRecord(cfg, r)|;
    if Blank(r) {
      BareNewlineExactlyForBlank(cfg, r);
      assert text[|pre|] == '\n' && q == |pre| + 1;
      LeadingNewlineSkipped(cfg, src, |pre|);
    } else {
      ReadEncodedRecord(cfg, text, pre, r, rest);
      assert ReadRecord(cfg, src, |pre|) == ReadResult(Some(r), Nil, q);
    }
  }

  /** Reading across encoded records collects exactly their non-blank ones,
      in order, and stops where the encoding ends. */
  lemma {:induction false} ReadAllAcrossEncoding(cfg: Config, text: seq<char>, pre: seq<char>,
                                                 rs: seq<Record>, rest: seq<char>, acc: seq<Record>)
    requires WellFormed(cfg)
    requires text == pre + EncodeAll(cfg, rs) + rest
    ensures ReadAllFrom(cfg, Stream(text, None), |pre|, acc)
         == ReadAllFrom(cfg, Stream(text, None), |pre + EncodeAll(cfg, rs)|, acc + NonBlank(rs))
    decreases |rs|
  {
    if rs == [] {
      assert acc + NonBlank(rs) == acc;
      assert pre + EncodeAll(cfg, rs) == pre;
    } else {
      var r := rs[0];
      var e := EncodeRecord(cfg, r);
      var pre' := pre + e;
      var tail := EncodeAll(cfg, rs[1..]);
      assert EncodeAll(cfg, rs) == e + tail;
      assert text == pre' + tail + rest && text == pre + e + (tail + rest) by {
        assert pre + EncodeAll(cfg, rs) + rest == pre + e + tail + rest;
      }
      assert pre' + tail == pre + EncodeAll(cfg, rs);
      var acc' := if Blank(r) then acc else acc + [r];
      assert acc' + NonBlank(rs[1..]) == acc + NonBlank(rs) by {
        if !Blank(r) {
          assert NonBlank(rs) == [r] + NonBlank(rs[1..]);
        }
      }
      ReadAllOverRecord(cfg, text, pre, r, tail + rest, acc, acc');
      ReadAllAcrossEncoding(cfg, text, pre', rs[1..], rest, acc');
    }
  }

  /** What ReadAll makes of WriteAll's output, for any records: the records
      themselves with the blank ones removed, and no error. */
  lemma {:induction false} DecodeEncoded(cfg: Config, rs: seq<Record>)
    requires WellFormed(cfg)
    ensures ReadAll(cfg, Stream(EncodeAll(cfg, rs), None))
         == ReadAllResult(NonBlank(rs), Nil, |EncodeAll(cfg, rs)|)
  {
    var text := EncodeAll(cfg, rs);
    assert text == [] + text + [];
    ReadAllAcrossEncoding(cfg, text, [], rs, [], []);
    OnlyNewlinesYieldNothing(cfg, Stream(text, None), |text|);
  }

  /** The round-trip law: when separator, escape and newline differ, reading
      back what WriteAll wrote gives the records exactly, if none is blank. */
  lemma {:induction false} RoundTrip(cfg: Config, rs: seq<Record>)
    requires WellFormed(cfg)
    requires forall i :: 0 <= i < |rs| ==> !Blank(rs[i])
    ensures ReadAll(cfg, Stream(EncodeAll(cfg, rs), None)) == ReadAllResult(rs, Nil, |EncodeAll(cfg, rs)|)
  {
    DecodeEncoded(cfg, rs);
    NonBlankOfNonBlank(rs);
  }

  /** The exceptions are exactly the blank records: the round trip gives the
      records back if and only if none of them is [] or [""]. */
  lemma {:induction false} RoundTripExactlyWhenNoneBlank(cfg: Config, rs: seq<Record>)
    requires WellFormed(cfg)
    ensures ReadAll(cfg, Stream(EncodeAll(cfg, rs), None)).records == rs
        <==> forall i :: 0 <= i < |rs| ==> !Blank(rs[i])
  {
    DecodeEncoded(cfg, rs);
    if forall i :: 0 <= i < |rs| ==> !Blank(rs[i]) {
      NonBlankOfNonBlank(rs);
    }
  }

  /** A record written without its newline at the very end of the stream
      is still read back, with io.EOF, which ReadAll absorbs. */
  lemma {:induction false} ReadAllOverLastRecord(cfg: Config, text: seq<char>, pre: seq<char>,
                                                 r: Record, acc: seq<Record>)
    requires WellFormed(cfg)
    requires text == pre + JoinFields(cfg, r)
    ensures ReadAllFrom(cfg, Stream(text, None), |pre|, acc)
         == ReadAllResult(if Blank(r) then acc else acc + [r], Nil, |text|)
  {
    var src := Stream(text, None);
    if Blank(r) {
      assert JoinFields(cfg, r) == [] by {
        if r == [""] {
          assert JoinFields(cfg, r) == EscapeField(cfg, "");
        }
      }
      assert |pre| == |text|;
      OnlyNewlinesYieldNothing(cfg, src, |pre|);
    } else {
      FirstRuneOfNonBlank(cfg, r);
      assert text[|pre|] == JoinFields(cfg, r)[0];
      assert SkipNewlines(src, |pre|) == |pre|;
      assert text[|pre|..|text|] == JoinFields(cfg, r);
      assert [] + r == r;
      ScanJoinedFields(cfg, src, |pre|, r, |text|, [], r);
    }
  }

  /** WriteAll's output without its last newline: the records before the
      last one, then the joined fields of the last one. */
  lemma {:induction false} EncodeAllButNewline(cfg: Config, rs: seq<Record>)
    requires |rs| >= 1
    ensures EncodeAll(cfg, rs)[..|EncodeAll(cfg, rs)| - 1]
         == EncodeAll(cfg, rs[..|rs| - 1]) + JoinFields(cfg, rs[|rs| - 1])
  {
    var n := |rs| - 1;
    assert rs == rs[..n] + [rs[n]];
    EncodeAllAppend(cfg, rs[..n], [rs[n]]);
    assert EncodeAll(cfg, [rs[n]]) == JoinFields(cfg, rs[n]) + ['\n'];
  }

  /** Appending a record to the list appends it to NonBlank unless it is blank. */
  lemma {:induction false} NonBlankSnoc(rs: seq<Record>, r: Record)
    ensures NonBlank(rs + [r]) == if Blank(r) then NonBlank(rs) else NonBlank(rs) + [r]
  {
    NonBlankAppend(rs, [r]);
    assert NonBlank([r]) == if Blank(r) then [] else [r];
  }

  /** ReadAll on WriteAll's output followed by any text: the non-blank
      records are collected, and reading goes on where the encoding ends. */
  lemma {:induction false} ReadAllAfterEncoding(cfg: Config, rs: seq<Record>, rest: seq<char>)
    requires WellFormed(cfg)
    ensures ReadAll(cfg, Stream(EncodeAll(cfg, rs) + rest, None))
         == ReadAllFrom(cfg, Stream(EncodeAll(cfg, rs) + rest, None), |EncodeAll(cfg, rs)|, NonBlank(rs))
  {
    var text := EncodeAll(cfg, rs) + rest;
    assert text == [] + EncodeAll(cfg, rs) + rest;
    ReadAllAcrossEncoding(cfg, text, [], rs, rest, []);
    assert [] + EncodeAll(cfg, rs) == EncodeAll(cfg, rs);
    assert [] + NonBlank(rs) == NonBlank(rs);
  }

  /** The final record needs no newline after it: WriteAll's output without
      its last newline reads back as the same records. */
  lemma {:induction false} FinalNewlineOptional(cfg: Config, rs: seq<Record>)
    requires WellFormed(cfg) && |rs| >= 1
    ensures var text := EncodeAll(cfg, rs)[..|EncodeAll(cfg, rs)| - 1];
            ReadAll(cfg, Stream(text, None)) == ReadAllResult(NonBlank(rs), Nil, |text|)
  {
    var n := |rs| - 1;
    var front, last := rs[..n], rs[n];
    var text := EncodeAll(cfg, rs)[..|EncodeAll(cfg, rs)| - 1];
    EncodeAllButNewline(cfg, rs);
    assert rs == front + [last];
    NonBlankSnoc(front, last);
    ReadAllAfterEncoding(cfg, front, JoinFields(cfg, last));
    ReadAllOverLastRecord(cfg, text, EncodeAll(cfg, front), last, NonBlank(front));
  }

  /** NonBlank distributes over concatenation. */
  lemma {:induction false} NonBlankAppend(a: seq<Record>, b: seq<Record>)
    ensures NonBlank(a + b) == NonBlank(a) + NonBlank(b)
  {
    if a == [] {
      assert a + b == b;
    } else {
      assert (a + b)[0] == a[0] && (a + b)[1..] == a[1..] + b;
      NonBlankAppend(a[1..], b);
    }
  }

  /** Writing and reading again is stable after one cycle: a second cycle
      returns what the first one returned. */
  lemma {:induction false} ReencodeIsStable(cfg: Config, rs: seq<Record>)
    requires WellFormed(cfg)
    ensures var once := ReadAll(cfg, Stream(EncodeAll(cfg, rs), None)).records;
            ReadAll(cfg, Stream(EncodeAll(cfg, once), None)).records == once
  {
    DecodeEncoded(cfg, rs);
    RoundTrip(cfg, NonBlank(rs));
  }

  /** Writing what ReadAll read from any text and reading it again gives
      the records read with the blank ones removed; so re-encoding is
      stable exactly when no record read is [""]. */
  lemma {:induction false} ReencodeOfDecodedText(cfg: Config, t: seq<char>)
    requires WellFormed(cfg)
    ensures var once := ReadAll(cfg, Stream(t, None)).records;
            ReadAll(cfg, Stream(EncodeAll(cfg, once), None)).records == NonBlank(once)
    ensures var once := ReadAll(cfg, Stream(t, None)).records;
            ReadAll(cfg, Stream(EncodeAll(cfg, once), None)).records == once
            <==> forall i :: 0 <= i < |once| ==> once[i] != [""]
  {
    var once := ReadAll(cfg, Stream(t, None)).records;
    DecodeEncoded(cfg, once);
    ReadAllRecordsAreNonEmpty(cfg, Stream(t, None));
    RoundTripExactlyWhenNoneBlank(cfg, once);
  }

  /** Writing what was read and reading it again does not always give the
      same records: a lone escape rune reads as the blank record [""],
      which is written as a bare newline and then skipped. */
  lemma {:induction false} ReencodeCanLoseRecords()
    ensures ReadAll(DefaultConfig, Stream("\\", None)).records == [[""]]
    ensures EncodeAll(DefaultConfig, [[""]]) == "\n"
    ensures ReadAll(DefaultConfig, Stream("\n", None)).records == []
  {
    var src := Stream("\\", None);
    assert SkipNewlines(src, 0) == 0;
    assert ScanRecord(DefaultConfig, src, 0, false, [], []) == ScanRecord(DefaultConfig, src, 1, true, [], []);
    EndClosesField(DefaultConfig, src, true, [], []);
    assert [] + [[]] == [""];
    BlankRecordsVanish(DefaultConfig);
  }

  /** Both blank records are written as a bare newline. */
  lemma {:induction false} BlankRecordsVanish(cfg: Config)
    requires WellFormed(cfg)
    ensures EncodeAll(cfg, [[]]) == EncodeAll(cfg, [[""]]) == "\n"
    ensures ReadAll(cfg, Stream("\n", None)) == ReadAllResult([], Nil, 1)
  {
    assert EncodeRecord(cfg, [""]) == EscapeField(cfg, "") + "\n";
    assert EncodeAll(cfg, [[""]]) == EncodeRecord(cfg, [""]) + EncodeAll(cfg, []);
    assert EncodeAll(cfg, [[]]) == EncodeRecord(cfg, []) + EncodeAll(cfg, []);
    OnlyNewlinesYieldNothing(cfg, Stream("\n", None), 0);
  }

  /** Why the law needs distinct runes: with ':' as both separator and
      escape, the one-field record [":"] is written as "::\n", and the
      reader, which tests the separator first, reads three empty fields. */
  lemma {:induction false} CollidingConfigBreaksRoundTrip()
    ensures EncodeAll(Config(':', ':'), [[":"]]) == "::\n"
    ensures ReadAll(Config(':', ':'), Stream("::\n", None)).records == [["", "", ""]]
  {
    var cfg := Config(':', ':');
    var src := Stream("::\n", None);
    assert EscapeField(cfg, ":") == EscapeRune(cfg, ':') + EscapeField(cfg, "");
    assert EncodeAll(cfg, [[":"]]) == EncodeRecord(cfg, [":"]) + EncodeAll(cfg, []);
    assert SkipNewlines(src, 0) == 0;
    assert [] + [[]] == [""] && [""] + [[]] == ["", ""] && ["", ""] + [[]] == ["", "", ""];
    SeparatorClosesField(cfg, src, 0, [], []);
    SeparatorClosesField(cfg, src, 1, [""], []);
    NewlineEndsRecord(cfg, src, 2, ["", ""], []);
    assert ReadRecord(cfg, src, 0) == ReadResult(Some(["", "", ""]), Nil, 3);
    OnlyNewlinesYieldNothing(cfg, src, 3);
    assert ReadAllFrom(cfg, src, 3, [["", "", ""]]) == ReadAllResult([["", "", ""]], Nil, 3);
  }

  /** The final record ends with a dangling escape, which is dropped. */
  lemma {:induction false} TrailingEscapeDropped()
    ensures ReadAll(DefaultConfig, Stream("a\\", None)) == ReadAllResult([["a"]], Nil, 2)
  {
    var cfg := DefaultConfig;
    var src := Stream("a\\", None);
    assert SkipNewlines(src, 0) == 0;
    assert [] + ['a'] == "a" && [] + ["a"] == ["a"];
    assert ScanRecord(cfg, src, 0, false, [], []) == ScanRecord(cfg, src, 1, false, [], "a");
    assert ScanRecord(cfg, src, 1, false, [], "a") == ScanRecord(cfg, src, 2, true, [], "a");
    EndClosesField(cfg, src, true, [], "a");
    assert ReadRecord(cfg, src, 0) == ReadResult(Some(["a"]), EOF, 2);
  }

  /** A source error mid-record: Read returns the fields read so far and
      the partial field read before the failure, together with the error. */
  lemma {:induction false} SourceErrorMidRecord()
    ensures ReadRecord(DefaultConfig, Stream("ab:cd", Some(4)), 0)
         == ReadResult(Some(["ab", "c"]), IOError, 4)
  {
    var cfg := DefaultConfig;
    var src := Stream("ab:cd", Some(4));
    assert [] + ['a'] == "a" && "a" + ['b'] == "ab" && [] + ["ab"] == ["ab"] && [] + ['c'] == "c";
    assert ["ab"] + ["c"] == ["ab", "c"];
    assert SkipNewlines(src, 0) == 0;
    assert ScanRecord(cfg, src, 0, false, [], []) == ScanRecord(cfg, src, 1, false, [], "a");
    assert ScanRecord(cfg, src, 1, false, [], "a") == ScanRecord(cfg, src, 2, false, [], "ab");
    assert ScanRecord(cfg, src, 2, false, [], "ab") == ScanRecord(cfg, src, 3, false, ["ab"], []);
    assert ScanRecord(cfg, src, 3, false, ["ab"], []) == ScanRecord(cfg, src, 4, false, ["ab"], "c");
  }

  /** The record after "x\n" in SourceErrorDropsEarlierRecords fails. */
  lemma {:induction false} SecondRecordFails(cfg: Config, src: Stream)
    requires cfg == DefaultConfig && src == Stream("x\nab:c", Some(5))
    ensures ReadRecord(cfg, src, 2) == ReadResult(Some(["ab", ""]), IOError, 5)
  {
    assert [] + ['a'] == "a" && "a" + ['b'] == "ab" && [] + ["ab"] == ["ab"] && ["ab"] + [[]] == ["ab", ""];
    assert SkipNewlines(src, 2) == 2;
    assert ScanRecord(cfg, src, 2, false, [], []) == ScanRecord(cfg, src, 3, false, [], "a");
    assert ScanRecord(cfg, src, 3, false, [], "a") == ScanRecord(cfg, src, 4, false, [], "ab");
    assert ScanRecord(cfg, src, 4, false, [], "ab") == ScanRecord(cfg, src, 5, false, ["ab"], []);
  }

  /** The record "x" in SourceErrorDropsEarlierRecords is read whole. */
  lemma {:induction false} FirstRecordRead(cfg: Config, src: Stream)
    requires cfg == DefaultConfig && src == Stream("x\nab:c", Some(5))
    ensures ReadRecord(cfg, src, 0) == ReadResult(Some(["x"]), Nil, 2)
  {
    assert [] + ['x'] == "x" && [] + ["x"] == ["x"];
    assert SkipNewlines(src, 0) == 0;
    assert ScanRecord(cfg, src, 0, false, [], []) == ScanRecord(cfg, src, 1, false, [], "x");
    NewlineEndsRecord(cfg, src, 1, [], "x");
  }

  /** A source error in a later record makes ReadAll drop the records it
      had already read. */
  lemma {:induction false} SourceErrorDropsEarlierRecords()
    ensures ReadAll(DefaultConfig, Stream("x\nab:c", Some(5))) == ReadAllResult([], IOError, 5)
  {
    var cfg := DefaultConfig;
    var src := Stream("x\nab:c", Some(5));
    FirstRecordRead(cfg, src);
    SecondRecordFails(cfg, src);
    assert [] + [["x"]] == [["x"]];
    assert ReadAllFrom(cfg, src, 0, []) == ReadAllFrom(cfg, src, 2, [["x"]]);
  }
}
