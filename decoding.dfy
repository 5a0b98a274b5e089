/** The decoder as pure functions: what one call of Reader.Read and one call
    of Reader.ReadAll compute from the rune source and the read position. */
module Decoding {
  import opened DsvFormat

  /** The io.RuneReader behind a Reader: the runes it yields in order and,
      optionally, the index of the read that fails with an error other than
      io.EOF. A failed read does not advance, so failure is sticky. */
  datatype Stream = Stream(text: seq<char>, failAt: Option<nat>)

  /** The outcome of one ReadRune call. */
  datatype Input = Rune(c: char) | End | Failed

  function Next(src: Stream, p: nat): (i: Input)
    ensures i == Failed <==> src.failAt == Some(p)
    ensures i == End <==> src.failAt != Some(p) && |src.text| <= p
    ensures i.Rune? ==> p < |src.text| && i.c == src.text[p]
  {
    if src.failAt == Some(p) then Failed
    else if p < |src.text| then Rune(src.text[p])
    else End
  }

  /** What Read returns (None is Go's nil record) and where the source stands
      afterwards. */
  datatype ReadResult = ReadResult(record: Option<Record>, err: Err, pos: nat)

  /** What ReadAll returns and where the source stands afterwards. */
  datatype ReadAllResult = ReadAllResult(records: seq<Record>, err: Err, pos: nat)

  /** The leading-newline loop: the position of the first read that does not
      yield '\n'. */
  function SkipNewlines(src: Stream, p: nat): (q: nat)
    requires p <= |src.text|
    ensures p <= q <= |src.text|
    ensures forall i :: p <= i < q ==> Next(src, i) == Rune('\n')
    ensures Next(src, q) != Rune('\n')
    decreases |src.text| - p
  {
    if Next(src, p) == Rune('\n') then SkipNewlines(src, p + 1) else p
  }

  /** The record loop, entered with the rune at p not yet processed:
      `fields` holds the fields closed so far, `field` the one being built,
      `escaping` says whether the previous rune was an unescaped escape. */
  function ScanRecord(cfg: Config, src: Stream, p: nat, escaping: bool,
                      fields: seq<Field>, field: Field): (r: ReadResult)
    requires p <= |src.text|
    ensures p <= r.pos <= |src.text|
    decreases |src.text| - p
  {
    match Next(src, p)
    case Failed => ReadResult(Some(fields + [field]), IOError, p)
    case End => ReadResult(Some(fields + [field]), EOF, p)
    case Rune(c) =>
      if escaping then ScanRecord(cfg, src, p + 1, false, fields, field + [c])
      else if c == cfg.separator then ScanRecord(cfg, src, p + 1, false, fields + [field], [])
      else if c == cfg.escape then ScanRecord(cfg, src, p + 1, true, fields, field)
      else if c == '\n' then ReadResult(Some(fields + [field]), Nil, p + 1)
      else ScanRecord(cfg, src, p + 1, false, fields, field + [c])
  }

  /** One call of Reader.Read starting at position pos. */
  function ReadRecord(cfg: Config, src: Stream, pos: nat): (r: ReadResult)
    requires pos <= |src.text|
    ensures pos <= r.pos <= |src.text|
    ensures r.record.Some? ==> |r.record.value| >= 1
    ensures r.err == EOF ==> r.record.Some? && r.pos == |src.text|
    ensures r.err == IOError ==> src.failAt == Some(r.pos)
    ensures r.err == Nil && r.record.Some? ==> pos < r.pos && src.text[r.pos - 1] == '\n'
    ensures r.err == Nil && r.record.None? ==>
              r.pos == |src.text| && forall i :: pos <= i < |src.text| ==> src.text[i] == '\n'
  {
    var q := SkipNewlines(src, pos);
    match Next(src, q)
    case Failed => ReadResult(None, IOError, q)
    case End =>
      assert forall i :: pos <= i < |src.text| ==> Next(src, i) == Rune('\n') && src.text[i] == '\n';
      ReadResult(None, Nil, q)
    case Rune(_) =>
      ScanRecordOutcome(cfg, src, q, false, [], []);
      ScanRecord(cfg, src, q, false, [], [])
  }

  /** The record loop always returns a record, with at least one field more
      than it had closed on entry; it stops without error only after
      consuming a newline, with io.EOF only at the end of the stream, and with
      any other error only where the source fails. */
  lemma {:induction false} ScanRecordOutcome(cfg: Config, src: Stream, p: nat, escaping: bool,
                                             fields: seq<Field>, field: Field)
    requires p <= |src.text|
    ensures var r := ScanRecord(cfg, src, p, escaping, fields, field);
            && r.record.Some? && |r.record.value| > |fields|
            && (r.err == Nil ==> p < r.pos && src.text[r.pos - 1] == '\n')
            && (r.err == EOF ==> r.pos == |src.text|)
            && (r.err == IOError ==> src.failAt == Some(r.pos))
    decreases |src.text| - p
  {
    match Next(src, p)
    case Failed =>
    case End =>
    case Rune(c) =>
      if escaping {
        ScanRecordOutcome(cfg, src, p + 1, false, fields, field + [c]);
      } else if c == cfg.separator {
        ScanRecordOutcome(cfg, src, p + 1, false, fields + [field], []);
      } else if c == cfg.escape {
        ScanRecordOutcome(cfg, src, p + 1, true, fields, field);
      } else if c != '\n' {
        ScanRecordOutcome(cfg, src, p + 1, false, fields, field + [c]);
      }
  }

  /** The ReadAll loop with the records collected so far in `acc`. */
  function ReadAllFrom(cfg: Config, src: Stream, pos: nat, acc: seq<Record>): (r: ReadAllResult)
    requires pos <= |src.text|
    ensures r.err == Nil || r.err == IOError
    ensures r.err == Nil ==> acc <= r.records && r.pos == |src.text|
    ensures r.err == IOError ==> r.records == [] && src.failAt == Some(r.pos)
    ensures (forall i :: 0 <= i < |acc| ==> |acc[i]| >= 1) ==>
              forall i :: 0 <= i < |r.records| ==> |r.records[i]| >= 1
    decreases |src.text| - pos
  {
    var r := ReadRecord(cfg, src, pos);
    if r.err == EOF then ReadAllResult(acc + [r.record.value], Nil, r.pos)
    else if r.err != Nil then ReadAllResult([], r.err, r.pos)
    else if r.record.None? then ReadAllResult(acc, Nil, r.pos)
    else ReadAllFrom(cfg, src, r.pos, acc + [r.record.value])
  }

  /** ReadAll on a fresh Reader. */
  function ReadAll(cfg: Config, src: Stream): (r: ReadAllResult)
    ensures r.err == Nil || r.err == IOError
    ensures r.err == Nil ==> r.pos == |src.text|
    ensures r.err == IOError ==> r.records == [] && src.failAt == Some(r.pos)
  {
    ReadAllFrom(cfg, src, 0, [])
  }

  // ---------------------------------------------------------------------
  // Properties of the decoder

  /** A leading newline is consumed and changes nothing else. */
  lemma {:induction false} LeadingNewlineSkipped(cfg: Config, src: Stream, pos: nat)
    requires pos < |src.text| && src.text[pos] == '\n' && src.failAt != Some(pos)
    ensures ReadRecord(cfg, src, pos) == ReadRecord(cfg, src, pos + 1)
  {
  }

  /** A source holding only newlines from pos on, and not failing there,
      yields no record and no error, and is left exhausted. */
  lemma {:induction false} OnlyNewlinesYieldNothing(cfg: Config, src: Stream, pos: nat)
    requires pos <= |src.text|
    requires forall i :: pos <= i < |src.text| ==> src.text[i] == '\n'
    requires forall k :: src.failAt == Some(k) ==> k < pos || |src.text| < k
    ensures ReadRecord(cfg, src, pos) == ReadResult(None, Nil, |src.text|)
    decreases |src.text| - pos
  {
    if pos < |src.text| {
      OnlyNewlinesYieldNothing(cfg, src, pos + 1);
      LeadingNewlineSkipped(cfg, src, pos);
    }
  }

  /** A source error met while still skipping newlines yields no record and
      that error. */
  lemma {:induction false} FailureAmongNewlines(cfg: Config, src: Stream, pos: nat, k: nat)
    requires pos <= k <= |src.text| && src.failAt == Some(k)
    requires forall i :: pos <= i < k ==> src.text[i] == '\n'
    ensures ReadRecord(cfg, src, pos) == ReadResult(None, IOError, k)
    decreases k - pos
  {
    if pos < k {
      FailureAmongNewlines(cfg, src, pos + 1, k);
      LeadingNewlineSkipped(cfg, src, pos);
    }
  }

  /** An unescaped escape rune contributes nothing; the rune after it joins
      the field verbatim, whatever it is, and escaping ends. The Reader
      tests the separator first, so this needs the two to differ. */
  lemma {:induction false} EscapedRuneIsLiteral(cfg: Config, src: Stream, p: nat, fields: seq<Field>, field: Field)
    requires cfg.separator != cfg.escape
    requires p + 1 < |src.text| && src.text[p] == cfg.escape
    requires src.failAt != Some(p) && src.failAt != Some(p + 1)
    ensures ScanRecord(cfg, src, p, false, fields, field)
         == ScanRecord(cfg, src, p + 2, false, fields, field + [src.text[p + 1]])
  {
  }

  /** An unescaped separator closes the current field, even an empty one,
      and starts an empty one. */
  lemma {:induction false} SeparatorClosesField(cfg: Config, src: Stream, p: nat, fields: seq<Field>, field: Field)
    requires p < |src.text| && src.text[p] == cfg.separator && src.failAt != Some(p)
    ensures ScanRecord(cfg, src, p, false, fields, field)
         == ScanRecord(cfg, src, p + 1, false, fields + [field], [])
  {
  }

  /** An unescaped newline closes the current field and ends the record
      without error; the newline is consumed and belongs to no field. */
  lemma {:induction false} NewlineEndsRecord(cfg: Config, src: Stream, p: nat, fields: seq<Field>, field: Field)
    requires cfg.separator != '\n' && cfg.escape != '\n'
    requires p < |src.text| && src.text[p] == '\n' && src.failAt != Some(p)
    ensures ScanRecord(cfg, src, p, false, fields, field)
         == ReadResult(Some(fields + [field]), Nil, p + 1)
  {
  }

  /** At the end of the stream the current field, even an empty one, is
      closed and the record comes back with io.EOF; a pending escape is
      dropped without leaving a rune behind. */
  lemma {:induction false} EndClosesField(cfg: Config, src: Stream, escaping: bool, fields: seq<Field>, field: Field)
    requires src.failAt != Some(|src.text|)
    ensures ScanRecord(cfg, src, |src.text|, escaping, fields, field)
         == ReadResult(Some(fields + [field]), EOF, |src.text|)
  {
  }

  /** A source error in the middle of a field of ordinary runes returns the
      fields closed so far and the partial field, together with the error. */
  lemma {:induction false} FailureKeepsPartialField(cfg: Config, src: Stream, p: nat, k: nat,
                                                    fields: seq<Field>, field: Field)
    requires p <= k <= |src.text| && src.failAt == Some(k)
    requires forall i :: p <= i < k ==>
               src.text[i] != cfg.separator && src.text[i] != cfg.escape && src.text[i] != '\n'
    ensures ScanRecord(cfg, src, p, false, fields, field)
         == ReadResult(Some(fields + [field + src.text[p..k]]), IOError, k)
    decreases k - p
  {
    if p < k {
      FailureKeepsPartialField(cfg, src, p + 1, k, fields, field + [src.text[p]]);
      assert field + [src.text[p]] + src.text[p + 1..k] == field + src.text[p..k];
    } else {
      assert src.text[p..k] == [];
      assert field + src.text[p..k] == field;
    }
  }

  /** With a source that never fails, ReadAll never reports an error and
      reads the source to its end. */
  lemma {:induction false} ReadAllOfInfallibleSource(cfg: Config, text: seq<char>)
    ensures ReadAll(cfg, Stream(text, None)).err == Nil
    ensures ReadAll(cfg, Stream(text, None)).pos == |text|
  {
  }

  /** ReadAll of a source that never fails and holds only newlines, the
      empty source among them, returns no record and no error. */
  lemma {:induction false} ReadAllOfOnlyNewlines(cfg: Config, text: seq<char>)
    requires forall i :: 0 <= i < |text| ==> text[i] == '\n'
    ensures ReadAll(cfg, Stream(text, None)) == ReadAllResult([], Nil, |text|)
  {
    OnlyNewlinesYieldNothing(cfg, Stream(text, None), 0);
  }

  /** Every record ReadAll returns has at least one field. */
  lemma {:induction false} ReadAllRecordsAreNonEmpty(cfg: Config, src: Stream)
    ensures forall i :: 0 <= i < |ReadAll(cfg, src).records| ==> |ReadAll(cfg, src).records[i]| >= 1
  {
  }
}
