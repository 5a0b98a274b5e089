/** The Writer type of dsv.go, writing into a sink that may refuse runes,
    each method proved to deliver a prefix of the encoding that Encoding
    defines: all of it, or as much as the sink took before failing. */
module DsvWriter {
  import opened DsvFormat
  import opened Encoding

  /** What a sink holds after a write, and the write's error. */
  datatype Delivery = Delivery(written: seq<char>, err: Err)

  /** Writing s, rune by rune, into a sink that holds out and accepts runes
      up to capacity (None: without limit). The first rune beyond the
      capacity fails, and so does every rune after it. */
  function Deliver(out: seq<char>, capacity: Option<nat>, s: seq<char>): (d: Delivery)
    requires capacity.Some? ==> |out| <= capacity.value
    ensures d.err == Nil || d.err == IOError
    ensures d.err == Nil <==> d.written == out + s
    ensures d.err == Nil <==> capacity.None? || |out| + |s| <= capacity.value
    ensures d.err == IOError ==> capacity.Some? && |d.written| == capacity.value
  {
    if capacity.None? || |out| + |s| <= capacity.value then Delivery(out + s, Nil)
    else Delivery(out + s[..capacity.value - |out|], IOError)
  }

  /** The sink keeps what it held and gains a prefix of s. */
  lemma {:induction false} DeliverKeepsOrder(out: seq<char>, capacity: Option<nat>, s: seq<char>)
    requires capacity.Some? ==> |out| <= capacity.value
    ensures out <= Deliver(out, capacity, s).written
    ensures Deliver(out, capacity, s).written[|out|..] <= s
  {
    var d := Deliver(out, capacity, s);
    assert d.written[|out|..] == if d.err == Nil then s else s[..capacity.value - |out|];
  }

  /** Writing s then t is writing s + t: t is written after s only if s
      was delivered whole. */
  lemma {:induction false} DeliverConcat(out: seq<char>, capacity: Option<nat>, s: seq<char>, t: seq<char>)
    requires capacity.Some? ==> |out| <= capacity.value
    ensures Deliver(out, capacity, s + t)
         == if Deliver(out, capacity, s).err == Nil then Deliver(out + s, capacity, t)
            else Deliver(out, capacity, s)
  {
    var d := Deliver(out, capacity, s);
    if d.err == Nil {
      var e := Deliver(out + s, capacity, t);
      if e.err == IOError {
        assert (s + t)[..capacity.value - |out|] == s + t[..capacity.value - |out + s|];
      }
    } else {
      assert (s + t)[..capacity.value - |out|] == s[..capacity.value - |out|];
    }
  }

  /** A write that fails leaves the sink as writing any longer text with
      it as a prefix would. */
  lemma {:induction false} DeliverFailedPrefix(out: seq<char>, capacity: Option<nat>, s: seq<char>, whole: seq<char>)
    requires capacity.Some? ==> |out| <= capacity.value
    requires s <= whole && Deliver(out, capacity, s).err == IOError
    ensures Deliver(out, capacity, whole) == Deliver(out, capacity, s)
  {
    assert whole == s + whole[|s|..];
    DeliverConcat(out, capacity, s, whole[|s|..]);
  }

  /** One more piece b after a delivered prefix a of whole: if b is taken
      too, a + b is delivered; if not, the sink is left as writing whole
      would leave it. */
  lemma {:induction false} DeliverStep(out: seq<char>, capacity: Option<nat>, a: seq<char>, b: seq<char>,
                                       whole: seq<char>, mid: seq<char>, d: Delivery)
    requires capacity.Some? ==> |out| <= capacity.value
    requires a + b <= whole
    requires Deliver(out, capacity, a) == Delivery(mid, Nil) && Deliver(mid, capacity, b) == d
    ensures d.err == Nil ==> Deliver(out, capacity, a + b) == d
    ensures d.err != Nil ==> Deliver(out, capacity, whole) == d
  {
    DeliverConcat(out, capacity, a, b);
    if d.err != Nil {
      DeliverFailedPrefix(out, capacity, a + b, whole);
    }
  }

  /** The escaped form of a field grows rune by rune, and each stage is a
      prefix of the whole. */
  lemma {:induction false} EscapeFieldStep(cfg: Config, f: Field, m: nat)
    requires m < |f|
    ensures EscapeField(cfg, f[..m + 1]) == EscapeField(cfg, f[..m]) + EscapeRune(cfg, f[m])
    ensures EscapeField(cfg, f[..m + 1]) <= EscapeField(cfg, f)
  {
    assert f[..m + 1] == f[..m] + [f[m]];
    EscapeFieldAppend(cfg, f[..m], [f[m]]);
    assert EscapeField(cfg, [f[m]]) == EscapeRune(cfg, f[m]) + EscapeField(cfg, []);
    assert f == f[..m + 1] + f[m + 1..];
    EscapeFieldAppend(cfg, f[..m + 1], f[m + 1..]);
  }

  /** The fields before field n and the separator that follows them, if
      any. */
  function Before(cfg: Config, record: Record, n: nat): (s: seq<char>)
    requires n <= |record|
  {
    JoinFields(cfg, record[..n]) + (if n > 0 then [cfg.separator] else [])
  }

  /** Field n is written after Before. */
  lemma {:induction false} JoinFieldsStep(cfg: Config, record: Record, n: nat)
    requires n < |record|
    ensures Before(cfg, record, n) + EscapeField(cfg, record[n]) == JoinFields(cfg, record[..n + 1])
  {
    assert record[..n + 1] == record[..n] + [record[n]];
    JoinFieldsAppend(cfg, record[..n], [record[n]]);
  }

  /** A record's encoding: its first n + 1 fields joined, then the rest. */
  lemma {:induction false} EncodeRecordSplit(cfg: Config, record: Record, n: nat)
    requires n < |record|
    ensures EncodeRecord(cfg, record)
         == JoinFields(cfg, record[..n + 1])
            + ((if n + 1 < |record| then [cfg.separator] else []) + JoinFields(cfg, record[n + 1..]) + ['\n'])
  {
    assert record == record[..n + 1] + record[n + 1..];
    JoinFieldsAppend(cfg, record[..n + 1], record[n + 1..]);
  }

  /** Every stage of Write is a prefix of the record's encoding. */
  lemma {:induction false} WriteStagesArePrefixes(cfg: Config, record: Record, n: nat)
    requires n < |record|
    ensures Before(cfg, record, n) <= EncodeRecord(cfg, record)
    ensures JoinFields(cfg, record[..n + 1]) <= EncodeRecord(cfg, record)
  {
    var whole, upto, before := EncodeRecord(cfg, record), JoinFields(cfg, record[..n + 1]), Before(cfg, record, n);
    EncodeRecordSplit(cfg, record, n);
    assert upto <= whole;
    JoinFieldsStep(cfg, record, n);
    assert before <= upto;
  }

  /** The records written before and by the k-th Write of WriteAll. */
  lemma {:induction false} EncodeAllStep(cfg: Config, records: seq<Record>, k: nat)
    requires k < |records|
    ensures EncodeAll(cfg, records[..k + 1]) == EncodeAll(cfg, records[..k]) + EncodeRecord(cfg, records[k])
    ensures EncodeAll(cfg, records[..k + 1]) <= EncodeAll(cfg, records)
  {
    assert records[..k + 1] == records[..k] + [records[k]];
    EncodeAllAppend(cfg, records[..k], [records[k]]);
    assert EncodeAll(cfg, [records[k]]) == EncodeRecord(cfg, records[k]) + EncodeAll(cfg, []);
    assert records == records[..k + 1] + records[k + 1..];
    EncodeAllAppend(cfg, records[..k + 1], records[k + 1..]);
  }

  class Writer {
    /** The exported Escape and Separator fields. */
    var escape: char
    var separator: char
    /** The runes the sink holds. */
    var out: seq<char>
    /** How many runes the sink accepts before it fails. */
    const capacity: Option<nat>
    /** Whether a write has failed: the bufio.Writer keeps its first error
        and reports it from then on. A failed sink is full. */
    var failed: bool

    predicate Valid()
      reads this
    {
      && (capacity.Some? ==> |out| <= capacity.value)
      && (failed ==> capacity == Some(|out|))
    }

    function Settings(): Config
      reads this
    {
      Config(separator, escape)
    }

    /** NewWriter: '\\' escapes, ':' separates, the sink starts empty. */
    constructor (capacity: Option<nat>)
      ensures Valid()
      ensures escape == '\\' && separator == ':'
      ensures out == [] && this.capacity == capacity && !failed
    {
      escape := '\\';
      separator := ':';
      out := [];
      this.capacity := capacity;
      failed := false;
    }

    /** Error: the error the sink has kept, if any. Without buffering this
        is also what the final Flush of the sink returns. */
    method Error() returns (err: Err)
      ensures err == if failed then IOError else Nil
    {
      err := if failed then IOError else Nil;
    }

    /** One WriteRune (or WriteByte) call on the sink. */
    method WriteRune(c: char) returns (err: Err)
      requires Valid()
      modifies this`out, this`failed
      ensures Valid()
      ensures failed == (old(failed) || err == IOError)
      ensures Delivery(out, err) == Deliver(old(out), capacity, [c])
    {
      if capacity.None? || |out| < capacity.value {
        out := out + [c];
        err := Nil;
      } else {
        err := IOError;
        failed := true;
      }
    }

    /** The escape rune and then c, the second only if the first was
        accepted. */
    method WriteEscaped(c: char) returns (err: Err)
      requires Valid()
      modifies this`out, this`failed
      ensures Valid()
      ensures failed == (old(failed) || err == IOError)
      ensures Delivery(out, err) == Deliver(old(out), capacity, [escape, c])
    {
      err := WriteRune(escape);
      if err == Nil {
        err := WriteRune(c);
      }
      assert [escape] + [c] == [escape, c];
      DeliverConcat(old(out), capacity, [escape], [c]);
    }

    /** The switch in Write for one rune of a field: two runes for the
        escape, the separator and a newline, the rune itself otherwise. */
    method WriteFieldRune(c: char) returns (err: Err)
      requires Valid()
      modifies this`out, this`failed
      ensures Valid()
      ensures failed == (old(failed) || err == IOError)
      ensures Delivery(out, err) == Deliver(old(out), capacity, EscapeRune(Settings(), c))
    {
      if c == escape {
        err := WriteEscaped(escape);
      } else if c == separator {
        err := WriteEscaped(separator);
      } else if c == '\n' {
        err := WriteEscaped('\n');
      } else {
        err := WriteRune(c);
      }
    }

    /** The loop over the runes of one field in Write. */
    method WriteField(field: Field) returns (err: Err)
      requires Valid()
      modifies this`out, this`failed
      ensures Valid()
      ensures failed == (old(failed) || err == IOError)
      ensures Delivery(out, err) == Deliver(old(out), capacity, EscapeField(Settings(), field))
    {
      ghost var cfg := Settings();
      ghost var start := out;
      err := Nil;
      var m := 0;
      while m < |field|
        invariant 0 <= m <= |field| && Valid() && err == Nil
        invariant failed == old(failed)
        invariant Deliver(start, capacity, EscapeField(cfg, field[..m])) == Delivery(out, Nil)
      {
        err := WriteFieldRune(field[m]);
        DeliverConcat(start, capacity, EscapeField(cfg, field[..m]), EscapeRune(cfg, field[m]));
        EscapeFieldStep(cfg, field, m);
        if err != Nil {
          DeliverFailedPrefix(start, capacity, EscapeField(cfg, field[..m + 1]), EscapeField(cfg, field));
          return;
        }
        m := m + 1;
      }
      assert field[..m] == field;
    }

    /** Write: the fields, escaped and separated, then a newline; the
        first refused rune ends the write with the sink's error. */
    method Write(record: Record) returns (err: Err)
      requires Valid()
      modifies this`out, this`failed
      ensures Valid()
      ensures failed == (old(failed) || err == IOError)
      ensures Delivery(out, err) == Deliver(old(out), capacity, EncodeRecord(Settings(), record))
    {
      ghost var cfg := Settings();
      ghost var start := out;
      ghost var whole := EncodeRecord(cfg, record);
      var n := 0;
      while n < |record|
        invariant 0 <= n <= |record| && Valid()
        invariant failed == old(failed)
        invariant Deliver(start, capacity, JoinFields(cfg, record[..n])) == Delivery(out, Nil)
      {
        ghost var done, before := JoinFields(cfg, record[..n]), Before(cfg, record, n);
        ghost var escaped, upto := EscapeField(cfg, record[n]), JoinFields(cfg, record[..n + 1]);
        JoinFieldsStep(cfg, record, n);
        WriteStagesArePrefixes(cfg, record, n);
        if n > 0 {
          ghost var mid := out;
          err := WriteRune(separator);
          DeliverStep(start, capacity, done, [separator], whole, mid, Delivery(out, err));
          if err != Nil {
            return;
          }
        }
        assert Deliver(start, capacity, before) == Delivery(out, Nil);
        ghost var mid := out;
        err := WriteField(record[n]);
        DeliverStep(start, capacity, before, escaped, whole, mid, Delivery(out, err));
        if err != Nil {
          return;
        }
        assert Deliver(start, capacity, upto) == Delivery(out, Nil);
        n := n + 1;
      }
      assert record[..n] == record;
      ghost var mid := out;
      err := WriteRune('\n');
      DeliverStep(start, capacity, JoinFields(cfg, record), ['\n'], whole, mid, Delivery(out, err));
    }

    /** WriteAll: Write per record, stopping at the first error, then the
        sink's Flush, which reports the error the sink has kept: one from
        this call, or an earlier one even when no record is written. */
    method WriteAll(records: seq<Record>) returns (err: Err)
      requires Valid()
      modifies this`out, this`failed
      ensures Valid()
      ensures out == Deliver(old(out), capacity, EncodeAll(Settings(), records)).written
      ensures err == if old(failed) then IOError else Deliver(old(out), capacity, EncodeAll(Settings(), records)).err
      ensures failed == (err == IOError)
    {
      ghost var cfg := Settings();
      ghost var start := out;
      var k := 0;
      while k < |records|
        invariant 0 <= k <= |records| && Valid() && Settings() == cfg
        invariant Deliver(start, capacity, EncodeAll(cfg, records[..k])) == Delivery(out, Nil)
        invariant failed == old(failed) && (old(failed) ==> k == 0)
      {
        err := Write(records[k]);
        DeliverConcat(start, capacity, EncodeAll(cfg, records[..k]), EncodeRecord(cfg, records[k]));
        EncodeAllStep(cfg, records, k);
        if err != Nil {
          DeliverFailedPrefix(start, capacity, EncodeAll(cfg, records[..k + 1]), EncodeAll(cfg, records));
          return;
        }
        k := k + 1;
      }
      assert records[..k] == records;
      err := Error();
    }
  }
}
