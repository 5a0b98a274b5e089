/** The Reader type of dsv.go: one record per Read, all remaining records
    per ReadAll, each proved to compute what the functions of Decoding
    say. */
module DsvReader {
  import opened DsvFormat
  import opened Decoding

  class Reader {
    /** The exported Escape and Separator fields; callers may change them
        between calls. */
    var escape: char
    var separator: char
    /** The io.RuneReader, as the runes it will yield and where it fails. */
    const source: Stream
    /** How many runes the source has yielded so far. */
    var pos: nat
    /** The buffer in which Read builds the current field. */
    var field: Field

    /** Between calls the buffer is empty: Read resets it on every return. */
    predicate Valid()
      reads this
    {
      pos <= |source.text| && field == []
    }

    function Settings(): Config
      reads this
    {
      Config(separator, escape)
    }

    /** NewReader: '\\' escapes, ':' separates, nothing is read yet. */
    constructor (src: Stream)
      ensures Valid()
      ensures escape == '\\' && separator == ':'
      ensures source == src && pos == 0
    {
      escape := '\\';
      separator := ':';
      source := src;
      pos := 0;
      field := [];
    }

    /** One ReadRune call on the source: a rune, io.EOF at the end, or the
        source's error. The size result of ReadRune is not modelled. */
    method ReadRune() returns (c: char, err: Err)
      requires pos <= |source.text|
      modifies this`pos
      ensures pos <= |source.text|
      ensures err == Nil <==> Next(source, old(pos)) == Rune(c)
      ensures err == EOF <==> Next(source, old(pos)) == End
      ensures err == IOError <==> Next(source, old(pos)) == Failed
      ensures pos == if err == Nil then old(pos) + 1 else old(pos)
    {
      match Next(source, pos)
      case Rune(r) =>
        c, err := r, Nil;
        pos := pos + 1;
      case End =>
        c, err := '\0', EOF;
      case Failed =>
        c, err := '\0', IOError;
    }

    /** Read: skips leading newlines, then collects fields up to the first
        unescaped newline, the end of the source, or a source error. */
    method Read() returns (fields: Option<Record>, err: Err)
      requires Valid()
      modifies this`pos, this`field
      ensures Valid()
      ensures ReadResult(fields, err, pos) == ReadRecord(Settings(), source, old(pos))
    {
      ghost var start := pos;
      ghost var cfg := Settings();
      var c: char;
      var isEscaping := false;

      // Eliminate leading newlines.
      while true
        invariant start <= pos <= |source.text| && field == []
        invariant SkipNewlines(source, pos) == SkipNewlines(source, start)
        decreases |source.text| - pos
      {
        c, err := ReadRune();
        if err == EOF {
          return None, Nil;
        }
        if err != Nil {
          return None, err;
        }
        if c != '\n' {
          break;
        }
      }

      // Parse the record (all fields up to the first unescaped newline).
      var collected: seq<Field> := [];
      while true
        invariant 1 <= pos <= |source.text|
        invariant Next(source, pos - 1) == Rune(c)
        invariant ScanRecord(cfg, source, pos - 1, isEscaping, collected, field) == ReadRecord(cfg, source, start)
        decreases |source.text| - pos
      {
        if isEscaping {
          field := field + [c];
          isEscaping := false;
        } else if c == separator {
          collected := collected + [field];
          field := [];
        } else if c == escape {
          isEscaping := true;
        } else if c == '\n' {
          collected := collected + [field];
          field := [];
          return Some(collected), Nil;
        } else {
          field := field + [c];
        }
        c, err := ReadRune();
        if err != Nil {
          collected := collected + [field];
          break;
        }
      }
      field := [];
      fields := Some(collected);
    }

    /** ReadAll: Read until no record is left, the source ends inside a
        record, or the source fails; a failure discards every record. */
    method ReadAll() returns (records: seq<Record>, err: Err)
      requires Valid()
      modifies this`pos, this`field
      ensures Valid()
      ensures ReadAllResult(records, err, pos) == ReadAllFrom(Settings(), source, old(pos), [])
    {
      ghost var cfg := Settings();
      records := [];
      while true
        invariant Valid() && Settings() == cfg
        invariant ReadAllFrom(cfg, source, pos, records) == ReadAllFrom(cfg, source, old(pos), [])
        decreases |source.text| - pos
      {
        var record, e := Read();
        if e == EOF {
          return records + [record.value], Nil;
        }
        if e != Nil {
          return [], e;
        }
        if record.None? {
          return records, Nil;
        }
        records := records + [record.value];
      }
    }
  }
}
