/** Shared vocabulary of the DSV codec: records, the configuration that
    Reader and Writer both carry, and the error values they report. */
module DsvFormat {

  datatype Option<+T> = None | Some(value: T)

  /** Go's `error` as the codec distinguishes it: nil, io.EOF, or any other
      failure of the underlying rune reader or writer. */
  datatype Err = Nil | EOF | IOError

  /** A field is a string of runes; a record is a list of fields. */
  type Field = seq<char>
  type Record = seq<Field>

  /** The exported `Separator` and `Escape` runes of a Reader or Writer. */
  datatype Config = Config(separator: char, escape: char)

  /** What NewReader and NewWriter install: ':' separates, '\\' escapes. */
  const DefaultConfig := Config(':', '\\')

  /** The configurations in which separator, escape and newline are three
      different runes; only these make the format unambiguous. */
  predicate WellFormed(cfg: Config) {
    cfg.separator != cfg.escape && cfg.separator != '\n' && cfg.escape != '\n'
  }

  /** The two records the format cannot carry: both are written as a bare
      newline, and the reader skips bare newlines. */
  predicate Blank(r: Record) {
    r == [] || r == [""]
  }
}
