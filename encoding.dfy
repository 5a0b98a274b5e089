/** The encoder as pure functions: the text Writer.Write and Writer.WriteAll
    emit when the sink accepts everything. */
module Encoding {
  import opened DsvFormat

  /** How Write emits one rune of a field: the escape rune, the separator
      and a newline are prefixed by the escape rune, any other rune stands
      for itself. The escape rune is tested first, then the separator. */
  function EscapeRune(cfg: Config, c: char): (s: seq<char>)
    ensures 1 <= |s| <= 2 && s[|s| - 1] == c
    ensures |s| == 2 <==> c == cfg.escape || c == cfg.separator || c == '\n'
    ensures |s| == 2 ==> s[0] == cfg.escape
  {
    if c == cfg.escape then [cfg.escape, cfg.escape]
    else if c == cfg.separator then [cfg.escape, cfg.separator]
    else if c == '\n' then [cfg.escape, '\n']
    else [c]
  }

  /** The escaped form of one field. */
  function EscapeField(cfg: Config, f: Field): (s: seq<char>)
    ensures |f| <= |s| <= 2 * |f|
    ensures |s| == 0 <==> |f| == 0
  {
    if f == [] then [] else EscapeRune(cfg, f[0]) + EscapeField(cfg, f[1..])
  }

  /** The fields of a record, escaped and joined by the separator. Its
      laws are JoinFieldsAppend, BareNewlineExactlyForBlank and, in
      DsvWriter, JoinFieldsStep. */
  function JoinFields(cfg: Config, fields: seq<Field>): (s: seq<char>) {
    if |fields| == 0 then []
    else if |fields| == 1 then EscapeField(cfg, fields[0])
    else EscapeField(cfg, fields[0]) + [cfg.separator] + JoinFields(cfg, fields[1..])
  }

  /** What Write emits for one record: the joined fields and one newline. */
  function EncodeRecord(cfg: Config, r: Record): (s: seq<char>)
    ensures |s| >= 1 && s[|s| - 1] == '\n'
  {
    JoinFields(cfg, r) + ['\n']
  }

  /** What WriteAll emits: each record's encoding, in order. */
  function EncodeAll(cfg: Config, rs: seq<Record>): (s: seq<char>)
    ensures |s| >= |rs|
  {
    if rs == [] then [] else EncodeRecord(cfg, rs[0]) + EncodeAll(cfg, rs[1..])
  }

  // ---------------------------------------------------------------------
  // Properties of the encoder

  /** Escaping distributes over concatenation: fields are escaped rune by
      rune, independently of their neighbours. */
  lemma {:induction false} EscapeFieldAppend(cfg: Config, a: Field, b: Field)
    ensures EscapeField(cfg, a + b) == EscapeField(cfg, a) + EscapeField(cfg, b)
  {
    if a == [] {
      assert a + b == b;
    } else {
      assert (a + b)[0] == a[0];
      assert (a + b)[1..] == a[1..] + b;
      EscapeFieldAppend(cfg, a[1..], b);
    }
  }

  /** Joining two lists of fields puts one separator between them when
      both are non-empty. */
  lemma {:induction false} JoinFieldsAppend(cfg: Config, a: seq<Field>, b: seq<Field>)
    ensures JoinFields(cfg, a + b)
         == JoinFields(cfg, a) + (if |a| > 0 && |b| > 0 then [cfg.separator] else []) + JoinFields(cfg, b)
    decreases |a|
  {
    if |a| == 0 {
      assert a + b == b;
    } else if |a| == 1 {
      if |b| > 0 {
        assert (a + b)[0] == a[0] && (a + b)[1..] == b;
      } else {
        assert a + b == a;
      }
    } else {
      assert (a + b)[0] == a[0] && (a + b)[1..] == a[1..] + b;
      JoinFieldsAppend(cfg, a[1..], b);
    }
  }

  /** Encoding a list of records is the concatenation of the encodings of
      its parts. */
  lemma {:induction false} EncodeAllAppend(cfg: Config, a: seq<Record>, b: seq<Record>)
    ensures EncodeAll(cfg, a + b) == EncodeAll(cfg, a) + EncodeAll(cfg, b)
  {
    if a == [] {
      assert a + b == b;
    } else {
      assert (a + b)[0] == a[0] && (a + b)[1..] == a[1..] + b;
      EncodeAllAppend(cfg, a[1..], b);
    }
  }

  /** A field without special runes is written as it is. */
  lemma {:induction false} EscapeFieldOfPlain(cfg: Config, f: Field)
    requires cfg.escape !in f && cfg.separator !in f && '\n' !in f
    ensures EscapeField(cfg, f) == f
  {
    if f != [] {
      assert f == [f[0]] + f[1..];
      EscapeFieldOfPlain(cfg, f[1..]);
    }
  }

  /** Only the two blank records are written as a bare newline: a record
      with two or more fields writes a separator, and a non-empty field
      writes at least one rune. */
  lemma {:induction false} BareNewlineExactlyForBlank(cfg: Config, r: Record)
    ensures EncodeRecord(cfg, r) == ['\n'] <==> Blank(r)
  {
    if |r| >= 2 {
      assert JoinFields(cfg, r)[|EscapeField(cfg, r[0])|] == cfg.separator;
    }
  }

  /** A record that is not blank starts with a rune that is not a newline,
      which is why the reader does not take its first rune for a leading
      newline. */
  lemma {:induction false} FirstRuneOfNonBlank(cfg: Config, r: Record)
    requires WellFormed(cfg) && !Blank(r)
    ensures |JoinFields(cfg, r)| > 0 && JoinFields(cfg, r)[0] != '\n'
  {
    if |r[0]| > 0 {
      assert EscapeField(cfg, r[0])[0] == EscapeRune(cfg, r[0][0])[0];
    } else {
      assert |r| >= 2;
      assert EscapeField(cfg, r[0]) == [];
    }
  }
}
