/** A reader for comma-separated values following the field rules of
    section 2 of RFC 4180, with two differences: records are separated by a
    single line feed rather than CRLF, and an unquoted field may hold any
    character other than a comma, a line feed or a double quote (the RFC's
    TEXTDATA admits only printable ASCII, so a carriage return, a control
    character or a non-ASCII character would have to be quoted there). It
    is the independent reference
    definition against which the exporter in FileUtils is proved.

    The reader is strict: it returns None on an unterminated quoted field,
    on anything other than a comma, a line feed or the end of input after a
    closing quote, and on a double quote inside an unquoted field (rule 5 of
    section 2). */
module CsvReader {
  import opened Wrappers

  /** Reads the body of a quoted field, the opening quote already consumed.
      A doubled quote stands for one quote; a lone quote closes the field.
      Returns the field's text and what follows the closing quote. */
  function ParseQuoted(s: string): (r: Option<(string, string)>)
    ensures r.Some? ==> |r.value.1| < |s|
    decreases |s|
  {
    if s == [] then None
    else if s[0] == '"' then
      if |s| > 1 && s[1] == '"' then
        match ParseQuoted(s[2..])
        case None => None
        case Some((f, rest)) => Some(("\"" + f, rest))
      else Some(([], s[1..]))
    else
      match ParseQuoted(s[1..])
      case None => None
      case Some((f, rest)) => Some(([s[0]] + f, rest))
  }

  /** Reads an unquoted field: everything up to the next comma, line feed or
      the end of input. A double quote inside it is malformed. */
  function ParseUnquoted(s: string): (r: Option<(string, string)>)
    ensures r.Some? ==> |r.value.1| <= |s|
    ensures r.Some? ==> r.value.1 == [] || r.value.1[0] == ',' || r.value.1[0] == '\n'
    decreases |s|
  {
    if s == [] || s[0] == ',' || s[0] == '\n' then Some(([], s))
    else if s[0] == '"' then None
    else
      match ParseUnquoted(s[1..])
      case None => None
      case Some((f, rest)) => Some(([s[0]] + f, rest))
  }

  /** Reads one field, quoted or not; on success what follows is empty or
      starts with the next separator. */
  function ParseField(s: string): (r: Option<(string, string)>)
    ensures r.Some? ==> |r.value.1| <= |s|
    ensures r.Some? ==> r.value.1 == [] || r.value.1[0] == ',' || r.value.1[0] == '\n'
  {
    if s != [] && s[0] == '"' then
      match ParseQuoted(s[1..])
      case None => None
      case Some((f, rest)) =>
        if rest == [] || rest[0] == ',' || rest[0] == '\n' then Some((f, rest)) else None
    else ParseUnquoted(s)
  }

  /** Reads the fields of one record; what follows is empty or starts with
      the line feed that ends the record. A record has at least one field. */
  function ParseRecord(s: string): (r: Option<(seq<string>, string)>)
    ensures r.Some? ==> |r.value.0| >= 1 && |r.value.1| <= |s|
    ensures r.Some? ==> r.value.1 == [] || r.value.1[0] == '\n'
    decreases |s|
  {
    match ParseField(s)
    case None => None
    case Some((f, rest)) =>
      if rest != [] && rest[0] == ',' then
        match ParseRecord(rest[1..])
        case None => None
        case Some((fs, rest')) => Some(([f] + fs, rest'))
      else Some(([f], rest))
  }

  /** Reads a whole document as a sequence of records. */
  function ParseCsv(s: string): (r: Option<seq<seq<string>>>)
    ensures r.Some? ==> |r.value| >= 1
    ensures r.Some? ==> forall i :: 0 <= i < |r.value| ==> |r.value[i]| >= 1
    decreases |s|
  {
    match ParseRecord(s)
    case None => None
    case Some((rec, rest)) =>
      if rest == [] then Some([rec])
      else
        match ParseCsv(rest[1..])
        case None => None
        case Some(recs) => Some([rec] + recs)
  }
}
