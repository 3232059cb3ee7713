/** The parsed inputs of a batch run: the credentials record, the manifest
    document and its entries, and the two startup guards that decide whether
    any entry is processed at all. Reading and parsing the JSON files is not
    part of this model; these are the values the parser hands over. */
module Config {

  /** The "femalevoice" record of the credentials file, its speaker id
      already normalised to a string. */
  datatype Credentials = Credentials(apiKey: string, speakerId: string)

  /** Startup guard on the credentials: an empty API key stops the run. */
  predicate ApiKeyAccepted(c: Credentials): (ok: bool)
    ensures ok <==> |c.apiKey| > 0
  {
    c.apiKey != ""
  }

  /** The value stored under one manifest key: either a record (JSON object)
      with string-valued fields, or anything else (a string, a number, a list,
      null), which cannot be indexed by field name. */
  datatype EntryValue = Record(fields: map<string, string>) | NotRecord

  /** The top-level manifest document: a JSON object, kept as its items in
      iteration (insertion) order, or any other JSON value. */
  datatype ManifestDoc = Dict(items: seq<(string, EntryValue)>) | NotDict

  /** Startup guard on the manifest: it must be a dictionary and not be empty. */
  predicate ManifestAccepted(m: ManifestDoc): (ok: bool)
    ensures ok <==> m.Dict? && exists item :: item in m.items
  {
    if m.Dict? && |m.items| > 0 then
      assert m.items[0] in m.items;
      true
    else
      false
  }

  /** A well-formed synthesis request: the text to speak and the output file name. */
  datatype Request = Request(text: string, wavName: string)

  /** Why an entry was rejected: it is not a record, or a required field is absent. */
  datatype Malformation = NotARecord | MissingField(field: string)

  datatype Parsed = Valid(req: Request) | Malformed(why: Malformation)

  const ContextField: string := "context"
  const WavNameField: string := "wavName"

  /** Extracts the two required fields of an entry. "context" is looked up
      before "wavName", so an entry lacking both is reported as lacking
      "context". */
  function ParseEntry(v: EntryValue): (p: Parsed)
    ensures p.Valid? <==> v.Record? && ContextField in v.fields && WavNameField in v.fields
    ensures p.Valid? ==> p.req.text == v.fields[ContextField] && p.req.wavName == v.fields[WavNameField]
    ensures p == Malformed(NotARecord) <==> v.NotRecord?
    ensures p == Malformed(MissingField(ContextField)) <==> v.Record? && ContextField !in v.fields
  {
    match v
    case NotRecord => Malformed(NotARecord)
    case Record(fields) =>
      if ContextField !in fields then Malformed(MissingField(ContextField))
      else if WavNameField !in fields then Malformed(MissingField(WavNameField))
      else Valid(Request(fields[ContextField], fields[WavNameField]))
  }
}
