/** ACLog messages: commands and their fields, and the full records of a LIST or SEARCH response. */
module AclogParser {
  import opened Text
  import opened AclogTags

  type Record = map<string, string>

  /** A Python dict of strings: names once each, in order of first insertion. */
  type Fields = seq<Tag>

  function Put(d: Fields, name: string, value: string): Fields {
    if d == [] then [Tag(name, value)]
    else if d[0].name == name then [Tag(name, value)] + d[1..]
    else [d[0]] + Put(d[1..], name, value)
  }

  /** `dict(pairs)`. */
  function DictOf(pairs: seq<Tag>): Fields {
    if pairs == [] then []
    else
      var last := pairs[|pairs| - 1];
      Put(DictOf(pairs[..|pairs| - 1]), last.name, last.value)
  }

  function Lookup(d: Fields, name: string): Option<string> {
    if d == [] then None
    else if d[0].name == name then Some(d[0].value)
    else Lookup(d[1..], name)
  }

  const FULL_RECORD_COMMANDS: set<string> := {"LIST", "LISTRESPONSE", "SEARCH", "SEARCHRESPONSE"}
  const WRAPPERS: set<string> := {"CONTACT", "QSO", "RECORD"}
  const FULL_RECORD_SKIP: set<string> := {
    "COUNT", "ERROR", "INDEX", "MODETEST", "QSOCOUNT", "RECORD", "RECORDS", "RESULT", "STATUS"
  }

  function Alias(key: string): string {
    if key == "DATE" || key == "DATESTR" then "QSO_DATE"
    else if key == "FREQUENCY" then "FREQ"
    else if key == "RSTS" then "RST_SENT"
    else if key == "RSTR" then "RST_RCVD"
    else if key == "TIMEON" || key == "TIMEONSTR" || key == "TIME_ON_STR" then "TIME_ON"
    else key
  }

  function Digits(s: string): string {
    if s == "" then "" else (if Digit(s[0]) then [s[0]] else "") + Digits(s[1..])
  }

  function NormalizeDate(value: string): Option<string> {
    var digits := Digits(value);
    if |digits| == 8 then Some(digits) else None
  }

  function NormalizeTime(value: string): Option<string> {
    var digits := Digits(value);
    if |digits| == 4 then Some(digits + "00") else if |digits| == 6 then Some(digits) else None
  }

  function NormalizeBand(value: string): Option<string> {
    var band := Upper(Strip(value));
    if band == "" then None else Some(if band[|band| - 1] == 'M' then band else band + "M")
  }

  /** The value under its ADIF name; empty when it is blank. */
  function NormalizeValue(dest: string, value: string): string {
    var v := Strip(value);
    if dest == "QSO_DATE" then NormalizeDate(v).GetOr(v)
    else if dest == "TIME_ON" then NormalizeTime(v).GetOr(v)
    else v
  }

  function WithBand(r: Record): Record {
    if "BAND" in r && NormalizeBand(r["BAND"]).Some? then r["BAND" := NormalizeBand(r["BAND"]).value] else r
  }

  /** One field of a full record. */
  function AddField(r: Record, f: Tag): Record {
    var key := Upper(Strip(f.name));
    if f.value == "" || key in FULL_RECORD_SKIP || !Name(key) then r
    else
      var dest := Alias(key);
      var v := NormalizeValue(dest, f.value);
      if v == "" then r else r[dest := v]
  }

  function AddFields(fields: Fields): Record {
    if fields == [] then map[] else AddField(AddFields(fields[..|fields| - 1]), fields[|fields| - 1])
  }

  /** `aclog_full_record_to_adif`. */
  function ToAdif(fields: Fields): Record {
    WithBand(AddFields(fields))
  }

  method FullRecordToAdif(fields: Fields) returns (result: Record)
    ensures result == ToAdif(fields)
  {
    hide NormalizeValue, NormalizeBand, Alias, FULL_RECORD_SKIP, Strip;
    result := map[];
    for i := 0 to |fields|
      invariant result == AddFields(fields[..i])
    {
      assert fields[..i + 1][..i] == fields[..i];
      var key, value := Upper(Strip(fields[i].name)), fields[i].value;
      if value == "" || key in FULL_RECORD_SKIP {
        continue;
      }
      if !Name(key) {
        continue;
      }
      var dest := Alias(key);
      var normalized := NormalizeValue(dest, value);
      if normalized != "" {
        result := result[dest := normalized];
      }
    }
    assert fields[..|fields|] == fields;
    if "BAND" in result {
      var band := NormalizeBand(result["BAND"]);
      if band.Some? {
        result := result["BAND" := band.value];
      }
    }
  }

  // ---------- commands ----------

  function FindLastClose(s: string, upper: string): (i: Option<nat>)
    ensures i.Some? ==> i.value + |upper| + 3 <= |s|
  {
    if s == "" then None
    else match FindLastClose(s[1..], upper)
         case Some(i) => Some(i + 1)
         case None => if CloseHere(s, upper) then Some(0) else None
  }

  /** What the first `<CMD>` that is closed encloses. */
  function CommandText(message: string): Option<string> {
    match FindOpen(message, "CMD")
    case None => None
    case Some(i) =>
      var rest := message[i + 5..];
      match FindClose(rest, "CMD")
      case None => None
      case Some(j) => Some(rest[..j])
  }

  /** From the first opening tag of the command to its last closing tag. */
  function Enclosed(body: string, command: string): Option<string> {
    match FindOpen(body, command)
    case None => None
    case Some(i) =>
      var rest := body[i + |command| + 2..];
      match FindLastClose(rest, command)
      case None => None
      case Some(j) => Some(rest[..j])
  }

  datatype Command = NoCommand | Command(name: string, body: string)

  /** `_command_and_field_body`. */
  function CommandAndBody(message: string): Command {
    match CommandText(message)
    case None => NoCommand
    case Some(body) =>
      match OpeningName(StripLeft(body))
      case None => NoCommand
      case Some(first) => Command(Upper(first), Enclosed(body, Upper(first)).GetOr(body))
  }

  function NotNamed(tags: seq<Tag>, name: string): seq<Tag> {
    if tags == [] then []
    else (if tags[0].name == name then [] else [tags[0]]) + NotNamed(tags[1..], name)
  }

  datatype Parsed = Unknown | Parsed(command: string, fields: Fields)

  /** `parse_cmd`. */
  function ParseCmd(message: string): Parsed {
    match CommandAndBody(message)
    case NoCommand => Unknown
    case Command(name, body) => Parsed(name, DictOf(NotNamed(Leaves(body), name)))
  }

  // ---------- the records of a response ----------

  function WrappedBodies(tags: seq<Tag>): seq<string> {
    if tags == [] then []
    else (if Upper(Strip(tags[0].name)) in WRAPPERS then [tags[0].value] else []) + WrappedBodies(tags[1..])
  }

  function RecordsOfBodies(bodies: seq<string>): seq<Record> {
    if bodies == [] then [] else Kept(ToAdif(DictOf(Leaves(bodies[0])))) + RecordsOfBodies(bodies[1..])
  }

  /** The fields from here to the next CALL, after `current`. */
  function FlatFrom(tags: seq<Tag>, command: string, current: Fields): seq<Record> {
    if tags == [] then Kept(ToAdif(current))
    else
      var key, value := Upper(Strip(tags[0].name)), tags[0].value;
      if key == command || key in FULL_RECORD_SKIP then FlatFrom(tags[1..], command, current)
      else if Alias(key) == "CALL" && Lookup(current, "CALL").GetOr("") != "" then
        Kept(ToAdif(current)) + FlatFrom(tags[1..], command, Put([], key, value))
      else FlatFrom(tags[1..], command, Put(current, key, value))
  }

  function RecordsOfBody(command: string, body: string): seq<Record> {
    var bodies := WrappedBodies(FindTags(body));
    if bodies != [] then RecordsOfBodies(bodies) else FlatFrom(Leaves(body), command, [])
  }

  /** `aclog_full_records_from_message`. */
  function FullRecords(message: string): (Option<string>, seq<Record>) {
    match CommandAndBody(message)
    case NoCommand => (None, [])
    case Command(name, body) =>
      (Some(name), if name in FULL_RECORD_COMMANDS then RecordsOfBody(name, body) else [])
  }

  lemma RecordsAssoc(a: seq<Record>, b: seq<Record>, c: seq<Record>)
    ensures a + b + c == a + (b + c)
  {
  }

  /** The loop over wrapped record bodies. */
  method WrappedRecords(bodies: seq<string>) returns (records: seq<Record>)
    ensures records == RecordsOfBodies(bodies)
  {
    hide Leaves, ToAdif, DictOf;
    records := [];
    assert bodies[0..] == bodies;
    for i := 0 to |bodies|
      invariant records + RecordsOfBodies(bodies[i..]) == RecordsOfBodies(bodies)
    {
      assert bodies[i..][1..] == bodies[i + 1..];
      var leaves := ExtractLeaves(bodies[i]);
      var record := FullRecordToAdif(DictOf(leaves));
      RecordsAssoc(records, Kept(record), RecordsOfBodies(bodies[i + 1..]));
      if record != map[] {
        records := records + [record];
      }
    }
  }

  lemma FlatStep(tags: seq<Tag>, i: nat, command: string, current: Fields)
    requires i < |tags|
    ensures var key, value := Upper(Strip(tags[i].name)), tags[i].value;
            FlatFrom(tags[i..], command, current) ==
            (if key == command || key in FULL_RECORD_SKIP then FlatFrom(tags[i + 1..], command, current)
             else if Alias(key) == "CALL" && Lookup(current, "CALL").GetOr("") != "" then
               Kept(ToAdif(current)) + FlatFrom(tags[i + 1..], command, Put([], key, value))
             else FlatFrom(tags[i + 1..], command, Put(current, key, value)))
  {
    hide ToAdif, Alias, Put, Lookup, Strip, FULL_RECORD_SKIP;
    assert tags[i..][1..] == tags[i + 1..];
  }

  lemma FlatEnd(command: string, current: Fields)
    ensures FlatFrom([], command, current) == Kept(ToAdif(current))
  {
    hide ToAdif;
  }

  /** The loop over flat fields: a new CALL starts a record. */
  method FlatRecords(tags: seq<Tag>, command: string) returns (records: seq<Record>)
    ensures records == FlatFrom(tags, command, [])
  {
    hide ToAdif, Alias, Put, Lookup, Strip, FULL_RECORD_SKIP, FlatFrom;
    records := [];
    var current: Fields := [];
    assert tags[0..] == tags;
    for i := 0 to |tags|
      invariant records + FlatFrom(tags[i..], command, current) == FlatFrom(tags, command, [])
    {
      FlatStep(tags, i, command, current);
      var key := Upper(Strip(tags[i].name));
      if key == command || key in FULL_RECORD_SKIP {
        continue;
      }
      if Alias(key) == "CALL" && Lookup(current, "CALL").GetOr("") != "" {
        var record := FullRecordToAdif(current);
        RecordsAssoc(records, Kept(record), FlatFrom(tags[i + 1..], command, Put([], key, tags[i].value)));
        if record != map[] {
          records := records + [record];
        }
        current := [];
      }
      current := Put(current, key, tags[i].value);
    }
    assert tags[|tags|..] == [];
    FlatEnd(command, current);
    var record := FullRecordToAdif(current);
    if record != map[] {
      records := records + [record];
    }
  }

  method FullRecordsFromMessage(message: string) returns (command: Option<string>, records: seq<Record>)
    ensures (command, records) == FullRecords(message)
  {
    hide Leaves, FindTags, CommandAndBody, FlatFrom, RecordsOfBodies, WrappedBodies, FULL_RECORD_COMMANDS;
    var parsed := CommandAndBody(message);
    if parsed.NoCommand? {
      return None, [];
    }
    var Command(name, body) := parsed;
    if name !in FULL_RECORD_COMMANDS {
      return Some(name), [];
    }
    command := Some(name);
    var bodies := WrappedBodies(FindTags(body));
    if bodies != [] {
      records := WrappedRecords(bodies);
    } else {
      var tags := ExtractLeaves(body);
      records := FlatRecords(tags, name);
    }
  }
}
