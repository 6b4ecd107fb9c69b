/** The ADIF serializer and the export stream composed from it. */
module AdifSerializer {
  import opened Text
  import opened Utf8
  import opened KeyOrder
  import opened AdifParser

  const EXPORT_HEADER := "<ADIF_VER:5>3.1.4\n<PROGRAMID:5>ollog\n<EOH>\n\n"

  /** `<NAME:LEN>VALUE`, where LEN counts UTF-8 bytes. */
  function PrintField(name: string, value: string): string {
    "<" + name + ":" + PrintNat(|Encode(value)|) + ">" + value
  }

  function PrintFields(names: seq<string>, r: Record): string
    requires forall k | k in names :: k in r
  {
    if names == [] then "" else PrintField(names[0], r[names[0]]) + PrintFields(names[1..], r)
  }

  function PrintRecord(r: Record): string {
    PrintFields(SortedKeys(r.Keys), r) + "<EOR>\n\n"
  }

  function PrintRecords(rs: seq<Record>): string {
    if rs == [] then "" else PrintRecord(rs[0]) + PrintRecords(rs[1..])
  }

  function Serialized(rs: seq<Record>, header: Option<string>): string {
    (if header.Some? then header.value + "\n<EOH>\n\n" else "") + PrintRecords(rs)
  }

  /** `"".join(parts)`. */
  function Join(parts: seq<string>): string {
    if parts == [] then "" else parts[0] + Join(parts[1..])
  }

  lemma {:induction false} JoinAppend(parts: seq<string>, last: string)
    ensures Join(parts + [last]) == Join(parts) + last
  {
    if parts == [] {
      assert parts + [last] == [last] && Join([last][1..]) == "";
    } else {
      assert (parts + [last])[1..] == parts[1..] + [last];
      JoinAppend(parts[1..], last);
    }
  }

  lemma {:induction false} PrintFieldsAppend(names: seq<string>, last: string, r: Record)
    requires last in r && forall k | k in names :: k in r
    ensures PrintFields(names + [last], r) == PrintFields(names, r) + PrintField(last, r[last])
  {
    hide PrintField;
    if names == [] {
      assert names + [last] == [last] && PrintFields([last][1..], r) == "";
    } else {
      assert (names + [last])[1..] == names[1..] + [last];
      PrintFieldsAppend(names[1..], last, r);
    }
  }

  lemma {:induction false} PrintRecordsAppend(rs: seq<Record>, last: Record)
    ensures PrintRecords(rs + [last]) == PrintRecords(rs) + PrintRecord(last)
  {
    hide PrintRecord;
    if rs == [] {
      assert rs + [last] == [last] && PrintRecords([last][1..]) == "";
    } else {
      assert (rs + [last])[1..] == rs[1..] + [last];
      PrintRecordsAppend(rs[1..], last);
    }
  }

  method SerializeAdi(records: seq<Record>, header: Option<string>) returns (text: string)
    ensures text == Serialized(records, header)
  {
    hide PrintRecords, PrintRecord, PrintFields, PrintField, Join, SortedKeys;
    var parts: seq<string> := [];
    JoinTwo("", "");
    PrintNoRecords();
    if header.Some? {
      parts := [header.value, "\n<EOH>\n\n"];
      JoinTwo(header.value, "\n<EOH>\n\n");
    }
    ghost var head := Join(parts);
    for i := 0 to |records|
      invariant Join(parts) == head + PrintRecords(records[..i])
    {
      var names := SortedKeys(records[i].Keys);
      parts := AppendRecord(parts, names, records[i]);
      PrintRecordIs(records[i]);
      PrintRecordsAppend(records[..i], records[i]);
      assert records[..i + 1] == records[..i] + [records[i]];
    }
    assert records[..|records|] == records;
    text := Join(parts);
  }

  /** The inner loop: one record's fields and its end mark go onto the list of parts. */
  method AppendRecord(parts: seq<string>, names: seq<string>, record: Record) returns (longer: seq<string>)
    requires forall k | k in names :: k in record
    ensures Join(longer) == Join(parts) + (PrintFields(names, record) + "<EOR>\n\n")
  {
    hide PrintField, Join;
    longer := parts;
    for j := 0 to |names|
      invariant Join(longer) == Join(parts) + PrintFields(names[..j], record)
    {
      var field := PrintField(names[j], record[names[j]]);
      JoinAppend(longer, field);
      PrintFieldsAppend(names[..j], names[j], record);
      assert names[..j + 1] == names[..j] + [names[j]];
      longer := longer + [field];
    }
    assert names[..|names|] == names;
    JoinAppend(longer, "<EOR>\n\n");
    longer := longer + ["<EOR>\n\n"];
  }

  lemma JoinTwo(a: string, b: string)
    ensures Join([]) == "" && Join([a, b]) == a + b
  {
    assert [a, b][1..] == [b] && [b][1..] == [];
  }

  lemma PrintRecordIs(r: Record)
    ensures PrintRecord(r) == PrintFields(SortedKeys(r.Keys), r) + "<EOR>\n\n"
  {
  }

  lemma PrintNoRecords()
    ensures PrintRecords([]) == ""
  {
  }

  /** The export endpoint's pieces: the header, then each record serialized on its own. */
  method ExportPieces(records: seq<Record>) returns (pieces: seq<string>)
    ensures Join(pieces) == EXPORT_HEADER + PrintRecords(records)
  {
    hide PrintRecord;
    pieces := [EXPORT_HEADER];
    assert Join(pieces[1..]) == "";
    for i := 0 to |records|
      invariant Join(pieces) == EXPORT_HEADER + PrintRecords(records[..i])
    {
      var piece := SerializeAdi([records[i]], None);
      assert PrintRecords([records[i]][1..]) == "";
      JoinAppend(pieces, piece);
      PrintRecordsAppend(records[..i], records[i]);
      assert records[..i + 1] == records[..i] + [records[i]];
      pieces := pieces + [piece];
    }
    assert records[..|records|] == records;
  }
}
