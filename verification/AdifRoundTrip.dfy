/** What the parser makes of the serializer's output. */
module AdifRoundTrip {
  import opened Text
  import opened Utf8
  import opened KeyOrder
  import opened AdifParser
  import opened AdifSerializer

  ghost predicate LegalNames(r: Record) {
    forall k :: k in r ==> LegalName(k)
  }

  function NonEmpty(rs: seq<Record>): seq<Record> {
    if rs == [] then [] else Kept(rs[0]) + NonEmpty(rs[1..])
  }

  // ---------- scanning one printed piece ----------

  lemma {:induction false} FindSkips(junk: string, tail: string, c: char)
    requires c !in junk
    ensures Find(junk + tail, c) == |junk| + Find(tail, c)
  {
    if junk == "" {
      assert junk + tail == tail;
    } else {
      assert (junk + tail)[1..] == junk[1..] + tail;
      FindSkips(junk[1..], tail, c);
    }
  }

  /** Text between tags is skipped. */
  lemma ScanSkips(junk: string, tail: string, p: Progress)
    requires '<' !in junk
    ensures Scan(junk + tail, p) == Scan(tail, p)
  {
    hide Find, Step;
    FindSkips(junk, tail, '<');
    var k := Find(tail, '<');
    assert (junk + tail)[|junk| + k..] == tail[k..];
    assert NextTag(junk + tail) == NextTag(tail);
  }

  lemma NextTagOfTag(content: string, after: string)
    requires '>' !in content
    ensures NextTag("<" + content + ">" + after) == Some(Tag(content, after))
  {
    var rest := "<" + content + ">" + after;
    FindAt("", '<', content + ">" + after);
    FindAt("<" + content, '>', after);
    hide Find;
    assert rest == "" + ['<'] + (content + ">" + after);
    assert rest == "<" + content + ['>'] + after;
    assert rest[0..] == rest && rest[1..|content| + 1] == content && rest[|content| + 2..] == after;
  }

  lemma ScanTagText(content: string, after: string, p: Progress)
    requires '>' !in content
    ensures var s := Step(Tag(content, after), p);
            Scan("<" + content + ">" + after, p) == Scan(s.0, s.1)
  {
    NextTagOfTag(content, after);
    hide NextTag, Step;
  }

  lemma SplitPair(a: string, b: string)
    requires ':' !in a && ':' !in b
    ensures Split(a + ":" + b, ':') == [a, b]
  {
    var s := a + ":" + b;
    FindAt(a, ':', b);
    hide Find;
    assert s == a + [':'] + b;
    assert s[..|a|] == a && s[|a| + 1..] == b;
    assert Split(b, ':') == [b];
  }

  lemma NotAControlTag(a: string, b: string)
    ensures Upper(a + ":" + b) != "EOH" && Upper(a + ":" + b) != "EOR"
  {
    assert Upper(a + ":" + b)[|a|] == ':';
    assert ':' !in "EOH" && ':' !in "EOR";
  }

  lemma ClassifyField(name: string, n: nat)
    requires LegalName(name)
    ensures Classify(name + ":" + PrintNat(n)) == Field(name, n)
    ensures '>' !in name + ":" + PrintNat(n)
  {
    ParsePrint(n);
    NotAControlTag(name, PrintNat(n));
    SplitPair(name, PrintNat(n));
    hide Split, Upper, ParseInt, PrintNat;
  }

  function WithField(p: Progress, name: string, value: string): Progress {
    if p.inHeader then p else p.(current := p.current[name := value])
  }

  lemma StepField(tag: Tag, name: string, n: nat, p: Progress)
    requires Classify(tag.content) == Field(name, n)
    ensures var v := FieldValue(tag.after, n);
            Step(tag, p) == (tag.after[|v|..], WithField(p, name, v))
  {
    hide Classify, FieldValue;
  }

  lemma Regroup(name: string, digits: string, value: string, tail: string)
    ensures "<" + name + ":" + digits + ">" + value + tail == "<" + (name + ":" + digits) + ">" + (value + tail)
    ensures (value + tail)[|value|..] == tail
  {
  }

  lemma ScanField(name: string, value: string, tail: string, p: Progress)
    requires LegalName(name)
    ensures Scan(PrintField(name, value) + tail, p) == Scan(tail, WithField(p, name, value))
  {
    var n := |Encode(value)|;
    var content := name + ":" + PrintNat(n);
    ClassifyField(name, n);
    FieldValueExact(value, tail);
    hide Classify, FieldValue, Scan, LegalName, PrintNat, Encode;
    ScanTagText(content, value + tail, p);
    StepField(Tag(content, value + tail), name, n, p);
    hide Step;
    Regroup(name, PrintNat(n), value, tail);
  }

  function WithEndOfRecord(p: Progress): Progress {
    var keep := !p.inHeader && p.current != map[];
    p.(records := if keep then p.records + [p.current] else p.records,
       current := if keep then map[] else p.current,
       index := p.index + 1)
  }

  lemma ControlTags()
    ensures Classify("EOR") == EndOfRecord && Classify("EOH") == EndOfHeader
  {
    assert Upper("EOR") == "EOR" && Upper("EOH") == "EOH";
  }

  lemma ScanEndOfRecord(tail: string, p: Progress)
    ensures Scan("<EOR>\n\n" + tail, p) == Scan(tail, WithEndOfRecord(p))
  {
    hide Scan, Classify;
    var after := "\n\n" + tail;
    ControlTags();
    assert Step(Tag("EOR", after), p) == (after, WithEndOfRecord(p));
    hide Step;
    ScanTagText("EOR", after, p);
    ScanSkips("\n\n", tail, WithEndOfRecord(p));
    assert "<EOR>\n\n" == "<" + "EOR" + ">" + "\n\n";
    assert "<EOR>\n\n" + tail == "<" + "EOR" + ">" + after;
  }

  function Fields(names: seq<string>, r: Record): Record
    requires forall k | k in names :: k in r
  {
    map k | k in names :: r[k]
  }

  lemma FieldsCons(names: seq<string>, r: Record, current: Record)
    requires names != [] && forall k | k in names :: k in r
    ensures current[names[0] := r[names[0]]] + Fields(names[1..], r) == current + Fields(names, r)
  {
  }

  function WithFields(p: Progress, fields: Record): Progress {
    if p.inHeader then p else p.(current := p.current + fields)
  }

  lemma {:induction false} ScanFields(names: seq<string>, r: Record, tail: string, p: Progress)
    requires forall k | k in names :: k in r && LegalName(k)
    ensures Scan(PrintFields(names, r) + tail, p) == Scan(tail, WithFields(p, Fields(names, r)))
  {
    hide Scan, PrintField, LegalName;
    if names == [] {
      assert PrintFields(names, r) + tail == tail;
      assert p.current + map[] == p.current;
      assert Fields(names, r) == map[];
    } else {
      var name, more := names[0], PrintFields(names[1..], r) + tail;
      var q := WithField(p, name, r[name]);
      assert PrintFields(names, r) + tail == PrintField(name, r[name]) + more;
      ScanField(name, r[name], more, p);
      ScanFields(names[1..], r, tail, q);
      FieldsCons(names, r, p.current);
    }
  }

  function WithRecord(p: Progress, r: Record): Progress {
    p.(records := if p.inHeader then p.records else p.records + Kept(r), index := p.index + 1)
  }

  lemma RecordEffect(p: Progress, r: Record)
    requires p.current == map[]
    ensures WithEndOfRecord(WithFields(p, r)) == WithRecord(p, r)
  {
    assert map[] + r == r;
    assert p.records + [] == p.records;
  }

  lemma ScanRecord(r: Record, tail: string, p: Progress)
    requires LegalNames(r) && p.current == map[]
    ensures Scan(PrintRecord(r) + tail, p) == Scan(tail, WithRecord(p, r))
  {
    var names := SortedKeys(r.Keys);
    assert Fields(names, r) == r;
    PrintRecordIs(r);
    RecordEffect(p, r);
    hide Scan, PrintFields, PrintRecord, SortedKeys, Fields, WithRecord, WithFields, WithEndOfRecord;
    ScanFields(names, r, "<EOR>\n\n" + tail, p);
    hide LegalName;
    ScanEndOfRecord(tail, WithFields(p, r));
    ConcatAssoc(PrintFields(names, r), "<EOR>\n\n", tail);
  }

  lemma {:induction false} ScanRecords(rs: seq<Record>, p: Progress)
    requires (forall r :: r in rs ==> LegalNames(r)) && p.current == map[]
    ensures Scan(PrintRecords(rs), p) ==
            p.(records := if p.inHeader then p.records else p.records + NonEmpty(rs), index := p.index + |rs|)
  {
    hide PrintRecord, LegalNames, Scan;
    if rs == [] {
      ScanEnd(p);
      assert p.records + [] == p.records;
    } else {
      var r, more := rs[0], NonEmpty(rs[1..]);
      assert r in rs;
      ScanRecord(r, PrintRecords(rs[1..]), p);
      ScanRecords(rs[1..], WithRecord(p, r));
      assert p.records + (Kept(r) + more) == p.records + Kept(r) + more;
    }
  }

  // ---------- the export stream ----------

  lemma HeaderNames()
    ensures LegalName("ADIF_VER") && LegalName("PROGRAMID")
  {
    assert Upper("ADIF_VER") == "ADIF_VER" && Upper("PROGRAMID") == "PROGRAMID";
  }

  lemma HeaderFields()
    ensures PrintField("ADIF_VER", "3.1.4") == "<ADIF_VER:5>3.1.4"
    ensures PrintField("PROGRAMID", "ollog") == "<PROGRAMID:5>ollog"
  {
    EncodedLength("3.1.4");
    EncodedLength("ollog");
    assert PrintNat(5) == "5";
    hide Encode, PrintNat;
  }

  lemma HeaderText()
    ensures EXPORT_HEADER == "<ADIF_VER:5>3.1.4" + "\n" + "<PROGRAMID:5>ollog" + "\n" + "<EOH>" + "\n\n"
  {
  }

  lemma RegroupHeader(a: string, b: string, c: string, d: string, e: string, f: string, tail: string)
    ensures a + b + c + d + e + f + tail == a + (b + (c + (d + (e + (f + tail)))))
  {
    assert forall x: string, y: string, z: string :: x + y + z == x + (y + z);
  }

  lemma ExportHeaderSplits(tail: string)
    ensures EXPORT_HEADER + tail ==
            PrintField("ADIF_VER", "3.1.4")
            + ("\n" + (PrintField("PROGRAMID", "ollog") + ("\n" + ("<EOH>" + ("\n\n" + tail)))))
  {
    HeaderText();
    HeaderFields();
    hide PrintField, EXPORT_HEADER;
    RegroupHeader(PrintField("ADIF_VER", "3.1.4"), "\n", PrintField("PROGRAMID", "ollog"), "\n",
                  "<EOH>", "\n\n", tail);
  }

  lemma {:induction false} EncodedLength(ascii: string)
    requires forall i :: 0 <= i < |ascii| ==> ascii[i] < 128 as char
    ensures |Encode(ascii)| == |ascii|
  {
    if ascii != "" {
      EncodedLength(ascii[1..]);
    }
  }

  lemma ExportHeaderHasEoh(tail: string)
    ensures HasEoh(EXPORT_HEADER + tail)
  {
    var text := EXPORT_HEADER + tail;
    assert EXPORT_HEADER[37..42] == "<EOH>";
    assert At(Upper(text), 37, "<EOH>");
  }

  lemma ScanExportHeader(tail: string, p: Progress)
    requires p.inHeader
    ensures Scan(EXPORT_HEADER + tail, p) == Scan(tail, p.(inHeader := false))
  {
    ExportHeaderSplits(tail);
    HeaderNames();
    ControlTags();
    hide Scan, PrintField, Classify, LegalName;
    var t4 := "\n\n" + tail;
    var t3 := "<EOH>" + t4;
    assert "<EOH>" == "<" + "EOH" + ">";
    var t2 := PrintField("PROGRAMID", "ollog") + ("\n" + t3);
    ScanField("ADIF_VER", "3.1.4", "\n" + t2, p);
    ScanSkips("\n", t2, p);
    ScanField("PROGRAMID", "ollog", "\n" + t3, p);
    ScanSkips("\n", t3, p);
    ScanTagText("EOH", t4, p);
    ScanSkips("\n\n", tail, p.(inHeader := false));
  }

  /** Parsing the export stream gives back the same non-empty records and no errors, whatever Unicode
      text the values hold: `<EOR>`, `<EOH>` or any other tag inside a value included. */
  lemma ExportRoundTrip(rs: seq<Record>)
    requires forall r :: r in rs ==> LegalNames(r)
    ensures Parse(EXPORT_HEADER + PrintRecords(rs)) == (NonEmpty(rs), [])
  {
    hide Scan, HasEoh, PrintRecords, LegalNames, NonEmpty;
    var text := EXPORT_HEADER + PrintRecords(rs);
    ExportHeaderHasEoh(PrintRecords(rs));
    ScanExportHeader(PrintRecords(rs), Start(text));
    ScanRecords(rs, Start(text).(inHeader := false));
    assert [] + NonEmpty(rs) == NonEmpty(rs);
  }

  /** Printing what any text parses to, and parsing that, changes nothing. */
  lemma ReserializationFixpoint(text: string)
    ensures var rs := Parse(text).0;
            Parse(EXPORT_HEADER + PrintRecords(rs)) == (rs, [])
  {
    hide Parse, LegalName;
    var rs := Parse(text).0;
    ParsedRecordsAreLegal(text);
    ExportRoundTrip(rs);
    NonEmptyIsAll(rs);
  }

  lemma {:induction false} NonEmptyIsAll(rs: seq<Record>)
    requires forall r :: r in rs ==> r != map[]
    ensures NonEmpty(rs) == rs
  {
    if rs != [] {
      assert rs[0] in rs && forall r :: r in rs[1..] ==> r in rs;
      NonEmptyIsAll(rs[1..]);
      assert rs == [rs[0]] + rs[1..];
    }
  }

  // ---------- without a header ----------

  /** Without a header the round trip loses every record as soon as the text holds `<EOH>` anywhere. */
  lemma HeaderlessParse(rs: seq<Record>)
    requires forall r :: r in rs ==> LegalNames(r)
    ensures Parse(Serialized(rs, None)) == (if HasEoh(PrintRecords(rs)) then [] else NonEmpty(rs), [])
  {
    hide Scan, HasEoh, PrintRecords, LegalNames, NonEmpty;
    var text := PrintRecords(rs);
    assert Serialized(rs, None) == text;
    ScanRecords(rs, Start(text));
    assert [] + NonEmpty(rs) == NonEmpty(rs);
  }

  /** A place where the parser's prescan sees `<EOH>`. */
  predicate EohAt(s: string, i: nat) {
    i + 5 <= |s| && s[i] == '<' && UpperChar(s[i + 1]) == 'E' && UpperChar(s[i + 2]) == 'O'
    && UpperChar(s[i + 3]) == 'H' && s[i + 4] == '>'
  }

  ghost predicate SomeEoh(s: string) {
    exists i: nat :: EohAt(s, i)
  }

  lemma HasEohMeans(s: string)
    ensures HasEoh(s) <==> SomeEoh(s)
  {
    var u := Upper(s);
    if SomeEoh(s) {
      var i: nat :| EohAt(s, i);
      assert u[i..i + 5] == "<EOH>";
      assert At(u, i, "<EOH>");
    }
    if HasEoh(s) {
      var i: nat :| i <= |u| && At(u, i, "<EOH>");
      var m := u[i..i + 5];
      assert m[0] == u[i] && m[1] == u[i + 1] && m[2] == u[i + 2] && m[3] == u[i + 3] && m[4] == u[i + 4];
      assert EohAt(s, i);
    }
  }

  /** No `<EOH>` can lie across a joint that ends in `>` or starts with `<`. */
  lemma SomeEohJoint(x: string, y: string)
    requires (x != "" && x[|x| - 1] == '>') || y == "" || y[0] == '<'
    ensures SomeEoh(x + y) <==> SomeEoh(x) || SomeEoh(y)
  {
    var s := x + y;
    assert forall i :: 0 <= i < |x| ==> s[i] == x[i];
    assert forall i :: 0 <= i < |y| ==> s[|x| + i] == y[i];
    if SomeEoh(s) {
      var i: nat :| EohAt(s, i);
      if i + 5 <= |x| {
        assert EohAt(x, i);
      } else if i >= |x| {
        assert EohAt(y, i - |x|);
      }
    }
    if SomeEoh(x) {
      var i: nat :| EohAt(x, i);
      assert EohAt(s, i);
    }
    if SomeEoh(y) {
      var i: nat :| EohAt(y, i);
      assert EohAt(s, |x| + i);
    }
  }

  lemma NoEohInTag(name: string, digits: string)
    requires '>' !in name && digits != "" && forall i :: 0 <= i < |digits| ==> Digit(digits[i])
    ensures !SomeEoh("<" + name + ":" + digits + ">")
  {
    var tag := "<" + name + ":" + digits + ">";
    assert forall i :: 0 <= i < |name| ==> tag[i + 1] == name[i];
    assert forall i :: 0 <= i < |digits| ==> tag[|name| + 2 + i] == digits[i];
    forall i: nat
      ensures !EohAt(tag, i)
    {
      assert i + 4 < |tag| - 1 ==> tag[i + 4] != '>';
      assert Digit(tag[|tag| - 2]);
    }
  }

  lemma SomeEohField(name: string, value: string)
    requires LegalName(name)
    ensures SomeEoh(PrintField(name, value)) <==> SomeEoh(value)
  {
    var digits := PrintNat(|Encode(value)|);
    NoEohInTag(name, digits);
    hide PrintNat, Encode, Upper, SomeEoh;
    SomeEohJoint("<" + name + ":" + digits + ">", value);
  }

  lemma {:induction false} SomeEohFields(names: seq<string>, r: Record)
    requires forall k | k in names :: k in r && LegalName(k)
    ensures SomeEoh(PrintFields(names, r)) <==> exists k :: k in names && SomeEoh(r[k])
    ensures names != [] ==> PrintFields(names, r)[0] == '<'
  {
    if names != [] {
      SomeEohFields(names[1..], r);
      SomeEohField(names[0], r[names[0]]);
      hide SomeEoh, LegalName;
      SomeEohJoint(PrintField(names[0], r[names[0]]), PrintFields(names[1..], r));
      assert names == [names[0]] + names[1..];
    } else {
      assert !SomeEoh("");
    }
  }

  ghost predicate EohInValue(r: Record) {
    exists k :: k in r && SomeEoh(r[k])
  }

  lemma NoEohInEnd()
    ensures !SomeEoh("") && !SomeEoh("<EOR>\n\n")
  {
    forall i: nat
      ensures !EohAt("<EOR>\n\n", i)
    {
    }
  }

  lemma SomeEohRecord(r: Record)
    requires LegalNames(r)
    ensures SomeEoh(PrintRecord(r)) <==> EohInValue(r)
    ensures PrintRecord(r) != "" && PrintRecord(r)[0] == '<'
  {
    var names := SortedKeys(r.Keys);
    SomeEohFields(names, r);
    NoEohInEnd();
    hide SomeEoh, LegalName, SortedKeys, PrintFields;
    SomeEohJoint(PrintFields(names, r), "<EOR>\n\n");
  }

  lemma {:induction false} SomeEohRecords(rs: seq<Record>)
    requires forall r :: r in rs ==> LegalNames(r)
    ensures SomeEoh(PrintRecords(rs)) <==> exists r :: r in rs && EohInValue(r)
    ensures rs != [] ==> PrintRecords(rs) != "" && PrintRecords(rs)[0] == '<'
  {
    hide SomeEoh, LegalNames, PrintRecord, EohInValue;
    if rs == [] {
      NoEohInEnd();
    } else {
      assert rs[0] in rs && forall q :: q in rs[1..] ==> q in rs;
      SomeEohRecord(rs[0]);
      SomeEohRecords(rs[1..]);
      SomeEohJoint(PrintRecord(rs[0]), PrintRecords(rs[1..]));
      assert rs == [rs[0]] + rs[1..];
    }
  }

  /** The headerless round trip gives the non-empty records back exactly when none of the values
      contains `<EOH>`, in any letter case, or there was nothing to give back. */
  lemma HeaderlessRoundTrip(rs: seq<Record>)
    requires forall r :: r in rs ==> LegalNames(r)
    ensures Parse(Serialized(rs, None)) == (NonEmpty(rs), []) <==>
            NonEmpty(rs) == [] || forall r :: r in rs ==> !EohInValue(r)
  {
    HeaderlessParse(rs);
    HasEohMeans(PrintRecords(rs));
    SomeEohRecords(rs);
    hide Parse, HasEoh, SomeEoh, PrintRecords, LegalNames;
  }

  /** One value is enough to lose the whole log. */
  lemma HeaderlessRoundTripFails()
    ensures var log := [map["CALL" := "W1AW"], map["NOTES" := "<eoh>"]];
            Parse(Serialized(log, None)) == ([], []) && NonEmpty(log) == log
  {
    var log: seq<Record> := [map["CALL" := "W1AW"], map["NOTES" := "<eoh>"]];
    assert Upper("CALL") == "CALL" && Upper("NOTES") == "NOTES";
    assert "CALL" in log[0] && "NOTES" in log[1];
    NonEmptyIsAll(log);
    assert EohAt("<eoh>", 0);
    assert EohInValue(log[1]);
    SomeEohRecords(log);
    HasEohMeans(PrintRecords(log));
    HeaderlessParse(log);
  }

  // ---------- a tag with a bad length ----------

  lemma ClassifyBadLength()
    ensures Classify("A:x") == NoLength && '>' !in "A:x"
  {
    SplitPair("A", "x");
    NotAControlTag("A", "x");
    assert Strip("x") == "x";
    assert ParseInt("x") == None;
    assert "A:x" == "A" + ":" + "x";
    hide Split, Upper, ParseInt;
  }

  lemma NoEohBehindBadLength(r: Record)
    requires LegalNames(r) && !EohInValue(r)
    ensures !HasEoh("<A:x>" + PrintRecord(r))
  {
    SomeEohRecord(r);
    forall i: nat
      ensures !EohAt("<A:x>", i)
    {
    }
    HasEohMeans("<A:x>" + PrintRecord(r));
    hide HasEoh, SomeEoh, PrintRecord, LegalNames;
    SomeEohJoint("<A:x>", PrintRecord(r));
  }

  lemma ScanBadLength(after: string, p: Progress)
    requires !p.inHeader
    ensures Scan("<A:x>" + after, p) == Scan(after, p.(errors := p.errors + [BadLength(p.index, "A:x")]))
  {
    ClassifyBadLength();
    hide Classify, Scan;
    assert Step(Tag("A:x", after), p) == (after, p.(errors := p.errors + [BadLength(p.index, "A:x")]));
    hide Step;
    ScanTagText("A:x", after, p);
    assert "<A:x>" == "<" + "A:x" + ">";
  }

  /** A field whose length is no number is an error that carries the index of the record behind it. */
  lemma BadLengthParse(r: Record)
    requires LegalNames(r) && r != map[] && !EohInValue(r)
    ensures Parse("<A:x>" + PrintRecord(r)) == ([r], [BadLength(0, "A:x")])
  {
    hide HasEoh, PrintRecord, LegalNames, Scan, EohInValue;
    NoEohBehindBadLength(r);
    var p := Progress(false, [], [], map[], 0);
    assert Start("<A:x>" + PrintRecord(r)) == p;
    ScanBadLength(PrintRecord(r), p);
    var q := p.(errors := [BadLength(0, "A:x")]);
    assert p.errors + [BadLength(0, "A:x")] == q.errors;
    assert PrintRecord(r) + "" == PrintRecord(r);
    ScanRecord(r, "", q);
    ScanEnd(WithRecord(q, r));
    assert q.records + Kept(r) == [r];
  }
}
