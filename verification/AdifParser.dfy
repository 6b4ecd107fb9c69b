/** The ADIF tag-stream parser: a character cursor over the text, byte-counted field values. */
module AdifParser {
  import opened Text
  import opened Utf8

  type Record = map<string, string>

  datatype ParseError = BadLength(recordIndex: nat, tag: string)

  /** The parser's variables, apart from the cursor. */
  datatype Progress = Progress(
    inHeader: bool, records: seq<Record>, errors: seq<ParseError>, current: Record, index: nat)

  datatype Tag = Tag(content: string, after: string)

  predicate HasEoh(text: string) {
    Contains(Upper(text), "<EOH>")
  }

  function Start(text: string): Progress {
    Progress(HasEoh(text), [], [], map[], 0)
  }

  /** The next `<...>` and the text behind it. */
  function NextTag(rest: string): (t: Option<Tag>)
    ensures t.Some? ==> |t.value.after| < |rest|
  {
    var found := rest[Find(rest, '<')..];
    var gt := Find(found, '>');
    if gt == |found| then None else Some(Tag(found[1..gt], found[gt + 1..]))
  }

  function Split(s: string, c: char): (parts: seq<string>)
    ensures parts != []
    decreases |s|
  {
    var k := Find(s, c);
    if k == |s| then [s] else [s[..k]] + Split(s[k + 1..], c)
  }

  /** Python's `b[:n]`: past the end it stops, a negative n counts from the end. */
  function Slice<T>(b: seq<T>, n: int): seq<T> {
    if n >= |b| then b else if n >= 0 then b[..n] else if |b| + n >= 0 then b[..|b| + n] else []
  }

  /** The value of a field that declares `n` bytes, in front of `after`. */
  function FieldValue(after: string, n: int): (v: string)
    ensures |v| <= |after|
  {
    var b := Slice(Encode(after), n);
    assert b == Encode(after)[..|b|];
    DecodeCut(after, |b|);
    match DecodeStrict(b)
    case Some(v) => StrictIffEncoding(b, v); v
    case None => DecodeReplace(b)
  }

  datatype TagKind = EndOfHeader | EndOfRecord | NotData | NoLength | Field(name: string, length: int)

  /** `EOH`, `EOR`, or `FIELDNAME:LENGTH` with an optional `:TYPE`. */
  function Classify(content: string): TagKind {
    var upper, parts := Upper(content), Split(content, ':');
    if upper == "EOH" then EndOfHeader
    else if upper == "EOR" then EndOfRecord
    else if |parts| < 2 then NotData
    else
      match ParseInt(parts[1])
      case None => NoLength
      case Some(n) => Field(Upper(parts[0]), n)
  }

  /** Handle one tag: the text left to scan, and the new progress. */
  function Step(tag: Tag, p: Progress): (r: (string, Progress))
    ensures |r.0| <= |tag.after|
  {
    match Classify(tag.content)
    case EndOfHeader => (tag.after, p.(inHeader := false))
    case EndOfRecord =>
      var keep := !p.inHeader && p.current != map[];
      (tag.after, p.(records := if keep then p.records + [p.current] else p.records,
                     current := if keep then map[] else p.current,
                     index := p.index + 1))
    case NotData => (tag.after, p)
    case NoLength =>
      (tag.after, if p.inHeader then p else p.(errors := p.errors + [BadLength(p.index, tag.content)]))
    case Field(name, n) =>
      var v := FieldValue(tag.after, n);
      (tag.after[|v|..], if p.inHeader then p else p.(current := p.current[name := v]))
  }

  function Scan(rest: string, p: Progress): Progress
    decreases |rest|
  {
    match NextTag(rest)
    case None => p
    case Some(tag) => var (rest', p') := Step(tag, p); Scan(rest', p')
  }

  function Parse(text: string): (seq<Record>, seq<ParseError>) {
    var p := Scan(text, Start(text));
    (p.records, p.errors)
  }

  /** The body of the loop behind the tag search: how far the cursor moves past the tag, and the
      variables afterwards. */
  method HandleTag(content: string, after: string, p: Progress) returns (consumed: nat, q: Progress)
    ensures consumed <= |after| && (after[consumed..], q) == Step(Tag(content, after), p)
  {
    var inHeader, records, errors, current, index := p.inHeader, p.records, p.errors, p.current, p.index;
    consumed := 0;
    match Classify(content) {
      case EndOfHeader =>
        inHeader := false;
      case EndOfRecord =>
        if !inHeader && current != map[] {
          records := records + [current];
          current := map[];
        }
        index := index + 1;
      case NotData =>
      case NoLength =>
        if !inHeader {
          errors := errors + [BadLength(index, content)];
        }
      case Field(name, length) =>
        var value := FieldValue(after, length);
        consumed := |value|;
        if !inHeader {
          current := current[name := value];
        }
    }
    q := Progress(inHeader, records, errors, current, index);
  }

  method ParseAdi(text: string) returns (records: seq<Record>, errors: seq<ParseError>)
    ensures (records, errors) == Parse(text)
  {
    hide Find, HasEoh, NextTag, Step, Scan;
    var p := Start(text);
    var i, n := 0, |text|;
    assert text == text[0..];
    while i < n
      invariant 0 <= i <= n
      invariant Scan(text[i..], p) == Scan(text, Start(text))
    {
      var lt := i + Find(text[i..], '<');
      var gt := lt + Find(text[lt..], '>');  // n as well when there is no '<'
      ScanAt(text, i, lt, gt, p);
      if gt == n {
        assert Scan(text[i..], p) == p;
        break;
      }
      ghost var step := Step(Tag(text[lt + 1..gt], text[gt + 1..]), p);
      assert Scan(step.0, step.1) == Scan(text, Start(text));
      var consumed: nat;
      consumed, p := HandleTag(text[lt + 1..gt], text[gt + 1..], p);
      SuffixOfSuffix(text, gt + 1, consumed);
      i := gt + 1 + consumed;
      assert text[i..] == step.0 && p == step.1;
    }
    ScanEnd(p);
    assert i == n ==> text[i..] == "";
    return p.records, p.errors;
  }

  lemma SuffixOfSuffix(text: string, i: nat, k: nat)
    requires i + k <= |text|
    ensures text[i..][k..] == text[i + k..]
  {
  }

  lemma ScanEnd(p: Progress)
    ensures Scan("", p) == p
  {
  }

  /** Searching from the cursor finds the tag that the suffix starts with. */
  lemma ScanAt(text: string, i: nat, lt: nat, gt: nat, p: Progress)
    requires i <= |text| && lt == i + Find(text[i..], '<') && gt == lt + Find(text[lt..], '>')
    ensures gt == |text| ==> Scan(text[i..], p) == p
    ensures gt < |text| ==>
              var s := Step(Tag(text[lt + 1..gt], text[gt + 1..]), p);
              Scan(text[i..], p) == Scan(s.0, s.1)
  {
    hide Find, Step;
    var rest, found := text[i..], text[lt..];
    SuffixOfSuffix(text, i, lt - i);
    var g := Find(found, '>');
    if g < |found| {
      assert found[1..g] == text[lt + 1..gt];
      assert found[g + 1..] == text[gt + 1..];
      assert NextTag(rest) == Some(Tag(text[lt + 1..gt], text[gt + 1..]));
    }
  }

  // ---------- the cursor ----------

  /** For every text and every declared length, the cursor moves over the least number of characters
      whose encoding covers the sliced bytes; what it yields is those characters, the last of them
      replaced by U+FFFD exactly when the slice cuts it. */
  lemma FieldValueCovers(after: string, n: int)
    ensures var k, v := |Slice(Encode(after), n)|, FieldValue(after, n);
            && |v| <= |after|
            && k <= |Encode(after[..|v|])|
            && (forall j :: 0 <= j < |v| ==> |Encode(after[..j])| < k)
            && v == (if |Encode(after[..|v|])| == k then after[..|v|] else after[..|v| - 1] + [REPLACEMENT])
  {
    var b := Slice(Encode(after), n);
    assert b == Encode(after)[..|b|];
    DecodeCut(after, |b|);
    CharsCoveringIsLeast(after, |b|);
    match DecodeStrict(b)
    case Some(v) => StrictIffEncoding(b, v);
    case None =>
  }

  /** When the declared length is the value's own byte count, the value comes back as it was written. */
  lemma FieldValueExact(value: string, tail: string)
    ensures FieldValue(value + tail, |Encode(value)|) == value
  {
    EncodeConcat(value, tail);
    assert Slice(Encode(value + tail), |Encode(value)|) == Encode(value);
    DecodeEncode(value);
  }

  // ---------- what a parse can return ----------

  /** A field name the parser can return: upper case, without `:` and `>`. */
  predicate LegalName(k: string) {
    Upper(k) == k && ':' !in k && '>' !in k
  }

  predicate Legal(r: Record) {
    r != map[] && forall k | k in r :: LegalName(k)
  }

  ghost predicate Clean(p: Progress) {
    (forall r :: r in p.records ==> Legal(r)) && forall k :: k in p.current ==> LegalName(k)
  }

  lemma UpperKeepsPunctuation(s: string, c: char)
    requires c == ':' || c == '>' || c == '<'
    ensures c in Upper(s) <==> c in s
  {
    if c in Upper(s) {
      var i :| 0 <= i < |s| && Upper(s)[i] == c;
      assert s[i] == c;
    }
    if c in s {
      var i :| 0 <= i < |s| && s[i] == c;
      assert Upper(s)[i] == c;
    }
  }

  lemma ClassifiedNameIsLegal(content: string)
    requires '>' !in content && Classify(content).Field?
    ensures LegalName(Classify(content).name)
  {
    hide ParseInt;
    var name := Split(content, ':')[0];
    UpperIdempotent(name);
    UpperKeepsPunctuation(name, ':');
    UpperKeepsPunctuation(name, '>');
    assert name <= content;
  }

  lemma StepKeepsClean(rest: string, p: Progress)
    requires NextTag(rest).Some? && Clean(p)
    ensures Clean(Step(NextTag(rest).value, p).1)
  {
    hide FieldValue, Classify, LegalName;
    var found := rest[Find(rest, '<')..];
    assert '>' !in found[..Find(found, '>')];
    var content := NextTag(rest).value.content;
    assert '>' !in content;
    if Classify(content).Field? {
      ClassifiedNameIsLegal(content);
    }
  }

  lemma {:induction false} ScanKeepsClean(rest: string, p: Progress)
    requires Clean(p)
    ensures Clean(Scan(rest, p))
    decreases |rest|
  {
    hide NextTag, Step;
    match NextTag(rest)
    case None =>
    case Some(tag) =>
      StepKeepsClean(rest, p);
      var (rest', p') := Step(tag, p);
      ScanKeepsClean(rest', p');
  }

  /** On any text, malformed or not, every record returned is non-empty and has only legal names. */
  lemma ParsedRecordsAreLegal(text: string)
    ensures forall r :: r in Parse(text).0 ==> Legal(r)
  {
    ScanKeepsClean(text, Start(text));
  }
}
