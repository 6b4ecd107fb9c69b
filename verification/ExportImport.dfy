/** Exporting an operator's log, and importing the export again. */
module ExportImport {
  import opened Text
  import opened KeyOrder
  import opened CanonicalHash
  import opened QsoModel
  import opened QsoService
  import opened DuplicateWindow
  import opened SequentialRuns
  import AdifParser
  import AdifSerializer
  import AdifRoundTrip

  const SKIPPED: set<string> := {
    "qso_date_utc", "_operator", "_deleted", "_id", "id", "revision_id", "_created_at"
  }

  predicate Skipped(k: string) {
    k in SKIPPED
  }

  function DeclaredField(name: string, v: Value, text: Value -> string): Record {
    if v == Null then map[] else map[name := text(v)]
  }

  function DeclaredFields(q: Qso, text: Value -> string): Record {
    DeclaredField("CALL", q.call, text) + DeclaredField("BAND", q.band, text) + DeclaredField("MODE", q.mode, text)
  }

  function ExtraFields(extra: Doc, names: seq<string>, text: Value -> string): Record
    requires forall k | k in names :: k in extra
  {
    map k | k in names && !Skipped(k) && extra[k] != Null :: text(extra[k])
  }

  lemma AddField(d: Record, name: string, v: Value, text: Value -> string)
    ensures (if v == Null then d else d[name := text(v)]) == d + DeclaredField(name, v, text)
  {
  }

  lemma DeclaredFieldsIs(q: Qso, text: Value -> string)
    ensures DeclaredFields(q, text) ==
            map[] + DeclaredField("CALL", q.call, text) + DeclaredField("BAND", q.band, text)
            + DeclaredField("MODE", q.mode, text)
  {
    hide DeclaredField;
  }

  lemma NoExtraFields(d: Record, extra: Doc, names: seq<string>, text: Value -> string)
    ensures d == d + ExtraFields(extra, names[..0], text)
  {
  }

  lemma ExtraFieldsStep(d: Record, extra: Doc, names: seq<string>, i: nat, text: Value -> string)
    requires i < |names| && forall k | k in names :: k in extra
    ensures var k, sofar := names[i], d + ExtraFields(extra, names[..i], text);
            d + ExtraFields(extra, names[..i + 1], text) ==
            if Skipped(k) || extra[k] == Null then sofar else sofar[k := text(extra[k])]
  {
    hide Skipped;
    assert names[..i + 1] == names[..i] + [names[i]];
    var k, fields := names[i], ExtraFields(extra, names[..i], text);
    assert ExtraFields(extra, names[..i + 1], text) ==
           if Skipped(k) || extra[k] == Null then fields else fields[k := text(extra[k])];
    hide ExtraFields;
  }

  /** `_qso_to_adif_dict`; `text` is Python's `str`. */
  function ToAdif(q: Qso, text: Value -> string): Record {
    DeclaredFields(q, text) + ExtraFields(q.extra, SortedKeys(q.extra.Keys), text)
  }

  method DeclaredToAdif(q: Qso, text: Value -> string) returns (d: Record)
    ensures d == DeclaredFields(q, text)
  {
    hide DeclaredField, DeclaredFields;
    DeclaredFieldsIs(q, text);
    d := map[];
    AddField(d, "CALL", q.call, text);
    if q.call != Null {
      d := d["CALL" := text(q.call)];
    }
    AddField(d, "BAND", q.band, text);
    if q.band != Null {
      d := d["BAND" := text(q.band)];
    }
    AddField(d, "MODE", q.mode, text);
    if q.mode != Null {
      d := d["MODE" := text(q.mode)];
    }
  }

  method QsoToAdif(q: Qso, text: Value -> string) returns (d: Record)
    ensures d == ToAdif(q, text)
  {
    hide Skipped, DeclaredFields, SortedKeys, ExtraFields;
    d := DeclaredToAdif(q, text);
    ghost var declared := d;
    var names := SortedKeys(q.extra.Keys);
    NoExtraFields(d, q.extra, names, text);
    for i := 0 to |names|
      invariant d == declared + ExtraFields(q.extra, names[..i], text)
    {
      ExtraFieldsStep(declared, q.extra, names, i, text);
      if Skipped(names[i]) {
        continue;
      }
      if q.extra[names[i]] == Null {
        continue;
      }
      d := d[names[i] := text(q.extra[names[i]])];
    }
    assert names[..|names|] == names;
  }

  function ActiveDocs(docs: seq<Doc>, operator: string): seq<Doc> {
    Filter(docs, d => ActiveOf(d, operator))
  }

  /** The records of the export: None when a document cannot be read. */
  function ExportedRecords(docs: seq<Doc>, text: Value -> string, now: Moment): Option<seq<Record>> {
    if docs == [] then Some([])
    else
      var last := |docs| - 1;
      match (ExportedRecords(docs[..last], text, now), Hydrate(docs[last], now))
      case (Some(rs), Some(q)) => Some(rs + [ToAdif(q, text)])
      case _ => None
  }

  /** The body of the export response. */
  function Export(docs: seq<Doc>, operator: string, text: Value -> string, now: Moment): Option<string> {
    match ExportedRecords(ActiveDocs(docs, operator), text, now)
    case None => None
    case Some(rs) => Some(AdifSerializer.EXPORT_HEADER + AdifSerializer.PrintRecords(rs))
  }

  /** The export endpoint: the pieces of its response, or None when reading a document raises. */
  method ExportLog(docs: seq<Doc>, operator: string, text: Value -> string, now: Moment)
    returns (pieces: Option<seq<string>>)
    ensures pieces.Some? <==> Export(docs, operator, text, now).Some?
    ensures pieces.Some? ==> AdifSerializer.Join(pieces.value) == Export(docs, operator, text, now).value
  {
    hide Hydrate, ToAdif, AdifSerializer.PrintRecords, AdifSerializer.EXPORT_HEADER, AdifSerializer.Join;
    var active := ActiveDocs(docs, operator);
    var records: seq<Record> := [];
    for i := 0 to |active|
      invariant ExportedRecords(active[..i], text, now) == Some(records)
    {
      assert active[..i + 1][..i] == active[..i];
      var q := Hydrate(active[i], now);
      if q.None? {
        UnreadableStopsExport(active, i, text, now);
        return None;
      }
      var record := QsoToAdif(q.value, text);
      records := records + [record];
    }
    assert active[..|active|] == active;
    var stream := AdifSerializer.ExportPieces(records);
    return Some(stream);
  }

  lemma {:induction false} UnreadableStopsExport(docs: seq<Doc>, i: nat, text: Value -> string, now: Moment)
    requires i < |docs| && Hydrate(docs[i], now).None?
    ensures ExportedRecords(docs, text, now).None?
    decreases |docs|
  {
    hide Hydrate;
    if i < |docs| - 1 {
      UnreadableStopsExport(docs[..|docs| - 1], i, text, now);
    }
  }

  // ---------- what a built document exports ----------

  /** A document that building from a record with legal field names stored. */
  ghost predicate BuiltFrom(
    d: Doc, r: Record, operator: string, profile: Option<Profile>, n: nat, created: Moment)
  {
    && AdifRoundTrip.LegalNames(r) && Valid(r, operator, profile)
    && d == NewDoc(BuiltOf(r, operator, profile).dict, Num(n), created)
  }

  ghost predicate WasBuilt(d: Doc, operator: string) {
    exists r, profile, n, created :: BuiltFrom(d, r, operator, profile, n, created)
  }

  function AllFields(r: Record, profile: Option<Profile>): Record {
    Normalized(r, profile) + Stamps(profile)
  }

  lemma InternalNames(k: string)
    requires k in INTERNAL || Skipped(k)
    ensures |k| > 1 && 'a' <= k[1] <= 'z'
  {
  }

  lemma LegalIsNotInternal(k: string)
    requires AdifParser.LegalName(k)
    ensures k !in INTERNAL && !Skipped(k)
  {
    if k in INTERNAL || Skipped(k) {
      InternalNames(k);
    }
  }

  lemma StampsAreLegal(profile: Option<Profile>)
    ensures AdifRoundTrip.LegalNames(Stamps(profile))
  {
    forall k | k in Stamps(profile)
      ensures AdifParser.LegalName(k)
    {
      StampedNameIsLegal(profile, k);
    }
  }

  predicate Plain(k: string) {
    forall i | 0 <= i < |k| :: 'A' <= k[i] <= 'Z' || k[i] == '_'
  }

  lemma StampedNameIsLegal(profile: Option<Profile>, k: string)
    requires k in Stamps(profile)
    ensures AdifParser.LegalName(k)
  {
    hide Stamps, StampShape, Plain;
    StampNames(profile, k);
    PlainStamps();
    PlainIsLegal(k);
  }

  lemma PlainStamps()
    ensures Plain("OPERATOR") && Plain("STATION_CALLSIGN") && Plain("MY_GRIDSQUARE")
    ensures Plain("MY_RIG") && Plain("MY_ANTENNA") && Plain("TX_PWR")
  {
  }

  lemma PlainIsLegal(k: string)
    requires Plain(k)
    ensures AdifParser.LegalName(k)
  {
    assert Upper(k) == k;
  }

  lemma DictOf(r: Record, operator: string, profile: Option<Profile>)
    requires Valid(r, operator, profile)
    ensures var f := Normalized(r, profile);
            var b := BuiltOf(r, operator, profile);
            && "QSO_DATE" in f && "TIME_ON" in f && "CALL" in f && "BAND" in f && "MODE" in f
            && ParseDateTime(f["QSO_DATE"], f["TIME_ON"]) == Some(b.at)
            && b.key == Key(operator, f["CALL"], f["BAND"], f["MODE"])
            && b.dict == Texts(f)["qso_date_utc" := When(Timestamp(b.at, Some(0)))]
                                 ["operator_callsign" := Str(operator)]["is_deleted" := Bool(false)]
                         + Texts(Stamps(profile))
  {
    NormalizedKeys(r, profile);
    hide Normalized, ParseDateTime, Stamps, Texts;
  }

  /** The fields of the dictionary that are neither declared nor attributes are the record's and the stamps. */
  lemma DictExtra(r: Record, operator: string, profile: Option<Profile>, k: string)
    requires Valid(r, operator, profile) && k !in INTERNAL
    ensures var d, f := BuiltOf(r, operator, profile).dict, AllFields(r, profile);
            (k in d <==> k in f) && (k in d ==> d[k] == Str(f[k]))
  {
    DictOf(r, operator, profile);
    assert k != "qso_date_utc" && k != "operator_callsign" && k != "is_deleted";
    hide Valid, BuiltOf, Normalized, ParseDateTime, Stamps, INTERNAL;
  }

  lemma AllFieldsAreLegal(r: Record, profile: Option<Profile>)
    requires AdifRoundTrip.LegalNames(r)
    ensures AdifRoundTrip.LegalNames(AllFields(r, profile))
  {
    NormalizedKeys(r, profile);
    StampsAreLegal(profile);
    hide AdifParser.LegalName, Stamps, Normalized;
  }

  predicate Queried(k: string) {
    k == "CALL" || k == "BAND" || k == "MODE"
  }

  lemma NotInternal(k: string)
    requires k !in INTERNAL && !Queried(k)
    ensures k !in DECLARED && k !in ATTRIBUTES
  {
    hide DECLARED, ATTRIBUTES;
  }

  /** A built document outside the declared fields: the record's other fields and the stamps. */
  lemma BuiltExtra(d: Doc, r: Record, operator: string, profile: Option<Profile>, n: nat, created: Moment, k: string)
    requires BuiltFrom(d, r, operator, profile, n, created) && !Queried(k)
    ensures k in d && k !in DECLARED <==> k in AllFields(r, profile)
    ensures k in d && k !in DECLARED ==> d[k] == Str(AllFields(r, profile)[k]) && !Skipped(k)
  {
    var dict := BuiltOf(r, operator, profile).dict;
    AllFieldsAreLegal(r, profile);
    hide AdifParser.LegalName;
    if k in AllFields(r, profile) {
      LegalIsNotInternal(k);
      NotInternal(k);
    }
    if k !in DECLARED {
      NewDocExtra(dict, Num(n), created, k);
    }
    if k !in INTERNAL {
      DictExtra(r, operator, profile, k);
    }
    InternalIs(k);
    hide Skipped, DECLARED, ATTRIBUTES, INTERNAL, NewDoc, Valid, BuiltOf, AllFields;
  }

  lemma InternalIs(k: string)
    requires !Queried(k)
    ensures k in INTERNAL <==> k in DECLARED || k in ATTRIBUTES
  {
    hide DECLARED, ATTRIBUTES;
  }

  /** The key fields of what is exported are the ones the document was stored with. */
  lemma BuiltDeclared(r: Record, operator: string, profile: Option<Profile>)
    requires Valid(r, operator, profile)
    ensures var b, f := BuiltOf(r, operator, profile), AllFields(r, profile);
            && "CALL" in f && f["CALL"] == b.key.call && "BAND" in f && f["BAND"] == b.key.band
            && "MODE" in f && f["MODE"] == b.key.mode
            && "QSO_DATE" in f && "TIME_ON" in f && ParseDateTime(f["QSO_DATE"], f["TIME_ON"]) == Some(b.at)
            && b.key.operator == operator
  {
    DictOf(r, operator, profile);
    NotStamped(profile);
    NotStampedEither(profile);
    hide Valid, BuiltOf, Normalized, ParseDateTime, Stamps;
  }

  lemma NotStampedEither(profile: Option<Profile>)
    ensures "QSO_DATE" !in Stamps(profile) && "TIME_ON" !in Stamps(profile)
  {
    StampedKeys(profile);
    hide Stamps;
  }

  /** Exporting a built document gives back its record as it was normalized and stamped. */
  lemma BuiltExports(
    d: Doc, r: Record, operator: string, profile: Option<Profile>, n: nat, created: Moment,
    text: Value -> string, now: Moment)
    requires BuiltFrom(d, r, operator, profile, n, created) && operator != ""
    requires forall s :: text(Str(s)) == s
    ensures Hydrate(d, now).Some? && ToAdif(Hydrate(d, now).value, text) == AllFields(r, profile)
  {
    BuiltIsStored(d, r, operator, profile, n, created);
    BuiltDeclared(r, operator, profile);
    hide DECLARED, AllFields, Hydrate, ToAdif, Valid, BuiltOf, ParseDateTime, ATTRIBUTES, BuiltFrom;
    HydratedFields(d, now);
    var q, f := Hydrate(d, now).value, AllFields(r, profile);
    BuiltExtras(d, r, operator, profile, n, created, text);
    DeclaredFieldsAre(q, f, text);
    hide DeclaredFields, Typed, ExtraExportsAs;
    ToAdifIs(q, f, text);
  }

  lemma BuiltIsStored(d: Doc, r: Record, operator: string, profile: Option<Profile>, n: nat, created: Moment)
    requires BuiltFrom(d, r, operator, profile, n, created) && operator != ""
    ensures var b := BuiltOf(r, operator, profile); StoredFor(d, b.key, b.at, Num(n))
  {
    LegalNamesIsNoId(r);
    NewDocIsStoredFor(r, operator, profile, n, created);
    hide NewDoc, StoredFor;
  }

  lemma BuiltExtras(
    d: Doc, r: Record, operator: string, profile: Option<Profile>, n: nat, created: Moment, text: Value -> string)
    requires BuiltFrom(d, r, operator, profile, n, created)
    requires forall s :: text(Str(s)) == s
    ensures ExtraExportsAs(Without(d, DECLARED), AllFields(r, profile), text)
  {
    hide DECLARED, AllFields, BuiltFrom;
    var extra, f := Without(d, DECLARED), AllFields(r, profile);
    forall k
      ensures k in extra <==> k in f && !Queried(k)
      ensures k in extra ==> ExportsAs(extra, k, f[k], text)
    {
      QueriedAreDeclared(k);
      if !Queried(k) {
        BuiltExtra(d, r, operator, profile, n, created, k);
      }
      hide Queried, Skipped;
    }
    hide ExportsAs, Queried;
  }

  lemma HydratedFields(d: Doc, now: Moment)
    requires Typed(d)
    ensures Hydrate(d, now).Some?
    ensures var q := Hydrate(d, now).value;
            q.call == d["CALL"] && q.band == d["BAND"] && q.mode == d["MODE"] && q.extra == Without(d, DECLARED)
  {
    hide DECLARED;
  }

  lemma QueriedAreDeclared(k: string)
    ensures Queried(k) ==> k in DECLARED
  {
  }

  lemma DeclaredFieldsAre(q: Qso, f: Record, text: Value -> string)
    requires "CALL" in f && "BAND" in f && "MODE" in f
    requires q.call == Str(f["CALL"]) && q.band == Str(f["BAND"]) && q.mode == Str(f["MODE"])
    requires forall s :: text(Str(s)) == s
    ensures DeclaredFields(q, text) == map k | k in f && Queried(k) :: f[k]
  {
    assert DeclaredField("CALL", q.call, text) == map["CALL" := f["CALL"]];
    assert DeclaredField("BAND", q.band, text) == map["BAND" := f["BAND"]];
    assert DeclaredField("MODE", q.mode, text) == map["MODE" := f["MODE"]];
    hide DeclaredField;
  }

  /** What is exported under a key outside the declared ones. */
  predicate ExportsAs(extra: Doc, k: string, value: string, text: Value -> string) {
    k in extra && !Skipped(k) && extra[k] != Null && text(extra[k]) == value
  }

  ghost predicate ExtraExportsAs(extra: Doc, f: Record, text: Value -> string) {
    && (forall k :: k in extra <==> k in f && !Queried(k))
    && forall k :: k in extra ==> ExportsAs(extra, k, f[k], text)
  }

  lemma ToAdifIs(q: Qso, f: Record, text: Value -> string)
    requires DeclaredFields(q, text) == map k | k in f && Queried(k) :: f[k]
    requires ExtraExportsAs(q.extra, f, text)
    ensures ToAdif(q, text) == f
  {
    hide Queried, DeclaredFields;
    ExtraFieldsAre(q, f, text);
    hide ExtraFields, SortedKeys, ExtraExportsAs;
    BothParts(f, DeclaredFields(q, text), ExtraFields(q.extra, SortedKeys(q.extra.Keys), text));
  }

  lemma BothParts(f: Record, queried: Record, others: Record)
    requires queried == map k | k in f && Queried(k) :: f[k]
    requires others == map k | k in f && !Queried(k) :: f[k]
    ensures queried + others == f
  {
    hide Queried;
  }

  lemma ExtraFieldsAre(q: Qso, f: Record, text: Value -> string)
    requires ExtraExportsAs(q.extra, f, text)
    ensures ExtraFields(q.extra, SortedKeys(q.extra.Keys), text) == map k | k in f && !Queried(k) :: f[k]
  {
    hide Skipped, Queried;
    var names := SortedKeys(q.extra.Keys);
    assert forall k :: k in names <==> k in q.extra;
    hide SortedKeys;
  }

  // ---------- importing the export ----------

  lemma {:induction false} UpperFieldsStay(r: Record, profile: Option<Profile>)
    requires "BAND" in r && "MODE" in r
    ensures var f := AllFields(r, profile);
            "BAND" in f && "MODE" in f && Upper(f["BAND"]) == f["BAND"] && Upper(f["MODE"]) == f["MODE"]
  {
    NormalizedKeys(r, profile);
    NotStamped(profile);
    var custom := match profile case None => [] case Some(p) => p.customFields;
    CustomFieldsKeys(r, custom);
    var c := ApplyCustomFields(r, custom);
    UpperIdempotent(c["BAND"]);
    UpperIdempotent(c["MODE"]);
    hide ApplyCustomFields, Stamps, Upper;
  }

  /** Building from an exported record gives the document's own key and time. */
  lemma RebuiltKey(r: Record, operator: string, profile: Option<Profile>)
    requires Valid(r, operator, profile)
    ensures var f, b := AllFields(r, profile), BuiltOf(r, operator, profile);
            Valid(f, operator, None) && BuiltOf(f, operator, None).key == b.key && BuiltOf(f, operator, None).at == b.at
  {
    hide AllFields, Normalized, Upper, ParseDateTime, BuildDict;
    var f := AllFields(r, profile);
    BuiltDeclared(r, operator, profile);
    NormalizedKeys(r, profile);
    UpperFieldsStay(r, profile);
    UpperStaysNormal(f);
    RequiredKeys(f);
    ValidWhenParsed(f, operator);
    DictOf(f, operator, None);
  }

  lemma UpperStaysNormal(f: Record)
    requires "BAND" in f && "MODE" in f && Upper(f["BAND"]) == f["BAND"] && Upper(f["MODE"]) == f["MODE"]
    ensures Normalized(f, None) == f
  {
    hide Upper;
  }

  lemma RequiredKeys(f: Record)
    requires "CALL" in f && "QSO_DATE" in f && "TIME_ON" in f && "BAND" in f && "MODE" in f
    ensures REQUIRED <= f.Keys
  {
  }

  lemma ValidWhenParsed(f: Record, operator: string)
    requires REQUIRED <= f.Keys && Normalized(f, None) == f && ParseDateTime(f["QSO_DATE"], f["TIME_ON"]).Some?
    ensures Valid(f, operator, None)
  {
    hide Normalized, ParseDateTime, Texts, Stamps;
  }
}
