/** The eight custom field slots of an operator, and how the bridge moves a record's OTHER_1 to OTHER_8 to the names
    the operator gave them. */
module CustomFields {
  import opened Text
  import opened AclogParser
  import opened AclogRecords

  const PROTECTED_NAMES: set<string> := {
    "_OPERATOR", "_DELETED", "_ID", "ID", "REVISION_ID", "_CREATED_AT", "CREATED_AT", "QSO_DATE_UTC", "ROWHASH",
    "ROW_HASH", "APP_OLLOG_TOKEN"}

  const FILL_BEHAVIORS: set<string> := {"none", "previous_qso", "previous_same_call"}

  /** One slot of a configuration, as submitted or as stored. */
  datatype Field = Field(slot: int, name: string, fill: string)

  function SlotKey(i: nat): string
    requires i < 8
  {
    "OTHER_" + [(49 + i) as char]
  }

  // ---------- the configuration ----------

  function Defaults(): (fields: seq<Field>)
    ensures |fields| == 8 && forall i :: 0 <= i < 8 ==> fields[i].slot == i + 1
  {
    seq(8, i requires 0 <= i < 8 => Field(i + 1, SlotKey(i), "none"))
  }

  predicate LegalName(name: string) {
    name != "" && forall i :: 0 <= i < |name| ==> 'A' <= name[i] <= 'Z' || Digit(name[i]) || name[i] == '_'
  }

  /** The name a submitted field stands for; a blank one keeps the slot's own. */
  function FieldName(f: Field): string
    requires 1 <= f.slot <= 8
  {
    var name := Upper(Strip(f.name));
    if name == "" then SlotKey(f.slot - 1) else name
  }

  predicate Acceptable(f: Field) {
    && 1 <= f.slot <= 8
    && LegalName(FieldName(f)) && FieldName(f) !in PROTECTED_NAMES
    && f.fill in FILL_BEHAVIORS
  }

  predicate AllAcceptable(items: seq<Field>) {
    forall i | 0 <= i < |items| :: Acceptable(items[i])
  }

  /** The slots after the items; a later item for a slot replaces an earlier one. */
  function Slots(items: seq<Field>): (fields: seq<Field>)
    requires AllAcceptable(items)
    ensures |fields| == 8 && forall i :: 0 <= i < 8 ==> fields[i].slot == i + 1
  {
    if items == [] then Defaults()
    else
      var f := items[|items| - 1];
      Slots(items[..|items| - 1])[f.slot - 1 := Field(f.slot, FieldName(f), f.fill)]
  }

  predicate DistinctNames(fields: seq<Field>) {
    forall i, j | 0 <= i < j < |fields| :: fields[i].name != fields[j].name
  }

  /** `normalize_custom_qso_fields`; None is the ValueError. */
  function Normalized(items: seq<Field>): Option<seq<Field>> {
    if AllAcceptable(items) && DistinctNames(Slots(items)) then Some(Slots(items)) else None
  }

  lemma OneMore(items: seq<Field>, i: nat)
    requires i < |items| && AllAcceptable(items[..i])
    ensures AllAcceptable(items[..i + 1]) <==> Acceptable(items[i])
    ensures Acceptable(items[i]) ==>
              && 1 <= items[i].slot <= 8
              && Slots(items[..i + 1]) ==
                 Slots(items[..i])[items[i].slot - 1 := Field(items[i].slot, FieldName(items[i]), items[i].fill)]
  {
    hide LegalName, FieldName, PROTECTED_NAMES, FILL_BEHAVIORS, Defaults;
    assert items[..i + 1][..i] == items[..i];
    assert forall k :: 0 <= k < i ==> items[..i + 1][k] == items[..i][k];
  }

  lemma AcceptablePrefix(items: seq<Field>, n: nat)
    requires n <= |items| && AllAcceptable(items)
    ensures AllAcceptable(items[..n])
  {
    hide Acceptable;
  }

  method NormalizeFields(items: seq<Field>) returns (fields: Option<seq<Field>>)
    ensures fields == Normalized(items)
  {
    hide Acceptable, Defaults, AllAcceptable, Slots, FieldName, DistinctNames;
    NoItems();
    var bySlot := Defaults();
    for i := 0 to |items|
      invariant AllAcceptable(items[..i]) && bySlot == Slots(items[..i])
    {
      OneMore(items, i);
      if !Acceptable(items[i]) {
        if AllAcceptable(items) {
          AcceptablePrefix(items, i + 1);
        }
        return None;
      }
      bySlot := bySlot[items[i].slot - 1 := Field(items[i].slot, FieldName(items[i]), items[i].fill)];
    }
    assert items[..|items|] == items;
    fields := if DistinctNames(bySlot) then Some(bySlot) else None;
  }

  lemma NoItems()
    ensures AllAcceptable([]) && Slots([]) == Defaults()
  {
  }

  /** A field whose name is normal. */
  predicate Stored(f: Field) {
    Acceptable(f) && FieldName(f) == f.name
  }

  ghost predicate AllStored(fields: seq<Field>) {
    forall i :: 0 <= i < |fields| ==> Stored(fields[i]) && fields[i].slot == i + 1
  }

  lemma LegalIsNormal(name: string)
    requires LegalName(name)
    ensures name != "" && Upper(Strip(name)) == name
  {
    assert !Space(name[0]) && !Space(name[|name| - 1]);
    StripOf(name);
    assert Upper(name) == name;
  }

  lemma AcceptableIsStored(f: Field)
    requires Acceptable(f)
    ensures Stored(Field(f.slot, FieldName(f), f.fill))
  {
    hide LegalName, PROTECTED_NAMES, FILL_BEHAVIORS, Upper, Strip, SlotKey;
    LegalIsNormal(FieldName(f));
  }

  lemma DefaultIsStored(i: nat)
    requires i < 8
    ensures Stored(Field(i + 1, SlotKey(i), "none"))
  {
    LegalIsNormal(SlotKey(i));
    hide Upper, Strip;
    SlotKeyIsFree(i);
  }

  lemma SlotKeyIsFree(i: nat)
    requires i < 8
    ensures SlotKey(i) !in PROTECTED_NAMES
  {
    assert forall p :: p in PROTECTED_NAMES ==> p[0] != 'O';
  }

  lemma {:induction false} SlotsAreStored(items: seq<Field>)
    requires AllAcceptable(items)
    ensures AllStored(Slots(items))
  {
    hide Stored, FieldName, Acceptable;
    if items == [] {
      forall i | 0 <= i < 8
        ensures Stored(Defaults()[i])
      {
        DefaultIsStored(i);
      }
    } else {
      AcceptablePrefix(items, |items| - 1);
      SlotsAreStored(items[..|items| - 1]);
      AcceptableIsStored(items[|items| - 1]);
    }
  }

  lemma {:induction false} SlotsOfStored(fields: seq<Field>, n: nat)
    requires AllStored(fields) && n <= |fields| == 8
    ensures AllAcceptable(fields[..n]) && Slots(fields[..n]) == fields[..n] + Defaults()[n..]
  {
    hide Acceptable, Defaults, FieldName, AllAcceptable, Slots;
    NoItems();
    if n > 0 {
      SlotsOfStored(fields, n - 1);
      assert Stored(fields[n - 1]);
      hide AllStored;
      OneMore(fields, n - 1);
      OnePlace(fields, Defaults(), n);
    }
  }

  lemma OnePlace<T>(a: seq<T>, b: seq<T>, n: nat)
    requires 0 < n <= |a| == |b|
    ensures (a[..n - 1] + b[n - 1..])[n - 1 := a[n - 1]] == a[..n] + b[n..]
  {
  }

  /** What normalisation returns has one legal, unprotected name per slot, no two alike, and normalising it once
      more, as every reader of a stored configuration does, changes nothing. */
  lemma NormalizedTwice(items: seq<Field>)
    requires Normalized(items).Some?
    ensures var fields := Normalized(items).value;
            && |fields| == 8 && DistinctNames(fields) && Normalized(fields) == Some(fields)
            && forall i :: 0 <= i < 8 ==> LegalName(fields[i].name) && fields[i].name !in PROTECTED_NAMES
  {
    var fields := Slots(items);
    SlotsAreStored(items);
    hide DistinctNames, Defaults, AllAcceptable, Slots, LegalName, PROTECTED_NAMES, FieldName;
    SlotsOfStored(fields, 8);
    assert fields[..8] == fields;
    assert Slots(fields) == fields;
    forall i | 0 <= i < 8
      ensures LegalName(fields[i].name) && fields[i].name !in PROTECTED_NAMES
    {
      assert Stored(fields[i]);
    }
  }

  // ---------- the mapping ----------

  function Names(fields: seq<Field>): seq<string> {
    seq(|fields|, i requires 0 <= i < |fields| => fields[i].name)
  }

  function MapSlot(r: Record, key: string, name: string): Record {
    if key in r && name != key then (map k | k in r && k != key :: r[k])[name := r[key]] else r
  }

  /** The record after the first slots, in order. */
  function Mapped(r: Record, names: seq<string>): Record
    requires |names| <= 8
  {
    if names == [] then r
    else
      var n := |names| - 1;
      MapSlot(Mapped(r, names[..n]), SlotKey(n), names[n])
  }

  /** `_map_other_slots_to_custom_fields`. */
  method MapOtherSlots(record: Record, fields: seq<Field>) returns (mapped: Record)
    requires |fields| == 8
    ensures mapped == Mapped(record, Names(fields))
  {
    mapped := record;
    ghost var names := Names(fields);
    for i := 0 to 8
      invariant mapped == Mapped(record, names[..i])
    {
      assert names[..i + 1][..i] == names[..i];
      var key := SlotKey(i);
      if key in mapped && fields[i].name != key {
        var value := mapped[key];
        mapped := mapped - {key};
        mapped := mapped[fields[i].name := value];
      }
    }
    assert names[..8] == names;
  }

  /** The keys an event and its record are matched on. */
  const MATCHED: set<string> := {"CALL", "QSO_DATE", "TIME_ON", "BAND", "MODE"}

  /** Slot i holds a value when its turn comes: the record has one, or an earlier slot moved its own there. */
  predicate Filled(r: Record, names: seq<string>, i: nat)
    requires i < |names| <= 8
    decreases i, 1
  {
    SlotKey(i) in r || MovedTo(r, names, SlotKey(i), i)
  }

  /** One of the first n slots holds a value and is named `key`. */
  predicate MovedTo(r: Record, names: seq<string>, key: string, n: nat)
    requires n <= |names| <= 8
    decreases n, 0
  {
    exists j | 0 <= j < n :: names[j] == key && Filled(r, names, j)
  }

  lemma SlotKeysDiffer(i: nat, j: nat)
    requires i < 8 && j < 8 && i != j
    ensures SlotKey(i) != SlotKey(j)
  {
    assert SlotKey(i)[6] != SlotKey(j)[6];
  }

  lemma SlotKeyIsNotMatched(i: nat)
    requires i < 8
    ensures SlotKey(i) !in MATCHED
  {
    assert SlotKey(i)[0] == 'O';
    assert "CALL"[0] != 'O' && "QSO_DATE"[0] != 'O' && "TIME_ON"[0] != 'O' && "BAND"[0] != 'O' && "MODE"[0] != 'O';
  }

  lemma KeyAfterSlot(r: Record, key: string, name: string, k: string)
    requires k != key
    ensures k in MapSlot(r, key, name) <==> k in r || (name == k && key in r)
  {
  }

  lemma OneSlot(r: Record, names: seq<string>, n: nat)
    requires n < |names| <= 8
    ensures Mapped(r, names[..n + 1]) == MapSlot(Mapped(r, names[..n]), SlotKey(n), names[n])
  {
    hide SlotKey, MapSlot;
    assert names[..n + 1][..n] == names[..n];
  }

  /** What the mapping has of a slot's key before the slot's turn. */
  lemma {:induction false} KeyBeforeTurn(r: Record, names: seq<string>, i: nat, n: nat)
    requires n <= i < |names| <= 8
    ensures SlotKey(i) in Mapped(r, names[..n]) <==>
            SlotKey(i) in r || MovedTo(r, names, SlotKey(i), n)
    decreases n, i
  {
    hide SlotKey, MapSlot, Mapped, Filled, MovedTo;
    if n == 0 {
      NoSlots(r, names);
      NoMoves(r, names, SlotKey(i));
    } else {
      var m := n - 1;
      KeyBeforeTurn(r, names, i, m);
      KeyBeforeTurn(r, names, m, m);
      SlotKeysDiffer(i, m);
      OneSlot(r, names, m);
      KeyAfterSlot(Mapped(r, names[..m]), SlotKey(m), names[m], SlotKey(i));
      OneMoreMove(r, names, SlotKey(i), m);
      FilledIs(r, names, m);
    }
  }

  lemma NoMoves(r: Record, names: seq<string>, key: string)
    requires |names| <= 8
    ensures !MovedTo(r, names, key, 0)
  {
  }

  lemma OneMoreMove(r: Record, names: seq<string>, key: string, n: nat)
    requires n < |names| <= 8
    ensures MovedTo(r, names, key, n + 1) <==> MovedTo(r, names, key, n) || (names[n] == key && Filled(r, names, n))
  {
    hide Filled;
  }

  lemma FilledIs(r: Record, names: seq<string>, i: nat)
    requires i < |names| <= 8
    ensures Filled(r, names, i) <==> SlotKey(i) in r || MovedTo(r, names, SlotKey(i), i)
  {
    hide MovedTo, SlotKey;
  }

  lemma FilledAtTurn(r: Record, names: seq<string>, i: nat)
    requires i < |names| <= 8
    ensures SlotKey(i) in Mapped(r, names[..i]) <==> Filled(r, names, i)
  {
    hide SlotKey, Mapped, Filled, MovedTo;
    KeyBeforeTurn(r, names, i, i);
    FilledIs(r, names, i);
  }

  /** A key that no filled slot is named after keeps its value, and stays missing when it was. */
  lemma {:induction false} KeyIsKept(r: Record, names: seq<string>, key: string, n: nat)
    requires n <= |names| <= 8 && key in MATCHED
    requires forall i :: 0 <= i < n && names[i] == key ==> !Filled(r, names, i)
    ensures var m := Mapped(r, names[..n]); (key in m <==> key in r) && (key in r ==> m[key] == r[key])
  {
    hide MATCHED, SlotKey, Filled, Mapped;
    if n == 0 {
      NoSlots(r, names);
    } else {
      KeyIsKept(r, names, key, n - 1);
      FilledAtTurn(r, names, n - 1);
      SlotKeyIsNotMatched(n - 1);
      OneSlot(r, names, n - 1);
    }
  }

  predicate NoFilledSlotIsMatched(r: Record, names: seq<string>)
    requires |names| <= 8
  {
    forall i | 0 <= i < |names| :: names[i] in MATCHED ==> !Filled(r, names, i)
  }

  /** When no filled slot is named after a key of the match, the mapped record matches exactly the events the
      record matches. */
  lemma MappedRecordMatches(event: Record, r: Record, names: seq<string>)
    requires |names| <= 8 && NoFilledSlotIsMatched(r, names)
    ensures Match(event, Mapped(r, names)) <==> Match(event, r)
  {
    var m := Mapped(r, names);
    forall key | key in MATCHED
      ensures Comparison(key, m) == Comparison(key, r)
    {
      KeyIsKept(r, names, key, |names|);
      assert names[..|names|] == names;
      hide Mapped, ComparisonValue, MATCHED;
    }
    hide Mapped, Comparison, NoFilledSlotIsMatched;
  }

  // ---------- which configurations keep every match ----------

  /** A value in one slot alone lands under that slot's name. */
  lemma {:induction false} OneFilledSlot(r: Record, names: seq<string>, i: nat, value: string, n: nat)
    requires n <= |names| <= 8 && i < |names|
    requires forall k :: 0 <= k < |names| ==> SlotKey(k) !in r && SlotKey(k) != names[i]
    ensures Mapped(r[SlotKey(i) := value], names[..n]) ==
            if n <= i then r[SlotKey(i) := value] else r[names[i] := value]
  {
    hide SlotKey, MapSlot, Mapped;
    if n == 0 {
      NoSlots(r[SlotKey(i) := value], names);
    } else {
      var m := n - 1;
      OneFilledSlot(r, names, i, value, m);
      OneSlot(r[SlotKey(i) := value], names, m);
      if m == i {
        MovedValue(r, SlotKey(i), names[i], value);
      } else {
        SlotKeysDiffer(m, i);
        OtherKey(r, if m < i then SlotKey(i) else names[i], SlotKey(m), names[m], value);
      }
    }
  }

  lemma NoSlots(r: Record, names: seq<string>)
    requires |names| <= 8
    ensures Mapped(r, names[..0]) == r
  {
  }

  lemma MovedValue(r: Record, key: string, name: string, value: string)
    requires key !in r && name != key
    ensures MapSlot(r[key := value], key, name) == r[name := value]
  {
  }

  lemma OtherKey(r: Record, key: string, slot: string, name: string, value: string)
    requires slot !in r && key != slot
    ensures MapSlot(r[key := value], slot, name) == r[key := value]
  {
  }

  function ExampleValue(key: string): string {
    if key == "QSO_DATE" then "20260101" else if key == "TIME_ON" then "1200" else if key == "BAND" then "20M"
    else "CW"
  }

  const EXAMPLE: Record := map k | k in MATCHED :: ExampleValue(k)

  lemma {:induction false} DigitsOfDigits(s: string)
    requires forall i :: 0 <= i < |s| ==> Digit(s[i])
    ensures Digits(s) == s
  {
    if s != "" {
      DigitsOfDigits(s[1..]);
    }
  }

  lemma DigitsOf40M()
    ensures Digits("40M") == "40"
  {
    assert "40M"[1..] == "0M" && "0M"[1..] == "M" && "M"[1..] == "";
    assert Digits("M") == "";
    assert Digits("0M") == "0";
  }

  lemma TextDiffers(key: string)
    requires key != "BAND" && key != "QSO_DATE" && key != "TIME_ON"
    ensures ComparisonValue(key, "CW") == "CW" && ComparisonValue(key, "40M") == "40M"
  {
    StripOf("40M");
    StripOf("CW");
    hide Strip;
    assert Upper("40M") == "40M" && Upper("CW") == "CW";
  }

  lemma BandDiffers()
    ensures ComparisonValue("BAND", "20M") == "20M" && ComparisonValue("BAND", "40M") == "40M"
  {
    StripOf("40M");
    StripOf("20M");
    hide Strip;
    assert Upper("40M") == "40M" && Upper("20M") == "20M";
  }

  lemma DateDiffers()
    ensures ComparisonValue("QSO_DATE", "20260101") == "20260101" && ComparisonValue("QSO_DATE", "40M") == ""
  {
    DigitsOf40M();
    DigitsOfDigits("20260101");
    hide Digits;
  }

  lemma TimeDiffers()
    ensures ComparisonValue("TIME_ON", "1200") == "120000" && ComparisonValue("TIME_ON", "40M") == ""
  {
    DigitsOf40M();
    DigitsOfDigits("1200");
    hide Digits;
  }

  /** "40M" is a band other than the example's, a call and a mode other than "CW", and no date or time. */
  lemma ExampleDiffers(key: string)
    requires key in MATCHED
    ensures ComparisonValue(key, ExampleValue(key)) != ""
    ensures ComparisonValue(key, ExampleValue(key)) != ComparisonValue(key, "40M")
    ensures key == "BAND" || key == "MODE" ==> ComparisonValue(key, "40M") != ""
  {
    hide ComparisonValue;
    if key == "BAND" {
      BandDiffers();
    } else if key == "QSO_DATE" {
      DateDiffers();
    } else if key == "TIME_ON" {
      TimeDiffers();
    } else {
      TextDiffers(key);
    }
  }

  lemma ExampleMatches(r: Record)
    requires forall key :: key in MATCHED ==> key in r && r[key] == ExampleValue(key)
    ensures Match(EXAMPLE, r)
  {
    hide ComparisonValue, ExampleValue;
    forall key | key in MATCHED
      ensures Comparison(key, EXAMPLE) == Comparison(key, r) != ""
    {
      ExampleDiffers(key);
    }
  }

  lemma ExampleFails(key: string)
    requires key in MATCHED
    ensures !Match(EXAMPLE, EXAMPLE[key := "40M"])
  {
    hide ComparisonValue, ExampleValue;
    ExampleDiffers(key);
    assert key in EXAMPLE;
  }

  lemma BreakingRecord(names: seq<string>, i: nat)
    requires |names| == 8 && i < 8 && names[i] in MATCHED
    ensures var r := EXAMPLE[SlotKey(i) := "40M"]; Match(EXAMPLE, r) && !Match(EXAMPLE, Mapped(r, names))
  {
    forall k | 0 <= k < 8
      ensures SlotKey(k) !in MATCHED
    {
      SlotKeyIsNotMatched(k);
    }
    hide SlotKey, ExampleValue, Match, Mapped;
    OneFilledSlot(EXAMPLE, names, i, "40M", 8);
    assert names[..8] == names;
    ExampleMatches(EXAMPLE[SlotKey(i) := "40M"]);
    ExampleFails(names[i]);
  }

  /** A configuration keeps every match if and only if no slot is named after a key of the match. */
  lemma ConfigurationKeepsMatchIff(names: seq<string>)
    requires |names| == 8
    ensures (forall event, r :: Match(event, r) ==> Match(event, Mapped(r, names))) <==>
            (forall i :: 0 <= i < 8 ==> names[i] !in MATCHED)
  {
    hide Mapped, Match, MATCHED, SlotKey, Filled, ExampleValue, EXAMPLE;
    if i :| 0 <= i < 8 && names[i] in MATCHED {
      BreakingRecord(names, i);
    } else {
      forall event, r | Match(event, r)
        ensures Match(event, Mapped(r, names))
      {
        MappedRecordMatches(event, r, names);
      }
    }
  }

  /** The validation accepts each of these names, as the first slot's for instance. */
  lemma MatchedNamesAreAccepted(key: string)
    requires key in MATCHED
    ensures var stored := Normalized([Field(1, key, "none")]); stored.Some? && Names(stored.value)[0] == key
  {
    hide Defaults, SlotKey, Upper, Strip, DistinctNames, Slots, MATCHED, LegalName, PROTECTED_NAMES;
    KeyIsLegal(key);
    LegalIsNormal(key);
    OneItem(Field(1, key, "none"));
    FirstNameIsDistinct(key);
  }

  lemma OneItem(f: Field)
    requires Acceptable(f)
    ensures AllAcceptable([f]) && Slots([f]) == Defaults()[f.slot - 1 := Field(f.slot, FieldName(f), f.fill)]
  {
    NoItems();
    hide Acceptable, FieldName, Defaults, AllAcceptable, Slots;
    assert [f][..0] == [] && [f][..1] == [f];
    OneMore([f], 0);
  }

  lemma FirstNameIsDistinct(key: string)
    requires key in MATCHED
    ensures DistinctNames(Defaults()[0 := Field(1, key, "none")])
  {
    forall i | 0 < i < 8
      ensures SlotKey(i) != key
    {
      SlotKeyIsNotMatched(i);
    }
    hide MATCHED;
    DefaultNames();
  }

  lemma KeyIsLegal(key: string)
    requires key in MATCHED
    ensures LegalName(key) && key !in PROTECTED_NAMES
  {
  }

  lemma DefaultNames()
    ensures forall i, j :: 0 <= i < j < 8 ==> Defaults()[i].name != Defaults()[j].name
  {
    forall i, j | 0 <= i < j < 8
      ensures SlotKey(i) != SlotKey(j)
    {
      SlotKeysDiffer(i, j);
    }
    hide SlotKey;
  }
}
