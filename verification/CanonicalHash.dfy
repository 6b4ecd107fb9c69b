/** The row hash: a document is canonicalised, printed as JSON with sorted keys, encoded and digested.
    SHA-256 is taken to be collision-free on the payloads, so the payload's text stands for the digest. */
module CanonicalHash {
  import opened Text
  import opened KeyOrder
  import opened Calendar
  import Utf8

  /** A datetime as Python holds it: the wall clock in seconds, and the zone's offset if it has one.
      Only datetimes whose UTC form exists are in the type. */
  datatype Timestamp = Timestamp(wall: int, offset: Option<int>) {
    function Utc(): int {
      wall - offset.GetOr(0)
    }
  }

  type Moment = t: Timestamp | 0 <= t.Utc() < SECONDS witness Timestamp(0, None)

  predicate FloatChar(c: char) {
    Digit(c) || c in ".eINainfty+-"
  }

  /** A float as Python prints it: a point or an exponent, or one of `NaN`, `Infinity` and `-Infinity`. */
  predicate IsFloat(s: string) {
    && s != "" && (Digit(s[0]) || s[0] in "-NI")
    && (forall i | 0 <= i < |s| :: FloatChar(s[i]))
    && ('.' in s || 'e' in s || 'N' in s || 'I' in s)
  }

  type FloatText = s: string | IsFloat(s) witness "0.0"

  datatype Value =
    | Null
    | Bool(b: bool)
    | Num(n: int)
    | Float(x: FloatText)
    | Str(s: string)
    | When(t: Moment)
    | Day(d: DayNumber)
    | Arr(items: seq<Value>)
    | Obj(fields: map<string, Value>)

  type Doc = map<string, Value>

  const EXCLUDED: set<string> := {
    "_id", "id", "rowHash", "row_hash", "createdAt", "updatedAt", "deletedAt", "importBatchId",
    "_created_at", "created_at", "_updated_at", "updated_at", "_deleted_at", "deleted_at"
  }

  /** What `json.dumps` is given. */
  datatype Json =
    | JNull
    | JBool(b: bool)
    | JNum(n: int)
    | JFloat(x: FloatText)
    | JStr(s: string)
    | JArr(items: seq<Json>)
    | JObj(fields: map<string, Json>)

  function Canonical(v: Value): Json {
    match v
    case Null => JNull
    case Bool(b) => JBool(b)
    case Num(n) => JNum(n)
    case Float(x) => JFloat(x)
    case Str(s) => JStr(s)
    case When(t) => JStr(Iso(t.Utc()))
    case Day(d) => JStr(IsoDate(d))
    case Arr(items) => JArr(seq(|items|, i requires 0 <= i < |items| => Canonical(items[i])))
    case Obj(fields) => JObj(map k | k in fields && k !in EXCLUDED :: Canonical(fields[k]))
  }

  // ---------- the JSON text (strings: RFC 8259, section 7) ----------

  function HexDigit(n: nat): char
    requires n < 16
  {
    "0123456789abcdef"[n]
  }

  function EscapeChar(c: char): string {
    if c == '"' then "\\\""
    else if c == '\\' then "\\\\"
    else if c == '\n' then "\\n"
    else if c == '\r' then "\\r"
    else if c == '\t' then "\\t"
    else if c as int == 12 then "\\f"
    else if c as int == 8 then "\\b"
    else if c as int < 0x20 then "\\u00" + [HexDigit(c as int / 16), HexDigit(c as int % 16)]
    else [c]
  }

  function Escape(s: string): string {
    if s == "" then "" else EscapeChar(s[0]) + Escape(s[1..])
  }

  function PrintString(s: string): string {
    "\"" + Escape(s) + "\""
  }

  function PrintInt(n: int): string {
    if n < 0 then "-" + PrintNat(0 - n) else PrintNat(n)
  }

  function Print(v: Json): string
    decreases v, if v.JObj? then |v.fields| + 1 else 0
  {
    match v
    case JNull => "null"
    case JBool(b) => if b then "true" else "false"
    case JNum(n) => PrintInt(n)
    case JFloat(x) => x
    case JStr(s) => PrintString(s)
    case JArr(items) => "[" + PrintItems(items, true)
    case JObj(fields) => "{" + PrintMembers(v, SortedKeys(fields.Keys), true)
  }

  /** The elements and the closing bracket; `first` says that no comma is due. */
  function PrintItems(items: seq<Json>, first: bool): string
    decreases items, 0
  {
    if items == [] then "]"
    else (if first then "" else ",") + Print(items[0]) + PrintItems(items[1..], false)
  }

  function PrintMembers(v: Json, names: seq<string>, first: bool): string
    requires v.JObj? && forall k :: k in names ==> k in v.fields
    decreases v, |names|
  {
    if names == [] then "}"
    else (if first then "" else ",") + PrintString(names[0]) + ":" + Print(v.fields[names[0]])
         + PrintMembers(v, names[1..], false)
  }

  /** `canonical_document_hash`. */
  function RowHash(doc: Doc): string {
    Print(Canonical(Obj(doc)))
  }

  // ---------- the JSON text determines the value ----------

  lemma Cancel(x: string, s: string, t: string)
    requires x + s == x + t
    ensures s == t
  {
    assert s == (x + s)[|x|..];
    assert t == (x + t)[|x|..];
  }

  lemma CancelEqual(x: string, y: string, s: string, t: string)
    requires |x| == |y| && x + s == y + t
    ensures x == y && s == t
  {
    assert x == (x + s)[..|x|] && s == (x + s)[|x|..];
    assert y == (y + t)[..|y|] && t == (y + t)[|y|..];
  }

  lemma HexDigitInjective(m: nat, n: nat)
    requires m < 16 && n < 16 && HexDigit(m) == HexDigit(n)
    ensures m == n
  {
    assert "0123456789abcdef" ==
           ['0', '1', '2', '3', '4', '5', '6', '7', '8', '9', 'a', 'b', 'c', 'd', 'e', 'f'];
  }

  lemma EscapeLength(c: char, d: char)
    requires EscapeChar(c)[0] == EscapeChar(d)[0]
    requires |EscapeChar(c)| > 1 && |EscapeChar(d)| > 1 ==> EscapeChar(c)[1] == EscapeChar(d)[1]
    ensures |EscapeChar(c)| == |EscapeChar(d)|
  {
    hide HexDigit;
  }

  lemma EscapeCharInjective(c: char, d: char)
    requires EscapeChar(c) == EscapeChar(d)
    ensures c == d
  {
    var e, f := EscapeChar(c), EscapeChar(d);
    if |e| == 6 {
      hide HexDigit;
      assert e[4] == f[4] && e[5] == f[5];
      HexDigitInjective(c as int / 16, d as int / 16);
      HexDigitInjective(c as int % 16, d as int % 16);
    } else if |e| == 2 {
      hide HexDigit;
      assert e[1] == f[1];
    } else {
      assert e[0] == f[0];
    }
  }

  lemma EscapeCharFree(c: char, d: char, s: string, t: string)
    requires EscapeChar(c) + s == EscapeChar(d) + t
    ensures c == d && s == t
  {
    var e, f := EscapeChar(c), EscapeChar(d);
    EscapeNotEmpty(c);
    EscapeNotEmpty(d);
    assert e[0] == (e + s)[0] && f[0] == (f + t)[0];
    assert |e| > 1 ==> e[1] == (e + s)[1];
    assert |f| > 1 ==> f[1] == (f + t)[1];
    EscapeLength(c, d);
    hide EscapeChar;
    CancelEqual(e, f, s, t);
    EscapeCharInjective(c, d);
  }

  lemma EscapeNotEmpty(c: char)
    ensures EscapeChar(c) != "" && EscapeChar(c)[0] != '"'
  {
    hide HexDigit;
  }

  lemma {:induction false} EscapeFree(a: string, b: string, s: string, t: string)
    requires Escape(a) + ("\"" + s) == Escape(b) + ("\"" + t)
    ensures a == b && s == t
  {
    hide EscapeChar;
    var x, y := Escape(a) + ("\"" + s), Escape(b) + ("\"" + t);
    assert a == "" ==> x == "\"" + s;
    assert b == "" ==> y == "\"" + t;
    if a != "" {
      EscapeNotEmpty(a[0]);
      assert x == EscapeChar(a[0]) + (Escape(a[1..]) + ("\"" + s));
      assert x[0] != '"';
    }
    if b != "" {
      EscapeNotEmpty(b[0]);
      assert y == EscapeChar(b[0]) + (Escape(b[1..]) + ("\"" + t));
      assert y[0] != '"';
    }
    if a != "" && b != "" {
      EscapeCharFree(a[0], b[0], Escape(a[1..]) + ("\"" + s), Escape(b[1..]) + ("\"" + t));
      EscapeFree(a[1..], b[1..], s, t);
      assert a == [a[0]] + a[1..] && b == [b[0]] + b[1..];
    } else if a == b {
      Cancel("\"", s, t);
    }
  }

  lemma PrintStringFree(a: string, b: string, s: string, t: string)
    requires PrintString(a) + s == PrintString(b) + t
    ensures a == b && s == t
  {
    hide Escape;
    ConcatAssoc("\"" + Escape(a), "\"", s);
    ConcatAssoc("\"", Escape(a), "\"" + s);
    ConcatAssoc("\"" + Escape(b), "\"", t);
    ConcatAssoc("\"", Escape(b), "\"" + t);
    Cancel("\"", Escape(a) + ("\"" + s), Escape(b) + ("\"" + t));
    EscapeFree(a, b, s, t);
  }

  predicate EndsNumber(s: string) {
    s == "" || !FloatChar(s[0])
  }

  lemma {:induction false} NumberFree(a: string, b: string, s: string, t: string)
    requires (forall i :: 0 <= i < |a| ==> FloatChar(a[i])) && forall i :: 0 <= i < |b| ==> FloatChar(b[i])
    requires EndsNumber(s) && EndsNumber(t) && a + s == b + t
    ensures a == b && s == t
  {
    hide FloatChar;
    assert a == "" ==> a + s == s;
    assert b == "" ==> b + t == t;
    assert a != "" ==> (a + s)[0] == a[0];
    assert b != "" ==> (b + t)[0] == b[0];
    if a != "" && b != "" {
      assert (a + s)[1..] == a[1..] + s && (b + t)[1..] == b[1..] + t;
      NumberFree(a[1..], b[1..], s, t);
      assert a == [a[0]] + a[1..] && b == [b[0]] + b[1..];
    }
  }

  function Abs(n: int): nat {
    if n < 0 then 0 - n else n
  }

  /** The text of an integer is a number's, but no float's. */
  lemma PrintIntShape(n: int)
    ensures forall i :: 0 <= i < |PrintInt(n)| ==> FloatChar(PrintInt(n)[i]) && PrintInt(n)[i] !in ".eNI"
    ensures n < 0 <==> PrintInt(n)[0] == '-'
  {
    hide PrintNat;
  }

  lemma PrintIntInjective(m: int, n: int)
    requires PrintInt(m) == PrintInt(n)
    ensures m == n
  {
    PrintIntShape(m);
    PrintIntShape(n);
    hide PrintNat;
    if m < 0 {
      Cancel("-", PrintNat(Abs(m)), PrintNat(Abs(n)));
    }
    PrintNatInjective(Abs(m), Abs(n));
  }

  /** The text of a number: an integer or a float. */
  function NumberText(v: Json): string
    requires v.JNum? || v.JFloat?
  {
    if v.JNum? then PrintInt(v.n) else v.x
  }

  lemma NumberTextInjective(v: Json, w: Json)
    requires (v.JNum? || v.JFloat?) && (w.JNum? || w.JFloat?) && NumberText(v) == NumberText(w)
    ensures v == w
  {
    if v.JNum? {
      PrintIntShape(v.n);
    }
    if w.JNum? {
      PrintIntShape(w.n);
    }
    hide PrintInt, FloatChar;
    if v.JNum? && w.JNum? {
      PrintIntInjective(v.n, w.n);
    }
  }

  lemma NumbersFree(v: Json, w: Json, s: string, t: string)
    requires (v.JNum? || v.JFloat?) && (w.JNum? || w.JFloat?)
    requires EndsNumber(s) && EndsNumber(t) && NumberText(v) + s == NumberText(w) + t
    ensures v == w && s == t
  {
    if v.JNum? {
      PrintIntShape(v.n);
    }
    if w.JNum? {
      PrintIntShape(w.n);
    }
    hide PrintInt, FloatChar, EndsNumber;
    NumberFree(NumberText(v), NumberText(w), s, t);
    NumberTextInjective(v, w);
  }

  function Kind(v: Json): nat {
    match v
    case JNull => 0
    case JBool(b) => if b then 1 else 2
    case JNum(_) => 3
    case JFloat(_) => 3
    case JStr(_) => 4
    case JArr(_) => 5
    case JObj(_) => 6
  }

  function KindOfChar(c: char): nat {
    if c == 'n' then 0 else if c == 't' then 1 else if c == 'f' then 2
    else if c == '"' then 4 else if c == '[' then 5 else if c == '{' then 6 else 3
  }

  lemma FirstChar(v: Json)
    ensures Print(v) != "" && KindOfChar(Print(v)[0]) == Kind(v)
    ensures Print(v)[0] != ']'
  {
    hide PrintNat, PrintItems, PrintMembers, Escape;
  }

  /** What can stand behind a printed value. */
  predicate Follows(s: string) {
    s == "" || s[0] == ',' || s[0] == ']' || s[0] == '}'
  }

  lemma {:induction false} PrintFree(v: Json, w: Json, s: string, t: string)
    requires Follows(s) && Follows(t) && Print(v) + s == Print(w) + t
    ensures v == w && s == t
    decreases v, if v.JObj? then |v.fields| + 1 else 0
  {
    FirstChar(v);
    FirstChar(w);
    assert Print(v)[0] == (Print(v) + s)[0] && Print(w)[0] == (Print(w) + t)[0];
    hide PrintInt, PrintString, PrintItems, PrintMembers, SortedKeys, Digit;
    match v
    case JNull =>
      Cancel("null", s, t);
    case JBool(b) =>
      Cancel(Print(v), s, t);
    case JNum(_) =>
      EndOfNumber(s);
      EndOfNumber(t);
      NumbersFree(v, w, s, t);
    case JFloat(_) =>
      EndOfNumber(s);
      EndOfNumber(t);
      NumbersFree(v, w, s, t);
    case JStr(a) =>
      PrintStringFree(a, w.s, s, t);
    case JArr(items) =>
      ConcatAssoc("[", PrintItems(items, true), s);
      ConcatAssoc("[", PrintItems(w.items, true), t);
      Cancel("[", PrintItems(items, true) + s, PrintItems(w.items, true) + t);
      PrintItemsFree(items, w.items, true, s, t);
    case JObj(fields) =>
      var ks, ls := SortedKeys(fields.Keys), SortedKeys(w.fields.Keys);
      ConcatAssoc("{", PrintMembers(v, ks, true), s);
      ConcatAssoc("{", PrintMembers(w, ls, true), t);
      Cancel("{", PrintMembers(v, ks, true) + s, PrintMembers(w, ls, true) + t);
      PrintMembersFree(v, w, ks, ls, true, s, t);
      assert forall k :: k in fields <==> k in ks;
      assert forall k :: k in w.fields <==> k in ls;
      assert fields == w.fields;
  }

  lemma EndOfNumber(s: string)
    requires Follows(s)
    ensures EndsNumber(s)
  {
  }

  function Comma(first: bool): string {
    if first then "" else ","
  }

  lemma PrintItemsShape(items: seq<Json>, first: bool, s: string)
    ensures items == [] ==> PrintItems(items, first) + s == "]" + s
    ensures items != [] ==>
              var more := PrintItems(items[1..], false) + s;
              && PrintItems(items, first) + s == Comma(first) + (Print(items[0]) + more)
              && (Print(items[0]) + more)[0] != ']'
              && Follows(more)
  {
    if items != [] {
      FirstChar(items[0]);
      hide Print;
      ConcatAssoc(Comma(first) + Print(items[0]), PrintItems(items[1..], false), s);
      ConcatAssoc(Comma(first), Print(items[0]), PrintItems(items[1..], false) + s);
    }
  }

  lemma {:induction false} PrintItemsFree(a: seq<Json>, b: seq<Json>, first: bool, s: string, t: string)
    requires PrintItems(a, first) + s == PrintItems(b, first) + t
    ensures a == b && s == t
    decreases a, 0
  {
    PrintItemsShape(a, first, s);
    PrintItemsShape(b, first, t);
    hide Print, PrintItems;
    assert ("]" + s)[0] == ']' && ("]" + t)[0] == ']';
    if a != [] && b != [] {
      var x, y := PrintItems(a[1..], false) + s, PrintItems(b[1..], false) + t;
      Cancel(Comma(first), Print(a[0]) + x, Print(b[0]) + y);
      PrintFree(a[0], b[0], x, y);
      PrintItemsFree(a[1..], b[1..], false, s, t);
      assert a == [a[0]] + a[1..] && b == [b[0]] + b[1..];
    } else if a == b {
      Cancel("]", s, t);
    }
  }

  lemma PrintMembersShape(v: Json, names: seq<string>, first: bool, s: string)
    requires v.JObj? && forall k :: k in names ==> k in v.fields
    ensures names == [] ==> PrintMembers(v, names, first) + s == "}" + s
    ensures names != [] ==>
              var more := PrintMembers(v, names[1..], false) + s;
              var value := Print(v.fields[names[0]]) + more;
              && PrintMembers(v, names, first) + s ==
                 Comma(first) + (PrintString(names[0]) + (":" + value))
              && (PrintString(names[0]) + (":" + value))[0] != '}'
              && Follows(more)
  {
    if names != [] {
      hide Print, Escape;
      var key, value, more := PrintString(names[0]), Print(v.fields[names[0]]), PrintMembers(v, names[1..], false);
      Regroup5(Comma(first), key, ":", value, more, s);
    }
  }

  lemma Regroup5(a: string, b: string, c: string, d: string, e: string, f: string)
    ensures a + b + c + d + e + f == a + (b + (c + (d + (e + f))))
  {
    assert forall x: string, y: string, z: string :: x + y + z == x + (y + z);
  }

  lemma {:induction false} PrintMembersFree(
    v: Json, w: Json, ks: seq<string>, ls: seq<string>, first: bool, s: string, t: string)
    requires v.JObj? && w.JObj?
    requires (forall k :: k in ks ==> k in v.fields) && forall k :: k in ls ==> k in w.fields
    requires PrintMembers(v, ks, first) + s == PrintMembers(w, ls, first) + t
    ensures ks == ls && s == t && forall k :: k in ks ==> k in w.fields && v.fields[k] == w.fields[k]
    decreases v, |ks|
  {
    PrintMembersShape(v, ks, first, s);
    PrintMembersShape(w, ls, first, t);
    hide Print, PrintMembers, PrintString;
    assert ("}" + s)[0] == '}' && ("}" + t)[0] == '}';
    if ks != [] && ls != [] {
      var x, y := PrintMembers(v, ks[1..], false) + s, PrintMembers(w, ls[1..], false) + t;
      var p, q := v.fields[ks[0]], w.fields[ls[0]];
      Cancel(Comma(first), PrintString(ks[0]) + (":" + (Print(p) + x)), PrintString(ls[0]) + (":" + (Print(q) + y)));
      PrintStringFree(ks[0], ls[0], ":" + (Print(p) + x), ":" + (Print(q) + y));
      Cancel(":", Print(p) + x, Print(q) + y);
      PrintFree(p, q, x, y);
      PrintMembersFree(v, w, ks[1..], ls[1..], false, s, t);
      assert ks == [ks[0]] + ks[1..] && ls == [ls[0]] + ls[1..];
    } else if ks == ls {
      Cancel("}", s, t);
    }
  }

  // ---------- when two documents have the same hash ----------

  /** Equal outside the excluded keys at every depth, datetimes compared as instants; a datetime or a
      date also matches the string that is its ISO text. */
  predicate Same(v: Value, w: Value)
    decreases v
  {
    match (v, w)
    case (When(t), When(u)) => t.Utc() == u.Utc()
    case (When(t), Str(s)) => s == Iso(t.Utc())
    case (Str(s), When(u)) => s == Iso(u.Utc())
    case (Day(d), Str(s)) => s == IsoDate(d)
    case (Str(s), Day(e)) => s == IsoDate(e)
    case (Arr(a), Arr(b)) => |a| == |b| && forall i | 0 <= i < |a| :: Same(a[i], b[i])
    case (Obj(a), Obj(b)) => SameFields(v, w)
    case _ => v == w
  }

  predicate SameFields(v: Value, w: Value)
    requires v.Obj? && w.Obj?
    decreases v, 0
  {
    && (forall k | k in v.fields && k !in EXCLUDED :: k in w.fields && Same(v.fields[k], w.fields[k]))
    && forall k | k in w.fields && k !in EXCLUDED :: k in v.fields
  }

  lemma {:induction false} CanonicalIffSame(v: Value, w: Value)
    ensures Canonical(v) == Canonical(w) <==> Same(v, w)
    decreases v
  {
    hide Iso, IsoDate;
    match (v, w)
    case (When(t), When(u)) =>
      if Iso(t.Utc()) == Iso(u.Utc()) {
        IsoInjective(t.Utc(), u.Utc());
      }
    case (Day(d), Day(e)) =>
      if IsoDate(d) == IsoDate(e) {
        IsoDateInjective(d, e);
      }
    case (Arr(a), Arr(b)) =>
      forall i | 0 <= i < |a| && 0 <= i < |b|
        ensures Canonical(a[i]) == Canonical(b[i]) <==> Same(a[i], b[i])
      {
        CanonicalIffSame(a[i], b[i]);
      }
      CanonicalArrays(a, b);
    case (Obj(a), Obj(b)) =>
      forall k | k in a && k in b
        ensures Canonical(a[k]) == Canonical(b[k]) <==> Same(a[k], b[k])
      {
        CanonicalIffSame(a[k], b[k]);
      }
      CanonicalObjects(a, b);
    case _ =>
  }

  lemma CanonicalArrays(a: seq<Value>, b: seq<Value>)
    ensures Canonical(Arr(a)) == Canonical(Arr(b)) <==>
            |a| == |b| && forall i | 0 <= i < |a| :: Canonical(a[i]) == Canonical(b[i])
  {
    var x, y := Canonical(Arr(a)).items, Canonical(Arr(b)).items;
    assert forall i | 0 <= i < |a| :: x[i] == Canonical(a[i]);
    assert forall i | 0 <= i < |b| :: y[i] == Canonical(b[i]);
  }

  lemma CanonicalObjects(a: map<string, Value>, b: map<string, Value>)
    ensures Canonical(Obj(a)) == Canonical(Obj(b)) <==>
            && (forall k | k in a && k !in EXCLUDED :: k in b && Canonical(a[k]) == Canonical(b[k]))
            && forall k | k in b && k !in EXCLUDED :: k in a
  {
    var x, y := Canonical(Obj(a)).fields, Canonical(Obj(b)).fields;
    assert forall k | k in a && k !in EXCLUDED :: k in x && x[k] == Canonical(a[k]);
    assert forall k | k in b && k !in EXCLUDED :: k in y && y[k] == Canonical(b[k]);
    assert x == y <==> x.Keys == y.Keys && forall k | k in x :: x[k] == y[k];
  }

  /** Two documents get the same row hash, and their payloads the same bytes, exactly when they are the
      same outside the excluded keys up to the zone datetimes are written in. */
  lemma RowHashIffSame(d: Doc, e: Doc)
    ensures RowHash(d) == RowHash(e) <==> Same(Obj(d), Obj(e))
    ensures Utf8.Encode(RowHash(d)) == Utf8.Encode(RowHash(e)) <==> Same(Obj(d), Obj(e))
  {
    CanonicalIffSame(Obj(d), Obj(e));
    hide Print, Canonical, Same;
    var a, b := Canonical(Obj(d)), Canonical(Obj(e));
    if Print(a) == Print(b) {
      assert Print(a) + "" == Print(b) + "";
      PrintFree(a, b, "", "");
    }
    if Utf8.Encode(RowHash(d)) == Utf8.Encode(RowHash(e)) {
      Utf8.EncodeInjective(RowHash(d), RowHash(e));
    }
  }

  /** A datetime and the string that is its ISO text are told apart by value but not by hash. */
  lemma TextCollidesWithDatetime(t: Moment)
    ensures var d: Doc, e: Doc := map["at" := When(t)], map["at" := Str(Iso(t.Utc()))];
            d != e && RowHash(d) == RowHash(e)
  {
    var d: Doc, e: Doc := map["at" := When(t)], map["at" := Str(Iso(t.Utc()))];
    assert d["at"] != e["at"];
    assert Same(d["at"], e["at"]);
    RowHashIffSame(d, e);
  }

  // ---------- what the database does to datetimes ----------

  /** What is read back after storing: the same instant, without its offset. */
  function Stored(v: Value): Value {
    match v
    case When(t) => When(Timestamp(t.Utc(), None))
    case Arr(items) => Arr(seq(|items|, i requires 0 <= i < |items| => Stored(items[i])))
    case Obj(fields) => Obj(map k | k in fields :: Stored(fields[k]))
    case _ => v
  }

  /** Losing the offsets does not change the hash. */
  lemma {:induction false} StoredKeepsCanonical(v: Value)
    ensures Canonical(Stored(v)) == Canonical(v)
  {
    hide Iso, IsoDate;
    match v
    case Arr(items) =>
      forall i | 0 <= i < |items|
        ensures Canonical(Stored(items[i])) == Canonical(items[i])
      {
        StoredKeepsCanonical(items[i]);
      }
    case Obj(fields) =>
      forall k | k in fields
        ensures Canonical(Stored(fields[k])) == Canonical(fields[k])
      {
        StoredKeepsCanonical(fields[k]);
      }
    case _ =>
  }
}
