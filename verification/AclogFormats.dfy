/** The two ways a response lists full records, wrapped or flat, read the same. */
module AclogFormats {
  import opened Text
  import opened AclogTags
  import opened AclogParser

  // ---------- printing ----------

  function FieldNodes(fs: seq<Tag>): seq<Node> {
    if fs == [] then [] else [Elem(fs[0].name, [Text(fs[0].value)], fs[0].name)] + FieldNodes(fs[1..])
  }

  function WrappedNodes(rs: seq<seq<Tag>>, wrapper: string): seq<Node> {
    if rs == [] then [] else [Elem(wrapper, FieldNodes(rs[0]), wrapper)] + WrappedNodes(rs[1..], wrapper)
  }

  function Flat(rs: seq<seq<Tag>>): seq<Tag> {
    if rs == [] then [] else rs[0] + Flat(rs[1..])
  }

  /** A message with the command's tag; ACLog leaves it open, other programs close it. */
  function Message(command: string, closed: bool, nodes: seq<Node>): string {
    OpenTag("CMD") + (OpenTag(command) + Print(nodes) + (if closed then CloseTag(command) else "")) + CloseTag("CMD")
  }

  /** A field whose name cannot be taken for the message's own tags. */
  predicate GoodField(f: Tag, command: string) {
    && Name(f.name) && '<' !in f.value
    && Upper(f.name) != "CMD" && Upper(f.name) != Upper(command) && Upper(f.name) !in WRAPPERS
  }

  /** A record that starts with its only CALL, which is not empty. */
  predicate GoodRecord(r: seq<Tag>, command: string) {
    && (forall i | 0 <= i < |r| :: GoodField(r[i], command))
    && r != [] && Upper(r[0].name) == "CALL" && r[0].value != ""
    && forall i | 1 <= i < |r| :: Upper(r[i].name) != "CALL"
  }

  /** The records both forms stand for. */
  function Meant(rs: seq<seq<Tag>>): seq<Record> {
    if rs == [] then [] else Kept(ToAdif(DictOf(UpperNames(rs[0])))) + Meant(rs[1..])
  }

  function UpperNames(fs: seq<Tag>): seq<Tag> {
    if fs == [] then [] else [Tag(Upper(fs[0].name), fs[0].value)] + UpperNames(fs[1..])
  }

  // ---------- the message and its command ----------

  lemma {:induction false} SpacelessStrip(s: string)
    requires forall i :: 0 <= i < |s| ==> !Space(s[i])
    ensures Strip(s) == s
  {
    assert StripLeft(s) == s;
    assert StripRight(s) == s;
  }

  lemma CleanName(name: string)
    requires Name(name)
    ensures Strip(name) == name && Upper(Strip(name)) == Upper(name)
    ensures Name(Upper(name)) && Upper(Strip(Upper(name))) == Upper(name)
  {
    NameOfUpper(name, Upper(name)) by { UpperIdempotent(name); }
    UpperIdempotent(name);
    SpacelessStrip(name);
    SpacelessStrip(Upper(name));
  }

  lemma {:induction false} NoCloseInside(p: string, upper: string)
    requires Silent(p, upper)
    ensures FindClose(p, upper) == None && FindLastClose(p, upper) == None
  {
    if p != "" {
      assert p[0..] + "" == p;
      forall i, t: string | 0 <= i < |p[1..]|
        ensures !CloseHere(p[1..][i..] + t, upper)
      {
        assert p[1..][i..] == p[i + 1..];
      }
      NoCloseInside(p[1..], upper);
    }
  }

  lemma {:induction false} LastCloseBehind(p: string, tail: string, upper: string)
    requires FindLastClose(tail, upper) == Some(0)
    ensures FindLastClose(p + tail, upper) == Some(|p|)
  {
    if p == "" {
      assert p + tail == tail;
    } else {
      assert (p + tail)[1..] == p[1..] + tail;
      LastCloseBehind(p[1..], tail, upper);
    }
  }

  lemma {:induction false} NoTagInText(p: string, upper: string)
    requires '<' !in p
    ensures FindLastClose(p, upper) == None
  {
    if p != "" {
      NoTagInText(p[1..], upper);
    }
  }

  lemma LastCloseTag(name: string)
    requires Name(name)
    ensures FindLastClose(CloseTag(name), Upper(name)) == Some(0)
  {
    var s := CloseTag(name);
    assert s + "" == s;
    CloseTagHere(name, "");
    forall i | 1 <= i < |s|
      ensures s[i] != '<'
    {
      assert 2 <= i < |name| + 2 ==> s[i] == name[i - 2] && NameChar(name[i - 2]);
    }
    NoTagInText(s[1..], Upper(name));
    assert CloseHere(s, Upper(name));
    hide CloseHere, CloseTag;
  }

  /** The text between the command's tags, or behind the open one. */
  function BodyText(command: string, closed: bool, nodes: seq<Node>): string {
    if closed then Print(nodes) else OpenTag(command) + Print(nodes)
  }

  lemma OpenTagHere(name: string, tail: string)
    ensures FindOpen(OpenTag(name) + tail, Upper(name)) == Some(0) && (OpenTag(name) + tail)[|name| + 2..] == tail
  {
    assert (OpenTag(name) + tail)[1..|name| + 1] == name;
  }

  lemma EnclosedText(command: string, closed: bool, nodes: seq<Node>)
    requires Name(command) && Silent(Print(nodes), Upper(command))
    ensures var p := Print(nodes);
            Enclosed(OpenTag(command) + p + (if closed then CloseTag(command) else ""), Upper(command)).GetOr(
              OpenTag(command) + p + (if closed then CloseTag(command) else "")) == BodyText(command, closed, nodes)
  {
    var p, end := Print(nodes), if closed then CloseTag(command) else "";
    ConcatAssoc(OpenTag(command), p, end);
    OpenTagHere(command, p + end);
    if closed {
      LastCloseTag(command);
      LastCloseBehind(p, CloseTag(command), Upper(command));
      assert (p + end)[..|p|] == p;
    } else {
      NoCloseInside(p, Upper(command));
      assert p + end == p;
      assert OpenTag(command) + p + end == OpenTag(command) + p;
    }
    hide OpenTag, CloseTag, FindOpen, FindLastClose, Silent, Upper;
  }

  lemma CommandTextOf(x: string)
    requires Silent(x, "CMD")
    ensures CommandText(OpenTag("CMD") + x + CloseTag("CMD")) == Some(x)
  {
    assert Upper("CMD") == "CMD";
    var tail := CloseTag("CMD");
    assert tail + "" == tail;
    CloseTagHere("CMD", "");
    FindCloseBehind(x, tail, "CMD");
    ConcatAssoc(OpenTag("CMD"), x, tail);
    OpenTagHere("CMD", x + tail);
    assert (x + tail)[..|x|] == x;
    hide OpenTag, CloseTag, FindOpen, FindClose, Silent;
  }

  lemma MessageIsSilent(command: string, closed: bool, nodes: seq<Node>)
    requires Name(command) && Upper(command) != "CMD" && Proper(nodes, {"CMD", Upper(command)})
    ensures Silent(OpenTag(command) + Print(nodes) + (if closed then CloseTag(command) else ""), "CMD")
    ensures Silent(Print(nodes), Upper(command))
  {
    UpperHasNoBracket(command);
    hide OpenTag, CloseTag, Silent, Upper, Name, Proper, Print;
    var p, end := Print(nodes), if closed then CloseTag(command) else "";
    SilentForest(nodes, {"CMD", Upper(command)}, "CMD");
    SilentForest(nodes, {"CMD", Upper(command)}, Upper(command));
    SilentOpenTag(command, "CMD");
    if closed {
      SilentCloseTag(command, "CMD");
    } else {
      SilentText("", "CMD");
    }
    SilentConcat(OpenTag(command), p, "CMD");
    SilentConcat(OpenTag(command) + p, end, "CMD");
  }

  lemma FirstTag(command: string, p: string, end: string)
    requires Name(command)
    ensures OpeningName(StripLeft(OpenTag(command) + p + end)) == Some(command)
  {
    var x := OpenTag(command) + p + end;
    ConcatAssoc(OpenTag(command), p, end);
    OpeningNameOf(command, p + end);
    assert x[0] == '<' && StripLeft(x) == x;
    hide OpenTag, OpeningName;
  }

  lemma MessageBody(command: string, closed: bool, nodes: seq<Node>)
    requires Name(command) && Upper(command) != "CMD" && Proper(nodes, {"CMD", Upper(command)})
    ensures CommandAndBody(Message(command, closed, nodes)) == Command(Upper(command), BodyText(command, closed, nodes))
    ensures Silent(Print(nodes), Upper(command))
  {
    hide OpenTag, CloseTag, Silent, Upper, Enclosed, CommandText, OpeningName, StripLeft, Print, BodyText, Proper, Name;
    var p, end := Print(nodes), if closed then CloseTag(command) else "";
    MessageIsSilent(command, closed, nodes);
    CommandTextOf(OpenTag(command) + p + end);
    EnclosedText(command, closed, nodes);
    FirstTag(command, p, end);
  }

  /** An opening tag that is not closed is read as text. */
  lemma OpenCommandIsText(command: string, p: string)
    requires Name(command) && FindClose(p, Upper(command)) == None
    ensures Leaves(OpenTag(command) + p) == Leaves(p) && FindTags(OpenTag(command) + p) == FindTags(p)
  {
    var rest := command + ">" + p;
    assert OpenTag(command) + p == ['<'] + rest;
    UnclosedTag(command, p);
    assert '<' !in command + ">";
    hide TagHere, Leaves, FindTags, OpenTag, FindClose, Upper;
    SkipChar('<', rest);
    SkipText(command + ">", p);
  }

  lemma UnclosedTag(command: string, p: string)
    requires Name(command) && FindClose(p, Upper(command)) == None
    ensures TagHere(OpenTag(command) + p).None?
  {
    OpeningNameOf(command, p);
    assert (OpenTag(command) + p)[|OpenTag(command)|..] == p;
    hide OpeningName, OpenTag, FindClose, Upper, Name;
  }

  /** What the parser finds in the text between the command's tags. */
  lemma BodyScan(command: string, closed: bool, nodes: seq<Node>)
    requires Name(command) && Upper(command) != "CMD" && Proper(nodes, {"CMD", Upper(command)})
    requires Silent(Print(nodes), Upper(command))
    ensures var body := BodyText(command, closed, nodes);
            Leaves(body) == ForestLeaves(nodes) && FindTags(body) == TopTags(nodes)
  {
    var p := Print(nodes);
    UpperHasNoBracket(command);
    NothingInNothing();
    hide Leaves, FindTags, Silent, Proper, Upper, Name, OpenTag, Print;
    LeavesOfPrintedThen(nodes, {"CMD", Upper(command)}, "");
    assert p + "" == p;
    if !closed {
      NoCloseInside(p, Upper(command));
      OpenCommandIsText(command, p);
    }
  }

  // ---------- fields ----------

  ghost predicate GoodFields(fs: seq<Tag>, command: string) {
    forall i :: 0 <= i < |fs| ==> GoodField(fs[i], command)
  }

  lemma {:induction false} FieldNodesScan(fs: seq<Tag>, command: string, inside: set<string>)
    requires GoodFields(fs, command) && inside <= {"CMD", Upper(command)} + WRAPPERS
    ensures Proper(FieldNodes(fs), inside)
    ensures ForestLeaves(FieldNodes(fs)) == UpperNames(fs) && TopTags(FieldNodes(fs)) == fs
  {
    hide WRAPPERS;
    if fs != [] {
      var f := fs[0];
      assert GoodField(f, command);
      assert Upper(f.name) !in inside;
      FieldNodesScan(fs[1..], command, inside);
      OneField(f, inside);
      assert fs == [f] + fs[1..];
    }
  }

  lemma OneField(f: Tag, inside: set<string>)
    requires Name(f.name) && '<' !in f.value && Upper(f.name) !in inside
    ensures ProperNode(Elem(f.name, [Text(f.value)], f.name), inside)
    ensures NodeLeaves(Elem(f.name, [Text(f.value)], f.name)) == [Tag(Upper(f.name), f.value)]
    ensures TopTag(Elem(f.name, [Text(f.value)], f.name)) == [f]
  {
    var body := [Text(f.value)];
    assert body[1..] == [];
    assert Print(body) == f.value;
    assert ForestLeaves(body) == [];
    assert Proper(body, inside + {Upper(f.name)});
    hide Upper, Name;
  }

  lemma {:induction false} FieldNodesConcat(fs: seq<Tag>, gs: seq<Tag>)
    ensures FieldNodes(fs + gs) == FieldNodes(fs) + FieldNodes(gs)
    ensures UpperNames(fs + gs) == UpperNames(fs) + UpperNames(gs)
  {
    hide Upper;
    if fs == [] {
      assert fs + gs == gs;
    } else {
      assert (fs + gs)[1..] == fs[1..] + gs;
      FieldNodesConcat(fs[1..], gs);
      var f := fs[0];
      NodesAssoc([Elem(f.name, [Text(f.value)], f.name)], FieldNodes(fs[1..]), FieldNodes(gs));
      TagsAssoc([Tag(Upper(f.name), f.value)], UpperNames(fs[1..]), UpperNames(gs));
    }
  }

  lemma NodesAssoc(a: seq<Node>, b: seq<Node>, c: seq<Node>)
    ensures a + b + c == a + (b + c)
  {
  }

  // ---------- the wrapped form ----------

  ghost predicate AllGoodFields(rs: seq<seq<Tag>>, command: string) {
    forall i :: 0 <= i < |rs| ==> GoodFields(rs[i], command)
  }

  lemma {:induction false} WrappedScan(rs: seq<seq<Tag>>, command: string, wrapper: string)
    requires AllGoodFields(rs, command)
    requires Name(wrapper) && Upper(wrapper) in WRAPPERS && Upper(command) !in WRAPPERS
    ensures Proper(WrappedNodes(rs, wrapper), {"CMD", Upper(command)})
    ensures var bodies := WrappedBodies(TopTags(WrappedNodes(rs, wrapper)));
            RecordsOfBodies(bodies) == Meant(rs) && |bodies| == |rs|
    ensures rs == [] ==> ForestLeaves(WrappedNodes(rs, wrapper)) == []
  {
    if rs != [] {
      var r := rs[0];
      WrappedScan(rs[1..], command, wrapper);
      assert GoodFields(r, command);
      hide WRAPPERS, ToAdif, DictOf, FieldNodes, GoodFields;
      WrappedOne(r, command, wrapper);
      hide Upper, Name, ProperNode, TopTag, Leaves;
      WrappedCons(Tag(wrapper, Print(FieldNodes(r))), TopTags(WrappedNodes(rs[1..], wrapper)));
    }
  }

  lemma WrappedCons(t: Tag, ts: seq<Tag>)
    requires Upper(Strip(t.name)) in WRAPPERS
    ensures var bodies := WrappedBodies([t] + ts);
            && |bodies| == 1 + |WrappedBodies(ts)|
            && RecordsOfBodies(bodies) == Kept(ToAdif(DictOf(Leaves(t.value)))) + RecordsOfBodies(WrappedBodies(ts))
  {
    hide WRAPPERS, Upper, Strip, ToAdif, DictOf, Leaves, Kept;
    assert ([t] + ts)[1..] == ts;
    assert ([t.value] + WrappedBodies(ts))[1..] == WrappedBodies(ts);
  }

  lemma WrappedOne(r: seq<Tag>, command: string, wrapper: string)
    requires GoodFields(r, command) && Name(wrapper) && Upper(wrapper) in WRAPPERS && Upper(command) !in WRAPPERS
    ensures ProperNode(Elem(wrapper, FieldNodes(r), wrapper), {"CMD", Upper(command)})
    ensures TopTag(Elem(wrapper, FieldNodes(r), wrapper)) == [Tag(wrapper, Print(FieldNodes(r)))]
    ensures Leaves(Print(FieldNodes(r))) == UpperNames(r) && Upper(Strip(wrapper)) in WRAPPERS
  {
    hide Upper, Strip, Name;
    CleanName(wrapper);
    NoWrapperIsCmd(Upper(wrapper));
    hide WRAPPERS;
    FieldNodesScan(r, command, {"CMD", Upper(command)} + {Upper(wrapper)});
    FieldNodesScan(r, command, {});
    LeavesOfPrinted(FieldNodes(r));
    hide FieldNodes, Print, Leaves;
  }

  lemma NoWrapperIsCmd(name: string)
    requires name in WRAPPERS
    ensures name != "CMD"
  {
  }

  // ---------- the flat form ----------

  ghost predicate GoodRecords(rs: seq<seq<Tag>>, command: string) {
    forall i :: 0 <= i < |rs| ==> GoodRecord(rs[i], command)
  }

  /** The dict that starts as `d` after the pairs were assigned. */
  function Into(d: Fields, pairs: seq<Tag>): Fields
    decreases |pairs|
  {
    if pairs == [] then d else Into(Put(d, pairs[0].name, pairs[0].value), pairs[1..])
  }

  lemma {:induction false} IntoAppend(d: Fields, pairs: seq<Tag>, last: Tag)
    ensures Into(d, pairs + [last]) == Put(Into(d, pairs), last.name, last.value)
    decreases |pairs|
  {
    hide Put;
    if pairs == [] {
      assert pairs + [last] == [last] && [last][1..] == [];
    } else {
      assert (pairs + [last])[1..] == pairs[1..] + [last];
      IntoAppend(Put(d, pairs[0].name, pairs[0].value), pairs[1..], last);
    }
  }

  lemma {:induction false} DictOfIsInto(pairs: seq<Tag>)
    ensures DictOf(pairs) == Into([], pairs)
  {
    hide Put;
    if pairs != [] {
      var init, last := pairs[..|pairs| - 1], pairs[|pairs| - 1];
      DictOfIsInto(init);
      IntoAppend([], init, last);
      assert pairs == init + [last];
    }
  }

  /** The entries an export of full records does not skip. */
  function Unskipped(d: seq<Tag>): seq<Tag> {
    if d == [] then []
    else (if d[0].name in FULL_RECORD_SKIP then [] else [d[0]]) + Unskipped(d[1..])
  }

  lemma {:induction false} UnskippedPut(d: Fields, name: string, value: string)
    ensures Unskipped(Put(d, name, value)) ==
            if name in FULL_RECORD_SKIP then Unskipped(d) else Put(Unskipped(d), name, value)
  {
    hide FULL_RECORD_SKIP;
    if d == [] {
      assert [Tag(name, value)][1..] == [];
    } else if d[0].name == name {
      assert ([Tag(name, value)] + d[1..])[1..] == d[1..];
      if name !in FULL_RECORD_SKIP {
        assert ([d[0]] + Unskipped(d[1..]))[1..] == Unskipped(d[1..]);
      }
    } else {
      UnskippedPut(d[1..], name, value);
      assert ([d[0]] + Put(d[1..], name, value))[1..] == Put(d[1..], name, value);
      assert ([d[0]] + Unskipped(d[1..]))[1..] == Unskipped(d[1..]);
      assert [] + Unskipped(Put(d[1..], name, value)) == Unskipped(Put(d[1..], name, value));
      assert [] + Unskipped(d[1..]) == Unskipped(d[1..]);
    }
  }

  lemma {:induction false} UnskippedInto(d: Fields, pairs: seq<Tag>)
    ensures Unskipped(Into(d, pairs)) == Into(Unskipped(d), Unskipped(pairs))
    decreases |pairs|
  {
    hide FULL_RECORD_SKIP, Put;
    if pairs != [] {
      UnskippedPut(d, pairs[0].name, pairs[0].value);
      UnskippedInto(Put(d, pairs[0].name, pairs[0].value), pairs[1..]);
      assert ([pairs[0]] + Unskipped(pairs[1..]))[1..] == Unskipped(pairs[1..]);
      assert [] + Unskipped(pairs[1..]) == Unskipped(pairs[1..]);
    }
  }

  lemma {:induction false} UnskippedAppend(d: seq<Tag>, last: Tag)
    ensures Unskipped(d + [last]) == Unskipped(d) + (if last.name in FULL_RECORD_SKIP then [] else [last])
  {
    hide FULL_RECORD_SKIP;
    if d == [] {
      assert d + [last] == [last] && [last][1..] == [];
    } else {
      assert (d + [last])[1..] == d[1..] + [last];
      UnskippedAppend(d[1..], last);
      TagsAssoc(if d[0].name in FULL_RECORD_SKIP then [] else [d[0]], Unskipped(d[1..]),
                if last.name in FULL_RECORD_SKIP then [] else [last]);
    }
  }

  ghost predicate UpperTags(d: seq<Tag>) {
    forall i :: 0 <= i < |d| ==> Upper(Strip(d[i].name)) == d[i].name
  }

  lemma AddFieldsAppend(d: seq<Tag>, last: Tag)
    ensures AddFields(d + [last]) == AddField(AddFields(d), last)
    ensures last.name in FULL_RECORD_SKIP && Upper(Strip(last.name)) == last.name ==>
              AddFields(d + [last]) == AddFields(d)
  {
    assert (d + [last])[..|d|] == d;
    hide Upper, Strip, FULL_RECORD_SKIP, Name, NormalizeValue, Alias;
  }

  /** Skipped entries make no difference to the record. */
  lemma {:induction false} AddFieldsUnskipped(d: Fields)
    requires UpperTags(d)
    ensures AddFields(Unskipped(d)) == AddFields(d)
  {
    hide AddField, AddFields, FULL_RECORD_SKIP, Upper, Strip;
    if d == [] {
      assert Unskipped(d) == d;
    } else {
      var init, last := d[..|d| - 1], d[|d| - 1];
      assert Upper(Strip(last.name)) == last.name;
      AddFieldsUnskipped(init);
      hide Unskipped;
      UnskippedAppend(init, last);
      assert d == init + [last];
      AddFieldsAppend(init, last);
      AddFieldsAppend(Unskipped(init), last);
      assert Unskipped(init) + [] == Unskipped(init);
    }
  }

  lemma {:induction false} PutKeepsUpper(d: Fields, name: string, value: string)
    requires UpperTags(d) && Upper(Strip(name)) == name
    ensures UpperTags(Put(d, name, value))
  {
    hide Upper, Strip;
    if d != [] && d[0].name != name {
      assert UpperTags(d[1..]);
      PutKeepsUpper(d[1..], name, value);
      assert Upper(Strip(d[0].name)) == d[0].name;
    }
  }

  lemma {:induction false} IntoKeepsUpper(d: Fields, pairs: seq<Tag>)
    requires UpperTags(d) && UpperTags(pairs)
    ensures UpperTags(Into(d, pairs))
    decreases |pairs|
  {
    hide Put, Upper, Strip;
    if pairs != [] {
      PutKeepsUpper(d, pairs[0].name, pairs[0].value);
      assert UpperTags(pairs[1..]);
      IntoKeepsUpper(Put(d, pairs[0].name, pairs[0].value), pairs[1..]);
    }
  }

  /** Collecting only the fields that are not skipped gives the same record. */
  lemma RecordWithoutSkipped(pairs: seq<Tag>)
    requires UpperTags(pairs)
    ensures ToAdif(Into([], Unskipped(pairs))) == ToAdif(DictOf(pairs))
  {
    DictOfIsInto(pairs);
    IntoKeepsUpper([], pairs);
    UnskippedInto([], pairs);
    assert Unskipped([]) == [];
    AddFieldsUnskipped(Into([], pairs));
    hide Into, Unskipped, AddFields, NormalizeBand, DictOf;
  }

  lemma {:induction false} LookupPut(d: Fields, name: string, value: string, k: string)
    ensures Lookup(Put(d, name, value), k) == if k == name then Some(value) else Lookup(d, k)
  {
    if d != [] && d[0].name != name {
      LookupPut(d[1..], name, value, k);
    }
  }

  lemma {:induction false} LookupInto(d: Fields, pairs: seq<Tag>, k: string)
    requires forall i :: 0 <= i < |pairs| ==> pairs[i].name != k
    ensures Lookup(Into(d, Unskipped(pairs)), k) == Lookup(d, k)
    decreases |pairs|
  {
    hide Put, Lookup, FULL_RECORD_SKIP;
    if pairs != [] {
      var p, more := pairs[0], Unskipped(pairs[1..]);
      LookupPut(d, p.name, p.value, k);
      assert [] + more == more && ([p] + more)[1..] == more;
      LookupInto(d, pairs[1..], k);
      LookupInto(Put(d, p.name, p.value), pairs[1..], k);
    }
  }

  lemma AliasOfCall(k: string)
    ensures Alias(k) == "CALL" <==> k == "CALL"
  {
  }

  /** A field that continues the record. */
  predicate Continues(t: Tag, command: string) {
    Upper(Strip(t.name)) == t.name && t.name != command && t.name != "CALL"
  }

  lemma IntoUnskipped(d: Fields, fs: seq<Tag>)
    requires fs != []
    ensures Into(d, Unskipped(fs)) ==
            if fs[0].name in FULL_RECORD_SKIP then Into(d, Unskipped(fs[1..]))
            else Into(Put(d, fs[0].name, fs[0].value), Unskipped(fs[1..]))
  {
    hide FULL_RECORD_SKIP, Put;
    var more := Unskipped(fs[1..]);
    assert [] + more == more && ([fs[0]] + more)[1..] == more;
  }

  lemma ContinuesStep(f: Tag, rest: seq<Tag>, command: string, current: Fields)
    requires Continues(f, command)
    ensures FlatFrom([f] + rest, command, current) ==
            if f.name in FULL_RECORD_SKIP then FlatFrom(rest, command, current)
            else FlatFrom(rest, command, Put(current, f.name, f.value))
  {
    hide ToAdif, Put, Lookup, FULL_RECORD_SKIP, Alias, FlatFrom, Upper, Strip;
    AliasOfCall(f.name);
    var all := [f] + rest;
    assert all[0..] == all && all[1..] == rest;
    FlatStep(all, 0, command, current);
  }

  lemma {:induction false} FlatWithin(fs: seq<Tag>, rest: seq<Tag>, command: string, current: Fields)
    requires forall i :: 0 <= i < |fs| ==> Continues(fs[i], command)
    ensures FlatFrom(fs + rest, command, current) == FlatFrom(rest, command, Into(current, Unskipped(fs)))
    decreases |fs|
  {
    hide ToAdif, Put, FULL_RECORD_SKIP, FlatFrom, Continues;
    if fs == [] {
      assert fs + rest == rest;
    } else {
      var f := fs[0];
      assert fs + rest == [f] + (fs[1..] + rest);
      ContinuesStep(f, fs[1..] + rest, command, current);
      IntoUnskipped(current, fs);
      hide Into, Unskipped;
      FlatWithin(fs[1..], rest, command, if f.name in FULL_RECORD_SKIP then current else Put(current, f.name, f.value));
    }
  }

  /** What may stand behind a record: nothing, or the next CALL. */
  ghost predicate StartsRecord(tags: seq<Tag>, command: string) {
    tags == [] || (tags[0].name == "CALL" && tags[0].value != "" && command != "CALL")
  }

  lemma CallIsKept()
    ensures "CALL" !in FULL_RECORD_SKIP && Upper(Strip("CALL")) == "CALL"
  {
    SpacelessStrip("CALL");
    assert Upper("CALL") == "CALL";
  }

  lemma FlatNewRecord(tags: seq<Tag>, command: string, current: Fields)
    requires StartsRecord(tags, command) && Lookup(current, "CALL").GetOr("") != ""
    ensures FlatFrom(tags, command, current) == Kept(ToAdif(current)) + FlatFrom(tags, command, [])
  {
    if tags == [] {
      assert ToAdif([]) == map[];
      hide ToAdif, Upper, Strip;
      assert Kept(ToAdif(current)) + [] == Kept(ToAdif(current));
    } else {
      CallIsKept();
      AliasOfCall("CALL");
      hide ToAdif, Put, FULL_RECORD_SKIP, Alias, FlatFrom, Upper, Strip;
      assert tags[0..] == tags;
      FlatStep(tags, 0, command, current);
      FlatStep(tags, 0, command, []);
    }
  }

  lemma FlatOneRecord(u: seq<Tag>, rest: seq<Tag>, command: string)
    requires u != [] && StartsRecord(u, command) && StartsRecord(rest, command)
    requires forall i :: 1 <= i < |u| ==> Continues(u[i], command)
    ensures FlatFrom(u + rest, command, []) == Kept(ToAdif(DictOf(u))) + FlatFrom(rest, command, [])
  {
    CallIsKept();
    AliasOfCall("CALL");
    hide ToAdif, Put, FULL_RECORD_SKIP, Alias, FlatFrom, Strip, Upper;
    var all, more := u + rest, u[1..];
    assert all[0..] == all && all[1..] == more + rest;
    FlatStep(all, 0, command, []);
    var first := Put([], "CALL", u[0].value);
    FlatWithin(more, rest, command, first);
    assert ([u[0]] + Unskipped(more))[1..] == Unskipped(more);
    var current := Into([], Unskipped(u));
    assert current == Into(first, Unskipped(more));
    LookupInto(first, more, "CALL");
    LookupPut([], "CALL", u[0].value, "CALL");
    hide Into, Unskipped;
    FlatNewRecord(rest, command, current);
    assert UpperTags(u);
    RecordWithoutSkipped(u);
  }

  lemma {:induction false} UpperNamesAt(fs: seq<Tag>, i: nat)
    requires i < |fs|
    ensures |UpperNames(fs)| == |fs| && UpperNames(fs)[i] == Tag(Upper(fs[i].name), fs[i].value)
    decreases |fs|
  {
    hide Upper;
    if |fs| > 1 {
      UpperNamesAt(fs[1..], if i == 0 then 0 else i - 1);
    }
  }

  lemma GoodRecordTags(r: seq<Tag>, command: string)
    requires GoodRecord(r, command)
    ensures var u := UpperNames(r);
            u != [] && StartsRecord(u, Upper(command)) && forall i :: 1 <= i < |u| ==> Continues(u[i], Upper(command))
  {
    var u := UpperNames(r);
    UpperNamesAt(r, 0);
    assert GoodField(r[0], command);
    forall i | 1 <= i < |u|
      ensures Continues(u[i], Upper(command))
    {
      UpperNamesAt(r, i);
      assert GoodField(r[i], command);
      CleanName(r[i].name);
    }
  }

  lemma {:induction false} FlatMeans(rs: seq<seq<Tag>>, command: string)
    requires GoodRecords(rs, command)
    ensures FlatFrom(UpperNames(Flat(rs)), Upper(command), []) == Meant(rs)
    ensures StartsRecord(UpperNames(Flat(rs)), Upper(command))
  {
    hide GoodRecord, ToAdif, DictOf, Upper, Strip;
    if rs == [] {
      EmptyRecord();
    } else {
      FlatMeans(rs[1..], command);
      GoodRecordTags(rs[0], command);
      FieldNodesConcat(rs[0], Flat(rs[1..]));
      hide FlatFrom, UpperNames, Continues;
      FlatOneRecord(UpperNames(rs[0]), UpperNames(Flat(rs[1..])), Upper(command));
      assert (UpperNames(rs[0]) + UpperNames(Flat(rs[1..])))[0] == UpperNames(rs[0])[0];
    }
  }

  lemma EmptyRecord()
    ensures ToAdif([]) == map[]
  {
  }

  // ---------- both forms ----------

  lemma {:induction false} NoWrapperNames(fs: seq<Tag>, command: string)
    requires GoodFields(fs, command)
    ensures WrappedBodies(fs) == []
  {
    if fs != [] {
      assert GoodField(fs[0], command);
      CleanName(fs[0].name);
      hide WRAPPERS, Upper, Strip, Name;
      NoWrapperNames(fs[1..], command);
    }
  }

  lemma {:induction false} FlatIsGood(rs: seq<seq<Tag>>, command: string)
    requires GoodRecords(rs, command)
    ensures GoodFields(Flat(rs), command)
  {
    hide GoodField;
    if rs != [] {
      assert GoodRecord(rs[0], command);
      assert GoodRecords(rs[1..], command);
      FlatIsGood(rs[1..], command);
    }
  }

  /** The command tags of a response, in any letter case, left open or closed. */
  predicate Response(command: string) {
    Name(command) && Upper(command) in FULL_RECORD_COMMANDS
  }

  lemma ResponseNames(command: string)
    requires Response(command)
    ensures Upper(command) != "CMD" && Upper(command) !in WRAPPERS
  {
    hide Upper, Name;
  }

  /** A response that lists its records in wrappers is read as those records, whatever their fields and in
      whatever order. */
  lemma WrappedResponse(rs: seq<seq<Tag>>, command: string, closed: bool, wrapper: string)
    requires Response(command) && AllGoodFields(rs, command) && Name(wrapper) && Upper(wrapper) in WRAPPERS
    ensures FullRecords(Message(command, closed, WrappedNodes(rs, wrapper))) == (Some(Upper(command)), Meant(rs))
  {
    var nodes := WrappedNodes(rs, wrapper);
    ResponseNames(command);
    WrappedScan(rs, command, wrapper);
    hide AllGoodFields, WRAPPERS, Upper, FULL_RECORD_COMMANDS, WrappedNodes, Silent;
    MessageBody(command, closed, nodes);
    BodyScan(command, closed, nodes);
    EmptyRecord();
    hide Message, BodyText, TopTags, ForestLeaves, Leaves, FindTags, CommandAndBody, ToAdif, WrappedBodies;
    if rs == [] {
      FlatEnd(Upper(command), []);
    }
  }

  /** A response that lists the fields one after the other is read as the same records, when each record starts
      with its only CALL. */
  lemma FlatResponse(rs: seq<seq<Tag>>, command: string, closed: bool)
    requires Response(command) && GoodRecords(rs, command)
    ensures FullRecords(Message(command, closed, FieldNodes(Flat(rs)))) == (Some(Upper(command)), Meant(rs))
  {
    var nodes := FieldNodes(Flat(rs));
    ResponseNames(command);
    FlatIsGood(rs, command);
    NoWrapperNames(Flat(rs), command);
    hide WRAPPERS, GoodFields, GoodRecords, Upper;
    FieldNodesScan(Flat(rs), command, {"CMD", Upper(command)});
    FlatMeans(rs, command);
    hide FULL_RECORD_COMMANDS, FieldNodes, Silent;
    MessageBody(command, closed, nodes);
    BodyScan(command, closed, nodes);
    hide Message, BodyText, TopTags, ForestLeaves, Leaves, FindTags, CommandAndBody, ToAdif, WrappedBodies, FlatFrom;
  }
}
