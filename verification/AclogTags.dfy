/** The tag scanner of the ACLog protocol: `<NAME>...</NAME>` with the shortest content, names compared
    without regard to case, and the leaves of nested tags. */
module AclogTags {
  import opened Text

  predicate NameChar(c: char) {
    'A' <= c <= 'Z' || 'a' <= c <= 'z' || Digit(c) || c == '_'
  }

  predicate Name(s: string) {
    s != "" && forall i | 0 <= i < |s| :: NameChar(s[i])
  }

  /** `s` starts with `<NAME>`; `upper` is the name in upper case. */
  predicate OpenHere(s: string, upper: string) {
    |s| >= |upper| + 2 && s[0] == '<' && Upper(s[1..|upper| + 1]) == upper && s[|upper| + 1] == '>'
  }

  /** `s` starts with `</NAME>`. */
  predicate CloseHere(s: string, upper: string) {
    |s| >= |upper| + 3 && s[0] == '<' && s[1] == '/' && Upper(s[2..|upper| + 2]) == upper && s[|upper| + 2] == '>'
  }

  function FindOpen(s: string, upper: string): (i: Option<nat>)
    ensures i.Some? ==> i.value + |upper| + 2 <= |s|
  {
    if OpenHere(s, upper) then Some(0)
    else if s == "" then None
    else match FindOpen(s[1..], upper)
         case None => None
         case Some(i) => Some(i + 1)
  }

  function FindClose(s: string, upper: string): (i: Option<nat>)
    ensures i.Some? ==> i.value + |upper| + 3 <= |s|
  {
    if CloseHere(s, upper) then Some(0)
    else if s == "" then None
    else match FindClose(s[1..], upper)
         case None => None
         case Some(i) => Some(i + 1)
  }

  /** The name of the opening tag that `s` starts with. */
  function OpeningName(s: string): (name: Option<string>)
    ensures name.Some? ==> Name(name.value) && |name.value| + 2 <= |s|
  {
    if s == "" || s[0] != '<' then None
    else
      var k := Find(s[1..], '>');
      if k < |s| - 1 && Name(s[1..][..k]) then Some(s[1..][..k]) else None
  }

  datatype Tag = Tag(name: string, value: string)

  /** The tag that starts `s`, and what follows it. */
  function TagHere(s: string): (t: Option<(Tag, string)>)
    ensures t.Some? ==> |t.value.0.value| < |s| && |t.value.1| < |s|
  {
    match OpeningName(s)
    case None => None
    case Some(name) =>
      var rest := s[|name| + 2..];
      match FindClose(rest, Upper(name))
      case None => None
      case Some(i) => Some((Tag(name, rest[..i]), rest[i + |name| + 3..]))
  }

  /** `_TAG_RE.findall`. */
  function FindTags(s: string): seq<Tag>
    decreases |s|
  {
    if s == "" then []
    else match TagHere(s)
         case None => FindTags(s[1..])
         case Some((tag, rest)) => [tag] + FindTags(rest)
  }

  /** `_extract_ordered_leaf_tags`. */
  function Leaves(s: string): seq<Tag>
    decreases |s|
  {
    if s == "" then []
    else match TagHere(s)
         case None => Leaves(s[1..])
         case Some((tag, rest)) => LeavesOf(tag.name, tag.value, Leaves(tag.value)) + Leaves(rest)
  }

  function LeavesOf(name: string, value: string, nested: seq<Tag>): seq<Tag> {
    if nested != [] then nested else [Tag(Upper(name), value)]
  }

  lemma TagsAssoc(a: seq<Tag>, b: seq<Tag>, c: seq<Tag>)
    ensures a + b + c == a + (b + c)
  {
  }

  lemma LeavesStep(s: string)
    requires s != ""
    ensures match TagHere(s)
            case None => Leaves(s) == Leaves(s[1..])
            case Some((tag, rest)) => Leaves(s) == LeavesOf(tag.name, tag.value, Leaves(tag.value)) + Leaves(rest)
  {
    hide TagHere;
  }

  /** The recursion over the tags found, as the program has it. */
  method ExtractLeaves(s: string) returns (fields: seq<Tag>)
    ensures fields == Leaves(s)
    decreases |s|
  {
    hide TagHere, Leaves;
    fields := [];
    var rest := s;
    while rest != ""
      invariant |rest| <= |s|
      invariant fields + Leaves(rest) == Leaves(s)
      decreases |rest|
    {
      LeavesStep(rest);
      match TagHere(rest)
      case None =>
        rest := rest[1..];
      case Some((tag, after)) =>
        var nested := ExtractLeaves(tag.value);
        TagsAssoc(fields, LeavesOf(tag.name, tag.value, nested), Leaves(after));
        if nested != [] {
          fields := fields + nested;
        } else {
          fields := fields + [Tag(Upper(tag.name), tag.value)];
        }
        rest := after;
    }
    NothingInNothing();
  }

  // ---------- printed forests ----------

  /** Text between tags, or a tag; the closing tag may use other letter case. */
  datatype Node = Text(text: string) | Elem(name: string, body: seq<Node>, close: string)

  function OpenTag(name: string): string {
    "<" + name + ">"
  }

  function CloseTag(name: string): string {
    "</" + name + ">"
  }

  function Print(nodes: seq<Node>): string {
    if nodes == [] then "" else PrintNode(nodes[0]) + Print(nodes[1..])
  }

  function PrintNode(node: Node): string {
    match node
    case Text(text) => text
    case Elem(name, body, close) => OpenTag(name) + Print(body) + CloseTag(close)
  }

  /** The leaf tags of a forest, in order. */
  function ForestLeaves(nodes: seq<Node>): seq<Tag> {
    if nodes == [] then [] else NodeLeaves(nodes[0]) + ForestLeaves(nodes[1..])
  }

  function NodeLeaves(node: Node): seq<Tag> {
    match node
    case Text(_) => []
    case Elem(name, body, _) => LeavesOf(name, Print(body), ForestLeaves(body))
  }

  /** The outermost tags of a forest. */
  function TopTags(nodes: seq<Node>): seq<Tag> {
    if nodes == [] then [] else TopTag(nodes[0]) + TopTags(nodes[1..])
  }

  function TopTag(node: Node): seq<Tag> {
    match node
    case Text(_) => []
    case Elem(name, body, _) => [Tag(name, Print(body))]
  }

  /** Text has no `<`, and no tag lies inside one of the same name; `inside` are the names around. */
  predicate Proper(nodes: seq<Node>, inside: set<string>) {
    nodes == [] || (ProperNode(nodes[0], inside) && Proper(nodes[1..], inside))
  }

  predicate ProperNode(node: Node, inside: set<string>) {
    match node
    case Text(text) => '<' !in text
    case Elem(name, body, close) =>
      && Name(name) && Upper(close) == Upper(name) && Upper(name) !in inside
      && Proper(body, inside + {Upper(name)})
  }

  /** Whatever follows, no closing tag of the name starts inside `p`. */
  ghost predicate Silent(p: string, upper: string) {
    forall i, tail: string :: 0 <= i < |p| ==> !CloseHere(p[i..] + tail, upper)
  }

  lemma SilentConcat(p: string, q: string, upper: string)
    requires Silent(p, upper) && Silent(q, upper)
    ensures Silent(p + q, upper)
  {
    forall i, tail: string | 0 <= i < |p + q|
      ensures !CloseHere((p + q)[i..] + tail, upper)
    {
      if i < |p| {
        assert (p + q)[i..] + tail == p[i..] + (q + tail);
      } else {
        assert (p + q)[i..] == q[i - |p|..];
      }
    }
  }

  lemma SilentText(p: string, upper: string)
    requires '<' !in p
    ensures Silent(p, upper)
  {
    forall i, tail: string | 0 <= i < |p|
      ensures !CloseHere(p[i..] + tail, upper)
    {
      assert (p[i..] + tail)[0] == p[i];
    }
  }

  lemma SilentOpenTag(name: string, upper: string)
    requires Name(name)
    ensures Silent(OpenTag(name), upper)
  {
    var p := OpenTag(name);
    assert p[1] == name[0] && NameChar(p[1]);
    forall i, tail: string | 0 <= i < |p|
      ensures !CloseHere(p[i..] + tail, upper)
    {
      var s := p[i..] + tail;
      assert s[0] == p[i];
      if i == 0 {
        assert s[1] == p[1];
      } else if i < |p| - 1 {
        assert p[i] == name[i - 1] && NameChar(p[i]);
      }
    }
  }

  lemma UpperAt(s: string, upper: string, i: nat)
    requires Upper(s) == upper && i < |s|
    ensures upper[i] == UpperChar(s[i])
  {
  }

  lemma NameOfUpper(name: string, close: string)
    requires Name(name) && Upper(close) == Upper(name)
    ensures Name(close) && |close| == |name|
  {
    forall i | 0 <= i < |close|
      ensures NameChar(close[i])
    {
      UpperAt(close, Upper(name), i);
      UpperAt(name, Upper(name), i);
      assert NameChar(name[i]);
    }
  }

  /** A closing tag is the closing tag of its own name only. */
  lemma CloseTagNames(name: string, tail: string, upper: string)
    requires Name(name) && '>' !in upper && CloseHere(CloseTag(name) + tail, upper)
    ensures Upper(name) == upper
  {
    var s := CloseTag(name) + tail;
    assert s[2..|name| + 2] == name && s[|name| + 2] == '>';
    forall j | 2 <= j < |name| + 2
      ensures s[j] != '>'
    {
      assert s[j] == name[j - 2] && NameChar(name[j - 2]);
    }
    if |upper| > |name| {
      UpperAt(s[2..|upper| + 2], upper, |name|);
    }
  }

  lemma SilentCloseTag(name: string, upper: string)
    requires Name(name) && Upper(name) != upper && '>' !in upper
    ensures Silent(CloseTag(name), upper)
  {
    var p := CloseTag(name);
    forall i, tail: string | 0 <= i < |p|
      ensures !CloseHere(p[i..] + tail, upper)
    {
      var s := p[i..] + tail;
      assert s[0] == p[i];
      if i == 0 {
        assert p[0..] == p;
        if CloseHere(s, upper) {
          CloseTagNames(name, tail, upper);
        }
      } else if 2 <= i < |p| - 1 {
        assert p[i] == name[i - 2] && NameChar(p[i]);
      }
    }
  }

  lemma {:induction false} SilentForest(nodes: seq<Node>, inside: set<string>, upper: string)
    requires Proper(nodes, inside) && upper in inside && '>' !in upper
    ensures Silent(Print(nodes), upper)
    decreases nodes
  {
    hide Silent;
    if nodes == [] {
      SilentText("", upper);
    } else {
      SilentNode(nodes[0], inside, upper);
      SilentForest(nodes[1..], inside, upper);
      SilentConcat(PrintNode(nodes[0]), Print(nodes[1..]), upper);
    }
  }

  lemma {:induction false} SilentNode(node: Node, inside: set<string>, upper: string)
    requires ProperNode(node, inside) && upper in inside && '>' !in upper
    ensures Silent(PrintNode(node), upper)
    decreases node
  {
    hide Silent;
    match node
    case Text(text) => SilentText(text, upper);
    case Elem(name, body, close) =>
      NameOfUpper(name, close);
      SilentOpenTag(name, upper);
      SilentForest(body, inside + {Upper(name)}, upper);
      SilentCloseTag(close, upper);
      SilentConcat(OpenTag(name), Print(body), upper);
      SilentConcat(OpenTag(name) + Print(body), CloseTag(close), upper);
  }

  // ---------- finding what was printed ----------

  lemma {:induction false} FindCloseBehind(p: string, tail: string, upper: string)
    requires Silent(p, upper) && CloseHere(tail, upper)
    ensures FindClose(p + tail, upper) == Some(|p|)
  {
    if p == "" {
      assert p + tail == tail;
    } else {
      assert p[0..] + tail == p + tail;
      forall i, t: string | 0 <= i < |p[1..]|
        ensures !CloseHere(p[1..][i..] + t, upper)
      {
        assert p[1..][i..] == p[i + 1..];
      }
      FindCloseBehind(p[1..], tail, upper);
      assert (p + tail)[1..] == p[1..] + tail;
    }
  }

  lemma CloseTagHere(close: string, tail: string)
    ensures CloseHere(CloseTag(close) + tail, Upper(close))
  {
    var s := CloseTag(close) + tail;
    assert s[2..|close| + 2] == close;
  }

  lemma OpeningNameOf(name: string, tail: string)
    requires Name(name)
    ensures OpeningName(OpenTag(name) + tail) == Some(name)
    ensures (OpenTag(name) + tail)[|name| + 2..] == tail
  {
    var s := OpenTag(name) + tail;
    assert s[1..] == name + [">"[0]] + tail;
    assert '>' !in name;
    FindAt(name, '>', tail);
    assert s[1..][..|name|] == name;
  }

  /** A printed tag is found whole. */
  lemma TagHerePrinted(name: string, p: string, close: string, tail: string)
    requires Name(name) && Upper(close) == Upper(name) && Silent(p, Upper(name))
    ensures TagHere(OpenTag(name) + p + CloseTag(close) + tail) == Some((Tag(name, p), tail))
  {
    var rest := p + (CloseTag(close) + tail);
    ConcatAssoc(OpenTag(name) + p, CloseTag(close), tail);
    ConcatAssoc(OpenTag(name), p, CloseTag(close) + tail);
    OpeningNameOf(name, rest);
    CloseTagHere(close, tail);
    FindCloseBehind(p, CloseTag(close) + tail, Upper(name));
    NameOfUpper(name, close);
    hide Silent, OpenTag, OpeningName, FindClose, CloseHere, Upper;
    assert rest[..|p|] == p;
    AfterClose(p, close, tail);
  }

  lemma AfterClose(p: string, close: string, tail: string)
    ensures (p + (CloseTag(close) + tail))[|p| + |close| + 3..] == tail
  {
  }

  lemma {:induction false} SkipText(text: string, tail: string)
    requires '<' !in text
    ensures Leaves(text + tail) == Leaves(tail) && FindTags(text + tail) == FindTags(tail)
  {
    hide Leaves, FindTags;
    if text == "" {
      assert text + tail == tail;
    } else {
      assert TagHere([text[0]] + (text[1..] + tail)).None?;
      hide TagHere;
      SkipChar(text[0], text[1..] + tail);
      SkipText(text[1..], tail);
      assert text + tail == [text[0]] + (text[1..] + tail);
    }
  }

  lemma SkipChar(c: char, rest: string)
    requires TagHere([c] + rest).None?
    ensures Leaves([c] + rest) == Leaves(rest) && FindTags([c] + rest) == FindTags(rest)
  {
    hide TagHere;
    assert ([c] + rest)[1..] == rest;
  }

  lemma NotEmptyTag(name: string, p: string, close: string, tail: string)
    ensures OpenTag(name) + p + CloseTag(close) + tail != ""
  {
  }

  lemma ScanPrinted(name: string, p: string, close: string, tail: string)
    requires Name(name) && Upper(close) == Upper(name) && Silent(p, Upper(name))
    ensures var s := OpenTag(name) + p + CloseTag(close) + tail;
            && Leaves(s) == LeavesOf(name, p, Leaves(p)) + Leaves(tail)
            && FindTags(s) == [Tag(name, p)] + FindTags(tail)
  {
    TagHerePrinted(name, p, close, tail);
    NotEmptyTag(name, p, close, tail);
    hide TagHere, Silent, OpenTag, CloseTag, Upper;
  }

  /** For every printed forest in which no tag is nested inside one of the same name, extraction returns
      exactly the leaves, in order, and the tag search the outermost tags. */
  lemma {:induction false} LeavesOfPrintedThen(nodes: seq<Node>, inside: set<string>, tail: string)
    requires Proper(nodes, inside) && forall u :: u in inside ==> '>' !in u
    ensures Leaves(Print(nodes) + tail) == ForestLeaves(nodes) + Leaves(tail)
    ensures FindTags(Print(nodes) + tail) == TopTags(nodes) + FindTags(tail)
    decreases nodes
  {
    hide Leaves, FindTags;
    if nodes == [] {
      assert Print(nodes) + tail == tail;
    } else {
      var more := Print(nodes[1..]) + tail;
      LeavesOfPrintedThen(nodes[1..], inside, tail);
      LeavesOfNodeThen(nodes[0], inside, more);
      hide PrintNode, NodeLeaves, TopTag, ProperNode;
      ConcatAssoc(PrintNode(nodes[0]), Print(nodes[1..]), tail);
      TagsAssoc(NodeLeaves(nodes[0]), ForestLeaves(nodes[1..]), Leaves(tail));
      TagsAssoc(TopTag(nodes[0]), TopTags(nodes[1..]), FindTags(tail));
    }
  }

  lemma {:induction false} LeavesOfNodeThen(node: Node, inside: set<string>, tail: string)
    requires ProperNode(node, inside) && forall u :: u in inside ==> '>' !in u
    ensures Leaves(PrintNode(node) + tail) == NodeLeaves(node) + Leaves(tail)
    ensures FindTags(PrintNode(node) + tail) == TopTag(node) + FindTags(tail)
    decreases node
  {
    hide Leaves, FindTags, Upper;
    match node
    case Text(text) =>
      SkipText(text, tail);
    case Elem(name, body, close) =>
      UpperHasNoBracket(name);
      SilentForest(body, inside + {Upper(name)}, Upper(name));
      LeavesOfPrintedThen(body, inside + {Upper(name)}, "");
      assert Print(body) + "" == Print(body);
      NothingInNothing();
      hide Print, Silent, Proper, Name;
      ScanPrinted(name, Print(body), close, tail);
  }

  lemma NothingInNothing()
    ensures Leaves("") == [] && FindTags("") == []
  {
  }

  lemma UpperHasNoBracket(name: string)
    requires Name(name)
    ensures '>' !in Upper(name)
  {
    forall i | 0 <= i < |name|
      ensures Upper(name)[i] != '>'
    {
      assert NameChar(name[i]);
    }
  }

  /** The whole text. */
  lemma LeavesOfPrinted(nodes: seq<Node>)
    requires Proper(nodes, {})
    ensures Leaves(Print(nodes)) == ForestLeaves(nodes) && FindTags(Print(nodes)) == TopTags(nodes)
  {
    LeavesOfPrintedThen(nodes, {}, "");
    NothingInNothing();
    assert Print(nodes) + "" == Print(nodes);
    hide Leaves, FindTags, Print;
  }
}
