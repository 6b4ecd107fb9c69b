/** Splitting a stream into ACLog messages, and the manual sync's reader, which splits all it has received
    again after every read. */
module SyncReader {
  import opened Text
  import opened AclogTags
  import opened AclogParser
  import Utf8

  /** The complete `<CMD>...</CMD>` messages of a text. */
  function Messages(s: string): seq<string>
    decreases |s|
  {
    match FindOpen(s, "CMD")
    case None => []
    case Some(i) =>
      match FindClose(s[i + 5..], "CMD")
      case None => []
      case Some(j) => [s[i..i + j + 11]] + Messages(s[i + j + 11..])
  }

  /** `iter_cmd_messages`: the whole text when it holds no complete message and is not blank. */
  function IterMessages(s: string): seq<string> {
    if Messages(s) != [] then Messages(s) else if Strip(s) != "" then [s] else []
  }

  // ---------- messages of a prefix ----------

  lemma {:induction false} FindOpenExtends(s: string, more: string, upper: string)
    requires FindOpen(s, upper).Some?
    ensures FindOpen(s + more, upper) == FindOpen(s, upper)
  {
    assert |s| >= |upper| + 2;
    assert (s + more)[1..|upper| + 1] == s[1..|upper| + 1];
    if !OpenHere(s, upper) {
      assert (s + more)[1..] == s[1..] + more;
      FindOpenExtends(s[1..], more, upper);
    }
  }

  lemma {:induction false} FindCloseExtends(s: string, more: string, upper: string)
    requires FindClose(s, upper).Some?
    ensures FindClose(s + more, upper) == FindClose(s, upper)
  {
    assert |s| >= |upper| + 3;
    assert (s + more)[2..|upper| + 2] == s[2..|upper| + 2];
    if !CloseHere(s, upper) {
      assert (s + more)[1..] == s[1..] + more;
      FindCloseExtends(s[1..], more, upper);
    }
  }

  lemma SliceOfPrefix(s: string, more: string, i: nat, j: nat)
    requires i <= j <= |s|
    ensures (s + more)[i..] == s[i..] + more && (s + more)[i..j] == s[i..j]
  {
  }

  /** The messages found in a prefix are a prefix of the messages found in the whole. */
  lemma {:induction false} MessagesOfPrefix(s: string, more: string)
    ensures Messages(s) <= Messages(s + more)
    decreases |s|
  {
    hide FindOpen, FindClose;
    match FindOpen(s, "CMD")
    case None =>
    case Some(i) =>
      FindOpenExtends(s, more, "CMD");
      SliceOfPrefix(s, more, i + 5, i + 5);
      match FindClose(s[i + 5..], "CMD")
      case None =>
      case Some(j) =>
        FindCloseExtends(s[i + 5..], more, "CMD");
        SliceOfPrefix(s, more, i, i + j + 11);
        SliceOfPrefix(s, more, i + j + 11, i + j + 11);
        MessagesOfPrefix(s[i + j + 11..], more);
  }

  lemma {:induction false} NoOpenBefore(s: string, c: char, upper: string)
    requires c != '>'
    ensures FindOpen(s + [c], upper) == FindOpen(s, upper)
    ensures FindClose(s + [c], upper) == FindClose(s, upper)
  {
    if s == "" {
      assert s + [c] == [c] && [c][1..] == "";
    } else {
      assert (s + [c])[1..] == s[1..] + [c];
      NoOpenBefore(s[1..], c, upper);
      assert |s| >= |upper| + 2 ==> (s + [c])[1..|upper| + 1] == s[1..|upper| + 1];
      assert |s| >= |upper| + 3 ==> (s + [c])[2..|upper| + 2] == s[2..|upper| + 2];
    }
  }

  /** A last character that ends no tag completes no message. */
  lemma {:induction false} MessagesBeforeChar(s: string, c: char)
    requires c != '>'
    ensures Messages(s + [c]) == Messages(s)
    decreases |s|
  {
    hide FindOpen, FindClose;
    NoOpenBefore(s, c, "CMD");
    match FindOpen(s, "CMD")
    case None =>
    case Some(i) =>
      SliceOfPrefix(s, [c], i + 5, i + 5);
      NoOpenBefore(s[i + 5..], c, "CMD");
      match FindClose(s[i + 5..], "CMD")
      case None =>
      case Some(j) =>
        SliceOfPrefix(s, [c], i, i + j + 11);
        SliceOfPrefix(s, [c], i + j + 11, i + j + 11);
        MessagesBeforeChar(s[i + j + 11..], c);
  }

  /** The messages in the bytes received so far are a prefix of the messages in all bytes, even when the
      cut lies inside a character. */
  lemma MessagesOfBytes(b: seq<Utf8.byte>, more: seq<Utf8.byte>)
    ensures Messages(Utf8.DecodeReplace(b)) <= Messages(Utf8.DecodeReplace(b + more))
  {
    var all := Utf8.DecodeReplace(b + more);
    assert (b + more)[..|b|] == b;
    var m := Utf8.DecodePrefix(b + more, |b|);
    hide Utf8.DecodeReplace, Messages;
    assert all == all[..m] + all[m..];
    MessagesOfPrefix(all[..m], all[m..]);
    if Utf8.DecodeReplace(b) != all[..m] {
      MessagesBeforeChar(all[..m], Utf8.REPLACEMENT);
    }
  }

  // ---------- one pass over the messages ----------

  predicate IsList(p: Parsed) {
    p.Parsed? && p.command in {"LIST", "LISTRESPONSE"}
  }

  /** The setup call of a settings response, when it is not blank. */
  function SetupCall(p: Parsed): Option<string> {
    if p.Parsed? && p.command == "GETUSERSETTINGSRESPONSE" then
      var call := Strip(Lookup(p.fields, "CALL").GetOr(""));
      if call != "" then Some(call) else None
    else None
  }

  /** The setup call after the messages before the first LIST, and that LIST message. */
  function Scan(messages: seq<string>, setup: Option<string>): (Option<string>, Option<string>) {
    if messages == [] then (setup, None)
    else
      var p := ParseCmd(messages[0]);
      if IsList(p) then (setup, Some(messages[0]))
      else Scan(messages[1..], if SetupCall(p).Some? then SetupCall(p) else setup)
  }

  /** The last non-blank setup call before the first LIST. */
  function LastSetup(messages: seq<string>): Option<string> {
    if messages == [] || IsList(ParseCmd(messages[0])) then None
    else
      var later := LastSetup(messages[1..]);
      if later.Some? then later else SetupCall(ParseCmd(messages[0]))
  }

  function FirstList(messages: seq<string>): Option<string> {
    if messages == [] then None
    else if IsList(ParseCmd(messages[0])) then Some(messages[0])
    else FirstList(messages[1..])
  }

  function OrElse(a: Option<string>, b: Option<string>): Option<string> {
    if a.Some? then a else b
  }

  lemma {:induction false} ScanIs(messages: seq<string>, setup: Option<string>)
    ensures Scan(messages, setup) == (OrElse(LastSetup(messages), setup), FirstList(messages))
    decreases |messages|
  {
    hide ParseCmd, SetupCall, IsList;
    if messages != [] && !IsList(ParseCmd(messages[0])) {
      var call := SetupCall(ParseCmd(messages[0]));
      ScanIs(messages[1..], if call.Some? then call else setup);
    }
  }

  lemma {:induction false} OfPrefix(some: seq<string>, all: seq<string>)
    requires some <= all
    ensures FirstList(some).Some? ==> FirstList(all) == FirstList(some) && LastSetup(all) == LastSetup(some)
    ensures LastSetup(some).Some? ==> LastSetup(all).Some?
  {
    hide ParseCmd, SetupCall, IsList;
    if some != [] {
      OfPrefix(some[1..], all[1..]);
    }
  }

  /** A text without a complete message is no command, so handing it over whole changes nothing. */
  lemma NoMessageIsNoCommand(s: string)
    requires Messages(s) == []
    ensures ParseCmd(s) == Unknown
  {
    hide FindOpen, FindClose;
  }

  lemma ScanOfIter(s: string, setup: Option<string>)
    ensures Scan(IterMessages(s), setup) == Scan(Messages(s), setup)
  {
    if Messages(s) == [] {
      NoMessageIsNoCommand(s);
      assert Scan([s][1..], setup) == (setup, None);
      hide Strip, ParseCmd, Messages;
    }
  }

  // ---------- the reader ----------

  function Joined(pieces: seq<seq<Utf8.byte>>): seq<Utf8.byte> {
    if pieces == [] then [] else pieces[0] + Joined(pieces[1..])
  }

  /** The first complete LIST message, or everything received when there is none, with the last non-blank
      setup call before it. */
  function SyncResult(payload: seq<Utf8.byte>): (Option<string>, seq<Utf8.byte>) {
    var messages := Messages(Utf8.DecodeReplace(payload));
    (LastSetup(messages),
     match FirstList(messages)
     case Some(list) => Utf8.Encode(list)
     case None => payload)
  }

  /** One read's pass: the setup call so far comes from a prefix of the messages. */
  lemma PassIs(payload: seq<Utf8.byte>, setup: Option<string>)
    requires setup.Some? ==> LastSetup(Messages(Utf8.DecodeReplace(payload))).Some?
    ensures var messages := Messages(Utf8.DecodeReplace(payload));
            Scan(IterMessages(Utf8.DecodeReplace(payload)), setup) == (LastSetup(messages), FirstList(messages))
  {
    ScanOfIter(Utf8.DecodeReplace(payload), setup);
    ScanIs(Messages(Utf8.DecodeReplace(payload)), setup);
    hide Messages, Utf8.DecodeReplace, LastSetup, FirstList, Scan, IterMessages;
  }

  lemma PassExtends(payload: seq<Utf8.byte>, more: seq<Utf8.byte>)
    ensures var some, all := Messages(Utf8.DecodeReplace(payload)), Messages(Utf8.DecodeReplace(payload + more));
            && (FirstList(some).Some? ==> FirstList(all) == FirstList(some) && LastSetup(all) == LastSetup(some))
            && (LastSetup(some).Some? ==> LastSetup(all).Some?)
  {
    MessagesOfBytes(payload, more);
    OfPrefix(Messages(Utf8.DecodeReplace(payload)), Messages(Utf8.DecodeReplace(payload + more)));
    hide Messages, Utf8.DecodeReplace;
  }

  /** The loop over one pass's messages. */
  method ScanMessages(messages: seq<string>, setup: Option<string>)
    returns (call: Option<string>, list: Option<string>)
    ensures (call, list) == Scan(messages, setup)
  {
    hide ParseCmd, SetupCall, IsList;
    call := setup;
    for i := 0 to |messages|
      invariant Scan(messages[i..], call) == Scan(messages, setup)
    {
      assert messages[i..][1..] == messages[i + 1..];
      var p := ParseCmd(messages[i]);
      if IsList(p) {
        return call, Some(messages[i]);
      }
      if SetupCall(p).Some? {
        call := SetupCall(p);
      }
    }
    list := None;
  }

  /** `_read_sync_responses`. However the bytes are cut into pieces, the result depends on the bytes only. */
  method ReadSyncResponses(pieces: seq<seq<Utf8.byte>>) returns (setup: Option<string>, response: seq<Utf8.byte>)
    ensures (setup, response) == SyncResult(Joined(pieces))
  {
    hide Messages, Utf8.DecodeReplace, LastSetup, FirstList, IterMessages, Utf8.Encode, Scan;
    var payload: seq<Utf8.byte> := [];
    setup := None;
    ghost var all := Joined(pieces);
    assert pieces[0..] == pieces;
    NothingReceived();
    for i := 0 to |pieces|
      invariant payload + Joined(pieces[i..]) == all
      invariant setup == LastSetup(Messages(Utf8.DecodeReplace(payload)))
      invariant FirstList(Messages(Utf8.DecodeReplace(payload))).None?
    {
      JoinedStep(payload, pieces, i);
      PassExtends(payload, pieces[i]);
      payload := payload + pieces[i];
      PassIs(payload, setup);
      var list: Option<string>;
      setup, list := ScanMessages(IterMessages(Utf8.DecodeReplace(payload)), setup);
      if list.Some? {
        PassExtends(payload, Joined(pieces[i + 1..]));
        return setup, Utf8.Encode(list.value);
      }
    }
    assert payload + [] == payload;
    response := payload;
  }

  lemma NothingReceived()
    ensures var messages := Messages(Utf8.DecodeReplace([])); LastSetup(messages) == None && FirstList(messages) == None
  {
    assert Utf8.DecodeReplace([]) == "";
    assert !OpenHere("", "CMD");
  }

  lemma JoinedStep(payload: seq<Utf8.byte>, pieces: seq<seq<Utf8.byte>>, i: nat)
    requires i < |pieces|
    ensures payload + Joined(pieces[i..]) == payload + pieces[i] + Joined(pieces[i + 1..])
  {
    assert pieces[i..][1..] == pieces[i + 1..];
  }
}
