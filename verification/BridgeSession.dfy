/** One ACLog connection: each ENTEREVENT waits for its full record, and ends in an ingest call or a skip. */
module BridgeSession {
  import opened Text
  import opened AclogParser
  import opened AclogRecords
  import opened SyncReader
  import CustomFields
  import Utf8

  /** How an event ended: handed to `_ingest_aclog_record` with the setup call known then, or logged as skipped. */
  datatype Outcome =
    | Ingested(event: Record, record: Record, setupCall: Option<string>)
    | Skipped(event: Record)

  /** `events` is history: the record of each ENTEREVENT, in order of arrival. */
  datatype Session = Session(
    state: Record, pending: Option<Record>, requests: nat, outcomes: seq<Outcome>, events: seq<Record>)

  const CONNECTED := Session(map[], None, 0, [], [])

  predicate IsEvent(p: Parsed) {
    p.Parsed? && p.command == "ENTEREVENT"
  }

  predicate HasAnyKey(fields: Fields) {
    exists i | 0 <= i < |fields| ::
      Alias(fields[i].name) == "CALL" || Alias(fields[i].name) == "QSO_DATE" || Alias(fields[i].name) == "TIME_ON"
  }

  /** `is_aclog_full_record_response`. */
  predicate IsFullRecordResponse(p: Parsed) {
    p.Parsed? && p.command in FULL_RECORD_COMMANDS && HasAnyKey(p.fields)
  }

  /** The records a full-record response offers. */
  function Candidates(message: string, p: Parsed): seq<Record>
    requires p.Parsed?
  {
    var records := FullRecords(message).1;
    if records != [] then records else [ToAdif(p.fields)]
  }

  function FirstMatch(event: Record, candidates: seq<Record>): (r: Option<Record>)
    ensures r.Some? ==> Match(event, r.value) && r.value in candidates
    ensures r.None? ==> forall c :: c in candidates ==> c == map[] || !Match(event, c)
  {
    if candidates == [] then None
    else if candidates[0] != map[] && Match(event, candidates[0]) then Some(candidates[0])
    else FirstMatch(event, candidates[1..])
  }

  function SkipPending(s: Session): Session {
    if s.pending.None? then s else s.(pending := None, outcomes := s.outcomes + [Skipped(s.pending.value)])
  }

  function GetState(state: Record, key: string): Option<string> {
    if key in state then Some(state[key]) else None
  }

  function HandleEvent(s: Session, fields: Fields): Session {
    var record := EventRecord(fields, s.state);
    SkipPending(s).(pending := Some(record), requests := s.requests + 1, events := s.events + [record])
  }

  function HandleResponse(s: Session, message: string, p: Parsed): Session
    requires s.pending.Some? && p.Parsed?
  {
    var event := s.pending.value;
    match FirstMatch(event, Candidates(message, p))
    case None => SkipPending(s)
    case Some(full) =>
      var outcome := Ingested(event, Merge(event, full, s.state), GetState(s.state, "ACLOG_SETUP_CALL"));
      s.(pending := None, outcomes := s.outcomes + [outcome])
  }

  /** `_handle_message`. */
  function Handle(s: Session, message: string): Session {
    var p := ParseCmd(message);
    var s' := s.(state := UpdateState(p, s.state));
    if IsEvent(p) then HandleEvent(s', p.fields)
    else if s'.pending.Some? && IsFullRecordResponse(p) then HandleResponse(s', message, p)
    else s'
  }

  function HandleAll(s: Session, messages: seq<string>): Session {
    if messages == [] then s else Handle(HandleAll(s, messages[..|messages| - 1]), messages[|messages| - 1])
  }

  function LineMessages(line: seq<Utf8.byte>): seq<string> {
    IterMessages(Strip(Utf8.DecodeReplace(line)))
  }

  function AllMessages(lines: seq<seq<Utf8.byte>>): seq<string> {
    if lines == [] then [] else AllMessages(lines[..|lines| - 1]) + LineMessages(lines[|lines| - 1])
  }

  /** A connection that reads the lines and is then closed by the other side. */
  function Connection(lines: seq<seq<Utf8.byte>>): Session {
    SkipPending(HandleAll(CONNECTED, AllMessages(lines)))
  }

  // ---------- the client object ----------

  class Client {
    var state: Record
    var pending: Option<Record>
    var requests: nat
    var outcomes: seq<Outcome>
    ghost var events: seq<Record>

    constructor ()
      ensures Contents() == CONNECTED
    {
      state, pending, requests, outcomes, events := map[], None, 0, [], [];
    }

    ghost function Contents(): Session
      reads this
    {
      Session(state, pending, requests, outcomes, events)
    }

    method LogSkip()
      modifies this`pending, this`outcomes
      ensures Contents() == SkipPending(old(Contents()))
    {
      if pending.Some? {
        outcomes := outcomes + [Skipped(pending.value)];
        pending := None;
      }
    }

    method HandleMessage(message: string)
      modifies this
      ensures Contents() == Handle(old(Contents()), message)
    {
      hide EventRecord, ParseCmd, UpdateState, Merge, Candidates, HasAnyKey, FULL_RECORD_COMMANDS, FirstMatch;
      var p := ParseCmd(message);
      state := UpdateState(p, state);
      if IsEvent(p) {
        LogSkip();
        var record := EventRecord(p.fields, state);
        requests := requests + 1;
        pending := Some(record);
        events := events + [record];
        return;
      }
      if pending.None? || !IsFullRecordResponse(p) {
        return;
      }
      var event := pending.value;
      var full := FirstMatch(event, Candidates(message, p));
      if full.None? {
        LogSkip();
        return;
      }
      var record := Merge(event, full.value, state);
      outcomes := outcomes + [Ingested(event, record, GetState(state, "ACLOG_SETUP_CALL"))];
      pending := None;
    }

    /** The read loop up to a clean disconnect. */
    method Run(lines: seq<seq<Utf8.byte>>)
      requires Contents() == CONNECTED
      modifies this
      ensures Contents() == Connection(lines)
    {
      hide Handle, IterMessages, Strip, Utf8.DecodeReplace, CONNECTED;
      for i := 0 to |lines|
        invariant Contents() == HandleAll(CONNECTED, AllMessages(lines[..i]))
      {
        assert lines[..i + 1][..i] == lines[..i];
        var messages := LineMessages(lines[i]);
        ghost var before := AllMessages(lines[..i]);
        assert before + messages[..0] == before;
        for j := 0 to |messages|
          invariant Contents() == HandleAll(CONNECTED, before + messages[..j])
        {
          assert (before + messages[..j + 1])[..|before| + j] == before + messages[..j];
          HandleMessage(messages[j]);
        }
        assert messages[..|messages|] == messages;
      }
      assert lines[..|lines|] == lines;
      LogSkip();
    }
  }

  // ---------- conservation ----------

  function Waiting(s: Session): nat {
    if s.pending.Some? then 1 else 0
  }

  /** The outcomes belong to the events in order, the pending one is next, each event was one request,
      and what was ingested matches its event. */
  ghost predicate Conserved(s: Session) {
    && s.requests == |s.events| == |s.outcomes| + Waiting(s)
    && (forall i :: 0 <= i < |s.outcomes| ==> s.outcomes[i].event == s.events[i])
    && (s.pending.Some? ==> s.pending.value == s.events[|s.outcomes|])
    && (forall i :: 0 <= i < |s.outcomes| && s.outcomes[i].Ingested? ==>
          Match(s.outcomes[i].event, s.outcomes[i].record))
  }

  function CountEvents(messages: seq<string>): nat {
    if messages == [] then 0
    else CountEvents(messages[..|messages| - 1]) + (if IsEvent(ParseCmd(messages[|messages| - 1])) then 1 else 0)
  }

  lemma HandleKeeps(s: Session, message: string)
    requires Conserved(s)
    ensures Conserved(Handle(s, message))
    ensures |Handle(s, message).events| == |s.events| + (if IsEvent(ParseCmd(message)) then 1 else 0)
  {
    hide EventRecord, ParseCmd, UpdateState, Merge, Candidates, HasAnyKey, FULL_RECORD_COMMANDS, Match, FirstMatch;
    var p := ParseCmd(message);
    if !IsEvent(p) && s.pending.Some? && IsFullRecordResponse(p) {
      var full := FirstMatch(s.pending.value, Candidates(message, p));
      if full.Some? {
        MergeKeepsMatch(s.pending.value, full.value, UpdateState(p, s.state));
      }
    }
  }

  lemma {:induction false} HandleAllKeeps(messages: seq<string>)
    ensures Conserved(HandleAll(CONNECTED, messages))
    ensures |HandleAll(CONNECTED, messages).events| == CountEvents(messages)
  {
    hide Handle, IsEvent, ParseCmd, Match;
    if messages != [] {
      HandleAllKeeps(messages[..|messages| - 1]);
      hide Conserved;
      HandleKeeps(HandleAll(CONNECTED, messages[..|messages| - 1]), messages[|messages| - 1]);
    }
  }

  /** Over every sequence of lines ending in a clean disconnect, the ENTEREVENTs, the full-record requests
      and the outcomes are equal in number, the i-th outcome is the i-th event's, and every record handed
      to `_ingest_aclog_record` still matches the event that caused it. */
  lemma EveryEventEnds(lines: seq<seq<Utf8.byte>>)
    ensures var s := Connection(lines);
            && s.pending.None?
            && |s.events| == CountEvents(AllMessages(lines))
            && s.requests == |s.events| == |s.outcomes|
            && forall i :: 0 <= i < |s.outcomes| ==>
                 && s.outcomes[i].event == s.events[i]
                 && (s.outcomes[i].Ingested? ==> Match(s.events[i], s.outcomes[i].record))
  {
    hide HandleAll, AllMessages, CountEvents, Match, CONNECTED;
    HandleAllKeeps(AllMessages(lines));
  }

  /** What that function passes on, with the slots of any operator's configuration mapped, matches the event too,
      when no filled slot is named after a key of the match; in particular when no slot is. */
  lemma IngestedRecordsMatch(lines: seq<seq<Utf8.byte>>, names: seq<string>, i: nat)
    requires |names| == 8 && i < |Connection(lines).outcomes| && Connection(lines).outcomes[i].Ingested?
    requires CustomFields.NoFilledSlotIsMatched(Connection(lines).outcomes[i].record, names)
    ensures i < |Connection(lines).events|
    ensures Match(Connection(lines).events[i], CustomFields.Mapped(Connection(lines).outcomes[i].record, names))
  {
    hide Connection, Match, CustomFields.Mapped, CustomFields.NoFilledSlotIsMatched;
    EveryEventEnds(lines);
    CustomFields.MappedRecordMatches(Connection(lines).events[i], Connection(lines).outcomes[i].record, names);
  }
}
