/** One ingested corpus reused across arms: the turn map both code paths compute, and the ledger that
    vouches for what the store holds. */
module CorpusLedger {
  import opened Common
  import opened Sorting

  // ---------------------------------------------------------------- a conversation's turns

  datatype Turn = Turn(
    diaId: Option<string>, text: Option<string>, cleanText: Option<string>,
    caption: Option<string>, query: Option<string>)

  /** One key of a conversation: a session's number when the key names one, and its turns when its
      value is a list. */
  datatype Entry = Entry(key: string, session: Option<nat>, turns: Option<seq<Turn>>)

  type Conversation = seq<Entry>

  /** Python's whitespace. */
  predicate IsSpace(c: char) {
    var n := c as int;
    || 0x9 <= n <= 0xD || 0x1C <= n <= 0x20 || n == 0x85 || n == 0xA0 || n == 0x1680
    || 0x2000 <= n <= 0x200A || n == 0x2028 || n == 0x2029 || n == 0x202F || n == 0x205F || n == 0x3000
  }

  function LeftStrip(s: string): string {
    if s != [] && IsSpace(s[0]) then LeftStrip(s[1..]) else s
  }

  function RightStrip(s: string): string {
    if s != [] && IsSpace(s[|s| - 1]) then RightStrip(s[..|s| - 1]) else s
  }

  function Strip(s: string): string {
    RightStrip(LeftStrip(s))
  }

  /** The first of two texts that says anything. */
  function Or(a: Option<string>, b: Option<string>): string {
    if a.GetOr("") != "" then a.value else b.GetOr("")
  }

  /** The text a turn is submitted as: a shared image is part of it. */
  function Body(turn: Turn): string {
    var body := Or(turn.text, turn.cleanText);
    var caption, query := Strip(turn.caption.GetOr("")), Strip(turn.query.GetOr(""));
    if caption == "" then body
    else Strip(body + " [Shared an image" + (if query != "" then " of " + query else "") + ": " + caption + "]")
  }

  predicate IsKept(turn: Turn) {
    turn.diaId.GetOr("") != "" && Body(turn) != ""
  }

  predicate NumberLeq(a: Entry, b: Entry) {
    a.session.GetOr(0) <= b.session.GetOr(0)
  }

  function NamedSessions(conversation: Conversation): seq<Entry> {
    if conversation == [] then []
    else (if conversation[0].session.Some? then [conversation[0]] else []) + NamedSessions(conversation[1..])
  }

  function Lists(entries: seq<Entry>): seq<seq<Turn>> {
    if entries == [] then []
    else (if entries[0].turns.Some? then [entries[0].turns.value] else []) + Lists(entries[1..])
  }

  /** The sessions in order of their number. */
  function Sessions(conversation: Conversation): seq<seq<Turn>> {
    Lists(SortBy(NumberLeq, NamedSessions(conversation)))
  }

  function Flatten(sessions: seq<seq<Turn>>): seq<Turn> {
    if sessions == [] then [] else Flatten(sessions[..|sessions| - 1]) + sessions[|sessions| - 1]
  }

  /** `dia_id -> text` over turns in order: a later turn of the same id replaces an earlier one. */
  function TurnMap(turns: seq<Turn>): map<string, string> {
    if turns == [] then map[]
    else
      var last, before := turns[|turns| - 1], TurnMap(turns[..|turns| - 1]);
      if IsKept(last) then before[last.diaId.value := Body(last)] else before
  }

  function TurnsOf(conversation: Conversation): map<string, string> {
    TurnMap(Flatten(Sessions(conversation)))
  }

  lemma TurnOfSession(sessions: seq<seq<Turn>>, i: nat, j: nat)
    requires i < |sessions| && j < |sessions[i]|
    ensures var before := Flatten(sessions[..i]);
            && (before + sessions[i][..j + 1])[..|before + sessions[i][..j]|] == before + sessions[i][..j]
            && (before + sessions[i][..j + 1]) == before + sessions[i][..j] + [sessions[i][j]]
  {
    assert sessions[i][..j + 1] == sessions[i][..j] + [sessions[i][j]];
  }

  lemma SessionDone(sessions: seq<seq<Turn>>, i: nat)
    requires i < |sessions|
    ensures Flatten(sessions[..i + 1]) == Flatten(sessions[..i]) + sessions[i]
  {
    var upTo := sessions[..i + 1];
    assert upTo[..|upTo| - 1] == sessions[..i];
  }

  lemma AppendTurn(turns: seq<Turn>, turn: Turn)
    ensures TurnMap(turns + [turn]) ==
            if IsKept(turn) then TurnMap(turns)[turn.diaId.value := Body(turn)] else TurnMap(turns)
  {
    var all := turns + [turn];
    assert all[..|all| - 1] == turns;
  }

  // ---------------------------------------------------------------- what the turn map says

  ghost predicate AllSpace(s: string) {
    forall i :: 0 <= i < |s| ==> IsSpace(s[i])
  }

  lemma {:induction false} LeftStripTrims(s: string) returns (front: string)
    ensures s == front + LeftStrip(s) && AllSpace(front)
    ensures LeftStrip(s) != [] ==> !IsSpace(LeftStrip(s)[0])
  {
    if s != [] && IsSpace(s[0]) {
      front := LeftStripTrims(s[1..]);
      front := [s[0]] + front;
    } else {
      front := [];
    }
  }

  lemma {:induction false} RightStripTrims(s: string) returns (back: string)
    ensures s == RightStrip(s) + back && AllSpace(back)
    ensures RightStrip(s) != [] ==> RightStrip(s)[0] == s[0] && !IsSpace(RightStrip(s)[|RightStrip(s)| - 1])
  {
    if s != [] && IsSpace(s[|s| - 1]) {
      back := RightStripTrims(s[..|s| - 1]);
      assert s == s[..|s| - 1] + [s[|s| - 1]];
      back := back + [s[|s| - 1]];
    } else {
      back := [];
    }
  }

  /** Stripping takes off whitespace at both ends, all of it, and nothing else. */
  lemma StripTrims(s: string) returns (front: string, back: string)
    ensures s == front + Strip(s) + back && AllSpace(front) && AllSpace(back)
    ensures Strip(s) != [] ==> !IsSpace(Strip(s)[0]) && !IsSpace(Strip(s)[|Strip(s)| - 1])
  {
    front := LeftStripTrims(s);
    back := RightStripTrims(LeftStrip(s));
  }

  /** A turn that shares no image is submitted as its text, or where that is missing or empty as its cleaned
      text, or as nothing. */
  lemma APlainTurnsBody(turn: Turn)
    requires turn.caption.None? || Strip(turn.caption.value) == ""
    ensures turn.text.Some? && turn.text.value != "" ==> Body(turn) == turn.text.value
    ensures (turn.text.None? || turn.text.value == "") && turn.cleanText.Some? ==> Body(turn) == turn.cleanText.value
    ensures (turn.text.None? || turn.text.value == "") && turn.cleanText.None? ==> Body(turn) == ""
  {
  }

  /** One that does has the caption after that, and what was searched for if anything. */
  lemma ASharedImagesBody(turn: Turn, plain: Turn, caption: string, query: string)
    requires plain == turn.(caption := None)
    requires turn.caption.Some? && caption == Strip(turn.caption.value) && caption != ""
    requires query == if turn.query.Some? then Strip(turn.query.value) else ""
    ensures query == "" ==> Body(turn) == Strip(Body(plain) + " [Shared an image" + ": " + caption + "]")
    ensures query != "" ==>
              Body(turn) == Strip(Body(plain) + " [Shared an image" + (" of " + query) + ": " + caption + "]")
  {
    assert query == "" ==>
        Body(plain) + " [Shared an image" + "" + ": " + caption + "]"
        == Body(plain) + " [Shared an image" + ": " + caption + "]";
  }

  /** The turns that count: those with an id and something to say. */
  ghost predicate SaysSomething(turn: Turn) {
    turn.diaId.Some? && turn.diaId.value != "" && Body(turn) != ""
  }

  /** An id is in the turn map exactly when a turn of it says something. */
  lemma {:induction false} MappedExactlyWhen(turns: seq<Turn>, dia: string)
    ensures dia in TurnMap(turns) <==>
              exists i :: 0 <= i < |turns| && SaysSomething(turns[i]) && turns[i].diaId.value == dia
    decreases |turns|
  {
    if turns != [] {
      var before, last := turns[..|turns| - 1], turns[|turns| - 1];
      MappedExactlyWhen(before, dia);
      assert forall i :: 0 <= i < |before| ==> turns[i] == before[i];
      assert turns[|turns| - 1] == last;
    }
  }

  /** Its text is the last such turn's. */
  lemma {:induction false} TheLastTurnCounts(turns: seq<Turn>, i: nat)
    requires i < |turns| && SaysSomething(turns[i])
    requires forall j :: i < j < |turns| && SaysSomething(turns[j]) ==> turns[j].diaId.value != turns[i].diaId.value
    ensures turns[i].diaId.value in TurnMap(turns) && TurnMap(turns)[turns[i].diaId.value] == Body(turns[i])
    decreases |turns|
  {
    if i < |turns| - 1 {
      TheLastTurnCounts(turns[..|turns| - 1], i);
    }
  }

  lemma {:induction false} NamedExactlyWhen(conversation: Conversation, e: Entry)
    ensures e in NamedSessions(conversation) <==> e in conversation && e.session.Some?
  {
    if conversation != [] {
      NamedExactlyWhen(conversation[1..], e);
      assert conversation == [conversation[0]] + conversation[1..];
    }
  }

  lemma {:induction false} ListedSessions(entries: seq<Entry>, more: seq<Entry>)
    ensures Lists(entries + more) == Lists(entries) + Lists(more)
    ensures forall e: Entry :: Lists([e]) == if e.turns.Some? then [e.turns.value] else []
  {
    if entries == [] {
      assert entries + more == more;
    } else {
      assert (entries + more)[1..] == entries[1..] + more;
      ListedSessions(entries[1..], more);
    }
  }

  /** The keys that name a session are read in the order of their numbers, each as often as it occurs, equal
      numbers in the order they stand. */
  lemma SessionsAreInOrder(conversation: Conversation) returns (entries: seq<Entry>)
    ensures Sessions(conversation) == Lists(entries)
    ensures multiset(entries) == multiset(NamedSessions(conversation))
    ensures forall i, j :: 0 <= i < j < |entries| ==>
              entries[i].session.Some? && entries[j].session.Some?
              && entries[i].session.value <= entries[j].session.value
    ensures forall n: nat :: Filter((e: Entry) => e.session == Some(n), entries)
                             == Filter((e: Entry) => e.session == Some(n), NamedSessions(conversation))
  {
    var named := NamedSessions(conversation);
    entries := SortBy(NumberLeq, named);
    SortBySorts(NumberLeq, named);
    forall e | e in entries
      ensures e.session.Some?
    {
      assert e in Elements(entries);
      NamedExactlyWhen(conversation, e);
    }
    forall i, j | 0 <= i < j < |entries|
      ensures entries[i].session.Some? && entries[j].session.Some?
              && entries[i].session.value <= entries[j].session.value
    {
      assert NumberLeq(entries[i], entries[j]);
    }
    forall n: nat
      ensures Filter((e: Entry) => e.session == Some(n), entries)
           == Filter((e: Entry) => e.session == Some(n), named)
    {
      SortIsStable(NumberLeq, (e: Entry) => e.session == Some(n), named);
    }
  }

  /** The turn map recovered from the dataset alone. */
  method TurnTexts(conversation: Conversation) returns (turns: map<string, string>)
    ensures turns == TurnsOf(conversation)
  {
    turns := map[];
    var sessions := Sessions(conversation);
    for i := 0 to |sessions|
      invariant turns == TurnMap(Flatten(sessions[..i]))
    {
      var session := sessions[i];
      ghost var before := Flatten(sessions[..i]);
      assert before + session[..0] == before;
      for j := 0 to |session|
        invariant turns == TurnMap(before + session[..j])
      {
        TurnOfSession(sessions, i, j);
        AppendTurn(before + session[..j], session[j]);
        var body := Body(session[j]);
        if session[j].diaId.GetOr("") != "" && body != "" {
          turns := turns[session[j].diaId.value := body];
        }
      }
      assert session[..|session|] == session;
      SessionDone(sessions, i);
    }
    assert sessions[..|sessions|] == sessions;
  }

  /** What the store remembers of an ingestion: each observation's turn, and how many there are. */
  ghost predicate Observed(sourceIds: map<string, string>, turns: map<string, string>, ids: nat -> string, n: nat) {
    && sourceIds.Values == turns.Keys
    && forall id :: id in sourceIds ==> exists k: nat :: k < n && ids(k) == id
  }

  ghost predicate Distinct(ids: nat -> string) {
    forall i: nat, j: nat :: i != j ==> ids(i) != ids(j)
  }

  lemma NewObservation(sourceIds: map<string, string>, turns: map<string, string>, ids: nat -> string, n: nat,
                       dia: string, body: string)
    requires Distinct(ids) && Observed(sourceIds, turns, ids, n)
    ensures Observed(sourceIds[ids(n) := dia], turns[dia := body], ids, n + 1)
  {
    assert ids(n) !in sourceIds;
    var after := sourceIds[ids(n) := dia];
    forall v
      ensures v in after.Values <==> v in turns.Keys + {dia}
    {
      if v in sourceIds.Values {
        var id :| id in sourceIds && sourceIds[id] == v;
        assert after[id] == v;
      }
      if v == dia {
        assert after[ids(n)] == v;
      }
    }
  }

  /** Submits every kept turn; the store names the observations `ids(0)`, `ids(1)`, ... */
  method IngestConversation(conversation: Conversation, ids: nat -> string)
    returns (turns: map<string, string>, sourceIds: map<string, string>)
    requires Distinct(ids)
    ensures turns == TurnsOf(conversation)
    ensures sourceIds.Values == turns.Keys
  {
    turns, sourceIds := map[], map[];
    var sessions := Sessions(conversation);
    var submitted := 0;
    for i := 0 to |sessions|
      invariant turns == TurnMap(Flatten(sessions[..i]))
      invariant Observed(sourceIds, turns, ids, submitted)
    {
      var session := sessions[i];
      ghost var before := Flatten(sessions[..i]);
      assert before + session[..0] == before;
      for j := 0 to |session|
        invariant turns == TurnMap(before + session[..j])
        invariant Observed(sourceIds, turns, ids, submitted)
      {
        var turn := session[j];
        TurnOfSession(sessions, i, j);
        AppendTurn(before + session[..j], turn);
        var body := Body(turn);
        if turn.diaId.GetOr("") == "" || body == "" {
          continue;
        }
        NewObservation(sourceIds, turns, ids, submitted, turn.diaId.value, body);
        turns := turns[turn.diaId.value := body];
        sourceIds := sourceIds[ids(submitted) := turn.diaId.value];
        submitted := submitted + 1;
      }
      assert session[..|session|] == session;
      SessionDone(sessions, i);
    }
    assert sessions[..|sessions|] == sessions;
  }

  // ---------------------------------------------------------------- the ledger's history

  datatype CorpusKey = CorpusKey(dataset: string, index: string, ingestion: string)

  datatype ConversationRecord = ConversationRecord(tenant: string, turns: nat, sourceIds: map<string, string>)

  datatype Data = Data(key: Option<CorpusKey>, conversations: map<int, ConversationRecord>)

  const EMPTY := Data(None, map[])

  datatype Event =
    | Begin(key: CorpusKey)
    | Put(index: int, record: ConversationRecord)
    | Adopt(key: CorpusKey)

  /** A corpus can be taken over only when nothing but the ingestion settings differ. */
  predicate CanAdopt(data: Data, key: CorpusKey) {
    data.key.Some? && data.key.value.(ingestion := key.ingestion) == key
  }

  function Step(data: Data, e: Event): Data {
    match e
    case Begin(key) => Data(Some(key), map[])
    case Put(index, record) => data.(conversations := data.conversations[index := record])
    case Adopt(key) => if CanAdopt(data, key) then data.(key := Some(key)) else data
  }

  function After(events: seq<Event>): Data {
    if events == [] then EMPTY else Step(After(events[..|events| - 1]), events[|events| - 1])
  }

  /** A corpus is taken over exactly when it is of the same dataset and index; nothing else ever changes. */
  lemma AdoptedExactlyWhen(data: Data, key: CorpusKey)
    ensures Step(data, Adopt(key)).conversations == data.conversations
    ensures Step(data, Adopt(key)).key ==
            if data.key.Some? && data.key.value.dataset == key.dataset && data.key.value.index == key.index
            then Some(key) else data.key
  {
  }

  /** Reading the history backwards: the last record of a conversation since the last beginning. */
  function LastPut(events: seq<Event>, index: int): Option<ConversationRecord> {
    if events == [] then None
    else
      var last := events[|events| - 1];
      if last.Begin? then None
      else if last.Put? && last.index == index then Some(last.record)
      else LastPut(events[..|events| - 1], index)
  }

  function LastBegin(events: seq<Event>): Option<CorpusKey> {
    if events == [] then None
    else if events[|events| - 1].Begin? then Some(events[|events| - 1].key)
    else LastBegin(events[..|events| - 1])
  }

  /** In every reachable ledger, a conversation's record is the last one written since the last
      beginning, and the key is that beginning's but for an adopted ingestion digest. */
  lemma {:induction false} TheLedgerDatesFromTheLastBeginning(events: seq<Event>, index: int)
    ensures var data := After(events);
            && (index in data.conversations <==> LastPut(events, index).Some?)
            && (index in data.conversations ==> data.conversations[index] == LastPut(events, index).value)
            && (data.key.Some? <==> LastBegin(events).Some?)
            && (data.key.Some? ==>
                  data.key.value.dataset == LastBegin(events).value.dataset
                  && data.key.value.index == LastBegin(events).value.index)
    decreases |events|
  {
    if events != [] {
      TheLedgerDatesFromTheLastBeginning(events[..|events| - 1], index);
    }
  }

  // ---------------------------------------------------------------- the ledger

  /** The conversation a dataset has at each index. */
  type Corpora = (string, int) -> Conversation

  /** Every record tells the truth about its conversation in the dataset the key names. */
  ghost predicate Vouches(data: Data, corpora: Corpora) {
    forall index :: index in data.conversations ==>
      && data.key.Some?
      && RecordFits(data.conversations[index], corpora(data.key.value.dataset, index))
  }

  ghost predicate RecordFits(record: ConversationRecord, conversation: Conversation) {
    record.sourceIds.Values == TurnsOf(conversation).Keys && record.turns == |TurnsOf(conversation)|
  }

  /** Adopting keeps every record true: the dataset is the same. */
  lemma AdoptionKeepsVouching(data: Data, key: CorpusKey, corpora: Corpora)
    requires Vouches(data, corpora)
    ensures Vouches(Step(data, Adopt(key)), corpora)
    ensures Step(data, Adopt(key)).conversations == data.conversations
  {
    if CanAdopt(data, key) {
      assert data.key.value.dataset == key.dataset;
    }
  }

  lemma HistoryExtends(events: seq<Event>, e: Event)
    ensures After(events + [e]) == Step(After(events), e)
  {
    assert (events + [e])[..|events|] == events;
  }

  /** `events` is what has been done with the ledger so far. */
  class Ledger {
    ghost var events: seq<Event>
    var data: Data

    /** The ledger says what its history has made of it. */
    ghost predicate Valid()
      reads this
    {
      data == After(events)
    }

    constructor ()
      ensures Valid() && data == EMPTY && events == []
    {
      data, events := EMPTY, [];
    }

    predicate Matches(key: CorpusKey)
      reads this
    {
      data.key == Some(key)
    }

    /** Renames what the ledger holds to `key`, or refuses; gives back the name it had. */
    method TakeOver(key: CorpusKey) returns (held: Option<CorpusKey>)
      requires Valid()
      modifies this
      ensures Valid() && events == old(events) + [Adopt(key)]
      ensures data == Step(old(data), Adopt(key))
      ensures held == if CanAdopt(old(data), key) then old(data.key) else None
    {
      HistoryExtends(events, Adopt(key));
      events := events + [Adopt(key)];
      if data.key.None? || data.key.value.dataset != key.dataset || data.key.value.index != key.index {
        return None;
      }
      held := data.key;
      data := data.(key := Some(key));
    }

    method Start(key: CorpusKey)
      requires Valid()
      modifies this
      ensures Valid() && events == old(events) + [Begin(key)]
      ensures data == Step(old(data), Begin(key))
    {
      HistoryExtends(events, Begin(key));
      events := events + [Begin(key)];
      data := Data(Some(key), map[]);
    }

    method Write(index: int, record: ConversationRecord)
      requires Valid()
      modifies this
      ensures Valid() && events == old(events) + [Put(index, record)]
      ensures data == Step(old(data), Put(index, record))
    {
      HistoryExtends(events, Put(index, record));
      events := events + [Put(index, record)];
      data := data.(conversations := data.conversations[index := record]);
    }

    /** Reused or ingested, the turns are the conversation's, the source map names exactly them, and the
        ledger goes on telling the truth. A reused source map is the one its last ingestion recorded. */
    method EnsureConversation(
        tenant: string, conversation: Conversation, index: int, key: CorpusKey, reuse: bool, storeHolds: bool,
        ids: nat -> string, ghost corpora: Corpora)
      returns (turns: map<string, string>, sourceIds: map<string, string>, reused: bool)
      requires Distinct(ids)
      requires Valid() && Vouches(data, corpora) && conversation == corpora(key.dataset, index)
      modifies this
      ensures turns == TurnsOf(conversation) && sourceIds.Values == turns.Keys
      ensures Valid() && Vouches(data, corpora)
      ensures reused <==>
                && reuse && old(data.key) == Some(key)
                && index in old(data.conversations) && old(data.conversations)[index].tenant == tenant
                && storeHolds
      ensures reused ==>
                data == old(data) && events == old(events)
                && sourceIds == old(data.conversations)[index].sourceIds
      ensures reused ==>
                LastPut(old(events), index).Some? && sourceIds == LastPut(old(events), index).value.sourceIds
      ensures !reused ==>
                data == Step(if old(data.key) == Some(key) then old(data) else Step(old(data), Begin(key)),
                             Put(index, ConversationRecord(tenant, |turns|, sourceIds)))
      ensures !reused ==> LastPut(events, index) == Some(ConversationRecord(tenant, |turns|, sourceIds))
    {
      if reuse && Matches(key) && index in data.conversations {
        var known := data.conversations[index];
        if known.tenant == tenant && storeHolds {
          turns := TurnTexts(conversation);
          assert RecordFits(known, corpora(key.dataset, index));
          TheLedgerDatesFromTheLastBeginning(events, index);
          return turns, known.sourceIds, true;
        }
      }
      if !Matches(key) {
        Start(key);
      }
      turns, sourceIds := IngestConversation(conversation, ids);
      Write(index, ConversationRecord(tenant, |turns|, sourceIds));
      reused := false;
    }
  }
}
