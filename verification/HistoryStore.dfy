/** The durable message history of a conversation
    (services/api-gateway/core/admin_conversations_db.py): SQL literals, and the order in which a
    saved history is read back.  The statements of one save are one transaction. */
module HistoryStore {

  import opened Sequences
  import opened Texts
  import opened Wrappers
  import H = ChatHistory

  // ---- Literals ----

  /** v.replace("'", "''") */
  function Doubled(v: string): string {
    if v == "" then "" else (if v[0] == '\'' then "''" else [v[0]]) + Doubled(v[1..])
  }

  /** `_sql_lit` */
  function SqlLit(v: string, max: nat): string {
    var d := Doubled(v);
    if |d| <= max then d else d[..max]
  }

  predicate Fits(v: string, max: nat) { |Doubled(v)| <= max }

  datatype Read = Open | Closed(value: string, rest: string)

  /** How SQL reads a literal whose opening quote is behind us: two quotes are one, one closes. */
  function ReadLiteral(t: string): Read {
    if t == "" then Open
    else if t[0] != '\'' then Prefixed(t[0], ReadLiteral(t[1..]))
    else if |t| >= 2 && t[1] == '\'' then Prefixed('\'', ReadLiteral(t[2..]))
    else Closed("", t[1..])
  }

  function Prefixed(c: char, r: Read): Read {
    match r
    case Open => Open
    case Closed(value, rest) => Closed([c] + value, rest)
  }

  predicate NoQuoteAhead(rest: string) { rest == "" || rest[0] != '\'' }

  lemma ReadPair(t: string)
    ensures ReadLiteral("''" + t) == Prefixed('\'', ReadLiteral(t))
  {}

  lemma ReadPlain(c: char, t: string)
    requires c != '\''
    ensures ReadLiteral([c] + t) == Prefixed(c, ReadLiteral(t))
  {}

  lemma {:induction false} ReadDoubled(v: string, rest: string)
    requires NoQuoteAhead(rest)
    ensures ReadLiteral(Doubled(v) + "'" + rest) == Closed(v, rest)
  {
    var t := Doubled(v) + "'" + rest;
    if v == "" {
      assert t == "'" + rest && t[1..] == rest;
    } else {
      ReadDoubled(v[1..], rest);
      var inner := Doubled(v[1..]) + "'" + rest;
      if v[0] == '\'' {
        assert t == "''" + inner;
        ReadPair(inner);
      } else {
        assert t == [v[0]] + inner;
        ReadPlain(v[0], inner);
      }
      assert v == [v[0]] + v[1..];
    }
  }

  /** Reading leaves a proper suffix. */
  lemma {:induction false} ReadShortens(t: string)
    ensures var r := ReadLiteral(t); r.Closed? ==> |r.rest| + |r.value| < |t|
  {
    if t == "" {
    } else if t[0] != '\'' {
      ReadShortens(t[1..]);
    } else if |t| >= 2 && t[1] == '\'' {
      ReadShortens(t[2..]);
    }
  }

  lemma CutBehind(front: string, tail: string, max: nat, rest: string)
    requires |front| <= max <= |front| + |tail|
    ensures (front + tail)[..max] + "'" + rest == front + (tail[..max - |front|] + "'" + rest)
  {}

  lemma PairIsNotTheEnd(rest: string)
    ensures var r := ReadLiteral("''" + rest); r.Closed? ==> r.rest != rest
  {
    ReadPair(rest);
    ReadShortens(rest);
  }

  lemma {:induction false} CutPlain(v: string, max: nat, rest: string)
    requires v != "" && v[0] != '\'' && 1 <= max <= |Doubled(v)|
    ensures max - 1 <= |Doubled(v[1..])|
    ensures ReadLiteral(Doubled(v)[..max] + "'" + rest)
         == Prefixed(v[0], ReadLiteral(Doubled(v[1..])[..max - 1] + "'" + rest))
  {
    CutBehind([v[0]], Doubled(v[1..]), max, rest);
    ReadPlain(v[0], Doubled(v[1..])[..max - 1] + "'" + rest);
  }

  lemma {:induction false} CutQuote(v: string, max: nat, rest: string)
    requires v != "" && v[0] == '\'' && 2 <= max <= |Doubled(v)|
    ensures max - 2 <= |Doubled(v[1..])|
    ensures ReadLiteral(Doubled(v)[..max] + "'" + rest)
         == Prefixed('\'', ReadLiteral(Doubled(v[1..])[..max - 2] + "'" + rest))
  {
    CutBehind("''", Doubled(v[1..]), max, rest);
    ReadPair(Doubled(v[1..])[..max - 2] + "'" + rest);
  }

  /** A cut text is read as something else: with fewer characters, or with some of what follows. */
  lemma {:induction false} CutIsNotReadBack(v: string, max: nat, rest: string)
    requires NoQuoteAhead(rest) && |Doubled(v)| > max
    ensures var r := ReadLiteral(Doubled(v)[..max] + "'" + rest); r.Closed? && r.rest == rest ==> |r.value| < |v|
  {
    if max == 0 {
      var t := Doubled(v)[..0] + "'" + rest;
      assert t == "'" + rest && t[1..] == rest;
    } else if v[0] != '\'' {
      CutPlain(v, max, rest);
      CutIsNotReadBack(v[1..], max - 1, rest);
    } else if max == 1 {
      assert Doubled(v)[..1] == "'" && Doubled(v)[..1] + "'" + rest == "''" + rest;
      PairIsNotTheEnd(rest);
    } else {
      CutQuote(v, max, rest);
      CutIsNotReadBack(v[1..], max - 2, rest);
    }
  }

  /** A value survives being written as a literal exactly when its doubled form is within the cap. */
  lemma LiteralRoundTrip(v: string, max: nat, rest: string)
    requires NoQuoteAhead(rest)
    ensures ReadLiteral(SqlLit(v, max) + "'" + rest) == Closed(v, rest) <==> Fits(v, max)
  {
    if Fits(v, max) {
      ReadDoubled(v, rest);
    } else {
      CutIsNotReadBack(v, max, rest);
    }
  }

  /** The value SQL sees for `v` under a cap; none when the cut leaves the literal open, which makes
      the whole statement an error. */
  function ReadBack(v: string, max: nat): Option<string> {
    match ReadLiteral(SqlLit(v, max) + "'")
    case Closed(value, rest) => if rest == "" then Some(value) else None
    case Open => None
  }

  lemma ReadBackExact(v: string, max: nat)
    ensures ReadBack(v, max) == Some(v) <==> Fits(v, max)
    ensures !Fits(v, max) && ReadBack(v, max).Some? ==> |ReadBack(v, max).value| < |v|
  {
    var t := SqlLit(v, max) + "'";
    assert t + "" == t;
    LiteralRoundTrip(v, max, "");
    if !Fits(v, max) { CutIsNotReadBack(v, max, ""); }
  }

  // ---- The value list of one INSERT ----

  /** A value and the cap it is written under. */
  datatype Field = Field(value: string, max: nat)

  /** 'a', 'b', ... closed by a parenthesis. */
  function ValueList(fields: seq<Field>): string
    requires fields != []
  {
    "'" + SqlLit(fields[0].value, fields[0].max) + "'" + if |fields| == 1 then ")" else ", " + ValueList(fields[1..])
  }

  /** How SQL reads `n` values back. */
  function ReadValues(t: string, n: nat): Option<seq<string>>
    requires n > 0
    decreases n
  {
    if t == "" || t[0] != '\'' then None
    else
      match ReadLiteral(t[1..])
      case Open => None
      case Closed(value, rest) =>
        if n == 1 then (if rest == ")" then Some([value]) else None)
        else if |rest| < 2 || rest[..2] != ", " then None
        else
          match ReadValues(rest[2..], n - 1)
          case None => None
          case Some(others) => Some([value] + others)
  }

  function ValuesOf(fields: seq<Field>): seq<string> {
    if fields == [] then [] else [fields[0].value] + ValuesOf(fields[1..])
  }

  predicate AllFit(fields: seq<Field>) { forall k :: 0 <= k < |fields| ==> Fits(fields[k].value, fields[k].max) }

  /** Every row is stored as it was meant when all its values fit. */
  lemma {:induction false} InsertRoundTrip(fields: seq<Field>)
    requires fields != [] && AllFit(fields)
    ensures ReadValues(ValueList(fields), |fields|) == Some(ValuesOf(fields))
  {
    var f := fields[0];
    var tail := if |fields| == 1 then ")" else ", " + ValueList(fields[1..]);
    var t := ValueList(fields);
    assert t[1..] == SqlLit(f.value, f.max) + "'" + tail;
    LiteralRoundTrip(f.value, f.max, tail);
    assert ReadLiteral(t[1..]) == Closed(f.value, tail);
    assert ValuesOf(fields) == [f.value] + ValuesOf(fields[1..]);
    if |fields| == 1 {
      assert fields[1..] == [] && ValuesOf(fields) == [f.value];
      assert ReadValues(t, 1) == Some([f.value]);
    } else {
      assert tail[..2] == ", " && tail[2..] == ValueList(fields[1..]);
      InsertRoundTrip(fields[1..]);
    }
  }

  // ---- The table ----

  datatype Message = Message(role: string, content: string)

  /** A row; its stamp is a second and a microsecond of it. */
  datatype Row = Row(conversation: string, message: Message, second: int, micros: nat)

  /** A row with its primary key. */
  datatype Entry = Entry(id: string, row: Row)

  const MAX_MICROS := 999999

  predicate Earlier(a: Row, b: Row) { a.second < b.second || (a.second == b.second && a.micros < b.micros) }

  /** The messages a save keeps: a known role and content that is not blank. */
  function Valid(item: Message): (m: Option<Message>)
    ensures m.Some? ==> m.value.role in [H.USER, H.ASSISTANT] && H.Trim(m.value.content)
  {
    var role, content := H.Lower(Strip(item.role)), Strip(item.content);
    if role in [H.USER, H.ASSISTANT] && content != "" then
      H.StripIsTrim(item.content);
      Some(Message(role, content))
    else None
  }

  /** Which messages are kept, and as what: stripped, the role in lower case. */
  lemma ValidIs(item: Message)
    ensures Valid(item).Some? <==> H.Lower(Strip(item.role)) in ["user", "assistant"] && Strip(item.content) != ""
    ensures Valid(item).Some? ==> Valid(item).value == Message(H.Lower(Strip(item.role)), Strip(item.content))
  {}

  function ValidMessages(items: seq<Message>): seq<Message> {
    if items == [] then []
    else (if Valid(items[0]).Some? then [Valid(items[0]).value] else []) + ValidMessages(items[1..])
  }

  lemma {:induction false} ValidMessagesSnoc(items: seq<Message>, item: Message)
    ensures ValidMessages(items + [item]) ==
            ValidMessages(items) + if Valid(item).Some? then [Valid(item).value] else []
  {
    if items == [] {
      assert [item][1..] == [] && items + [item] == [item];
    } else {
      assert (items + [item])[1..] == items[1..] + [item];
      ValidMessagesSnoc(items[1..], item);
    }
  }

  /** A message that was stored is valid and read back unchanged. */
  lemma StoredIsValid(m: Message)
    requires m.role in [H.USER, H.ASSISTANT] && H.Trim(m.content)
    ensures Valid(m) == Some(m)
  {
    H.TrimStays(m.content);
    H.RoleIsKept(m.role);
  }

  /** The rows of a save, in the order of the messages. */
  function Inserted(messages: seq<Message>, conversation: string, ids: nat -> string, now: int, from: nat): seq<Entry> {
    if messages == [] then []
    else
      [Entry(ids(from), Row(conversation, messages[0], now, Min(from, MAX_MICROS)))]
      + Inserted(messages[1..], conversation, ids, now, from + 1)
  }

  lemma {:induction false} InsertedAt(messages: seq<Message>, conversation: string, ids: nat -> string, now: int,
                                      from: nat)
    ensures var e := Inserted(messages, conversation, ids, now, from);
            |e| == |messages| && forall k :: 0 <= k < |e| ==>
              e[k] == Entry(ids(from + k), Row(conversation, messages[k], now, Min(from + k, MAX_MICROS)))
  {
    if messages != [] { InsertedAt(messages[1..], conversation, ids, now, from + 1); }
  }

  const CONTENT_MAX := 100000
  const KEY_MAX := 128

  /** The conversation or tenant that the statements name. */
  function KeyOf(id: string): Option<string> { ReadBack(id, KEY_MAX) }

  /** The messages as the INSERTs spell them. */
  function Spelled(messages: seq<Message>): Option<seq<Message>> {
    if messages == [] then Some([])
    else
      var content := ReadBack(messages[0].content, CONTENT_MAX);
      var others := Spelled(messages[1..]);
      if content.Some? && others.Some? then Some([messages[0].(content := content.value)] + others.value) else None
  }

  lemma {:induction false} SpelledAt(messages: seq<Message>)
    requires Spelled(messages).Some?
    ensures var s := Spelled(messages).value;
            |s| == |messages| && forall k :: 0 <= k < |s| ==>
              s[k].role == messages[k].role && ReadBack(messages[k].content, CONTENT_MAX) == Some(s[k].content)
  {
    if messages != [] { SpelledAt(messages[1..]); }
  }

  predicate ContentsFit(messages: seq<Message>) {
    forall k :: 0 <= k < |messages| ==> |Doubled(messages[k].content)| <= 100000
  }

  // ---- ORDER BY created_at, message_id ----

  predicate StringLess(a: string, b: string) {
    if b == "" then false else a == "" || a[0] < b[0] || (a[0] == b[0] && StringLess(a[1..], b[1..]))
  }

  predicate InOrder(a: Entry, b: Entry) {
    Earlier(a.row, b.row) || (!Earlier(b.row, a.row) && !StringLess(b.id, a.id))
  }

  /** `answer` is what the SELECT may return: the rows of the conversation, each once, in order. */
  ghost predicate IsAnswer(table: map<string, Row>, conversation: string, answer: seq<Entry>) {
    && (forall e :: e in answer <==> e.id in table && table[e.id] == e.row && e.row.conversation == conversation)
    && (forall i, j :: 0 <= i < j < |answer| ==> answer[i].id != answer[j].id && InOrder(answer[i], answer[j]))
  }

  predicate StrictlyEarlier(s: seq<Entry>) { forall i, j :: 0 <= i < j < |s| ==> Earlier(s[i].row, s[j].row) }

  /** Rows with strictly increasing stamps have one order only. */
  lemma {:induction false} OrderIsUnique(a: seq<Entry>, b: seq<Entry>)
    requires StrictlyEarlier(a) && (forall e :: e in a <==> e in b)
    requires forall i, j :: 0 <= i < j < |b| ==> b[i].id != b[j].id && InOrder(b[i], b[j])
    ensures a == b
  {
    HeadIsMember(a);
    HeadIsMember(b);
    if a != [] {
      FirstIsFirst(a, b);
      forall e ensures e in a[1..] <==> e in b[1..] {
        TailMembers(a, e);
        TailMembersById(b, e);
      }
      OrderIsUnique(a[1..], b[1..]);
      assert a == [a[0]] + a[1..] && b == [b[0]] + b[1..];
    }
  }

  lemma HeadIsMember(s: seq<Entry>)
    ensures s != [] ==> s[0] in s
  {}

  lemma FirstIsFirst(a: seq<Entry>, b: seq<Entry>)
    requires a != [] && b != [] && StrictlyEarlier(a) && (forall e :: e in a <==> e in b)
    requires forall i, j :: 0 <= i < j < |b| ==> b[i].id != b[j].id && InOrder(b[i], b[j])
    ensures a[0] == b[0]
  {
    assert b[0] in a && a[0] in b;
    var i :| 0 <= i < |a| && a[i] == b[0];
    var j :| 0 <= j < |b| && b[j] == a[0];
    if i > 0 && j > 0 {
      assert false;
    }
  }

  lemma TailMembers(a: seq<Entry>, e: Entry)
    requires a != [] && StrictlyEarlier(a)
    ensures e in a[1..] <==> e in a && e != a[0]
  {}

  lemma TailMembersById(b: seq<Entry>, e: Entry)
    requires b != [] && forall i, j :: 0 <= i < j < |b| ==> b[i].id != b[j].id
    ensures e in b[1..] <==> e in b && e != b[0]
  {}

  lemma InsertedIsStrict(messages: seq<Message>, conversation: string, ids: nat -> string, now: int)
    requires |messages| <= MAX_MICROS + 1
    ensures StrictlyEarlier(Inserted(messages, conversation, ids, now, 0))
  {
    InsertedAt(messages, conversation, ids, now, 0);
  }

  /** The limit is exact: two messages of one save have the same stamp only past a million. */
  lemma StampsCollide(messages: seq<Message>, conversation: string, ids: nat -> string, now: int)
    ensures StrictlyEarlier(Inserted(messages, conversation, ids, now, 0)) <==> |messages| <= 1000000
  {
    InsertedAt(messages, conversation, ids, now, 0);
    var e := Inserted(messages, conversation, ids, now, 0);
    if |messages| > MAX_MICROS + 1 {
      assert !Earlier(e[MAX_MICROS].row, e[MAX_MICROS + 1].row);
    }
  }

  // ---- The store ----

  function Without(table: map<string, Row>, conversation: string): map<string, Row> {
    map id | id in table && table[id].conversation != conversation :: table[id]
  }

  function WithEntries(table: map<string, Row>, entries: seq<Entry>): map<string, Row> {
    if entries == [] then table
    else WithEntries(table, entries[..|entries| - 1])[entries[|entries| - 1].id := entries[|entries| - 1].row]
  }

  /** The drawn ids are new: no two alike, none used by a row that stays. */
  predicate FreshIds(table: map<string, Row>, entries: seq<Entry>) {
    && (forall k :: 0 <= k < |entries| ==> entries[k].id !in table)
    && (forall i, j :: 0 <= i < j < |entries| ==> entries[i].id != entries[j].id)
  }

  lemma {:induction false} WithEntriesHolds(table: map<string, Row>, entries: seq<Entry>)
    requires FreshIds(table, entries)
    ensures forall e: Entry :: e.id in WithEntries(table, entries) && WithEntries(table, entries)[e.id] == e.row <==>
                        e in entries || (e.id in table && table[e.id] == e.row)
  {
    if entries != [] {
      var n := |entries| - 1;
      WithEntriesHolds(table, entries[..n]);
      EntriesSnoc(table, entries);
    }
  }

  lemma EntriesSnoc(table: map<string, Row>, entries: seq<Entry>)
    requires entries != [] && FreshIds(table, entries)
    ensures var n := |entries| - 1;
            && (forall e :: e in entries <==> e in entries[..n] || e == entries[n])
            && (forall e :: e in entries[..n] ==> e.id != entries[n].id)
            && entries[n].id !in table
  {}

  function MessagesOf(entries: seq<Entry>): seq<Message> {
    seq(|entries|, k requires 0 <= k < |entries| => entries[k].row.message)
  }

  /** The loop that keeps the valid messages, of the list to save and of the rows loaded. */
  method CollectValid(items: seq<Message>) returns (rows: seq<Message>)
    ensures rows == ValidMessages(items)
  {
    rows := [];
    var i := 0;
    while i < |items|
      invariant 0 <= i <= |items| && rows == ValidMessages(items[..i])
    {
      assert items[..i + 1] == items[..i] + [items[i]];
      ValidMessagesSnoc(items[..i], items[i]);
      var m := Valid(items[i]);
      if m.Some? { rows := rows + [m.value]; }
      i := i + 1;
    }
    assert items[..|items|] == items;
  }

  /** The INSERTs of one save, on what the DELETE left; a taken id fails them. */
  method InsertAll(kept: map<string, Row>, conversation: string, rows: seq<Message>, ids: nat -> string, now: int)
    returns (ok: bool, after: map<string, Row>)
    ensures var entries := Inserted(rows, conversation, ids, now, 0);
            ok == FreshIds(kept, entries) && (ok ==> after == WithEntries(kept, entries))
  {
    after := kept;
    ghost var entries := Inserted(rows, conversation, ids, now, 0);
    InsertedAt(rows, conversation, ids, now, 0);
    var i := 0;
    while i < |rows|
      invariant 0 <= i <= |rows|
      invariant FreshIds(kept, entries[..i]) && after == WithEntries(kept, entries[..i])
    {
      var id := ids(i);
      assert id == entries[i].id;
      FreshSnoc(kept, entries, i);
      if id in after { return false, after; }
      after := after[id := Row(conversation, rows[i], now, Min(i, MAX_MICROS))];
      i := i + 1;
    }
    assert entries[..|entries|] == entries;
    ok := true;
  }

  lemma TakenIsNotFresh(kept: map<string, Row>, entries: seq<Entry>, i: nat)
    requires i < |entries| && FreshIds(kept, entries[..i]) && entries[i].id in WithEntries(kept, entries[..i])
    ensures !FreshIds(kept, entries)
  {
    var id := entries[i].id;
    var after := WithEntries(kept, entries[..i]);
    WithEntriesHolds(kept, entries[..i]);
    var e := Entry(id, after[id]);
    if e in entries[..i] {
      var k :| 0 <= k < i && entries[k] == e;
      assert entries[k].id == entries[i].id;
    }
  }

  lemma NewIsFresh(kept: map<string, Row>, entries: seq<Entry>, i: nat)
    requires i < |entries| && FreshIds(kept, entries[..i]) && entries[i].id !in WithEntries(kept, entries[..i])
    ensures FreshIds(kept, entries[..i + 1])
  {
    KeysGrow(kept, entries[..i]);
    var more := entries[..i + 1];
    assert forall k :: 0 <= k < i ==> more[k] == entries[..i][k];
  }

  /** One more INSERT: it works when its id is not in the table yet. */
  lemma FreshSnoc(kept: map<string, Row>, entries: seq<Entry>, i: nat)
    requires i < |entries| && FreshIds(kept, entries[..i])
    ensures var after := WithEntries(kept, entries[..i]);
            && WithEntries(kept, entries[..i + 1]) == after[entries[i].id := entries[i].row]
            && (if entries[i].id in after then !FreshIds(kept, entries) else FreshIds(kept, entries[..i + 1]))
  {
    assert entries[..i + 1][..i] == entries[..i];
    if entries[i].id in WithEntries(kept, entries[..i]) {
      TakenIsNotFresh(kept, entries, i);
    } else {
      NewIsFresh(kept, entries, i);
    }
  }

  lemma {:induction false} KeysGrow(kept: map<string, Row>, entries: seq<Entry>)
    ensures kept.Keys <= WithEntries(kept, entries).Keys
    ensures forall k :: 0 <= k < |entries| ==> entries[k].id in WithEntries(kept, entries)
  {
    if entries != [] {
      var n := |entries| - 1;
      KeysGrow(kept, entries[..n]);
      assert forall k :: 0 <= k < n ==> entries[k] == entries[..n][k];
    }
  }

  /** The transaction of one save: the new messages table, or nothing when there is no message to
      save, a statement is malformed, or a drawn id is taken. */
  function SaveEffect(table: map<string, Row>, tenant: string, conversation: string, items: seq<Message>,
                      ids: nat -> string, now: int)
    : Option<map<string, Row>>
  {
    var rows := ValidMessages(items);
    if rows == [] || KeyOf(tenant).None? || KeyOf(conversation).None? || Spelled(rows).None? then None
    else
      var key := KeyOf(conversation).value;
      var entries := Inserted(Spelled(rows).value, key, ids, now, 0);
      if FreshIds(Without(table, key), entries) then Some(WithEntries(Without(table, key), entries)) else None
  }

  /** The drawn ids differ and no row of another conversation has one. */
  predicate NewIds(table: map<string, Row>, key: string, ids: nat -> string, n: nat) {
    && (forall i :: 0 <= i < n ==> ids(i) in table ==> table[ids(i)].conversation == key)
    && (forall i, j :: 0 <= i < j < n ==> ids(i) != ids(j))
  }

  lemma FreshByIds(kept: map<string, Row>, entries: seq<Entry>, ids: nat -> string)
    requires forall i: nat :: i < |entries| ==> entries[i].id == ids(i)
    ensures FreshIds(kept, entries) <==>
            && (forall i: nat :: i < |entries| ==> ids(i) !in kept)
            && (forall i: nat, j: nat :: i < j < |entries| ==> ids(i) != ids(j))
  {
    if FreshIds(kept, entries) {
      forall i: nat, j: nat | i < j < |entries| ensures ids(i) != ids(j) {
        assert entries[i].id == ids(i) && entries[j].id == ids(j);
      }
    }
  }

  lemma FreshWhen(table: map<string, Row>, key: string, messages: seq<Message>, ids: nat -> string, now: int)
    ensures FreshIds(Without(table, key), Inserted(messages, key, ids, now, 0)) <==> NewIds(table, key, ids, |messages|)
  {
    var entries := Inserted(messages, key, ids, now, 0);
    InsertedAt(messages, key, ids, now, 0);
    forall i: nat | i < |entries| ensures entries[i].id == ids(i) {}
    FreshByIds(Without(table, key), entries, ids);
  }

  /** When a save takes effect: it has a valid message, tenant, conversation and every content leave
      their literals closed, and the ids are new. */
  lemma SavesExactlyWhen(table: map<string, Row>, tenant: string, conversation: string, items: seq<Message>,
                         ids: nat -> string, now: int)
    ensures var rows := ValidMessages(items);
            SaveEffect(table, tenant, conversation, items, ids, now).Some? <==>
            && rows != [] && ReadBack(tenant, 128).Some? && ReadBack(conversation, 128).Some?
            && (forall k :: 0 <= k < |rows| ==> ReadBack(rows[k].content, 100000).Some?)
            && NewIds(table, ReadBack(conversation, 128).value, ids, |rows|)
  {
    var rows := ValidMessages(items);
    SpelledWhen(rows);
    if KeyOf(conversation).Some? && Spelled(rows).Some? {
      SpelledAt(rows);
      FreshWhen(table, KeyOf(conversation).value, Spelled(rows).value, ids, now);
    }
  }

  lemma {:induction false} SpelledWhen(rows: seq<Message>)
    ensures Spelled(rows).Some? <==> forall k :: 0 <= k < |rows| ==> ReadBack(rows[k].content, 100000).Some?
  {
    if rows != [] {
      SpelledWhen(rows[1..]);
      assert forall k :: 1 <= k < |rows| ==> rows[k] == rows[1..][k - 1];
    }
  }

  /** The rows of the messages table and the message counts of the conversations table. */
  class MessageStore {
    var table: map<string, Row>
    var counts: map<(string, string), nat>

    constructor ()
      ensures table == map[] && counts == map[]
    {
      table, counts := map[], map[];
    }

    /** `db_save_messages`, for a conversation id that is not blank.  `ids` are the random ids
        drawn. */
    method DbSaveMessages(tenant: string, conversation: string, items: seq<Message>, ids: nat -> string, now: int)
      returns (saved: bool)
      modifies this
      ensures saved == SaveEffect(old(table), tenant, conversation, items, ids, now).Some?
      ensures saved ==> Some(table) == SaveEffect(old(table), tenant, conversation, items, ids, now)
      ensures !saved ==> table == old(table) && counts == old(counts)
      ensures saved ==>
                var at := (KeyOf(tenant).value, KeyOf(conversation).value);
                counts == if at in old(counts) then old(counts)[at := |ValidMessages(items)|] else old(counts)
    {
      var rows := CollectValid(items);
      if rows == [] { return false; }
      var owner, key, spelled := KeyOf(tenant), KeyOf(conversation), Spelled(rows);
      if owner.None? || key.None? || spelled.None? { return false; }
      var after;
      saved, after := InsertAll(Without(table, key.value), key.value, spelled.value, ids, now);
      if saved {
        table := after;
        var at := (owner.value, key.value);
        if at in counts { counts := counts[at := |rows|]; }
      }
    }

    /** `db_load_messages`; `answer` is what the SELECT returned, if it could be read at all. */
    method DbLoadMessages(conversation: string, answer: seq<Entry>) returns (out: seq<Message>)
      requires KeyOf(conversation).Some? ==> IsAnswer(table, KeyOf(conversation).value, answer)
      ensures out == if KeyOf(conversation).Some? then ValidMessages(MessagesOf(answer)) else []
    {
      if KeyOf(conversation).None? { return []; }
      out := CollectValid(MessagesOf(answer));
    }
  }

  // ---- Load after save ----

  /** Of the table behind a save, the rows of the conversation are the inserted ones. */
  lemma RowsBehindSave(before: map<string, Row>, conversation: string, entries: seq<Entry>, e: Entry)
    requires FreshIds(Without(before, conversation), entries)
    requires forall x :: x in entries ==> x.row.conversation == conversation
    ensures var table := WithEntries(Without(before, conversation), entries);
            e in entries <==> e.id in table && table[e.id] == e.row && e.row.conversation == conversation
  {
    WithEntriesHolds(Without(before, conversation), entries);
  }

  /** After a save the SELECT has one possible answer: the rows just inserted, in their order. */
  lemma AnswerAfterSave(before: map<string, Row>, conversation: string, messages: seq<Message>, ids: nat -> string,
                        now: int, answer: seq<Entry>)
    requires |messages| <= MAX_MICROS + 1
    requires FreshIds(Without(before, conversation), Inserted(messages, conversation, ids, now, 0))
    ensures IsAnswer(WithEntries(Without(before, conversation), Inserted(messages, conversation, ids, now, 0)),
                     conversation, answer)
            <==> answer == Inserted(messages, conversation, ids, now, 0)
  {
    var entries := Inserted(messages, conversation, ids, now, 0);
    var table := WithEntries(Without(before, conversation), entries);
    InsertedAt(messages, conversation, ids, now, 0);
    InsertedIsStrict(messages, conversation, ids, now);
    forall e: Entry
      ensures e in entries <==> e.id in table && table[e.id] == e.row && e.row.conversation == conversation
    {
      RowsBehindSave(before, conversation, entries, e);
    }
    if IsAnswer(table, conversation, answer) {
      OrderIsUnique(entries, answer);
    } else if answer == entries {
      StrictIsAnswer(table, conversation, entries);
    }
  }

  lemma StrictIsAnswer(table: map<string, Row>, conversation: string, entries: seq<Entry>)
    requires StrictlyEarlier(entries) && forall i, j :: 0 <= i < j < |entries| ==> entries[i].id != entries[j].id
    requires forall e: Entry :: e in entries <==>
               e.id in table && table[e.id] == e.row && e.row.conversation == conversation
    ensures IsAnswer(table, conversation, entries)
  {}

  lemma {:induction false} ValidStays(messages: seq<Message>)
    requires forall k :: 0 <= k < |messages| ==>
               messages[k].role in [H.USER, H.ASSISTANT] && H.Trim(messages[k].content)
    ensures ValidMessages(messages) == messages
  {
    if messages != [] {
      StoredIsValid(messages[0]);
      ValidStays(messages[1..]);
      assert messages == [messages[0]] + messages[1..];
    }
  }

  lemma {:induction false} ValidMessagesAreValid(items: seq<Message>)
    ensures forall k :: 0 <= k < |ValidMessages(items)| ==>
              ValidMessages(items)[k].role in [H.USER, H.ASSISTANT] && H.Trim(ValidMessages(items)[k].content)
  {
    if items != [] { ValidMessagesAreValid(items[1..]); }
  }

  lemma {:induction false} NoneDropped(messages: seq<Message>)
    ensures |ValidMessages(messages)| <= |messages|
    ensures |ValidMessages(messages)| == |messages| ==>
              forall k :: 0 <= k < |messages| ==> Valid(messages[k]) == Some(ValidMessages(messages)[k])
  {
    if messages != [] { NoneDropped(messages[1..]); }
  }

  lemma SpelledFits(rows: seq<Message>)
    requires Spelled(rows).Some? && ContentsFit(rows)
    ensures Spelled(rows).value == rows
  {
    SpelledAt(rows);
    var spelled := Spelled(rows).value;
    forall k | 0 <= k < |rows| ensures spelled[k] == rows[k] {
      ReadBackExact(rows[k].content, CONTENT_MAX);
    }
  }

  lemma SpelledCut(rows: seq<Message>, spelled: seq<Message>, k: nat)
    requires Spelled(rows) == Some(spelled) && k < |rows| && !Fits(rows[k].content, CONTENT_MAX)
    ensures ValidMessages(spelled) != rows
  {
    SpelledAt(rows);
    NoneDropped(spelled);
    ReadBackExact(rows[k].content, CONTENT_MAX);
    StripInk(spelled[k].content);
  }

  /** Reading the spelled messages gives the messages exactly when every content fits. */
  lemma SpelledRoundTrip(items: seq<Message>)
    requires Spelled(ValidMessages(items)).Some?
    ensures ValidMessages(Spelled(ValidMessages(items)).value) == ValidMessages(items) <==>
            ContentsFit(ValidMessages(items))
  {
    var rows := ValidMessages(items);
    if ContentsFit(rows) {
      SpelledFits(rows);
      ValidMessagesAreValid(items);
      ValidStays(rows);
    } else {
      var k :| 0 <= k < |rows| && !Fits(rows[k].content, CONTENT_MAX);
      SpelledCut(rows, Spelled(rows).value, k);
    }
  }

  /** Whatever ids were drawn, loading after saving up to a million messages gives back exactly the
      valid ones, in order, if and only if every content fits its literal. */
  lemma LoadAfterSave(before: map<string, Row>, tenant: string, conversation: string, items: seq<Message>,
                      ids: nat -> string, now: int, answer: seq<Entry>)
    requires |ValidMessages(items)| <= MAX_MICROS + 1
    requires SaveEffect(before, tenant, conversation, items, ids, now).Some?
    requires IsAnswer(SaveEffect(before, tenant, conversation, items, ids, now).value,
                      KeyOf(conversation).value, answer)
    ensures ValidMessages(MessagesOf(answer)) == ValidMessages(items) <==> ContentsFit(ValidMessages(items))
  {
    var spelled := Spelled(ValidMessages(items)).value;
    var key := KeyOf(conversation).value;
    SpelledAt(ValidMessages(items));
    AnswerAfterSave(before, key, spelled, ids, now, answer);
    InsertedAt(spelled, key, ids, now, 0);
    assert MessagesOf(answer) == spelled;
    SpelledRoundTrip(items);
  }

  /** A save touches no row of another conversation. */
  lemma SaveKeepsOthers(before: map<string, Row>, tenant: string, conversation: string, items: seq<Message>,
                        ids: nat -> string, now: int, e: Entry)
    requires SaveEffect(before, tenant, conversation, items, ids, now).Some?
    requires e.row.conversation != KeyOf(conversation).value
    ensures var after := SaveEffect(before, tenant, conversation, items, ids, now).value;
            e.id in after && after[e.id] == e.row <==> e.id in before && before[e.id] == e.row
  {
    var key := KeyOf(conversation).value;
    var spelled := Spelled(ValidMessages(items)).value;
    InsertedAt(spelled, key, ids, now, 0);
    WithEntriesHolds(Without(before, key), Inserted(spelled, key, ids, now, 0));
  }

  // ---- Which conversations share rows ----

  /** A literal that is closed by its last quote spells its value. */
  lemma {:induction false} ReadIsDoubled(t: string, v: string)
    requires ReadLiteral(t) == Closed(v, "")
    ensures t == Doubled(v) + "'"
    decreases |t|
  {
    if t[0] == '\'' && (|t| < 2 || t[1] != '\'') {
      assert t == "'" + t[1..];
    } else {
      var k := if t[0] == '\'' then 2 else 1;
      assert v == [t[0]] + v[1..];
      ReadIsDoubled(t[k..], v[1..]);
      assert t == (if k == 2 then "''" else [t[0]]) + t[k..];
    }
  }

  /** Two ids name the same conversation exactly when their quote-doubled forms agree up to the cap. */
  lemma KeysAgree(a: string, b: string)
    requires KeyOf(a).Some? && KeyOf(b).Some?
    ensures KeyOf(a) == KeyOf(b) <==> SqlLit(a, KEY_MAX) == SqlLit(b, KEY_MAX)
    ensures Fits(a, KEY_MAX) && Fits(b, KEY_MAX) ==> (KeyOf(a) == KeyOf(b) <==> a == b)
  {
    ReadIsDoubled(SqlLit(a, KEY_MAX) + "'", KeyOf(a).value);
    ReadIsDoubled(SqlLit(b, KEY_MAX) + "'", KeyOf(b).value);
    if KeyOf(a) == KeyOf(b) { SameLiteral(SqlLit(a, KEY_MAX), SqlLit(b, KEY_MAX)); }
    if Fits(a, KEY_MAX) && Fits(b, KEY_MAX) {
      ReadDoubled(a, "");
      ReadDoubled(b, "");
      assert SqlLit(a, KEY_MAX) + "'" + "" == SqlLit(a, KEY_MAX) + "'";
      assert SqlLit(b, KEY_MAX) + "'" + "" == SqlLit(b, KEY_MAX) + "'";
    }
  }

  lemma SameLiteral(s: string, t: string)
    requires s + "'" == t + "'"
    ensures s == t
  {
    assert (s + "'")[..|s|] == s && (t + "'")[..|t|] == t;
  }

  function RowsOf(table: map<string, Row>, conversation: string): map<string, Row> {
    map id | id in table && table[id].conversation == conversation :: table[id]
  }

  /** A save under newly drawn ids changes the rows of a conversation if and only if the statements
      name that conversation: which two ids do exactly when their doubled forms agree in the first
      128 characters. */
  lemma SaveReplacesSharedRows(before: map<string, Row>, tenant: string, conversation: string, other: string,
                               items: seq<Message>, ids: nat -> string, now: int)
    requires SaveEffect(before, tenant, conversation, items, ids, now).Some? && ids(0) !in before
    requires KeyOf(other).Some?
    ensures var after, key := SaveEffect(before, tenant, conversation, items, ids, now).value, KeyOf(other).value;
            RowsOf(after, key) == RowsOf(before, key) <==> SqlLit(other, 128) != SqlLit(conversation, 128)
  {
    var after, key := SaveEffect(before, tenant, conversation, items, ids, now).value, KeyOf(other).value;
    KeysAgree(other, conversation);
    if KeyOf(other) == KeyOf(conversation) {
      FirstIsInserted(before, tenant, conversation, items, ids, now);
      assert ids(0) in RowsOf(after, key) && ids(0) !in RowsOf(before, key);
    } else {
      forall id
        ensures id in RowsOf(after, key) <==> id in RowsOf(before, key)
        ensures id in RowsOf(after, key) ==> RowsOf(after, key)[id] == RowsOf(before, key)[id]
      {
        if id in RowsOf(after, key) {
          SaveKeepsOthers(before, tenant, conversation, items, ids, now, Entry(id, after[id]));
        }
        if id in RowsOf(before, key) {
          SaveKeepsOthers(before, tenant, conversation, items, ids, now, Entry(id, before[id]));
        }
      }
      assert RowsOf(after, key) == RowsOf(before, key);
    }
  }

  lemma FirstIsInserted(before: map<string, Row>, tenant: string, conversation: string, items: seq<Message>,
                        ids: nat -> string, now: int)
    requires SaveEffect(before, tenant, conversation, items, ids, now).Some?
    ensures var after := SaveEffect(before, tenant, conversation, items, ids, now).value;
            ids(0) in after && after[ids(0)].conversation == KeyOf(conversation).value
  {
    var key := KeyOf(conversation).value;
    var spelled := Spelled(ValidMessages(items)).value;
    var entries := Inserted(spelled, key, ids, now, 0);
    SpelledAt(ValidMessages(items));
    InsertedAt(spelled, key, ids, now, 0);
    WithEntriesHolds(Without(before, key), entries);
    assert entries[0] in entries;
  }
}
