/** One turn of a chat (services/api-gateway/core/chat_history.py and chat_history_persist.py): what is
    saved of it, and the ordinal it is announced under before that. */
module ChatTurns {

  import opened ChatHistory
  import opened MarkdownEscapes
  import opened Sequences
  import opened Texts
  import opened Wrappers

  function Users(items: seq<Item>): nat {
    if items == [] then 0 else (if items[0].role == USER then 1 else 0) + Users(items[1..])
  }

  function Projected(prior: seq<Item>): seq<Item> { prior + [Item(USER, "_", None), Item(ASSISTANT, "_", None)] }

  /** `compute_turn_user_index` */
  function TurnUserIndex(prior: seq<Item>, cap: int): nat { Max(1, Users(Capped(Projected(prior), cap))) }

  function UserItem(message: string, received: string, maxLen: int): Option<Item> {
    NormalizeItem(Dict(USER, Some(Strip(message)), Some(received)), maxLen)
  }

  function ReplyItem(reply: string, maxLen: int): Option<Item> {
    NormalizeItem(Dict(ASSISTANT, Some(reply), None), maxLen)
  }

  /** The history one turn leaves behind (`persist_chat_history` and the list `redis_save_chat_history`
      writes), or nothing when a side of the turn is blank. */
  method PersistTurn(prior: seq<Item>, message: string, received: string, reply: string, now: string, maxLen: int,
                     cap: int)
    returns (saved: Option<seq<Item>>)
    ensures saved == SavedTurn(prior, message, received, reply, now, maxLen, cap)
  {
    if Strip(reply) == "" { return None; }
    var user := UserItem(message, received, maxLen);
    var assistant := ReplyItem(reply, maxLen);
    if user.None? || assistant.None? { return None; }
    var norm := NormalizeHistoryList(RawOf(prior + [user.value, assistant.value]), maxLen, cap);
    norm := StampNewHistoryItems(norm, now);
    return Some(norm);
  }

  function SavedItems(prior: seq<Item>, user: Item, assistant: Item, now: string, maxLen: int, cap: int): seq<Item> {
    Stamp(Capped(NormalizeAll(RawOf(prior + [user, assistant]), maxLen), cap), now)
  }

  function SavedTurn(prior: seq<Item>, message: string, received: string, reply: string, now: string, maxLen: int,
                     cap: int)
    : Option<seq<Item>>
  {
    var user := UserItem(message, received, maxLen);
    var assistant := ReplyItem(reply, maxLen);
    if Strip(reply) == "" || user.None? || assistant.None? then None
    else Some(SavedItems(prior, user.value, assistant.value, now, maxLen, cap))
  }

  lemma {:induction false} UsersByRole(a: seq<Item>, b: seq<Item>)
    requires Roles(a) == Roles(b)
    ensures Users(a) == Users(b)
  {
    assert |Roles(a)| == |a| && |Roles(b)| == |b|;
    if a != [] {
      assert Roles(a)[0] == a[0].role && Roles(b)[0] == b[0].role;
      assert Roles(a)[1..] == Roles(a[1..]) && Roles(b)[1..] == Roles(b[1..]);
      UsersByRole(a[1..], b[1..]);
    }
  }

  lemma {:induction false} UsersAppend(a: seq<Item>, b: seq<Item>)
    ensures Users(a + b) == Users(a) + Users(b)
  {
    if a == [] {
      assert a + b == b;
    } else {
      assert (a + b)[1..] == a[1..] + b;
      UsersAppend(a[1..], b);
    }
  }

  lemma CappedRoles(a: seq<Item>, b: seq<Item>, cap: int)
    requires Roles(a) == Roles(b)
    ensures Roles(Capped(a, cap)) == Roles(Capped(b, cap))
  {
    assert |Roles(a)| == |a| && |Roles(b)| == |b|;
    assert forall k :: 0 <= k < |a| ==> Roles(a)[k] == a[k].role;
    assert forall k :: 0 <= k < |b| ==> Roles(b)[k] == b[k].role;
  }

  /** The user message of a turn is still there after the cap. */
  predicate TurnSurvives(prior: seq<Item>, cap: int) { cap != 1 && -cap <= |prior| }

  predicate IndexMatches(prior: seq<Item>, saved: seq<Item>, cap: int) {
    if TurnSurvives(prior, cap) then
      && |saved| >= 2 && saved[|saved| - 2].role == USER && saved[|saved| - 1].role == ASSISTANT
      && TurnUserIndex(prior, cap) == Users(saved[..|saved| - 1]) == Users(saved)
    else
      Users(saved) == 0 && TurnUserIndex(prior, cap) == 1
  }

  lemma NormalRole(role: string, content: string, ts: Option<string>, maxLen: int)
    requires role == USER || role == ASSISTANT
    ensures var item := NormalizeItem(Dict(role, Some(content), ts), maxLen);
            item.Some? ==> Normal(item.value) && item.value.role == role
  {
    NormalizeIsNormal(Dict(role, Some(content), ts), maxLen);
    RoleIsKept(role);
  }

  lemma NormalTurn(message: string, received: string, reply: string, maxLen: int)
    ensures var user := UserItem(message, received, maxLen);
            user.Some? ==> Normal(user.value) && user.value.role == USER
    ensures var assistant := ReplyItem(reply, maxLen);
            assistant.Some? ==> Normal(assistant.value) && assistant.value.role == ASSISTANT
  {
    NormalRole(USER, Strip(message), Some(received), maxLen);
    NormalRole(ASSISTANT, reply, None, maxLen);
  }

  lemma AgainHasTheRoles(items: seq<Item>, projected: seq<Item>, now: string, maxLen: int, cap: int)
    requires AllNormal(items) && Roles(items) == Roles(projected)
    ensures Roles(Stamp(Capped(NormalizeAll(RawOf(items), maxLen), cap), now)) == Roles(Capped(projected, cap))
  {
    NormalListStays(items, maxLen);
    var again := NormalizeAll(RawOf(items), maxLen);
    RolesStay(items, again, maxLen);
    CappedRoles(again, projected, cap);
    StampKeepsRoles(Capped(again, cap), now);
  }

  lemma TurnRoles(prior: seq<Item>, user: Item, assistant: Item, now: string, maxLen: int, cap: int)
    requires AllNormal(prior) && Normal(user) && Normal(assistant) && user.role == USER && assistant.role == ASSISTANT
    ensures Roles(SavedItems(prior, user, assistant, now, maxLen, cap)) == Roles(Capped(Projected(prior), cap))
  {
    var items := prior + [user, assistant];
    assert Roles(items) == Roles(Projected(prior));
    AgainHasTheRoles(items, Projected(prior), now, maxLen, cap);
  }

  lemma RolesStay(items: seq<Item>, again: seq<Item>, maxLen: int)
    requires AllNormal(items) && |again| == |items|
    requires forall k :: 0 <= k < |items| ==> NormalizeItem(AsRaw(items[k]), maxLen) == Some(again[k])
    ensures Roles(again) == Roles(items)
  {
    forall k | 0 <= k < |items| ensures again[k].role == items[k].role {
      NormalStays(items[k], maxLen);
    }
  }

  lemma StampKeepsRoles(items: seq<Item>, now: string)
    ensures Roles(Stamp(items, now)) == Roles(items)
  {}

  function AtLeastOne(n: nat): nat { if n == 0 then 1 else n }

  /** The announced index counts the user messages among the last ones that the cap will keep of the
      history with the turn. */
  lemma IndexIsUsersOfTheLast(prior: seq<Item>, user: Item, assistant: Item, cap: int)
    requires user.role == USER && assistant.role == ASSISTANT
    ensures var items, n := prior + [user, assistant], KeptCount(|prior| + 2, cap);
            TurnUserIndex(prior, cap) == AtLeastOne(Users(items[|items| - n..]))
  {
    var items := prior + [user, assistant];
    CapKeeps(items, cap);
    assert Roles(items) == Roles(Projected(prior));
    CappedRoles(items, Projected(prior), cap);
    UsersByRole(Capped(items, cap), Capped(Projected(prior), cap));
  }

  lemma SavedCount(prior: seq<Item>, user: Item, assistant: Item, now: string, maxLen: int, cap: int)
    requires AllNormal(prior) && Normal(user) && Normal(assistant)
    ensures |SavedItems(prior, user, assistant, now, maxLen, cap)| == KeptCount(|prior| + 2, cap)
  {
    var items := prior + [user, assistant];
    NormalListStays(items, maxLen);
    CapKeeps(NormalizeAll(RawOf(items), maxLen), cap);
  }

  lemma StampKeepsText(items: seq<Item>, now: string, k: nat)
    requires k < |items|
    ensures Stamp(items, now)[k].role == items[k].role && Stamp(items, now)[k].content == items[k].content
  {}

  lemma CappedAt(kept: seq<Item>, cap: int, k: nat)
    requires k < |Capped(kept, cap)|
    ensures |Capped(kept, cap)| <= |kept| && Capped(kept, cap)[k] == kept[|kept| - |Capped(kept, cap)| + k]
  {}

  /** Role and text of what the cap and the stamps make of a list. */
  lemma StampedCapAt(again: seq<Item>, cap: int, now: string, k: nat)
    requires k < |Stamp(Capped(again, cap), now)|
    ensures var saved := Stamp(Capped(again, cap), now);
            |saved| <= |again| &&
            var item := again[|again| - |saved| + k];
            saved[k].role == item.role && saved[k].content == item.content
  {
    StampKeepsText(Capped(again, cap), now, k);
    CappedAt(again, cap, k);
  }

  /** What is saved is the history with the turn, each message as it normalizes again, without those
      that the cap leaves out in front. */
  lemma SavedContents(prior: seq<Item>, user: Item, assistant: Item, now: string, maxLen: int, cap: int, k: nat)
    requires AllNormal(prior) && Normal(user) && Normal(assistant)
    requires k < |SavedItems(prior, user, assistant, now, maxLen, cap)|
    ensures var items, saved := prior + [user, assistant], SavedItems(prior, user, assistant, now, maxLen, cap);
            |saved| <= |items| &&
            exists again :: NormalizeItem(AsRaw(items[|items| - |saved| + k]), maxLen) == Some(again)
                            && saved[k].role == again.role && saved[k].content == again.content
  {
    var items := prior + [user, assistant];
    var again := NormalizeAll(RawOf(items), maxLen);
    var saved := SavedItems(prior, user, assistant, now, maxLen, cap);
    NormalListStays(items, maxLen);
    StampedCapAt(again, cap, now, k);
    var j := |items| - |saved| + k;
    assert NormalizeItem(AsRaw(items[j]), maxLen) == Some(again[j]);
  }

  lemma SideUnlessBlank(role: string, content: string, ts: Option<string>, maxLen: int)
    requires role == USER || role == ASSISTANT
    ensures NormalizeItem(Dict(role, Some(content), ts), maxLen).None? <==> Strip(content) == ""
  {
    RoleIsKept(role);
  }

  lemma StripTwice(s: string)
    ensures Strip(Strip(s)) == "" <==> Strip(s) == ""
  {
    if Strip(s) != "" {
      StripIsTrim(s);
      TrimStays(Strip(s));
    }
  }

  /** A turn is saved unless one of its sides is blank. */
  lemma SavedUnlessBlank(prior: seq<Item>, message: string, received: string, reply: string, now: string,
                         maxLen: int, cap: int)
    ensures SavedTurn(prior, message, received, reply, now, maxLen, cap).None? <==>
            Strip(message) == "" || Strip(reply) == ""
  {
    SideUnlessBlank(USER, Strip(message), Some(received), maxLen);
    SideUnlessBlank(ASSISTANT, reply, None, maxLen);
    StripTwice(message);
  }

  /** The index announced before the turn is the ordinal of the turn's user message among the user
      messages of the list that is saved after it, for every history, and for every cap under
      which that message is saved at all; otherwise it names no saved message. */
  lemma TurnIndexMatches(prior: seq<Item>, user: Item, assistant: Item, now: string, maxLen: int, cap: int)
    requires AllNormal(prior) && Normal(user) && Normal(assistant) && user.role == USER && assistant.role == ASSISTANT
    ensures IndexMatches(prior, SavedItems(prior, user, assistant, now, maxLen, cap), cap)
    ensures var items, n := prior + [user, assistant], KeptCount(|prior| + 2, cap);
            && |SavedItems(prior, user, assistant, now, maxLen, cap)| == n
            && TurnUserIndex(prior, cap) == AtLeastOne(Users(items[|items| - n..]))
  {
    IndexIsUsersOfTheLast(prior, user, assistant, cap);
    SavedCount(prior, user, assistant, now, maxLen, cap);
    TurnRoles(prior, user, assistant, now, maxLen, cap);
    RolesDecide(prior, SavedItems(prior, user, assistant, now, maxLen, cap), cap);
  }

  lemma SameRoleAt(saved: seq<Item>, projected: seq<Item>, k: nat)
    requires Roles(saved) == Roles(projected) && k < |saved|
    ensures |saved| == |projected| && saved[k].role == projected[k].role
  {
    assert |Roles(saved)| == |saved| && |Roles(projected)| == |projected|;
    assert Roles(saved)[k] == saved[k].role && Roles(projected)[k] == projected[k].role;
  }

  lemma SurvivingTurn(prior: seq<Item>, saved: seq<Item>, cap: int)
    requires Roles(saved) == Roles(Capped(Projected(prior), cap)) && TurnSurvives(prior, cap)
    ensures |saved| >= 2 && saved[|saved| - 2].role == USER && saved[|saved| - 1].role == ASSISTANT
  {
    var projected := Capped(Projected(prior), cap);
    ProjectedEnd(prior, cap);
    assert |Roles(saved)| == |saved| && |Roles(projected)| == |projected|;
    SameRoleAt(saved, projected, |saved| - 2);
    SameRoleAt(saved, projected, |saved| - 1);
  }

  /** The roles of the projected list are all that the index depends on. */
  lemma RolesDecide(prior: seq<Item>, saved: seq<Item>, cap: int)
    requires Roles(saved) == Roles(Capped(Projected(prior), cap))
    ensures IndexMatches(prior, saved, cap)
  {
    UsersByRole(saved, Capped(Projected(prior), cap));
    ProjectedEnd(prior, cap);
    if TurnSurvives(prior, cap) {
      SurvivingTurn(prior, saved, cap);
      UsersOfTurn(saved);
    }
  }

  lemma UsersSnoc(front: seq<Item>, item: Item)
    ensures Users(front + [item]) == Users(front) + if item.role == USER then 1 else 0
  {
    UsersAppend(front, [item]);
    assert [item][1..] == [];
  }

  lemma UsersOfTurn(items: seq<Item>)
    requires |items| >= 2 && items[|items| - 2].role == USER && items[|items| - 1].role == ASSISTANT
    ensures Users(items[..|items| - 1]) == Users(items) >= 1
  {
    var n := |items|;
    var front, user, assistant := items[..n - 2], items[n - 2], items[n - 1];
    assert items[..n - 1] == front + [user];
    assert items == (front + [user]) + [assistant];
    UsersSnoc(front, user);
    UsersSnoc(front + [user], assistant);
  }

  lemma ProjectedEnd(prior: seq<Item>, cap: int)
    ensures var u, a := Item(USER, "_", None), Item(ASSISTANT, "_", None);
            var projected := Capped(Projected(prior), cap);
            if TurnSurvives(prior, cap) then
              |projected| >= 2 && projected[|projected| - 2] == u && projected[|projected| - 1] == a
            else Users(projected) == 0
  {}

  /** The last but one message is `user`, with its stamp if it has one. */
  predicate EndsWithTurn(saved: seq<Item>, user: Item) {
    |saved| >= 2 && saved[|saved| - 2].content == user.content
    && (user.ts.Some? ==> saved[|saved| - 2].ts == user.ts)
  }

  lemma CapKeepsTurn(again: seq<Item>, prior: seq<Item>, user: Item, now: string, cap: int)
    requires |again| == |prior| + 2 && again[|prior|] == user && TurnSurvives(prior, cap)
    ensures EndsWithTurn(Stamp(Capped(again, cap), now), user)
  {}

  lemma NormalItemStays(items: seq<Item>, k: nat, user: Item, maxLen: int)
    requires AllNormal(items) && k < |items| && items[k] == user && NormalizeItem(AsRaw(user), maxLen) == Some(user)
    ensures |NormalizeAll(RawOf(items), maxLen)| == |items| && NormalizeAll(RawOf(items), maxLen)[k] == user
  {
    NormalListStays(items, maxLen);
  }

  lemma ItemsOfTurn(prior: seq<Item>, user: Item, assistant: Item)
    requires AllNormal(prior) && Normal(user) && Normal(assistant)
    ensures var items := prior + [user, assistant]; AllNormal(items) && items[|prior|] == user
  {}

  /** And it is this turn's message: its text and time of arrival as normalized. */
  lemma TurnIsSaved(prior: seq<Item>, user: Item, assistant: Item, now: string, maxLen: int, cap: int)
    requires AllNormal(prior) && Normal(user) && Normal(assistant) && TurnSurvives(prior, cap)
    requires user.role == USER && Cut(user.content, maxLen) == user.content
    ensures EndsWithTurn(SavedItems(prior, user, assistant, now, maxLen, cap), user)
  {
    var items := prior + [user, assistant];
    ItemsOfTurn(prior, user, assistant);
    NormalStays(user, maxLen);
    NormalItemStays(items, |prior|, user, maxLen);
    CapKeepsTurn(NormalizeAll(RawOf(items), maxLen), prior, user, now, cap);
  }

  /** Both, for the messages as they come in. */
  lemma TurnEndToEnd(prior: seq<Item>, message: string, received: string, reply: string, now: string,
                     maxLen: nat, cap: int)
    requires AllNormal(prior)
    ensures var saved := SavedTurn(prior, message, received, reply, now, maxLen, cap);
            saved.Some? ==>
              && IndexMatches(prior, saved.value, cap)
              && (TurnSurvives(prior, cap) ==> EndsWithTurn(saved.value, UserItem(message, received, maxLen).value))
  {
    if SavedTurn(prior, message, received, reply, now, maxLen, cap).Some? {
      var user, assistant := UserItem(message, received, maxLen).value, ReplyItem(reply, maxLen).value;
      NormalTurn(message, received, reply, maxLen);
      UserIsCut(message, received, maxLen);
      TurnIndexMatches(prior, user, assistant, now, maxLen, cap);
      if TurnSurvives(prior, cap) { TurnIsSaved(prior, user, assistant, now, maxLen, cap); }
    }
  }

  /** The sides of a turn that is saved. */
  lemma SidesOfTurn(prior: seq<Item>, message: string, received: string, reply: string, now: string,
                    maxLen: int, cap: int)
    requires SavedTurn(prior, message, received, reply, now, maxLen, cap).Some?
    ensures UserItem(message, received, maxLen).Some? && ReplyItem(reply, maxLen).Some?
    ensures SavedTurn(prior, message, received, reply, now, maxLen, cap).value
         == SavedItems(prior, UserItem(message, received, maxLen).value, ReplyItem(reply, maxLen).value,
                       now, maxLen, cap)
    ensures ReplyItem(reply, maxLen).value.ts.None?
  {}

  lemma TurnLast(prior: seq<Item>, user: Item, assistant: Item, now: string, maxLen: nat, cap: int)
    requires AllNormal(prior) && Normal(user) && Normal(assistant) && assistant.role == ASSISTANT && assistant.ts.None?
    requires SavedItems(prior, user, assistant, now, maxLen, cap) != []
    ensures var saved := SavedItems(prior, user, assistant, now, maxLen, cap);
            saved[|saved| - 1] == Item(ASSISTANT, Cut(Layers(assistant.content, MAX_LAYERS), maxLen), Some(now))
  {
    var items := prior + [user, assistant];
    ItemsOfTurn(prior, user, assistant);
    assert items[|items| - 1] == assistant;
    LastIsReply(items, now, maxLen, cap);
  }

  /** The reply is saved behind it, with the time of the save, its escapes taken off once more. */
  lemma ReplyIsSaved(prior: seq<Item>, message: string, received: string, reply: string, now: string,
                     maxLen: nat, cap: int)
    requires AllNormal(prior) && SavedTurn(prior, message, received, reply, now, maxLen, cap).Some?
    requires SavedTurn(prior, message, received, reply, now, maxLen, cap).value != []
    ensures ReplyItem(reply, maxLen).Some?
    ensures var saved := SavedTurn(prior, message, received, reply, now, maxLen, cap).value;
            saved[|saved| - 1]
            == Item("assistant", Cut(Layers(ReplyItem(reply, maxLen).value.content, 4), maxLen), Some(now))
  {
    NormalTurn(message, received, reply, maxLen);
    SidesOfTurn(prior, message, received, reply, now, maxLen, cap);
    TurnLast(prior, UserItem(message, received, maxLen).value, ReplyItem(reply, maxLen).value, now, maxLen, cap);
  }

  lemma LastIsReply(items: seq<Item>, now: string, maxLen: nat, cap: int)
    requires AllNormal(items) && items != []
    requires items[|items| - 1].role == ASSISTANT && items[|items| - 1].ts.None?
    requires Capped(NormalizeAll(RawOf(items), maxLen), cap) != []
    ensures var saved := Stamp(Capped(NormalizeAll(RawOf(items), maxLen), cap), now);
            saved != [] && saved[|saved| - 1]
                           == Item(ASSISTANT, Cut(Layers(items[|items| - 1].content, MAX_LAYERS), maxLen), Some(now))
  {
    AgainLast(items, maxLen);
    StampedCapLast(NormalizeAll(RawOf(items), maxLen), cap, now);
  }

  lemma AgainLast(items: seq<Item>, maxLen: nat)
    requires AllNormal(items) && items != [] && items[|items| - 1].role == ASSISTANT
    ensures var again, last := NormalizeAll(RawOf(items), maxLen), items[|items| - 1];
            && |again| == |items|
            && again[|items| - 1] == Item(ASSISTANT, Cut(Layers(last.content, MAX_LAYERS), maxLen), last.ts)
  {
    NormalListStays(items, maxLen);
    NormalStays(items[|items| - 1], maxLen);
  }

  lemma StampedCapLast(again: seq<Item>, cap: int, now: string)
    requires Capped(again, cap) != [] && again[|again| - 1].ts.None?
    ensures var saved := Stamp(Capped(again, cap), now);
            saved != [] && saved[|saved| - 1] == again[|again| - 1].(ts := Some(now))
  {
    CappedAt(again, cap, |Capped(again, cap)| - 1);
    StampedLast(Capped(again, cap), now);
  }

  lemma StampedLast(items: seq<Item>, now: string)
    requires items != [] && items[|items| - 1].ts.None?
    ensures Stamp(items, now) != []
    ensures Stamp(items, now)[|items| - 1] == items[|items| - 1].(ts := Some(now))
  {}

  lemma UserIsCut(message: string, received: string, maxLen: nat)
    requires UserItem(message, received, maxLen).Some?
    ensures var user := UserItem(message, received, maxLen).value; Cut(user.content, maxLen) == user.content
  {}
}
