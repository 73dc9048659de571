/** What the gateway stores of a chat (services/api-gateway/core/chat_history.py): normalization,
    the cap on messages, and stamps. */
module ChatHistory {

  import opened MarkdownEscapes
  import opened Sequences
  import opened Texts
  import opened Wrappers

  /** A stored message; `ts` is absent when the key is. */
  datatype Item = Item(role: string, content: string, ts: Option<string>)

  /** What a client may send in place of a message. */
  datatype Raw = NotADict | Dict(role: string, content: Option<string>, ts: Option<string>)

  const USER := "user"
  const ASSISTANT := "assistant"

  // ---- One message ----

  function LowerChar(c: char): char { if 'A' <= c <= 'Z' then (c as int + 32) as char else c }

  /** str.lower where it can make one of the role names. */
  function Lower(s: string): string { if s == "" then "" else [LowerChar(s[0])] + Lower(s[1..]) }

  lemma {:induction false} LowerAt(s: string, k: nat)
    ensures |Lower(s)| == |s|
    ensures k < |s| ==> Lower(s)[k] == if 'A' <= s[k] <= 'Z' then s[k] + ('a' - 'A') else s[k]
  {
    if s != "" { LowerAt(s[1..], if k > 0 then k - 1 else 0); }
  }

  /** s[:n] */
  function Take(s: string, n: int): string {
    if n >= 0 then s[..Min(n, |s|)] else s[..Max(0, |s| + n)]
  }

  function Cut(text: string, maxLen: int): string {
    if |text| > maxLen then Take(text, maxLen) + ELLIPSIS else text
  }

  function RoleOf(role: string): string {
    var r := Lower(Strip(role));
    if r == "human" then USER else r
  }

  /** `normalize_history_item` */
  function NormalizeItem(h: Raw, maxLen: int): Option<Item> {
    if h.NotADict? || h.content.None? || Strip(h.content.value) == "" || RoleOf(h.role) !in [USER, ASSISTANT] then None
    else
      var role := RoleOf(h.role);
      var text := Strip(h.content.value);
      var plain := if role == ASSISTANT then Layers(text, MAX_LAYERS) else text;
      var ts := if h.ts.Some? && Strip(h.ts.value) != "" then Some(Strip(h.ts.value)) else None;
      Some(Item(role, Cut(plain, maxLen), ts))
  }

  function AsRaw(item: Item): Raw { Dict(item.role, Some(item.content), item.ts) }

  /** Not blank, and nothing for strip to take away. */
  predicate Trim(s: string) { s != "" && !IsSpace(s[0]) && !IsSpace(s[|s| - 1]) }

  lemma StripIsTrim(s: string)
    ensures Strip(s) != "" ==> Trim(Strip(s))
  {
    LStripFirst(s);
    RStripFirst(LStrip(s));
    StripEnds(s);
  }

  lemma {:induction false} LStripFirst(s: string)
    ensures LStrip(s) != "" ==> !IsSpace(LStrip(s)[0])
  {
    if s != "" && IsSpace(s[0]) { LStripFirst(s[1..]); }
  }

  lemma {:induction false} RStripFirst(s: string)
    ensures RStrip(s) != "" ==> RStrip(s)[0] == s[0]
  {
    if s != "" && IsSpace(s[|s| - 1]) { RStripFirst(s[..|s| - 1]); }
  }

  lemma SpecialIsInk(c: char)
    requires Special(c)
    ensures !IsSpace(c)
  {}

  lemma {:induction false} UnescapeKeepsLast(t: string)
    requires t != ""
    ensures var u := UnescapeOnce(t); u != "" && u[|u| - 1] == t[|t| - 1]
  {
    if PairAt(t) {
      if |t| > 2 { UnescapeKeepsLast(t[2..]); }
    } else if |t| > 1 {
      UnescapeKeepsLast(t[1..]);
    }
  }

  lemma UnescapedIsTrim(t: string)
    requires Trim(t)
    ensures Trim(UnescapeOnce(t))
  {
    UnescapeKeepsLast(t);
    if PairAt(t) { SpecialIsInk(t[1]); }
  }

  lemma {:induction false} LayersKeepTrim(t: string, n: nat)
    requires Trim(t)
    ensures Trim(Layers(t, n))
    decreases n
  {
    if n > 0 {
      var u := UnescapeOnce(t);
      UnescapedIsTrim(t);
      LayersKeepTrim(u, n - 1);
    }
  }

  lemma CutKeepsTrim(t: string, maxLen: int)
    requires Trim(t)
    ensures Trim(Cut(t, maxLen))
  {}

  /** A normalized message: a known role, content with nothing to strip, no blank stamp. */
  predicate Normal(item: Item) {
    item.role in [USER, ASSISTANT] && Trim(item.content) && (item.ts.Some? ==> Trim(item.ts.value))
  }

  lemma NormalizeIsNormal(h: Raw, maxLen: int)
    ensures NormalizeItem(h, maxLen).Some? ==> Normal(NormalizeItem(h, maxLen).value)
  {
    if NormalizeItem(h, maxLen).Some? {
      var text := Strip(h.content.value);
      StripIsTrim(h.content.value);
      LayersKeepTrim(text, MAX_LAYERS);
      CutKeepsTrim(text, maxLen);
      CutKeepsTrim(Layers(text, MAX_LAYERS), maxLen);
      if h.ts.Some? { StripIsTrim(h.ts.value); }
    }
  }

  lemma TrimStays(s: string)
    requires Trim(s)
    ensures Strip(s) == s
  {}

  lemma {:induction false} LowerIsId(s: string)
    requires forall k :: 0 <= k < |s| ==> !('A' <= s[k] <= 'Z')
    ensures Lower(s) == s
  {
    if s != "" { LowerIsId(s[1..]); }
  }

  lemma PlainRole(role: string)
    requires forall k :: 0 <= k < |role| ==> 'a' <= role[k] <= 'z'
    requires role != "" && role != "human"
    ensures RoleOf(role) == role && Lower(Strip(role)) == role
  {
    LetterIsInk(role[0]);
    LetterIsInk(role[|role| - 1]);
    TrimStays(role);
    LowerIsId(role);
  }

  lemma LetterIsInk(c: char)
    requires 'a' <= c <= 'z'
    ensures !IsSpace(c)
  {}

  lemma RoleIsKept(role: string)
    requires role == USER || role == ASSISTANT
    ensures RoleOf(role) == role && Lower(Strip(role)) == role
  {
    PlainRole(role);
  }

  /** Normalizing a normalized message again keeps it a message of the same role. */
  lemma NormalStays(item: Item, maxLen: int)
    requires Normal(item)
    ensures NormalizeItem(AsRaw(item), maxLen).Some?
    ensures NormalizeItem(AsRaw(item), maxLen).value.role == item.role
    ensures NormalizeItem(AsRaw(item), maxLen).value.ts == item.ts
    ensures var plain := if item.role == ASSISTANT then Layers(item.content, MAX_LAYERS) else item.content;
            NormalizeItem(AsRaw(item), maxLen).value.content == Cut(plain, maxLen)
  {
    RoleIsKept(item.role);
    TrimStays(item.content);
    if item.ts.Some? { TrimStays(item.ts.value); }
  }

  /** Which messages are kept, and as what: the role after stripping and lower-casing, "human" being
      the user's; the text stripped, the assistant's without up to four layers of escapes, and when it
      is then too long its first characters and an ellipsis; the stamp stripped, none when blank. */
  lemma NormalizedIs(h: Raw, maxLen: nat)
    ensures var n := NormalizeItem(h, maxLen);
            && (n.Some? <==>
                  h.Dict? && h.content.Some? && Strip(h.content.value) != ""
                  && Lower(Strip(h.role)) in ["user", "human", "assistant"])
            && (n.Some? ==>
                  && n.value.role == (if Lower(Strip(h.role)) == "assistant" then "assistant" else "user")
                  && n.value.ts == (if h.ts.Some? && Strip(h.ts.value) != "" then Some(Strip(h.ts.value)) else None)
                  && var text := if n.value.role == "assistant" then Layers(Strip(h.content.value), 4)
                                 else Strip(h.content.value);
                     n.value.content == if |text| <= maxLen then text else text[..maxLen] + "\U{2026}")
  {}

  /** Normalization is idempotent on what a user wrote; on what the assistant wrote exactly when
      the layers taken off left no escape behind. */
  lemma NormalizeTwice(h: Raw, maxLen: int)
    requires maxLen >= 0 && NormalizeItem(h, maxLen).Some?
    ensures var item := NormalizeItem(h, maxLen).value;
            NormalizeItem(AsRaw(item), maxLen) == Some(item) <==> item.role == USER || Clean(item.content)
  {
    var item := NormalizeItem(h, maxLen).value;
    NormalizeIsNormal(h, maxLen);
    NormalStays(item, maxLen);
    LayersShrink(item.content, MAX_LAYERS);
    var text := Strip(h.content.value);
    CutTwice(if item.role == ASSISTANT then Layers(text, MAX_LAYERS) else text, maxLen);
  }

  /** The condition read off the input: four layers halve a run four times.  An assistant text that
      is not cut is stable exactly when no run of 16 or more backslashes precedes a reserved
      character and no other run is longer than 16, and one that is cut exactly when this holds
      of the runs up to the cut. */
  lemma NormalizeTwiceByInput(content: string, ts: Option<string>, maxLen: nat)
    requires Strip(content) != ""
    ensures var text := Strip(content);
            var item := NormalizeItem(Dict(ASSISTANT, Some(content), ts), maxLen);
            var stable := item.Some? && NormalizeItem(AsRaw(item.value), maxLen) == item;
            stable <==> if |Layers(text, MAX_LAYERS)| <= maxLen then Within(text, 16) else WithinCut(text, 4, maxLen)
  {
    var text := Strip(content);
    var plain := Layers(text, MAX_LAYERS);
    RoleIsKept(ASSISTANT);
    NormalizeTwice(Dict(ASSISTANT, Some(content), ts), maxLen);
    assert Doubling(4) == 16;
    if |plain| <= maxLen {
      LayersLeaveClean(text, MAX_LAYERS);
    } else {
      CutIsClean(plain, maxLen);
      LayersWithinCut(text, MAX_LAYERS, maxLen);
    }
  }

  lemma CutTwice(t: string, maxLen: nat)
    ensures Cut(Cut(t, maxLen), maxLen) == Cut(t, maxLen)
    ensures |Cut(t, maxLen)| <= maxLen + 1
  {}

  lemma {:induction false} HalfTheBackslashes(n: nat)
    ensures UnescapeOnce(Backslashes(2 * n)) == Backslashes(n)
  {
    if n > 0 {
      var t := Backslashes(2 * n);
      assert t[1..] == Backslashes(2 * n - 1) && t[2..] == Backslashes(2 * (n - 1));
      HalfTheBackslashes(n - 1);
    }
  }

  lemma OneHalving(n: nat, k: nat)
    requires n > 0 && k > 0
    ensures Layers(Backslashes(2 * n), k) == Layers(Backslashes(n), k - 1)
  {
    HalfTheBackslashes(n);
    BackslashesLength(n);
    BackslashesLength(2 * n);
    LayersStep(Backslashes(2 * n), Backslashes(n), k);
  }

  lemma HalvedFourTimes()
    ensures Layers(Backslashes(32), 4) == Backslashes(2)
  {
    OneHalving(16, 4);
    OneHalving(8, 3);
    OneHalving(4, 2);
    OneHalving(2, 1);
  }

  lemma AssistantText(t: string, maxLen: nat)
    requires Trim(t) && |Layers(t, MAX_LAYERS)| <= maxLen
    ensures NormalizeItem(Dict(ASSISTANT, Some(t), None), maxLen) == Some(Item(ASSISTANT, Layers(t, MAX_LAYERS), None))
  {
    TrimStays(t);
    RoleIsKept(ASSISTANT);
  }

  /** The condition of NormalizeTwice fails: 32 backslashes normalize to two, and these to fewer. */
  lemma FourLayersAreNotAll(maxLen: nat)
    requires maxLen >= 2
    ensures var two := Item(ASSISTANT, Backslashes(2), None);
            && NormalizeItem(Dict(ASSISTANT, Some(Backslashes(32)), None), maxLen) == Some(two)
            && NormalizeItem(AsRaw(two), maxLen) != Some(two)
  {
    BackslashesLength(32);
    BackslashesLength(2);
    HalvedFourTimes();
    AssistantText(Backslashes(32), maxLen);
    NormalizeTwice(Dict(ASSISTANT, Some(Backslashes(32)), None), maxLen);
    assert PairAt(Backslashes(2));
  }

  // ---- The list ----

  /** out[-cap:] when the list is longer than the cap, for any integer cap. */
  function Capped(s: seq<Item>, cap: int): seq<Item> {
    if |s| <= cap then s else if cap > 0 then s[|s| - cap..] else s[Min(-cap, |s|)..]
  }

  function NormalizeAll(raw: seq<Raw>, maxLen: int): seq<Item> {
    if raw == [] then []
    else
      var n := NormalizeItem(raw[0], maxLen);
      (if n.Some? then [n.value] else []) + NormalizeAll(raw[1..], maxLen)
  }

  lemma NormalizeStep(raw: seq<Raw>, i: nat, maxLen: int, out: seq<Item>)
    requires i < |raw|
    ensures var n := NormalizeItem(raw[i], maxLen);
            out + NormalizeAll(raw[i..], maxLen)
            == (if n.Some? then out + [n.value] else out) + NormalizeAll(raw[i + 1..], maxLen)
  {}

  /** `out` is what the cap leaves of `kept`: the last `cap` messages, or all when there are fewer; for
      a cap that is not positive Python's slice leaves out that many in front. */
  predicate KeptBy(kept: seq<Item>, cap: int, out: seq<Item>) {
    && |out| == KeptCount(|kept|, cap) && out == kept[|kept| - |out|..]
  }

  /** How many of `n` messages a cap keeps. */
  function KeptCount(n: nat, cap: int): (k: nat)
    ensures k <= n
  {
    if cap > 0 then (if n <= cap then n else cap) else if n + cap >= 0 then n + cap else 0
  }

  lemma CapKeeps(kept: seq<Item>, cap: int)
    ensures KeptBy(kept, cap, Capped(kept, cap))
  {}

  /** Message by message: those that are kept, in order. */
  lemma {:induction false} NormalizeAppend(a: seq<Raw>, b: seq<Raw>, maxLen: int)
    ensures NormalizeAll(a + b, maxLen) == NormalizeAll(a, maxLen) + NormalizeAll(b, maxLen)
  {
    if a == [] {
      assert a + b == b;
    } else {
      var head := NormalizeAll([a[0]], maxLen);
      NormalizeCons(a, maxLen);
      NormalizeCons(a + b, maxLen);
      assert (a + b)[1..] == a[1..] + b;
      NormalizeAppend(a[1..], b, maxLen);
      Assoc(head, NormalizeAll(a[1..], maxLen), NormalizeAll(b, maxLen));
    }
  }

  lemma NormalizeCons(raw: seq<Raw>, maxLen: int)
    requires raw != []
    ensures NormalizeAll(raw, maxLen) == NormalizeAll([raw[0]], maxLen) + NormalizeAll(raw[1..], maxLen)
  {
    NormalizeOne(raw[0], maxLen);
  }

  lemma NormalizeOne(h: Raw, maxLen: int)
    ensures NormalizeAll([h], maxLen)
         == if NormalizeItem(h, maxLen).Some? then [NormalizeItem(h, maxLen).value] else []
  {
    assert [h][1..] == [];
  }

  /** The loop over the messages. */
  method NormalizeItems(raw: seq<Raw>, maxLen: int) returns (out: seq<Item>)
    ensures out == NormalizeAll(raw, maxLen)
  {
    out := [];
    var i := 0;
    assert raw[0..] == raw;
    while i < |raw|
      invariant 0 <= i <= |raw|
      invariant out + NormalizeAll(raw[i..], maxLen) == NormalizeAll(raw, maxLen)
    {
      NormalizeStep(raw, i, maxLen, out);
      var n := NormalizeItem(raw[i], maxLen);
      if n.Some? { out := out + [n.value]; }
      i := i + 1;
    }
  }

  /** `normalize_history_list` */
  method NormalizeHistoryList(raw: seq<Raw>, maxLen: int, cap: int) returns (out: seq<Item>)
    ensures out == Capped(NormalizeAll(raw, maxLen), cap)
    ensures KeptBy(NormalizeAll(raw, maxLen), cap, out)
  {
    out := NormalizeItems(raw, maxLen);
    CapKeeps(out, cap);
    if |out| > cap { out := if cap > 0 then out[|out| - cap..] else out[Min(-cap, |out|)..]; }
  }

  function Roles(items: seq<Item>): seq<string> { seq(|items|, k requires 0 <= k < |items| => items[k].role) }

  function RawOf(items: seq<Item>): seq<Raw> { seq(|items|, k requires 0 <= k < |items| => AsRaw(items[k])) }

  predicate AllNormal(items: seq<Item>) { forall k :: 0 <= k < |items| ==> Normal(items[k]) }

  /** Normalizing stored messages again drops none and changes no role. */
  lemma {:induction false} NormalListStays(items: seq<Item>, maxLen: int)
    requires AllNormal(items)
    ensures var again := NormalizeAll(RawOf(items), maxLen);
            |again| == |items| && forall k :: 0 <= k < |items| ==>
              NormalizeItem(AsRaw(items[k]), maxLen) == Some(again[k])
  {
    if items != [] {
      var raw := RawOf(items);
      assert raw[1..] == RawOf(items[1..]);
      NormalListStays(items[1..], maxLen);
      NormalStays(items[0], maxLen);
      assert forall k :: 1 <= k < |items| ==> items[k] == items[1..][k - 1];
    }
  }

  // ---- Stamps ----

  predicate Stamped(item: Item) { item.ts.Some? && item.ts.value != "" }

  /** The index of the last stamped message, or -1. */
  function LastStamped(items: seq<Item>): (last: int)
    ensures -1 <= last < |items|
    ensures last >= 0 ==> Stamped(items[last])
    ensures forall k :: last < k < |items| ==> !Stamped(items[k])
  {
    if items == [] then -1
    else if Stamped(items[|items| - 1]) then |items| - 1
    else LastStamped(items[..|items| - 1])
  }

  function StampFrom(items: seq<Item>): (start: nat)
    ensures start <= |items|
  {
    if LastStamped(items) >= 0 then LastStamped(items) + 1 else Max(0, |items| - 2)
  }

  /** item.setdefault("ts", now) */
  function SetDefault(item: Item, now: string): Item { if item.ts.Some? then item else item.(ts := Some(now)) }

  function Stamp(items: seq<Item>, now: string): seq<Item> {
    seq(|items|, k requires 0 <= k < |items| => if k >= StampFrom(items) then SetDefault(items[k], now) else items[k])
  }

  /** `stamp_new_history_items` */
  method StampNewHistoryItems(items: seq<Item>, now: string) returns (out: seq<Item>)
    ensures out == Stamp(items, now)
  {
    var last := -1;
    var i := 0;
    while i < |items|
      invariant 0 <= i <= |items| && -1 <= last < i
      invariant last >= 0 ==> Stamped(items[last])
      invariant forall k :: last < k < i ==> !Stamped(items[k])
    {
      if Stamped(items[i]) { last := i; }
      i := i + 1;
    }
    var start := if last >= 0 then last + 1 else Max(0, |items| - 2);
    out := items;
    i := start;
    while i < |items|
      invariant start <= i <= |items| == |out|
      invariant forall k :: 0 <= k < |items| ==>
                  out[k] == if start <= k < i then SetDefault(items[k], now) else items[k]
    {
      out := out[i := SetDefault(out[i], now)];
      i := i + 1;
    }
  }

  /** A stamp is given once: saving a history again, later, changes no stamp of it. */
  lemma StampTwice(items: seq<Item>, now: string, later: string)
    ensures Stamp(Stamp(items, now), later) == Stamp(items, now)
  {
    var once := Stamp(items, now);
    forall k | StampFrom(once) <= k < |once| ensures once[k].ts.Some? {
      assert k >= StampFrom(items) by {
        if LastStamped(items) >= 0 { assert Stamped(once[LastStamped(items)]); }
      }
    }
  }

  /** Only messages behind the last stamped one get the time of this save; text and roles stay. */
  lemma StampTouchesOnlyTheNew(items: seq<Item>, now: string, k: nat)
    requires k < |items|
    ensures var once := Stamp(items, now);
            && once[k].role == items[k].role && once[k].content == items[k].content
            && (once[k].ts != items[k].ts ==> once[k].ts == Some(now) && k > LastStamped(items))
            && (k < |items| - 2 && LastStamped(items) < 0 ==> once[k] == items[k])
  {}

  /** And the new messages do get it: those behind the last stamped one, or the last two when none is,
      unless they carry a stamp of their own, be it blank. */
  lemma StampReachesTheNew(items: seq<Item>, now: string, k: nat)
    requires k < |items| && forall j :: k <= j < |items| ==> !Stamped(items[j])
    requires k >= |items| - 2 || exists j :: 0 <= j < k && Stamped(items[j])
    ensures Stamp(items, now)[k].ts == if items[k].ts.None? then Some(now) else items[k].ts
  {}
}
