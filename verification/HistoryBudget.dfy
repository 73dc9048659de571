/** Trimming a chat history to its token budget (services/api-gateway/core/chat_history.py). */
module HistoryBudget {

  import opened ChatHistory
  import opened Sequences
  import opened Wrappers

  /** What the loop adds up: each message's own estimate, rounded down. */
  function Size(item: Item): nat { |item.content| / 4 }

  function Sizes(items: seq<Item>): nat { if items == [] then 0 else Size(items[0]) + Sizes(items[1..]) }

  function Chars(items: seq<Item>): nat { if items == [] then 0 else |items[0].content| + Chars(items[1..]) }

  /** `history_estimated_tokens` */
  function Estimate(items: seq<Item>): nat { Chars(items) / 4 }

  /** `chat_history_token_budget` */
  function Budget(setting: int): (b: int)
    ensures b >= 4000 && (setting >= 4000 ==> b == setting) && (setting < 4000 ==> b == 4000)
  {
    Max(4000, setting)
  }

  /** `history_needs_compaction`, with the float `at` taken as a real. */
  predicate NeedsCompaction(items: seq<Item>, budget: int, at: real) {
    Estimate(items) as real >= budget as real * at
  }

  // ---- The result, said without the loop ----

  predicate FitsFrom(items: seq<Item>, s: nat, target: int)
    requires s <= |items|
  {
    s == |items| - 1 || Sizes(items[s..]) <= target
  }

  /** The longest suffix within the target, or the last message alone. */
  predicate LongestFrom(items: seq<Item>, s: nat, target: int) {
    s < |items| && FitsFrom(items, s, target) && forall r :: 0 <= r < s ==> !FitsFrom(items, r, target)
  }

  /** From `s` on, the first turn of the user, or the last message when there is none. */
  predicate AlignedAt(items: seq<Item>, s: nat, e: nat) {
    && s <= e < |items|
    && (forall k :: s <= k < e ==> items[k].role != USER)
    && (items[e].role == USER || e == |items| - 1)
  }

  /** `kept` is what trimming `items` to `target` gives; `s` and `e` are where its two steps stop. */
  predicate IsTrimmed(items: seq<Item>, target: int, kept: seq<Item>, s: nat, e: nat) {
    if items == [] then kept == []
    else LongestFrom(items, s, target) && AlignedAt(items, s, e) && kept == items[e..]
  }

  ghost predicate IsTrim(items: seq<Item>, target: int, kept: seq<Item>) {
    exists s: nat, e: nat :: IsTrimmed(items, target, kept, s, e)
  }

  lemma {:induction false} SizesAppend(a: seq<Item>, b: seq<Item>)
    ensures Sizes(a + b) == Sizes(a) + Sizes(b)
  {
    if a == [] {
      assert a + b == b;
    } else {
      assert (a + b)[1..] == a[1..] + b;
      SizesAppend(a[1..], b);
    }
  }

  lemma SizesGrow(items: seq<Item>, r: nat, s: nat)
    requires r <= s <= |items|
    ensures Sizes(items[r..]) >= Sizes(items[s..])
  {
    assert items[r..] == items[r..s] + items[s..];
    SizesAppend(items[r..s], items[s..]);
  }

  /** `trim_history_to_budget`, for the target it computes. */
  method TrimHistoryToBudget(items: seq<Item>, target: int) returns (kept: seq<Item>)
    ensures IsTrim(items, target, kept)
  {
    kept := [];
    var total := 0;
    var i := |items|;
    while i > 0
      invariant 0 <= i <= |items|
      invariant kept == items[i..] && total == Sizes(kept)
      invariant i == |items| || FitsFrom(items, i, target)
      decreases i
    {
      var item := items[i - 1];
      assert items[i - 1..] == [item] + items[i..];
      SizesAppend([item], items[i..]);
      if kept != [] && total + Size(item) > target { break; }
      kept, total, i := [item] + kept, total + Size(item), i - 1;
    }
    ghost var s, e := i, i;
    forall r | 0 <= r < i ensures !FitsFrom(items, r, target) {
      SizesGrow(items, r, i - 1);
    }
    while |kept| > 1 && kept[0].role != USER
      invariant items == [] ==> kept == []
      invariant s <= e <= |items|
      invariant items != [] ==> e < |items| && kept == items[e..]
      invariant forall k :: s <= k < e ==> items[k].role != USER
      decreases |kept|
    {
      assert items[e..][1..] == items[e + 1..];
      kept, e := kept[1..], e + 1;
    }
    assert IsTrimmed(items, target, kept, s, e);
  }

  /** The description leaves no choice. */
  lemma TrimIsDeterminate(items: seq<Item>, target: int, a: seq<Item>, b: seq<Item>)
    requires IsTrim(items, target, a) && IsTrim(items, target, b)
    ensures a == b
  {}

  /** What is kept is a non-empty suffix that starts on a turn of the user or is one message, and
      trimming it again keeps all of it. */
  lemma TrimTwice(items: seq<Item>, target: int, kept: seq<Item>)
    requires items != [] && IsTrim(items, target, kept)
    ensures kept != [] && kept == items[|items| - |kept|..]
    ensures kept[0].role == USER || |kept| == 1
    ensures |kept| == 1 || Sizes(kept) <= target
    ensures IsTrim(kept, target, kept)
  {
    var s: nat, e: nat :| IsTrimmed(items, target, kept, s, e);
    SizesGrow(items, s, e);
    assert kept[0..] == kept;
    assert IsTrimmed(kept, target, kept, 0, 0);
  }

  /** Nothing is dropped that need not be: every suffix that starts on a turn of the user and fits the
      target, each message counting a quarter of its length rounded down, is kept. */
  lemma KeepsAllThatFits(items: seq<Item>, target: int, kept: seq<Item>, r: nat)
    requires IsTrim(items, target, kept)
    requires r < |items| && items[r].role == "user" && TokensOf(items[r..]) <= target
    ensures |kept| >= |items| - r
  {
    SizesAreTokens(items[r..]);
    var s: nat, e: nat :| IsTrimmed(items, target, kept, s, e);
    assert r < s ==> FitsFrom(items, r, target);
  }

  function TokensOf(items: seq<Item>): nat {
    if items == [] then 0 else |items[0].content| / 4 + TokensOf(items[1..])
  }

  lemma {:induction false} SizesAreTokens(items: seq<Item>)
    ensures Sizes(items) == TokensOf(items)
  {
    if items != [] { SizesAreTokens(items[1..]); }
  }

  /** And what is kept fits, unless it is one message, and starts on a turn of the user or is one. */
  lemma KeptFits(items: seq<Item>, target: int, kept: seq<Item>)
    requires items != [] && IsTrim(items, target, kept)
    ensures |kept| == 1 || (TokensOf(kept) <= target && kept[0].role == "user")
  {
    TrimTwice(items, target, kept);
    SizesAreTokens(kept);
  }

  // ---- Is it enough? ----

  lemma {:induction false} CharsBounded(items: seq<Item>)
    ensures 4 * Sizes(items) <= Chars(items) <= 4 * Sizes(items) + 3 * |items|
  {
    if items != [] { CharsBounded(items[1..]); }
  }

  /** Each message's estimate is rounded down, so the whole may exceed the target, by 3/4 of a token
      a message at most. */
  lemma TrimmedEstimate(items: seq<Item>, target: int, kept: seq<Item>)
    requires IsTrim(items, target, kept) && |kept| > 1
    ensures Estimate(kept) <= target + 3 * |kept| / 4
  {
    TrimTwice(items, target, kept);
    CharsBounded(kept);
  }

  function Copies(item: Item, n: nat): seq<Item> { if n == 0 then [] else [item] + Copies(item, n - 1) }

  lemma {:induction false} CopiesAddUp(item: Item, n: nat)
    ensures |Copies(item, n)| == n && Sizes(Copies(item, n)) == n * Size(item)
    ensures Chars(Copies(item, n)) == n * |item.content|
    ensures forall k :: 0 <= k < n ==> Copies(item, n)[k] == item
  {
    if n > 0 { CopiesAddUp(item, n - 1); }
  }

  /** int(budget * fraction) for a fraction that is not negative. */
  function Target(budget: int, fraction: real): (t: int)
    ensures t as real <= budget as real * fraction < (t + 1) as real
  {
    (budget as real * fraction).Floor
  }

  /** One trim is enough: at most `n` messages of at most `m` characters, trimmed to half the budget,
      stay below the threshold whenever half the budget plus the rounding, and one message alone, do. */
  lemma TrimSuffices(items: seq<Item>, kept: seq<Item>, budget: int, fraction: real, at: real, n: nat, m: nat)
    requires budget >= 4000 && fraction >= 0.0 && IsTrim(items, Target(budget, fraction), kept)
    requires |items| <= n && forall k :: 0 <= k < |items| ==> |items[k].content| <= m
    requires budget as real * at > budget as real * fraction + 0.75 * n as real
    requires budget as real * at > m as real / 4.0
    ensures !NeedsCompaction(kept, budget, at)
  {
    var s: nat, e: nat :| IsTrimmed(items, Target(budget, fraction), kept, s, e);
    if |kept| > 1 {
      TrimmedEstimate(items, Target(budget, fraction), kept);
      assert Estimate(kept) as real <= budget as real * fraction + 0.75 * |kept| as real;
    } else if |kept| == 1 {
      assert kept == [items[e]];
      assert Chars(kept) == |items[e].content| + Chars([]);
      assert Estimate(kept) as real <= m as real / 4.0;
    } else {
      assert Estimate(kept) == 0;
      assert budget as real * at > 0.0;
    }
  }

  const DEFAULT_FRACTION := 0.5
  const DEFAULT_CAP := 400
  const DEFAULT_CHARS := 8001

  /** The least threshold that is safe: half the budget and 300 tokens, over the least budget. */
  const SAFE := 0.575

  /** With the default cap, fraction and message length, and whatever budget is set, a trimmed
      history is not compacted again provided the threshold is above SAFE. */
  lemma DefaultsConverge(items: seq<Item>, kept: seq<Item>, setting: int, at: real)
    requires IsTrim(items, Target(Budget(setting), DEFAULT_FRACTION), kept)
    requires |items| <= DEFAULT_CAP && forall k :: 0 <= k < |items| ==> |items[k].content| <= DEFAULT_CHARS
    requires at > SAFE
    ensures !NeedsCompaction(kept, Budget(setting), at)
  {
    var b := Budget(setting) as real;
    assert b * (at - SAFE) > 0.0;
    assert b * at == b * SAFE + b * (at - SAFE);
    assert b * SAFE == b * 0.5 + b * 0.075;
    TrimSuffices(items, kept, Budget(setting), DEFAULT_FRACTION, at, DEFAULT_CAP, DEFAULT_CHARS);
  }

  /** At SAFE and below it does not hold: 400 messages of 23 characters survive the trim to a
      budget of 4000 and are due for compaction at once. */
  lemma SafeIsExact(text: string, at: real)
    requires |text| == 23 && at <= SAFE
    ensures var items := Copies(Item(USER, text, None), DEFAULT_CAP);
            && |items| == DEFAULT_CAP && (forall k :: 0 <= k < |items| ==> |items[k].content| <= DEFAULT_CHARS)
            && IsTrim(items, Target(Budget(4000), DEFAULT_FRACTION), items)
            && NeedsCompaction(items, Budget(4000), at)
  {
    var item := Item(USER, text, None);
    var items := Copies(item, DEFAULT_CAP);
    CopiesAddUp(item, DEFAULT_CAP);
    assert items[0..] == items;
    assert Target(4000, DEFAULT_FRACTION) == 2000;
    assert IsTrimmed(items, 2000, items, 0, 0);
  }
}
