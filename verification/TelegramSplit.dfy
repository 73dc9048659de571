/** Cutting a reply into Telegram messages (services/api-gateway/core/telegram_chunking.py), and the
    second implementation of head and tail in services/api-gateway/core/chat_invoke_finalize.py. */
module TelegramSplit {

  import opened Sequences
  import opened Texts
  import opened Wrappers

  const SEND_LIMIT := 4096
  const CAP := SEND_LIMIT - 32
  const DEFAULT_CHUNK := 2000

  /** `telegram_reply_plain_chunk_size`; `setting` is the environment value when it is a number. */
  function ChunkSize(setting: Option<int>): (size: nat)
    ensures 256 <= size <= 3896
    ensures setting.None? ==> size == 2000
    ensures setting.Some? ==>
              size == if setting.value < 256 then 256 else if setting.value > 3896 then 3896 else setting.value
  {
    match setting
    case Some(raw) => Max(256, Min(raw, SEND_LIMIT - 200))
    case None => DEFAULT_CHUNK
  }

  predicate NoneEmpty(parts: seq<string>) { forall k :: 0 <= k < |parts| ==> parts[k] != "" }

  // ---- The coarse split ----

  /** str.rfind("\n"), or -1. */
  function RFindNewline(w: string): (k: int)
    ensures -1 <= k < |w|
    ensures k >= 0 ==> w[k] == '\n'
    ensures forall j :: k < j < |w| ==> w[j] != '\n'
  {
    if w == "" then -1 else if w[|w| - 1] == '\n' then |w| - 1 else RFindNewline(w[..|w| - 1])
  }

  /** `c` is where `rest` may be cut: behind the last newline of the window, unless the window has
      none past its first character; then at the end of the window. */
  predicate RightCut(rest: string, c: nat, max: nat) {
    && 0 < c <= max < |rest|
    && (forall j :: c <= j < max ==> rest[j] != '\n')
    && (if c < max || rest[c - 1] == '\n' then c >= 2 && rest[c - 1] == '\n'
        else forall j :: 1 <= j < max ==> rest[j] != '\n')
  }

  predicate CutAt(parts: seq<string>, k: nat, max: nat)
    requires k < |parts|
  {
    if |Concat(parts[k..])| <= max then k == |parts| - 1 else RightCut(Concat(parts[k..]), |parts[k]|, max)
  }

  predicate RightlyCut(parts: seq<string>, max: nat) {
    forall k :: 0 <= k < |parts| ==> CutAt(parts, k, max)
  }

  function Coarse(t: string, max: nat): seq<string>
    requires max >= 64
  {
    if |t| <= max then [t]
    else
      var nl := RFindNewline(t[..max]);
      var end := if nl > 0 then nl + 1 else max;
      [t[..end]] + Coarse(t[end..], max)
  }

  lemma {:induction false} CoarseLossless(t: string, max: nat)
    requires max >= 64
    ensures Concat(Coarse(t, max)) == t
    ensures t != "" ==> NoneEmpty(Coarse(t, max))
    ensures forall k :: 0 <= k < |Coarse(t, max)| ==> |Coarse(t, max)[k]| <= max
  {
    if |t| <= max {
      ConcatOne(t);
    } else {
      var nl := RFindNewline(t[..max]);
      var end := if nl > 0 then nl + 1 else max;
      CoarseLossless(t[end..], max);
      assert ([t[..end]] + Coarse(t[end..], max))[1..] == Coarse(t[end..], max);
      assert t[..end] + t[end..] == t;
    }
  }

  lemma RightlyCutCons(head: string, rest: seq<string>, max: nat)
    requires RightlyCut(rest, max) && CutAt([head] + rest, 0, max)
    ensures RightlyCut([head] + rest, max)
  {
    var parts := [head] + rest;
    forall k | 0 <= k < |parts| ensures CutAt(parts, k, max) {
      if k > 0 {
        assert CutAt(rest, k - 1, max);
        assert parts[k..] == rest[k - 1..];
      }
    }
  }

  lemma {:induction false} CoarseCutsAtNewlines(t: string, max: nat)
    requires max >= 64
    ensures RightlyCut(Coarse(t, max), max)
  {
    CoarseLossless(t, max);
    var parts := Coarse(t, max);
    assert parts[0..] == parts;
    if |t| > max {
      var nl := RFindNewline(t[..max]);
      var end := if nl > 0 then nl + 1 else max;
      CoarseCutsAtNewlines(t[end..], max);
      CutIsRight(t, max);
      RightlyCutCons(t[..end], Coarse(t[end..], max), max);
    }
  }

  lemma RightCutIsUnique(rest: string, c: nat, d: nat, max: nat)
    requires RightCut(rest, c, max) && RightCut(rest, d, max)
    ensures c == d
  {}

  function CutEnd(t: string, max: nat): nat
    requires max <= |t|
  {
    var nl := RFindNewline(t[..max]);
    if nl > 0 then nl + 1 else max
  }

  lemma FirstCut(parts: seq<string>, max: nat)
    requires max >= 64 && parts != [] && RightlyCut(parts, max) && |Concat(parts)| > max
    ensures var t := Concat(parts);
            && |parts[0]| == CutEnd(t, max) && t[..CutEnd(t, max)] == parts[0]
            && t[CutEnd(t, max)..] == Concat(parts[1..])
  {
    var t := Concat(parts);
    assert parts[0..] == parts && CutAt(parts, 0, max);
    CutIsRight(t, max);
    RightCutIsUnique(t, |parts[0]|, CutEnd(t, max), max);
  }

  /** The rule leaves no choice: the coarse split is the only list of parts that concatenates to
      the text and is cut behind the last newline of every window. */
  lemma {:induction false} CoarseIsTheRightCut(parts: seq<string>, max: nat)
    requires max >= 64 && parts != [] && RightlyCut(parts, max)
    ensures parts == Coarse(Concat(parts), max)
  {
    if |Concat(parts)| <= max {
      assert parts[0..] == parts && CutAt(parts, 0, max);
      assert parts == [parts[0]];
      ConcatOne(parts[0]);
    } else {
      FirstCut(parts, max);
      RightlyCutTail(parts, max);
      CoarseIsTheRightCut(parts[1..], max);
    }
  }

  lemma RightlyCutTail(parts: seq<string>, max: nat)
    requires parts != [] && RightlyCut(parts, max)
    ensures RightlyCut(parts[1..], max)
    ensures |Concat(parts)| > max ==> parts[1..] != []
  {
    var rest := parts[1..];
    assert CutAt(parts, 0, max) && parts[0..] == parts;
    if rest == [] { assert Concat(parts) == parts[0] + ""; }
    forall k | 0 <= k < |rest| ensures CutAt(rest, k, max) {
      assert CutAt(parts, k + 1, max);
      assert parts[k + 1..] == rest[k..];
    }
  }

  lemma CutIsRight(t: string, max: nat)
    requires 64 <= max < |t|
    ensures var nl := RFindNewline(t[..max]); RightCut(t, if nl > 0 then nl + 1 else max, max)
  {}

  lemma ConcatOne(t: string)
    ensures Concat([t]) == t
  {
    assert Concat([t]) == t + "" == t;
  }

  /** `split_plain_text_for_telegram_reply` */
  method SplitPlainTextForTelegramReply(text: string, maxChunk: int) returns (out: seq<string>)
    ensures out == Coarse(text, Max(maxChunk, 64))
  {
    var max := maxChunk;
    if max < 64 { max := 64; }
    var t := text;
    if t == "" { return [""]; }
    out := [];
    var i := 0;
    var n := |t|;
    assert t[0..] == t;
    while i < n
      invariant 0 <= i <= n
      invariant out + Remaining(t, i, max) == Coarse(t, max)
    {
      if n - i <= max {
        LastPiece(t, i, max);
        return out + [t[i..n]];
      }
      var end := i + max;
      var nl := RFindNewline(t[i..end]);
      if nl > 0 { end := i + nl + 1; }
      CoarseStep(t, i, max, end);
      Assoc(out, [t[i..end]], Remaining(t, end, max));
      out := out + [t[i..end]];
      i := end;
    }
  }

  function Remaining(t: string, i: nat, max: nat): seq<string>
    requires max >= 64 && i <= |t|
  {
    if i < |t| then Coarse(t[i..], max) else []
  }

  lemma LastPiece(t: string, i: nat, max: nat)
    requires max >= 64 && i < |t| <= i + max
    ensures Remaining(t, i, max) == [t[i..|t|]]
  {
    assert t[i..|t|] == t[i..];
  }

  lemma CoarseStep(t: string, i: nat, max: nat, end: nat)
    requires 64 <= max < |t| - i
    requires var nl := RFindNewline(t[i..i + max]); end == if nl > 0 then i + nl + 1 else i + max
    ensures Remaining(t, i, max) == [t[i..end]] + Remaining(t, end, max)
  {
    assert t[i..][..max] == t[i..i + max];
    assert t[i..][..end - i] == t[i..end] && t[i..][end - i..] == t[end..];
  }

  // ---- The recursive split ----

  /** `plain_subchunks_for_telegram_budget`; `render` stands for the HTML escape. */
  function SubChunks(plain: string, render: string -> string): seq<string>
    decreases |plain|
  {
    if plain == "" then []
    else if |render(plain)| <= CAP || |plain| <= 1 then [plain]
    else SubChunks(plain[..|plain| / 2], render) + SubChunks(plain[|plain| / 2..], render)
  }

  /** A text that is too long is cut in the middle, the shorter half in front, and each half again. */
  lemma CutInTheMiddle(plain: string, render: string -> string)
    requires |plain| > 1 && |render(plain)| > 4064
    ensures exists a, b :: plain == a + b && |a| <= |b| <= |a| + 1
                           && SubChunks(plain, render) == SubChunks(a, render) + SubChunks(b, render)
  {
    var a, b := plain[..|plain| / 2], plain[|plain| / 2..];
    assert plain == a + b;
    assert SubChunks(plain, render) == SubChunks(a, render) + SubChunks(b, render);
  }

  predicate Fits(part: string, render: string -> string) {
    part != "" && (Sendable(part, render) || |part| == 1)
  }

  predicate AllFit(parts: seq<string>, render: string -> string) {
    forall k :: 0 <= k < |parts| ==> Fits(parts[k], render)
  }

  /** Telegram's 4096, less what a prefix may take. */
  predicate Sendable(part: string, render: string -> string) { |render(part)| <= 4064 }

  /** Nothing is lost, a part that is still too long is a single character, and a text is cut only
      when it is too long. */
  lemma {:induction false} SubChunksFit(plain: string, render: string -> string)
    ensures Concat(SubChunks(plain, render)) == plain
    ensures AllFit(SubChunks(plain, render), render)
    ensures |SubChunks(plain, render)| > 1 ==> !Sendable(plain, render)
    decreases |plain|
  {
    if plain == "" {
    } else if |render(plain)| <= CAP || |plain| <= 1 {
      ConcatOne(plain);
    } else {
      var a, b := plain[..|plain| / 2], plain[|plain| / 2..];
      assert a + b == plain;
      SubChunksFit(a, render);
      SubChunksFit(b, render);
      ConcatAppend(SubChunks(a, render), SubChunks(b, render));
      BothFit(SubChunks(a, render), SubChunks(b, render), render);
    }
  }

  lemma BothFit(a: seq<string>, b: seq<string>, render: string -> string)
    requires AllFit(a, render) && AllFit(b, render)
    ensures AllFit(a + b, render)
  {}

  /** When `render` turns a character into at most `k`, the halving stops before it makes crumbs:
      with more than one part each has at least CAP / 2k characters. */
  lemma {:induction false} PartsAreNotCrumbs(plain: string, render: string -> string, k: nat)
    requires k > 0 && forall s :: |render(s)| <= k * |s|
    ensures forall p :: p in SubChunks(plain, render) && |SubChunks(plain, render)| > 1 ==>
              |p| * (2 * k) >= 4064 - 2 * k
    decreases |plain|
  {
    if plain != "" && |render(plain)| > CAP && |plain| > 1 {
      var mid := |plain| / 2;
      PartsAreNotCrumbs(plain[..mid], render, k);
      PartsAreNotCrumbs(plain[mid..], render, k);
      HalfIsLarge(plain, render, k);
      OnePartIsAll(plain[..mid], render);
      OnePartIsAll(plain[mid..], render);
    }
  }

  lemma HalfIsLarge(plain: string, render: string -> string, k: nat)
    requires k > 0 && forall s :: |render(s)| <= k * |s|
    requires |render(plain)| > CAP
    ensures |plain[..|plain| / 2]| * (2 * k) >= CAP - 2 * k && |plain[|plain| / 2..]| * (2 * k) >= CAP - 2 * k
  {
    var mid := |plain| / 2;
    assert 2 * mid >= |plain| - 1;
    assert (2 * mid) * k >= (|plain| - 1) * k;
    assert (|plain| - 1) * k == k * |plain| - k;
    assert (|plain| - mid) * (2 * k) >= mid * (2 * k);
  }

  lemma OnePartIsAll(plain: string, render: string -> string)
    ensures |SubChunks(plain, render)| == 1 ==> SubChunks(plain, render) == [plain]
  {
    SubChunksFit(plain, render);
    var parts := SubChunks(plain, render);
    if |parts| == 1 {
      assert parts == [parts[0]];
      ConcatOne(parts[0]);
    }
  }

  // ---- Both splits together ----

  function Refine(coarse: seq<string>, render: string -> string): seq<string> {
    if coarse == [] then [] else SubChunks(coarse[0], render) + Refine(coarse[1..], render)
  }

  lemma {:induction false} RefineFits(coarse: seq<string>, render: string -> string)
    ensures Concat(Refine(coarse, render)) == Concat(coarse)
    ensures AllFit(Refine(coarse, render), render)
  {
    if coarse != [] {
      SubChunksFit(coarse[0], render);
      RefineFits(coarse[1..], render);
      ConcatAppend(SubChunks(coarse[0], render), Refine(coarse[1..], render));
    }
  }

  /** The messages a reply is cut into. */
  function Messages(text: string, size: nat, render: string -> string): seq<string>
    requires size >= 64
  {
    var parts := Refine(Coarse(text, size), render);
    if parts == [] then [""] else parts
  }

  /** Lossless, and every message fits when single characters do. */
  lemma MessagesFit(text: string, size: nat, render: string -> string)
    requires size >= 64
    ensures Concat(Messages(text, size, render)) == text
    ensures text != "" ==> NoneEmpty(Messages(text, size, render))
    ensures (forall c: char :: Sendable([c], render)) && Sendable("", render) ==>
              forall k :: 0 <= k < |Messages(text, size, render)| ==> Sendable(Messages(text, size, render)[k], render)
  {
    CoarseLossless(text, size);
    RefineFits(Coarse(text, size), render);
    var parts := Refine(Coarse(text, size), render);
    if parts == [] { ConcatOne(""); }
    forall k | 0 <= k < |parts| && (forall c: char :: Sendable([c], render)) ensures Sendable(parts[k], render) {
      assert Fits(parts[k], render);
      if |parts[k]| == 1 { assert parts[k] == [parts[k][0]]; }
    }
  }

  // ---- Head and tail ----

  /** sep.join(parts) */
  function Join(sep: string, parts: seq<string>): string {
    if parts == [] then "" else if |parts| == 1 then parts[0] else parts[0] + sep + Join(sep, parts[1..])
  }

  const BLANK_LINE := "\n\n"

  /** The parts of the loop both implementations run. */
  method RefineAll(coarse: seq<string>, render: string -> string) returns (parts: seq<string>)
    ensures parts == Refine(coarse, render)
  {
    parts := [];
    var i := 0;
    assert coarse[0..] == coarse;
    while i < |coarse|
      invariant 0 <= i <= |coarse|
      invariant parts + Refine(coarse[i..], render) == Refine(coarse, render)
    {
      assert coarse[i..][1..] == coarse[i + 1..];
      ghost var rest := Refine(coarse[i + 1..], render);
      assert parts + (SubChunks(coarse[i], render) + rest) == (parts + SubChunks(coarse[i], render)) + rest;
      parts := parts + SubChunks(coarse[i], render);
      i := i + 1;
    }
  }

  /** What both implementations owe the caller: nothing, or the first message and the others joined
      by blank lines, provided these say anything. */
  predicate HeadAndTail(text: string, size: nat, render: string -> string, head: Option<string>, tail: Option<string>)
    requires size >= 64
  {
    var parts := Messages(text, size, render);
    if !AllBlank(parts[1..]) then
      head == Some(parts[0]) && tail == Some(Join("\n\n", parts[1..]))
    else head == None && tail == None
  }

  /** The separator stands between any two parts, and nowhere else. */
  lemma {:induction false} JoinAppend(sep: string, a: seq<string>, b: seq<string>)
    requires a != [] && b != []
    ensures Join(sep, a + b) == Join(sep, a) + sep + Join(sep, b)
  {
    assert (a + b)[1..] == a[1..] + b;
    if |a| > 1 {
      JoinAppend(sep, a[1..], b);
      assert Join(sep, a + b) == a[0] + sep + (Join(sep, a[1..]) + sep + Join(sep, b));
    } else {
      assert a[1..] + b == b;
    }
  }

  lemma JoinOne(sep: string, part: string)
    ensures Join(sep, [part]) == part && Join(sep, []) == ""
  {}

  lemma {:induction false} JoinInk(parts: seq<string>)
    ensures Ink(Join(BLANK_LINE, parts)) == Ink(Concat(parts))
  {
    if |parts| == 1 {
      assert parts == [parts[0]];
      ConcatOne(parts[0]);
    } else if parts != [] {
      JoinInk(parts[1..]);
      var j := Join(BLANK_LINE, parts[1..]);
      InkAppend(parts[0] + BLANK_LINE, j);
      InkAppend(parts[0], BLANK_LINE);
      BlankHasNoInk(BLANK_LINE);
      InkAppend(parts[0], Concat(parts[1..]));
    }
  }

  predicate AllBlank(parts: seq<string>) { forall k :: 0 <= k < |parts| ==> Blank(parts[k]) }

  lemma {:induction false} AllBlankHasNoInk(parts: seq<string>)
    ensures Ink(Concat(parts)) == "" <==> AllBlank(parts)
  {
    if parts != [] {
      InkAppend(parts[0], Concat(parts[1..]));
      AllBlankHasNoInk(parts[1..]);
      NoInkIsBlank(parts[0]);
      assert AllBlank(parts) ==> AllBlank(parts[1..]);
      assert forall k :: 1 <= k < |parts| ==> parts[k] == parts[1..][k - 1];
    }
  }

  lemma JoinBlank(parts: seq<string>)
    ensures Strip(Join(BLANK_LINE, parts)) == "" <==> AllBlank(parts)
  {
    JoinInk(parts);
    AllBlankHasNoInk(parts);
    StripEmpty(Join(BLANK_LINE, parts));
    NoInkIsBlank(Join(BLANK_LINE, parts));
  }

  /** `gateway_multipart_plain_head_tail` */
  method GatewayMultipartPlainHeadTail(reply: string, setting: Option<int>, render: string -> string)
    returns (head: Option<string>, tail: Option<string>)
    ensures HeadAndTail(reply, ChunkSize(setting), render, head, tail)
  {
    var coarse := SplitPlainTextForTelegramReply(reply, ChunkSize(setting));
    var parts := RefineAll(coarse, render);
    if parts == [] { parts := [""]; }
    if |parts| <= 1 { return None, None; }
    JoinBlank(parts[1..]);
    var tailPlain := Join(BLANK_LINE, parts[1..]);
    if Strip(tailPlain) == "" { return None, None; }
    return Some(parts[0]), Some(tailPlain);
  }

  /** `_split_telegram_multipart` */
  method SplitTelegramMultipart(reply: string, setting: Option<int>, render: string -> string)
    returns (count: nat, head: Option<string>, tail: Option<string>)
    ensures HeadAndTail(reply, ChunkSize(setting), render, head, tail)
    ensures count == |Messages(reply, ChunkSize(setting), render)|
  {
    count, head, tail := 1, None, None;
    var coarse := SplitPlainTextForTelegramReply(reply, ChunkSize(setting));
    var parts := RefineAll(coarse, render);
    if parts == [] { parts := [""]; }
    count := |parts|;
    var tailPlain := if |parts| > 1 then Join(BLANK_LINE, parts[1..]) else "";
    JoinBlank(parts[1..]);
    if Strip(tailPlain) != "" {
      head := Some(parts[0]);
      tail := Some(tailPlain);
    }
  }

  /** The two implementations agree on every reply, setting and escape. */
  method BothSplitsAgree(reply: string, setting: Option<int>, render: string -> string)
    returns (first: (Option<string>, Option<string>), second: (Option<string>, Option<string>))
    ensures first == second
  {
    var h1, t1 := GatewayMultipartPlainHeadTail(reply, setting, render);
    var n, h2, t2 := SplitTelegramMultipart(reply, setting, render);
    first, second := (h1, t1), (h2, t2);
  }

  /** Head and tail together say what the reply says, white space aside. */
  lemma HeadAndTailKeepInk(text: string, size: nat, render: string -> string, head: Option<string>,
                           tail: Option<string>)
    requires size >= 64 && HeadAndTail(text, size, render, head, tail) && head.Some?
    ensures head.value <= text && tail.Some?
    ensures Ink(head.value) + Ink(tail.value) == Ink(text)
    ensures !Blank(tail.value)
  {
    var parts := Messages(text, size, render);
    MessagesFit(text, size, render);
    assert parts == [parts[0]] + parts[1..];
    InkAppend(parts[0], Concat(parts[1..]));
    JoinInk(parts[1..]);
    JoinBlank(parts[1..]);
    StripEmpty(tail.value);
  }

  /** "One message is enough" is what no head and no tail is documented to mean.  For a reply that
      does not end in white space it means exactly that there is one part. */
  lemma NoTailMeansOnePart(text: string, size: nat, render: string -> string, head: Option<string>,
                           tail: Option<string>)
    requires size >= 64 && HeadAndTail(text, size, render, head, tail)
    requires text != "" && !IsSpace(text[|text| - 1])
    ensures head == None <==> Messages(text, size, render) == [text]
  {
    var parts := Messages(text, size, render);
    MessagesFit(text, size, render);
    if |parts| == 1 {
      assert parts == [parts[0]];
      ConcatOne(parts[0]);
    } else {
      LastPart(parts);
      var last := parts[|parts| - 1];
      assert last[|last| - 1] in last;
      assert parts[1..][|parts| - 2] == last;
      assert parts != [text];
    }
  }

  lemma {:induction false} LastPart(parts: seq<string>)
    requires parts != [] && NoneEmpty(parts)
    ensures Concat(parts) != "" && parts[|parts| - 1] != ""
    ensures var last := parts[|parts| - 1]; Concat(parts)[|Concat(parts)| - 1] == last[|last| - 1]
  {
    if |parts| == 1 {
      assert parts == [parts[0]];
      ConcatOne(parts[0]);
    } else {
      LastPart(parts[1..]);
    }
  }

  lemma {:induction false} RefineCount(coarse: seq<string>, render: string -> string)
    requires NoneEmpty(coarse)
    ensures |Refine(coarse, render)| >= |coarse|
  {
    if coarse != [] {
      SubChunksFit(coarse[0], render);
      RefineCount(coarse[1..], render);
    }
  }

  /** When a reply is cut: it is longer than a chunk, or too long once escaped. */
  predicate NeedsCut(text: string, size: nat, render: string -> string) {
    |text| > size || (|text| > 1 && !Sendable(text, render))
  }

  lemma MoreThanOne(text: string, size: nat, render: string -> string)
    requires size >= 64
    ensures |Messages(text, size, render)| > 1 <==> NeedsCut(text, size, render)
  {
    if |text| > size {
      CoarseLossless(text, size);
      RefineCount(Coarse(text, size), render);
      LongIsCut(text, size);
    } else {
      assert Coarse(text, size) == [text] && Refine([text], render) == SubChunks(text, render) + [];
      if text != "" && NeedsCut(text, size, render) {
        SubChunksFit(text[..|text| / 2], render);
        SubChunksFit(text[|text| / 2..], render);
      }
    }
  }

  lemma LongIsCut(text: string, size: nat)
    requires 64 <= size < |text|
    ensures |Coarse(text, size)| > 1
  {
    var nl := RFindNewline(text[..size]);
    CoarseLossless(text[if nl > 0 then nl + 1 else size..], size);
  }

  /** No head and no tail although one message is not enough: exactly when everything behind the
      first part is white space, whatever comes before it and however much of it there is. */
  lemma NoTailThoughCut(text: string, size: nat, render: string -> string, head: Option<string>, tail: Option<string>)
    requires size >= 64 && HeadAndTail(text, size, render, head, tail) && text != ""
    ensures |Messages(text, size, render)[0]| <= |text|
    ensures NeedsCut(text, size, render) ==>
              (head == None <==> Blank(text[|Messages(text, size, render)[0]|..]))
  {
    var parts := Messages(text, size, render);
    MessagesFit(text, size, render);
    MoreThanOne(text, size, render);
    assert parts == [parts[0]] + parts[1..];
    assert text == parts[0] + Concat(parts[1..]);
    AllBlankHasNoInk(parts[1..]);
    NoInkIsBlank(Concat(parts[1..]));
  }

  /** In particular a reply of one character and any amount of white space gets no tail, although
      from one chunk on it needs more than one message. */
  lemma TrailingSpaceHidesTheSplit(text: string, size: nat, render: string -> string, head: Option<string>,
                                   tail: Option<string>)
    requires size >= 64 && HeadAndTail(text, size, render, head, tail)
    requires text != "" && Blank(text[1..])
    ensures head == None && tail == None
    ensures |text| > size ==> |Messages(text, size, render)| > 1
  {
    var parts := Messages(text, size, render);
    MessagesFit(text, size, render);
    MoreThanOne(text, size, render);
    var others := parts[1..];
    forall k | 0 <= k < |others| ensures Blank(others[k]) {
      BlankPart(text, parts, k + 1);
    }
    assert AllBlank(others);
  }

  lemma BlankPart(text: string, parts: seq<string>, k: nat)
    requires text == Concat(parts) && text != "" && Blank(text[1..]) && 1 <= k < |parts| && NoneEmpty(parts)
    ensures Blank(parts[k])
  {
    PartIsSlice(parts, k);
    var from := |Concat(parts[..k])|;
    BlankSlice(text, from, from + |parts[k]|);
  }

  lemma BlankSlice(text: string, from: nat, to: nat)
    requires 1 <= from <= to <= |text| && Blank(text[1..])
    ensures Blank(text[from..to])
  {
    forall c | c in text[from..to] ensures IsSpace(c) {
      var j :| from <= j < to && text[j] == c;
      assert text[1..][j - 1] == c;
    }
  }

  lemma PartIsSlice(parts: seq<string>, k: nat)
    requires 1 <= k < |parts| && NoneEmpty(parts)
    ensures var from := |Concat(parts[..k])|;
            1 <= from && from + |parts[k]| <= |Concat(parts)| && parts[k] == Concat(parts)[from..from + |parts[k]|]
  {
    assert parts == parts[..k] + parts[k..];
    ConcatAppend(parts[..k], parts[k..]);
    assert parts[k..][0] == parts[k];
    assert parts[..k][0] == parts[0];
    var a, b := Concat(parts[..k]), Concat(parts[k..]);
    assert (a + b)[|a|..|a| + |parts[k]|] == b[..|parts[k]|];
  }
}
