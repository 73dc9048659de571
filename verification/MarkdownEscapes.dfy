/** Taking off MarkdownV2 escapes (packages/shared/src/duckclaw/utils/telegram_markdown_v2.py): one
    layer, up to four, and what they leave of a text that is then cut. */
module MarkdownEscapes {

  import opened Sequences

  const ELLIPSIS := "\U{2026}"

  /** The nineteen reserved characters: !#()*+-.=>[\]_`{|}~ */
  predicate Special(c: char) {
    c == '!' || c == '#' || '(' <= c <= '+' || c == '-' || c == '.' || c == '=' || c == '>'
    || '[' <= c <= ']' || c == '_' || c == '`' || '{' <= c <= '~'
  }

  lemma SpecialsAre(c: char)
    ensures Special(c) <==> c in "!#()*+-.=>[\\]_`{|}~"
  {}

  predicate PairAt(t: string) { |t| >= 2 && t[0] == '\\' && Special(t[1]) }

  /** One layer of escapes taken off. */
  function UnescapeOnce(t: string): string {
    if t == "" then "" else if PairAt(t) then [t[1]] + UnescapeOnce(t[2..]) else [t[0]] + UnescapeOnce(t[1..])
  }

  function Layers(t: string, n: nat): string
    decreases n
  {
    if n == 0 then t
    else
      var u := UnescapeOnce(t);
      if u == t then t else Layers(u, n - 1)
  }

  const MAX_LAYERS := 4

  /** The inner loop: one layer. */
  method UnescapeLayer(t: string) returns (out: string)
    ensures out == UnescapeOnce(t)
  {
    out := "";
    var i := 0;
    assert t[0..] == t;
    while i < |t|
      invariant 0 <= i <= |t|
      invariant out + UnescapeOnce(t[i..]) == UnescapeOnce(t)
    {
      UnescapeStep(t, i);
      if t[i] == '\\' && i + 1 < |t| && Special(t[i + 1]) {
        Assoc(out, [t[i + 1]], UnescapeOnce(t[i + 2..]));
        out, i := out + [t[i + 1]], i + 2;
      } else {
        Assoc(out, [t[i]], UnescapeOnce(t[i + 1..]));
        out, i := out + [t[i]], i + 1;
      }
    }
  }

  /** `unescape_telegram_markdown_v2_layers` */
  method UnescapeLayers(text: string, maxLayers: int) returns (t: string)
    ensures t == Layers(text, Max(1, maxLayers))
  {
    t := text;
    var n: nat := Max(1, maxLayers);
    while n > 0
      invariant Layers(t, n) == Layers(text, Max(1, maxLayers))
    {
      var out := UnescapeLayer(t);
      if out == t { return; }
      t, n := out, n - 1;
    }
  }

  lemma UnescapeStep(t: string, i: nat)
    requires i < |t|
    ensures UnescapeOnce(t[i..]) ==
            if t[i] == '\\' && i + 1 < |t| && Special(t[i + 1]) then [t[i + 1]] + UnescapeOnce(t[i + 2..])
            else [t[i]] + UnescapeOnce(t[i + 1..])
  {}

  /** No escape is left. */
  predicate Clean(t: string) { t == "" || (!PairAt(t) && Clean(t[1..])) }

  lemma {:induction false} UnescapeShrinks(t: string)
    ensures if Clean(t) then UnescapeOnce(t) == t else |UnescapeOnce(t)| < |t|
  {
    if t == "" {
    } else if PairAt(t) {
      UnescapeShrinks(t[2..]);
    } else {
      UnescapeShrinks(t[1..]);
    }
  }

  lemma {:induction false} LayersShrink(t: string, n: nat)
    ensures if Clean(t) || n == 0 then Layers(t, n) == t else |Layers(t, n)| < |t|
    decreases n
  {
    UnescapeShrinks(t);
    if n > 0 && !Clean(t) { LayersShrink(UnescapeOnce(t), n - 1); }
  }

  /** `escape_telegram_markdown_v2` on a text without mention links. */
  function Escape(t: string): string {
    if t == "" then "" else (if Special(t[0]) then ['\\', t[0]] else [t[0]]) + Escape(t[1..])
  }

  function EscapeTimes(t: string, n: nat): string { if n == 0 then t else Escape(EscapeTimes(t, n - 1)) }

  lemma {:induction false} UnescapeUndoesEscape(t: string)
    ensures UnescapeOnce(Escape(t)) == t
  {
    if t != "" {
      UnescapeUndoesEscape(t[1..]);
      var rest := Escape(t[1..]);
      if Special(t[0]) {
        var e := ['\\', t[0]] + rest;
        assert e[2..] == rest && PairAt(e);
      } else {
        var e := [t[0]] + rest;
        assert e[1..] == rest && e[0] != '\\';
      }
    }
  }

  lemma LayersStep(t: string, u: string, n: nat)
    requires n > 0 && UnescapeOnce(t) == u && u != t
    ensures Layers(t, n) == Layers(u, n - 1)
  {}

  lemma OneLayer(e: string, n: nat)
    requires n > 0
    ensures Layers(Escape(e), n) == Layers(e, if Escape(e) == e then n else n - 1)
  {
    UnescapeUndoesEscape(e);
    if Escape(e) != e { LayersStep(Escape(e), e, n); }
  }

  /** However often a clean text was escaped, up to the number of layers, it comes back. */
  lemma {:induction false} LayersUndoEscapes(t: string, k: nat, n: nat)
    requires Clean(t) && k <= n
    ensures Layers(EscapeTimes(t, k), n) == t
    decreases k
  {
    if k == 0 {
      LayersShrink(t, n);
    } else {
      var e := EscapeTimes(t, k - 1);
      OneLayer(e, n);
      LayersUndoEscapes(t, k - 1, n);
      LayersUndoEscapes(t, k - 1, n - 1);
    }
  }

  // ---- How many layers a text has ----

  function Backslashes(n: nat): string { if n == 0 then "" else ['\\'] + Backslashes(n - 1) }

  lemma {:induction false} BackslashesLength(n: nat)
    ensures |Backslashes(n)| == n && forall k :: 0 <= k < n ==> Backslashes(n)[k] == '\\'
  {
    if n > 0 { BackslashesLength(n - 1); }
  }

  /** The number of backslashes at the start. */
  function Run(t: string): (n: nat)
    ensures n <= |t| && (n < |t| ==> t[n] != '\\')
  {
    if t != "" && t[0] == '\\' then 1 + Run(t[1..]) else 0
  }

  lemma {:induction false} RunSplits(t: string)
    ensures t == Backslashes(Run(t)) + t[Run(t)..]
  {
    if t != "" && t[0] == '\\' {
      RunSplits(t[1..]);
      var n := Run(t[1..]);
      assert t == ['\\'] + t[1..] && t[n + 1..] == t[1..][n..];
    } else {
      assert t[0..] == t;
    }
  }

  /** Every run of backslashes before a reserved character is shorter than `k`, and every other run
      is at most `k` long. */
  predicate Within(t: string, k: nat)
    decreases |t|
  {
    var n := Run(t);
    if n == |t| then n <= k
    else (if Special(t[n]) then n < k else n <= k) && Within(t[n + 1..], k)
  }

  /** What one layer makes of a run of `n` in front of `c`. */
  function Halved(n: nat, c: char): nat { if Special(c) then n / 2 else (n + 1) / 2 }

  lemma UnescapePair(t: string)
    ensures UnescapeOnce(['\\', '\\'] + t) == ['\\'] + UnescapeOnce(t)
  {
    assert (['\\', '\\'] + t)[2..] == t;
  }

  lemma TwoMoreBackslashes(n: nat, s: string)
    ensures Backslashes(n + 2) + s == ['\\', '\\'] + (Backslashes(n) + s)
    ensures Backslashes(n + 1) + s == ['\\'] + (Backslashes(n) + s)
  {
    var b := Backslashes(n);
    assert Backslashes(n + 1) == ['\\'] + b;
    assert Backslashes(n + 2) == ['\\'] + (['\\'] + b);
  }

  lemma {:induction false} UnescapeRun(n: nat, c: char, rest: string)
    requires c != '\\'
    ensures UnescapeOnce(Backslashes(n) + ([c] + rest)) == Backslashes(Halved(n, c)) + ([c] + UnescapeOnce(rest))
  {
    var t := Backslashes(n) + ([c] + rest);
    var u := [c] + UnescapeOnce(rest);
    if n == 0 {
      assert t == [c] + rest && t[1..] == rest;
    } else if n == 1 {
      assert Backslashes(1) == ['\\'] && t == ['\\', c] + rest && t[2..] == rest && t[1..] == [c] + rest;
      assert ([c] + rest)[1..] == rest;
    } else {
      TwoMoreBackslashes(n - 2, [c] + rest);
      UnescapePair(Backslashes(n - 2) + ([c] + rest));
      UnescapeRun(n - 2, c, rest);
      TwoMoreBackslashes(Halved(n - 2, c), u);
    }
  }

  lemma {:induction false} UnescapeLastRun(n: nat)
    ensures UnescapeOnce(Backslashes(n)) == Backslashes((n + 1) / 2)
  {
    if n >= 2 {
      TwoMoreBackslashes(n - 2, "");
      UnescapePair(Backslashes(n - 2));
      UnescapeLastRun(n - 2);
      assert Backslashes(n) + "" == Backslashes(n) && Backslashes(n - 2) + "" == Backslashes(n - 2);
    } else if n == 1 {
      assert Backslashes(1) == ['\\'] && Backslashes(1)[1..] == "";
    }
  }

  lemma {:induction false} RunIs(n: nat, s: string)
    requires s == "" || s[0] != '\\'
    ensures Run(Backslashes(n) + s) == n && (Backslashes(n) + s)[n..] == s
  {
    BackslashesLength(n);
    var t := Backslashes(n) + s;
    if n == 0 {
      assert t == s;
    } else {
      assert t[1..] == Backslashes(n - 1) + s;
      RunIs(n - 1, s);
    }
  }

  lemma WithinRun(n: nat, c: char, rest: string, k: nat)
    requires c != '\\'
    ensures Within(Backslashes(n) + ([c] + rest), k) <==> (if Special(c) then n < k else n <= k) && Within(rest, k)
  {
    var s := [c] + rest;
    var t := Backslashes(n) + s;
    RunIs(n, s);
    BackslashesLength(n);
    assert t[n] == c && t[n + 1..] == t[n..][1..] == rest;
  }

  lemma WithinLastRun(n: nat, k: nat)
    ensures Within(Backslashes(n), k) <==> n <= k
  {
    RunIs(n, "");
    BackslashesLength(n);
    assert Backslashes(n) + "" == Backslashes(n);
  }

  /** One layer halves the runs. */
  lemma {:induction false} LayerHalves(t: string, k: nat)
    ensures Within(UnescapeOnce(t), k) <==> Within(t, 2 * k)
    decreases |t|
  {
    var n := Run(t);
    RunSplits(t);
    if n == |t| {
      assert t == Backslashes(n) by { assert t[n..] == ""; }
      UnescapeLastRun(n);
      WithinLastRun(n, 2 * k);
      WithinLastRun((n + 1) / 2, k);
    } else {
      var c, rest := t[n], t[n + 1..];
      assert t == Backslashes(n) + ([c] + rest) by { assert t[n..] == [c] + rest; }
      LayerHalves(rest, k);
      UnescapeRun(n, c, rest);
      WithinRun(n, c, rest, 2 * k);
      WithinRun(Halved(n, c), c, UnescapeOnce(rest), k);
    }
  }

  lemma {:induction false} WithinMore(t: string, k: nat, l: nat)
    requires Within(t, k) && k <= l
    ensures Within(t, l)
    decreases |t|
  {
    var n := Run(t);
    if n < |t| { WithinMore(t[n + 1..], k, l); }
  }

  lemma {:induction false} CleanIsWithinOne(t: string)
    ensures Clean(t) <==> Within(t, 1)
    decreases |t|
  {
    var n := Run(t);
    RunSplits(t);
    if n == 0 {
      if t != "" { CleanIsWithinOne(t[1..]); }
    } else if n == 1 {
      assert t[0] == '\\' by { assert Backslashes(1)[0] == '\\'; }
      if |t| > 1 {
        assert t[1..][1..] == t[2..];
        CleanIsWithinOne(t[2..]);
      }
    } else {
      BackslashesLength(n);
      assert t[0] == '\\' && t[1] == '\\';
      assert PairAt(t);
    }
  }

  function Doubling(n: nat): (r: nat)
    ensures r >= 1
  {
    if n == 0 then 1 else 2 * Doubling(n - 1)
  }

  /** What `n` layers leave is clean exactly when the runs of the text are within 2 to the n. */
  lemma {:induction false} LayersLeaveClean(t: string, n: nat)
    ensures Clean(Layers(t, n)) <==> Within(t, Doubling(n))
    decreases n
  {
    CleanIsWithinOne(t);
    if n > 0 {
      var u := UnescapeOnce(t);
      UnescapeShrinks(t);
      if u == t {
        WithinMore(t, 1, Doubling(n));
      } else {
        LayersLeaveClean(u, n - 1);
        LayerHalves(t, Doubling(n - 1));
      }
    }
  }

  // ---- The same for a text that is cut behind `m` characters ----

  /** What `layers` layers leave of a run of `n` backslashes, in front of a reserved character or not. */
  function RunLeft(n: nat, special: bool, layers: nat): nat
    decreases layers
  {
    if layers == 0 then n else RunLeft(if special then n / 2 else (n + 1) / 2, special, layers - 1)
  }

  /** `Within` 2 to the `layers` for the runs that reach the first `m` characters of what the layers
      leave; of a run that is cut itself at most one backslash may be left. */
  predicate WithinCut(t: string, layers: nat, m: nat)
    decreases |t|
  {
    var n := Run(t);
    var special := n < |t| && Special(t[n]);
    var left := RunLeft(n, special, layers);
    if m <= left then m <= 1
    else
      && (if special then n < Doubling(layers) else n <= Doubling(layers))
      && (n < |t| ==> WithinCut(t[n + 1..], layers, m - left - 1))
  }

  lemma RunThenRest(n: nat, c: char, rest: string)
    requires c != '\\'
    ensures var t := Backslashes(n) + ([c] + rest); Run(t) == n < |t| && t[n] == c && t[n + 1..] == rest
  {
    var t := Backslashes(n) + ([c] + rest);
    RunIs(n, [c] + rest);
    assert t[n..] == [c] + rest;
    assert t[n + 1..] == t[n..][1..];
  }

  lemma WithinCutAt(t: string, n: nat, layers: nat, m: nat)
    requires Run(t) == n < |t|
    ensures WithinCut(t, layers, m) <==>
            var left := RunLeft(n, Special(t[n]), layers);
            if m <= left then m <= 1
            else
              && (if Special(t[n]) then n < Doubling(layers) else n <= Doubling(layers))
              && WithinCut(t[n + 1..], layers, m - left - 1)
  {}

  lemma WithinCutRun(n: nat, c: char, rest: string, layers: nat, m: nat)
    requires c != '\\'
    ensures WithinCut(Backslashes(n) + ([c] + rest), layers, m) <==>
            var left := RunLeft(n, Special(c), layers);
            if m <= left then m <= 1
            else
              && (if Special(c) then n < Doubling(layers) else n <= Doubling(layers))
              && WithinCut(rest, layers, m - left - 1)
  {
    RunThenRest(n, c, rest);
    WithinCutAt(Backslashes(n) + ([c] + rest), n, layers, m);
  }

  lemma WithinCutLastRun(n: nat, layers: nat, m: nat)
    ensures WithinCut(Backslashes(n), layers, m) <==>
            if m <= RunLeft(n, false, layers) then m <= 1 else n <= Doubling(layers)
  {
    RunIs(n, "");
    BackslashesLength(n);
    assert Backslashes(n) + "" == Backslashes(n);
  }

  lemma RunHalvesCut(n: nat, c: char, rest: string, u: string, layers: nat, m: nat)
    requires c != '\\'
    requires var left := RunLeft(n, Special(c), layers + 1);
             m > left ==> (WithinCut(u, layers, m - left - 1) <==> WithinCut(rest, layers + 1, m - left - 1))
    ensures WithinCut(Backslashes(Halved(n, c)) + ([c] + u), layers, m) <==>
            WithinCut(Backslashes(n) + ([c] + rest), layers + 1, m)
  {
    WithinCutRun(n, c, rest, layers + 1, m);
    WithinCutRun(Halved(n, c), c, u, layers, m);
  }

  lemma LastRunHalvesCut(n: nat, layers: nat, m: nat)
    ensures WithinCut(Backslashes((n + 1) / 2), layers, m) <==> WithinCut(Backslashes(n), layers + 1, m)
  {
    WithinCutLastRun(n, layers + 1, m);
    WithinCutLastRun((n + 1) / 2, layers, m);
  }

  /** One layer halves the runs of a cut text as well. */
  lemma {:induction false} LayerHalvesCut(t: string, layers: nat, m: nat)
    ensures WithinCut(UnescapeOnce(t), layers, m) <==> WithinCut(t, layers + 1, m)
    decreases |t|
  {
    var n := Run(t);
    RunSplits(t);
    if n == |t| {
      assert t == Backslashes(n) by { assert t[n..] == ""; }
      UnescapeLastRun(n);
      LastRunHalvesCut(n, layers, m);
    } else {
      var c, rest := t[n], t[n + 1..];
      assert t == Backslashes(n) + ([c] + rest) by { assert t[n..] == [c] + rest; }
      var left := RunLeft(n, Special(c), layers + 1);
      if m > left { LayerHalvesCut(rest, layers, m - left - 1); }
      UnescapeRun(n, c, rest);
      RunHalvesCut(n, c, rest, UnescapeOnce(rest), layers, m);
    }
  }

  lemma EllipsisEnds(m: nat)
    ensures Clean(Backslashes(m) + ELLIPSIS) <==> m <= 1
  {
    CleanIsWithinOne(Backslashes(m) + ELLIPSIS);
    WithinRun(m, ELLIPSIS[0], "", 1);
    assert [ELLIPSIS[0]] + "" == ELLIPSIS;
    CleanIsWithinOne("");
  }

  lemma CutSplits(t: string, n: nat, m: nat, end: string)
    requires n < m <= |t|
    ensures t[..m] + end == t[..n] + ([t[n]] + (t[n + 1..][..m - n - 1] + end))
  {}

  lemma CleanRun(n: nat, c: char, u: string)
    requires c != '\\'
    ensures Clean(Backslashes(n) + ([c] + u)) <==> (if Special(c) then n < 1 else n <= 1) && Clean(u)
  {
    WithinRun(n, c, u, 1);
    CleanIsWithinOne(Backslashes(n) + ([c] + u));
    CleanIsWithinOne(u);
  }

  /** A cut inside the first run leaves backslashes only. */
  lemma CutInRun(t: string, m: nat)
    requires m <= Run(t)
    ensures t[..m] == Backslashes(m) && (WithinCut(t, 0, m) <==> m <= 1)
  {
    RunSplits(t);
    BackslashesLength(Run(t));
    BackslashesLength(m);
  }

  lemma FrontIsRun(t: string)
    ensures t[..Run(t)] == Backslashes(Run(t))
  {
    RunSplits(t);
    BackslashesLength(Run(t));
  }

  /** A cut text is clean exactly when its runs are within one up to the cut. */
  lemma {:induction false} CutIsClean(t: string, m: nat)
    requires m <= |t|
    ensures Clean(t[..m] + ELLIPSIS) <==> WithinCut(t, 0, m)
    decreases |t|
  {
    var n := Run(t);
    if m <= n {
      CutInRun(t, m);
      EllipsisEnds(m);
    } else {
      var rest := t[n + 1..];
      FrontIsRun(t);
      CutSplits(t, n, m, ELLIPSIS);
      CleanRun(n, t[n], rest[..m - n - 1] + ELLIPSIS);
      CutIsClean(rest, m - n - 1);
      WithinCutAt(t, n, 0, m);
    }
  }

  lemma {:induction false} LayersWithinCut(t: string, n: nat, m: nat)
    ensures WithinCut(Layers(t, n), 0, m) <==> WithinCut(t, n, m)
    decreases n
  {
    if n > 0 {
      var u := UnescapeOnce(t);
      UnescapeShrinks(t);
      LayersShrink(t, n - 1);
      LayersWithinCut(u, n - 1, m);
      LayerHalvesCut(t, n - 1, m);
    }
  }
}
