/** Text operations of the Python library that the splitters use. */
module Texts {

  /** str.isspace, which also is what \s matches. */
  predicate IsSpace(c: char) {
    '\t' <= c <= '\r' || '\U{1C}' <= c <= ' ' || c == '\U{85}' || c == '\U{A0}' || c == '\U{1680}'
    || '\U{2000}' <= c <= '\U{200A}' || c == '\U{2028}' || c == '\U{2029}' || c == '\U{202F}' || c == '\U{205F}'
    || c == '\U{3000}'
  }

  /** Which characters that are: the 29 of Python's str.isspace. */
  lemma SpacesAre(c: char)
    ensures IsSpace(c) <==>
            c in "\t\n\U{0B}\U{0C}\r\U{1C}\U{1D}\U{1E}\U{1F} \U{85}\U{A0}\U{1680}\U{2000}\U{2001}\U{2002}\U{2003}"
                 + "\U{2004}\U{2005}\U{2006}\U{2007}\U{2008}\U{2009}\U{200A}\U{2028}\U{2029}\U{202F}\U{205F}\U{3000}"
  {}

  function Concat(parts: seq<string>): string {
    if parts == [] then "" else parts[0] + Concat(parts[1..])
  }

  /** The text without its white space. */
  function Ink(s: string): string {
    if s == "" then "" else (if IsSpace(s[0]) then "" else [s[0]]) + Ink(s[1..])
  }

  predicate Blank(s: string) { forall c :: c in s ==> IsSpace(c) }

  lemma {:induction false} InkAppend(a: string, b: string)
    ensures Ink(a + b) == Ink(a) + Ink(b)
  {
    if a == "" {
      assert a + b == b;
    } else {
      assert (a + b)[1..] == a[1..] + b;
      InkAppend(a[1..], b);
    }
  }

  lemma {:induction false} BlankHasNoInk(s: string)
    requires Blank(s)
    ensures Ink(s) == ""
  {
    if s != "" {
      assert s[0] in s && forall c :: c in s[1..] ==> c in s;
      BlankHasNoInk(s[1..]);
    }
  }

  lemma {:induction false} ConcatSnoc(parts: seq<string>, s: string)
    ensures Concat(parts + [s]) == Concat(parts) + s
  {
    if parts == [] {
      assert Concat([s]) == s + "";
      assert parts + [s] == [s];
    } else {
      assert (parts + [s])[1..] == parts[1..] + [s];
      ConcatSnoc(parts[1..], s);
    }
  }

  lemma {:induction false} ConcatAppend(a: seq<string>, b: seq<string>)
    ensures Concat(a + b) == Concat(a) + Concat(b)
  {
    if a == [] {
      assert a + b == b;
    } else {
      assert (a + b)[1..] == a[1..] + b;
      ConcatAppend(a[1..], b);
    }
  }

  // ---- Library calls ----

  function LStrip(s: string): string {
    if s != "" && IsSpace(s[0]) then LStrip(s[1..]) else s
  }

  function RStrip(s: string): string {
    if s != "" && IsSpace(s[|s| - 1]) then RStrip(s[..|s| - 1]) else s
  }

  /** str.strip */
  function Strip(s: string): string { RStrip(LStrip(s)) }

  lemma {:induction false} LStripInk(s: string)
    ensures Ink(LStrip(s)) == Ink(s) && |LStrip(s)| <= |s|
  {
    if s != "" && IsSpace(s[0]) { LStripInk(s[1..]); }
  }

  lemma {:induction false} RStripInk(s: string)
    ensures Ink(RStrip(s)) == Ink(s) && |RStrip(s)| <= |s|
  {
    if s != "" && IsSpace(s[|s| - 1]) {
      var n := |s| - 1;
      RStripInk(s[..n]);
      assert s == s[..n] + [s[n]];
      InkAppend(s[..n], [s[n]]);
      assert Ink([s[n]]) == "" by { BlankHasNoInk([s[n]]); }
    }
  }

  lemma StripInk(s: string)
    ensures Ink(Strip(s)) == Ink(s) && |Strip(s)| <= |s|
  {
    LStripInk(s);
    RStripInk(LStrip(s));
  }

  function InkOf(parts: seq<string>): string { Ink(Concat(parts)) }

  lemma InkCons(part: string, rest: seq<string>)
    ensures InkOf([part] + rest) == Ink(part) + InkOf(rest)
  {
    assert ([part] + rest)[1..] == rest;
    InkAppend(part, Concat(rest));
  }

  lemma InkSnoc(parts: seq<string>, s: string)
    ensures InkOf(parts + [s]) == InkOf(parts) + Ink(s)
  {
    ConcatSnoc(parts, s);
    InkAppend(Concat(parts), s);
  }

  lemma InkOfOne(s: string)
    ensures InkOf([s]) == Ink(s)
  {
    assert Concat([s]) == s + "" == s;
  }

  lemma {:induction false} NoInkIsBlank(s: string)
    ensures Ink(s) == "" <==> Blank(s)
  {
    if s != "" {
      NoInkIsBlank(s[1..]);
      assert s == [s[0]] + s[1..];
    }
  }

  lemma {:induction false} StripEnds(s: string)
    ensures Strip(s) != "" ==> !IsSpace(Strip(s)[|Strip(s)| - 1])
  {
    RStripEnd(LStrip(s));
  }

  lemma {:induction false} RStripEnd(s: string)
    ensures RStrip(s) != "" ==> !IsSpace(RStrip(s)[|RStrip(s)| - 1])
  {
    if s != "" && IsSpace(s[|s| - 1]) { RStripEnd(s[..|s| - 1]); }
  }

  /** `s.strip()` is false exactly for a text of white space. */
  lemma StripEmpty(s: string)
    ensures Strip(s) == "" <==> Blank(s)
  {
    StripInk(s);
    StripEnds(s);
    NoInkIsBlank(s);
    NoInkIsBlank(Strip(s));
  }
}
