/**
 `talosctl get -o json` prints one JSON object after another, with nothing but whitespace between
 them. The parser decodes them one at a time and stops at the first thing that is not JSON.

 The JSON decoder is a parameter. What is needed of it: a decoded value ends after it starts, and an
 object's text ends where its brace closes, so that what follows does not matter.
 */
module TalosStream {
  import opened Wrappers

  /** A decoded JSON value; only objects are kept. */
  datatype Value<D> = Object(doc: D) | Other

  type RawDecode<!D> = (string, nat) -> Option<(Value<D>, nat)>

  ghost predicate Advances<D>(decode: RawDecode<D>) {
    forall text: string, idx: nat :: idx < |text| && decode(text, idx).Some? ==>
        idx < decode(text, idx).value.1 <= |text|
  }

  /** The text of an object: in braces, and decoded to the object wherever it stands. */
  ghost predicate SelfDelimiting<D(!new)>(decode: RawDecode<D>, render: D -> string) {
    forall d :: Rendered(decode, d, render(d))
  }

  ghost predicate Rendered<D(!new)>(decode: RawDecode<D>, d: D, text: string) {
    && |text| >= 2 && text[0] == '{' && text[|text| - 1] == '}'
    && forall before: string, after: string ::
         decode(before + text + after, |before|) == Some((Object(d), |before| + |text|))
  }

  /** The whitespace of section 2 of RFC 8259. */
  predicate IsBlank(c: char) {
    c == ' ' || c == '\t' || c == '\r' || c == '\n'
  }

  /** What `str.strip` removes. */
  predicate IsSpace(c: char) {
    || IsBlank(c)
    || c in "\U{000B}\U{000C}\U{001C}\U{001D}\U{001E}\U{001F}\U{0085}\U{00A0}"
    || c in "\U{1680}\U{2028}\U{2029}\U{202F}\U{205F}\U{3000}"
    || '\U{2000}' <= c <= '\U{200A}'
  }

  ghost predicate AllBlank(s: string) {
    forall i :: 0 <= i < |s| ==> s[i] in " \t\r\n"
  }

  function LeftStrip(s: string): string {
    if s != [] && IsSpace(s[0]) then LeftStrip(s[1..]) else s
  }

  function RightStrip(s: string): string {
    if s != [] && IsSpace(s[|s| - 1]) then RightStrip(s[..|s| - 1]) else s
  }

  function Strip(s: string): string {
    RightStrip(LeftStrip(s))
  }

  // ---------------------------------------------------------------- the parser

  function SkipBlanks(text: string, idx: nat): (r: nat)
    requires idx <= |text|
    ensures idx <= r <= |text|
    decreases |text| - idx
  {
    if idx < |text| && IsBlank(text[idx]) then SkipBlanks(text, idx + 1) else idx
  }

  /** The objects from `idx` on, up to the first thing that does not decode. */
  ghost function ParseFrom<D>(decode: RawDecode<D>, text: string, idx: nat): seq<D>
    requires Advances(decode) && idx <= |text|
    decreases |text| - idx
  {
    if idx == |text| || decode(text, idx) == None then []
    else
      var (value, end) := decode(text, idx).value;
      (if value.Object? then [value.doc] else []) + ParseFrom(decode, text, SkipBlanks(text, end))
  }

  method SkipWhitespace(text: string, start: nat) returns (idx: nat)
    requires start <= |text|
    ensures idx == SkipBlanks(text, start)
  {
    idx := start;
    while idx < |text| && IsBlank(text[idx])
      invariant start <= idx <= |text| && SkipBlanks(text, idx) == SkipBlanks(text, start)
    {
      idx := idx + 1;
    }
  }

  method ParseResourceStream<D>(decode: RawDecode<D>, stdout: string) returns (docs: seq<D>)
    requires Advances(decode)
    ensures docs == ParseFrom(decode, Strip(stdout), 0)
  {
    hide Strip, SkipBlanks;
    docs := [];
    var text := Strip(stdout);
    var idx := 0;
    ghost var all := ParseFrom(decode, text, 0);
    while idx < |text|
      invariant idx <= |text|
      invariant docs + ParseFrom(decode, text, idx) == all
      decreases |text| - idx
    {
      var decoded := decode(text, idx);
      if decoded == None {
        assert docs + [] == docs;
        return;
      }
      var (value, end) := decoded.value;
      ghost var rest := ParseFrom(decode, text, SkipBlanks(text, end));
      if value.Object? {
        assert docs + ([value.doc] + rest) == docs + [value.doc] + rest;
        docs := docs + [value.doc];
      } else {
        assert docs + ([] + rest) == docs + rest;
      }
      idx := SkipWhitespace(text, end);
    }
    assert docs + [] == docs;
  }

  // ---------------------------------------------------------------- printing

  /** The objects one after another, each followed by its gap. */
  function Printed<D>(render: D -> string, docs: seq<D>, gaps: seq<string>): string
    requires |gaps| == |docs|
  {
    if docs == [] then [] else render(docs[0]) + gaps[0] + Printed(render, docs[1..], gaps[1..])
  }

  ghost predicate Gaps(gaps: seq<string>) {
    forall i :: 0 <= i < |gaps| ==> AllBlank(gaps[i])
  }

  lemma {:induction false} SkipGap(before: string, gap: string, after: string)
    requires AllBlank(gap) && (after == [] || !IsBlank(after[0]))
    ensures SkipBlanks(before + gap + after, |before|) == |before + gap|
    decreases gap
  {
    if gap == [] {
      assert before + gap + after == before + after;
    } else {
      var text := before + gap + after;
      assert text[|before|] == gap[0];
      assert text == (before + [gap[0]]) + gap[1..] + after;
      SkipGap(before + [gap[0]], gap[1..], after);
    }
  }

  /** From the start of a printed list, the parser finds exactly its objects, and then whatever it makes of the tail. */
  lemma {:induction false} ParsePrinted<D(!new)>(decode: RawDecode<D>, render: D -> string, before: string,
      docs: seq<D>, gaps: seq<string>, tail: string)
    requires Advances(decode) && SelfDelimiting(decode, render)
    requires |gaps| == |docs| && Gaps(gaps) && (tail == [] || !IsBlank(tail[0]))
    ensures var text := before + Printed(render, docs, gaps) + tail;
            ParseFrom(decode, text, |before|) == docs + ParseFrom(decode, text, |before + Printed(render, docs, gaps)|)
    decreases docs
  {
    hide SelfDelimiting, ParseFrom, Advances, Gaps, IsBlank;
    var text := before + Printed(render, docs, gaps) + tail;
    if docs == [] {
      assert before + Printed(render, docs, gaps) == before;
    } else {
      var next, rest := before + render(docs[0]) + gaps[0], Printed(render, docs[1..], gaps[1..]);
      FirstPrinted(decode, render, before, docs, gaps, tail);
      GapsTail(gaps);
      ParsePrinted(decode, render, next, docs[1..], gaps[1..], tail);
      var end := ParseFrom(decode, text, |next + rest|);
      assert [docs[0]] + (docs[1..] + end) == docs + end;
    }
  }

  /** The first object and its gap are read, and the rest of the text is again a printed list. */
  lemma FirstPrinted<D(!new)>(decode: RawDecode<D>, render: D -> string, before: string, docs: seq<D>,
      gaps: seq<string>, tail: string)
    requires Advances(decode) && SelfDelimiting(decode, render)
    requires |gaps| == |docs| > 0 && Gaps(gaps) && (tail == [] || !IsBlank(tail[0]))
    ensures var text, next := before + Printed(render, docs, gaps) + tail, before + render(docs[0]) + gaps[0];
            && before + Printed(render, docs, gaps) == next + Printed(render, docs[1..], gaps[1..])
            && ParseFrom(decode, text, |before|) == [docs[0]] + ParseFrom(decode, text, |next|)
  {
    hide SelfDelimiting, ParseFrom, SkipBlanks, Advances, Gaps, AllBlank, Printed;
    var doc, gap, rest := render(docs[0]), gaps[0], Printed(render, docs[1..], gaps[1..]);
    var after, text := rest + tail, before + Printed(render, docs, gaps) + tail;
    GapsTail(gaps);
    PrintedHead(render, docs, gaps);
    Regroup(before, doc, gap, rest, tail);
    ParseOne(decode, render, before, docs[0], gap + after);
    StartsSolid(decode, render, docs[1..], gaps[1..], tail);
    SkipGap(before + doc, gap, after);
  }

  lemma PrintedHead<D>(render: D -> string, docs: seq<D>, gaps: seq<string>)
    requires |gaps| == |docs| > 0
    ensures Printed(render, docs, gaps) == render(docs[0]) + gaps[0] + Printed(render, docs[1..], gaps[1..])
  {
  }

  lemma Regroup(before: string, doc: string, gap: string, rest: string, tail: string)
    ensures before + (doc + gap + rest) + tail == before + doc + (gap + (rest + tail))
    ensures before + (doc + gap + rest) + tail == (before + doc) + gap + (rest + tail)
    ensures before + (doc + gap + rest) == before + doc + gap + rest
  {
  }

  lemma GapsTail(gaps: seq<string>)
    requires Gaps(gaps) && gaps != []
    ensures AllBlank(gaps[0]) && Gaps(gaps[1..])
  {
  }

  lemma ParseOne<D(!new)>(decode: RawDecode<D>, render: D -> string, before: string, d: D, after: string)
    requires Advances(decode) && SelfDelimiting(decode, render)
    ensures var text, end := before + render(d) + after, |before + render(d)|;
            ParseFrom(decode, text, |before|) == [d] + ParseFrom(decode, text, SkipBlanks(text, end))
  {
    assert Rendered(decode, d, render(d));
  }

  lemma StartsSolid<D(!new)>(decode: RawDecode<D>, render: D -> string, docs: seq<D>, gaps: seq<string>, tail: string)
    requires SelfDelimiting(decode, render) && |gaps| == |docs|
    ensures var s := Printed(render, docs, gaps) + tail; s == tail || (s != [] && s[0] == '{')
  {
    if docs != [] {
      assert Rendered(decode, docs[0], render(docs[0]));
    }
  }

  /** A value that is no object is passed over, and what follows it is read as if it had not been there. */
  lemma OtherValuesAreSkipped<D(!new)>(decode: RawDecode<D>, text: string, idx: nat, end: nat)
    requires Advances(decode) && idx < |text| && decode(text, idx) == Some((Other, end))
    ensures end <= |text| && ParseFrom(decode, text, idx) == ParseFrom(decode, text, SkipBlanks(text, end))
  {
  }

  // ---------------------------------------------------------------- stripping

  lemma {:induction false} LeftStripGap(gap: string, s: string)
    requires AllBlank(gap) && (s == [] || !IsSpace(s[0]))
    ensures LeftStrip(gap + s) == s
  {
    if gap == [] {
      assert gap + s == s;
    } else {
      assert (gap + s)[1..] == gap[1..] + s;
      LeftStripGap(gap[1..], s);
    }
  }

  lemma {:induction false} RightStripGap(s: string, gap: string)
    requires AllBlank(gap) && (s == [] || !IsSpace(s[|s| - 1]))
    ensures RightStrip(s + gap) == s
  {
    if gap == [] {
      assert s + gap == s;
    } else {
      assert (s + gap)[..|s + gap| - 1] == s + gap[..|gap| - 1];
      RightStripGap(s, gap[..|gap| - 1]);
    }
  }

  lemma {:induction false} RightStripTail(s: string, tail: string)
    requires tail != [] && !IsSpace(tail[0])
    ensures RightStrip(s + tail) == s + RightStrip(tail)
    ensures RightStrip(tail) != [] && RightStrip(tail)[0] == tail[0]
  {
    if IsSpace(tail[|tail| - 1]) {
      assert (s + tail)[..|s + tail| - 1] == s + tail[..|tail| - 1];
      RightStripTail(s, tail[..|tail| - 1]);
    }
  }

  /** Stripping takes whitespace off both ends, all of it and nothing else. */
  lemma {:induction false} StripSays(s: string) returns (lead: string, trail: string)
    ensures s == lead + Strip(s) + trail
    ensures forall i :: 0 <= i < |lead| ==> IsSpace(lead[i])
    ensures forall i :: 0 <= i < |trail| ==> IsSpace(trail[i])
    ensures Strip(s) != [] ==> !IsSpace(Strip(s)[0]) && !IsSpace(Strip(s)[|Strip(s)| - 1])
  {
    hide IsSpace;
    lead := LeftStripSays(s);
    trail := RightStripSays(LeftStrip(s));
  }

  lemma {:induction false} LeftStripSays(s: string) returns (lead: string)
    ensures s == lead + LeftStrip(s) && forall i :: 0 <= i < |lead| ==> IsSpace(lead[i])
    ensures LeftStrip(s) != [] ==> !IsSpace(LeftStrip(s)[0])
  {
    hide IsSpace;
    lead := [];
    if s != [] && IsSpace(s[0]) {
      lead := LeftStripSays(s[1..]);
      lead := [s[0]] + lead;
      assert s == [s[0]] + s[1..];
    }
  }

  lemma {:induction false} RightStripSays(s: string) returns (trail: string)
    ensures s == RightStrip(s) + trail && forall i :: 0 <= i < |trail| ==> IsSpace(trail[i])
    ensures RightStrip(s) != [] ==> RightStrip(s)[0] == s[0] && !IsSpace(RightStrip(s)[|RightStrip(s)| - 1])
  {
    hide IsSpace;
    trail := [];
    if s != [] && IsSpace(s[|s| - 1]) {
      trail := RightStripSays(s[..|s| - 1]);
      trail := trail + [s[|s| - 1]];
      assert s == s[..|s| - 1] + [s[|s| - 1]];
    }
  }

  // ---------------------------------------------------------------- round trip

  /** Taking the last gap off a printed list. */
  lemma {:induction false} PrintedThenGap<D>(render: D -> string, docs: seq<D>, gaps: seq<string>)
    requires docs != [] && |gaps| == |docs|
    ensures Printed(render, docs, gaps) == Printed(render, docs, gaps[|gaps| - 1 := []]) + gaps[|gaps| - 1]
  {
    var last := |gaps| - 1;
    if last > 0 {
      PrintedThenGap(render, docs[1..], gaps[1..]);
      assert gaps[last := []][1..] == gaps[1..][last - 1 := []];
    } else {
      assert docs[1..] == [] && gaps[1..] == [];
    }
  }

  lemma {:induction false} PrintedEndsInBrace<D(!new)>(decode: RawDecode<D>, render: D -> string, docs: seq<D>,
      gaps: seq<string>)
    requires SelfDelimiting(decode, render) && docs != [] && |gaps| == |docs| && gaps[|gaps| - 1] == []
    ensures var s := Printed(render, docs, gaps); s != [] && s[0] == '{' && s[|s| - 1] == '}'
  {
    assert Rendered(decode, docs[0], render(docs[0]));
    if |docs| > 1 {
      PrintedEndsInBrace(decode, render, docs[1..], gaps[1..]);
    } else {
      assert docs[1..] == [] && gaps[1..] == [];
    }
  }

  /** Any list of objects, printed with any whitespace around and between them, parses back to itself in order. */
  lemma {:induction false} RoundTrip<D(!new)>(decode: RawDecode<D>, render: D -> string, lead: string, docs: seq<D>,
      gaps: seq<string>)
    requires Advances(decode) && SelfDelimiting(decode, render)
    requires AllBlank(lead) && |gaps| == |docs| && Gaps(gaps)
    ensures ParseFrom(decode, Strip(lead + Printed(render, docs, gaps)), 0) == docs
  {
    hide ParseFrom, Printed, SelfDelimiting, Rendered, LeftStrip, RightStrip;
    if docs == [] {
      NothingPrinted(render, gaps);
      LeftStripGap(lead, "");
      RightStripGap("", "");
      assert "" + "" == "";
      assert lead + Printed(render, docs, gaps) == lead + "";
      ParseNothing(decode, "");
    } else {
      var last := |gaps| - 1;
      var inner := gaps[last := []];
      var body := Printed(render, docs, inner);
      PrintedThenGap(render, docs, gaps);
      PrintedEndsInBrace(decode, render, docs, inner);
      assert lead + Printed(render, docs, gaps) == lead + (body + gaps[last]);
      LeftStripGap(lead, body + gaps[last]);
      RightStripGap(body, gaps[last]);
      ParsePrinted(decode, render, [], docs, inner, []);
      assert [] + body == [] + body + [] == body;
      ParseNothing(decode, body);
      assert docs + [] == docs;
    }
  }

  lemma ParseNothing<D(!new)>(decode: RawDecode<D>, text: string)
    requires Advances(decode)
    ensures ParseFrom(decode, text, |text|) == []
  {
  }

  lemma NothingPrinted<D>(render: D -> string, gaps: seq<string>)
    requires gaps == []
    ensures Printed(render, [], gaps) == []
  {
  }

  /** A malformed tail costs nothing before it: the objects printed ahead of it are returned, and only those. */
  lemma {:induction false} MalformedTail<D(!new)>(decode: RawDecode<D>, render: D -> string, lead: string,
      docs: seq<D>, gaps: seq<string>, tail: string)
    requires Advances(decode) && SelfDelimiting(decode, render)
    requires AllBlank(lead) && |gaps| == |docs| && Gaps(gaps)
    requires tail != [] && !IsSpace(tail[0])
    requires decode(Printed(render, docs, gaps) + RightStrip(tail), |Printed(render, docs, gaps)|) == None
    ensures ParseFrom(decode, Strip(lead + Printed(render, docs, gaps) + tail), 0) == docs
  {
    hide ParseFrom, Printed, SelfDelimiting, LeftStrip, RightStrip, Advances, Gaps, AllBlank;
    StartsSolid(decode, render, docs, gaps, tail);
    var body := Printed(render, docs, gaps);
    assert lead + body + tail == lead + (body + tail);
    LeftStripGap(lead, body + tail);
    RightStripTail(body, tail);
    ParsePrinted(decode, render, [], docs, gaps, RightStrip(tail));
    assert [] + body == body;
    ParseFailed(decode, body + RightStrip(tail), |body|);
    assert docs + [] == docs;
  }

  lemma ParseFailed<D(!new)>(decode: RawDecode<D>, text: string, idx: nat)
    requires Advances(decode) && idx <= |text| && decode(text, idx) == None
    ensures ParseFrom(decode, text, idx) == []
  {
  }
}
