/**
 * The parser step of the inline-items processor: a rich-text value becomes an
 * ordered sequence of literal text runs and inline-item markers.
 *
 * Only the marker form the delivery API emits is recognised:
 *   <object type="application/kenticocloud" data-type="item" data-codename="X"></object>
 * The codename runs up to the first double quote. After it the closing tag
 * `></object` is dropped, and then a final `>` if there is one, so a marker whose
 * closing tag lacks its last `>` is still a marker. Everything else is literal text.
 */
module Markup {
  import opened Wrappers
  import opened Content

  datatype Segment = Text(text: string) | Marker(codename: Codename)

  const ObjectTag: string := "object"
  const TypeAttribute: string := " type=\"application/kenticocloud\""
  const DataTypeAttribute: string := " data-type=\"item\""
  const CodenameAttribute: string := " data-codename=\""

  /** The opening of an inline content-item marker, up to the codename. */
  const MarkerOpen: string := "<" + ObjectTag + TypeAttribute + DataTypeAttribute + CodenameAttribute

  /** The end of a marker after the codename's closing quote, without its last `>`. */
  const CloseTag: string := "></object"

  predicate IsPrefix(p: string, s: string) {
    |p| <= |s| && s[..|p|] == p
  }

  /** The canonical text of the marker for codename `c`. */
  function MarkerText(c: Codename): string {
    MarkerOpen + c + "\"" + CloseTag + ">"
  }

  /** Index of the first double quote in `s`. */
  function FirstQuote(s: string): (k: nat)
    requires '"' in s
    ensures k < |s| && s[k] == '"'
    ensures forall j :: 0 <= j < k ==> s[j] != '"'
  {
    if s[0] == '"' then 0
    else
      assert s == [s[0]] + s[1..];
      1 + FirstQuote(s[1..])
  }

  /** Drops what follows a codename's closing quote: `></object`, then one `>` if present. */
  function SkipCloseTag(s: string): (r: string)
    ensures |r| <= |s|
    ensures IsPrefix(CloseTag + ">", s) ==> r == s[|CloseTag| + 1..]
    ensures IsPrefix(CloseTag, s) && !IsPrefix(CloseTag + ">", s) ==> r == s[|CloseTag|..]
    ensures !IsPrefix(CloseTag, s) ==> r == s
  {
    if IsPrefix(CloseTag, s) then
      var t := s[|CloseTag|..];
      if t != [] && t[0] == '>' then t[1..] else t
    else s
  }

  /** Adds literal text `t` in front of `segs`, merging it into a leading text run. */
  function PrependText(t: string, segs: seq<Segment>): (r: seq<Segment>)
    requires t != []
    requires Normal(segs)
    ensures Normal(r) && r != [] && r[0].Text?
    ensures Codenames(r) == Codenames(segs)
  {
    if segs != [] && segs[0].Text? then
      var r := [Text(t + segs[0].text)] + segs[1..];
      assert r[1..] == segs[1..];
      r
    else
      var r := [Text(t)] + segs;
      assert r[1..] == segs;
      r
  }

  /** Recognises a marker at the start of `s`: its codename and the text after it. */
  function MatchMarker(s: string): (m: Option<(Codename, string)>)
    ensures m.Some? ==> |m.value.1| < |s| && '"' !in m.value.0
    ensures !IsPrefix(MarkerOpen, s) ==> m.None?
  {
    if IsPrefix(MarkerOpen, s) && '"' in s[|MarkerOpen|..] then
      var body := s[|MarkerOpen|..];
      var k := FirstQuote(body);
      Some((body[..k], SkipCloseTag(body[k + 1..])))
    else None
  }

  /** Splits a rich-text value into text runs and markers, in document order. */
  function Parse(s: string): (segs: seq<Segment>)
    ensures Normal(segs)
    ensures forall c :: c in Codenames(segs) ==> '"' !in c
    decreases |s|
  {
    if s == [] then []
    else
      match MatchMarker(s)
      case Some((c, after)) =>
        var rest := Parse(after);
        var r := [Marker(c)] + rest;
        assert r[1..] == rest;
        r
      case None =>
        PrependText([s[0]], Parse(s[1..]))
  }

  /** Text runs are never empty and never adjacent: the shape Parse produces. */
  ghost predicate Normal(segs: seq<Segment>) {
    && (forall i :: 0 <= i < |segs| && segs[i].Text? ==> segs[i].text != [])
    && (forall i :: 0 < i < |segs| && segs[i].Text? ==> segs[i - 1].Marker?)
  }

  /** The codenames of the markers in `segs`. */
  function Codenames(segs: seq<Segment>): (cs: set<Codename>)
    ensures forall i :: 0 <= i < |segs| && segs[i].Marker? ==> segs[i].codename in cs
    ensures forall c :: c in cs ==> exists i :: 0 <= i < |segs| && segs[i] == Marker(c)
  {
    if segs == [] then {}
    else
      var cs := Codenames(segs[1..]);
      assert forall i :: 1 <= i < |segs| ==> segs[i] == segs[1..][i - 1];
      if segs[0].Marker? then {segs[0].codename} + cs else cs
  }

  /** The literal text of `segs` with every marker removed. */
  function LiteralText(segs: seq<Segment>): (r: string) {
    if segs == [] then []
    else (if segs[0].Text? then segs[0].text else []) + LiteralText(segs[1..])
  }

  /** Writes `segs` back out with every marker in its canonical form. */
  function Serialize(segs: seq<Segment>): (r: string) {
    if segs == [] then []
    else
      (match segs[0]
         case Text(t) => t
         case Marker(c) => MarkerText(c))
      + Serialize(segs[1..])
  }

  /** No marker opening occurs anywhere in `t`. */
  ghost predicate Plain(t: string) {
    forall i :: 0 <= i < |t| ==> !IsPrefix(MarkerOpen, t[i..])
  }

  /** Segments that Serialize writes out faithfully: normal, with plain text runs
      and codenames without a double quote. */
  ghost predicate Serializable(segs: seq<Segment>) {
    && Normal(segs)
    && (forall i :: 0 <= i < |segs| && segs[i].Text? ==> Plain(segs[i].text))
    && (forall i :: 0 <= i < |segs| && segs[i].Marker? ==> '"' !in segs[i].codename)
  }

  lemma PrependTextAssoc(a: string, b: string, segs: seq<Segment>)
    requires a != [] && b != [] && Normal(segs)
    ensures PrependText(a, PrependText(b, segs)) == PrependText(a + b, segs)
  {
    if segs != [] && segs[0].Text? {
      assert a + (b + segs[0].text) == (a + b) + segs[0].text;
    }
  }

  /** The marker opening has `<` only as its first character. */
  lemma MarkerOpenHasOneAngle()
    ensures forall k :: 0 < k < |MarkerOpen| ==> MarkerOpen[k] != '<'
  {
    var attributes := ObjectTag + TypeAttribute + DataTypeAttribute + CodenameAttribute;
    AttributesHaveNoAngle();
    assert MarkerOpen == "<" + attributes;
    forall k | 0 < k < |MarkerOpen| ensures MarkerOpen[k] != '<' {
      assert MarkerOpen[k] == attributes[k - 1];
    }
  }

  /** Everything after the opening `<` of a marker is free of `<`. */
  lemma AttributesHaveNoAngle()
    ensures NoAngle(ObjectTag + TypeAttribute + DataTypeAttribute + CodenameAttribute)
  {
    assert NoAngle(ObjectTag) && NoAngle(TypeAttribute);
    assert NoAngle(DataTypeAttribute) && NoAngle(CodenameAttribute);
    NoAngleConcat(ObjectTag, TypeAttribute);
    NoAngleConcat(ObjectTag + TypeAttribute, DataTypeAttribute);
    NoAngleConcat(ObjectTag + TypeAttribute + DataTypeAttribute, CodenameAttribute);
  }

  lemma NoAngleConcat(a: string, b: string)
    requires NoAngle(a) && NoAngle(b)
    ensures NoAngle(a + b)
  {
    forall k | 0 <= k < |a + b| ensures (a + b)[k] != '<' {
      if k < |a| {
        assert (a + b)[k] == a[k];
      } else {
        assert (a + b)[k] == b[k - |a|];
      }
    }
  }

  predicate NoAngle(s: string) {
    forall k :: 0 <= k < |s| ==> s[k] != '<'
  }

  /** A plain text run followed by nothing or by something that starts with `<`
      holds no marker opening, not even one that straddles the boundary. */
  lemma PlainBeforeAngle(t: string, r: string)
    requires Plain(t)
    requires r == [] || r[0] == '<'
    ensures NoMarkerStart(t, r)
  {
    forall i | 0 <= i < |t| ensures !IsPrefix(MarkerOpen, t[i..] + r) {
      var u := t[i..];
      if |u| < |MarkerOpen| && |MarkerOpen| <= |u + r| {
        MarkerOpenHasOneAngle();
        assert (u + r)[..|MarkerOpen|][|u|] == r[0];
      } else if |MarkerOpen| <= |u| {
        assert (u + r)[..|MarkerOpen|] == u[..|MarkerOpen|];
      }
    }
  }

  /** No marker opening starts inside `t` when `r` follows it. */
  ghost predicate NoMarkerStart(t: string, r: string) {
    forall i :: 0 <= i < |t| ==> !IsPrefix(MarkerOpen, t[i..] + r)
  }

  lemma NoMarkerStartTail(t: string, r: string)
    requires t != [] && NoMarkerStart(t, r)
    ensures !IsPrefix(MarkerOpen, t + r)
    ensures NoMarkerStart(t[1..], r)
  {
    assert t[0..] == t;
    forall i | 0 <= i < |t[1..]| ensures !IsPrefix(MarkerOpen, t[1..][i..] + r) {
      assert t[1..][i..] == t[i + 1..];
    }
  }

  /** Where no marker opens, the first character is literal text. */
  lemma ParseLiteralStep(s: string)
    requires s != [] && !IsPrefix(MarkerOpen, s)
    ensures Parse(s) == PrependText([s[0]], Parse(s[1..]))
  {
  }

  /** Literal text that holds no marker opening is one text run in front of
      whatever follows it. */
  lemma {:induction false} ParseText(t: string, r: string)
    requires t != [] && NoMarkerStart(t, r)
    ensures Parse(t + r) == PrependText(t, Parse(r))
    decreases |t|
  {
    NoMarkerStartTail(t, r);
    ParseLiteralStep(t + r);
    assert (t + r)[1..] == t[1..] + r;
    if |t| == 1 {
      assert [t[0]] == t && t[1..] == [];
    } else {
      ParseText(t[1..], r);
      PrependTextAssoc([t[0]], t[1..], Parse(r));
      assert [t[0]] + t[1..] == t;
    }
  }

  lemma FirstQuoteAfter(c: string, x: string)
    requires '"' !in c
    ensures '"' in c + "\"" + x && FirstQuote(c + "\"" + x) == |c|
  {
    var body := c + "\"" + x;
    assert body[|c|] == '"';
  }

  lemma SkipCloseTagBefore(closer: string, r: string)
    requires closer == CloseTag || closer == CloseTag + ">"
    requires closer == CloseTag ==> r == [] || r[0] != '>'
    ensures SkipCloseTag(closer + r) == r
  {
    var after := closer + r;
    assert after[..|CloseTag|] == CloseTag;
    if closer == CloseTag + ">" {
      assert after[..|CloseTag| + 1] == CloseTag + ">";
    } else {
      assert after[|CloseTag|..] == r;
    }
  }

  /** A canonical or tolerant marker (its closing tag with or without the final `>`)
      is recognised with its codename, and what follows it is what remains. */
  lemma MatchMarkerText(c: Codename, closer: string, r: string)
    requires '"' !in c
    requires closer == CloseTag || closer == CloseTag + ">"
    requires closer == CloseTag ==> r == [] || r[0] != '>'
    ensures MatchMarker(MarkerOpen + c + "\"" + closer + r) == Some((c, r))
  {
    var x := closer + r;
    var body := c + "\"" + x;
    var s := MarkerOpen + c + "\"" + closer + r;
    assert s == MarkerOpen + body;
    assert s[..|MarkerOpen|] == MarkerOpen;
    assert s[|MarkerOpen|..] == body;
    FirstQuoteAfter(c, x);
    assert body[..|c|] == c;
    assert body[|c| + 1..] == x;
    SkipCloseTagBefore(closer, r);
  }

  lemma SerializableTail(segs: seq<Segment>)
    requires Serializable(segs) && segs != []
    ensures Serializable(segs[1..])
    ensures segs[0].Text? && segs[1..] != [] ==> Serialize(segs[1..])[0] == '<'
  {
    var rest := segs[1..];
    forall i | 0 <= i < |rest| ensures rest[i] == segs[i + 1] { }
    forall i | 0 < i < |rest| && rest[i].Text? ensures rest[i - 1].Marker? {
      assert rest[i] == segs[i + 1] && rest[i - 1] == segs[i];
    }
    if segs[0].Text? && rest != [] {
      assert rest[0] == segs[1];
      assert rest[0].Marker?;
      assert Serialize(rest) == MarkerText(rest[0].codename) + Serialize(rest[1..]);
    }
  }

  /** Round trip: parsing the serialized form of well-formed segments gives them back. */
  lemma {:induction false} ParseSerialize(segs: seq<Segment>)
    requires Serializable(segs)
    ensures Parse(Serialize(segs)) == segs
    decreases |segs|
  {
    if segs != [] {
      var rest := segs[1..];
      SerializableTail(segs);
      ParseSerialize(rest);
      var tail := Serialize(rest);
      match segs[0]
      case Text(t) =>
        PlainBeforeAngle(t, tail);
        ParseText(t, tail);
      case Marker(c) =>
        var s := MarkerOpen + c + "\"" + (CloseTag + ">") + tail;
        assert Serialize(segs) == s;
        MatchMarkerText(c, CloseTag + ">", tail);
    }
  }

  /** A value of one plain text run and one marker, possibly written with the
      tolerant closing tag, parses to exactly that run and that marker. */
  lemma ParseTextThenMarker(t: string, c: Codename, closer: string)
    requires t != [] && Plain(t) && '"' !in c
    requires closer == CloseTag || closer == CloseTag + ">"
    ensures Parse(t + MarkerOpen + c + "\"" + closer) == [Text(t), Marker(c)]
  {
    var m := MarkerOpen + c + "\"" + closer;
    assert t + MarkerOpen + c + "\"" + closer == t + m;
    assert m[0] == '<';
    PlainBeforeAngle(t, m);
    ParseText(t, m);
    assert m + [] == m;
    MatchMarkerText(c, closer, []);
  }
}
