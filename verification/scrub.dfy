/**
 Transcript scrubbing: before a wire transcript is logged, the text of every
 `<CardNum>` and `<CVV2>` element is replaced by `[FILTERED]`. Everything
 else, including the other tags, their text, indentation and line breaks,
 is left exactly as it was.
 */
module Scrubber {
  import opened Text
  import opened Xml
  import opened ReplyParser

  const Redacted: string := "[FILTERED]"

  /** The tags whose text must never reach a log, in the order they are checked. */
  const SensitiveTags: seq<string> := ["CardNum", "CVV2"]

  predicate Sensitive(t: string) {
    t in SensitiveTags
  }

  /** The element `<t>` with its text replaced by the redaction marker. */
  function Masked(t: string): string {
    Render(Element(t, Redacted))
  }

  /** Where the element `<t>text</t>` that starts `s` ends, if one does. */
  function ElementEnd(s: string, t: string): (r: Option<nat>)
    ensures r.Some? ==> |Open(t)| <= r.value <= |s|
  {
    if !IsPrefix(Open(t), s) then None
    else
      var body := s[|Open(t)|..];
      var k := Until(body, '<');
      if IsPrefix(Close(t), body[k..]) then Some(|Open(t)| + k + |Close(t)|) else None
  }

  /** The first sensitive tag, in `tags` order, whose element starts `s`, with its end. */
  function SensitiveAt(s: string, tags: seq<string>): (r: Option<(string, nat)>)
    ensures r.Some? ==> r.value.0 in tags && ElementEnd(s, r.value.0) == Some(r.value.1)
    ensures r.None? ==> forall i :: 0 <= i < |tags| ==> ElementEnd(s, tags[i]).None?
  {
    if |tags| == 0 then None
    else match ElementEnd(s, tags[0])
      case Some(end) => Some((tags[0], end))
      case None => SensitiveAt(s, tags[1..])
  }

  /**
   Replaces the text of every sensitive element in `s` by the redaction
   marker. Text without markup passes through unchanged; what it does to
   elements is stated by `ScrubLayout` and `ScrubIdempotent` below.
   */
  function Scrub(s: string): (r: string)
    ensures Free(s, '<') ==> r == s
    decreases |s|
  {
    if |s| == 0 then []
    else match SensitiveAt(s, SensitiveTags)
      case Some((t, end)) => Masked(t) + Scrub(s[end..])
      case None => [s[0]] + Scrub(s[1..])
  }

  // ---------------------------------------------------------------------------
  // Recognising elements

  /** The element `<t>x</t>` is recognised whatever follows it. */
  lemma {:induction false} ElementEndOf(t: string, x: string, rest: string)
    requires Free(x, '<')
    ensures ElementEnd(Open(t) + x + Close(t) + rest, t) == Some(|Open(t)| + |x| + |Close(t)|)
  {
    var s := Open(t) + x + Close(t) + rest;
    assert s[..|Open(t)|] == Open(t);
    var body := s[|Open(t)|..];
    assert body == x + (Close(t) + rest);
    UntilOfFreePrefix(x, Close(t) + rest, '<');
    assert Until(Close(t) + rest, '<') == 0;
    assert body[|x|..] == Close(t) + rest;
    assert (Close(t) + rest)[..|Close(t)|] == Close(t);
  }

  /** A recognised element is `<t>`, then text without `<`, then `</t>`. */
  lemma {:induction false} ElementEndParts(s: string, t: string)
    requires ElementEnd(s, t).Some?
    ensures exists x, y :: Free(x, '<') && s == Open(t) + x + Close(t) + y
  {
    var body := s[|Open(t)|..];
    var k := Until(body, '<');
    var x, y := body[..k], body[k..][|Close(t)|..];
    PrefixSplit(Open(t), s);
    assert body == x + body[k..];
    PrefixSplit(Close(t), body[k..]);
    assert s == Open(t) + (x + (Close(t) + y));
    Regroup3(Open(t), x, Close(t), y);
  }

  /** Two different tag names never open the same way. */
  lemma {:induction false} OpenDiffers(t: string, u: string, rest: string)
    requires ValidName(t) && ValidName(u) && t != u
    ensures !IsPrefix(Open(t), Open(u) + rest)
  {
    var s := Open(u) + rest;
    if |t| < |u| {
      assert s[|t| + 1] == u[|t|] != '>';
      assert Open(t)[|t| + 1] == '>';
    } else if |t| > |u| {
      assert s[|u| + 1] == '>';
      assert Open(t)[|u| + 1] == t[|u|] != '>';
    } else {
      var i :| 0 <= i < |t| && t[i] != u[i];
      assert Open(t)[i + 1] == t[i] && s[i + 1] == u[i];
    }
  }

  lemma {:induction false} SensitiveTagsValid()
    ensures forall i :: 0 <= i < |SensitiveTags| ==> ValidName(SensitiveTags[i])
  {
    assert ValidName("CardNum") && ValidName("CVV2");
  }

  /** No sensitive element starts at a tag with another name. */
  lemma {:induction false} NoSensitiveAtOther(u: string, rest: string)
    requires ValidName(u) && !Sensitive(u)
    ensures SensitiveAt(Open(u) + rest, SensitiveTags).None?
  {
    SensitiveTagsValid();
    OpenDiffers("CardNum", u, rest);
    OpenDiffers("CVV2", u, rest);
  }

  /** No sensitive element starts at a closing tag. */
  lemma {:induction false} NoSensitiveAtClose(u: string, rest: string)
    ensures SensitiveAt(Close(u) + rest, SensitiveTags).None?
  {
    var s := Close(u) + rest;
    assert s[1] == '/';
    assert Open("CardNum")[1] == 'C' && Open("CVV2")[1] == 'C';
  }

  /** Nothing sensitive starts at a character other than `<`. */
  lemma {:induction false} NoSensitiveAtText(s: string)
    requires |s| > 0 && s[0] != '<'
    ensures SensitiveAt(s, SensitiveTags).None?
  {
    assert Open("CardNum")[0] == '<' && Open("CVV2")[0] == '<';
  }

  /** Where nothing sensitive starts, one character is copied and scrubbing moves on. */
  lemma {:induction false} ScrubKeepStep(c: char, x: string)
    requires SensitiveAt([c] + x, SensitiveTags).None?
    ensures Scrub([c] + x) == [c] + Scrub(x)
  {
    assert ([c] + x)[1..] == x;
  }

  lemma {:induction false} ConsSplit(a: string, x: string)
    requires |a| > 0
    ensures a + x == [a[0]] + (a[1..] + x)
  {
  }

  // ---------------------------------------------------------------------------
  // How scrubbing treats each piece of a transcript

  /** Text without `<` passes through unchanged. */
  lemma {:induction false} ScrubText(a: string, rest: string)
    requires Free(a, '<')
    ensures Scrub(a + rest) == a + Scrub(rest)
    decreases |a|
  {
    if |a| > 0 {
      ConsSplit(a, rest);
      NoSensitiveAtText(a + rest);
      ScrubKeepStep(a[0], a[1..] + rest);
      ScrubText(a[1..], rest);
      ConsSplit(a, Scrub(rest));
    } else {
      assert a + rest == rest;
    }
  }

  /** A closing tag passes through unchanged. */
  lemma {:induction false} ScrubClose(u: string, rest: string)
    requires ValidName(u)
    ensures Scrub(Close(u) + rest) == Close(u) + Scrub(rest)
  {
    ScrubCloseStep(u, rest);
    CloseFree(u);
    ScrubText("/" + u + ">", rest);
    CloseSplit(u, Scrub(rest));
  }

  lemma {:induction false} CloseFree(u: string)
    requires ValidName(u)
    ensures Free("/" + u + ">", '<')
  {
  }

  lemma {:induction false} CloseSplit(u: string, x: string)
    ensures ['<'] + ("/" + u + ">" + x) == Close(u) + x
  {
  }

  lemma {:induction false} ScrubCloseStep(u: string, rest: string)
    ensures Scrub(Close(u) + rest) == ['<'] + Scrub("/" + u + ">" + rest)
  {
    assert Close(u) + rest == ['<'] + ("/" + u + ">" + rest);
    NoSensitiveAtClose(u, rest);
    ScrubKeepStep('<', "/" + u + ">" + rest);
  }

  /** The text of a sensitive element is replaced by the marker. */
  lemma {:induction false} ScrubSensitive(e: Element, rest: string)
    requires Sensitive(e.name) && ValidText(e.text)
    ensures Scrub(Render(e) + rest) == Masked(e.name) + Scrub(rest)
  {
    var t := e.name;
    var s := Render(e) + rest;
    assert s == Open(t) + e.text + Close(t) + rest;
    ElementEndOf(t, e.text, rest);
    var end := |Open(t)| + |e.text| + |Close(t)|;
    if t == "CVV2" {
      OpenDiffers("CardNum", "CVV2", e.text + Close(t) + rest);
      assert s == Open("CVV2") + (e.text + Close(t) + rest);
    }
    assert SensitiveAt(s, SensitiveTags) == Some((t, end));
    assert s[end..] == rest;
  }

  /** An element that is not sensitive passes through unchanged. */
  lemma {:induction false} ScrubOther(e: Element, rest: string)
    requires Valid(e) && !Sensitive(e.name)
    ensures Scrub(Render(e) + rest) == Render(e) + Scrub(rest)
  {
    var u := e.name;
    var inner := u + ">" + e.text;
    var y := e.text + (Close(u) + rest);
    RenderSplit(e, rest);
    ScrubOpenStep(u, y);
    Regroup(u + ">", e.text, Close(u) + rest);
    assert Free(inner, '<');
    ScrubText(inner, Close(u) + rest);
    ScrubClose(u, rest);
    RenderJoin(e, Scrub(rest));
  }

  lemma {:induction false} Regroup(a: string, b: string, c: string)
    ensures a + (b + c) == (a + b) + c
  {
  }

  lemma {:induction false} RenderSplit(e: Element, rest: string)
    ensures Render(e) + rest == Open(e.name) + (e.text + (Close(e.name) + rest))
  {
  }

  lemma {:induction false} RenderJoin(e: Element, x: string)
    ensures ['<'] + ((e.name + ">" + e.text) + (Close(e.name) + x)) == Render(e) + x
  {
  }

  /** At a tag that is not sensitive only the `<` is copied before moving on. */
  lemma {:induction false} ScrubOpenStep(u: string, x: string)
    requires ValidName(u) && !Sensitive(u)
    ensures Scrub(Open(u) + x) == ['<'] + Scrub(u + ">" + x)
  {
    assert Open(u) + x == ['<'] + (u + ">" + x);
    NoSensitiveAtOther(u, x);
    ScrubKeepStep('<', u + ">" + x);
  }

  /** The element as it is logged: sensitive text replaced, anything else kept. */
  function Redact(e: Element): (r: Element)
    ensures r.name == e.name
    ensures Sensitive(e.name) ==> r.text == Redacted
    ensures !Sensitive(e.name) ==> r == e
  {
    if Sensitive(e.name) then Element(e.name, Redacted) else e
  }

  function RedactAll(es: seq<Element>): (r: seq<Element>)
    ensures |r| == |es| && forall i :: 0 <= i < |es| ==> r[i] == Redact(es[i])
  {
    seq(|es|, i requires 0 <= i < |es| => Redact(es[i]))
  }

  /** Redacting tagged elements redacts the value under each sensitive tag and keeps the others. */
  lemma {:induction false} RedactTagged(tags: seq<string>, values: seq<string>, redacted: seq<string>)
    requires |tags| == |values| == |redacted|
    requires forall i :: 0 <= i < |tags| ==> redacted[i] == if Sensitive(tags[i]) then Redacted else values[i]
    ensures RedactAll(Tagged(tags, values)) == Tagged(tags, redacted)
  {
    var a, b := RedactAll(Tagged(tags, values)), Tagged(tags, redacted);
    forall i | 0 <= i < |a|
      ensures a[i] == b[i]
    {
      assert a[i] == Redact(Element(tags[i], values[i]));
    }
  }

  /** Looking a tag up in redacted elements finds the marker for a sensitive tag and the original text otherwise. */
  lemma {:induction false} GetRedactAll(es: seq<Element>, k: string)
    ensures Get(RedactAll(es), k) == match Get(es, k)
      case None => None
      case Some(v) => Some(if Sensitive(k) then Redacted else v)
    decreases |es|
  {
    if |es| > 0 {
      assert RedactAll(es)[1..] == RedactAll(es[1..]);
      GetRedactAll(es[1..], k);
    }
  }

  /** A sensitive tag is found redacted wherever the original has it. */
  lemma {:induction false} GetRedactSensitive(es: seq<Element>, k: string)
    requires Sensitive(k)
    ensures Get(RedactAll(es), k) == if Get(es, k).Some? then Some(Redacted) else None
  {
    GetRedactAll(es, k);
  }

  /** Any other tag is found with its original text. */
  lemma {:induction false} GetRedactOther(es: seq<Element>, k: string)
    requires !Sensitive(k)
    ensures Get(RedactAll(es), k) == Get(es, k)
  {
    GetRedactAll(es, k);
  }

  /** One transcript line: the indentation and line break are kept, the element redacted. */
  lemma {:induction false} ScrubLine(indent: string, e: Element, next: string)
    requires Blank(indent) && Valid(e)
    ensures Scrub(indent + Render(e) + "\n" + next) == indent + Render(Redact(e)) + "\n" + Scrub(next)
  {
    calc {
      Scrub(indent + Render(e) + "\n" + next);
      { Regroup3(indent, Render(e), "\n", next); }
      Scrub(indent + (Render(e) + ("\n" + next)));
      { assert Free(indent, '<'); ScrubText(indent, Render(e) + ("\n" + next)); }
      indent + Scrub(Render(e) + ("\n" + next));
      { if Sensitive(e.name) { ScrubSensitive(e, "\n" + next); } else { ScrubOther(e, "\n" + next); } }
      indent + (Render(Redact(e)) + Scrub("\n" + next));
      { ScrubText("\n", next); }
      indent + (Render(Redact(e)) + ("\n" + Scrub(next)));
      { Regroup3(indent, Render(Redact(e)), "\n", Scrub(next)); }
      indent + Render(Redact(e)) + "\n" + Scrub(next);
    }
  }

  lemma {:induction false} Regroup3(a: string, b: string, c: string, d: string)
    ensures a + b + c + d == a + (b + (c + d))
  {
  }

  /**
   Scrubbing a transcript laid out one element per line redacts exactly the
   sensitive elements and keeps every other line byte for byte.
   */
  lemma {:induction false} ScrubLayout(indent: string, es: seq<Element>)
    requires Blank(indent) && AllValid(es)
    ensures Scrub(Layout(indent, es)) == Layout(indent, RedactAll(es))
    decreases |es|
  {
    if |es| > 0 {
      var next := Layout(indent, es[1..]);
      ScrubLine(indent, es[0], next);
      ScrubLayout(indent, es[1..]);
      assert RedactAll(es[1..]) == RedactAll(es)[1..];
    }
  }

  /** A layout of tagged values scrubs to the layout of the same tags with the sensitive values masked. */
  lemma {:induction false} ScrubTagged(indent: string, tags: seq<string>, values: seq<string>, redacted: seq<string>)
    requires Blank(indent) && AllNames(tags) && AllTexts(values)
    requires |tags| == |values| == |redacted|
    requires forall i :: 0 <= i < |tags| ==> redacted[i] == if Sensitive(tags[i]) then Redacted else values[i]
    ensures Scrub(Layout(indent, Tagged(tags, values))) == Layout(indent, Tagged(tags, redacted))
  {
    TaggedValid(tags, values);
    ScrubLayout(indent, Tagged(tags, values));
    RedactTagged(tags, values, redacted);
  }

  // ---------------------------------------------------------------------------
  // Scrubbing twice changes nothing

  lemma {:induction false} ScrubMaskStep(s: string, t: string, end: nat)
    requires |s| > 0 && SensitiveAt(s, SensitiveTags) == Some((t, end))
    ensures Scrub(s) == Masked(t) + Scrub(s[end..])
  {
  }

  /** A scrubbed string starts with `<` exactly when the original does. */
  lemma {:induction false} ScrubHead(v: string)
    requires |v| > 0
    ensures |Scrub(v)| > 0 && (Scrub(v)[0] == '<' <==> v[0] == '<')
    ensures SensitiveAt(v, SensitiveTags).None? ==> Scrub(v) == [v[0]] + Scrub(v[1..])
    ensures SensitiveAt(v, SensitiveTags).Some? ==> |Scrub(v)| > 1 && Scrub(v)[1] == 'C'
  {
    match SensitiveAt(v, SensitiveTags)
    case Some((t, end)) =>
      ScrubMaskStep(v, t, end);
      assert Masked(t)[0] == '<' && Masked(t)[1] == 'C';
      assert v[..|Open(t)|] == Open(t);
      assert v[0] == Open(t)[0] == '<';
    case None =>
      assert v == [v[0]] + v[1..];
      ScrubKeepStep(v[0], v[1..]);
  }

  lemma {:induction false} ConsInj(c: char, x: string, d: char, y: string)
    requires [c] + x == [d] + y
    ensures c == d && x == y
  {
    assert x == ([c] + x)[1..];
  }

  /**
   Scrubbing copies text without `<` character for character, so a scrubbed
   string that starts with such text came from a string that starts with it.
   */
  lemma {:induction false} ScrubPrefix(v: string, w: string, z: string)
    requires Free(w, '<') && Scrub(v) == w + z
    ensures IsPrefix(w, v) && Scrub(v[|w|..]) == z
    decreases |w|
  {
    if |w| > 0 {
      assert |v| > 0;
      {
        ScrubHead(v);
        ConsSplit(w, z);
        assert Scrub(v)[0] == w[0];
        ConsInj(v[0], Scrub(v[1..]), w[0], w[1..] + z);
        ScrubPrefix(v[1..], w[1..], z);
        assert v[1..][|w| - 1..] == v[|w|..];
        assert v[..|w|] == [v[0]] + v[1..][..|w| - 1];
      }
    } else {
      assert v[0..] == v;
    }
  }

  /** A scrubbed string that starts with a closing tag came from one that does. */
  lemma {:induction false} ScrubCloseOrigin(v: string, t: string, y: string)
    requires ValidName(t) && Scrub(v) == Close(t) + y
    ensures IsPrefix(Close(t), v)
  {
    ScrubCloseHead(v, t, y);
    var w := "/" + t + ">";
    CloseFree(t);
    ScrubPrefix(v[1..], w, y);
    PrefixSplit(w, v[1..]);
    var rest := v[1..][|w|..];
    assert v == [v[0]] + v[1..];
    CloseSplit(t, rest);
    PrefixOfAppend(Close(t), rest);
  }

  /** The first step back from a closing tag: the `<` is copied, the rest scrubbed. */
  lemma {:induction false} ScrubCloseHead(v: string, t: string, y: string)
    requires ValidName(t) && Scrub(v) == Close(t) + y
    ensures |v| > 0 && v[0] == '<' && Scrub(v[1..]) == "/" + t + ">" + y
  {
    assert |v| > 0;
    ScrubHead(v);
    var c := Close(t);
    assert |c| >= 2 && c[0] == '<' && c[1] == '/';
    assert Scrub(v)[0] == '<' && Scrub(v)[1] == '/';
    assert SensitiveAt(v, SensitiveTags).None?;
    CloseSplit(t, y);
    ConsInj(v[0], Scrub(v[1..]), '<', "/" + t + ">" + y);
  }

  lemma {:induction false} OpenJoin(t: string, x: string, rest: string)
    ensures Open(t) + x + Close(t) + rest == ['<'] + ((t + ">" + x) + (Close(t) + rest))
  {
  }

  /** An element `<t>x</t>` in scrubbed text, with `x` free of `<`, stands for the same element in the original. */
  lemma {:induction false} ElementOrigin(c: char, v: string, t: string, x: string, y: string)
    requires ValidName(t) && Free(x, '<')
    requires [c] + Scrub(v) == Open(t) + x + Close(t) + y
    ensures IsPrefix(Open(t) + x + Close(t), [c] + v)
  {
    var w := t + ">" + x;
    assert Free(w, '<');
    OpenJoin(t, x, y);
    ConsInj(c, Scrub(v), '<', w + (Close(t) + y));
    ScrubPrefix(v, w, Close(t) + y);
    var z := v[|w|..];
    ScrubCloseOrigin(z, t, y);
    var z' := z[|Close(t)|..];
    PrefixSplit(Close(t), z);
    PrefixSplit(w, v);
    OpenJoin(t, x, z');
    assert [c] + v == ['<'] + (w + (Close(t) + z'));
    assert [c] + v == Open(t) + x + Close(t) + z';
    PrefixOfAppend(Open(t) + x + Close(t), z');
  }

  lemma {:induction false} PrefixSplit(p: string, s: string)
    requires IsPrefix(p, s)
    ensures s == p + s[|p|..]
  {
    assert s == s[..|p|] + s[|p|..];
  }

  lemma {:induction false} PrefixOfAppend(p: string, q: string)
    ensures IsPrefix(p, p + q)
  {
    assert (p + q)[..|p|] == p;
  }

  /** Where the original has no sensitive element, the scrubbed text has none either. */
  lemma {:induction false} NoSensitiveKept(s: string)
    requires |s| > 0 && SensitiveAt(s, SensitiveTags).None?
    ensures SensitiveAt([s[0]] + Scrub(s[1..]), SensitiveTags).None?
  {
    var s' := [s[0]] + Scrub(s[1..]);
    if SensitiveAt(s', SensitiveTags).Some? {
      var t := SensitiveAt(s', SensitiveTags).value.0;
      SensitiveTagsValid();
      assert ValidName(t);
      ElementEndParts(s', t);
      var x, y :| Free(x, '<') && s' == Open(t) + x + Close(t) + y;
      ElementOrigin(s[0], s[1..], t, x, y);
      var p := Open(t) + x + Close(t);
      assert s == [s[0]] + s[1..];
      PrefixSplit(p, s);
      ElementEndOf(t, x, s[|p|..]);
      assert false;
    }
  }

  /** A masked element stays masked when scrubbed again. */
  lemma {:induction false} ScrubMasked(t: string, rest: string)
    requires t in SensitiveTags
    ensures Scrub(Masked(t) + rest) == Masked(t) + Scrub(rest)
  {
    assert ValidText(Redacted);
    ScrubSensitive(Element(t, Redacted), rest);
  }

  /** Scrubbing is idempotent: scrubbed text is left as it is. */
  lemma {:induction false} ScrubIdempotent(s: string)
    ensures Scrub(Scrub(s)) == Scrub(s)
    decreases |s|
  {
    if |s| > 0 {
      match SensitiveAt(s, SensitiveTags)
      case Some((t, end)) =>
        ScrubMaskStep(s, t, end);
        ScrubMasked(t, Scrub(s[end..]));
        ScrubIdempotent(s[end..]);
      case None =>
        ScrubHead(s);
        NoSensitiveKept(s);
        ScrubKeepStep(s[0], Scrub(s[1..]));
        ScrubIdempotent(s[1..]);
    }
  }
}
