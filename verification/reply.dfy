/**
 Reading a JetPay reply into its fields. A reply is a root element whose
 children are leaf elements `<Tag>text</Tag>`; the fields are the leaves,
 keyed by tag name, in the order the tags first appear. A tag the reply
 does not carry is simply absent: nothing is defaulted.
 */
module ReplyParser {
  import opened Text
  import opened Xml

  /** Parsed fields: each element's name is the key, its text the value. */
  type Fields = seq<Element>

  /** No key occurs twice. */
  predicate UniqueKeys(f: Fields) {
    forall i, j :: 0 <= i < j < |f| ==> f[i].name != f[j].name
  }

  /** Every key is a tag name, every value is element text, and no key occurs twice. */
  predicate WellFormed(f: Fields) {
    UniqueKeys(f) && AllValid(f)
  }

  /** The value stored under `k`, if any. */
  function Get(f: Fields, k: string): (r: Option<string>)
    ensures r.None? <==> forall i :: 0 <= i < |f| ==> f[i].name != k
    ensures r.Some? ==> Element(k, r.value) in f
  {
    if |f| == 0 then None
    else if f[0].name == k then Some(f[0].text)
    else Get(f[1..], k)
  }

  /** With distinct keys, every element is what a lookup of its name finds. */
  lemma {:induction false} GetIndex(f: Fields, i: nat)
    requires UniqueKeys(f) && i < |f|
    ensures Get(f, f[i].name) == Some(f[i].text)
    decreases i
  {
    if i > 0 {
      assert f[0].name != f[i].name;
      assert f[1..][i - 1] == f[i];
      GetIndex(f[1..], i - 1);
    }
  }

  /** No name occurs twice. */
  predicate Distinct(tags: seq<string>) {
    forall i, j :: 0 <= i < j < |tags| ==> tags[i] != tags[j]
  }

  /** Fields built from distinct tags have distinct keys, and each tag finds its own value. */
  lemma {:induction false} TaggedKeys(tags: seq<string>, values: seq<string>)
    requires |tags| == |values| && Distinct(tags)
    ensures UniqueKeys(Tagged(tags, values))
    ensures forall k :: 0 <= k < |tags| ==> Get(Tagged(tags, values), tags[k]) == Some(values[k])
  {
    var r := Tagged(tags, values);
    assert UniqueKeys(r) by {
      forall i, j | 0 <= i < j < |r|
        ensures r[i].name != r[j].name
      {
        assert r[i].name == tags[i] && r[j].name == tags[j];
      }
    }
    forall k | 0 <= k < |tags|
      ensures Get(r, tags[k]) == Some(values[k])
    {
      GetIndex(r, k);
    }
  }

  /** A tag that is not among `tags` is absent. */
  lemma {:induction false} TaggedMissing(tags: seq<string>, values: seq<string>, t: string)
    requires |tags| == |values| && t !in tags
    ensures Get(Tagged(tags, values), t).None?
  {
    var r := Tagged(tags, values);
    assert forall i :: 0 <= i < |r| ==> r[i].name == tags[i];
  }

  /** Looking up a key in two field lists placed one after the other: the first one wins. */
  lemma {:induction false} GetAppend(f: Fields, g: Fields, k: string)
    ensures Get(f + g, k) == if Get(f, k).Some? then Get(f, k) else Get(g, k)
    decreases |f|
  {
    if |f| > 0 {
      assert (f + g)[0] == f[0];
      assert (f + g)[1..] == f[1..] + g;
      GetAppend(f[1..], g, k);
    } else {
      assert f + g == g;
    }
  }

  /**
   Stores `v` under `k`: an existing key keeps its position and gets the
   new value, a new key goes at the end.
   */
  function Insert(f: Fields, k: string, v: string): (r: Fields)
    ensures Get(r, k) == Some(v)
    ensures Get(f, k).None? ==> r == f + [Element(k, v)]
  {
    if |f| == 0 then [Element(k, v)]
    else if f[0].name == k then [Element(k, v)] + f[1..]
    else
      var rest := Insert(f[1..], k, v);
      var r := [f[0]] + rest;
      assert r[1..] == rest;
      assert Get(r, k) == Get(rest, k);
      assert Get(f, k) == Get(f[1..], k);
      assert Get(f, k).None? ==> r == f + [Element(k, v)] by {
        if Get(f, k).None? {
          assert [f[0]] + (f[1..] + [Element(k, v)]) == f + [Element(k, v)];
        }
      }
      r
  }

  /** Inserting under `k` leaves every other key's value alone. */
  lemma {:induction false} InsertKeepsOthers(f: Fields, k: string, v: string, j: string)
    requires j != k
    ensures Get(Insert(f, k, v), j) == Get(f, j)
    decreases |f|
  {
    if |f| > 0 && f[0].name != k {
      var r := Insert(f, k, v);
      assert r[1..] == Insert(f[1..], k, v);
      InsertKeepsOthers(f[1..], k, v, j);
    }
  }

  /** Insertion keeps the fields well formed: it never duplicates a key. */
  lemma {:induction false} InsertWellFormed(f: Fields, k: string, v: string)
    requires WellFormed(f) && Valid(Element(k, v))
    ensures WellFormed(Insert(f, k, v))
    decreases |f|
  {
    if |f| > 0 {
      var tail := f[1..];
      assert WellFormed(tail);
      if f[0].name == k {
        ConsWellFormed(Element(k, v), tail);
      } else {
        InsertWellFormed(tail, k, v);
        InsertBehind(f, k, v);
      }
    }
  }

  /** Inserting behind a head whose key differs keeps the head's key unique. */
  lemma {:induction false} InsertBehind(f: Fields, k: string, v: string)
    requires |f| > 0 && f[0].name != k && WellFormed(f) && Valid(Element(k, v))
    requires WellFormed(Insert(f[1..], k, v))
    ensures WellFormed(Insert(f, k, v))
  {
    var rest := Insert(f[1..], k, v);
    forall j | 0 <= j < |rest|
      ensures rest[j].name != f[0].name
    {
      KeyOfInsert(f[1..], k, v, j);
    }
    ConsWellFormed(f[0], rest);
  }

  lemma {:induction false} ConsWellFormed(x: Element, f: Fields)
    requires Valid(x) && WellFormed(f)
    requires forall j :: 0 <= j < |f| ==> f[j].name != x.name
    ensures WellFormed([x] + f)
  {
    var r := [x] + f;
    assert forall j :: 0 < j < |r| ==> r[j] == f[j - 1];
  }

  /** Every key after an insertion is `k` or an earlier key. */
  lemma {:induction false} KeyOfInsert(f: Fields, k: string, v: string, j: nat)
    requires j < |Insert(f, k, v)|
    ensures Insert(f, k, v)[j].name == k || exists i :: 0 <= i < |f| && f[i].name == Insert(f, k, v)[j].name
    decreases |f|
  {
    if |f| > 0 && f[0].name != k && j > 0 {
      var r := Insert(f, k, v);
      assert r[1..] == Insert(f[1..], k, v);
      KeyOfInsert(f[1..], k, v, j - 1);
      if r[j].name != k {
        var i :| 0 <= i < |f| - 1 && f[1..][i].name == r[j].name;
        assert f[i + 1].name == r[j].name;
      }
    }
  }

  /** Inserts the elements in order. */
  function InsertAll(f: Fields, es: seq<Element>): Fields
    decreases |es|
  {
    if |es| == 0 then f else InsertAll(Insert(f, es[0].name, es[0].text), es[1..])
  }

  /** Inserting elements with fresh, distinct names appends them in order. */
  lemma {:induction false} InsertAllFresh(f: Fields, es: seq<Element>)
    requires UniqueKeys(f + es)
    ensures InsertAll(f, es) == f + es
    decreases |es|
  {
    if |es| > 0 {
      var k := es[0].name;
      assert Get(f, k).None? by {
        forall i | 0 <= i < |f|
          ensures f[i].name != k
        {
          assert (f + es)[i] == f[i] && (f + es)[|f|] == es[0];
        }
      }
      var f' := Insert(f, k, es[0].text);
      assert f' + es[1..] == f + es;
      InsertAllFresh(f', es[1..]);
    } else {
      assert f + es == f;
    }
  }

  // ---------------------------------------------------------------------------
  // Scanning

  /** The tag name of the `<name>` that starts `s`, and the index just past its `>`. */
  function OpenTagAt(s: string): (r: Option<(string, nat)>)
    ensures r.Some? ==> r.value.1 <= |s|
  {
    if |s| == 0 || s[0] != '<' then None
    else
      var n := Until(s[1..], '>');
      if n == |s| - 1 then None else Some((s[1..n + 1], n + 2))
  }

  /**
   The leaf element that starts `s`, with the number of characters it spans:
   `<Tag>`, then text up to the next `<`, then exactly `</Tag>`.
   */
  function LeafAt(s: string): (r: Option<(Element, nat)>)
    ensures r.Some? ==> Valid(r.value.0) && 0 < r.value.1 <= |s|
  {
    match OpenTagAt(s)
    case None => None
    case Some((name, start)) =>
      var body := s[start..];
      var k := Until(body, '<');
      if ValidName(name) && IsPrefix(Close(name), body[k..]) then
        Some((Element(name, body[..k]), start + k + |Close(name)|))
      else None
  }

  /** Scans `s` left to right, inserting every leaf element found into `acc`. */
  function ParseFrom(acc: Fields, s: string): (r: Fields)
    ensures WellFormed(acc) ==> WellFormed(r)
    decreases |s|
  {
    if |s| == 0 then acc
    else
      match LeafAt(s)
      case Some((e, len)) =>
        var acc' := Insert(acc, e.name, e.text);
        assert WellFormed(acc) ==> WellFormed(acc') by {
          if WellFormed(acc) { InsertWellFormed(acc, e.name, e.text); }
        }
        ParseFrom(acc', s[len..])
      case None => ParseFrom(acc, s[1..])
  }

  /**
   The fields of a reply: the leaves that follow the root's opening tag.
   The root itself is never a field, even when it has no children.
   */
  function Parse(reply: string): (r: Fields)
    ensures WellFormed(r)
  {
    var n := Until(reply, '>');
    if n == |reply| then [] else ParseFrom([], reply[n + 1..])
  }

  // ---------------------------------------------------------------------------
  // How the scan reads each piece of a reply

  /** Text without `<` contributes nothing. */
  lemma {:induction false} SkipText(acc: Fields, a: string, rest: string)
    requires Free(a, '<')
    ensures ParseFrom(acc, a + rest) == ParseFrom(acc, rest)
    decreases |a|
  {
    if |a| > 0 {
      assert (a + rest)[0] == a[0] != '<';
      assert (a + rest)[1..] == a[1..] + rest;
      SkipText(acc, a[1..], rest);
    } else {
      assert a + rest == rest;
    }
  }

  /** An opening tag whose name has no `>` is read up to its `>`. */
  lemma {:induction false} OpenTagOf(t: string, after: string)
    requires Free(t, '>')
    ensures OpenTagAt("<" + t + ">" + after) == Some((t, |t| + 2))
  {
    var s := "<" + t + ">" + after;
    assert s[1..] == t + (">" + after);
    UntilOfFreePrefix(t, ">" + after, '>');
    assert Until(">" + after, '>') == 0;
    assert s[1..|t| + 1] == t;
  }

  /** Text without `<` runs up to the closing tag that follows it. */
  lemma {:induction false} TextBeforeClose(x: string, t: string, rest: string)
    requires Free(x, '<')
    ensures Until(x + Close(t) + rest, '<') == |x|
  {
    assert x + Close(t) + rest == x + (Close(t) + rest);
    UntilOfFreePrefix(x, Close(t) + rest, '<');
    assert Until(Close(t) + rest, '<') == 0;
  }

  /** A valid leaf element at the start of `s` is recognised as exactly that leaf. */
  lemma {:induction false} LeafOfRender(e: Element, rest: string)
    requires Valid(e)
    ensures LeafAt(Render(e) + rest) == Some((e, |Render(e)|))
  {
    var t := e.name;
    var s := Render(e) + rest;
    var body := e.text + Close(t) + rest;
    assert Render(e) + rest == "<" + e.name + ">" + (e.text + Close(e.name) + rest) by {}
    OpenTagOf(t, body);
    assert ("<" + t + ">" + body)[|"<" + t + ">"|..] == body by {}
    TextBeforeClose(e.text, t, rest);
    CloseAfterText(e.text, t, rest);
    LeafAtUnfold(s, t, |t| + 2, body, |e.text|);
  }

  lemma {:induction false} CloseAfterText(x: string, t: string, rest: string)
    ensures (x + Close(t) + rest)[..|x|] == x
    ensures IsPrefix(Close(t), (x + Close(t) + rest)[|x|..])
  {
    var body := x + Close(t) + rest;
    assert body[|x|..] == Close(t) + rest;
    assert (Close(t) + rest)[..|Close(t)|] == Close(t);
  }

  /** What `LeafAt` finds once its three checks are known to pass. */
  lemma {:induction false} LeafAtUnfold(s: string, t: string, start: nat, body: string, k: nat)
    requires OpenTagAt(s) == Some((t, start)) && ValidName(t)
    requires s[start..] == body && Until(body, '<') == k
    requires IsPrefix(Close(t), body[k..])
    ensures LeafAt(s) == Some((Element(t, body[..k]), start + k + |Close(t)|))
  {
  }

  /** A valid leaf element is read as one field. */
  lemma {:induction false} ReadLeaf(acc: Fields, e: Element, rest: string)
    requires Valid(e)
    ensures ParseFrom(acc, Render(e) + rest) == ParseFrom(Insert(acc, e.name, e.text), rest)
  {
    LeafOfRender(e, rest);
    assert (Render(e) + rest)[|Render(e)|..] == rest;
  }

  /** A closing tag is skipped. */
  lemma {:induction false} SkipClose(acc: Fields, t: string, rest: string)
    requires ValidName(t)
    ensures ParseFrom(acc, Close(t) + rest) == ParseFrom(acc, rest)
  {
    var s := Close(t) + rest;
    assert s == "<" + ("/" + t) + ">" + rest;
    assert Free("/" + t, '>');
    OpenTagOf("/" + t, rest);
    assert !ValidName("/" + t) by {
      assert ("/" + t)[0] == '/';
    }
    assert LeafAt(s) == None;
    assert s[1..] == ("/" + t + ">") + rest;
    assert Free("/" + t + ">", '<');
    SkipText(acc, "/" + t + ">", rest);
  }

  /** Each line of a layout is read as one field, in order. */
  lemma {:induction false} ReadLayout(acc: Fields, indent: string, es: seq<Element>, rest: string)
    requires Blank(indent) && AllValid(es)
    ensures ParseFrom(acc, Layout(indent, es) + rest) == ParseFrom(InsertAll(acc, es), rest)
    decreases |es|
  {
    if |es| > 0 {
      var tail := Layout(indent, es[1..]) + rest;
      assert Layout(indent, es) + rest == indent + (Render(es[0]) + ("\n" + tail));
      SkipText(acc, indent, Render(es[0]) + ("\n" + tail));
      ReadLeaf(acc, es[0], "\n" + tail);
      var acc' := Insert(acc, es[0].name, es[0].text);
      SkipText(acc', "\n", tail);
      ReadLayout(acc', indent, es[1..], rest);
    } else {
      assert Layout(indent, es) + rest == rest;
    }
  }

  /** Parsing a document starts right after the root's opening tag. */
  lemma {:induction false} ParseAfterRoot(indent: string, root: string, body: string)
    requires Blank(indent) && ValidName(root)
    ensures Parse(indent + Open(root) + body) == ParseFrom([], body)
  {
    var head := indent + "<" + root;
    var doc := indent + Open(root) + body;
    assert doc == head + (">" + body);
    assert Free(head, '>');
    UntilOfFreePrefix(head, ">" + body, '>');
    assert Until(">" + body, '>') == 0;
    assert doc[|head| + 1..] == body;
  }

  /** The line closing the root contributes nothing. */
  lemma {:induction false} SkipTail(acc: Fields, indent: string, root: string)
    requires Blank(indent) && ValidName(root)
    ensures ParseFrom(acc, Tail(indent, root)) == acc
  {
    assert Tail(indent, root) == indent + (Close(root) + "\n");
    assert Free(indent, '<');
    SkipText(acc, indent, Close(root) + "\n");
    SkipClose(acc, root, "\n");
    assert "\n" == "\n" + [];
    SkipText(acc, "\n", []);
  }

  /**
   Parsing a rendered document gives back its elements as the fields,
   in document order, when the tag names are distinct.
   */
  lemma {:induction false} ParseDocument(indent: string, root: string, es: seq<Element>)
    requires Blank(indent) && ValidName(root)
    requires AllValid(es) && UniqueKeys(es)
    ensures Parse(Document(indent, root, es)) == es
  {
    var layout := Layout(indent + "  ", es);
    var tail := Tail(indent, root);
    calc {
      Parse(Document(indent, root, es));
      { assert Document(indent, root, es) == indent + Open(root) + ("\n" + (layout + tail));
        ParseAfterRoot(indent, root, "\n" + (layout + tail)); }
      ParseFrom([], "\n" + (layout + tail));
      { SkipText([], "\n", layout + tail); }
      ParseFrom([], layout + tail);
      { assert Blank(indent + "  ");
        ReadLayout([], indent + "  ", es, tail); }
      ParseFrom(InsertAll([], es), tail);
      { SkipTail(InsertAll([], es), indent, root); }
      InsertAll([], es);
      { assert [] + es == es;
        InsertAllFresh([], es); }
      es;
    }
  }
}

