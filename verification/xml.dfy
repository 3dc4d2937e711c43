/**
 The flat XML form JetPay speaks: leaf elements `<Tag>text</Tag>`, one per
 line, optionally wrapped in a root element. Only this shape is modelled;
 attributes, entities and escaping are not.
 */
module Xml {
  import opened Text

  datatype Element = Element(name: string, text: string)

  /** A tag name: non-empty and free of the markup characters `<`, `>` and `/`. */
  predicate ValidName(t: string) {
    |t| > 0 && Free(t, '<') && Free(t, '>') && Free(t, '/')
  }

  /** Element text cannot contain `<`, which would start markup. */
  predicate ValidText(v: string) {
    Free(v, '<')
  }

  predicate Valid(e: Element) {
    ValidName(e.name) && ValidText(e.text)
  }

  predicate AllValid(es: seq<Element>) {
    forall i :: 0 <= i < |es| ==> Valid(es[i])
  }

  /** Indentation and line breaks between elements. */
  predicate Blank(s: string) {
    forall i :: 0 <= i < |s| ==> s[i] == ' ' || s[i] == '\t' || s[i] == '\n'
  }

  /** Every name in `tags` is a valid tag name. */
  predicate AllNames(tags: seq<string>) {
    forall i :: 0 <= i < |tags| ==> ValidName(tags[i])
  }

  /** Every string in `values` is valid element text. */
  predicate AllTexts(values: seq<string>) {
    forall i :: 0 <= i < |values| ==> ValidText(values[i])
  }

  /** Pairs each tag with its value, in order. */
  function Tagged(tags: seq<string>, values: seq<string>): (r: seq<Element>)
    requires |tags| == |values|
    ensures |r| == |tags| && forall i :: 0 <= i < |r| ==> r[i] == Element(tags[i], values[i])
  {
    seq(|tags|, i requires 0 <= i < |tags| => Element(tags[i], values[i]))
  }

  lemma {:induction false} TaggedValid(tags: seq<string>, values: seq<string>)
    requires |tags| == |values| && AllNames(tags) && AllTexts(values)
    ensures AllValid(Tagged(tags, values))
  {
    var r := Tagged(tags, values);
    forall i | 0 <= i < |r|
      ensures Valid(r[i])
    {
      assert ValidName(tags[i]) && ValidText(values[i]);
    }
  }

  function Open(t: string): string {
    "<" + t + ">"
  }

  function Close(t: string): string {
    "</" + t + ">"
  }

  function Render(e: Element): string {
    Open(e.name) + e.text + Close(e.name)
  }

  /** One element per line, each line starting with `indent`. */
  function Layout(indent: string, es: seq<Element>): string {
    if |es| == 0 then [] else indent + Render(es[0]) + "\n" + Layout(indent, es[1..])
  }

  /** Laying out two lists one after the other lays out their concatenation. */
  lemma {:induction false} LayoutAppend(indent: string, f: seq<Element>, g: seq<Element>)
    ensures Layout(indent, f + g) == Layout(indent, f) + Layout(indent, g)
    decreases |f|
  {
    if |f| > 0 {
      assert (f + g)[0] == f[0];
      assert (f + g)[1..] == f[1..] + g;
      LayoutAppend(indent, f[1..], g);
    } else {
      assert f + g == g;
    }
  }

  /**
   A document: the root element on its own line at `indent`, its children
   one per line indented two more spaces, then the closing root tag.
   */
  function Document(indent: string, root: string, es: seq<Element>): string {
    indent + Open(root) + "\n" + Layout(indent + "  ", es) + Tail(indent, root)
  }

  /** The line closing a document's root. */
  function Tail(indent: string, root: string): string {
    indent + Close(root) + "\n"
  }
}
