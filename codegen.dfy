/**
 * The visual editor's code generator (`generateCodeFromElements`): one HTML
 * line per canvas element, in canvas order, with the positional id
 * `element-<index>`, and one CSS rule per header, text or image element
 * that carries an inline style.
 */
module CodeGen {
  import opened JsString
  import opened Storage
  import opened CanvasElements

  /** The id the generated code gives the element at position `i`. */
  function ElementId(i: nat): string {
    "element-" + Decimal(i)
  }

  /** The id attribute written for position `i`. */
  function IdAttribute(i: nat): string {
    "id=\"" + ElementId(i) + "\""
  }

  /** The HTML line of the element at position `i`: opening tag, id attribute, the rest of the line. */
  function HtmlLine(n: Node, i: nat): string {
    match n
    case Heading(t, _) => "<h2 " + IdAttribute(i) + (">" + t + "</h2>\n")
    case Paragraph(t, _) => "<p " + IdAttribute(i) + (">" + t + "</p>\n")
    case Picture(src, alt, _) => "<img " + IdAttribute(i) + (" src=\"" + src + "\" alt=\"" + alt + "\">\n")
    case Block(_, m) => "<div " + IdAttribute(i) + (">" + m + ActionsMarkup + "</div>\n")
  }

  /** The inline style the generator reads; the fallback branch reads none. */
  function StyleOf(n: Node): Style {
    match n
    case Heading(_, st) => st
    case Paragraph(_, st) => st
    case Picture(_, _, st) => st
    case Block(_, _) => []
  }

  /** The rule `#<id> {\n  <declarations>\n}\n\n`, each "; " of the style text starting a new line. */
  function RuleText(id: string, styleText: string): string {
    "#" + id + " {\n  " + BreakDeclarations(styleText) + "\n}\n\n"
  }

  /** The CSS rule of the element at position `i`, or "" when its style attribute text is empty. */
  function CssRule(n: Node, i: nat): string {
    var s := StyleText(StyleOf(n));
    if s == "" then "" else RuleText(ElementId(i), s)
  }

  /** The generated HTML of a canvas. */
  function Html(nodes: seq<Node>): string {
    if nodes == [] then "" else Html(nodes[..|nodes| - 1]) + HtmlLine(nodes[|nodes| - 1], |nodes| - 1)
  }

  /** The generated CSS of a canvas. */
  function Css(nodes: seq<Node>): string {
    if nodes == [] then "" else Css(nodes[..|nodes| - 1]) + CssRule(nodes[|nodes| - 1], |nodes| - 1)
  }

  /** Adding an element at the end of the canvas appends exactly its own line and rule. */
  lemma GenerateAppend(nodes: seq<Node>, n: Node)
    ensures Html(nodes + [n]) == Html(nodes) + HtmlLine(n, |nodes|)
    ensures Css(nodes + [n]) == Css(nodes) + CssRule(n, |nodes|)
  {
    assert (nodes + [n])[..|nodes|] == nodes;
  }

  /** The code of the first `i + 1` elements extends that of the first `i` by element `i`'s line and rule. */
  lemma GeneratePrefix(nodes: seq<Node>, i: nat)
    requires i < |nodes|
    ensures Html(nodes[..i + 1]) == Html(nodes[..i]) + HtmlLine(nodes[i], i)
    ensures Css(nodes[..i + 1]) == Css(nodes[..i]) + CssRule(nodes[i], i)
  {
    assert nodes[..i + 1] == nodes[..i] + [nodes[i]];
    GenerateAppend(nodes[..i], nodes[i]);
  }

  /** Different positions get different ids. */
  lemma ElementIdInjective(i: nat, j: nat)
    ensures ElementId(i) == ElementId(j) <==> i == j
  {
    if ElementId(i) == ElementId(j) {
      assert Decimal(i) == ElementId(i)[8..];
      assert Decimal(j) == ElementId(j)[8..];
      DecimalInjective(i, j);
    }
  }

  lemma InfixMiddle(t: string, a: string, b: string)
    ensures IsInfix(t, a + t + b)
  {
    assert (a + t + b)[|a|..|a| + |t|] == t;
    assert InfixAt(t, a + t + b, |a|);
  }

  lemma InfixLeft(t: string, s: string, b: string)
    requires IsInfix(t, s)
    ensures IsInfix(t, s + b)
  {
    var k :| 0 <= k <= |s| && InfixAt(t, s, k);
    assert (s + b)[k..k + |t|] == s[k..k + |t|];
    assert InfixAt(t, s + b, k);
  }

  lemma InfixRight(t: string, a: string, s: string)
    requires IsInfix(t, s)
    ensures IsInfix(t, a + s)
  {
    var k :| 0 <= k <= |s| && InfixAt(t, s, k);
    assert (a + s)[|a| + k..|a| + k + |t|] == s[k..k + |t|];
    assert InfixAt(t, a + s, |a| + k);
  }

  lemma ConcatEmpty(a: string, b: string)
    ensures a + b == "" <==> a == "" && b == ""
  {
    assert |a + b| == |a| + |b|;
  }

  /** Every element's line carries its positional id attribute. */
  lemma HtmlLineHasId(n: Node, i: nat)
    ensures IsInfix(IdAttribute(i), HtmlLine(n, i))
  {
    var t := IdAttribute(i);
    match n
    case Heading(x, _) =>
      InfixMiddle(t, "<h2 ", ">" + x + "</h2>\n");
    case Paragraph(x, _) =>
      InfixMiddle(t, "<p ", ">" + x + "</p>\n");
    case Picture(src, alt, _) =>
      InfixMiddle(t, "<img ", " src=\"" + src + "\" alt=\"" + alt + "\">\n");
    case Block(_, m) =>
      InfixMiddle(t, "<div ", ">" + m + ActionsMarkup + "</div>\n");
  }

  /** An element of any other type is emitted with its whole inner markup, action buttons included. */
  lemma FallbackKeepsActions(kind: string, m: string, i: nat)
    ensures IsInfix(ActionsMarkup, HtmlLine(Block(kind, m), i))
  {
    InfixMiddle(ActionsMarkup, ">" + m, "</div>\n");
    InfixRight(ActionsMarkup, "<div " + IdAttribute(i), ">" + m + ActionsMarkup + "</div>\n");
  }

  /** The HTML carries the id of every position on the canvas. */
  lemma {:induction false} HtmlHasEveryId(nodes: seq<Node>, i: nat)
    requires i < |nodes|
    ensures IsInfix(IdAttribute(i), Html(nodes))
    decreases |nodes|
  {
    var last := |nodes| - 1;
    if i == last {
      HtmlLineHasId(nodes[last], i);
      InfixRight(IdAttribute(i), Html(nodes[..last]), HtmlLine(nodes[last], last));
    } else {
      HtmlHasEveryId(nodes[..last], i);
      InfixLeft(IdAttribute(i), Html(nodes[..last]), HtmlLine(nodes[last], last));
    }
  }

  /** Whether the generator finds style attribute text on an element. */
  predicate Styled(n: Node) {
    StyleOf(n) != []
  }

  /** An element gets a CSS rule exactly when it is a header, text or image with a non-empty inline style. */
  lemma CssRuleIff(n: Node, i: nat)
    ensures CssRule(n, i) != "" <==> Styled(n)
    ensures n.Block? ==> CssRule(n, i) == ""
  {
  }

  /** The rule's body is the style text with every "; " broken onto its own line. */
  lemma CssRuleBody(n: Node, i: nat)
    requires StyleOf(n) != []
    ensures CssRule(n, i) == "#" + ElementId(i) + " {\n  " + BreakDeclarations(StyleText(StyleOf(n))) + "\n}\n\n"
    ensures !HasSemicolonSpace(BreakDeclarations(StyleText(StyleOf(n))))
  {
    BreakDeclarationsComplete(StyleText(StyleOf(n)));
  }

  /** The CSS is empty exactly when no element on the canvas has an inline style. */
  lemma {:induction false} CssEmptyIff(nodes: seq<Node>)
    ensures Css(nodes) == "" <==> forall k :: 0 <= k < |nodes| ==> !Styled(nodes[k])
    decreases |nodes|
  {
    if nodes != [] {
      var last := |nodes| - 1;
      var prefix := nodes[..last];
      var a, b := Css(prefix), CssRule(nodes[last], last);
      assert Css(nodes) == a + b;
      CssEmptyIff(prefix);
      CssRuleIff(nodes[last], last);
      ConcatEmpty(a, b);
      assert forall k :: 0 <= k < last ==> prefix[k] == nodes[k];
    }
  }

  /**
   * After loading a record, its element gets a rule exactly when some style
   * property is set: for header and text one of fontSize, color and
   * textAlign; an image always (its max-width); other types never.
   */
  lemma CreatedRuleIff(d: ElementData, i: nat)
    ensures d.kind == "header" || d.kind == "text" ==>
      (CssRule(Create(d), i) != "" <==>
        Prop(d.properties, "fontSize").Truthy() || Prop(d.properties, "color").Truthy()
        || Prop(d.properties, "textAlign").Truthy())
    ensures d.kind == "image" ==> CssRule(Create(d), i) != ""
    ensures !IsTextKind(d.kind) ==> CssRule(Create(d), i) == ""
  {
    if d.kind == "header" || d.kind == "text" {
      TextStyleShape(d.properties);
    } else if d.kind == "image" {
      ImageStyleExplicit(d.properties);
    }
  }
}
