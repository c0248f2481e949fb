/**
 * The canvas element model of js/visual-editor.js: what a dropped or loaded
 * element looks like on the canvas (`createCanvasElement` with
 * `applyProperties`), the per-type defaults tables, the property panel
 * (`updatePropertiesPanel`, `setInitialPropertyValues`), form edits
 * (`applyPropertyChanges`) and the record `saveProject` extracts from an
 * element.
 *
 * A canvas element is modelled by what the editor reads back from it: the
 * text of its <h2> or <p>, the src/alt of its <img>, the inline style of
 * that inner tag as an ordered list of declarations, and, for every other
 * type, its fixed inner markup.
 */
module CanvasElements {
  import opened Wrappers
  import opened JsString
  import opened Storage

  // --------------------------------------------------------- inline style

  /** One inline style declaration, e.g. `font-size: 32px`. */
  datatype Decl = Decl(name: string, value: string)

  type Style = seq<Decl>

  /** `el.style.<name>`: the declared value, if any. */
  function Lookup(st: Style, name: string): (r: Option<string>)
    ensures r.Some? <==> exists k :: 0 <= k < |st| && st[k].name == name
  {
    if st == [] then None
    else if st[0].name == name then Some(st[0].value)
    else Lookup(st[1..], name)
  }

  predicate DistinctNames(st: Style) {
    forall i, j :: 0 <= i < j < |st| ==> st[i].name != st[j].name
  }

  function RemoveDecl(st: Style, name: string): (r: Style)
    ensures forall k :: 0 <= k < |r| ==> r[k].name != name && r[k] in st
  {
    if st == [] then []
    else if st[0].name == name then RemoveDecl(st[1..], name)
    else [st[0]] + RemoveDecl(st[1..], name)
  }

  /**
   * `el.style.<name> = value`: an existing declaration keeps its place and
   * takes the new value, a new one is appended, and the empty string removes
   * the declaration.
   */
  function SetDecl(st: Style, name: string, value: string): Style {
    if value == "" then RemoveDecl(st, name)
    else if Lookup(st, name).Some? then Replace(st, name, value)
    else st + [Decl(name, value)]
  }

  function Replace(st: Style, name: string, value: string): (r: Style)
    ensures |r| == |st|
    ensures forall k :: 0 <= k < |st| ==> r[k].name == st[k].name
  {
    if st == [] then []
    else if st[0].name == name then [Decl(name, value)] + Replace(st[1..], name, value)
    else [st[0]] + Replace(st[1..], name, value)
  }

  lemma {:induction false} RemoveDeclLookup(st: Style, name: string, other: string)
    ensures Lookup(RemoveDecl(st, name), other) == if other == name then None else Lookup(st, other)
  {
    if st != [] { RemoveDeclLookup(st[1..], name, other); }
  }

  lemma {:induction false} ReplaceLookup(st: Style, name: string, value: string, other: string)
    requires Lookup(st, name).Some?
    ensures Lookup(Replace(st, name, value), other) == if other == name then Some(value) else Lookup(st, other)
  {
    if st[0].name != name { ReplaceLookup(st[1..], name, value, other); }
    else if other != name && st[1..] != [] && Lookup(st[1..], name).Some? {
      ReplaceLookup(st[1..], name, value, other);
    } else if other != name {
      ReplaceUnchanged(st[1..], name, value);
    }
  }

  lemma {:induction false} ReplaceUnchanged(st: Style, name: string, value: string)
    requires Lookup(st, name).None?
    ensures Replace(st, name, value) == st
  {
    if st != [] { ReplaceUnchanged(st[1..], name, value); }
  }

  lemma {:induction false} LookupAppend(st: Style, d: Decl, other: string)
    requires Lookup(st, d.name).None?
    ensures Lookup(st + [d], other) == if other == d.name then Some(d.value) else Lookup(st, other)
  {
    if st != [] {
      assert (st + [d])[1..] == st[1..] + [d];
      LookupAppend(st[1..], d, other);
    }
  }

  /** After a style assignment the property reads back what was assigned and nothing else moved. */
  lemma SetDeclLookup(st: Style, name: string, value: string, other: string)
    ensures Lookup(SetDecl(st, name, value), other) ==
      if other != name then Lookup(st, other)
      else if value == "" then None
      else Some(value)
  {
    if value == "" { RemoveDeclLookup(st, name, other); }
    else if Lookup(st, name).Some? { ReplaceLookup(st, name, value, other); }
    else { LookupAppend(st, Decl(name, value), other); }
  }

  lemma {:induction false} RemoveDeclDistinct(st: Style, name: string)
    requires DistinctNames(st)
    ensures DistinctNames(RemoveDecl(st, name))
  {
    if st != [] {
      RemoveDeclDistinct(st[1..], name);
      var t := RemoveDecl(st[1..], name);
      forall k | 0 <= k < |t| ensures t[k].name != st[0].name {
        var j :| 0 <= j < |st[1..]| && st[1..][j] == t[k];
      }
    }
  }

  /** Style assignment never produces two declarations of one property. */
  lemma SetDeclDistinct(st: Style, name: string, value: string)
    requires DistinctNames(st)
    ensures DistinctNames(SetDecl(st, name, value))
  {
    if value == "" { RemoveDeclDistinct(st, name); }
  }

  function DeclText(d: Decl): string {
    d.name + ": " + d.value + ";"
  }

  /** The serialised inline style, as `getAttribute('style')` returns it. */
  function StyleText(st: Style): (r: string)
    ensures r == "" <==> st == []
  {
    if st == [] then ""
    else if |st| == 1 then DeclText(st[0])
    else DeclText(st[0]) + " " + StyleText(st[1..])
  }

  // ------------------------------------------------------------ elements

  /** An element as it sits on the canvas. */
  datatype Node =
    | Heading(text: string, style: Style)            // type 'header': an <h2>
    | Paragraph(text: string, style: Style)          // type 'text': a <p>
    | Picture(src: string, alt: string, style: Style)  // type 'image': an <img>
    | Block(kind: string, markup: string)            // any other type: fixed inner markup

  /** `element.dataset.elementType`. */
  function Kind(n: Node): string {
    match n
    case Heading(_, _) => "header"
    case Paragraph(_, _) => "text"
    case Picture(_, _, _) => "image"
    case Block(k, _) => k
  }

  predicate IsTextKind(kind: string) {
    kind == "header" || kind == "text" || kind == "image"
  }

  /** A Block never carries one of the three types the editor treats specially. */
  predicate WellFormed(n: Node) {
    n.Block? ==> !IsTextKind(n.kind)
  }

  const PlaceholderImage := "https://via.placeholder.com/300x200"

  /** The move-up, move-down and delete buttons appended to every canvas element. */
  const ActionsMarkup :=
    "<div class=\"element-actions\">\n"
    + "            <button class=\"element-action-btn btn-move-up\">\U{2191}</button>\n"
    + "            <button class=\"element-action-btn btn-move-down\">\U{2193}</button>\n"
    + "            <button class=\"element-action-btn btn-delete\">\U{2715}</button>\n"
    + "        </div>"

  const ListMarkup := "<ul><li>Item 1</li><li>Item 2</li><li>Item 3</li></ul>"

  const FormMarkup :=
    "\n                    <form>\n"
    + "                        <div style=\"margin-bottom:15px;\">\n"
    + "                            <label style=\"display:block;margin-bottom:5px;\">Name</label>\n"
    + "                            <input type=\"text\" style=\"width:100%;padding:8px;\">\n"
    + "                        </div>\n"
    + "                        <div style=\"margin-bottom:15px;\">\n"
    + "                            <label style=\"display:block;margin-bottom:5px;\">Email</label>\n"
    + "                            <input type=\"email\" style=\"width:100%;padding:8px;\">\n"
    + "                        </div>\n"
    + "                        <button type=\"button\" style=\"padding:10px 20px;\">Submit</button>\n"
    + "                    </form>\n"
    + "                "

  const DividerMarkup := "<hr style=\"border:0;border-top:1px solid #eee;margin:20px 0;\">"

  /** `s || fallback` on a string. */
  function Or(s: string, fallback: string): string {
    if s != "" then s else fallback
  }

  /** `getDefaultContentForType(type)`. */
  function DefaultContent(kind: string): string {
    if kind == "header" then "New Header"
    else if kind == "text" then "New paragraph text"
    else if kind == "button" then "Button"
    else ""
  }

  /** `getDefaultPropertiesForType(type)`. */
  function DefaultProperties(kind: string): map<string, Json> {
    if kind == "header" then map["fontSize" := Str("32"), "color" := Str("#333333"), "textAlign" := Str("left")]
    else if kind == "text" then map["fontSize" := Str("16"), "color" := Str("#333333"), "textAlign" := Str("left")]
    else if kind == "image" then map["imageUrl" := Str(PlaceholderImage), "imageAlt" := Str("Image"), "width" := Str("100")]
    else if kind == "button" then map["fontSize" := Str("16"), "color" := Str("#ffffff"), "backgroundColor" := Str("#3498db")]
    else map[]
  }

  /** The record a drop of `kind` creates. */
  function DefaultElement(kind: string): ElementData {
    ElementData(kind, DefaultContent(kind), DefaultProperties(kind))
  }

  /** `properties.<key>`: an absent key reads as undefined, which is falsy like null. */
  function Prop(props: map<string, Json>, key: string): Json {
    if key in props then props[key] else Null
  }

  /** `${v}`. */
  function JsonText(v: Json): string {
    match v
    case Str(s) => s
    case Num(n) => Decimal(n)
    case Null => "null"
  }

  /** One `if (properties.<key>) el.style.<name> = ...` step of applyProperties. */
  function ApplyIfTruthy(st: Style, props: map<string, Json>, key: string, name: string, unit: string): Style {
    if Prop(props, key).Truthy() then SetDecl(st, name, JsonText(Prop(props, key)) + unit) else st
  }

  /** applyProperties on a header or text element. */
  function TextStyle(props: map<string, Json>): Style {
    var st := ApplyIfTruthy([], props, "fontSize", "font-size", "px");
    var st := ApplyIfTruthy(st, props, "color", "color", "");
    ApplyIfTruthy(st, props, "textAlign", "text-align", "")
  }

  /** The <img>'s own `max-width:100%` plus applyProperties' width. */
  function ImageStyle(props: map<string, Json>): Style {
    ApplyIfTruthy([Decl("max-width", "100%")], props, "width", "width", "%")
  }

  /** The inner markup of an element of any type other than header, text and image. */
  function RenderBlock(kind: string, content: string): string {
    if kind == "button" then "<button style=\"padding:10px 20px;\">" + Or(content, "Button") + "</button>"
    else if kind == "container" then
      "<div style=\"border:1px dashed #ccc;padding:20px;min-height:100px;\">" + Or(content, "Container") + "</div>"
    else if kind == "list" then ListMarkup
    else if kind == "form" then FormMarkup
    else if kind == "divider" then DividerMarkup
    else Or(content, "Element")
  }

  /** The `url || fallback` of a JSON property. */
  function PropOr(props: map<string, Json>, key: string, fallback: string): string {
    if Prop(props, key).Truthy() then JsonText(Prop(props, key)) else fallback
  }

  /** `createCanvasElement(elementData)` followed by `applyProperties`. */
  function Create(d: ElementData): (n: Node)
    ensures Kind(n) == d.kind && WellFormed(n)
  {
    if d.kind == "header" then Heading(Or(d.content, "Header"), TextStyle(d.properties))
    else if d.kind == "text" then Paragraph(Or(d.content, "Text paragraph"), TextStyle(d.properties))
    else if d.kind == "image" then
      Picture(PropOr(d.properties, "imageUrl", PlaceholderImage), PropOr(d.properties, "imageAlt", "Image"),
              ImageStyle(d.properties))
    else Block(d.kind, RenderBlock(d.kind, d.content))
  }

  /** Assigning a property the style does not declare yet appends it. */
  lemma SetDeclNew(st: Style, name: string, value: string)
    requires value != "" && forall k :: 0 <= k < |st| ==> st[k].name != name
    ensures SetDecl(st, name, value) == st + [Decl(name, value)]
  {
  }

  /** The declaration applyProperties contributes for one key, or none. */
  function DeclFor(props: map<string, Json>, key: string, name: string, unit: string): Style {
    if Prop(props, key).Truthy() then [Decl(name, JsonText(Prop(props, key)) + unit)] else []
  }

  lemma JsonTextNonEmpty(v: Json)
    requires v.Truthy()
    ensures JsonText(v) != ""
  {
  }

  /**
   * applyProperties on a header or text element declares font-size, color
   * and text-align, in that order, each only when its property is truthy.
   */
  lemma TextStyleExplicit(props: map<string, Json>)
    ensures TextStyle(props) ==
      DeclFor(props, "fontSize", "font-size", "px") + DeclFor(props, "color", "color", "")
      + DeclFor(props, "textAlign", "text-align", "")
  {
    var s1 := DeclFor(props, "fontSize", "font-size", "px");
    var s2 := s1 + DeclFor(props, "color", "color", "");
    if Prop(props, "fontSize").Truthy() {
      JsonTextNonEmpty(Prop(props, "fontSize"));
      SetDeclNew([], "font-size", JsonText(Prop(props, "fontSize")) + "px");
    }
    assert ApplyIfTruthy([], props, "fontSize", "font-size", "px") == s1;
    if Prop(props, "color").Truthy() {
      JsonTextNonEmpty(Prop(props, "color"));
      SetDeclNew(s1, "color", JsonText(Prop(props, "color")));
    }
    assert ApplyIfTruthy(s1, props, "color", "color", "") == s2;
    if Prop(props, "textAlign").Truthy() {
      JsonTextNonEmpty(Prop(props, "textAlign"));
      SetDeclNew(s2, "text-align", JsonText(Prop(props, "textAlign")));
    }
  }

  /** The image's style is its max-width followed by the width property, when truthy. */
  lemma ImageStyleExplicit(props: map<string, Json>)
    ensures ImageStyle(props) == [Decl("max-width", "100%")] + DeclFor(props, "width", "width", "%")
  {
    if Prop(props, "width").Truthy() {
      JsonTextNonEmpty(Prop(props, "width"));
      SetDeclNew([Decl("max-width", "100%")], "width", JsonText(Prop(props, "width")) + "%");
    }
  }

  /** A dropped header carries the header defaults as its text and inline style. */
  lemma DroppedHeader()
    ensures Create(DefaultElement("header")) ==
      Heading("New Header", [Decl("font-size", "32px"), Decl("color", "#333333"), Decl("text-align", "left")])
  {
    var p := DefaultProperties("header");
    TextStyleExplicit(p);
    assert Prop(p, "fontSize") == Str("32") && Prop(p, "color") == Str("#333333") && Prop(p, "textAlign") == Str("left");
    assert "32" + "px" == "32px" && "#333333" + "" == "#333333" && "left" + "" == "left";
  }

  /** A dropped text element carries the text defaults. */
  lemma DroppedText()
    ensures Create(DefaultElement("text")) ==
      Paragraph("New paragraph text", [Decl("font-size", "16px"), Decl("color", "#333333"), Decl("text-align", "left")])
  {
    var p := DefaultProperties("text");
    TextStyleExplicit(p);
    assert Prop(p, "fontSize") == Str("16") && Prop(p, "color") == Str("#333333") && Prop(p, "textAlign") == Str("left");
    assert "16" + "px" == "16px" && "#333333" + "" == "#333333" && "left" + "" == "left";
  }

  /** A dropped image shows the placeholder at full width. */
  lemma DroppedImage()
    ensures Create(DefaultElement("image")) ==
      Picture(PlaceholderImage, "Image", [Decl("max-width", "100%"), Decl("width", "100%")])
  {
    var p := DefaultProperties("image");
    ImageStyleExplicit(p);
    assert Prop(p, "imageUrl") == Str(PlaceholderImage) && Prop(p, "imageAlt") == Str("Image") && Prop(p, "width") == Str("100");
    assert "100" + "%" == "100%";
  }

  /**
   * A button's properties never reach the canvas: whatever they are, the
   * element is the fixed button markup, so the button defaults (16px,
   * white on #3498db) are never rendered.
   */
  lemma ButtonPropertiesIgnored(content: string, p1: map<string, Json>, p2: map<string, Json>)
    ensures Create(ElementData("button", content, p1)) == Create(ElementData("button", content, p2))
    ensures Create(DefaultElement("button")) == Block("button", "<button style=\"padding:10px 20px;\">Button</button>")
  {
  }

  /**
   * A header or text element gets an inline style exactly when one of
   * fontSize, color and textAlign is truthy, and no property is declared twice.
   */
  lemma TextStyleShape(props: map<string, Json>)
    ensures DistinctNames(TextStyle(props))
    ensures TextStyle(props) == [] <==>
      !Prop(props, "fontSize").Truthy() && !Prop(props, "color").Truthy() && !Prop(props, "textAlign").Truthy()
  {
    TextStyleExplicit(props);
  }

  // ------------------------------------------------------ property panel

  /** The text form's fields: #text-content, #text-size, #text-color, #text-align. */
  datatype TextValues = TextValues(content: string, size: string, color: string, align: string)

  /** The image form's fields: #image-url, #image-alt, #image-width. */
  datatype ImageValues = ImageValues(url: string, alt: string, width: string)

  /**
   * What `updatePropertiesPanel` shows. `TextPanel(None)` is the text form
   * whose fields were never filled from the element (a button).
   */
  datatype Panel =
    | EmptyPanel                         // "Select an element to edit its properties"
    | TextPanel(text: Option<TextValues>)
    | ImagePanel(image: ImageValues)
    | ComingSoonPanel                    // "More properties coming soon."

  /** The browser's computed font-size, color and text-align for an <h2> or <p> without inline style. */
  datatype TextDefaults = TextDefaults(fontSize: string, color: string, textAlign: string)

  datatype Renderer = Renderer(heading: TextDefaults, paragraph: TextDefaults)

  /** The computed value of a property: the inline declaration, else the browser's default. */
  function Computed(st: Style, name: string, fallback: string): string {
    Lookup(st, name).GetOr(fallback)
  }

  /** `parseInt(v) || fallback`, written into a number field. */
  function NumberOr(v: Option<nat>, fallback: nat): string {
    if v.Some? && v.value != 0 then Decimal(v.value) else Decimal(fallback)
  }

  /** setInitialPropertyValues for a header or text element. */
  function LoadText(text: string, st: Style, d: TextDefaults, sizeFallback: nat): TextValues {
    TextValues(text, NumberOr(ParseInt(Computed(st, "font-size", d.fontSize)), sizeFallback),
               Or(Computed(st, "color", d.color), "#000000"), Or(Computed(st, "text-align", d.textAlign), "left"))
  }

  predicate EndsWithPercent(s: string) {
    s != "" && s[|s| - 1] == '%'
  }

  /** setInitialPropertyValues for an image: a width given in % is shown as its number, else 100. */
  function LoadImage(src: string, alt: string, st: Style): ImageValues {
    var w := Computed(st, "width", "");
    ImageValues(src, alt,
      if EndsWithPercent(w) then (if ParseInt(w).Some? then Decimal(ParseInt(w).value) else "") else "100")
  }

  /** updatePropertiesPanel with setInitialPropertyValues, for the selected element if any. */
  function PanelFor(sel: Option<Node>, r: Renderer): Panel {
    match sel
    case None => EmptyPanel
    case Some(Heading(t, st)) => TextPanel(Some(LoadText(t, st, r.heading, 24)))
    case Some(Paragraph(t, st)) => TextPanel(Some(LoadText(t, st, r.paragraph, 16)))
    case Some(Picture(src, alt, st)) => ImagePanel(LoadImage(src, alt, st))
    case Some(Block(k, _)) => if k == "button" then TextPanel(None) else ComingSoonPanel
  }

  /** Two panels show the same form (their field values may differ). */
  predicate SameForm(a: Panel, b: Panel) {
    a.EmptyPanel? == b.EmptyPanel? && a.TextPanel? == b.TextPanel? && a.ImagePanel? == b.ImagePanel?
  }

  /**
   * The panel is the placeholder without a selection, the text form for
   * header, text and button, the image form for image, and "coming soon"
   * for every other type.
   */
  lemma PanelChoice(sel: Option<Node>, r: Renderer)
    requires sel.Some? ==> WellFormed(sel.value)
    ensures PanelFor(sel, r).EmptyPanel? <==> sel.None?
    ensures PanelFor(sel, r).TextPanel? <==>
      sel.Some? && (Kind(sel.value) == "header" || Kind(sel.value) == "text" || Kind(sel.value) == "button")
    ensures PanelFor(sel, r).ImagePanel? <==> sel.Some? && Kind(sel.value) == "image"
    ensures PanelFor(sel, r).ComingSoonPanel? <==>
      sel.Some? && !IsTextKind(Kind(sel.value)) && Kind(sel.value) != "button"
    ensures PanelFor(sel, r).TextPanel? ==> (PanelFor(sel, r).text.None? <==> Kind(sel.value) == "button")
  {
  }

  // ----------------------------------------------------------- form edits

  /** The fields present in the panel when a change event fires. */
  datatype FormValues = TextFields(text: TextValues) | ImageFields(image: ImageValues)

  /**
   * applyPropertyChanges' style writes for a header or text element. An
   * empty size makes the value "px", which is no CSS length, so the browser
   * keeps the old one; an empty color or alignment removes the declaration.
   */
  function ApplyTextValues(st: Style, v: TextValues): Style {
    var st := if v.size == "" then st else SetDecl(st, "font-size", v.size + "px");
    var st := SetDecl(st, "color", v.color);
    SetDecl(st, "text-align", v.align)
  }

  /**
   * applyPropertyChanges on one element. Only header, text and image have a
   * branch, and each reads only the fields of its own form.
   */
  function ApplyForm(n: Node, f: FormValues): Node {
    match (n, f)
    case (Heading(_, st), TextFields(v)) => Heading(v.content, ApplyTextValues(st, v))
    case (Paragraph(_, st), TextFields(v)) => Paragraph(v.content, ApplyTextValues(st, v))
    case (Picture(_, _, st), ImageFields(v)) =>
      Picture(v.url, v.alt, if v.width == "" then st else SetDecl(st, "width", v.width + "%"))
    case _ => n
  }

  /** Edits keep an element's type and its form, and change only header, text and image elements. */
  lemma EditScope(n: Node, f: FormValues, r: Renderer)
    ensures Kind(ApplyForm(n, f)) == Kind(n)
    ensures WellFormed(n) ==> WellFormed(ApplyForm(n, f))
    ensures SameForm(PanelFor(Some(ApplyForm(n, f)), r), PanelFor(Some(n), r))
    ensures !IsTextKind(Kind(n)) && WellFormed(n) ==> ApplyForm(n, f) == n
  {
  }

  /** A button is offered the text form, but nothing typed into it is ever applied. */
  lemma ButtonEditsIgnored(content: string, props: map<string, Json>, f: FormValues, r: Renderer)
    ensures PanelFor(Some(Create(ElementData("button", content, props))), r) == TextPanel(None)
    ensures ApplyForm(Create(ElementData("button", content, props)), f) == Create(ElementData("button", content, props))
  {
  }

  // ------------------------------------------------------ save extraction

  /** A number parsed by parseInt as JSON stores it: NaN becomes null. */
  function IntJson(v: Option<nat>): Json {
    if v.Some? then Num(v.value) else Null
  }

  function ExtractText(kind: string, text: string, st: Style, d: TextDefaults): ElementData {
    ElementData(kind, text, map[
      "fontSize" := IntJson(ParseInt(Computed(st, "font-size", d.fontSize))),
      "color" := Str(Computed(st, "color", d.color)),
      "textAlign" := Str(Computed(st, "text-align", d.textAlign))])
  }

  /**
   * The record saveProject stores for one element: header and text keep
   * their text and computed style, an image its src, alt and width (100
   * without an inline width), and every other type only its type.
   */
  function Extract(n: Node, r: Renderer): (d: ElementData)
    ensures d.kind == Kind(n)
    ensures n.Heading? || n.Paragraph? ==>
      var dflt := if n.Heading? then r.heading else r.paragraph;
      && d.content == n.text
      && d.properties.Keys == {"fontSize", "color", "textAlign"}
      && d.properties["fontSize"] == IntJson(ParseInt(Computed(n.style, "font-size", dflt.fontSize)))
      && d.properties["color"] == Str(Computed(n.style, "color", dflt.color))
      && d.properties["textAlign"] == Str(Computed(n.style, "text-align", dflt.textAlign))
    ensures (n.Heading? || n.Paragraph?) && Lookup(n.style, "color").Some? ==>
      d.properties["color"] == Str(Lookup(n.style, "color").value)
    ensures n.Picture? ==>
      && d.content == ""
      && d.properties.Keys == {"imageUrl", "imageAlt", "width"}
      && d.properties["imageUrl"] == Str(n.src) && d.properties["imageAlt"] == Str(n.alt)
    ensures n.Picture? && Lookup(n.style, "width").GetOr("") == "" ==> d.properties["width"] == Num(100)
    ensures n.Picture? && Lookup(n.style, "width").GetOr("") != "" ==>
      d.properties["width"] == IntJson(ParseInt(Lookup(n.style, "width").value))
    ensures WellFormed(n) && !IsTextKind(Kind(n)) ==> d.content == "" && d.properties == map[]
  {
    match n
    case Heading(t, st) => ExtractText("header", t, st, r.heading)
    case Paragraph(t, st) => ExtractText("text", t, st, r.paragraph)
    case Picture(src, alt, st) =>
      var w := Computed(st, "width", "");
      ElementData("image", "", map[
        "imageUrl" := Str(src), "imageAlt" := Str(alt),
        "width" := if w != "" then IntJson(ParseInt(w)) else Num(100)])
    case Block(k, _) => ElementData(k, "", map[])
  }

  /**
   * Loading a header or text record and saving it again gives back the same
   * record, when its text is non-empty and its three style properties are set.
   */
  lemma TextRoundTrip(kind: string, content: string, size: nat, color: string, align: string, r: Renderer)
    requires kind == "header" || kind == "text"
    requires content != "" && size != 0 && color != "" && align != ""
    ensures var d := ElementData(kind, content, map["fontSize" := Num(size), "color" := Str(color), "textAlign" := Str(align)]);
            Extract(Create(d), r) == d
  {
    var props := map["fontSize" := Num(size), "color" := Str(color), "textAlign" := Str(align)];
    TextStyleExplicit(props);
    assert Prop(props, "fontSize") == Num(size) && Prop(props, "color") == Str(color) && Prop(props, "textAlign") == Str(align);
    var st := TextStyle(props);
    assert DeclFor(props, "fontSize", "font-size", "px") == [Decl("font-size", Decimal(size) + "px")];
    assert color + "" == color && align + "" == align;
    assert DeclFor(props, "color", "color", "") == [Decl("color", color)];
    assert DeclFor(props, "textAlign", "text-align", "") == [Decl("text-align", align)];
    assert st == [Decl("font-size", Decimal(size) + "px"), Decl("color", color), Decl("text-align", align)];
    assert Lookup(st, "font-size") == Some(Decimal(size) + "px");
    assert st[1..] == [Decl("color", color), Decl("text-align", align)];
    assert st[1..][1..] == [Decl("text-align", align)];
    assert Lookup(st, "color") == Some(color);
    assert "color"[0] != "text-align"[0];
    assert Lookup(st[1..][1..], "text-align") == Some(align);
    assert Lookup(st[1..], "text-align") == Some(align);
    assert Lookup(st, "text-align") == Some(align);
    ParseIntDecimal(size, "px");
  }

  /**
   * Loading an image record and saving it again gives back its url, alt
   * text and width, when all three are set.
   */
  lemma ImageRoundTrip(content: string, url: string, alt: string, width: nat, r: Renderer)
    requires url != "" && alt != "" && width != 0
    ensures var props := map["imageUrl" := Str(url), "imageAlt" := Str(alt), "width" := Num(width)];
            Extract(Create(ElementData("image", content, props)), r) == ElementData("image", "", props)
  {
    var props := map["imageUrl" := Str(url), "imageAlt" := Str(alt), "width" := Num(width)];
    ImageStyleExplicit(props);
    assert Prop(props, "width") == Num(width);
    var st := ImageStyle(props);
    assert st == [Decl("max-width", "100%"), Decl("width", Decimal(width) + "%")];
    assert Lookup(st, "width") == Some(Decimal(width) + "%");
    ParseIntDecimal(width, "%");
  }

  /**
   * What is typed into the text form is what the next save stores: the text
   * as typed, the size as a number, and the color and alignment as typed.
   */
  lemma EditThenSave(n: Node, v: TextValues, size: nat, r: Renderer)
    requires n.Heading? || n.Paragraph?
    requires v.size == Decimal(size) && v.color != "" && v.align != ""
    ensures Extract(ApplyForm(n, TextFields(v)), r) ==
      ElementData(Kind(n), v.content, map["fontSize" := Num(size), "color" := Str(v.color), "textAlign" := Str(v.align)])
  {
    var st0 := n.style;
    var st1 := SetDecl(st0, "font-size", v.size + "px");
    var st2 := SetDecl(st1, "color", v.color);
    var st3 := SetDecl(st2, "text-align", v.align);
    assert ApplyTextValues(st0, v) == st3;
    SetDeclLookup(st2, "text-align", v.align, "font-size");
    SetDeclLookup(st1, "color", v.color, "font-size");
    SetDeclLookup(st0, "font-size", v.size + "px", "font-size");
    SetDeclLookup(st2, "text-align", v.align, "color");
    SetDeclLookup(st1, "color", v.color, "color");
    SetDeclLookup(st2, "text-align", v.align, "text-align");
    ParseIntDecimal(size, "px");
  }

  /** What is typed into the image form is what the next save stores. */
  lemma ImageEditThenSave(n: Node, v: ImageValues, width: nat, r: Renderer)
    requires n.Picture? && v.width == Decimal(width)
    ensures Extract(ApplyForm(n, ImageFields(v)), r) ==
      ElementData("image", "", map["imageUrl" := Str(v.url), "imageAlt" := Str(v.alt), "width" := Num(width)])
  {
    SetDeclLookup(n.style, "width", v.width + "%", "width");
    ParseIntDecimal(width, "%");
  }

  /**
   * Opening the panel of a header or text element and committing the form
   * unchanged does not alter what is saved, as long as the computed size is
   * a non-zero number and the computed color and alignment are non-empty
   * (otherwise the panel shows its own fallbacks: 24 or 16, #000000, left).
   */
  lemma PanelCommitUnchanged(n: Node, r: Renderer)
    requires n.Heading? || n.Paragraph?
    requires var d := if n.Heading? then r.heading else r.paragraph;
             && ParseInt(Computed(n.style, "font-size", d.fontSize)).Some?
             && ParseInt(Computed(n.style, "font-size", d.fontSize)).value != 0
             && Computed(n.style, "color", d.color) != ""
             && Computed(n.style, "text-align", d.textAlign) != ""
    ensures PanelFor(Some(n), r).TextPanel? && PanelFor(Some(n), r).text.Some?
    ensures Extract(ApplyForm(n, TextFields(PanelFor(Some(n), r).text.value)), r) == Extract(n, r)
  {
    var d := if n.Heading? then r.heading else r.paragraph;
    var v := PanelFor(Some(n), r).text.value;
    var size := ParseInt(Computed(n.style, "font-size", d.fontSize)).value;
    assert v.size == Decimal(size);
    EditThenSave(n, v, size, r);
  }
}
