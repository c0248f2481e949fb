/**
 * The visual editor page (js/visual-editor.js): the gate that decides
 * whether the page opens, and the editor itself, an object holding the
 * open project, the elements on the canvas in order, the selected element
 * and the property panel. Every handler that changes the canvas saves the
 * project: its element records, the generated HTML and CSS and the time.
 */
module VisualEditor {
  import opened Wrappers
  import opened JsString
  import opened Storage
  import opened Auth
  import opened CanvasElements
  import opened CodeGen

  // ----------------------------------------------------------- page gate

  /** Where opening the page ends: a redirect with its alert, or the editor on a project. */
  datatype Gate = ToLogin | NoProject | Refused | Open(project: Project) {
    /** The alert shown before redirecting to the dashboard. */
    function Message(): string {
      match this
      case NoProject => "No project specified."
      case Refused => "Project not found or you do not have permission to edit it."
      case _ => ""
    }
  }

  /**
   * The checks run on page load, in order: a signed-in user, a non-empty
   * `project` query parameter, and a stored project owned by that user.
   */
  function OpenEditor(session: Option<string>, param: Option<string>, projects: map<string, Project>): (g: Gate)
    ensures g.ToLogin? <==> SignedOut(session)
    ensures g.NoProject? <==> !SignedOut(session) && (param.None? || param.value == "")
    ensures g.Open? <==>
      && !SignedOut(session) && param.Some? && param.value != "" && param.value in projects
      && projects[param.value].owner == session.value
    ensures g.Open? ==> g.project == projects[param.value]
  {
    if SignedOut(session) then ToLogin
    else if param.None? || param.value == "" then NoProject
    else if param.value !in projects || projects[param.value].owner != session.value then Refused
    else Open(projects[param.value])
  }

  /** A project owned by someone else is refused exactly as if it did not exist. */
  lemma ForeignLooksMissing(session: Option<string>, param: Option<string>, projects: map<string, Project>)
    requires !SignedOut(session) && param.Some? && param.value != "" && param.value in projects
    requires projects[param.value].owner != session.value
    ensures OpenEditor(session, param, projects) == OpenEditor(session, param, projects - {param.value}) == Refused
  {
  }

  // ------------------------------------------------- canvas as a sequence

  /** The canvas built from stored records, in order. */
  function Hydrate(ds: seq<ElementData>): seq<Node> {
    seq(|ds|, k requires 0 <= k < |ds| => Create(ds[k]))
  }

  /** The records saveProject collects, in canvas order. */
  function ExtractAll(nodes: seq<Node>, r: Renderer): seq<ElementData> {
    seq(|nodes|, k requires 0 <= k < |nodes| => Extract(nodes[k], r))
  }

  /** `insertBefore` of two neighbours: the elements at `i` and `i + 1` trade places. */
  function Swap(s: seq<Node>, i: nat): seq<Node>
    requires i + 1 < |s|
  {
    s[i := s[i + 1]][i + 1 := s[i]]
  }

  /** `element.remove()`. */
  function RemoveAt(s: seq<Node>, i: nat): seq<Node>
    requires i < |s|
  {
    s[..i] + s[i + 1..]
  }

  /** Swapping the same neighbours twice restores the canvas, and a swap keeps every element. */
  lemma SwapPermutes(s: seq<Node>, i: nat)
    requires i + 1 < |s|
    ensures Swap(Swap(s, i), i) == s
    ensures multiset(Swap(s, i)) == multiset(s)
    ensures forall k :: 0 <= k < |s| && k != i && k != i + 1 ==> Swap(s, i)[k] == s[k]
  {
  }

  /** Removing an element keeps the others, in order, and only them. */
  lemma RemoveAtShape(s: seq<Node>, i: nat)
    requires i < |s|
    ensures |RemoveAt(s, i)| == |s| - 1
    ensures forall k :: 0 <= k < i ==> RemoveAt(s, i)[k] == s[k]
    ensures forall k :: i <= k < |s| - 1 ==> RemoveAt(s, i)[k] == s[k + 1]
    ensures multiset(RemoveAt(s, i)) + multiset{s[i]} == multiset(s)
  {
    assert s == s[..i] + [s[i]] + s[i + 1..];
  }

  /**
   * Records that come back unchanged when loaded and saved again: header
   * and text with their text and exactly a non-zero fontSize number, a
   * color and an alignment; an image with no content and exactly its url,
   * alt text and non-zero width; any other type with neither content nor
   * properties.
   */
  predicate Reloadable(d: ElementData) {
    if d.kind == "header" || d.kind == "text" then
      && d.content != "" && d.properties.Keys == {"fontSize", "color", "textAlign"}
      && d.properties["fontSize"].Num? && d.properties["fontSize"].n != 0
      && d.properties["color"].Str? && d.properties["color"].s != ""
      && d.properties["textAlign"].Str? && d.properties["textAlign"].s != ""
    else if d.kind == "image" then
      && d.content == "" && d.properties.Keys == {"imageUrl", "imageAlt", "width"}
      && d.properties["imageUrl"].Str? && d.properties["imageUrl"].s != ""
      && d.properties["imageAlt"].Str? && d.properties["imageAlt"].s != ""
      && d.properties["width"].Num? && d.properties["width"].n != 0
    else
      d.content == "" && d.properties == map[]
  }

  lemma ReloadableRoundTrip(d: ElementData, r: Renderer)
    requires Reloadable(d)
    ensures Extract(Create(d), r) == d
  {
    var p := d.properties;
    if d.kind == "header" || d.kind == "text" {
      var size, color, align := p["fontSize"].n, p["color"].s, p["textAlign"].s;
      assert p == map["fontSize" := Num(size), "color" := Str(color), "textAlign" := Str(align)];
      TextRoundTrip(d.kind, d.content, size, color, align, r);
    } else if d.kind == "image" {
      var url, alt, width := p["imageUrl"].s, p["imageAlt"].s, p["width"].n;
      assert p == map["imageUrl" := Str(url), "imageAlt" := Str(alt), "width" := Num(width)];
      ImageRoundTrip(d.content, url, alt, width, r);
    }
  }

  /** Opening a project of reloadable records and saving it at once stores the same records. */
  lemma SaveAfterLoad(ds: seq<ElementData>, r: Renderer)
    requires forall k :: 0 <= k < |ds| ==> Reloadable(ds[k])
    ensures ExtractAll(Hydrate(ds), r) == ds
  {
    forall k | 0 <= k < |ds| ensures ExtractAll(Hydrate(ds), r)[k] == ds[k] {
      ReloadableRoundTrip(ds[k], r);
    }
  }

  /**
   * What a freshly dropped header, text and image save as: the property
   * defaults, given as strings, come back as numbers ("32" becomes 32),
   * and an image's content is dropped.
   */
  lemma DroppedSaved(r: Renderer)
    ensures Extract(Create(DefaultElement("header")), r) ==
      ElementData("header", "New Header", map["fontSize" := Num(32), "color" := Str("#333333"), "textAlign" := Str("left")])
    ensures Extract(Create(DefaultElement("text")), r) ==
      ElementData("text", "New paragraph text", map["fontSize" := Num(16), "color" := Str("#333333"), "textAlign" := Str("left")])
    ensures Extract(Create(DefaultElement("image")), r) ==
      ElementData("image", "", map["imageUrl" := Str(PlaceholderImage), "imageAlt" := Str("Image"), "width" := Num(100)])
  {
    DroppedHeader();
    DroppedText();
    DroppedImage();
    TextRoundTrip("header", "New Header", 32, "#333333", "left", r);
    TextRoundTrip("text", "New paragraph text", 16, "#333333", "left", r);
    ImageRoundTrip("", PlaceholderImage, "Image", 100, r);
    var h := map["fontSize" := Num(32), "color" := Str("#333333"), "textAlign" := Str("left")];
    var t := map["fontSize" := Num(16), "color" := Str("#333333"), "textAlign" := Str("left")];
    var i := map["imageUrl" := Str(PlaceholderImage), "imageAlt" := Str("Image"), "width" := Num(100)];
    DroppedHeaderSame(h);
    DroppedTextSame(t);
    DroppedImageSame(i);
  }

  lemma DroppedHeaderSame(h: map<string, Json>)
    requires h == map["fontSize" := Num(32), "color" := Str("#333333"), "textAlign" := Str("left")]
    ensures Create(ElementData("header", "New Header", h)) == Create(DefaultElement("header"))
  {
    DroppedHeader();
    TextStyleExplicit(h);
    assert Prop(h, "fontSize") == Num(32) && Prop(h, "color") == Str("#333333") && Prop(h, "textAlign") == Str("left");
    assert Decimal(32) == "32" by { assert Decimal(3) == "3"; }
    assert "32" + "px" == "32px" && "#333333" + "" == "#333333" && "left" + "" == "left";
  }

  lemma DroppedTextSame(t: map<string, Json>)
    requires t == map["fontSize" := Num(16), "color" := Str("#333333"), "textAlign" := Str("left")]
    ensures Create(ElementData("text", "New paragraph text", t)) == Create(DefaultElement("text"))
  {
    DroppedText();
    TextStyleExplicit(t);
    assert Prop(t, "fontSize") == Num(16) && Prop(t, "color") == Str("#333333") && Prop(t, "textAlign") == Str("left");
    assert Decimal(16) == "16" by { assert Decimal(1) == "1"; }
    assert "16" + "px" == "16px" && "#333333" + "" == "#333333" && "left" + "" == "left";
  }

  lemma DroppedImageSame(i: map<string, Json>)
    requires i == map["imageUrl" := Str(PlaceholderImage), "imageAlt" := Str("Image"), "width" := Num(100)]
    ensures Create(ElementData("image", "", i)) == Create(DefaultElement("image"))
  {
    DroppedImage();
    ImageStyleExplicit(i);
    assert Prop(i, "imageUrl") == Str(PlaceholderImage) && Prop(i, "imageAlt") == Str("Image") && Prop(i, "width") == Num(100);
    assert Decimal(100) == "100" by { assert Decimal(10) == "10" by { assert Decimal(1) == "1"; } }
    assert "100" + "%" == "100%";
  }

  /** The project as saveProject leaves it: records, code and time replaced, everything else kept. */
  function SavedProject(p: Project, nodes: seq<Node>, r: Renderer, now: string): Project {
    p.(elements := ExtractAll(nodes, r), html := Html(nodes), css := Css(nodes), lastModified := now)
  }

  /**
   * Saving is idempotent: a second save of an unchanged canvas at the same
   * time writes the same record, and a save changes nothing but records,
   * code and time.
   */
  lemma SaveIdempotent(p: Project, nodes: seq<Node>, r: Renderer, now: string)
    ensures SavedProject(SavedProject(p, nodes, r, now), nodes, r, now) == SavedProject(p, nodes, r, now)
    ensures var q := SavedProject(p, nodes, r, now);
            q.id == p.id && q.title == p.title && q.owner == p.owner && q.editorType == p.editorType
            && q.createdAt == p.createdAt && q.js == p.js
  {
  }

  /** Loading the canvas: one element per stored record, in order. */
  method LoadCanvas(ds: seq<ElementData>) returns (nodes: seq<Node>)
    ensures nodes == Hydrate(ds)
  {
    nodes := [];
    var i := 0;
    while i < |ds|
      invariant 0 <= i <= |ds|
      invariant |nodes| == i && forall k :: 0 <= k < i ==> nodes[k] == Create(ds[k])
    {
      nodes := nodes + [Create(ds[i])];
      i := i + 1;
    }
  }

  // ------------------------------------------------------- the selection

  /** The selected element, if any. */
  function SelectionOf(nodes: seq<Node>, selected: Option<nat>): Option<Node> {
    if selected.Some? && selected.value < |nodes| then Some(nodes[selected.value]) else None
  }

  /**
   * The selection points at an element, every element is well formed, and
   * the panel shows the form that belongs to the selection.
   */
  predicate CanvasValid(nodes: seq<Node>, selected: Option<nat>, panel: Panel, r: Renderer) {
    && (selected.Some? ==> selected.value < |nodes|)
    && (forall k :: 0 <= k < |nodes| ==> WellFormed(nodes[k]))
    && SameForm(panel, PanelFor(SelectionOf(nodes, selected), r))
  }

  /** Where the selected element is after the elements at `i` and `i + 1` trade places. */
  function FollowSwap(selected: Option<nat>, i: nat): Option<nat> {
    if selected == Some(i) then Some(i + 1)
    else if selected == Some(i + 1) then Some(i)
    else selected
  }

  /** Where the selected element is after the element at `i` is removed (it must not be the one removed). */
  function FollowRemove(selected: Option<nat>, i: nat): Option<nat> {
    if selected.Some? && selected.value > i then Some(selected.value - 1) else selected
  }

  /** After a swap the selection still designates the same element, and the canvas stays valid. */
  lemma SwapKeepsSelection(nodes: seq<Node>, selected: Option<nat>, panel: Panel, r: Renderer, i: nat)
    requires i + 1 < |nodes| && CanvasValid(nodes, selected, panel, r)
    ensures SelectionOf(Swap(nodes, i), FollowSwap(selected, i)) == SelectionOf(nodes, selected)
    ensures CanvasValid(Swap(nodes, i), FollowSwap(selected, i), panel, r)
  {
    SwapPermutes(nodes, i);
  }

  /** After removing an unselected element the selection still designates the same element. */
  lemma RemoveKeepsSelection(nodes: seq<Node>, selected: Option<nat>, panel: Panel, r: Renderer, i: nat)
    requires i < |nodes| && CanvasValid(nodes, selected, panel, r) && selected != Some(i)
    ensures SelectionOf(RemoveAt(nodes, i), FollowRemove(selected, i)) == SelectionOf(nodes, selected)
    ensures CanvasValid(RemoveAt(nodes, i), FollowRemove(selected, i), panel, r)
  {
    RemoveAtShape(nodes, i);
  }

  /** Removing the selected element leaves a valid canvas with nothing selected and the empty panel. */
  lemma RemoveSelected(nodes: seq<Node>, panel: Panel, r: Renderer, i: nat)
    requires i < |nodes| && CanvasValid(nodes, Some(i), panel, r)
    ensures CanvasValid(RemoveAt(nodes, i), None, EmptyPanel, r)
  {
    RemoveAtShape(nodes, i);
  }

  /** An edit of the selected element keeps the canvas valid: the element keeps its type and form. */
  lemma EditKeepsValid(nodes: seq<Node>, selected: Option<nat>, panel: Panel, r: Renderer, f: FormValues)
    requires CanvasValid(nodes, selected, panel, r) && selected.Some?
    ensures CanvasValid(nodes[selected.value := ApplyForm(nodes[selected.value], f)], selected, panel, r)
  {
    EditScope(nodes[selected.value], f, r);
  }

  /** A dropped element, appended and selected with its own panel, keeps the canvas valid. */
  lemma DropKeepsValid(nodes: seq<Node>, selected: Option<nat>, panel: Panel, r: Renderer, n: Node)
    requires CanvasValid(nodes, selected, panel, r) && WellFormed(n)
    ensures CanvasValid(nodes + [n], Some(|nodes|), PanelFor(Some(n), r), r)
  {
  }

  // ------------------------------------------------------------ the editor

  class Editor {
    const store: Store
    const projectId: string
    const renderer: Renderer
    var project: Project
    var nodes: seq<Node>
    var selected: Option<nat>
    var panel: Panel

    function Selection(): Option<Node>
      reads this
    {
      SelectionOf(nodes, selected)
    }

    predicate Valid()
      reads this
    {
      CanvasValid(nodes, selected, panel, renderer)
    }

    /**
     * The editor on the project the gate opened for the signed-in user and
     * the `project` query parameter: its records on the canvas, nothing selected.
     */
    constructor (store: Store, projectId: string, renderer: Renderer)
      requires OpenEditor(store.session, Some(projectId), store.Projects()).Open?
      ensures Valid()
      ensures this.store == store && this.projectId == projectId && this.renderer == renderer
      ensures this.project == OpenEditor(store.session, Some(projectId), store.Projects()).project
      ensures this.project == store.Projects()[projectId] && nodes == Hydrate(this.project.elements)
      ensures selected == None && panel == EmptyPanel
    {
      this.store := store;
      this.projectId := projectId;
      this.renderer := renderer;
      var loadedProject := store.GetProject(projectId).value;
      this.project := loadedProject;
      var loaded := LoadCanvas(loadedProject.elements);
      nodes := loaded;
      selected := None;
      panel := EmptyPanel;
    }

    /** generateCodeFromElements. */
    method GenerateCode() returns (html: string, css: string)
      ensures html == Html(nodes) && css == Css(nodes)
    {
      html, css := "", "";
      var i := 0;
      while i < |nodes|
        invariant 0 <= i <= |nodes|
        invariant html == Html(nodes[..i]) && css == Css(nodes[..i])
      {
        GeneratePrefix(nodes, i);
        html := html + HtmlLine(nodes[i], i);
        css := css + CssRule(nodes[i], i);
        i := i + 1;
      }
      assert nodes[..|nodes|] == nodes;
    }

    /** The element records saveProject collects. */
    method ExtractRecords() returns (elements: seq<ElementData>)
      ensures elements == ExtractAll(nodes, renderer)
    {
      elements := [];
      var i := 0;
      while i < |nodes|
        invariant 0 <= i <= |nodes|
        invariant |elements| == i && forall k :: 0 <= k < i ==> elements[k] == Extract(nodes[k], renderer)
      {
        elements := elements + [Extract(nodes[i], renderer)];
        i := i + 1;
      }
    }

    /** saveProject: the project record is rebuilt from the canvas and written under the page's id. */
    method Save(now: string)
      modifies this, store
      ensures project == SavedProject(old(project), nodes, renderer, now)
      ensures store.projects == Some(old(store.Projects())[projectId := project])
      ensures store.users == old(store.users) && store.session == old(store.session)
      ensures nodes == old(nodes) && selected == old(selected) && panel == old(panel)
    {
      var elements := ExtractRecords();
      var html, css := GenerateCode();
      project := project.(elements := elements, html := html, css := css, lastModified := now);
      store.SaveProject(projectId, project);
    }

    /** A drop: the new element, built from the type's defaults, goes last and is selected; then a save. */
    method Drop(kind: string, now: string)
      requires Valid()
      modifies this, store
      ensures Valid()
      ensures nodes == old(nodes) + [Create(DefaultElement(kind))]
      ensures selected == Some(|old(nodes)|) && panel == PanelFor(Some(Create(DefaultElement(kind))), renderer)
      ensures project == SavedProject(old(project), nodes, renderer, now)
      ensures store.projects == Some(old(store.Projects())[projectId := project])
      ensures store.users == old(store.users) && store.session == old(store.session)
    {
      var n := Create(DefaultElement(kind));
      DropKeepsValid(nodes, selected, panel, renderer, n);
      nodes := nodes + [n];
      selected := Some(|nodes| - 1);
      panel := PanelFor(Some(n), renderer);
      Save(now);
    }

    /** A click on an element selects it and shows its properties. */
    method Select(i: nat)
      requires Valid() && i < |nodes|
      modifies this
      ensures Valid()
      ensures selected == Some(i) && panel == PanelFor(Some(nodes[i]), renderer)
      ensures nodes == old(nodes) && project == old(project)
    {
      selected := Some(i);
      panel := PanelFor(Some(nodes[i]), renderer);
    }

    /** A click on the bare canvas clears the selection; without one nothing happens. */
    method ClickCanvas()
      requires Valid()
      modifies this
      ensures Valid()
      ensures selected == None
      ensures panel == if old(selected).Some? then EmptyPanel else old(panel)
      ensures nodes == old(nodes) && project == old(project)
    {
      if selected.Some? {
        selected := None;
        panel := EmptyPanel;
      }
    }

    /**
     * The move-up button of the element at `i`: it trades places with the
     * element before it and the project is saved; the first element stays
     * and nothing is saved. The selection follows the selected element.
     */
    method MoveUp(i: nat, now: string)
      requires Valid() && i < |nodes|
      modifies this, store
      ensures Valid()
      ensures Selection() == old(Selection()) && panel == old(panel)
      ensures selected == if i > 0 then FollowSwap(old(selected), i - 1) else old(selected)
      ensures multiset(nodes) == multiset(old(nodes))
      ensures i == 0 ==> nodes == old(nodes) && project == old(project) && store.projects == old(store.projects)
      ensures i > 0 ==> nodes == Swap(old(nodes), i - 1) && project == SavedProject(old(project), nodes, renderer, now)
                        && store.projects == Some(old(store.Projects())[projectId := project])
      ensures store.users == old(store.users) && store.session == old(store.session)
    {
      if i > 0 {
        SwapPermutes(nodes, i - 1);
        SwapKeepsSelection(nodes, selected, panel, renderer, i - 1);
        nodes := Swap(nodes, i - 1);
        selected := FollowSwap(selected, i - 1);
        Save(now);
      }
    }

    /**
     * The move-down button of the element at `i`: it trades places with the
     * element after it and the project is saved; the last element stays and
     * nothing is saved. The selection follows the selected element.
     */
    method MoveDown(i: nat, now: string)
      requires Valid() && i < |nodes|
      modifies this, store
      ensures Valid()
      ensures Selection() == old(Selection()) && panel == old(panel)
      ensures selected == if i + 1 < |old(nodes)| then FollowSwap(old(selected), i) else old(selected)
      ensures multiset(nodes) == multiset(old(nodes))
      ensures i + 1 == |old(nodes)| ==> nodes == old(nodes) && project == old(project) && store.projects == old(store.projects)
      ensures i + 1 < |old(nodes)| ==> nodes == Swap(old(nodes), i) && project == SavedProject(old(project), nodes, renderer, now)
                                       && store.projects == Some(old(store.Projects())[projectId := project])
      ensures store.users == old(store.users) && store.session == old(store.session)
    {
      if i + 1 < |nodes| {
        SwapPermutes(nodes, i);
        SwapKeepsSelection(nodes, selected, panel, renderer, i);
        nodes := Swap(nodes, i);
        selected := FollowSwap(selected, i);
        Save(now);
      }
    }

    /**
     * The delete button of the element at `i`, with the answer to the
     * confirmation. Confirmed, the element goes, a selection of it is
     * cleared, and the project is saved; declined, nothing happens.
     */
    method Delete(i: nat, confirmed: bool, now: string)
      requires Valid() && i < |nodes|
      modifies this, store
      ensures Valid()
      ensures !confirmed ==> && nodes == old(nodes) && selected == old(selected) && panel == old(panel)
                             && project == old(project) && store.projects == old(store.projects)
      ensures confirmed ==> && nodes == RemoveAt(old(nodes), i)
                            && project == SavedProject(old(project), nodes, renderer, now)
                            && store.projects == Some(old(store.Projects())[projectId := project])
      ensures confirmed && old(selected) == Some(i) ==> selected == None && panel == EmptyPanel
      ensures confirmed && old(selected) != Some(i) ==>
        selected == FollowRemove(old(selected), i) && Selection() == old(Selection()) && panel == old(panel)
      ensures store.users == old(store.users) && store.session == old(store.session)
    {
      if confirmed {
        if selected == Some(i) {
          RemoveSelected(nodes, panel, renderer, i);
          selected := None;
          panel := EmptyPanel;
        } else {
          RemoveKeepsSelection(nodes, selected, panel, renderer, i);
          selected := FollowRemove(selected, i);
        }
        nodes := RemoveAt(nodes, i);
        Save(now);
      }
    }

    /**
     * A change in the property panel: the form's values are applied to the
     * selected element, if any, and the project is saved either way. The
     * panel keeps what was typed.
     */
    method EditProperties(f: FormValues, now: string)
      requires Valid()
      modifies this, store
      ensures Valid()
      ensures old(selected).Some? ==>
        nodes == old(nodes)[old(selected).value := ApplyForm(old(nodes)[old(selected).value], f)]
      ensures old(selected).None? ==> nodes == old(nodes)
      ensures selected == old(selected) && panel == old(panel)
      ensures project == SavedProject(old(project), nodes, renderer, now)
      ensures store.projects == Some(old(store.Projects())[projectId := project])
      ensures store.users == old(store.users) && store.session == old(store.session)
    {
      if selected.Some? {
        EditKeepsValid(nodes, selected, panel, renderer, f);
        nodes := nodes[selected.value := ApplyForm(nodes[selected.value], f)];
      }
      Save(now);
    }
  }
}
