/**
 * The dashboard's project management (js/dashboard.js): the project id
 * derived from the project name, the creation of a code or visual project
 * with its starter content, the links on a project card and its delete
 * button.
 */
module Dashboard {
  import opened Wrappers
  import opened JsString
  import opened Storage
  import opened Auth
  import opened VisualEditor

  // ---------------------------------------------------------------- slug

  /** The characters `[a-z0-9]` keeps. */
  predicate IsSlugChar(c: char) {
    'a' <= c <= 'z' || '0' <= c <= '9'
  }

  /** The hyphen a run leaves behind, once it is known that a run was read. */
  function Hyphen(pending: bool): string {
    if pending then "-" else []
  }

  /**
   * `replace(/[^a-z0-9]+/g, '-')` read left to right: `pending` says that a
   * run of other characters has been read and its hyphen not yet written.
   * The hyphen goes out before the next slug character or at the end.
   */
  function ReplaceRunsFrom(s: string, pending: bool): string
    decreases |s|
  {
    if s == [] then Hyphen(pending)
    else if IsSlugChar(s[0]) then Hyphen(pending) + [s[0]] + ReplaceRunsFrom(s[1..], false)
    else ReplaceRunsFrom(s[1..], true)
  }

  /** Every maximal run of characters other than `[a-z0-9]` becomes one hyphen. */
  function ReplaceRuns(s: string): string {
    ReplaceRunsFrom(s, false)
  }

  function DropLeadingHyphens(s: string): (r: string)
    ensures |r| <= |s|
    ensures r == [] || r[0] != '-'
  {
    if s == [] || s[0] != '-' then s else DropLeadingHyphens(s[1..])
  }

  /** Stripping leading hyphens leaves a suffix of the text. */
  lemma {:induction false} DropLeadingSuffix(s: string)
    ensures DropLeadingHyphens(s) == s[|s| - |DropLeadingHyphens(s)|..]
    decreases |s|
  {
    if s != [] && s[0] == '-' {
      DropLeadingSuffix(s[1..]);
    }
  }

  function DropTrailingHyphens(s: string): (r: string)
    ensures |r| <= |s|
    ensures r == [] || r[|r| - 1] != '-'
  {
    if s == [] || s[|s| - 1] != '-' then s else DropTrailingHyphens(s[..|s| - 1])
  }

  /** Stripping trailing hyphens leaves a prefix of the text. */
  lemma {:induction false} DropTrailingPrefix(s: string)
    ensures DropTrailingHyphens(s) == s[..|DropTrailingHyphens(s)|]
    decreases |s|
  {
    if s != [] && s[|s| - 1] == '-' {
      DropTrailingPrefix(s[..|s| - 1]);
    }
  }

  /** The project id of a project name: lower-cased, runs replaced, edge hyphens stripped. */
  function Slug(name: string): string {
    DropTrailingHyphens(DropLeadingHyphens(ReplaceRuns(ToLower(name))))
  }

  predicate NoDoubleHyphen(s: string) {
    forall k :: 0 <= k < |s| - 1 ==> s[k] != '-' || s[k + 1] != '-'
  }

  predicate SlugAlphabet(s: string) {
    forall k :: 0 <= k < |s| ==> IsSlugChar(s[k]) || s[k] == '-'
  }

  /** The shape of an id: slug characters and single inner hyphens. */
  predicate IsSlug(s: string) {
    && SlugAlphabet(s)
    && (s == [] || (s[0] != '-' && s[|s| - 1] != '-'))
    && NoDoubleHyphen(s)
  }

  lemma SuffixKeepsShape(s: string, i: nat)
    requires i <= |s| && SlugAlphabet(s) && NoDoubleHyphen(s)
    ensures SlugAlphabet(s[i..]) && NoDoubleHyphen(s[i..])
  {
    assert forall k :: 0 <= k < |s[i..]| ==> s[i..][k] == s[i + k];
  }

  lemma PrefixKeepsShape(s: string, j: nat)
    requires j <= |s| && SlugAlphabet(s) && NoDoubleHyphen(s)
    ensures SlugAlphabet(s[..j]) && NoDoubleHyphen(s[..j])
  {
    assert forall k :: 0 <= k < j ==> s[..j][k] == s[k];
  }

  /** The slug characters of a string, in order. */
  function SlugLetters(s: string): string {
    if s == [] then [] else (if IsSlugChar(s[0]) then [s[0]] else []) + SlugLetters(s[1..])
  }

  lemma {:induction false} SlugLettersAppend(a: string, b: string)
    ensures SlugLetters(a + b) == SlugLetters(a) + SlugLetters(b)
    decreases |a|
  {
    if a != [] {
      assert (a + b)[1..] == a[1..] + b;
      SlugLettersAppend(a[1..], b);
    } else {
      assert a + b == b;
    }
  }

  /** Writing one slug character after the hyphen a run left keeps the shape. */
  lemma EmitShape(pending: bool, c: char, t: string)
    requires IsSlugChar(c) && SlugAlphabet(t) && NoDoubleHyphen(t)
    ensures var r := Hyphen(pending) + [c] + t;
            SlugAlphabet(r) && NoDoubleHyphen(r) && SlugLetters(r) == [c] + SlugLetters(t)
            && r[0] == (if pending then '-' else c)
  {
    var h := Hyphen(pending);
    var r := h + [c] + t;
    assert forall k :: 0 <= k < |t| ==> r[|h| + 1 + k] == t[k];
    assert r[|h|] == c;
    forall k | 0 <= k < |r| - 1 ensures r[k] != '-' || r[k + 1] != '-' {
      if k >= |h| + 1 {
        assert r[k] == t[k - |h| - 1] && r[k + 1] == t[k - |h|];
      }
    }
    SlugLettersAppend(h + [c], t);
    SlugLettersAppend(h, [c]);
    assert SlugLetters([c]) == [c] + SlugLetters([]);
  }

  lemma {:induction false} ReplaceRunsFromShape(s: string, pending: bool)
    ensures var r := ReplaceRunsFrom(s, pending);
            && SlugAlphabet(r) && NoDoubleHyphen(r)
            && (r != [] && r[0] == '-' ==> pending || (s != [] && !IsSlugChar(s[0])))
            && SlugLetters(r) == SlugLetters(s)
    decreases |s|
  {
    if s == [] {
    } else if IsSlugChar(s[0]) {
      ReplaceRunsFromShape(s[1..], false);
      EmitShape(pending, s[0], ReplaceRunsFrom(s[1..], false));
    } else {
      ReplaceRunsFromShape(s[1..], true);
    }
  }

  /**
   * Replacing runs leaves only slug characters and single hyphens, keeps
   * every letter and digit, and starts with a hyphen only where the text
   * starts with a run.
   */
  lemma ReplaceRunsShape(s: string)
    ensures SlugAlphabet(ReplaceRuns(s))
    ensures NoDoubleHyphen(ReplaceRuns(s))
    ensures ReplaceRuns(s) != [] && ReplaceRuns(s)[0] == '-' ==> s != [] && !IsSlugChar(s[0])
    ensures SlugLetters(ReplaceRuns(s)) == SlugLetters(s)
  {
    ReplaceRunsFromShape(s, false);
  }

  lemma {:induction false} DropLeadingLetters(s: string)
    ensures SlugLetters(DropLeadingHyphens(s)) == SlugLetters(s)
    decreases |s|
  {
    if s != [] && s[0] == '-' {
      DropLeadingLetters(s[1..]);
    }
  }

  lemma DropTrailingLetters(s: string)
    ensures SlugLetters(DropTrailingHyphens(s)) == SlugLetters(s)
  {
    var r := DropTrailingHyphens(s);
    DropTrailingPrefix(s);
    var tail := s[|r|..];
    forall k | 0 <= k < |tail| ensures tail[k] == '-' {
      TrailingHyphensDropped(s, |r| + k);
    }
    assert s == r + tail;
    SlugLettersAppend(r, tail);
    NoLettersInHyphens(tail);
  }

  lemma {:induction false} TrailingHyphensDropped(s: string, k: int)
    requires |DropTrailingHyphens(s)| <= k < |s|
    ensures s[k] == '-'
    decreases |s|
  {
    if s[|s| - 1] == '-' && k < |s| - 1 {
      TrailingHyphensDropped(s[..|s| - 1], k);
    }
  }

  lemma {:induction false} NoLettersInHyphens(s: string)
    requires forall k :: 0 <= k < |s| ==> s[k] == '-'
    ensures SlugLetters(s) == []
    decreases |s|
  {
    if s != [] {
      NoLettersInHyphens(s[1..]);
    }
  }

  /** Every id is made of slug characters and single inner hyphens. */
  lemma SlugShape(name: string)
    ensures IsSlug(Slug(name))
  {
    ReplaceRunsShape(ToLower(name));
    StripShape(ReplaceRuns(ToLower(name)));
  }

  lemma StripShape(a: string)
    requires SlugAlphabet(a) && NoDoubleHyphen(a)
    ensures IsSlug(DropTrailingHyphens(DropLeadingHyphens(a)))
  {
    var b := DropLeadingHyphens(a);
    DropLeadingSuffix(a);
    SuffixKeepsShape(a, |a| - |b|);
    var c := DropTrailingHyphens(b);
    DropTrailingPrefix(b);
    PrefixKeepsShape(b, |c|);
    assert c != [] ==> c[0] == b[0];
  }

  /** The id keeps every letter and digit of the lower-cased name, in order, and nothing else of it. */
  lemma SlugKeepsLetters(name: string)
    ensures SlugLetters(Slug(name)) == SlugLetters(ToLower(name))
  {
    ReplaceRunsShape(ToLower(name));
    DropLeadingLetters(ReplaceRuns(ToLower(name)));
    DropTrailingLetters(DropLeadingHyphens(ReplaceRuns(ToLower(name))));
  }

  lemma {:induction false} SlugLettersEmptyIff(s: string)
    ensures SlugLetters(s) == [] <==> forall k :: 0 <= k < |s| ==> !IsSlugChar(s[k])
    decreases |s|
  {
    if s != [] {
      SlugLettersEmptyIff(s[1..]);
      assert forall k :: 1 <= k < |s| ==> s[k] == s[1..][k - 1];
    }
  }

  /** The id is empty exactly when the lower-cased name has no letter a-z and no digit. */
  lemma SlugEmptyIff(name: string)
    ensures Slug(name) == [] <==> forall k :: 0 <= k < |name| ==> !IsSlugChar(LowerChar(name[k]))
  {
    var s := Slug(name);
    SlugShape(name);
    SlugKeepsLetters(name);
    SlugLettersEmptyIff(s);
    SlugLettersEmptyIff(ToLower(name));
    if s != [] {
      assert IsSlugChar(s[0]);
    }
  }

  /** A hyphen still to be written comes out just before what follows. */
  lemma PendingHyphen(s: string)
    requires s == [] || IsSlugChar(s[0])
    ensures ReplaceRunsFrom(s, true) == "-" + ReplaceRunsFrom(s, false)
  {
    if s != [] {
      assert Hyphen(true) + [s[0]] + ReplaceRunsFrom(s[1..], false)
          == "-" + (Hyphen(false) + [s[0]] + ReplaceRunsFrom(s[1..], false));
    }
  }

  lemma {:induction false} ReplaceRunsIdentity(s: string)
    requires SlugAlphabet(s) && NoDoubleHyphen(s)
    ensures ReplaceRuns(s) == s
    decreases |s|
  {
    if s != [] {
      var t := s[1..];
      SuffixKeepsShape(s, 1);
      ReplaceRunsIdentity(t);
      if IsSlugChar(s[0]) {
        assert ReplaceRuns(s) == Hyphen(false) + [s[0]] + t;
      } else {
        assert t != [] ==> t[0] == s[1] && IsSlugChar(t[0]);
        PendingHyphen(t);
        assert ReplaceRuns(s) == "-" + t;
      }
      assert s == [s[0]] + t;
    }
  }

  /** An id is its own id: deriving twice changes nothing. */
  lemma SlugOfSlug(s: string)
    requires IsSlug(s)
    ensures Slug(s) == s
  {
    assert ToLower(s) == s;
    ReplaceRunsIdentity(s);
  }

  lemma SlugIdempotent(name: string)
    ensures Slug(Slug(name)) == Slug(name)
  {
    SlugShape(name);
    SlugOfSlug(Slug(name));
  }

  /** A run of characters that `[a-z0-9]` does not match. */
  predicate IsRun(w: string) {
    forall k :: 0 <= k < |w| ==> !IsSlugChar(w[k])
  }

  lemma {:induction false} ReplaceRunsFromAppend(a: string, t: string, pending: bool)
    requires a != [] && IsSlugChar(a[|a| - 1])
    ensures ReplaceRunsFrom(a + t, pending) == ReplaceRunsFrom(a, pending) + ReplaceRunsFrom(t, false)
    decreases |a|
  {
    assert (a + t)[0] == a[0];
    assert (a + t)[1..] == a[1..] + t;
    if IsSlugChar(a[0]) {
      var h := Hyphen(pending) + [a[0]];
      if a[1..] == [] {
        assert a[1..] + t == t;
        assert ReplaceRunsFrom(a, pending) == h + [];
      } else {
        ReplaceRunsFromAppend(a[1..], t, false);
        assert h + (ReplaceRunsFrom(a[1..], false) + ReplaceRunsFrom(t, false))
            == (h + ReplaceRunsFrom(a[1..], false)) + ReplaceRunsFrom(t, false);
      }
    } else {
      ReplaceRunsFromAppend(a[1..], t, true);
    }
  }

  /** Text that ends in a slug character is replaced independently of what follows it. */
  lemma ReplaceRunsAppend(a: string, t: string)
    requires a == [] || IsSlugChar(a[|a| - 1])
    ensures ReplaceRuns(a + t) == ReplaceRuns(a) + ReplaceRuns(t)
  {
    if a == [] {
      assert a + t == t;
    } else {
      ReplaceRunsFromAppend(a, t, false);
    }
  }

  /** A run leaves a single hyphen before what follows it, if that starts with a slug character. */
  lemma {:induction false} ReplaceRunsFromRun(w: string, b: string, pending: bool)
    requires w != [] && IsRun(w) && (b == [] || IsSlugChar(b[0]))
    ensures ReplaceRunsFrom(w + b, pending) == "-" + ReplaceRunsFrom(b, false)
    decreases |w|
  {
    assert (w + b)[0] == w[0];
    assert (w + b)[1..] == w[1..] + b;
    if |w| == 1 {
      assert w[1..] + b == b;
      PendingHyphen(b);
    } else {
      assert IsRun(w[1..]) by {
        assert forall k :: 0 <= k < |w[1..]| ==> w[1..][k] == w[k + 1];
      }
      ReplaceRunsFromRun(w[1..], b, true);
    }
  }

  /** A run between two slug characters (or at the very start or end) becomes exactly one hyphen. */
  lemma ReplaceRunsJoin(a: string, w: string, b: string)
    requires a == [] || IsSlugChar(a[|a| - 1])
    requires w != [] && IsRun(w)
    requires b == [] || IsSlugChar(b[0])
    ensures ReplaceRuns(a + w + b) == ReplaceRuns(a) + "-" + ReplaceRuns(b)
  {
    assert a + w + b == a + (w + b);
    ReplaceRunsAppend(a, w + b);
    ReplaceRunsFromRun(w, b, false);
  }

  lemma ReplaceRunsOfRun(w: string)
    requires IsRun(w)
    ensures ReplaceRuns(w) == Hyphen(w != [])
  {
    if w != [] {
      ReplaceRunsFromRun(w, [], false);
      assert w + [] == w;
    }
  }

  lemma {:induction false} ReplaceRunsFromLast(s: string, pending: bool)
    requires s != [] && IsSlugChar(s[|s| - 1])
    ensures var r := ReplaceRunsFrom(s, pending); r != [] && r[|r| - 1] == s[|s| - 1]
    decreases |s|
  {
    if |s| > 1 {
      ReplaceRunsFromLast(s[1..], !IsSlugChar(s[0]));
    }
  }

  /** A name that starts and ends with a letter or digit (after lower-casing). */
  predicate Word(x: string) {
    x != [] && IsSlugChar(LowerChar(x[0])) && IsSlugChar(LowerChar(x[|x| - 1]))
  }

  /** Such a name loses nothing at its edges: its id is its replaced lower-cased text, which keeps both ends. */
  lemma WordSlug(x: string)
    requires Word(x)
    ensures Slug(x) == ReplaceRuns(ToLower(x))
    ensures Slug(x) != [] && IsSlugChar(Slug(x)[0]) && IsSlugChar(Slug(x)[|Slug(x)| - 1])
  {
    var l := ToLower(x);
    ReplaceRunsFromLast(l, false);
    var r := ReplaceRuns(l);
    assert r[0] == l[0];
    assert DropLeadingHyphens(r) == r;
    assert DropTrailingHyphens(r) == r;
  }

  lemma ToLowerAppend(a: string, b: string)
    ensures ToLower(a + b) == ToLower(a) + ToLower(b)
  {
  }

  /**
   * The hyphens of an id: a run of other characters between two parts that
   * start and end with a letter or digit becomes exactly one hyphen.
   */
  lemma SlugJoin(a: string, w: string, b: string)
    requires Word(a) && Word(b)
    requires w != [] && IsRun(ToLower(w))
    ensures Slug(a + w + b) == Slug(a) + "-" + Slug(b)
  {
    ToLowerAppend(a + w, b);
    ToLowerAppend(a, w);
    var la, lw, lb := ToLower(a), ToLower(w), ToLower(b);
    ReplaceRunsJoin(la, lw, lb);
    WordSlug(a);
    WordSlug(b);
    var r := ReplaceRuns(la) + "-" + ReplaceRuns(lb);
    assert r[0] == Slug(a)[0];
    assert DropLeadingHyphens(r) == r;
    assert r[|r| - 1] == Slug(b)[|Slug(b)| - 1];
    assert DropTrailingHyphens(r) == r;
  }

  lemma DropLeadingOne(x: string)
    requires x == [] || x[0] != '-'
    ensures DropLeadingHyphens("-" + x) == x
  {
    assert ("-" + x)[1..] == x;
  }

  lemma DropTrailingOne(x: string)
    requires x == [] || x[|x| - 1] != '-'
    ensures DropTrailingHyphens(x + "-") == x
  {
    assert (x + "-")[..|x|] == x;
  }

  /** Runs before and after a lower-cased word become one hyphen each. */
  lemma ReplaceRunsEdges(l1: string, lx: string, l2: string)
    requires lx != [] && IsSlugChar(lx[0]) && IsSlugChar(lx[|lx| - 1])
    requires IsRun(l1) && IsRun(l2)
    ensures ReplaceRuns(l1 + lx + l2) == Hyphen(l1 != []) + (ReplaceRuns(lx) + Hyphen(l2 != []))
  {
    ReplaceRunsAppend(l1 + lx, l2);
    ReplaceRunsOfRun(l2);
    if l1 == [] {
      assert l1 + lx == lx;
    } else {
      ReplaceRunsFromRun(l1, lx, false);
    }
  }

  /** Stripping the edge hyphens off a text that has at most one at each end. */
  lemma StripEdges(p1: bool, m: string, p2: bool)
    requires m != [] && m[0] != '-' && m[|m| - 1] != '-'
    ensures DropTrailingHyphens(DropLeadingHyphens(Hyphen(p1) + (m + Hyphen(p2)))) == m
  {
    var h1, h2 := Hyphen(p1), Hyphen(p2);
    if !p1 {
      assert h1 + (m + h2) == m + h2;
    } else {
      DropLeadingOne(m + h2);
    }
    if !p2 {
      assert m + h2 == m;
    } else {
      DropTrailingOne(m);
    }
  }

  /** Runs of other characters at either end of a name leave no hyphen in its id. */
  lemma SlugDropsEdgeRuns(w1: string, x: string, w2: string)
    requires Word(x) && IsRun(ToLower(w1)) && IsRun(ToLower(w2))
    ensures Slug(w1 + x + w2) == Slug(x)
  {
    ToLowerAppend(w1 + x, w2);
    ToLowerAppend(w1, x);
    var l1, lx, l2 := ToLower(w1), ToLower(x), ToLower(w2);
    WordSlug(x);
    ReplaceRunsEdges(l1, lx, l2);
    StripEdges(l1 != [], ReplaceRuns(lx), l2 != []);
  }

  /** Three lower-case words separated by single runs, the last one followed by a run. */
  lemma ReplaceRunsThreeWords(x: string, y: string, z: string, w1: string, w2: string, w3: string)
    requires IsSlug(x) && IsSlug(y) && IsSlug(z) && x != [] && y != [] && z != []
    requires w1 != [] && w2 != [] && w3 != [] && IsRun(w1) && IsRun(w2) && IsRun(w3)
    ensures ReplaceRuns(x + w1 + (y + w2 + (z + w3))) == Hyphen(false) + (x + "-" + (y + "-" + z) + Hyphen(true))
  {
    ReplaceRunsIdentity(x);
    ReplaceRunsIdentity(y);
    ReplaceRunsIdentity(z);
    ReplaceRunsJoin(x, w1, y + w2 + (z + w3));
    ReplaceRunsJoin(y, w2, z + w3);
    ReplaceRunsAppend(z, w3);
    ReplaceRunsOfRun(w3);
  }

  /** The id of "My Cool Site!!" is "my-cool-site". */
  lemma SlugExample(name: string)
    requires name == "My Cool Site!!"
    ensures Slug(name) == "my-cool-site"
  {
    var l := ToLower(name);
    assert l == "my" + " " + ("cool" + " " + ("site" + "!!"));
    ReplaceRunsThreeWords("my", "cool", "site", " ", " ", "!!");
    assert "my" + "-" + ("cool" + "-" + "site") == "my-cool-site";
    StripEdges(false, "my-cool-site", true);
  }

  // ---------------------------------------------------- project creation

  /** The outcome of submitting the new-project form. */
  datatype CreateOutcome = EmptyName | DuplicateId(id: string) | Created(id: string, project: Project) {
    /** The alert shown when the form is refused. */
    function Message(): string {
      match this
      case EmptyName => "Please enter a project name."
      case DuplicateId(_) => "A project with a similar name already exists. Please choose a different name."
      case Created(_, _) => ""
    }
  }

  const CodeStarterHtml :=
    "<!DOCTYPE html>\n<html>\n<head>\n  <title>My Website</title>\n</head>\n<body>\n"
    + "  <h1>Welcome to my website!</h1>\n  <p>This is a new website created with WebCraft.</p>\n</body>\n</html>"

  const CodeStarterCss :=
    "body {\n  font-family: Arial, sans-serif;\n  margin: 0;\n  padding: 20px;\n  line-height: 1.6;\n}\n\n"
    + "h1 {\n  color: #3498db;\n}"

  /** The two elements a new visual project starts with: a centred header and a centred paragraph. */
  const VisualStarter: seq<ElementData> := [
    ElementData("header", "Welcome to my website!",
      map["fontSize" := Str("32"), "textAlign" := Str("center"), "color" := Str("#3498db")]),
    ElementData("text", "This is a new website created with WebCraft.",
      map["fontSize" := Str("16"), "textAlign" := Str("center"), "color" := Str("#333333")])
  ]

  /**
   * The new project record: a code project gets the starter page and style
   * sheet and no elements, a visual project empty code and the two starter
   * elements; both start with empty JavaScript and both timestamps `now`.
   */
  function NewProject(id: string, title: string, owner: string, editorType: string, now: string): (p: Project)
    ensures p.id == Some(id) && p.title == title && p.owner == owner && p.editorType == editorType
    ensures p.createdAt == now && p.lastModified == now && p.js == ""
    ensures editorType == "code" ==> p.html == CodeStarterHtml && p.css == CodeStarterCss && p.elements == []
    ensures editorType == "visual" ==> p.html == "" && p.css == "" && p.elements == VisualStarter
  {
    Project(Some(id), title, owner, editorType, now, now,
      if editorType == "code" then CodeStarterHtml else "",
      if editorType == "code" then CodeStarterCss else "",
      "",
      if editorType == "visual" then VisualStarter else [])
  }

  /**
   * A new visual project opens with its header and paragraph styled in the
   * order applyProperties writes them (size, color, alignment), not in the
   * order the starter record lists them.
   */
  lemma VisualStarterCanvas()
    ensures Hydrate(VisualStarter) == [
      CanvasElements.Heading("Welcome to my website!",
        [CanvasElements.Decl("font-size", "32px"), CanvasElements.Decl("color", "#3498db"),
         CanvasElements.Decl("text-align", "center")]),
      CanvasElements.Paragraph("This is a new website created with WebCraft.",
        [CanvasElements.Decl("font-size", "16px"), CanvasElements.Decl("color", "#333333"),
         CanvasElements.Decl("text-align", "center")])]
  {
    StarterStyle(VisualStarter[0].properties, "32", "#3498db");
    StarterStyle(VisualStarter[1].properties, "16", "#333333");
    assert "32" + "px" == "32px" && "16" + "px" == "16px";
    var hydrated := Hydrate(VisualStarter);
    assert hydrated[0] == CanvasElements.Create(VisualStarter[0]);
    assert hydrated[1] == CanvasElements.Create(VisualStarter[1]);
  }

  lemma StarterStyle(props: map<string, Json>, size: string, color: string)
    requires size != "" && color != ""
    requires props == map["fontSize" := Str(size), "textAlign" := Str("center"), "color" := Str(color)]
    ensures CanvasElements.TextStyle(props) ==
      [CanvasElements.Decl("font-size", size + "px"), CanvasElements.Decl("color", color),
       CanvasElements.Decl("text-align", "center")]
  {
    CanvasElements.TextStyleExplicit(props);
    assert CanvasElements.Prop(props, "fontSize") == Str(size) && CanvasElements.Prop(props, "color") == Str(color)
      && CanvasElements.Prop(props, "textAlign") == Str("center");
    assert color + "" == color && "center" + "" == "center";
  }

  /**
   * The form check as the dashboard writes it: a blank name is refused, and
   * so is an id some stored project already has, whoever owns it. A name
   * without any letter or digit passes with the empty id.
   */
  function CheckCreateAsWritten(projects: map<string, Project>, rawName: string, editorType: string,
                                owner: string, now: string): (r: CreateOutcome)
    ensures r.EmptyName? <==> Trim(rawName) == ""
    ensures r.DuplicateId? <==> Trim(rawName) != "" && Slug(Trim(rawName)) in projects
    ensures !r.EmptyName? ==> r.id == Slug(Trim(rawName))
    ensures r.Created? ==> r.project == NewProject(r.id, Trim(rawName), owner, editorType, now)
  {
    var name := Trim(rawName);
    if name == "" then EmptyName
    else if Slug(name) in projects then DuplicateId(Slug(name))
    else Created(Slug(name), NewProject(Slug(name), name, owner, editorType, now))
  }

  /** A name that is not blank but has no letter or digit, such as "!!!". */
  predicate Unsluggable(rawName: string) {
    Trim(rawName) != "" && forall k :: 0 <= k < |Trim(rawName)| ==> !IsSlugChar(LowerChar(Trim(rawName)[k]))
  }

  lemma BangsUnsluggable()
    ensures Unsluggable("!!!")
  {
    assert TrimStart("!!!") == "!!!";
    assert TrimEnd("!!!") == "!!!";
  }

  /**
   * Such a name creates a project under the empty id, and the editor link
   * for it, `?project=`, never opens it.
   */
  lemma EmptyIdUnopenable(projects: map<string, Project>, rawName: string, owner: string,
                          editorType: string, now: string)
    requires Unsluggable(rawName) && owner != "" && "" !in projects
    ensures CheckCreateAsWritten(projects, rawName, editorType, owner, now).Created?
    ensures CheckCreateAsWritten(projects, rawName, editorType, owner, now).id == ""
    ensures var p := CheckCreateAsWritten(projects, rawName, editorType, owner, now).project;
            OpenEditor(Some(owner), Some(""), projects["" := p]) == NoProject
  {
    SlugEmptyIff(Trim(rawName));
  }

  /**
   * The form check with that case closed: a name whose id would be empty is
   * refused like a blank one.
   */
  function CheckCreate(projects: map<string, Project>, rawName: string, editorType: string,
                       owner: string, now: string): (r: CreateOutcome)
    ensures r.EmptyName? <==> Slug(Trim(rawName)) == ""
    ensures r.DuplicateId? <==> Slug(Trim(rawName)) != "" && Slug(Trim(rawName)) in projects
    ensures !r.EmptyName? ==> r.id == Slug(Trim(rawName))
    ensures r.Created? ==> r.project == NewProject(r.id, Trim(rawName), owner, editorType, now)
  {
    var name := Trim(rawName);
    if name == "" || Slug(name) == "" then EmptyName
    else if Slug(name) in projects then DuplicateId(Slug(name))
    else Created(Slug(name), NewProject(Slug(name), name, owner, editorType, now))
  }

  /** Every project the corrected check creates opens in the editor for its owner. */
  lemma CreatedProjectOpens(projects: map<string, Project>, rawName: string, editorType: string,
                            owner: string, now: string)
    requires owner != ""
    ensures var r := CheckCreate(projects, rawName, editorType, owner, now);
            r.Created? ==> OpenEditor(Some(owner), Some(r.id), projects[r.id := r.project]) == Open(r.project)
  {
  }

  /** The two checks differ only on names that have no letter or digit. */
  lemma CheckCreateAgrees(projects: map<string, Project>, rawName: string, editorType: string,
                          owner: string, now: string)
    requires Slug(Trim(rawName)) != ""
    ensures CheckCreate(projects, rawName, editorType, owner, now)
            == CheckCreateAsWritten(projects, rawName, editorType, owner, now)
  {
    if Trim(rawName) == "" {
      SlugEmptyIff(Trim(rawName));
    }
  }

  /** The page an editor link or the post-creation redirect leads to. */
  function EditorLink(editorType: string, id: string): string {
    (if editorType == "code" then "editor.html" else "visual-editor.html") + "?project=" + id
  }

  /** A project card's edit link, from the listing entry. */
  function CardLink(p: Project): string {
    EditorLink(p.editorType, if p.id.Some? then p.id.value else "")
  }

  /**
   * Submitting the new-project form, with the form check the dashboard
   * runs: on success the record is saved under its id and the page goes to
   * the matching editor; otherwise nothing is written.
   */
  method CreateProject(store: Store, currentUser: string, rawName: string, editorType: string, now: string)
    returns (r: CreateOutcome, redirect: Option<string>)
    modifies store
    ensures r == CheckCreateAsWritten(old(store.Projects()), rawName, editorType, currentUser, now)
    ensures r.Created? ==> store.projects == Some(old(store.Projects())[r.id := r.project])
    ensures r.Created? ==> redirect == Some(EditorLink(editorType, r.id))
    ensures !r.Created? ==> store.projects == old(store.projects) && redirect == None
    ensures store.users == old(store.users) && store.session == old(store.session)
  {
    r := CheckCreateAsWritten(store.Projects(), rawName, editorType, currentUser, now);
    if r.Created? {
      store.SaveProject(r.id, r.project);
      redirect := Some(EditorLink(editorType, r.id));
    } else {
      redirect := None;
    }
  }

  /**
   * The same submission with the corrected form check: a name without any
   * letter or digit is refused and writes nothing.
   */
  method CreateProjectCorrected(store: Store, currentUser: string, rawName: string, editorType: string, now: string)
    returns (r: CreateOutcome, redirect: Option<string>)
    modifies store
    ensures r == CheckCreate(old(store.Projects()), rawName, editorType, currentUser, now)
    ensures r.Created? ==> r.id != "" && store.projects == Some(old(store.Projects())[r.id := r.project])
    ensures r.Created? ==> redirect == Some(EditorLink(editorType, r.id))
    ensures !r.Created? ==> store.projects == old(store.projects) && redirect == None
    ensures store.users == old(store.users) && store.session == old(store.session)
  {
    r := CheckCreate(store.Projects(), rawName, editorType, currentUser, now);
    if r.Created? {
      store.SaveProject(r.id, r.project);
      redirect := Some(EditorLink(editorType, r.id));
    } else {
      redirect := None;
    }
  }

  /** The created project's card links to the same editor page the redirect went to. */
  lemma CardMatchesRedirect(projects: map<string, Project>, rawName: string, editorType: string,
                            owner: string, now: string)
    ensures var r := CheckCreateAsWritten(projects, rawName, editorType, owner, now);
            r.Created? ==> CardLink(Listed(r.id, r.project)) == EditorLink(editorType, r.id)
  {
  }

  /** Every stored record whose own id is set carries the key it is stored under. */
  predicate IdsMatchKeys(projects: map<string, Project>) {
    forall k :: k in projects && projects[k].id.Some? ==> projects[k].id.value == k
  }

  /** Creating a project keeps ids and keys in step. */
  lemma CreateKeepsIds(projects: map<string, Project>, rawName: string, editorType: string,
                       owner: string, now: string)
    requires IdsMatchKeys(projects)
    ensures var r := CheckCreateAsWritten(projects, rawName, editorType, owner, now);
            r.Created? ==> IdsMatchKeys(projects[r.id := r.project])
  {
  }

  /** A save from the visual editor, which writes the opened record back under its key, keeps them in step too. */
  lemma EditorSaveKeepsIds(projects: map<string, Project>, session: Option<string>, id: string,
                           nodes: seq<CanvasElements.Node>, r: CanvasElements.Renderer, now: string)
    requires IdsMatchKeys(projects)
    requires OpenEditor(session, Some(id), projects).Open?
    ensures IdsMatchKeys(projects[id := SavedProject(projects[id], nodes, r, now)])
  {
  }

  /** While ids and keys are in step, every listing entry names the key it came from. */
  lemma ListedIdIsKey(projects: map<string, Project>, key: string)
    requires IdsMatchKeys(projects) && key in projects
    ensures Listed(key, projects[key]).id == Some(key)
  {
  }

  // ------------------------------------------------------ project deletion

  /**
   * The key a card's delete button passes to `deleteProject`: the entry's id,
   * or, for an entry without one, JavaScript's property-key text of
   * `undefined`.
   */
  function CardKey(entry: Project): string {
    if entry.id.Some? then entry.id.value else "undefined"
  }

  /**
   * A card's delete button, with the answer to the confirmation: confirmed,
   * the project under the entry's key is deleted; declined, nothing is
   * written.
   */
  method DeleteFromCard(store: Store, entry: Project, confirmed: bool)
    modifies store
    ensures confirmed ==> store.GetProject(CardKey(entry)) == None
    ensures confirmed ==> forall k :: k != CardKey(entry) ==> store.GetProject(k) == old(store.GetProject(k))
    ensures !confirmed ==> store.projects == old(store.projects)
    ensures store.users == old(store.users) && store.session == old(store.session)
  {
    if confirmed {
      var _ := store.DeleteProject(CardKey(entry));
    }
  }
}
