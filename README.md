# WebCraft website builder: a Dafny model of its core

WebCraft is a small browser site builder. A signed-in user creates projects
on a dashboard. A project is either a code project (HTML, CSS and JavaScript
text) or a visual project, whose page is built by dropping elements onto a
canvas. All data lives in the browser's `localStorage`.

The model covers four parts of the system.

- **The record store** (`Storage`, js/storage.js). A `Store` class holds the
  users collection, the projects collection (maps keyed by username and by
  project id) and the current-session username. Every operation the rest of
  the system uses is modelled:
  - `init`, `getUser`, `saveUser`, `getProject`, `saveProject`;
  - `deleteProject`, with its "did it exist" result;
  - the owner-filtered listing `getUserProjects`, with its loop;
  - `clearAll`.
- **Authentication** (`Auth`, js/auth.js):
  - the login and registration decisions, with their ordered error outcomes;
  - the submit handlers that write the users map and the session entry;
  - the `checkAuth` gate that decides when to redirect to the login page.
- **Project management** (`Dashboard`, js/dashboard.js):
  - the project id derived from the project name (the slug);
  - the validation order for a new project;
  - the initial code or visual document;
  - the editor links on project cards;
  - the card's delete button.
- **The visual editor** (`CanvasElements`, `CodeGen`, `VisualEditor`,
  js/visual-editor.js):
  - elements as they sit on the canvas, built from stored records by
    `createCanvasElement` and `applyProperties`;
  - the per-type default tables;
  - the property panel (`updatePropertiesPanel`, `setInitialPropertyValues`)
    and form edits (`applyPropertyChanges`);
  - the code generator `generateCodeFromElements`;
  - the record extraction done by `saveProject`;
  - the ownership gate on page load;
  - an `Editor` class. It holds the canvas as a sequence, the selected
    position and the panel. Its handlers are drop, select, deselect, move
    up, move down, delete (with the confirmation answer as input) and
    property edits, and each saves as the source does.

Browser state the code reads is passed in as explicit inputs:
- the browser's default computed style of an unstyled `<h2>` or `<p>` is a
  `Renderer` parameter;
- timestamps are `now` strings;
- `confirm` answers are booleans;
- the URL's `project` parameter is an `Option<string>`.

JavaScript built-ins are modelled in `JsString`: `trim`, ASCII
`toLowerCase`, `parseInt` on a leading decimal run, number-to-text with
`${n}`, and the global `"; "` replacement. JSON property values are `Json`
(`Str`, `Num` or `Null`). This keeps JavaScript truthiness ("", 0 and null
are falsy) and `parseInt` giving NaN, which is stored as `null`.

Three behaviours of the code are worth knowing:
- The new-project form refuses a name that is blank after trimming, and
  then an id some stored project already has. It does not refuse a name
  whose id is empty. A name without any letter or digit is therefore saved
  under the empty id (see "## Findings").
- Every save rewrites `lastModified` with the current time. A second save
  at the same `now` writes the same record (`VisualEditor.SaveIdempotent`),
  but two saves at different times do not.
- Opening a project and saving it again does not always store what was
  saved before. A cleared header or paragraph text reloads as "Header" or
  "Text paragraph", a size of 0 or `null` is skipped at load and then saved
  as the browser default, and a cleared alt text reloads as "Image".

## Model

| member | source | states |
|---|---|---|
| JsString.TrimShape | js/auth.js:16 | `trim` removes exactly a whitespace prefix and a whitespace suffix, and the result neither starts nor ends with whitespace |
| JsString.TrimEmptyIff | js/auth.js:16-20 | a field trims to "" exactly when it is all whitespace, so the "missing field" checks refuse blank input |
| JsString.TrimIdempotent | js/dashboard.js:64 | trimming an already trimmed name changes nothing |
| JsString.Decimal | js/visual-editor.js:595 | number-to-text is a non-empty digit string without a leading zero |
| JsString.DecimalValue | js/visual-editor.js:508 | the printed digits of `n` have the value `n` |
| JsString.ParseIntDecimal | js/visual-editor.js:662 | `parseInt` of a printed number followed by any non-digit text ("px", "%") gives the number back |
| JsString.DecimalInjective | js/visual-editor.js:595 | distinct numbers print differently |
| JsString.BreakDeclarationsComplete | js/visual-editor.js:604 | after the global replacement no "; " remains |
| JsString.BreakDeclarationsIdentity | js/visual-editor.js:604 | style text without "; " is left as it is |
| JsString.BreakDeclarationsAt | js/visual-editor.js:604 | each "; " becomes ";\n  " where it stands, and the text on either side is broken independently |
| Storage.InitCollection | js/storage.js:13-21 | `init` yields a present collection equal to the stored one, or to {} when none was stored |
| Storage.InitCollectionIdempotent | js/storage.js:13-21 | running `init` twice is running it once |
| Storage.Listed | js/storage.js:69-75 | a listing entry carries the record's own id if it has one, else its key; all other fields are the record's |
| Storage.Store.GetUser | js/storage.js:36-39 | the record under the username, and null exactly when the key is absent |
| Storage.Store.GetProject | js/storage.js:86-89 | the record under the id, and null exactly when the key is absent |
| Storage.Store.Init | js/storage.js:13-21 | a missing collection is created empty, existing data and the session are kept |
| Storage.Store.SaveUser | js/storage.js:46-50 | afterwards `getUser(username)` is the saved record and every other username reads as before; projects and session untouched |
| Storage.Store.SaveProject | js/storage.js:96-100 | afterwards `getProject(id)` is the saved record and every other id reads as before; users and session untouched |
| Storage.Store.DeleteProject | js/storage.js:107-117 | returns true exactly when the key was present; then the key is removed and nothing else, otherwise nothing is written |
| Storage.Store.GetUserProjects | js/storage.js:65-79 | one entry per stored project whose owner is the user, each key once, each entry the record with `id` defaulted to its key |
| Storage.Store.SetSession | js/auth.js:39 | the session entry names the user; users and projects untouched |
| Storage.Store.ClearAll | js/storage.js:139-144 | both collections are empty and no session remains |
| Auth.CheckLogin | js/auth.js:16-36 | each outcome in both directions: missing field first (trimmed username or empty password), then unknown user, then wrong password, success only on exact match |
| Auth.Login | js/auth.js:13-40 | the outcome is the decision on the stored users; only a successful login sets the session to the trimmed username, nothing else is written |
| Auth.PasswordNotTrimmed | js/auth.js:17-33 | a password differing from the stored one in any way, blanks included, is refused |
| Auth.CheckRegister | js/auth.js:52-81 | each outcome in both directions: missing username, email or password, then mismatch with the confirmation, then username taken; success builds the record of trimmed username and email and untrimmed password |
| Auth.Register | js/auth.js:49-87 | on success the record is stored under the username and the session set; on failure nothing is written; no existing user record ever changes |
| Auth.RegisterThenLogin | js/auth.js:16-86 | a user who has just registered can log in with the same name and password |
| Auth.LastSegment | js/auth.js:141-142 | the page name is the suffix after the last '/', contains no '/', and is the whole path when there is none |
| Auth.LastSegmentAfterSlash | js/auth.js:142 | the page name of `prefix/page` is `page` |
| Auth.NeedsLoginIff | js/auth.js:136-147 | the gate redirects exactly when nobody is signed in and the page is not index.html, login.html or "" |
| CanvasElements.Lookup | js/visual-editor.js:427 | a style property reads as set exactly when some declaration names it |
| CanvasElements.SetDeclLookup | js/visual-editor.js:455-461 | after a style assignment the property reads back the value assigned ("" removes it) and every other property reads as before |
| CanvasElements.SetDeclDistinct | js/visual-editor.js:508-510 | style assignments never declare one property twice |
| CanvasElements.StyleText | js/visual-editor.js:600 | the style attribute text is empty exactly when no declaration is set |
| CanvasElements.Create | js/visual-editor.js:178-228 | the canvas element keeps the record's type, and only header, text and image become their special forms |
| CanvasElements.TextStyleExplicit | js/visual-editor.js:505-520 | a header or text gets font-size (with "px"), color and text-align, in that order, each only when its property is truthy |
| CanvasElements.ImageStyleExplicit | js/visual-editor.js:521-527 | an image's style is its own max-width 100% followed by the width with "%" when that property is truthy |
| CanvasElements.DroppedHeader | js/visual-editor.js:536-558 | a dropped header is "New Header" at 32px, #333333, left aligned |
| CanvasElements.DroppedText | js/visual-editor.js:536-564 | a dropped text element is "New paragraph text" at 16px, #333333, left aligned |
| CanvasElements.DroppedImage | js/visual-editor.js:551-570 | a dropped image shows the placeholder with alt "Image" at 100% width |
| CanvasElements.ButtonPropertiesIgnored | js/visual-editor.js:502-529 | a button looks the same whatever its properties, so the button defaults never reach its style |
| CanvasElements.TextStyleShape | js/visual-editor.js:505-520 | a header or text gets an inline style exactly when fontSize, color or textAlign is truthy, with no property declared twice |
| CanvasElements.PanelChoice | js/visual-editor.js:305-344 | the panel is the placeholder exactly without a selection, the text form exactly for header, text and button (unfilled for button), the image form exactly for image, "coming soon" otherwise |
| CanvasElements.EditScope | js/visual-editor.js:440-495 | a form edit keeps the element's type and panel form and leaves every element other than header, text and image unchanged |
| CanvasElements.ButtonEditsIgnored | js/visual-editor.js:322-495 | a button is offered the unfilled text form and no edit ever changes it |
| CanvasElements.Extract | js/visual-editor.js:649-693 | a saved record keeps the element's type; a header or text keeps its text and stores the parsed font size and the color and alignment (inline, else the browser default); an image stores content "", its src and alt, and the parsed inline width or 100 when there is none; every other type is saved with content "" and properties {} |
| CanvasElements.TextRoundTrip | js/visual-editor.js:655-678 | a header or text record with text, a number size, a color and an alignment is saved back unchanged after loading |
| CanvasElements.ImageRoundTrip | js/visual-editor.js:679-686 | an image record with url, alt and a number width is saved back with the same properties after loading |
| CanvasElements.EditThenSave | js/visual-editor.js:445-480 | what is typed into the text form (text, size, color, alignment) is what the next save stores |
| CanvasElements.ImageEditThenSave | js/visual-editor.js:481-494 | what is typed into the image form (url, alt, width) is what the next save stores |
| CanvasElements.PanelCommitUnchanged | js/visual-editor.js:370-414 | committing the text form as it was filled in does not change the saved record, when the computed values need no fallback |
| CodeGen.GenerateAppend | js/visual-editor.js:593-636 | an element added last adds exactly its own HTML line and CSS rule at the end of the code |
| CodeGen.GeneratePrefix | js/visual-editor.js:593-636 | the code of the first i+1 elements extends that of the first i by element i's line and rule |
| CodeGen.ElementIdInjective | js/visual-editor.js:595 | ids are positional: two positions share an id exactly when they are equal |
| CodeGen.HtmlLineHasId | js/visual-editor.js:602-634 | every element's line carries `id="element-<index>"` |
| CodeGen.FallbackKeepsActions | js/visual-editor.js:632-634 | an element of any other type is emitted with its inner markup including the move-up, move-down and delete buttons |
| CodeGen.HtmlHasEveryId | js/visual-editor.js:586-639 | the HTML carries the id of every position on the canvas |
| CodeGen.CssRuleIff | js/visual-editor.js:603-627 | an element gets a rule exactly when it is a header, text or image with a non-empty inline style |
| CodeGen.CssRuleBody | js/visual-editor.js:604 | a rule is `#element-i {` with the style text broken at every "; " and without "; " left |
| CodeGen.CssEmptyIff | js/visual-editor.js:586-639 | the CSS is empty exactly when no element has an inline style |
| CodeGen.CreatedRuleIff | js/visual-editor.js:502-529 | a loaded header or text gets a rule exactly when fontSize, color or textAlign is truthy, an image always, other types never |
| VisualEditor.OpenEditor | js/visual-editor.js:8-31 | each gate outcome in both directions: login redirect when signed out, "No project specified." for a missing or empty parameter, the editor exactly for a stored project the user owns, otherwise refusal |
| VisualEditor.ForeignLooksMissing | js/visual-editor.js:25-31 | a project owned by someone else is refused exactly as a missing one |
| VisualEditor.SwapPermutes | js/visual-editor.js:253-267 | swapping neighbours twice restores the canvas, a swap is a permutation and touches only the two positions |
| VisualEditor.RemoveAtShape | js/visual-editor.js:272 | removing an element keeps all others in relative order, and only them |
| VisualEditor.ReloadableRoundTrip | js/visual-editor.js:644-693 | a record comes back unchanged when loaded and saved, if it meets the load's truthiness conditions: a header or text with non-empty text, a non-zero number size and a non-empty colour and alignment; an image with a non-empty url and alt and a non-zero number width; any other type with content "" and properties {} |
| VisualEditor.SaveAfterLoad | js/visual-editor.js:50-60 | a project of such records opened and saved at once stores the same records |
| VisualEditor.DroppedSaved | js/visual-editor.js:76-104 | a dropped header, text or image is saved with its defaults, sizes and widths as numbers and the image's content dropped |
| VisualEditor.SaveIdempotent | js/visual-editor.js:698-702 | a save replaces only records, code and time, and a second save at the same time writes the same record |
| VisualEditor.LoadCanvas | js/visual-editor.js:51-59 | one canvas element per stored record, in order |
| VisualEditor.SwapKeepsSelection | js/visual-editor.js:253-267 | after a swap the selection still designates the same element, and the canvas stays consistent |
| VisualEditor.RemoveKeepsSelection | js/visual-editor.js:269-279 | after removing an unselected element the selection still designates the same element |
| VisualEditor.RemoveSelected | js/visual-editor.js:269-279 | removing the selected element leaves a consistent canvas without selection and with the placeholder panel |
| VisualEditor.EditKeepsValid | js/visual-editor.js:440-495 | an edit of the selected element keeps the canvas consistent |
| VisualEditor.DropKeepsValid | js/visual-editor.js:76-104 | a dropped element appended and selected with its panel keeps the canvas consistent |
| VisualEditor.Editor.constructor | js/visual-editor.js:45-60 | the editor opens on the very project the ownership gate opened, its records on the canvas in order, nothing selected, the placeholder panel |
| VisualEditor.Editor.GenerateCode | js/visual-editor.js:586-639 | the accumulated html and css are those of the whole canvas |
| VisualEditor.Editor.ExtractRecords | js/visual-editor.js:644-693 | the records collected are the saved form of every element, in canvas order |
| VisualEditor.Editor.Save | js/visual-editor.js:644-705 | the project's records, html, css and time are replaced and it is written under the page's id; canvas and selection untouched |
| VisualEditor.Editor.Drop | js/visual-editor.js:76-105 | exactly one element built from the type's defaults is appended, earlier elements unchanged, it is selected with its panel, and the project is saved |
| VisualEditor.Editor.Select | js/visual-editor.js:288-300 | the clicked element is the single selection and the panel is its own |
| VisualEditor.Editor.ClickCanvas | js/visual-editor.js:717-725 | the selection is cleared; the panel becomes the placeholder only if something was selected |
| VisualEditor.Editor.MoveUp | js/visual-editor.js:253-259 | the element trades places with its predecessor and the project is saved; the first element stays and nothing is saved; always a permutation; the selected position follows the selected element (`FollowSwap`) |
| VisualEditor.Editor.MoveDown | js/visual-editor.js:261-267 | the element trades places with its successor and the project is saved; the last element stays and nothing is saved; always a permutation; the selected position follows the selected element (`FollowSwap`) |
| VisualEditor.Editor.Delete | js/visual-editor.js:269-279 | confirmed: exactly that element goes and the project is saved; a selection of it is cleared, any other selected position shifts to keep its element (`FollowRemove`); declined: nothing changes |
| VisualEditor.Editor.EditProperties | js/visual-editor.js:350-364 | the form is applied to the selected element only, and the project is saved either way |
| Dashboard.ReplaceRunsShape | js/dashboard.js:76 | replacing runs leaves only slug characters and single hyphens and keeps every letter and digit |
| Dashboard.SlugShape | js/dashboard.js:74-77 | an id consists of a-z, 0-9 and '-', with no hyphen at either end and no two hyphens in a row |
| Dashboard.SlugKeepsLetters | js/dashboard.js:74-77 | an id keeps every letter and digit of the lower-cased name, in order |
| Dashboard.SlugEmptyIff | js/dashboard.js:74-77 | an id is empty exactly when the lower-cased name has no letter a-z and no digit |
| Dashboard.SlugOfSlug | js/dashboard.js:74-77 | a string of id shape is its own id |
| Dashboard.SlugIdempotent | js/dashboard.js:74-77 | deriving the id of an id changes nothing |
| Dashboard.ReplaceRunsAppend | js/dashboard.js:76 | text ending in a letter or digit is replaced independently of what follows it |
| Dashboard.ReplaceRunsJoin | js/dashboard.js:76 | a non-empty run of other characters between a letter or digit and a letter or digit becomes exactly one hyphen |
| Dashboard.SlugJoin | js/dashboard.js:74-77 | the id of two words joined by a run of other characters is the two words' ids joined by one hyphen |
| Dashboard.SlugDropsEdgeRuns | js/dashboard.js:74-77 | runs of other characters before the first and after the last letter or digit leave no hyphen in the id |
| Dashboard.SlugExample | js/dashboard.js:74-77 | the id of "My Cool Site!!" is "my-cool-site" |
| Dashboard.NewProject | js/dashboard.js:87-117 | id, title, owner, type, both times and empty JavaScript as given; for code the starter page and style sheet and no elements, for visual empty code and the two starter elements |
| Dashboard.VisualStarterCanvas | js/dashboard.js:97-116 | a new visual project opens with the centred 32px #3498db header and the centred 16px #333333 paragraph |
| Dashboard.CheckCreateAsWritten | js/dashboard.js:64-84 | as written: a blank name is refused first, then an id already stored (whoever owns it), otherwise the new record under the derived id |
| Dashboard.BangsUnsluggable | js/dashboard.js:74-77 | "!!!" is a non-blank name without letters or digits |
| Dashboard.EmptyIdUnopenable | js/dashboard.js:74-84 | as written, such a name creates a project under the empty id, which the editor's gate never opens |
| Dashboard.CheckCreate | js/dashboard.js:64-84 | corrected: a name whose id is empty is refused like a blank one, then a stored id, otherwise the new record under the derived id |
| Dashboard.CreatedProjectOpens | js/dashboard.js:120-135 | every project the corrected check creates opens in the editor for its owner |
| Dashboard.CheckCreateAgrees | js/dashboard.js:64-84 | the corrected and the written check agree on every name whose id is non-empty |
| Dashboard.CreateProject | js/dashboard.js:61-120 | as written: the outcome is `CheckCreateAsWritten`; on success the record is saved under its id (the empty id included) and the redirect is the editor of its type; otherwise nothing is written and there is no redirect |
| Dashboard.CreateProjectCorrected | js/dashboard.js:61-120 | corrected: the outcome is `CheckCreate`; a created project has a non-empty id, is saved under it and redirected to; otherwise nothing is written |
| Dashboard.CardMatchesRedirect | js/dashboard.js:193 | the new project's card links to the same editor page the redirect went to |
| Dashboard.CreateKeepsIds | js/dashboard.js:87-120 | creating a project keeps every record's own id equal to its key |
| Dashboard.EditorSaveKeepsIds | js/visual-editor.js:698-705 | a save from the visual editor keeps ids equal to keys |
| Dashboard.ListedIdIsKey | js/storage.js:69-75 | while ids equal keys, every listing entry, and so every card and delete button, names the key it came from |
| Dashboard.DeleteFromCard | js/dashboard.js:202-207 | confirmed: the project under the entry's id (or under "undefined" for an entry without one) is gone and every other project reads as before; declined: nothing is written |

The definitions the rows above speak about model these source functions:
- `CanvasElements.DefaultContent` and `DefaultProperties` model `getDefaultContentForType` and `getDefaultPropertiesForType`.
- `CanvasElements.Create` models `createCanvasElement`, and `TextStyle` and `ImageStyle` model `applyProperties`.
- `CanvasElements.PanelFor` models `updatePropertiesPanel` with `setInitialPropertyValues`.
- `CanvasElements.ApplyForm` models `applyPropertyChanges`.
- `CanvasElements.Extract` models the record extraction of `saveProject`.
- `CodeGen.HtmlLine`, `CssRule`, `Html` and `Css` model the body and the result of `generateCodeFromElements`.
- `VisualEditor.Hydrate` models the loading loop of the editor page, and `SavedProject` the record `saveProject` writes.
- `VisualEditor.OpenEditor` models the ownership gate.
- `Dashboard.Slug` models the id derivation of the new-project handler.
- `Auth.NeedsLogin` models `checkAuth`.

## Left out

- Storage.Store.GetUserProjects: the order of the listing is not stated. JavaScript's `for...in` order depends on key insertion and on integer-like keys, and the model states only which entries appear.
- CanvasElements.Extract: the browser reports a computed colour as `rgb(...)`. The model stores the declared colour text instead, because colour normalisation is browser behaviour.
- CanvasElements.Create: URLs are not resolved. `img.src` reads back as an absolute URL in the browser, while the model keeps the text as written.
- CanvasElements.StyleText: the serialisation is always the canonical `name: value;` joined by spaces. A browser returns the literal `max-width:100%;` attribute of an image whose style was never touched by script.
- CanvasElements.ApplyTextValues: only an empty size is treated as an invalid CSS value. Other values a browser would reject (a non-numeric size, an unknown colour) are kept as declared.
- HTML parsing and escaping are not modelled. Text and attribute values are inserted and read back verbatim, so markup inside content is not re-interpreted.
- JsString.ParseInt handles a leading decimal run only. There is no leading whitespace, sign, radix or hex handling: the system only passes it printed numbers and CSS lengths.
- JsString.ToLower maps ASCII letters only. Non-ASCII case mappings that produce ASCII letters (such as the Kelvin sign) are not modelled.
- Keys that name members of JavaScript's `Object.prototype` are not modelled: collections are plain maps. In the browser, `users[name]` and `projects[id]` are truthy for such keys even when nothing is stored. So a project name whose id is "constructor" is refused as a duplicate (js/dashboard.js:81). A username such as "constructor", "toString" or "__proto__" gets "Username already taken." at registration (js/auth.js:69-72) and "Incorrect password." at login (js/auth.js:25-33). The model creates and registers them.
- Dashboard.NewProject: `createdAt` and `lastModified` are the one `now` parameter. The source reads the clock twice (js/dashboard.js:92-93), so the two can differ by a millisecond.
- The browser's default style of an unstyled `<h2>` or `<p>` is a `Renderer` parameter. The model does not compute it.
- After an edit, the panel keeps the values the user typed. The model keeps only which form the panel shows.
- The editor treats the panel shown on load as the placeholder.
- DOM event wiring is not modelled: drag-and-drop data transfer, keyup versus change events, CSS classes marking the selection, modals, the "drop elements here" message and the "Saved!" flash. These are UI.
- Timers are not modelled: the 30-second auto-save and the delayed redirects. Saving is a callable method.
- The preview document and its iframe are not modelled. They are template text written to a foreign rendering surface.
- The login/register form switching, the `signup` URL parameter, logout, the username displays, and the dashboard's own signed-in check are not modelled. The dashboard's check is the `Auth` gate; `CreateProject` takes the signed-in user as input.
- Project card rendering is not modelled: title, date and type labels. The view link and `Storage.getProjectUrl` are fixed URL text and are not modelled.
- `Storage.generateId` is not modelled. It uses the clock and a random number, and nothing in the core calls it.
- Timestamps and `confirm` answers are parameters, not computed.
- js/editor.js (the code editor) and js/main.js (landing page) are not part of this model.

## Findings

| source | as written | input that shows it | evidently intended | confidence | as-written member | corrected member |
|---|---|---|---|---|---|---|
| js/dashboard.js:64-84 | the form refuses a blank trimmed name and an id already stored, but not an empty id, so a name with no letter or digit is saved under the empty id "", and the editor link `?project=` then fails with "No project specified." (js/visual-editor.js:18-22) | project name "!!!" while no project is stored under "" | refuse a name whose derived id is empty, as a blank name is refused, so every created project can be opened | high, not executed | Dashboard.CheckCreateAsWritten, Dashboard.EmptyIdUnopenable | Dashboard.CheckCreate, Dashboard.CreatedProjectOpens, Dashboard.CreateProjectCorrected |
