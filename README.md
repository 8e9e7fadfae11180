# Recipe book — a Dafny model

The recipe book is a browser page where a user adds recipes and then browses and searches them.
A recipe has a name, ingredients, preparation steps and one image. There are two front
ends with the same purpose: a React component (`src/App.tsx`) and a plain-DOM script
(`src/app.js`). They differ in the details listed below. This project models the logic the two share, and each front end's state
and event handlers:

- **Search.** A recipe is kept when the lower-cased term occurs in its lower-cased name,
  in one of its ingredients or in one of its instructions. Stored order is kept.
- **Form normalisation.** The text areas are split on line breaks. The React component
  trims every line and drops the empty ones; it also trims the name. The script keeps
  non-blank lines exactly as typed.
- **The store.** Submitting without an image is refused. Otherwise the new recipe is
  appended and the whole collection is written to local storage. Lookup by id returns
  the first recipe with that id.
- **The listing.** The list area shows a "no recipes found" placeholder or one card per
  recipe, with its ingredient and step counts.
- **The detail overlay.** Opening it binds a recipe and sets the shown flag; closing it
  clears both in the React component.

Files:

- `wrappers.dfy` (`Wrappers`): `Option`, `Result`, `Outcome`.
- `text.dfy` (`Text`): the JavaScript string operations the code calls. These are
  `toLowerCase` on ASCII letters, `trim` with ECMAScript's white-space and
  line-terminator set, `split` on one character (with `Join` as its inverse), and
  `includes`.
- `recipes.dfy` (`Recipes`): the `Recipe` record, the search, line normalisation,
  lookup by id, the listing, and the storage slot.
- `react_app.dfy` (`ReactApp`): class `RecipeBook`. Its fields are the component's
  `useState` hooks and the storage slot; its methods are the setters and handlers.
- `script_app.dfy` (`ScriptApp`): class `RecipeScript`. Its fields are the variables and
  page elements the `DOMContentLoaded` handler works on. Its methods are the listeners
  and helper functions, with the search callback's and `displayRecipes`' loops.

Behaviour of the code worth knowing, including where the two front ends differ:

- Unparsable text in local storage makes `JSON.parse` throw in both files
  (`src/App.tsx:27`, `src/app.js:14`). Loading therefore fails; it does not fall back to
  an empty book. In both front ends nothing is left to interact with:
  `RecipeBook.Mount` and `RecipeScript.Start` return no object.
- The two front ends read a stored empty string differently. React reads
  `getItem('recipes') || '[]'` (`src/App.tsx:27`), so `""` falls back to `'[]'` and
  mounts an empty book (`LoadWithFallback`). The script parses `""` itself
  (`src/app.js:14`), which throws (`Load`). Neither front end writes `""`.
- `src/app.js` sets no `onerror` on its `FileReader` (`src/app.js:50-82`). A failed read
  adds nothing and shows no message (`Submit` returns `NotLoaded`).
- `src/app.js:188-193` only hides the overlay. The recipe written into it stays
  (`RecipeScript.detail`). The React `closeModal` unbinds the recipe.
- The React submit stores whatever the preview holds when it runs (`src/App.tsx:63`).
  That can be `""` if the file read has not finished, or an earlier file's data.
  `HandleSubmit` uses the `imagePreview` field as it is.
- After a submit, `src/app.js:71` shows all recipes, whatever is in the search box.
- Ids are timestamps and nothing checks that they are unique. `LaterDuplicateNeverFound`
  shows that, of two recipes with the same id, the script (which looks the clicked card
  up by id, `src/app.js:157`) can never open the later one. The React card passes the
  recipe itself (`src/App.tsx:127`), so there both open.

## Model

| member | source | states |
|---|---|---|
| Text.Lower | src/App.tsx:83 | `toLowerCase` keeps the length and maps each character on its own: 'A'..'Z' to 'a'..'z', every other character to itself |
| Text.LowerIdempotent | src/App.tsx:83 | A lower-cased string holds no upper-case ASCII letter, and lower-casing it again changes nothing |
| Text.Trim | src/App.tsx:60 | The trimmed string neither starts nor ends with white space, and it is empty exactly when the input is all white space |
| Text.TrimSpec | src/App.tsx:60 | The input is some white space, then the trimmed string, then some white space: trimming removes nothing else |
| Text.TrimStartSpec | src/app.js:40-41 | Trimming the start keeps a suffix and drops only white space |
| Text.TrimEndSpec | src/app.js:40-41 | Trimming the end keeps a prefix and drops only white space |
| Text.Split | src/App.tsx:61-62 | Splitting gives at least one piece (`""` for the empty text), and no piece contains the separator |
| Text.JoinSplit | src/App.tsx:61-62 | Joining the pieces of a split with the separator gives the original text back |
| Text.SplitJoin | src/App.tsx:61-62 | Splitting a join of separator-free pieces gives those pieces back |
| Text.IncludesIff | src/App.tsx:85-87 | `includes` (`Text.Includes`) holds exactly when the needle occurs at some position of the haystack |
| Recipes.Search | src/App.tsx:82-89 | The shown recipes are a subsequence of the stored ones in stored order; a recipe is shown exactly when it is stored and matches (`Recipes.Matches`, the filter callback of src/App.tsx:84-88: its name, an ingredient or an instruction, lower-cased, includes the lower-cased term) |
| Recipes.SearchAppend | src/app.js:88-103 | Searching a list with one more recipe at the end gives the old result, plus that recipe if it matches |
| Recipes.SearchEmptyTerm | src/App.tsx:83-88 | The empty term shows every recipe, in order |
| Recipes.SearchKeepsAllMatching | src/App.tsx:82-89 | When every recipe matches, the search returns the whole list |
| Recipes.SearchIdempotent | src/App.tsx:82-89 | Searching the result again with the same term changes nothing |
| Recipes.SearchLowerTerm | src/App.tsx:83 | A term and its lower-cased form show the same recipes |
| Recipes.NameOccurrenceMatches | src/App.tsx:85 | A recipe whose lower-cased name contains the lower-cased term at some position matches |
| Recipes.TrimEach | src/App.tsx:61-62 | One trimmed line per line, in order |
| Recipes.TrimNonEmpty | src/App.tsx:61-62 | Every entry is non-empty with no white space at either end; the entries are the non-empty trimmed lines, in order, and there are no more of them than lines |
| Recipes.NonBlank | src/app.js:40-41 | The kept lines are the lines that are not all white space, untrimmed, in order |
| Recipes.TrimmedEntries | src/App.tsx:61-62 | Each stored ingredient or step is non-empty, trimmed at both ends and on one line; the entries follow the input lines in order and are no more than them |
| Recipes.RawEntries | src/app.js:40-41 | Each kept ingredient or step has a non-white-space character and no line break; the kept lines are input lines, in order |
| Recipes.TrimKeepsOut | src/App.tsx:61-62 | Trimming a line adds no character, in particular no line break |
| Recipes.TrimNonEmptyKeepsOut | src/App.tsx:61-62 | A character no line contains is in no normalised entry |
| Recipes.TrimNonEmptyIsTrimmedNonBlank | src/App.tsx:61-62 | Trimming then dropping empty lines equals dropping blank lines then trimming |
| Recipes.EntriesAgree | src/app.js:40-41 | On the same text, the React entries are the script's entries trimmed |
| Recipes.FindIndex | src/app.js:157 | The position of the first recipe with the id; nothing exactly when no recipe has it |
| Recipes.FindById | src/app.js:157-159 | The recipe found is stored, has the id, and sits at a position before which no recipe has the id (the first match); nothing is found exactly when no stored recipe has it |
| Recipes.LaterDuplicateNeverFound | src/app.js:157 | Of two recipes with the same id, the lookup returns the earlier one, never the later |
| Recipes.AppendedIsFound | src/app.js:157 | A recipe appended under an id no stored recipe has is the one the lookup finds |
| Recipes.CardsOf | src/app.js:138-152 | One card per recipe, in order |
| Recipes.Render | src/app.js:133-152 | The placeholder exactly when no recipe is shown, otherwise one card per recipe in order with its counts |
| Recipes.EmptyBookShowsPlaceholder | src/App.tsx:120-121 | With no recipes stored every search shows the placeholder |
| Recipes.Load | src/app.js:14 | The script's read fails exactly when the stored text does not parse, the empty string included; nothing stored loads as the empty book |
| Recipes.LoadWithFallback | src/App.tsx:27 | The React read fails exactly on unparsable text other than the empty string; nothing stored and the empty string both load as the empty book; on every other slot it agrees with the script's read |
| Recipes.Save | src/app.js:196-198 | What is saved loads back unchanged, by either front end's read |
| ReactApp.NewRecipeIsClean | src/App.tsx:58-65 | The recipe a submission builds (`ReactApp.NewRecipe`: trimmed name, trimmed non-empty lines, the preview, the given id and time) has a trimmed name, and each of its ingredients and steps is a clean entry |
| ReactApp.RecipeBook.constructor | src/App.tsx:14-24 | Initial state: no recipes, empty search, nothing selected, overlay hidden, empty form and preview |
| ReactApp.RecipeBook.Mount | src/App.tsx:14-29 | Mounting fails exactly when the stored text is neither empty nor parsable (the effect throws and no component is left); otherwise the loaded recipes (none for an absent entry or `""`) become the list and the rest of the state is initial |
| ReactApp.RecipeBook.LoadSaved | src/App.tsx:26-29 | The loaded collection, with `""` read as `'[]'`, becomes the recipe list; on a parse failure it reports the error and sets nothing |
| ReactApp.RecipeBook.SaveRecipes | src/App.tsx:31-34 | The list becomes the new list and storage holds exactly it |
| ReactApp.RecipeBook.SetSearchTerm | src/App.tsx:110 | The search term becomes the typed value |
| ReactApp.RecipeBook.EditForm | src/App.tsx:149-171 | The three text fields take the typed values; the image stays |
| ReactApp.RecipeBook.HandleImageChange | src/App.tsx:36-40 | No file: nothing changes; a file becomes the form's image |
| ReactApp.RecipeBook.PreviewLoaded | src/App.tsx:43-46 | The read's data URL becomes the preview |
| ReactApp.RecipeBook.HandleSubmit | src/App.tsx:50-80 | Without an image nothing changes; otherwise the recipe built from the form and preview is appended, storage loads back as the new list, and form and preview are reset |
| ReactApp.RecipeBook.FilteredRecipes | src/App.tsx:82-89 | The shown recipes are a subsequence of the list; a recipe is shown exactly when stored and matching; the empty term shows all |
| ReactApp.RecipeBook.RecipeGrid | src/App.tsx:120-136 | The placeholder exactly when nothing matches; always the placeholder for an empty book |
| ReactApp.RecipeBook.ShowRecipeDetails | src/App.tsx:91-94 | The recipe is selected, the flag is set, and the overlay is visible showing that recipe |
| ReactApp.RecipeBook.CloseModal | src/App.tsx:96-99 | Nothing is selected, the flag is clear, and the overlay is not visible |
| ReactApp.OverlayFollowsFlag | src/App.tsx:199 | The overlay is rendered (`ReactApp.RecipeBook.OverlayVisible`, the guard `showModal && selectedRecipe`) exactly when the flag is set, whenever flag and selection are set together |
| ScriptApp.ScriptRecipe | src/app.js:39-62 | The script's recipe has the name as typed, the data URL, and only non-blank ingredient and step lines |
| ScriptApp.FrontEndsAgree | src/app.js:39-41 | From the same form, the React recipe (`ReactApp.NewRecipe`) is the script's recipe with its name and lines trimmed, and has the same id, image and time |
| ScriptApp.RecipeMatches | src/app.js:89-102 | The loops with early returns answer exactly `Recipes.MatchesLowered`: whether the lower-cased name, an ingredient or an instruction contains the already lower-cased term |
| ScriptApp.FilterRecipes | src/app.js:86-103 | The filtered recipes are exactly the search result for the typed value |
| ScriptApp.RecipeScript.constructor | src/app.js:14 | The page state before the handler runs: the given recipes, empty form, hidden preview, overlay closed |
| ScriptApp.RecipeScript.Start | src/app.js:13-17 | Start-up fails exactly when the stored text does not parse, `""` included; otherwise the stored recipes are loaded and all of them are shown, with an empty form, a hidden preview and the overlay closed |
| ScriptApp.RecipeScript.EditForm | src/app.js:39-41 | The three text fields take the typed values; the file stays |
| ScriptApp.RecipeScript.SelectFile | src/app.js:20-22 | The file input's selection becomes the form's image |
| ScriptApp.RecipeScript.PreviewLoaded | src/app.js:25-28 | The preview shows the read's data URL |
| ScriptApp.RecipeScript.SaveToLocalStorage | src/app.js:196-198 | Storage holds exactly the recipe array |
| ScriptApp.RecipeScript.Submit | src/app.js:35-83 | No file or a failed read: nothing changes; otherwise exactly one recipe is pushed, storage loads back as the array, all recipes are shown, and the form and preview are reset |
| ScriptApp.RecipeScript.OnSearchInput | src/app.js:86-106 | The list area shows the search result for the typed value |
| ScriptApp.RecipeScript.DisplayRecipes | src/app.js:130-153 | The list area shows the placeholder for no recipes, otherwise one card per recipe in order with its counts |
| ScriptApp.RecipeScript.ShowRecipeDetails | src/app.js:156-185 | The first recipe with the id fills the overlay and the overlay opens; with no such recipe nothing changes |
| ScriptApp.RecipeScript.CloseModal | src/app.js:188-193 | The overlay is hidden and its content is kept |
| ScriptApp.CardsOfAppend | src/app.js:138-152 | Adding one recipe to the end adds its card to the end |
| ScriptApp.SubmittedIsFound | src/app.js:55-65 | A recipe submitted under a fresh id is the one its card opens |

## Left out

- Text.Lower: only ASCII 'A'..'Z' are lower-cased. Full Unicode `toLowerCase` (other scripts, characters whose lower-case form has a different length) is not modelled.
- Rendering: JSX, `innerHTML` templates and the DOM nodes are not modelled. Only the placeholder-or-cards decision and what a card shows are kept. The overlay's content is the recipe itself.
- FileReader and data-URL encoding are asynchronous browser APIs. The result of a read is a parameter: a data URL string, or an error for the script's submit.
- ScriptApp.RecipeScript.Submit: the read and its `onload` are one step. Editing the form between submitting and the end of the read is not modelled. The name and lines are taken at submit time, as the code does.
- Local storage and `JSON.stringify`/`JSON.parse` are not modelled. The slot is absent, holds the empty string, holds a recipe list, or holds other text that does not parse. Stored JSON that parses but is not a recipe list is not modelled.
- Clock reads: `Date.now()` and `new Date()` are clock reads, passed in as `id` and `dateAdded`. The script stores a `Date` object that JSON turns into a string; the model keeps the string.
- ScriptApp.RecipeScript.ShowRecipeDetails: the card-click listener's `parseInt(dataset.id)` and the listeners that call `closeModal` are not modelled. The id arrives as an integer.
- ScriptApp.RecipeScript.ShowRecipeDetails, ScriptApp.RecipeScript.CloseModal: the `setTimeout` show and hide transitions (`src/app.js:181-192`) are not modelled; `modalOpen` changes at once. This is not only cosmetic: reopening within 300 ms of a close lets the close's pending timer set `display = 'none'` after the open, so an overlay the model calls open is hidden on the page.
- ReactApp.RecipeBook.SaveRecipes, ReactApp.RecipeBook.HandleSubmit, ScriptApp.RecipeScript.SaveToLocalStorage, ScriptApp.RecipeScript.Submit: writes to local storage are assumed to succeed. `setItem` throws once the storage quota is exceeded, which data-URL images make reachable. Then the stored copy stays stale while the in-memory list has already grown (the queued `setRecipes` at `src/App.tsx:32`, the `push` at `src/app.js:65`), and the rest of the handler does not run: no form or preview reset in either front end, and no redisplay in the script. The model does not capture that state.
- `alert` messages and React's `useState`/`useEffect` scheduling are not modelled. The setters take effect in program order.
- The form's `required` attributes (`src/App.tsx:150-172`) are enforced by the browser before submit, so the model does not restate them.
