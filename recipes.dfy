/**
 * The recipe book's logic shared by its two front ends (the React component and the
 * plain-DOM script): the Recipe record, the case-insensitive search, the
 * normalisation of the multi-line form fields, lookup by id, the decision between the
 * "no recipes found" placeholder and one card per recipe, and the persisted slot.
 */
module Recipes {
  import opened Wrappers
  import opened Text

  // ---------------------------------------------------------------- data model

  /** One recipe. `id` is the creation timestamp and `dateAdded` its ISO-8601 form. */
  datatype Recipe = Recipe(
    id: int,
    name: string,
    ingredients: seq<string>,
    instructions: seq<string>,
    imageData: string,
    dateAdded: string)

  /** A file chosen in the image input; its bytes are never inspected by the core. */
  datatype ImageFile = ImageFile(fileName: string)

  /** The add-recipe form: three text fields and the selected image file, if any. */
  datatype Form = Form(name: string, ingredients: string, instructions: string, image: Option<ImageFile>)

  /** The form as first shown and as reset after a successful submission. */
  const EmptyForm := Form("", "", "", None)

  /** `a` is `b` with some elements left out, the rest kept in their order. */
  ghost predicate IsSubsequence<T>(a: seq<T>, b: seq<T>)
    decreases |b|
  {
    if a == [] then true
    else if b == [] then false
    else (a[0] == b[0] && IsSubsequence(a[1..], b[1..])) || IsSubsequence(a, b[1..])
  }

  // ---------------------------------------------------------------- search

  /** Some line, lower-cased, contains `needle`: the `.some(...)` over a recipe's lines. */
  predicate SomeLineIncludes(lines: seq<string>, needle: string) {
    exists i :: 0 <= i < |lines| && Includes(Lower(lines[i]), needle)
  }

  /** The search callback, given the already lower-cased term. */
  predicate MatchesLowered(r: Recipe, needle: string) {
    || Includes(Lower(r.name), needle)
    || SomeLineIncludes(r.ingredients, needle)
    || SomeLineIncludes(r.instructions, needle)
  }

  /** A recipe is kept by the search for `term` (which is lower-cased first). */
  predicate Matches(r: Recipe, term: string) {
    MatchesLowered(r, Lower(term))
  }

  /**
   * The recipes shown for a search term: those that match, in stored order.
   * A recipe is kept exactly when it is stored and matches.
   */
  function Search(recipes: seq<Recipe>, term: string): (kept: seq<Recipe>)
    ensures |kept| <= |recipes|
    ensures IsSubsequence(kept, recipes)
    ensures forall r :: r in kept <==> r in recipes && Matches(r, term)
    decreases |recipes|
  {
    if recipes == [] then []
    else if Matches(recipes[0], term) then [recipes[0]] + Search(recipes[1..], term)
    else Search(recipes[1..], term)
  }

  /** Searching a list extended by one recipe extends the result by that recipe if it matches. */
  lemma {:induction false} SearchAppend(recipes: seq<Recipe>, r: Recipe, term: string)
    ensures Search(recipes + [r], term) == Search(recipes, term) + (if Matches(r, term) then [r] else [])
    decreases |recipes|
  {
    if recipes == [] {
      assert recipes + [r] == [r];
      assert [r][1..] == [];
    } else {
      assert (recipes + [r])[1..] == recipes[1..] + [r];
      assert (recipes + [r])[0] == recipes[0];
      SearchAppend(recipes[1..], r, term);
    }
  }

  /** Every string includes "", so the empty term keeps every recipe, in order. */
  lemma {:induction false} SearchEmptyTerm(recipes: seq<Recipe>)
    ensures Search(recipes, "") == recipes
    decreases |recipes|
  {
    if recipes != [] {
      assert Lower("") == "";
      assert Matches(recipes[0], "");
      SearchEmptyTerm(recipes[1..]);
      assert recipes == [recipes[0]] + recipes[1..];
    }
  }

  /** A search whose recipes all match keeps them all. */
  lemma {:induction false} SearchKeepsAllMatching(recipes: seq<Recipe>, term: string)
    requires forall r :: r in recipes ==> Matches(r, term)
    ensures Search(recipes, term) == recipes
    decreases |recipes|
  {
    if recipes != [] {
      assert recipes[0] in recipes;
      SearchKeepsAllMatching(recipes[1..], term);
      assert recipes == [recipes[0]] + recipes[1..];
    }
  }

  /** Searching the result of a search again with the same term changes nothing. */
  lemma SearchIdempotent(recipes: seq<Recipe>, term: string)
    ensures Search(Search(recipes, term), term) == Search(recipes, term)
  {
    SearchKeepsAllMatching(Search(recipes, term), term);
  }

  /** The search is case-insensitive: a term and its lower-cased form show the same recipes. */
  lemma {:induction false} SearchLowerTerm(recipes: seq<Recipe>, term: string)
    ensures Search(recipes, Lower(term)) == Search(recipes, term)
    decreases |recipes|
  {
    LowerIdempotent(term);
    if recipes != [] {
      SearchLowerTerm(recipes[1..], term);
    }
  }

  /** A recipe whose lower-cased name contains the lower-cased term is found. */
  lemma NameOccurrenceMatches(r: Recipe, term: string, i: int)
    requires OccursAt(Lower(r.name), Lower(term), i)
    ensures Matches(r, term)
  {
    IncludesIff(Lower(r.name), Lower(term));
  }

  // ---------------------------------------------------------------- form normalisation

  /** Each line trimmed: the `.map(line => line.trim())` step. */
  function TrimEach(lines: seq<string>): (r: seq<string>)
    ensures |r| == |lines|
    ensures forall i :: 0 <= i < |lines| ==> r[i] == Trim(lines[i])
    decreases |lines|
  {
    if lines == [] then [] else [Trim(lines[0])] + TrimEach(lines[1..])
  }

  /**
   * Trim each line and drop the empty ones (`.map(trim).filter(Boolean)`): every entry is
   * non-empty and has no white space at either end; the entries are the non-empty
   * trimmed lines, in order, and no more of them than there were lines.
   */
  function TrimNonEmpty(lines: seq<string>): (r: seq<string>)
    ensures |r| <= |lines|
    ensures forall i :: 0 <= i < |r| ==> r[i] != "" && !IsSpace(r[i][0]) && !IsSpace(r[i][|r[i]| - 1])
    ensures IsSubsequence(r, TrimEach(lines))
    ensures forall x :: x in r <==> x in TrimEach(lines) && x != ""
    decreases |lines|
  {
    if lines == [] then []
    else
      var t := Trim(lines[0]);
      assert TrimEach(lines) == [t] + TrimEach(lines[1..]);
      if t == "" then TrimNonEmpty(lines[1..]) else [t] + TrimNonEmpty(lines[1..])
  }

  /**
   * Drop the lines whose trimmed form is empty (`.filter(item => item.trim() !== '')`):
   * the kept lines are the non-blank lines themselves, untrimmed, in order.
   */
  function NonBlank(lines: seq<string>): (r: seq<string>)
    ensures |r| <= |lines|
    ensures forall i :: 0 <= i < |r| ==> !IsBlank(r[i])
    ensures IsSubsequence(r, lines)
    ensures forall x :: x in r <==> x in lines && !IsBlank(x)
    decreases |lines|
  {
    if lines == [] then []
    else if IsBlank(lines[0]) then NonBlank(lines[1..])
    else [lines[0]] + NonBlank(lines[1..])
  }

  /** A stored entry as the React form makes it: non-empty, trimmed at both ends, on one line. */
  predicate IsCleanEntry(e: string) {
    e != "" && !IsSpace(e[0]) && !IsSpace(e[|e| - 1]) && '\n' !in e
  }

  /** The React form's ingredient or instruction list: split on '\n', trim, drop empty lines. */
  function TrimmedEntries(text: string): (entries: seq<string>)
    ensures |entries| <= |Split(text, '\n')|
    ensures forall i :: 0 <= i < |entries| ==> IsCleanEntry(entries[i])
    ensures IsSubsequence(entries, TrimEach(Split(text, '\n')))
  {
    var lines := Split(text, '\n');
    TrimNonEmptyKeepsOut(lines, '\n');
    TrimNonEmpty(lines)
  }

  /** The script's ingredient or instruction list: split on '\n', drop blank lines, keep the rest as typed. */
  function RawEntries(text: string): (entries: seq<string>)
    ensures |entries| <= |Split(text, '\n')|
    ensures forall i :: 0 <= i < |entries| ==> !IsBlank(entries[i]) && '\n' !in entries[i]
    ensures IsSubsequence(entries, Split(text, '\n'))
  {
    var lines := Split(text, '\n');
    var entries := NonBlank(lines);
    assert forall i :: 0 <= i < |entries| ==> entries[i] in lines;
    entries
  }

  /** A character that does not occur in a line does not occur in the trimmed line either. */
  lemma TrimKeepsOut(s: string, c: char)
    requires c !in s
    ensures c !in Trim(s)
  {
    var r := Trim(s);
    var k := |s| - |TrimStart(s)|;
    TrimSpec(s);
    forall i | 0 <= i < |r| ensures r[i] != c {
      assert r[i] == s[k + i];
    }
  }

  /** A character that no line holds is in no entry of the trimmed, non-empty lines. */
  lemma {:induction false} TrimNonEmptyKeepsOut(lines: seq<string>, c: char)
    requires forall i :: 0 <= i < |lines| ==> c !in lines[i]
    ensures forall i :: 0 <= i < |TrimNonEmpty(lines)| ==> c !in TrimNonEmpty(lines)[i]
    decreases |lines|
  {
    if lines != [] {
      TrimKeepsOut(lines[0], c);
      TrimNonEmptyKeepsOut(lines[1..], c);
    }
  }

  /**
   * The two front ends agree up to trimming: trimming the lines the script keeps gives
   * exactly the entries the React form stores.
   */
  lemma {:induction false} TrimNonEmptyIsTrimmedNonBlank(lines: seq<string>)
    ensures TrimNonEmpty(lines) == TrimEach(NonBlank(lines))
    decreases |lines|
  {
    if lines != [] {
      TrimNonEmptyIsTrimmedNonBlank(lines[1..]);
      if !IsBlank(lines[0]) {
        assert NonBlank(lines) == [lines[0]] + NonBlank(lines[1..]);
        assert TrimEach(NonBlank(lines)) == [Trim(lines[0])] + TrimEach(NonBlank(lines[1..]));
      }
    }
  }

  /** Both front ends, on the same text. */
  lemma EntriesAgree(text: string)
    ensures TrimmedEntries(text) == TrimEach(RawEntries(text))
  {
    TrimNonEmptyIsTrimmedNonBlank(Split(text, '\n'));
  }

  // ---------------------------------------------------------------- lookup by id

  /** The position of the first recipe with this id (`findIndex`), or nothing. */
  function FindIndex(recipes: seq<Recipe>, id: int): (k: Option<nat>)
    ensures k.Some? ==> k.value < |recipes| && recipes[k.value].id == id
    ensures k.Some? ==> forall j :: 0 <= j < k.value ==> recipes[j].id != id
    ensures k.None? <==> forall j :: 0 <= j < |recipes| ==> recipes[j].id != id
    decreases |recipes|
  {
    if recipes == [] then None
    else if recipes[0].id == id then Some(0)
    else match FindIndex(recipes[1..], id)
      case None => None
      case Some(k) => Some(k + 1)
  }

  /** `recipes.find(r => r.id === id)`: the first recipe with this id, or nothing. */
  function FindById(recipes: seq<Recipe>, id: int): (found: Option<Recipe>)
    ensures found.Some? ==> found.value in recipes && found.value.id == id
    ensures found.Some? ==>
      exists k :: 0 <= k < |recipes| && recipes[k] == found.value && (forall j :: 0 <= j < k ==> recipes[j].id != id)
    ensures found.None? <==> forall r :: r in recipes ==> r.id != id
  {
    match FindIndex(recipes, id)
    case None => None
    case Some(k) => Some(recipes[k])
  }

  /**
   * Ids are timestamps and nothing checks them for uniqueness: of two recipes that share
   * an id, the later one is never found.
   */
  lemma LaterDuplicateNeverFound(recipes: seq<Recipe>, i: nat, j: nat)
    requires i < j < |recipes| && recipes[i].id == recipes[j].id
    ensures FindIndex(recipes, recipes[j].id) != Some(j)
    ensures FindIndex(recipes, recipes[j].id).Some?
  {
  }

  /** A recipe appended under an id no earlier recipe has is the one found for that id. */
  lemma AppendedIsFound(recipes: seq<Recipe>, r: Recipe)
    requires forall x :: x in recipes ==> x.id != r.id
    ensures FindById(recipes + [r], r.id) == Some(r)
  {
    var all := recipes + [r];
    assert all[|recipes|] == r;
    var k := FindIndex(all, r.id);
    assert k.Some?;
  }

  // ---------------------------------------------------------------- listing

  /** What one card shows: image, name, and the ingredient and step counts. */
  datatype Card = Card(id: int, name: string, imageData: string, ingredientCount: nat, stepCount: nat)

  /** The recipe list area: the placeholder, or one card per recipe shown. */
  datatype Listing = NoRecipesFound | Cards(cards: seq<Card>)

  /** The card for one recipe. */
  function CardOf(r: Recipe): Card
  {
    Card(r.id, r.name, r.imageData, |r.ingredients|, |r.instructions|)
  }

  /** One card per recipe, in order. */
  function CardsOf(shown: seq<Recipe>): (cards: seq<Card>)
    ensures |cards| == |shown|
    ensures forall i :: 0 <= i < |shown| ==> cards[i] == CardOf(shown[i])
    decreases |shown|
  {
    if shown == [] then [] else [CardOf(shown[0])] + CardsOf(shown[1..])
  }

  /**
   * The list area for the recipes shown: the placeholder exactly when there are none,
   * otherwise one card per recipe, in order, with its ingredient and step counts.
   */
  function Render(shown: seq<Recipe>): (v: Listing)
    ensures v.NoRecipesFound? <==> shown == []
    ensures v.Cards? ==> |v.cards| == |shown|
    ensures v.Cards? ==> forall i :: 0 <= i < |shown| ==>
      v.cards[i].id == shown[i].id
      && v.cards[i].ingredientCount == |shown[i].ingredients|
      && v.cards[i].stepCount == |shown[i].instructions|
  {
    if shown == [] then NoRecipesFound else Cards(CardsOf(shown))
  }

  /** With no recipes stored, every search shows the placeholder. */
  lemma EmptyBookShowsPlaceholder(term: string)
    ensures Search([], term) == [] && Render(Search([], term)) == NoRecipesFound
  {
  }

  // ---------------------------------------------------------------- persistence

  /**
   * The 'recipes' slot of the browser's local storage: never written, holding the empty
   * string, holding the serialised array of recipes, or holding other text that does not
   * parse. Neither front end writes the empty string; something else on the page can.
   */
  datatype Slot = Absent | EmptyText | Stored(saved: seq<Recipe>) | Malformed

  datatype LoadError = ParseError

  /**
   * The script's read at start-up, `JSON.parse(getItem(...)) || []`: nothing stored parses
   * as `null` and gives the empty book; the empty string and other unparsable text throw.
   */
  function Load(slot: Slot): (r: Result<seq<Recipe>, LoadError>)
    ensures r.Failure? <==> slot.EmptyText? || slot.Malformed?
    ensures slot.Absent? ==> r == Success([])
  {
    match slot
    case Absent => Success([])
    case EmptyText => Failure(ParseError)
    case Stored(saved) => Success(saved)
    case Malformed => Failure(ParseError)
  }

  /**
   * The React component's read, `JSON.parse(getItem(...) || '[]')`: nothing stored and the
   * empty string both fall back to `'[]'`. It agrees with the script's read on every other
   * slot, and on the empty string it loads the empty book where the script throws.
   */
  function LoadWithFallback(slot: Slot): (r: Result<seq<Recipe>, LoadError>)
    ensures r.Failure? <==> slot.Malformed?
    ensures slot.Absent? || slot.EmptyText? ==> r == Success([])
    ensures !slot.EmptyText? ==> r == Load(slot)
    ensures slot.EmptyText? ==> Load(slot).Failure?
  {
    match slot
    case Absent => Success([])
    case EmptyText => Success([])
    case Stored(saved) => Success(saved)
    case Malformed => Failure(ParseError)
  }

  /** Writing the whole collection: what is saved is read back unchanged by either front end. */
  function Save(recipes: seq<Recipe>): (slot: Slot)
    ensures Load(slot) == Success(recipes)
    ensures LoadWithFallback(slot) == Success(recipes)
  {
    Stored(recipes)
  }
}
