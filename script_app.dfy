/**
 * The plain-DOM script: the variables its `DOMContentLoaded` handler closes over become
 * the fields of `RecipeScript`, and each event listener a method. The recipe list grows
 * in place with `push`, the search callback runs its `for` loops with early returns, and
 * `displayRecipes` rebuilds the list area card by card.
 */
module ScriptApp {
  import opened Wrappers
  import opened Text
  import opened Recipes
  import ReactApp

  /** How reading the chosen file as a data URL ended: `onload` with its result, or an error. */
  datatype ImageRead = Loaded(dataUrl: string) | ReadError

  /**
   * What a submission did. With no file it is refused; when the read fails `onload` never
   * runs and nothing is added.
   */
  datatype SubmitResult = Added(recipe: Recipe) | MissingImage | NotLoaded

  /**
   * The recipe the script builds: the name as typed, the non-blank lines of the two
   * text areas as typed, the data URL, the id and the time.
   */
  function ScriptRecipe(form: Form, dataUrl: string, id: int, dateAdded: string): (r: Recipe)
    ensures r.name == form.name && r.imageData == dataUrl
    ensures forall i :: 0 <= i < |r.ingredients| ==> !IsBlank(r.ingredients[i])
    ensures forall i :: 0 <= i < |r.instructions| ==> !IsBlank(r.instructions[i])
  {
    Recipe(id, form.name, RawEntries(form.ingredients), RawEntries(form.instructions), dataUrl, dateAdded)
  }

  /**
   * The two front ends build the same recipe from the same form up to trimming: the
   * React component stores the trimmed name and the trimmed forms of the lines the
   * script keeps.
   */
  lemma FrontEndsAgree(form: Form, dataUrl: string, id: int, dateAdded: string)
    ensures var s := ScriptRecipe(form, dataUrl, id, dateAdded);
      var r := ReactApp.NewRecipe(form, dataUrl, id, dateAdded);
      && r.name == Trim(s.name)
      && r.ingredients == TrimEach(s.ingredients)
      && r.instructions == TrimEach(s.instructions)
      && r.id == s.id && r.imageData == s.imageData && r.dateAdded == s.dateAdded
  {
    EntriesAgree(form.ingredients);
    EntriesAgree(form.instructions);
  }

  /**
   * The search callback for one recipe, given the lower-cased term: the name first, then
   * each ingredient, then each instruction, returning as soon as one contains the term.
   */
  method RecipeMatches(recipe: Recipe, searchTerm: string) returns (found: bool)
    ensures found == MatchesLowered(recipe, searchTerm)
  {
    if Includes(Lower(recipe.name), searchTerm) {
      return true;
    }
    for i := 0 to |recipe.ingredients|
      invariant forall j :: 0 <= j < i ==> !Includes(Lower(recipe.ingredients[j]), searchTerm)
    {
      if Includes(Lower(recipe.ingredients[i]), searchTerm) {
        return true;
      }
    }
    for i := 0 to |recipe.instructions|
      invariant forall j :: 0 <= j < i ==> !Includes(Lower(recipe.instructions[j]), searchTerm)
    {
      if Includes(Lower(recipe.instructions[i]), searchTerm) {
        return true;
      }
    }
    return false;
  }

  /** The input listener's filter: the recipes the callback keeps for the typed value, in order. */
  method FilterRecipes(recipes: seq<Recipe>, value: string) returns (filtered: seq<Recipe>)
    ensures filtered == Search(recipes, value)
  {
    var searchTerm := Lower(value);
    filtered := [];
    for i := 0 to |recipes|
      invariant filtered == Search(recipes[..i], value)
    {
      var keep := RecipeMatches(recipes[i], searchTerm);
      SearchAppend(recipes[..i], recipes[i], value);
      assert recipes[..i + 1] == recipes[..i] + [recipes[i]];
      if keep {
        filtered := filtered + [recipes[i]];
      }
    }
    assert recipes[..|recipes|] == recipes;
  }

  class RecipeScript {
    /** The `let recipes` array. */
    var recipes: seq<Recipe>
    /** The 'recipes' entry of localStorage. */
    var storage: Slot
    /** The form's three text fields and the file input's selection. */
    var form: Form
    /** The preview image: hidden, or shown with a data URL. */
    var preview: Option<string>
    /** What the recipe list area shows. */
    var listing: Listing
    /** The recipe last written into the detail overlay, if any. */
    var detail: Option<Recipe>
    /** Whether the detail overlay is displayed. */
    var modalOpen: bool

    /** The page before the handler runs: the given recipes, an empty form, nothing open. */
    constructor (storage: Slot, recipes: seq<Recipe>)
      ensures this.storage == storage && this.recipes == recipes
      ensures form == EmptyForm && preview == None && listing == NoRecipesFound
      ensures detail == None && !modalOpen
    {
      this.recipes := recipes;
      this.storage := storage;
      form := EmptyForm;
      preview := None;
      listing := NoRecipesFound;
      detail := None;
      modalOpen := false;
    }

    /**
     * Page load: read the stored recipes (nothing stored is the empty book) and show them
     * all. The empty string and other unparsable text make `JSON.parse` throw, and the
     * handler never starts.
     */
    static method Start(storage: Slot) returns (app: Option<RecipeScript>)
      ensures app.None? <==> storage.EmptyText? || storage.Malformed?
      ensures app.Some? ==>
        && fresh(app.value)
        && Success(app.value.recipes) == Load(storage)
        && app.value.storage == storage
        && app.value.listing == Render(app.value.recipes)
        && app.value.form == EmptyForm && app.value.preview == None
        && app.value.detail == None && !app.value.modalOpen
    {
      var loaded := Load(storage);
      if loaded.Failure? {
        return None;
      }
      var script := new RecipeScript(storage, loaded.value);
      script.DisplayRecipes(script.recipes);
      return Some(script);
    }

    /** Typing in the name, ingredients and instructions fields; the chosen file stays. */
    method EditForm(name: string, ingredients: string, instructions: string)
      modifies this`form
      ensures form == old(form).(name := name, ingredients := ingredients, instructions := instructions)
    {
      form := form.(name := name, ingredients := ingredients, instructions := instructions);
    }

    /** Changing the file input's selection. */
    method SelectFile(file: Option<ImageFile>)
      modifies this`form
      ensures form == old(form).(image := file)
    {
      form := form.(image := file);
    }

    /** The change listener's reader finished: the preview shows the data URL. */
    method PreviewLoaded(dataUrl: string)
      modifies this`preview
      ensures preview == Some(dataUrl)
    {
      preview := Some(dataUrl);
    }

    /** Write the whole array to storage: reading it back gives the array. */
    method SaveToLocalStorage()
      modifies this`storage
      ensures storage == Save(recipes)
      ensures Load(storage) == Success(recipes)
    {
      storage := Save(recipes);
    }

    /**
     * Submitting the form. Without a file nothing changes; when the read fails nothing
     * changes either. Otherwise the recipe is pushed, the array saved, all recipes shown,
     * and the form and preview reset.
     */
    method Submit(read: ImageRead, id: int, dateAdded: string) returns (result: SubmitResult)
      modifies this`recipes, this`storage, this`listing, this`form, this`preview
      ensures old(form.image).None? ==> result == MissingImage
      ensures old(form.image).Some? && read.ReadError? ==> result == NotLoaded
      ensures !result.Added? ==>
        && recipes == old(recipes) && storage == old(storage) && listing == old(listing)
        && form == old(form) && preview == old(preview)
      ensures old(form.image).Some? && read.Loaded? ==>
        && result == Added(ScriptRecipe(old(form), read.dataUrl, id, dateAdded))
        && recipes == old(recipes) + [result.recipe]
        && Load(storage) == Success(recipes)
        && listing == Render(recipes)
        && form == EmptyForm && preview == None
    {
      var name := form.name;
      var ingredients := RawEntries(form.ingredients);
      var instructions := RawEntries(form.instructions);
      if form.image.None? {
        return MissingImage;
      }
      if read.ReadError? {
        return NotLoaded;
      }
      var newRecipe := Recipe(id, name, ingredients, instructions, read.dataUrl, dateAdded);
      recipes := recipes + [newRecipe];
      SaveToLocalStorage();
      DisplayRecipes(recipes);
      form := EmptyForm;
      preview := None;
      result := Added(newRecipe);
    }

    /** Typing in the search box: show the recipes matching the typed value. */
    method OnSearchInput(value: string)
      modifies this`listing
      ensures listing == Render(Search(recipes, value))
    {
      var filtered := FilterRecipes(recipes, value);
      DisplayRecipes(filtered);
    }

    /** Fill the list area: the placeholder for no recipes, otherwise one card per recipe. */
    method DisplayRecipes(recipesToShow: seq<Recipe>)
      modifies this`listing
      ensures listing == Render(recipesToShow)
    {
      if |recipesToShow| == 0 {
        listing := NoRecipesFound;
        return;
      }
      var cards: seq<Card> := [];
      for i := 0 to |recipesToShow|
        invariant cards == CardsOf(recipesToShow[..i])
      {
        CardsOfAppend(recipesToShow[..i], recipesToShow[i]);
        assert recipesToShow[..i + 1] == recipesToShow[..i] + [recipesToShow[i]];
        cards := cards + [CardOf(recipesToShow[i])];
      }
      assert recipesToShow[..|recipesToShow|] == recipesToShow;
      listing := Cards(cards);
    }

    /**
     * Clicking a card: fill the overlay with the first recipe carrying that id and show it.
     * When no recipe has the id, nothing changes.
     */
    method ShowRecipeDetails(recipeId: int)
      modifies this`detail, this`modalOpen
      ensures FindById(recipes, recipeId).None? ==> detail == old(detail) && modalOpen == old(modalOpen)
      ensures FindById(recipes, recipeId).Some? ==>
        && detail == FindById(recipes, recipeId) && modalOpen
        && detail.value.id == recipeId && detail.value in recipes
    {
      var recipe := FindById(recipes, recipeId);
      if recipe.None? {
        return;
      }
      detail := recipe;
      modalOpen := true;
    }

    /** Closing the overlay hides it; the detail content is left in place. */
    method CloseModal()
      modifies this`modalOpen
      ensures !modalOpen
    {
      modalOpen := false;
    }
  }

  /** Building the cards one recipe at a time: one more recipe adds its card at the end. */
  lemma CardsOfAppend(shown: seq<Recipe>, r: Recipe)
    ensures CardsOf(shown + [r]) == CardsOf(shown) + [CardOf(r)]
  {
    var all := shown + [r];
    assert forall i :: 0 <= i < |shown| ==> all[i] == shown[i];
    assert all[|shown|] == r;
  }

  /** A recipe submitted under a fresh id is the one a click on its card opens. */
  lemma SubmittedIsFound(recipes: seq<Recipe>, form: Form, dataUrl: string, id: int, dateAdded: string)
    requires forall x :: x in recipes ==> x.id != id
    ensures var r := ScriptRecipe(form, dataUrl, id, dateAdded);
      FindById(recipes + [r], id) == Some(r)
  {
    AppendedIsFound(recipes, ScriptRecipe(form, dataUrl, id, dateAdded));
  }
}
