/**
 * The React `App` component: its state hooks become the fields of `RecipeBook`, and
 * each event handler a method that updates them as the setters do. The recipe list
 * and its localStorage copy are updated together; the search results, the listing
 * and the overlay's visibility are computed from the state on every render.
 */
module ReactApp {
  import opened Wrappers
  import opened Text
  import opened Recipes

  /** What a submission of the form did. */
  datatype SubmitResult = Added(recipe: Recipe) | MissingImage

  /**
   * The recipe a submission builds: the trimmed name, the trimmed non-empty lines of the
   * two text areas, and the image preview's data URL, under the given id and time.
   */
  function NewRecipe(form: Form, imagePreview: string, id: int, dateAdded: string): (r: Recipe)
  {
    Recipe(
      id,
      Trim(form.name),
      TrimmedEntries(form.ingredients),
      TrimmedEntries(form.instructions),
      imagePreview,
      dateAdded)
  }

  /**
   * A submitted recipe is clean: its name has no white space at either end, and each
   * ingredient and instruction is non-empty, not blank, has no white space at either
   * end and holds no line break.
   */
  lemma NewRecipeIsClean(form: Form, imagePreview: string, id: int, dateAdded: string)
    ensures var r := NewRecipe(form, imagePreview, id, dateAdded);
      && (r.name == [] || (!IsSpace(r.name[0]) && !IsSpace(r.name[|r.name| - 1])))
      && (forall i :: 0 <= i < |r.ingredients| ==> IsCleanEntry(r.ingredients[i]))
      && (forall i :: 0 <= i < |r.instructions| ==> IsCleanEntry(r.instructions[i]))
  {
    var name := Trim(form.name);
    var ingredients := TrimmedEntries(form.ingredients);
    var instructions := TrimmedEntries(form.instructions);
    assert NewRecipe(form, imagePreview, id, dateAdded) == Recipe(id, name, ingredients, instructions, imagePreview, dateAdded);
  }

  class RecipeBook {
    var recipes: seq<Recipe>
    var searchTerm: string
    var selectedRecipe: Option<Recipe>
    var showModal: bool
    var formData: Form
    var imagePreview: string
    /** The 'recipes' entry of localStorage. */
    var storage: Slot

    /** The overlay flag and the selected recipe are set and cleared together. */
    ghost predicate Valid()
      reads this
    {
      showModal == selectedRecipe.Some?
    }

    /** The initial state of the hooks; `storage` is whatever the browser holds. */
    constructor (storage: Slot)
      ensures Valid()
      ensures recipes == [] && searchTerm == "" && selectedRecipe == None && !showModal
      ensures formData == EmptyForm && imagePreview == "" && this.storage == storage
    {
      recipes := [];
      searchTerm := "";
      selectedRecipe := None;
      showModal := false;
      formData := EmptyForm;
      imagePreview := "";
      this.storage := storage;
    }

    /**
     * Mounting the component: the initial state, then the mount effect. An empty string
     * falls back to `'[]'` like an absent entry. The effect throws on other text that does
     * not parse and, with no error boundary, the component is torn down: there is no book
     * to call handlers on.
     */
    static method Mount(storage: Slot) returns (book: Option<RecipeBook>)
      ensures book.None? <==> storage.Malformed?
      ensures book.Some? ==>
        && fresh(book.value)
        && book.value.Valid()
        && Success(book.value.recipes) == LoadWithFallback(storage)
        && book.value.storage == storage
        && book.value.searchTerm == "" && book.value.selectedRecipe == None && !book.value.showModal
        && book.value.formData == EmptyForm && book.value.imagePreview == ""
    {
      var b := new RecipeBook(storage);
      var outcome := b.LoadSaved();
      if outcome.Fail? {
        return None;
      }
      return Some(b);
    }

    /**
     * The mount effect: the stored collection, or the empty book when nothing or the
     * empty string is stored. Other text that does not parse makes `JSON.parse` throw
     * (the recipes are not set, and `Mount` gives up the component).
     */
    method LoadSaved() returns (outcome: Outcome<LoadError>)
      modifies this`recipes
      ensures outcome.Fail? <==> storage.Malformed?
      ensures outcome.Pass? ==> Success(recipes) == LoadWithFallback(storage)
      ensures outcome.Fail? ==> recipes == old(recipes)
    {
      var loaded := LoadWithFallback(storage);
      match loaded
      case Failure(e) =>
        outcome := Fail(e);
      case Success(saved) =>
        recipes := saved;
        outcome := Pass;
    }

    /** Replace the recipe list and write the whole of it to storage. */
    method SaveRecipes(newRecipes: seq<Recipe>)
      modifies this`recipes, this`storage
      ensures recipes == newRecipes && storage == Save(newRecipes)
      ensures LoadWithFallback(storage) == Success(recipes)
    {
      recipes := newRecipes;
      storage := Save(newRecipes);
    }

    /** Typing in the search box. */
    method SetSearchTerm(value: string)
      modifies this`searchTerm
      ensures searchTerm == value
    {
      searchTerm := value;
    }

    /** Typing in the name, ingredients and instructions fields; the chosen image stays. */
    method EditForm(name: string, ingredients: string, instructions: string)
      modifies this`formData
      ensures formData == old(formData).(name := name, ingredients := ingredients, instructions := instructions)
    {
      formData := formData.(name := name, ingredients := ingredients, instructions := instructions);
    }

    /** Choosing a file: nothing happens when none was chosen; otherwise it becomes the form's image. */
    method HandleImageChange(file: Option<ImageFile>)
      modifies this`formData
      ensures file.None? ==> formData == old(formData)
      ensures file.Some? ==> formData == old(formData).(image := file)
    {
      if file.None? {
        return;
      }
      formData := formData.(image := file);
    }

    /** The file reader's completion: the data URL becomes the preview. */
    method PreviewLoaded(dataUrl: string)
      modifies this`imagePreview
      ensures imagePreview == dataUrl
    {
      imagePreview := dataUrl;
    }

    /**
     * Submitting the form. Without an image nothing changes. Otherwise the new recipe is
     * appended, the whole list is saved, and the form and preview are cleared.
     */
    method HandleSubmit(id: int, dateAdded: string) returns (result: SubmitResult)
      modifies this`recipes, this`storage, this`formData, this`imagePreview
      ensures old(formData.image).None? ==>
        && result == MissingImage
        && recipes == old(recipes) && storage == old(storage)
        && formData == old(formData) && imagePreview == old(imagePreview)
      ensures old(formData.image).Some? ==>
        && result == Added(NewRecipe(old(formData), old(imagePreview), id, dateAdded))
        && recipes == old(recipes) + [result.recipe]
        && LoadWithFallback(storage) == Success(recipes)
        && formData == EmptyForm && imagePreview == ""
    {
      if formData.image.None? {
        return MissingImage;
      }
      var newRecipe := NewRecipe(formData, imagePreview, id, dateAdded);
      var newRecipes := recipes + [newRecipe];
      SaveRecipes(newRecipes);
      formData := EmptyForm;
      imagePreview := "";
      result := Added(newRecipe);
    }

    /** The recipes shown: those matching the search term, in stored order. */
    function FilteredRecipes(): (shown: seq<Recipe>)
      reads this
      ensures IsSubsequence(shown, recipes)
      ensures forall r :: r in shown <==> r in recipes && Matches(r, searchTerm)
      ensures searchTerm == "" ==> shown == recipes
    {
      SearchEmptyTerm(recipes);
      Search(recipes, searchTerm)
    }

    /** The grid: the placeholder when nothing matches, otherwise a card per shown recipe. */
    function RecipeGrid(): (v: Listing)
      reads this
      ensures v.NoRecipesFound? <==> FilteredRecipes() == []
      ensures recipes == [] ==> v == NoRecipesFound
    {
      Render(FilteredRecipes())
    }

    /** Clicking a card: bind the recipe and show the overlay. */
    method ShowRecipeDetails(recipe: Recipe)
      modifies this`selectedRecipe, this`showModal
      ensures Valid() && selectedRecipe == Some(recipe) && showModal
      ensures OverlayVisible() && OverlayRecipe() == recipe
    {
      selectedRecipe := Some(recipe);
      showModal := true;
    }

    /** Closing the overlay: hide it and unbind the recipe. */
    method CloseModal()
      modifies this`selectedRecipe, this`showModal
      ensures Valid() && selectedRecipe == None && !showModal
      ensures !OverlayVisible()
    {
      showModal := false;
      selectedRecipe := None;
    }

    /** The overlay is rendered only when the flag is set and a recipe is selected. */
    predicate OverlayVisible()
      reads this
    {
      showModal && selectedRecipe.Some?
    }

    /** The recipe the overlay shows. */
    function OverlayRecipe(): Recipe
      reads this
      requires OverlayVisible()
    {
      selectedRecipe.value
    }
  }

  /** In a consistent state the overlay is visible exactly when its flag is set. */
  lemma OverlayFollowsFlag(book: RecipeBook)
    requires book.Valid()
    ensures book.OverlayVisible() <==> book.showModal
  {
  }
}
