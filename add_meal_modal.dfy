/** The form of components/AddMealModal.tsx: loading a meal into the form,
    the tag list, the merge of an AI answer, the file check, what the upload
    and AI flows change in the form, and the record
    `handleSubmit` builds, with its tier-to-timestamp policy. Image
    compression and the AI calls themselves are not modelled; an AI answer
    is given as a value. */
module AddMealModal {
  import opened Types
  import opened Text
  import opened Utils
  import MealsHook

  /** The state cells of the form that reach the saved record. */
  datatype Form = Form(
    title: string,
    effort: Effort,
    description: string,
    ingredients: string,     // one line per ingredient
    methodText: string,      // one line per step
    thermomixText: string,
    sourceUrl: string,
    customImage: Option<string>,
    tags: seq<string>,
    tagInput: string,
    sourceType: SourceType,
    sourceImage: Option<string>,
    selectedTier: Tier)

  /** `resetForm`. */
  const EmptyForm: Form := Form("", Medium, "", "", "", "", "", None, [], "", Manual, None, High)

  /** `s || fallback` for an optional string. */
  function StringOr(o: Option<string>, fallback: string): string {
    if o.Some? && o.value != "" then o.value else fallback
  }

  /** The form filled from a meal being edited, as the opening effect does at
      the time `now`: the lists joined with newlines, the missing fields
      read as empty, the tier the meal has now. */
  function LoadForm(m: Meal, now: int, current: Form): (f: Form)
    ensures f.title == m.title && f.effort == m.effort && f.tags == OrEmpty(m.tags)
    ensures f.selectedTier == GetTier(now, m.lastCooked)
    ensures f.customImage == Some(m.image)
    ensures f.tagInput == current.tagInput
  {
    Form(m.title, m.effort, StringOr(m.description, ""),
         Join(OrEmpty(m.ingredients), "\n"), Join(OrEmpty(m.methodSteps), "\n"),
         Join(OrEmpty(m.thermomixMethod), "\n"), StringOr(m.sourceUrl, ""),
         Some(m.image), OrEmpty(m.tags), current.tagInput,
         if m.sourceType.Some? then m.sourceType.value else Manual,
         if m.sourceImage.Some? && m.sourceImage.value != "" then m.sourceImage else None,
         GetTier(now, m.lastCooked))
  }

  /** `s.split('\n').filter(l => l.trim())`: the non-blank lines, every one
      of them and nothing else. */
  function SplitLines(s: string): (r: seq<string>)
    ensures forall i :: 0 <= i < |r| ==> !IsBlank(r[i]) && '\n' !in r[i]
    ensures forall l :: l in r <==> l in Split(s, '\n') && !IsBlank(l)
  {
    NonBlank(Split(s, '\n'))
  }

  /** The non-blank strings of `xs`: each kept one is drawn from `xs` and
      every non-blank one is kept. */
  function NonBlank(xs: seq<string>): (r: seq<string>)
    ensures forall i :: 0 <= i < |r| ==> !IsBlank(r[i]) && r[i] in xs
    ensures forall x :: x in xs && !IsBlank(x) ==> x in r
    ensures |r| <= |xs|
  {
    if xs == [] then []
    else (if IsBlank(xs[0]) then [] else [xs[0]]) + NonBlank(xs[1..])
  }

  /** Filtering keeps the order and the repeats of the kept strings: it
      distributes over concatenation (and a single string is kept exactly
      when it is not blank, by the membership clauses). */
  lemma {:induction false} NonBlankAppend(a: seq<string>, b: seq<string>)
    ensures NonBlank(a + b) == NonBlank(a) + NonBlank(b)
  {
    if a == [] {
      assert a + b == b;
    } else {
      assert (a + b)[1..] == a[1..] + b;
      NonBlankAppend(a[1..], b);
    }
  }

  lemma {:induction false} NonBlankKeepsNonBlank(xs: seq<string>)
    requires forall i :: 0 <= i < |xs| ==> !IsBlank(xs[i])
    ensures NonBlank(xs) == xs
  {
    if xs != [] {
      NonBlankKeepsNonBlank(xs[1..]);
      assert [xs[0]] + xs[1..] == xs;
    }
  }

  /** Lines joined into the text area split back into the same lines, when
      none is blank or holds a line break. */
  lemma SplitLinesJoin(xs: seq<string>)
    requires forall i :: 0 <= i < |xs| ==> !IsBlank(xs[i]) && '\n' !in xs[i]
    ensures SplitLines(Join(xs, "\n")) == xs
  {
    if xs == [] {
      assert Split("", '\n') == [""];
      assert IsBlank("");
      assert NonBlank([""]) == [];
    } else {
      SplitJoin(xs, '\n');
      assert "\n" == ['\n'];
      NonBlankKeepsNonBlank(xs);
    }
  }

  /** The `lastCooked` a new meal gets for a tier: now, three weeks ago, or
      ten weeks ago. */
  function DefaultLastCooked(t: Tier, now: int): int {
    match t
    case High => now
    case MediumTier => now - 21 * DayMs
    case Low => now - 70 * DayMs
  }

  /** The default timestamp of a tier is classified back into that tier. */
  lemma DefaultLastCookedTier(t: Tier, now: int)
    ensures GetTier(now, DefaultLastCooked(t, now)) == t
  {
  }

  /** The timestamp policy of `handleSubmit`: an edit whose tier is
      unchanged keeps its timestamp; otherwise the tier's default. */
  function LastCookedFor(initial: Option<Meal>, selected: Tier, now: int): (r: int)
    ensures initial.Some? && GetTier(now, initial.value.lastCooked) == selected ==> r == initial.value.lastCooked
    ensures r == DefaultLastCooked(selected, now) || (initial.Some? && r == initial.value.lastCooked)
    ensures initial.None? ==> now - 70 * DayMs <= r <= now
  {
    if initial.Some? && GetTier(now, initial.value.lastCooked) == selected then initial.value.lastCooked
    else DefaultLastCooked(selected, now)
  }

  /** Whatever the history, the saved meal lands in the tier the user
      selected. */
  lemma LastCookedForTier(initial: Option<Meal>, selected: Tier, now: int)
    ensures GetTier(now, LastCookedFor(initial, selected, now)) == selected
  {
    DefaultLastCookedTier(selected, now);
  }

  /** The if-chains of `handleSubmit` on the mutable `newLastCooked`. */
  method NewLastCooked(initial: Option<Meal>, selectedTier: Tier, now: int) returns (newLastCooked: int)
    ensures newLastCooked == LastCookedFor(initial, selectedTier, now)
  {
    newLastCooked := now;
    if initial.Some? {
      var currentTier := GetTier(now, initial.value.lastCooked);
      if currentTier == selectedTier {
        newLastCooked := initial.value.lastCooked;
      } else {
        if selectedTier == High { newLastCooked := now; }
        if selectedTier == MediumTier { newLastCooked := now - 21 * DayMs; }
        if selectedTier == Low { newLastCooked := now - 70 * DayMs; }
      }
    } else {
      if selectedTier == MediumTier { newLastCooked := now - 21 * DayMs; }
      if selectedTier == Low { newLastCooked := now - 70 * DayMs; }
    }
  }

  /** The record `handleSubmit` saves at time `now`, or nothing for a blank
      title. */
  function BuildMeal(f: Form, initial: Option<Meal>, now: int): (r: Option<Meal>)
    ensures r.None? <==> IsBlank(f.title)
  {
    if IsBlank(f.title) then None
    else Some(Meal(
      if initial.Some? then initial.value.id else IntToString(now),
      f.title,
      LastCookedFor(initial, f.selectedTier, now),
      StringOr(f.customImage, if initial.Some? && initial.value.image != "" then initial.value.image
                              else DetermineImage(f.title)),
      f.effort,
      DetermineProtein(f.title),
      Split(Lower(f.title), ' '),
      Some(f.description),
      Some(SplitLines(f.ingredients)),
      Some(SplitLines(f.methodText)),
      Some(SplitLines(f.thermomixText)),
      Some(f.sourceUrl),
      Some(f.tags),
      Some(f.sourceType),
      None,
      None))
  }

  /** What a saved record is made of: an edit keeps the id, a new meal takes
      the clock as its id; the tier is the selected one; the protein and the
      keywords come from the title; the image is the custom one, else the
      old one, else one derived from the title; the recipe scan and the vote
      count are not stored; the lists are the non-blank lines of the text
      areas. */
  lemma BuildMealFields(f: Form, initial: Option<Meal>, now: int)
    requires !IsBlank(f.title)
    ensures var m := BuildMeal(f, initial, now).value;
      && (initial.Some? ==> m.id == initial.value.id)
      && (initial.None? ==> m.id == IntToString(now))
      && m.title == f.title
      && GetTier(now, m.lastCooked) == f.selectedTier
      && m.effort == f.effort
      && m.protein == DetermineProtein(f.title) && m.protein in Proteins
      && m.keywords == Split(Lower(f.title), ' ') && |m.keywords| == Count(Lower(f.title), ' ') + 1
      && (f.customImage.Some? && f.customImage.value != "" ==> m.image == f.customImage.value)
      && (StringOr(f.customImage, "") == "" && initial.Some? && initial.value.image != "" ==>
            m.image == initial.value.image)
      && (StringOr(f.customImage, "") == "" && (initial.None? || initial.value.image == "") ==>
            m.image == DetermineImage(f.title) && IsPrefix("https://tse2.mm.bing.net/th?q=", m.image))
      && m.sourceImage.None? && m.votes.None?
      && m.description == Some(f.description) && m.sourceUrl == Some(f.sourceUrl) && m.sourceType == Some(f.sourceType)
      && m.ingredients == Some(SplitLines(f.ingredients))
      && m.methodSteps == Some(SplitLines(f.methodText))
      && m.thermomixMethod == Some(SplitLines(f.thermomixText))
      && (forall l :: l in OrEmpty(m.ingredients) ==> !IsBlank(l) && '\n' !in l)
      && m.tags == Some(f.tags)
  {
    LastCookedForTier(initial, f.selectedTier, now);
    var m := BuildMeal(f, initial, now).value;
    forall l | l in OrEmpty(m.ingredients) ensures !IsBlank(l) && '\n' !in l {
      var i :| 0 <= i < |OrEmpty(m.ingredients)| && OrEmpty(m.ingredients)[i] == l;
    }
  }

  /** A present list of non-blank lines none of which holds a line break:
      what a text area gives back unchanged. */
  predicate CleanLines(o: Option<seq<string>>) {
    o.Some? && forall i :: 0 <= i < |o.value| ==> !IsBlank(o.value[i]) && '\n' !in o.value[i]
  }

  /** Loading a meal and saving it unchanged, at the same time, gives back the
      meal except for what saving recomputes or drops: the timestamp, id,
      title, effort, image, description, source and tags survive, and so
      does each of the ingredient, method and Thermomix lists made of
      non-blank single lines; the vote count and the recipe scan are
      dropped. */
  lemma LoadSubmitRoundTrip(m: Meal, now: int, current: Form)
    requires !IsBlank(m.title) && m.image != ""
    requires m.description.Some? && m.sourceUrl.Some? && m.tags.Some? && m.sourceType.Some?
    ensures var r := BuildMeal(LoadForm(m, now, current), Some(m), now).value;
      && r.id == m.id && r.title == m.title && r.lastCooked == m.lastCooked
      && r.effort == m.effort && r.image == m.image
      && r.description == Some(StringOr(m.description, ""))
      && r.sourceUrl == Some(StringOr(m.sourceUrl, "")) && r.tags == m.tags && r.sourceType == m.sourceType
      && (CleanLines(m.ingredients) ==> r.ingredients == m.ingredients)
      && (CleanLines(m.methodSteps) ==> r.methodSteps == m.methodSteps)
      && (CleanLines(m.thermomixMethod) ==> r.thermomixMethod == m.thermomixMethod)
      && r.votes.None? && r.sourceImage.None?
  {
    if CleanLines(m.ingredients) { SplitLinesJoin(m.ingredients.value); }
    if CleanLines(m.methodSteps) { SplitLinesJoin(m.methodSteps.value); }
    if CleanLines(m.thermomixMethod) { SplitLinesJoin(m.thermomixMethod.value); }
  }

  /** An AI answer: the fields the service filled in. */
  datatype PartialMeal = PartialMeal(
    title: Option<string>,
    effort: Option<Effort>,
    description: Option<string>,
    ingredients: Option<seq<string>>,
    methodSteps: Option<seq<string>>,
    thermomixMethod: Option<seq<string>>)

  /** A present, non-empty string (a truthy `data.x`). */
  predicate Truthy(o: Option<string>) {
    o.Some? && o.value != ""
  }

  /** Merging an answer into the form leaves every field it does not
      carry untouched; merging everything absent changes nothing; merging
      twice is merging once. */
  function Populate(f: Form, data: PartialMeal): (r: Form)
    ensures r.(title := f.title, effort := f.effort, description := f.description, ingredients := f.ingredients,
               methodText := f.methodText, thermomixText := f.thermomixText) == f
    ensures Truthy(data.title) ==> r.title == data.title.value
    ensures !Truthy(data.title) ==> r.title == f.title
    ensures data.effort.Some? ==> r.effort == data.effort.value
    ensures data.effort.None? ==> r.effort == f.effort
    ensures Truthy(data.description) ==> r.description == data.description.value
    ensures !Truthy(data.description) ==> r.description == f.description
    ensures data.ingredients.Some? ==> r.ingredients == Join(data.ingredients.value, "\n")
    ensures data.ingredients.None? ==> r.ingredients == f.ingredients
    ensures data.methodSteps.Some? ==> r.methodText == Join(data.methodSteps.value, "\n")
    ensures data.methodSteps.None? ==> r.methodText == f.methodText
    ensures data.thermomixMethod.Some? ==> r.thermomixText == Join(data.thermomixMethod.value, "\n")
    ensures data.thermomixMethod.None? ==> r.thermomixText == f.thermomixText
  {
    Form(if Truthy(data.title) then data.title.value else f.title,
         if data.effort.Some? then data.effort.value else f.effort,
         if Truthy(data.description) then data.description.value else f.description,
         if data.ingredients.Some? then Join(data.ingredients.value, "\n") else f.ingredients,
         if data.methodSteps.Some? then Join(data.methodSteps.value, "\n") else f.methodText,
         if data.thermomixMethod.Some? then Join(data.thermomixMethod.value, "\n") else f.thermomixText,
         f.sourceUrl, f.customImage, f.tags, f.tagInput, f.sourceType, f.sourceImage, f.selectedTier)
  }

  lemma PopulateProperties(f: Form, data: PartialMeal)
    ensures data == PartialMeal(None, None, None, None, None, None) ==> Populate(f, data) == f
    ensures Populate(Populate(f, data), data) == Populate(f, data)
    ensures data.ingredients.Some? && (forall i :: 0 <= i < |data.ingredients.value| ==>
              !IsBlank(data.ingredients.value[i]) && '\n' !in data.ingredients.value[i])
            ==> SplitLines(Populate(f, data).ingredients) == data.ingredients.value
  {
    if data.ingredients.Some? && (forall i :: 0 <= i < |data.ingredients.value| ==>
          !IsBlank(data.ingredients.value[i]) && '\n' !in data.ingredients.value[i]) {
      SplitLinesJoin(data.ingredients.value);
    }
  }

  /** What the import flows leave in the saved record: the source kind a
      flow sets survives the merge of its answer and is stored, and
      generated Thermomix steps made of non-blank single lines are stored
      as they came. */
  lemma FlowsReachRecord(f: Form, t: SourceType, d: PartialMeal, steps: seq<string>, initial: Option<Meal>, now: int)
    requires !IsBlank(f.title)
    ensures !IsBlank(Populate(f.(sourceType := t), d).title) ==>
              BuildMeal(Populate(f.(sourceType := t), d), initial, now).value.sourceType == Some(t)
    ensures CleanLines(Some(steps)) ==>
              BuildMeal(f.(thermomixText := Join(steps, "\n")), initial, now).value.thermomixMethod == Some(steps)
  {
    if CleanLines(Some(steps)) {
      SplitLinesJoin(steps);
    }
  }

  const MaxUploadBytes: int := 5 * 1024 * 1024

  /** `validateFile`: the verdict and the toast shown on rejection. */
  function ValidateFile(size: int, mimeType: string): (r: (bool, Option<string>))
    ensures r.0 <==> size <= MaxUploadBytes && IsPrefix("image/", mimeType)
    ensures r.0 <==> r.1.None?
    ensures size > MaxUploadBytes ==> r.1 == Some("File too large. Max 5MB.")
    ensures size <= MaxUploadBytes && !IsPrefix("image/", mimeType) ==>
              r.1 == Some("Invalid file type. Please upload an image.")
  {
    if size > MaxUploadBytes then (false, Some("File too large. Max 5MB."))
    else if !IsPrefix("image/", mimeType) then (false, Some("Invalid file type. Please upload an image."))
    else (true, None)
  }

  /** The modal's form state and the meal it edits, if any. */
  class MealModal {
    var form: Form
    var initialMeal: Option<Meal>

    constructor ()
      ensures form == EmptyForm && initialMeal.None?
    {
      form := EmptyForm;
      initialMeal := None;
    }

    /** The opening effect: a meal to edit fills the form at time `now`, no
        meal resets it. */
    method Open(meal: Option<Meal>, now: int)
      modifies this
      ensures initialMeal == meal
      ensures meal.Some? ==> form == LoadForm(meal.value, now, old(form))
      ensures meal.None? ==> form == EmptyForm
    {
      initialMeal := meal;
      if meal.Some? {
        form := LoadForm(meal.value, now, form);
      } else {
        form := EmptyForm;
      }
    }

    /** `handleAddTag` on a key press: Enter or a comma adds the trimmed
        input when it is non-empty and new, and clears the input. */
    method AddTag(key: string)
      modifies this`form
      ensures key != "Enter" && key != "," ==> form == old(form)
      ensures key == "Enter" || key == "," ==>
        var t := Trim(old(form).tagInput);
        && form == old(form).(tags := if t != "" && t !in old(form).tags then old(form).tags + [t] else old(form).tags,
                               tagInput := "")
      ensures MealsHook.NoDuplicates(old(form).tags) ==> MealsHook.NoDuplicates(form.tags)
      ensures forall x :: x in form.tags ==> x in old(form).tags || (x == Trim(old(form).tagInput) && x != "")
    {
      if key == "Enter" || key == "," {
        var newTag := Trim(form.tagInput);
        var tags := form.tags;
        if newTag != "" && newTag !in tags {
          if MealsHook.NoDuplicates(tags) { MealsHook.ToggleKeepsNoDuplicates(tags, newTag); }
          tags := tags + [newTag];
        }
        form := form.(tags := tags, tagInput := "");
      }
    }

    /** `handleRemoveTag`: every tag equal to `t` goes (`tags.filter(x => x !== t)`). */
    method RemoveTag(t: string)
      modifies this`form
      ensures form == old(form).(tags := MealsHook.Without(old(form).tags, t))
      ensures t !in form.tags
      ensures forall x :: x in form.tags <==> x in old(form).tags && x != t
      ensures MealsHook.NoDuplicates(old(form).tags) ==> MealsHook.NoDuplicates(form.tags)
    {
      if MealsHook.NoDuplicates(form.tags) { MealsHook.WithoutKeepsNoDuplicates(form.tags, t); }
      form := form.(tags := MealsHook.Without(form.tags, t));
    }

    /** `populateFromAI`. */
    method PopulateFromAI(data: PartialMeal)
      modifies this`form
      ensures form == Populate(old(form), data)
    {
      if Truthy(data.title) { form := form.(title := data.title.value); }
      if data.effort.Some? { form := form.(effort := data.effort.value); }
      if Truthy(data.description) { form := form.(description := data.description.value); }
      if data.ingredients.Some? { form := form.(ingredients := Join(data.ingredients.value, "\n")); }
      if data.methodSteps.Some? { form := form.(methodText := Join(data.methodSteps.value, "\n")); }
      if data.thermomixMethod.Some? { form := form.(thermomixText := Join(data.thermomixMethod.value, "\n")); }
    }

    /** `handleMainPhotoUpload` for a file of `size` bytes and type
        `mimeType`: an accepted file whose compression gives `compressed`
        becomes the custom image; a rejected file or a failed compression
        leaves the form alone. */
    method MainPhotoUpload(size: int, mimeType: string, compressed: Option<string>)
      modifies this`form
      ensures ValidateFile(size, mimeType).0 && compressed.Some? ==>
                form == old(form).(customImage := Some(compressed.value))
      ensures !ValidateFile(size, mimeType).0 || compressed.None? ==> form == old(form)
    {
      var ok := ValidateFile(size, mimeType).0;
      if !ok { return; }
      if compressed.Some? {
        form := form.(customImage := Some(compressed.value));
      }
    }

    /** `handleRecipeScan`: an accepted file that compresses marks the
        record as scanned from an image, and the answer read from it, if
        any, is merged into the form. */
    method RecipeScan(size: int, mimeType: string, compressed: bool, answer: Option<PartialMeal>)
      modifies this`form
      ensures !ValidateFile(size, mimeType).0 || !compressed ==> form == old(form)
      ensures ValidateFile(size, mimeType).0 && compressed ==>
                form == (match answer
                         case Some(d) => Populate(old(form).(sourceType := Image), d)
                         case None => old(form).(sourceType := Image))
    {
      var ok := ValidateFile(size, mimeType).0;
      if !ok || !compressed { return; }
      form := form.(sourceType := Image);
      if answer.Some? { PopulateFromAI(answer.value); }
    }

    /** `handleUrlImport`: a blank address does nothing; otherwise the record
        is marked as imported from a URL and the answer, if any, is merged. */
    method UrlImport(answer: Option<PartialMeal>)
      modifies this`form
      ensures IsBlank(old(form).sourceUrl) ==> form == old(form)
      ensures !IsBlank(old(form).sourceUrl) ==>
                form == (match answer
                         case Some(d) => Populate(old(form).(sourceType := Url), d)
                         case None => old(form).(sourceType := Url))
    {
      if IsBlank(form.sourceUrl) { return; }
      form := form.(sourceType := Url);
      if answer.Some? { PopulateFromAI(answer.value); }
    }

    /** `handleGenerateFromTitle`: a blank title does nothing; otherwise the
        record is marked as written by the AI and the answer, if any, is
        merged. */
    method GenerateFromTitle(answer: Option<PartialMeal>)
      modifies this`form
      ensures IsBlank(old(form).title) ==> form == old(form)
      ensures !IsBlank(old(form).title) ==>
                form == (match answer
                         case Some(d) => Populate(old(form).(sourceType := Ai), d)
                         case None => old(form).(sourceType := Ai))
    {
      if IsBlank(form.title) { return; }
      form := form.(sourceType := Ai);
      if answer.Some? { PopulateFromAI(answer.value); }
    }

    /** `handleAIEdit` with the instruction typed: a blank instruction does
        nothing; otherwise the edited recipe, if any, is merged. */
    method AIEdit(instruction: string, answer: Option<PartialMeal>)
      modifies this`form
      ensures IsBlank(instruction) || answer.None? ==> form == old(form)
      ensures !IsBlank(instruction) && answer.Some? ==> form == Populate(old(form), answer.value)
    {
      if IsBlank(instruction) { return; }
      if answer.Some? { PopulateFromAI(answer.value); }
    }

    /** `handleGenerateThermomix`: the generated steps, if any, replace the
        Thermomix text area, one step per line. */
    method GenerateThermomix(steps: Option<seq<string>>)
      modifies this`form
      ensures steps.Some? ==> form == old(form).(thermomixText := Join(steps.value, "\n"))
      ensures steps.None? ==> form == old(form)
    {
      if steps.Some? {
        form := form.(thermomixText := Join(steps.value, "\n"));
      }
    }

    /** `handleSubmit` at time `now`: a blank title does nothing; otherwise
        the record is handed to `onSave` and the form is reset. */
    method Submit(now: int) returns (saved: Option<Meal>)
      modifies this`form
      ensures saved == BuildMeal(old(form), initialMeal, now)
      ensures saved.None? ==> form == old(form)
      ensures saved.Some? ==> form == EmptyForm
    {
      if IsBlank(form.title) {
        return None;
      }
      var newLastCooked := NewLastCooked(initialMeal, form.selectedTier, now);
      var id := if initialMeal.Some? then initialMeal.value.id else IntToString(now);
      var previous := if initialMeal.Some? && initialMeal.value.image != "" then initialMeal.value.image
                      else DetermineImage(form.title);
      var m := Meal(id, form.title, newLastCooked, StringOr(form.customImage, previous), form.effort,
                    DetermineProtein(form.title), Split(Lower(form.title), ' '), Some(form.description),
                    Some(SplitLines(form.ingredients)), Some(SplitLines(form.methodText)),
                    Some(SplitLines(form.thermomixText)), Some(form.sourceUrl), Some(form.tags),
                    Some(form.sourceType), None, None);
      saved := Some(m);
      form := EmptyForm;
    }
  }
}
