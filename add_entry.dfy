/**
 * The "add entry" form: a partial catalog entry edited field by field, and the submit
 * rule that checks the required fields and builds the new entry.
 */
module AddEntry {
  import opened Types
  import opened Text

  /**
   * The form's record (`Partial<ResearchItem>`). Fields the form starts with and that no
   * handler can remove (year, type, category, tags) are plain values; the rest may be absent.
   * The form never sets an id.
   */
  datatype FormData = FormData(
    title: Option<string>,
    authors: Option<seq<string>>,
    year: int,
    resourceType: ResourceType,
    category: Category,
    description: Option<string>,
    link: Option<string>,
    projectLink: Option<string>,
    tags: seq<string>,
    itemCount: Option<string>,
    methodology: Option<string>,
    domain: Option<string>,
    citationCount: Option<int>,
    relatedPapers: Option<seq<RelatedPaper>>)

  /** The defaults: a paper in General, this year, no tags, authors or related papers. */
  function InitialForm(currentYear: int): (r: FormData)
    ensures r.year == currentYear && r.resourceType == Paper && r.category == General
    ensures r.authors == Some([]) && r.tags == [] && r.relatedPapers == Some([])
    ensures !Submittable(r)
  {
    FormData(None, Some([]), currentYear, Paper, General, None, None, None, [], None, None, None, None, Some([]))
  }

  /** One `onChange` of the form, with the value the input delivers. */
  datatype FormEdit =
    | EditTitle(title: string)
    | EditType(resourceType: ResourceType)
    | EditCategory(category: Category)
    | EditYear(year: int)
    | EditCitationOrScale(text: string)
    | EditDescription(description: string)
    | EditLink(link: string)
    | EditProjectLink(projectLink: string)
    | EditMethodology(methodology: string)

  /** `parseInt(text) || 0`: the parsed number, or 0 when there is none. */
  function CitationValue(text: string): (r: int)
    ensures ParseInt(text).Some? ==> r == ParseInt(text).value
    ensures ParseInt(text).None? ==> r == 0
    ensures r != 0 ==> exists i :: 0 <= i < |text| && IsDigit(text[i])
  {
    match ParseInt(text)
    case Some(n) => n
    case None => 0
  }

  /**
   * `setFormData({...formData, field: value})`. The Citation/Scale box writes its text as
   * the item count of a dataset and its number as the citation count of anything else.
   */
  function ApplyEdit(f: FormData, e: FormEdit): (r: FormData)
    ensures r.authors == f.authors && r.tags == f.tags
    ensures r.relatedPapers == f.relatedPapers && r.domain == f.domain
    ensures e.EditCitationOrScale? && f.resourceType == Dataset ==>
      r == f.(itemCount := Some(e.text))
    ensures e.EditCitationOrScale? && f.resourceType != Dataset ==>
      r == f.(citationCount := Some(CitationValue(e.text)))
  {
    match e
    case EditTitle(t) => f.(title := Some(t))
    case EditType(k) => f.(resourceType := k)
    case EditCategory(c) => f.(category := c)
    case EditYear(y) => f.(year := y)
    case EditCitationOrScale(t) =>
      if f.resourceType == Dataset then f.(itemCount := Some(t))
      else f.(citationCount := Some(CitationValue(t)))
    case EditDescription(d) => f.(description := Some(d))
    case EditLink(l) => f.(link := Some(l))
    case EditProjectLink(l) => f.(projectLink := Some(l))
    case EditMethodology(m) => f.(methodology := Some(m))
  }

  /** A sequence of edits, applied in order. */
  function ApplyEdits(f: FormData, es: seq<FormEdit>): FormData
    decreases |es|
  {
    if es == [] then f else ApplyEdits(ApplyEdit(f, es[0]), es[1..])
  }

  /** A field JavaScript considers truthy: present and not the empty string. */
  predicate Filled(o: Option<string>) {
    o.Some? && o.value != ""
  }

  /** Title, description and link all filled. */
  predicate Submittable(f: FormData)
    ensures Submittable(f) <==> (f.title.Some? && f.description.Some? && f.link.Some?
      && f.title.value != "" && f.description.value != "" && f.link.value != "")
  {
    Filled(f.title) && Filled(f.description) && Filled(f.link)
  }

  /** `formData.authors?.length ? formData.authors : ['Anonymous']`. */
  function SavedAuthors(authors: Option<seq<string>>): (r: seq<string>)
    ensures r != []
    ensures authors.Some? && authors.value != [] ==> r == authors.value
    ensures authors.None? || authors.value == [] ==> r == ["Anonymous"]
  {
    if authors.Some? && |authors.value| > 0 then authors.value else ["Anonymous"]
  }

  /** `{...formData, id, authors}`: the form copied, with the fresh id and the saved authors. */
  function NewItem(f: FormData, freshId: string): (r: ResearchItem)
    requires Submittable(f)
    ensures r.id == freshId && r.authors != []
    ensures r.title != "" && r.description != "" && r.link != ""
  {
    ResearchItem(freshId, f.title.value, SavedAuthors(f.authors), f.year, f.resourceType, f.category,
      f.description.value, f.link.value, f.projectLink, f.tags, f.itemCount, f.methodology, f.domain,
      f.citationCount, f.relatedPapers)
  }

  /** What the form reads back from an entry: every field but the id. */
  function FormOf(item: ResearchItem): FormData {
    FormData(Some(item.title), Some(item.authors), item.year, item.resourceType, item.category,
      Some(item.description), Some(item.link), item.projectLink, item.tags, item.itemCount,
      item.methodology, item.domain, item.citationCount, item.relatedPapers)
  }

  /** A callback the form invokes: `onSave(item)` or `onClose()`. */
  datatype Effect = Saved(item: ResearchItem) | Closed

  /**
   * `handleSubmit`: nothing happens unless title, description and link are filled;
   * otherwise the new entry is saved once and then the form is closed.
   */
  function HandleSubmit(f: FormData, freshId: string): (effects: seq<Effect>)
    ensures effects == [] <==> !Submittable(f)
    ensures Submittable(f) ==> effects == [Saved(NewItem(f, freshId)), Closed]
  {
    if !Submittable(f) then [] else [Saved(NewItem(f, freshId)), Closed]
  }

  // ---------------------------------------------------------------- properties

  /** The saved entry carries the fresh id and every field of the form, authors defaulted. */
  lemma NewItemCopiesForm(f: FormData, freshId: string)
    requires Submittable(f)
    ensures NewItem(f, freshId).id == freshId
    ensures FormOf(NewItem(f, freshId)) == f.(authors := Some(SavedAuthors(f.authors)))
    ensures NewItem(f, freshId).authors != []
  {
  }

  /** A missing or empty title, description or link stops the submit. */
  lemma MissingFieldRejected(f: FormData, freshId: string)
    requires f.title in {None, Some("")} || f.description in {None, Some("")} || f.link in {None, Some("")}
    ensures HandleSubmit(f, freshId) == []
  {
  }

  /** A typed number is stored as the citation count of a paper, exactly. */
  lemma CitationOfNumber(n: int, rest: string)
    requires rest == [] || !IsDigit(rest[0])
    ensures CitationValue(IntToString(n) + rest) == n
  {
    ParseIntOfIntToString(n, rest);
  }

  /** A text with no digit in it stores a citation count of 0. */
  lemma CitationWithoutDigits(text: string)
    requires forall i :: 0 <= i < |text| ==> !IsDigit(text[i])
    ensures CitationValue(text) == 0
  {
    ParseIntWithoutDigits(text);
  }

  /** No edit reaches the authors, tags, related papers or domain. */
  lemma {:induction false} EditsKeepUntouchedFields(f: FormData, es: seq<FormEdit>)
    ensures ApplyEdits(f, es).authors == f.authors && ApplyEdits(f, es).tags == f.tags
    ensures ApplyEdits(f, es).relatedPapers == f.relatedPapers && ApplyEdits(f, es).domain == f.domain
    decreases |es|
  {
    if es != [] {
      EditsKeepUntouchedFields(ApplyEdit(f, es[0]), es[1..]);
    }
  }

  /**
   * Whatever is typed into the form, an entry it saves is by "Anonymous", has no tags,
   * no related papers and no domain: the form has no input for any of them.
   */
  lemma SavedEntryFromForm(currentYear: int, es: seq<FormEdit>, freshId: string)
    requires Submittable(ApplyEdits(InitialForm(currentYear), es))
    ensures var item := NewItem(ApplyEdits(InitialForm(currentYear), es), freshId);
      item.authors == ["Anonymous"] && item.tags == [] && item.relatedPapers == Some([]) && item.domain == None
  {
    EditsKeepUntouchedFields(InitialForm(currentYear), es);
  }

  // ---------------------------------------------------------------- the component

  class EntryForm {
    var data: FormData

    /** The modal opens with the defaults; the current year is supplied by the caller. */
    constructor (currentYear: int)
      ensures data == InitialForm(currentYear)
    {
      data := InitialForm(currentYear);
    }

    /** An input's `onChange`: one field of the record replaced. */
    method Edit(e: FormEdit)
      modifies this
      ensures data == ApplyEdit(old(data), e)
    {
      match e {
        case EditTitle(t) => data := data.(title := Some(t));
        case EditType(k) => data := data.(resourceType := k);
        case EditCategory(c) => data := data.(category := c);
        case EditYear(y) => data := data.(year := y);
        case EditCitationOrScale(t) =>
          if data.resourceType == Dataset {
            data := data.(itemCount := Some(t));
          } else {
            data := data.(citationCount := Some(CitationValue(t)));
          }
        case EditDescription(d) => data := data.(description := Some(d));
        case EditLink(l) => data := data.(link := Some(l));
        case EditProjectLink(l) => data := data.(projectLink := Some(l));
        case EditMethodology(m) => data := data.(methodology := Some(m));
      }
    }

    /** `handleSubmit`, with the random id supplied by the caller; the form is left as it is. */
    method Submit(freshId: string) returns (effects: seq<Effect>)
      ensures effects == HandleSubmit(data, freshId)
    {
      if data.title.None? || data.title.value == "" || data.description.None? || data.description.value == ""
         || data.link.None? || data.link.value == "" {
        return [];
      }
      var newItem := NewItem(data, freshId);
      effects := [Saved(newItem)];
      effects := effects + [Closed];
    }
  }
}
