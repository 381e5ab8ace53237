/** The blog editor: loading a blog into the form (with defaults for missing
    fields and the tag list joined into one string), and submitting the form
    (required-field checks in a fixed order, tag parsing, then `update` when
    the route carries a blog id and `create` otherwise). Toasts and navigation
    are not part of this model; the outcome of a submission says which toast
    and whether the page navigates back to the list. */
module BlogEditor {
  import opened JsValues
  import opened JsStrings
  import opened Seqs
  import opened RecordStore
  import BlogsService

  /** The `formData` state. */
  datatype FormData = FormData(
    title: string,
    description: string,
    content: string,
    category: string,
    readTime: string,
    icon: string,
    author: string,
    tags: string,
    featured: bool)

  /** The form before anything is loaded or typed. */
  const InitialForm := FormData("", "", "", "Guide", "", "BookOpen", "", "", false)

  // ---------------------------------------------------------------------
  // Tags

  /** What a parsed tag looks like: non-empty, trimmed, comma-free. */
  predicate IsTag(t: string)
  {
    t != "" && IsTrimmed(t) && ',' !in t
  }

  /** `Boolean(t)` for a string. */
  predicate NonEmpty(t: string)
  {
    t != ""
  }

  /** `tags.split(",").map(tag => tag.trim()).filter(Boolean)`. */
  function ParseTags(tags: string): (r: seq<string>)
    ensures forall k :: 0 <= k < |r| ==> IsTag(r[k])
    ensures |r| <= Occurrences(tags, ',') + 1
  {
    var pieces := Split(tags, ',');
    var trimmed := Map(pieces, Trim);
    assert forall k :: 0 <= k < |trimmed| ==> ',' !in trimmed[k] by {
      forall k | 0 <= k < |trimmed| ensures ',' !in trimmed[k] {
        assert ',' !in pieces[k];
      }
    }
    Filter(trimmed, NonEmpty)
  }

  /** The parser works comma by comma: the tags of two strings joined by a
      comma are the tags of the first followed by the tags of the second. */
  lemma ParseTagsAtComma(a: string, b: string)
    ensures ParseTags(a + "," + b) == ParseTags(a) + ParseTags(b)
  {
    assert a + "," + b == a + [','] + b;
    SplitAppend(a, ',', b);
    MapAppend(Split(a, ','), Split(b, ','), Trim);
    FilterAppend(Map(Split(a, ','), Trim), Map(Split(b, ','), Trim), NonEmpty);
  }

  /** A comma-free piece gives no tag when it is blank and its trimmed text
      otherwise. */
  lemma ParseTagsOfPiece(p: string)
    requires ',' !in p
    ensures ParseTags(p) == if IsBlank(p) then [] else [Trim(p)]
  {
    SplitWithoutSeparator(p, ',');
    assert Map([p], Trim) == [Trim(p)];
  }

  /** The pieces of `pre + tags.join(", ")` split at the commas: the first
      tag behind `pre`, every later one behind the space of the separator. */
  lemma {:induction false} SplitJoinedTags(tags: seq<string>, pre: string)
    requires |tags| > 0 && ',' !in pre
    requires forall k :: 0 <= k < |tags| ==> IsTag(tags[k])
    ensures var pieces := Split(pre + Join(tags, ", "), ',');
      && |pieces| == |tags|
      && pieces[0] == pre + tags[0]
      && forall k :: 1 <= k < |tags| ==> pieces[k] == " " + tags[k]
  {
    if |tags| == 1 {
      SplitWithoutSeparator(pre + tags[0], ',');
    } else {
      var rest := tags[1..];
      assert forall k :: 0 <= k < |rest| ==> rest[k] == tags[k + 1];
      SplitJoinedTags(rest, " ");
      assert pre + Join(tags, ", ") == (pre + tags[0]) + [','] + (" " + Join(rest, ", "));
      SplitAfterPiece(pre + tags[0], ',', " " + Join(rest, ", "));
    }
  }

  /** Tags joined with ", " on load parse back to the same tags on submit. */
  lemma TagsRoundTrip(tags: seq<string>)
    requires forall k :: 0 <= k < |tags| ==> IsTag(tags[k])
    ensures ParseTags(Join(tags, ", ")) == tags
  {
    if tags == [] {
      NothingToParse();
    } else {
      TrimmedPiecesAreTags(tags);
      FilterAllPass(tags, NonEmpty);
    }
  }

  lemma NothingToParse()
    ensures ParseTags("") == []
  {
    assert Split("", ',') == [""];
    assert Map([""], Trim) == [""];
  }

  lemma {:induction false} TrimmedPiecesAreTags(tags: seq<string>)
    requires |tags| > 0
    requires forall k :: 0 <= k < |tags| ==> IsTag(tags[k])
    ensures Map(Split(Join(tags, ", "), ','), Trim) == tags
  {
    var s := Join(tags, ", ");
    SplitJoinedTags(tags, "");
    assert "" + s == s;
    var pieces := Split(s, ',');
    var trimmed := Map(pieces, Trim);
    forall k | 0 <= k < |tags| ensures trimmed[k] == tags[k] {
      TrimTagPiece(if k == 0 then "" else " ", tags[k]);
    }
  }

  /** A tag behind the space of the separator trims back to the tag. */
  lemma {:induction false} TrimTagPiece(pre: string, t: string)
    requires pre == "" || pre == " "
    requires IsTag(t)
    ensures Trim(pre + t) == t
  {
    if pre == " " {
      TrimLeadingSpace(' ', t);
      assert pre + t == [' '] + t;
    } else {
      assert pre + t == t;
    }
  }

  // ---------------------------------------------------------------------
  // Loading

  /** `Array.isArray(blog.tags) ? blog.tags.join(", ") : (blog.tags || "")`. */
  function TagsText(v: Option<Value>): (text: string)
    ensures !Truthy(v) ==> text == ""
    ensures v.Some? && v.value.Str? ==> text == v.value.s
    ensures v.Some? && v.value.StrList? && (forall k :: 0 <= k < |v.value.items| ==> IsTag(v.value.items[k]))
      ==> ParseTags(text) == v.value.items
  {
    if v.Some? && v.value.StrList? then
      var items := v.value.items;
      assert (forall k :: 0 <= k < |items| ==> IsTag(items[k])) ==> ParseTags(Join(items, ", ")) == items by {
        if forall k :: 0 <= k < |items| ==> IsTag(items[k]) {
          TagsRoundTrip(items);
        }
      }
      Join(items, ", ")
    else TextOr(v, "")
  }

  /** The object `loadBlog` puts into the form. */
  function LoadForm(blog: Record): (f: FormData)
    ensures "title" !in blog.fields ==> f.title == ""
    ensures "description" !in blog.fields ==> f.description == ""
    ensures "content" !in blog.fields ==> f.content == ""
    ensures "readTime" !in blog.fields ==> f.readTime == ""
    ensures "author" !in blog.fields ==> f.author == ""
    ensures "tags" !in blog.fields ==> f.tags == ""
    ensures !Truthy(Get(blog.fields, "category")) ==> f.category == "Guide"
    ensures !Truthy(Get(blog.fields, "icon")) ==> f.icon == "BookOpen"
    ensures !Truthy(Get(blog.fields, "featured")) ==> !f.featured
  {
    var g := blog.fields;
    FormData(
      TextOr(Get(g, "title"), ""),
      TextOr(Get(g, "description"), ""),
      TextOr(Get(g, "content"), ""),
      TextOr(Get(g, "category"), "Guide"),
      TextOr(Get(g, "readTime"), ""),
      TextOr(Get(g, "icon"), "BookOpen"),
      TextOr(Get(g, "author"), ""),
      TagsText(Get(g, "tags")),
      Truthy(Get(g, "featured")))
  }

  // ---------------------------------------------------------------------
  // Submitting

  /** The required-field check: the first blank field, in the order title,
      description, content, names the error; None lets the submission go on. */
  function Validate(f: FormData): (error: Option<string>)
    ensures error.None? <==> !IsBlank(f.title) && !IsBlank(f.description) && !IsBlank(f.content)
    ensures IsBlank(f.title) ==> error == Some("Title is required")
    ensures !IsBlank(f.title) && IsBlank(f.description) ==> error == Some("Description is required")
    ensures !IsBlank(f.title) && !IsBlank(f.description) && IsBlank(f.content) ==> error == Some("Content is required")
  {
    if Trim(f.title) == "" then Some("Title is required")
    else if Trim(f.description) == "" then Some("Description is required")
    else if Trim(f.content) == "" then Some("Content is required")
    else None
  }

  /** `{ ...formData, tags: parsed tags, content: formData.content }`. */
  function BlogData(f: FormData): (d: Fields)
    ensures d.Keys == {"title", "description", "content", "category", "readTime", "icon", "author", "tags", "featured"}
    ensures "tags" in d && d["tags"] == StrList(ParseTags(f.tags))
    ensures "title" in d && d["title"] == Str(f.title)
    ensures "description" in d && d["description"] == Str(f.description)
    ensures "content" in d && d["content"] == Str(f.content)
    ensures "category" in d && d["category"] == Str(f.category)
    ensures "readTime" in d && d["readTime"] == Str(f.readTime)
    ensures "icon" in d && d["icon"] == Str(f.icon)
    ensures "author" in d && d["author"] == Str(f.author)
    ensures "featured" in d && d["featured"] == Bool(f.featured)
  {
    map[
      "title" := Str(f.title),
      "description" := Str(f.description),
      "content" := Str(f.content),
      "category" := Str(f.category),
      "readTime" := Str(f.readTime),
      "icon" := Str(f.icon),
      "author" := Str(f.author),
      "tags" := StrList(ParseTags(f.tags)),
      "featured" := Bool(f.featured)]
  }

  /** The blog holds a non-empty string under `key`. */
  predicate FilledText(blog: Record, key: string)
  {
    key in blog.fields && blog.fields[key].Str? && blog.fields[key].s != ""
  }

  /** A blog whose form fields are all set and well formed. */
  predicate WellFormedBlog(blog: Record)
  {
    && FilledText(blog, "title") && FilledText(blog, "description") && FilledText(blog, "content")
    && FilledText(blog, "category") && FilledText(blog, "readTime") && FilledText(blog, "icon")
    && FilledText(blog, "author")
    && "tags" in blog.fields && blog.fields["tags"].StrList?
    && (forall k :: 0 <= k < |blog.fields["tags"].items| ==> IsTag(blog.fields["tags"].items[k]))
    && "featured" in blog.fields && blog.fields["featured"].Bool?
  }

  /** Loading a well-formed blog and submitting the form untouched writes back
      the very same form fields. */
  lemma LoadThenSubmitUnchanged(blog: Record)
    requires WellFormedBlog(blog)
    ensures var d := BlogData(LoadForm(blog));
      && d["title"] == blog.fields["title"] && d["description"] == blog.fields["description"]
      && d["content"] == blog.fields["content"] && d["category"] == blog.fields["category"]
      && d["readTime"] == blog.fields["readTime"] && d["icon"] == blog.fields["icon"]
      && d["author"] == blog.fields["author"] && d["featured"] == blog.fields["featured"]
      && d["tags"] == blog.fields["tags"]
  {
    var d := BlogData(LoadForm(blog));
    assert d["title"] == blog.fields["title"] && d["description"] == blog.fields["description"]
      && d["content"] == blog.fields["content"] by {
      KeepsText(blog, "title");
      KeepsText(blog, "description");
      KeepsText(blog, "content");
    }
    assert d["category"] == blog.fields["category"] && d["icon"] == blog.fields["icon"] by {
      KeepsText(blog, "category");
      KeepsText(blog, "icon");
    }
    assert d["readTime"] == blog.fields["readTime"] && d["author"] == blog.fields["author"] by {
      KeepsText(blog, "readTime");
      KeepsText(blog, "author");
    }
    assert d["tags"] == blog.fields["tags"] by {
      TagsRoundTrip(blog.fields["tags"].items);
    }
  }

  /** A non-empty text field survives the load and the submission. */
  lemma KeepsText(blog: Record, key: string)
    requires FilledText(blog, key)
    requires key in {"title", "description", "content", "category", "readTime", "icon", "author"}
    ensures key in BlogData(LoadForm(blog)) && BlogData(LoadForm(blog))[key] == blog.fields[key]
  {
  }

  /** Whether the route carries a blog id: `Boolean(blogId)`. */
  function IsEditing(blogId: Option<string>): (editing: bool)
    ensures editing == Truthy(if blogId.Some? then Some(Str(blogId.value)) else None)
  {
    blogId.Some? && blogId.value != ""
  }

  /** What a submission does before it reaches the store. */
  datatype Submission =
    | Rejected(message: string)
    | CallUpdate(id: Option<int>, blogData: Fields)
    | CallCreate(blogData: Fields)

  /** The decision `handleSubmit` takes: reject with the first validation
      message, or call `update` with the parsed route id, or `create`.
      `parsedId` is `parseInt(blogId)`. */
  function PlanSubmit(f: FormData, blogId: Option<string>, parsedId: Option<int>): (s: Submission)
    ensures s.Rejected? <==> Validate(f).Some?
    ensures s.Rejected? ==> s.message == Validate(f).value
    ensures s.CallUpdate? <==> Validate(f).None? && IsEditing(blogId)
    ensures s.CallCreate? <==> Validate(f).None? && !IsEditing(blogId)
    ensures s.CallUpdate? ==> s.id == parsedId
    ensures !s.Rejected? ==> s.blogData == BlogData(f)
  {
    match Validate(f)
    case Some(message) => Rejected(message)
    case None =>
      if IsEditing(blogId) then CallUpdate(parsedId, BlogData(f)) else CallCreate(BlogData(f))
  }

  /** How a submission ends: a validation toast, a successful save (toast and
      navigation back to the list), or a failed save (toast). */
  datatype SubmitOutcome = Invalid(message: string) | Saved(message: string) | SaveFailed(message: string)

  class BlogEditorPage {
    /** The `blogId` route parameter. */
    const blogId: Option<string>
    var formData: FormData
    var loading: bool
    var saving: bool
    var error: string

    constructor (blogId: Option<string>)
      ensures this.blogId == blogId
      ensures formData == InitialForm && !loading && !saving && error == ""
    {
      this.blogId := blogId;
      formData := InitialForm;
      loading := false;
      saving := false;
      error := "";
    }

    /** `loadBlog`. `parsedId` is `parseInt(blogId)`. */
    method LoadBlog(store: BlogsService.BlogStore, parsedId: Option<int>)
      modifies this
      ensures !loading && saving == old(saving)
      ensures parsedId.Some? && FindById(store.blogs, parsedId.value).Some? ==>
        formData == LoadForm(store.blogs[FindById(store.blogs, parsedId.value).value]) && error == ""
      ensures parsedId.None? || FindById(store.blogs, parsedId.value).None? ==>
        formData == old(formData) && error == "Failed to load blog. Please try again."
    {
      loading := true;
      error := "";
      var res := store.GetById(parsedId);
      if res.Ok? {
        formData := LoadForm(res.blog);
      } else {
        error := "Failed to load blog. Please try again.";
      }
      loading := false;
    }

    /** `handleSubmit`. `parsedId` is `parseInt(blogId)`. */
    method HandleSubmit(store: BlogsService.BlogStore, parsedId: Option<int>, now: string)
      returns (outcome: SubmitOutcome)
      requires store.Valid()
      modifies this, store
      ensures store.Valid()
      ensures formData == old(formData) && loading == old(loading) && error == old(error)
      ensures var plan := PlanSubmit(old(formData), blogId, parsedId);
        plan.Rejected? ==>
          outcome == Invalid(plan.message) && saving == old(saving)
          && store.blogs == old(store.blogs) && store.lastId == old(store.lastId)
      ensures var plan := PlanSubmit(old(formData), blogId, parsedId);
        !plan.Rejected? ==> !saving && SavedAsPlanned(plan, old(store.blogs), old(store.lastId), store.blogs, store.lastId, now, outcome)
    {
      var plan := PlanSubmit(formData, blogId, parsedId);
      if plan.Rejected? {
        return Invalid(plan.message);
      }
      outcome := SaveValid(store, plan, now);
    }

    /** The part of `handleSubmit` after validation: the `saving` flag is
        raised around the service call and lowered in `finally`. */
    method SaveValid(store: BlogsService.BlogStore, plan: Submission, now: string)
      returns (outcome: SubmitOutcome)
      requires store.Valid() && !plan.Rejected?
      modifies this, store
      ensures store.Valid()
      ensures formData == old(formData) && loading == old(loading) && error == old(error) && !saving
      ensures SavedAsPlanned(plan, old(store.blogs), old(store.lastId), store.blogs, store.lastId, now, outcome)
    {
      saving := true;
      outcome := Save(store, plan, now);
      saving := false;
    }
  }

  /** What the store and the outcome look like after a submission that
      passed validation: `create` always succeeds; `update` succeeds exactly
      when the parsed id is found, and otherwise changes nothing. */
  ghost predicate SavedAsPlanned(plan: Submission, before: seq<Record>, lastIdBefore: int,
                                 after: seq<Record>, lastIdAfter: int, now: string, outcome: SubmitOutcome)
    requires !plan.Rejected?
  {
    match plan
    case CallCreate(blogData) =>
      && outcome == Saved("Blog created successfully")
      && lastIdAfter == lastIdBefore + 1
      && after == before + [BlogsService.NewBlog(lastIdAfter, blogData, now)]
    case CallUpdate(id, blogData) =>
      && lastIdAfter == lastIdBefore
      && (outcome.Saved? <==> id.Some? && FindById(before, id.value).Some?)
      && (outcome.Saved? ==>
            && outcome.message == "Blog updated successfully"
            && var i := FindById(before, id.value).value;
               after == before[i := BlogsService.UpdatedBlog(before[i], id.value, blogData, now)])
      && (!outcome.Saved? ==> outcome == SaveFailed("Failed to update blog") && after == before)
  }

  /** The `try` block of `handleSubmit`: the service call a valid form leads to. */
  method Save(store: BlogsService.BlogStore, plan: Submission, now: string) returns (outcome: SubmitOutcome)
    requires store.Valid() && !plan.Rejected?
    modifies store
    ensures store.Valid()
    ensures SavedAsPlanned(plan, old(store.blogs), old(store.lastId), store.blogs, store.lastId, now, outcome)
  {
    if plan.CallCreate? {
      var _ := store.Create(plan.blogData, now);
      outcome := Saved("Blog created successfully");
    } else {
      var res := store.Update(plan.id, plan.blogData, now);
      outcome := if res.Ok? then Saved("Blog updated successfully") else SaveFailed("Failed to update blog");
    }
  }
}
