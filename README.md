# Blog CMS and SEO landing pages: a Dafny model

This project models the logic at the centre of a healthcare-marketing
website built with React. It covers five parts:

- **Two in-memory record stores.** The blog service and the SEO landing-page
  service each keep an array of records and a `lastId` counter. `create`
  pre-increments the counter to allocate a fresh `Id` and appends the record.
  `update` merges new fields into the record it finds and keeps that record's
  `Id`. `delete` splices the record out. `getById` and `getBySlug` are linear
  searches.
- **How the stores differ on failure.** The blog store throws `Invalid blog ID`
  for an id that does not parse and `Blog not found` for a missing one. The SEO
  store resolves `null` in both cases.
- **The blog editor.** Loading a blog fills the form, with defaults for
  missing fields and the tag list joined with `", "`. Submitting first checks
  the required fields in a fixed order: title, description, content. It then
  parses the tags (split on `,`, trim each piece, drop the empty ones). It
  calls `update` when the route carries a blog id and `create` otherwise.
- **The blog list and the public resources page.** Both use the same category
  filter. The list also has a delete flow: confirm, delete in the store, then
  prune the local list.
- **The SEO landing page.** It takes the slug from the route and loads the
  page and its case study. It chooses which screen to show, and it turns each
  camelCase metric key into a label.

The project's modules:

- `JsValues` models JavaScript objects as maps from field names to values.
  Truthiness and `x || fallback` are written out.
- `JsStrings` gives `trim` with ECMAScript's whitespace set, and `join`. It
  gives `split` for a one-character separator and `replace` for a
  one-character string pattern replaced by `""`, the only forms the core
  uses.
- `Seqs` gives `filter`, `map`, `findIndex` and `splice`.
- `RecordStore` holds the invariant both stores share:
  - ids are unique;
  - every stored id was issued;
  - no issued id exceeds `lastId`.

  The ghost set `issued` holds every id a store has ever handed out, so "a
  deleted id is never reissued" becomes a postcondition.
- The store modules are classes whose methods update the records and the
  counter in place. The pages are classes whose methods update their state
  step by step around the store calls.

## Model

| member | source | states |
|---|---|---|
| JsValues.Truthy | src/components/pages/SEOLandingPage.jsx:40 | JavaScript truthiness: a value is falsy exactly when it is missing, null, false, 0 or the empty string |
| JsValues.TextOr | src/components/pages/BlogEditor.jsx:52-58 | `value \|\| fallback`: a truthy string is kept, and any falsy value (missing, null, false, 0, "") gives the fallback |
| JsStrings.TrimStart | src/components/pages/BlogEditor.jsx:77 | the result is a suffix of the input, everything removed is whitespace, and it does not start with whitespace |
| JsStrings.TrimEnd | src/components/pages/BlogEditor.jsx:77 | the result is a prefix of the input, everything removed is whitespace, and it does not end with whitespace |
| JsStrings.TrimIsSlice | src/components/pages/BlogEditor.jsx:77 | what `trim` keeps is one contiguous stretch of the input |
| JsStrings.Trim | src/components/pages/BlogEditor.jsx:77 | the result is trimmed, no longer than the input, and empty exactly when the input is all whitespace; a trimmed input is unchanged; no new characters appear |
| JsStrings.TrimLeadingSpace | src/components/pages/BlogEditor.jsx:97 | a leading whitespace character does not change the trimmed result |
| JsStrings.Split | src/components/pages/BlogEditor.jsx:97 | `split(",")` gives one piece more than there are separators, and no piece contains the separator |
| JsStrings.Join | src/components/pages/BlogEditor.jsx:59 | `parts.join(sep)` starts with the first part |
| JsStrings.SplitJoin | src/components/pages/BlogEditor.jsx:59 | separator-free parts joined with the separator split back into the same parts |
| JsStrings.SplitAppend | src/components/pages/BlogEditor.jsx:97 | splitting `a + sep + b` gives the pieces of `a` followed by the pieces of `b` |
| JsStrings.JoinSplit | src/components/pages/BlogEditor.jsx:97 | joining the pieces of a split with the separator gives back the string |
| JsStrings.SplitAfterPiece | src/components/pages/BlogEditor.jsx:97 | a separator-free piece followed by the separator splits off as the first piece |
| JsStrings.SplitWithoutSeparator | src/components/pages/BlogEditor.jsx:97 | a string without the separator splits into itself alone |
| JsStrings.RemoveFirst | src/components/pages/SEOLandingPage.jsx:28 | `replace` with a string pattern: a string without the character is unchanged; otherwise exactly one character goes |
| JsStrings.RemoveFirstAt | src/components/pages/SEOLandingPage.jsx:28 | the removed character is the first occurrence, and everything before and after it is kept in order |
| Seqs.Filter | src/components/pages/BlogList.jsx:58 | `filter`: never longer; every kept element passes and comes from the input; every passing element of the input is kept |
| Seqs.Map | src/components/pages/BlogEditor.jsx:97 | `map`: same length, and each element is the callback applied to the element at the same index |
| Seqs.FilterIsSubsequence | src/components/pages/BlogList.jsx:58 | `filter` keeps the original order: its result is a subsequence of the input |
| Seqs.FilterIdempotent | src/components/pages/Resources.jsx:38 | filtering twice by the same callback is filtering once |
| Seqs.FilterCount | src/components/pages/Resources.jsx:38 | every element that passes keeps its number of occurrences; every other element is gone |
| Seqs.FindFirst | src/services/api/seoLandingPagesService.js:27 | `find`/`findIndex`: the first index whose element passes, or none when no element passes |
| Seqs.RemoveAt | src/services/api/blogsService.js:80 | `splice(i, 1)`: one element fewer; the elements before `i` stay in place and those after it move down one; the multiset loses exactly `s[i]` |
| RecordStore.FindById | src/services/api/blogsService.js:51 | the index found holds the id, and none is found exactly when no record holds it |
| RecordStore.MaxId | src/services/api/blogsService.js:5 | `Math.max` of the ids of a non-empty store: no id exceeds it, and some record holds it |
| RecordStore.SeedConsistent | src/services/api/blogsService.js:4-5 | a seed store with unique ids and the counter at the largest id satisfies the store invariant |
| RecordStore.FoundAtOwnPosition | src/services/api/blogsService.js:51 | with unique ids, each record is found exactly at its own position |
| RecordStore.AppendKeepsConsistent | src/services/api/blogsService.js:34-40 | appending a record with id `lastId + 1` keeps the invariant; that id was never issued and exceeds every stored id |
| RecordStore.RemoveKeepsConsistent | src/services/api/blogsService.js:79-80 | splicing one record out keeps the invariant and removes exactly its id from the stored ids |
| RecordStore.ReplaceKeepsConsistent | src/services/api/blogsService.js:56-63 | replacing a record with one that has the same id keeps the invariant and the set of stored ids |
| BlogsService.DatePart | src/services/api/blogsService.js:35 | `split('T')[0]`: the longest prefix of the timestamp without a `T`, followed in the timestamp by `T` when shorter |
| BlogsService.SplitHeadIsPrefix | src/services/api/blogsService.js:35 | the first piece of a split on `T` is a prefix of the string, and ends where the first `T` is |
| BlogsService.NewBlog | src/services/api/blogsService.js:32-38 | the new record's id is the given one; `publishDate`, `createdAt` and `updatedAt` are always overwritten; every other field the caller passed is kept |
| BlogsService.UpdatedBlog | src/services/api/blogsService.js:56-61 | the keys are the old ones plus the update's; the update's fields win; untouched fields keep their old values; the id is forced and `updatedAt` refreshed |
| BlogsService.BlogStore.constructor | src/services/api/blogsService.js:4-5 | the store starts with the seed and `lastId` at the largest seed id, and satisfies the invariant |
| BlogsService.BlogStore.GetAll | src/services/api/blogsService.js:10-13 | every record, in store order |
| BlogsService.BlogStore.GetById | src/services/api/blogsService.js:15-28 | an id that does not parse throws `Invalid blog ID`; a missing one throws `Blog not found`; otherwise the first record with that id |
| BlogsService.BlogStore.Create | src/services/api/blogsService.js:30-42 | `lastId` grows by one; the new record has id `lastId`, which exceeds every stored id and was never issued; it is appended after the unchanged old records; the invariant is kept |
| BlogsService.BlogStore.Update | src/services/api/blogsService.js:44-65 | `Invalid blog ID` or `Blog not found` leave the store unchanged; otherwise the record at the found index, and only it, becomes the merged record; length, counter and invariant are kept |
| BlogsService.BlogStore.Delete | src/services/api/blogsService.js:67-82 | `Invalid blog ID` or `Blog not found` leave the store unchanged; otherwise exactly the found record is spliced out and returned, the others keep their order, and its id is no longer stored |
| BlogsService.DeleteThenCreate | src/services/api/blogsService.js:30-82 | after a successful delete, a later create never reissues the deleted id |
| SeoLandingPagesService.NewPage | src/services/api/seoLandingPagesService.js:36-39 | the new page keeps every field of the item and gets the given id |
| SeoLandingPagesService.UpdatedPage | src/services/api/seoLandingPagesService.js:51 | the update's fields win; the other old fields are kept; the id is forced to the parsed id |
| SeoLandingPagesService.SeoStore.constructor | src/services/api/seoLandingPagesService.js:3-4 | the store starts with the seed and `lastId` at the largest seed id, and satisfies the invariant |
| SeoLandingPagesService.SeoStore.GetAll | src/services/api/seoLandingPagesService.js:7-13 | every page, in store order |
| SeoLandingPagesService.SeoStore.GetById | src/services/api/seoLandingPagesService.js:15-22 | null for an id that does not parse or is missing; otherwise the first page with that id |
| SeoLandingPagesService.SeoStore.GetBySlug | src/services/api/seoLandingPagesService.js:24-31 | the first page whose `slug` equals the argument, or null when none does |
| SeoLandingPagesService.SeoStore.Create | src/services/api/seoLandingPagesService.js:33-44 | `lastId` grows by one; the new page has a fresh id above every stored id and is appended; the invariant is kept |
| SeoLandingPagesService.SeoStore.Update | src/services/api/seoLandingPagesService.js:46-58 | null and no change for a missing or unparseable id; otherwise only the page at the found index is replaced by the merged page |
| SeoLandingPagesService.SeoStore.Delete | src/services/api/seoLandingPagesService.js:60-72 | null and no change for a missing or unparseable id; otherwise exactly that page is spliced out and returned |
| CategoryFilter.Filtered | src/components/pages/Resources.jsx:36-38 | "All" gives the loaded list itself; otherwise every kept blog has the selected category, and the result is never longer |
| CategoryFilter.FilteredIsExactlyCategory | src/components/pages/BlogList.jsx:56-58 | any other category keeps exactly the blogs of that category, each as often as it occurs |
| CategoryFilter.FilteredIsSubsequence | src/components/pages/Resources.jsx:36-38 | the filtered list is a subsequence of the loaded list |
| CategoryFilter.FilteredIdempotent | src/components/pages/Resources.jsx:38 | filtering the filtered list again by the same category changes nothing |
| BlogList.WithoutId | src/components/pages/BlogList.jsx:47 | no remaining blog has the deleted id, and every blog with another id remains |
| BlogList.PruneMatchesSplice | src/components/pages/BlogList.jsx:46-47 | with unique ids, pruning the local list removes exactly what the store's `splice` removes, and nothing when the id is absent |
| BlogList.BlogListPage.constructor | src/components/pages/BlogList.jsx:11-16 | empty list, loading, no error, category "All", no delete in flight |
| BlogList.BlogListPage.FilteredBlogs | src/components/pages/BlogList.jsx:56-58 | "All" shows the whole list; otherwise only blogs of the selected category; always a subsequence of the list |
| BlogList.BlogListPage.LoadBlogs | src/components/pages/BlogList.jsx:21-33 | the local list becomes the store's records; loading ends; the error is cleared |
| BlogList.BlogListPage.HandleDelete | src/components/pages/BlogList.jsx:39-54 | a declined confirmation touches nothing; the delete succeeds exactly when the store holds the id, and then store and local list both lose that blog; a failed delete changes neither list; the store's counter and issued ids never change |
| BlogEditor.ParseTags | src/components/pages/BlogEditor.jsx:97 | every parsed tag is non-empty, trimmed and comma-free, and there are at most one more tags than commas |
| BlogEditor.ParseTagsAtComma | src/components/pages/BlogEditor.jsx:97 | the tags of `a + "," + b` are the tags of `a` followed by the tags of `b`, for any typed strings |
| BlogEditor.ParseTagsOfPiece | src/components/pages/BlogEditor.jsx:97 | a comma-free piece gives no tag when blank and its trimmed text otherwise |
| BlogEditor.TagsRoundTrip | src/components/pages/BlogEditor.jsx:97 | non-empty, trimmed, comma-free tags joined with ", " (as `loadBlog` does on line 59) parse back to the same list |
| BlogEditor.SplitJoinedTags | src/components/pages/BlogEditor.jsx:97 | splitting joined tags at the commas gives each tag, behind the space of the separator after the first |
| BlogEditor.TrimmedPiecesAreTags | src/components/pages/BlogEditor.jsx:97 | trimming the pieces of joined tags gives back the tags |
| BlogEditor.TrimTagPiece | src/components/pages/BlogEditor.jsx:97 | a tag behind the separator's space trims back to the tag |
| BlogEditor.NothingToParse | src/components/pages/BlogEditor.jsx:97 | an empty tag string parses to no tags |
| BlogEditor.TagsText | src/components/pages/BlogEditor.jsx:59 | a falsy value gives "", a string is kept, and a list of well-formed tags is joined so that it parses back to the same list |
| BlogEditor.LoadForm | src/components/pages/BlogEditor.jsx:51-61 | missing text fields become "", and a falsy category, icon or featured flag becomes "Guide", "BookOpen" or false |
| BlogEditor.Validate | src/components/pages/BlogEditor.jsx:77-90 | the submission passes exactly when title, description and content are each not all whitespace; otherwise the first blank one, in that order, names the error |
| BlogEditor.BlogData | src/components/pages/BlogEditor.jsx:95-99 | exactly the nine form fields are sent: each passed through unchanged, except `tags`, which is the parsed list |
| BlogEditor.LoadThenSubmitUnchanged | src/components/pages/BlogEditor.jsx:51-99 | loading a well-formed blog and submitting the form untouched writes back the same nine fields |
| BlogEditor.KeepsText | src/components/pages/BlogEditor.jsx:52-96 | a non-empty text field survives the load and the submission |
| BlogEditor.IsEditing | src/components/pages/BlogEditor.jsx:16 | `Boolean(blogId)`: the truthiness of the route parameter |
| BlogEditor.PlanSubmit | src/components/pages/BlogEditor.jsx:77-107 | rejected exactly when validation fails, with its message; otherwise `update` with the parsed id when the route has a blog id, `create` when it has none, with the built blog data |
| BlogEditor.BlogEditorPage.constructor | src/components/pages/BlogEditor.jsx:18-32 | the initial form, not loading, not saving, no error |
| BlogEditor.BlogEditorPage.LoadBlog | src/components/pages/BlogEditor.jsx:46-68 | a found blog fills the form through the load mapping; an unparseable or missing id leaves the form and sets the load error; loading ends on both paths |
| BlogEditor.BlogEditorPage.HandleSubmit | src/components/pages/BlogEditor.jsx:74-115 | a rejected form makes no store call and changes nothing; otherwise the store call is made as planned, and `saving` is false afterwards |
| BlogEditor.BlogEditorPage.SaveValid | src/components/pages/BlogEditor.jsx:92-114 | the planned store call, with `saving` lowered at the end and the rest of the page untouched |
| BlogEditor.Save | src/components/pages/BlogEditor.jsx:101-111 | create always succeeds and appends the new blog; update succeeds exactly when the parsed id is found and then replaces that record, else it reports the failure and changes nothing |
| SeoLandingPage.SlugOf | src/components/pages/SEOLandingPage.jsx:28 | `"/" + s` gives `s`; a path without a slash is unchanged; otherwise exactly one character goes |
| SeoLandingPage.SlugKeepsLaterSlashes | src/components/pages/SEOLandingPage.jsx:28 | only the first slash is removed: for `a` without a slash, `a + "/" + b` gives `a + b` |
| SeoLandingPage.SpaceBeforeCapitals | src/components/pages/SEOLandingPage.jsx:227 | every capital letter has a space right before it; one space is added per capital and nothing else is added |
| SeoLandingPage.SpaceBeforeOneCharacter | src/components/pages/SEOLandingPage.jsx:227 | a single capital gets a space in front; any other character is copied |
| SeoLandingPage.SpaceBeforeCapitalsAppend | src/components/pages/SEOLandingPage.jsx:227 | the global replacement works piece by piece: the spaced form of `a + b` is the spaced form of `a` followed by that of `b` |
| SeoLandingPage.MetricLabel | src/components/pages/SEOLandingPage.jsx:227 | the label is trimmed, holds only the key's characters and spaces, and every capital after the first position has a space right before it |
| SeoLandingPage.SpacesAreAllThatIsAdded | src/components/pages/SEOLandingPage.jsx:227 | after dropping whitespace, the spaced key equals the key |
| SeoLandingPage.TrimKeepsVisible | src/components/pages/SEOLandingPage.jsx:227 | `trim` removes whitespace only |
| SeoLandingPage.MetricLabelKeepsKey | src/components/pages/SEOLandingPage.jsx:227 | label and key have the same non-whitespace characters in the same order |
| SeoLandingPage.MetricLabelRoundTrip | src/components/pages/SEOLandingPage.jsx:227 | for a key without whitespace, dropping the label's spaces gives back the key |
| SeoLandingPage.MetricLabelOfLowerCase | src/components/pages/SEOLandingPage.jsx:227 | a trimmed key without capitals is its own label |
| SeoLandingPage.MetricLabelLeadingCapital | src/components/pages/SEOLandingPage.jsx:227 | the space inserted before a leading capital is trimmed away again |
| SeoLandingPage.SeoLandingPageView.constructor | src/components/pages/SEOLandingPage.jsx:13-16 | no page, no case study, loading, no error |
| SeoLandingPage.SeoLandingPageView.View | src/components/pages/SEOLandingPage.jsx:52-54 | the loading screen exactly while loading; then the error; then "Page not found" when there is no page; otherwise the page with its case study |
| SeoLandingPage.SeoLandingPageView.LoadPageData | src/components/pages/SEOLandingPage.jsx:22-50 | covers each path of the load (below) |

`SeoLandingPage.SeoLandingPageView.LoadPageData` states:

- When no page has the slug:
  - the error is "Page not found";
  - nothing is fetched;
  - the previous page and case study remain.
- When a page is found, it becomes `pageData`.
- The case study is fetched exactly when the found page's `caseStudyId` is
  truthy:
  - a successful fetch shows the page with that case study;
  - a failed fetch shows "Failed to load page data".
- Loading is false on every path.

## Left out

- Asynchrony is not modelled. The 300 ms `delay` and the 200 ms `setTimeout`
  promises become synchronous calls. React's batching of state updates is
  left out. The state changes are modelled as direct field updates, in source
  order.
- The wall clock is not modelled. Every `new Date().toISOString()` in one
  `create` or `update` is one parameter `now`, so the three calls in `create`
  are assumed to give the same instant.
- `parseInt` is not modelled. Its result is a parameter `Option<int>`, and None
  stands for NaN.
- `Math.max` of an empty seed (`-Infinity`) is left out. The stores are built
  only from a non-empty seed with unique ids and no `Id` key among the other
  fields.
- The mock JSON seed data is not part of this model. The seed is any sequence
  that satisfies the requirement above.
- Field values are limited to strings, integers, booleans, null and arrays of
  strings. JavaScript numbers are floats, but the model's numbers are
  integers: fractions and NaN (which is falsy) are not represented. Other
  arrays and nested objects are not represented either.
- JsValues.TextOr: for a truthy value that is not a string (a number, `true`
  or an array), the model returns the fallback. JavaScript returns the value
  itself, which the form would then hold.
- BlogEditor.LoadForm: the form's `featured` is a boolean, so a truthy value
  that is not a boolean (such as `1`, `"yes"` or an array) becomes `true`, and
  `BlogEditor.BlogData` writes back `true`. JavaScript keeps the original value
  (`blog.featured || false`).
- BlogEditor.LoadForm: states only the defaults. The kept values of
  well-formed blogs are stated by `BlogEditor.LoadThenSubmitUnchanged`.
- `handleInputChange` and the rendering are not modelled:
  - JSX, framer-motion, the ReactQuill editor configuration;
  - toasts and `navigate`. The outcome of a submission names the toast
    message instead.
- `window.confirm` is not modelled. It is the boolean parameter `confirmed`.
- `caseStudiesService.getById` is a remote SDK call. It is not part of this
  model: its answer is the parameter `fetch`, and a thrown error is
  `FetchFailed`. The other remote services are not part of this model either:
  `contactService`, `servicesService` and `industriesService`.
- The `loadBlogs` of the resources page is not modelled. It fetches the same
  `getAll` result that `BlogList.BlogListPage.LoadBlogs` models, and only
  its filter is modelled (`CategoryFilter.Filtered`). The error path of both
  `loadBlogs` functions cannot be reached: the in-memory `getAll` never throws.
- `App.jsx` (the route table) is not part of this model, and neither is
  `BlogDetail.jsx` (display only).
- The "Failed to create blog" toast cannot happen in this model, because the
  in-memory `create` never throws.
