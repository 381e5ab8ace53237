/** The category filter of the blog management list and of the public
    resources page (the same expression in both): "All" shows every loaded
    blog, any other category the blogs whose `category` field is strictly
    equal to it. */
module CategoryFilter {
  import opened JsValues
  import opened Seqs

  /** The callback of `filter(blog => blog.category === selectedCategory)`. */
  function InCategory(category: string): Record -> bool
  {
    (b: Record) => "category" in b.fields && b.fields["category"] == Str(category)
  }

  /** `selectedCategory === "All" ? blogs : blogs.filter(...)`. */
  function Filtered(blogs: seq<Record>, selectedCategory: string): (r: seq<Record>)
    ensures selectedCategory == "All" ==> r == blogs
    ensures |r| <= |blogs|
    ensures selectedCategory != "All" ==> forall k :: 0 <= k < |r| ==> InCategory(selectedCategory)(r[k])
  {
    if selectedCategory == "All" then blogs else Filter(blogs, InCategory(selectedCategory))
  }

  /** Any category other than "All" keeps exactly the blogs of that category,
      each as often as it occurs in the list, and drops every other blog. */
  lemma FilteredIsExactlyCategory(blogs: seq<Record>, selectedCategory: string, b: Record)
    requires selectedCategory != "All"
    ensures multiset(Filtered(blogs, selectedCategory))[b]
      == if InCategory(selectedCategory)(b) then multiset(blogs)[b] else 0
  {
    FilterCount(blogs, InCategory(selectedCategory), b);
  }

  /** The filtered list keeps the loaded order: it is a subsequence of it. */
  lemma FilteredIsSubsequence(blogs: seq<Record>, selectedCategory: string)
    ensures IsSubsequence(Filtered(blogs, selectedCategory), blogs)
  {
    if selectedCategory == "All" {
      SubsequenceOfItself(blogs);
    } else {
      FilterIsSubsequence(blogs, InCategory(selectedCategory));
    }
  }

  /** Filtering the filtered list again by the same category changes nothing. */
  lemma FilteredIdempotent(blogs: seq<Record>, selectedCategory: string)
    ensures Filtered(Filtered(blogs, selectedCategory), selectedCategory) == Filtered(blogs, selectedCategory)
  {
    if selectedCategory != "All" {
      FilterIdempotent(blogs, InCategory(selectedCategory));
    }
  }
}
