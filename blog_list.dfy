/** The blog management list: its local copy of the blogs, the selected
    category, and the deletion flow (confirm, delete in the store, prune the
    local list). `window.confirm` is the boolean `confirmed`; toasts are not
    part of this model. */
module BlogList {
  import opened JsValues
  import opened Seqs
  import opened RecordStore
  import opened CategoryFilter
  import BlogsService

  /** The callback of `prev.filter(blog => blog.Id !== id)`. */
  function IdIsNot(id: int): Record -> bool
  {
    (b: Record) => b.Id != id
  }

  /** The local list after a successful delete. */
  function WithoutId(blogs: seq<Record>, id: int): (r: seq<Record>)
    ensures forall k :: 0 <= k < |r| ==> r[k].Id != id
    ensures forall k :: 0 <= k < |blogs| && blogs[k].Id != id ==> blogs[k] in r
  {
    Filter(blogs, IdIsNot(id))
  }

  /** With unique ids, pruning the local list by id removes exactly what the
      store's `splice` removes, and nothing when the id is absent. */
  lemma {:induction false} PruneMatchesSplice(blogs: seq<Record>, id: int)
    requires UniqueIds(blogs)
    ensures FindById(blogs, id).None? ==> WithoutId(blogs, id) == blogs
    ensures FindById(blogs, id).Some? ==> WithoutId(blogs, id) == RemoveAt(blogs, FindById(blogs, id).value)
  {
    if blogs != [] {
      var rest := blogs[1..];
      UniqueTail(blogs);
      if blogs[0].Id == id {
        FilterAllPass(rest, IdIsNot(id));
        assert RemoveAt(blogs, 0) == rest;
      } else {
        PruneMatchesSplice(rest, id);
        PruneSkipsHead(blogs, id);
      }
    }
  }

  lemma UniqueTail(blogs: seq<Record>)
    requires blogs != [] && UniqueIds(blogs)
    ensures UniqueIds(blogs[1..])
    ensures forall k :: 0 <= k < |blogs| - 1 ==> blogs[1..][k].Id != blogs[0].Id
  {
    assert forall i :: 0 <= i < |blogs| - 1 ==> blogs[1..][i] == blogs[i + 1];
  }

  /** When the head is kept, pruning and searching both move on to the tail. */
  lemma {:induction false} PruneSkipsHead(blogs: seq<Record>, id: int)
    requires blogs != [] && blogs[0].Id != id
    requires FindById(blogs[1..], id).None? ==> WithoutId(blogs[1..], id) == blogs[1..]
    requires FindById(blogs[1..], id).Some? ==>
      WithoutId(blogs[1..], id) == RemoveAt(blogs[1..], FindById(blogs[1..], id).value)
    ensures FindById(blogs, id).None? ==> WithoutId(blogs, id) == blogs
    ensures FindById(blogs, id).Some? ==> WithoutId(blogs, id) == RemoveAt(blogs, FindById(blogs, id).value)
  {
    var rest := blogs[1..];
    WithoutIdKeepsHead(blogs, id);
    FindByIdSkipsHead(blogs, id);
    match FindById(rest, id)
    case None =>
      assert blogs == [blogs[0]] + rest;
    case Some(i) =>
      RemoveAfterHead(blogs, i);
  }

  lemma {:induction false} WithoutIdKeepsHead(blogs: seq<Record>, id: int)
    requires blogs != [] && blogs[0].Id != id
    ensures WithoutId(blogs, id) == [blogs[0]] + WithoutId(blogs[1..], id)
  {
  }

  lemma {:induction false} FindByIdSkipsHead(blogs: seq<Record>, id: int)
    requires blogs != [] && blogs[0].Id != id
    ensures FindById(blogs, id) == match FindById(blogs[1..], id)
      case None => None
      case Some(i) => Some(i + 1)
  {
  }

  lemma {:induction false} RemoveAfterHead(blogs: seq<Record>, i: nat)
    requires i + 1 < |blogs|
    ensures RemoveAt(blogs, i + 1) == [blogs[0]] + RemoveAt(blogs[1..], i)
  {
    assert blogs[..i + 1] == [blogs[0]] + blogs[1..][..i];
    assert blogs[i + 2..] == blogs[1..][i + 1..];
  }

  class BlogListPage {
    var blogs: seq<Record>
    var loading: bool
    var error: string
    var selectedCategory: string
    /** The id whose deletion is in flight, or None. */
    var deleteLoading: Option<int>

    constructor ()
      ensures blogs == [] && loading && error == "" && selectedCategory == "All" && deleteLoading == None
    {
      blogs := [];
      loading := true;
      error := "";
      selectedCategory := "All";
      deleteLoading := None;
    }

    /** `filteredBlogs`. */
    function FilteredBlogs(): (shown: seq<Record>)
      reads this
      ensures selectedCategory == "All" ==> shown == blogs
      ensures selectedCategory != "All" ==> forall k :: 0 <= k < |shown| ==> InCategory(selectedCategory)(shown[k])
      ensures IsSubsequence(shown, blogs)
    {
      FilteredIsSubsequence(blogs, selectedCategory);
      Filtered(blogs, selectedCategory)
    }

    /** `loadBlogs`: the in-memory store's `getAll` never throws. */
    method LoadBlogs(store: BlogsService.BlogStore)
      modifies this
      ensures blogs == store.blogs && !loading && error == ""
      ensures selectedCategory == old(selectedCategory) && deleteLoading == old(deleteLoading)
    {
      loading := true;
      error := "";
      blogs := store.GetAll();
      loading := false;
    }

    /** `handleDelete(id, title)`. Returns whether the store deleted the blog. */
    method HandleDelete(store: BlogsService.BlogStore, id: int, confirmed: bool) returns (deleted: bool)
      requires store.Valid()
      modifies this, store
      ensures store.Valid() && store.lastId == old(store.lastId) && store.issued == old(store.issued)
      ensures selectedCategory == old(selectedCategory) && loading == old(loading) && error == old(error)
      ensures !confirmed ==>
        !deleted && blogs == old(blogs) && deleteLoading == old(deleteLoading) && store.blogs == old(store.blogs)
      ensures confirmed ==> deleteLoading == None
      ensures deleted <==> confirmed && FindById(old(store.blogs), id).Some?
      ensures deleted ==> blogs == WithoutId(old(blogs), id)
      ensures deleted ==> store.blogs == RemoveAt(old(store.blogs), FindById(old(store.blogs), id).value)
      ensures !deleted ==> blogs == old(blogs) && store.blogs == old(store.blogs)
    {
      if !confirmed {
        return false;
      }
      deleteLoading := Some(id);
      var res := store.Delete(Some(id));
      deleted := res.Ok?;
      if deleted {
        blogs := WithoutId(blogs, id);
      }
      deleteLoading := None;
    }
  }
}
