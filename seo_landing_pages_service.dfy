/** The in-memory store of SEO landing pages: a module-level array `data` and
    a `lastId` counter. Unlike the blog store it never rejects: a missing or
    unparseable id resolves `null` (None here). The 200 ms timers are not part
    of this model. */
module SeoLandingPagesService {
  import opened JsValues
  import opened Seqs
  import opened RecordStore

  /** The callback of `find(item => item.slug === slug)`. */
  function SlugIs(slug: string): Record -> bool
  {
    (r: Record) => "slug" in r.fields && r.fields["slug"] == Str(slug)
  }

  /** `{ ...item, Id: id }`. */
  function NewPage(id: int, item: Fields): (p: Record)
    ensures p.Id == id && "Id" !in p.fields
    ensures p.fields.Keys == item.Keys - {"Id"}
    ensures forall k :: k in p.fields ==> p.fields[k] == item[k]
  {
    Record(id, item - {"Id"})
  }

  /** `{ ...data[index], ...updatedItem, Id: id }`. */
  function UpdatedPage(page: Record, id: int, updatedItem: Fields): (p: Record)
    ensures p.Id == id && "Id" !in p.fields
    ensures p.fields.Keys == page.fields.Keys + updatedItem.Keys - {"Id"}
    ensures forall k :: k in updatedItem && k != "Id" ==> p.fields[k] == updatedItem[k]
    ensures forall k :: k in page.fields && k !in updatedItem && k != "Id" ==> p.fields[k] == page.fields[k]
  {
    Record(id, (page.fields + updatedItem) - {"Id"})
  }

  class SeoStore {
    /** The `data` array. */
    var data: seq<Record>
    /** The `lastId` counter. */
    var lastId: int
    /** Every id this store has held or handed out. */
    ghost var issued: set<int>

    ghost predicate Valid()
      reads this
    {
      Consistent(data, lastId, issued)
    }

    /** Module initialisation: the seed pages and `lastId` at their largest id. */
    constructor (seed: seq<Record>)
      requires |seed| > 0 && UniqueIds(seed)
      requires forall i :: 0 <= i < |seed| ==> "Id" !in seed[i].fields
      ensures Valid()
      ensures data == seed && lastId == MaxId(seed) && issued == Ids(seed)
    {
      data := seed;
      lastId := MaxId(seed);
      issued := Ids(seed);
      new;
      SeedConsistent(seed);
    }

    /** `getAll`: a copy of every page, in store order. */
    method GetAll() returns (all: seq<Record>)
      ensures all == data
    {
      all := data;
    }

    /** `getById`. `id` is `parseInt(id)`; NaN equals no id, so it finds nothing. */
    method GetById(id: Option<int>) returns (page: Option<Record>)
      ensures id.None? ==> page.None?
      ensures page.Some? ==> id.Some? && page.value.Id == id.value
      ensures page.Some? ==> exists i :: (0 <= i < |data| && data[i] == page.value
        && forall j :: 0 <= j < i ==> data[j].Id != id.value)
      ensures page.None? && id.Some? ==> forall i :: 0 <= i < |data| ==> data[i].Id != id.value
    {
      if id.None? {
        return None;
      }
      var index := FindById(data, id.value);
      if index.None? {
        return None;
      }
      page := Some(data[index.value]);
    }

    /** `getBySlug`: the first page whose `slug` is the argument, or null. */
    method GetBySlug(slug: string) returns (page: Option<Record>)
      ensures page.Some? ==> exists i :: (0 <= i < |data| && data[i] == page.value
        && SlugIs(slug)(data[i]) && forall j :: 0 <= j < i ==> !SlugIs(slug)(data[j]))
      ensures page.None? ==> forall i :: 0 <= i < |data| ==> !SlugIs(slug)(data[i])
    {
      var index := FindFirst(data, SlugIs(slug));
      if index.None? {
        return None;
      }
      page := Some(data[index.value]);
    }

    /** `create`: the next id, appended at the end. */
    method Create(item: Fields) returns (page: Record)
      requires Valid()
      modifies this
      ensures Valid()
      ensures lastId == old(lastId) + 1
      ensures page == NewPage(lastId, item)
      ensures data == old(data) + [page]
      ensures forall i :: 0 <= i < |old(data)| ==> old(data)[i].Id < page.Id
      ensures page.Id !in old(issued) && issued == old(issued) + {page.Id}
    {
      page := NewPage(lastId + 1, item);
      AppendKeepsConsistent(data, lastId, issued, page);
      lastId := lastId + 1;
      data := data + [page];
      issued := issued + {page.Id};
    }

    /** `update`: merges `updatedItem` into the page with that id, in place,
        or resolves null and changes nothing. */
    method Update(id: Option<int>, updatedItem: Fields) returns (page: Option<Record>)
      requires Valid()
      modifies this
      ensures Valid() && lastId == old(lastId) && issued == old(issued)
      ensures (id.None? || FindById(old(data), id.value).None?) ==> page.None? && data == old(data)
      ensures id.Some? && FindById(old(data), id.value).Some? ==>
        var i := FindById(old(data), id.value).value;
        && page == Some(UpdatedPage(old(data)[i], id.value, updatedItem))
        && data == old(data)[i := page.value]
    {
      if id.None? {
        return None;
      }
      var index := FindById(data, id.value);
      if index.None? {
        return None;
      }
      var i := index.value;
      var updated := UpdatedPage(data[i], id.value, updatedItem);
      ReplaceKeepsConsistent(data, lastId, issued, i, updated);
      data := data[i := updated];
      page := Some(updated);
    }

    /** `delete`: splices the page with that id out and returns it, or
        resolves null and changes nothing. */
    method Delete(id: Option<int>) returns (page: Option<Record>)
      requires Valid()
      modifies this
      ensures Valid() && lastId == old(lastId) && issued == old(issued)
      ensures (id.None? || FindById(old(data), id.value).None?) ==> page.None? && data == old(data)
      ensures id.Some? && FindById(old(data), id.value).Some? ==>
        var i := FindById(old(data), id.value).value;
        && page == Some(old(data)[i])
        && data == RemoveAt(old(data), i)
        && id.value !in Ids(data)
    {
      if id.None? {
        return None;
      }
      var index := FindById(data, id.value);
      if index.None? {
        return None;
      }
      var i := index.value;
      page := Some(data[i]);
      RemoveKeepsConsistent(data, lastId, issued, i);
      data := RemoveAt(data, i);
    }
  }
}
