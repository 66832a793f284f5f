/** A blog category and its ordered list of subcategory names (`models/Category.java`). */
module CategoryModel {
  import opened JavaLang
  import opened Parcels

  /** What a Category writes into a Parcel: id, name and the subcategory list, in that order. */
  datatype CategoryData = CategoryData(id: Option<string>, name: Option<string>, subcategories: Option<seq<string>>)

  function EncodeCategory(d: CategoryData): (p: seq<ParcelValue>)
    ensures |p| == 3
    ensures p[0].PString? && p[1].PString? && p[2].PStringList?
  {
    [PString(d.id), PString(d.name), PStringList(d.subcategories)]
  }

  /** Read a category from position `at`: two strings then a string list. */
  function DecodeCategory(p: seq<ParcelValue>, at: nat): (r: Option<(CategoryData, nat)>)
    ensures r.Some? <==> at + 3 <= |p| && p[at].PString? && p[at + 1].PString? && p[at + 2].PStringList?
    ensures r.Some? ==> r.value.1 == at + 3
  {
    if at + 3 <= |p| && p[at].PString? && p[at + 1].PString? && p[at + 2].PStringList? then
      Some((CategoryData(p[at].s, p[at + 1].s, p[at + 2].list), at + 3))
    else None
  }

  /** The read order matches the write order: a written category reads back whole, whatever follows it. */
  lemma CategoryParcelRoundTrip(d: CategoryData, rest: seq<ParcelValue>)
    ensures DecodeCategory(EncodeCategory(d) + rest, 0) == Some((d, 3))
  {
  }

  class Category {
    var id: Option<string>
    var name: Option<string>
    /** Null only for a category read from a Parcel whose list was written as null. */
    var subcategories: Option<seq<string>>

    /** `new Category()`. */
    constructor Empty()
      ensures id.None? && name.None? && subcategories == Some([])
    {
      id, name, subcategories := None, None, Some([]);
    }

    /** `new Category(id, name, subcategories)`: a null list becomes empty. */
    constructor (id: Option<string>, name: Option<string>, subcategories: Option<seq<string>>)
      ensures this.id == id && this.name == name
      ensures this.subcategories == Some(subcategories.GetOr([]))
    {
      this.id, this.name := id, name;
      this.subcategories := Some(subcategories.GetOr([]));
    }

    /** `new Category(Parcel)` through `CREATOR`: reads id, name and the list in write order. */
    static method CreateFromParcel(p: seq<ParcelValue>) returns (c: Option<Category>)
      ensures c.Some? <==> DecodeCategory(p, 0).Some?
      ensures c.Some? ==> fresh(c.value) && c.value.Data() == DecodeCategory(p, 0).value.0
    {
      var d := DecodeCategory(p, 0);
      if d.None? {
        return None;
      }
      var cat := new Category.Empty();
      cat.id, cat.name, cat.subcategories := d.value.0.id, d.value.0.name, d.value.0.subcategories;
      return Some(cat);
    }

    function Data(): CategoryData
      reads this
    {
      CategoryData(id, name, subcategories)
    }

    /** `writeToParcel`. */
    function WriteToParcel(): (p: seq<ParcelValue>)
      reads this
      ensures DecodeCategory(p, 0) == Some((Data(), 3))
    {
      EncodeCategory(Data())
    }

    /** `setSubcategories`: a null list becomes empty. */
    method SetSubcategories(list: Option<seq<string>>)
      modifies this
      ensures subcategories == Some(list.GetOr([]))
      ensures id == old(id) && name == old(name)
    {
      subcategories := Some(list.GetOr([]));
    }

    /** `addSubcategory`: appends a non-null, non-blank name (duplicates allowed); anything else is ignored. */
    method AddSubcategory(s: Option<string>)
      modifies this
      ensures s.Some? && !IsBlank(s.value) ==> subcategories == Some(old(subcategories).GetOr([]) + [s.value])
      ensures s.None? || IsBlank(s.value) ==> subcategories == old(subcategories)
      ensures id == old(id) && name == old(name)
    {
      if s.Some? && !IsBlank(s.value) {
        var list := if subcategories.None? then [] else subcategories.value;
        subcategories := Some(list + [s.value]);
      }
    }

    /** `hasSubcategories`. */
    function HasSubcategories(): (r: bool)
      reads this
      ensures r <==> subcategories.Some? && |subcategories.value| > 0
    {
      subcategories.Some? && subcategories.value != []
    }
  }
}
