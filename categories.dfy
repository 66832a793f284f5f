/** The fixed category table of `utils/CategoryManager.java`. */
module Categories {
  import opened JavaLang
  import opened CategoryModel

  /**
   * `getCategoryDisplayName`: a `switch` on the id, case-sensitive; an
   * unknown id is its own display name and a null id throws.
   */
  function CategoryDisplayName(id: Option<string>): (r: Result<string>)
    ensures id.None? <==> r == Thrown(NPE)
    ensures id == Some("sports") ==> r == Ok("Sports")
    ensures id == Some("tech") ==> r == Ok("Technology")
    ensures id == Some("news") ==> r == Ok("News")
    ensures id.Some? && id.value !in {"sports", "tech", "news"} ==> r == Ok(id.value)
  {
    match id
    case None => Thrown(NPE)
    case Some(s) =>
      if s == "sports" then Ok("Sports")
      else if s == "tech" then Ok("Technology")
      else if s == "news" then Ok("News")
      else Ok(s)
  }

  /** Display names are fixed points: only ids outside the table map to themselves. */
  lemma DisplayNameFixedPoints(id: string)
    ensures CategoryDisplayName(Some(id)) == Ok(id) <==> id !in {"sports", "tech", "news"}
  {
  }

  class CategoryManager {
    const categories: map<string, Category>

    /** Every category the manager hands out keeps a non-null subcategory list. */
    ghost predicate Valid()
      reads this, categories.Values
    {
      forall k :: k in categories ==> categories[k].subcategories.Some?
    }

    /** `initializeCategories`: three categories, each with three subcategories. */
    constructor ()
      ensures Valid()
      ensures categories.Keys == {"sports", "tech", "news"}
      ensures categories["sports"].Data() == CategoryData(Some("sports"), Some("Sports"), Some(["Football", "Basketball", "Tennis"]))
      ensures categories["tech"].Data() == CategoryData(Some("tech"), Some("Technology"), Some(["Smartphones", "Laptops", "Gadgets"]))
      ensures categories["news"].Data() == CategoryData(Some("news"), Some("News"), Some(["World", "Politics", "Business"]))
      ensures fresh(categories["sports"]) && fresh(categories["tech"]) && fresh(categories["news"])
    {
      var sports := new Category(Some("sports"), Some("Sports"), Some(["Football", "Basketball", "Tennis"]));
      var tech := new Category(Some("tech"), Some("Technology"), Some(["Smartphones", "Laptops", "Gadgets"]));
      var news := new Category(Some("news"), Some("News"), Some(["World", "Politics", "Business"]));
      categories := map["sports" := sports, "tech" := tech, "news" := news];
    }

    /** `getAllCategories`: the categories of the table, in no particular order. */
    function AllCategories(): (r: set<Category>)
      ensures forall k :: k in categories ==> categories[k] in r
      ensures forall c :: c in r ==> exists k :: k in categories && categories[k] == c
    {
      categories.Values
    }

    /** `getCategory`: a `HashMap.get`, so a null or unknown id gives null. */
    function GetCategory(id: Option<string>): (r: Option<Category>)
      ensures r.Some? <==> id.Some? && id.value in categories
      ensures r.Some? ==> r.value == categories[id.value]
    {
      if id.Some? && id.value in categories then Some(categories[id.value]) else None
    }

    /** `getSubcategories`: the category's list, or an empty list for an unknown id. */
    function GetSubcategories(id: Option<string>): (r: seq<string>)
      requires Valid()
      reads this, categories.Values
      ensures GetCategory(id).None? ==> r == []
      ensures GetCategory(id).Some? ==> Some(r) == GetCategory(id).value.subcategories
    {
      match GetCategory(id)
      case None => []
      case Some(c) => c.subcategories.value
    }

    /** `isValidCategory`. */
    predicate IsValidCategory(id: Option<string>)
    {
      id.Some? && id.value in categories
    }

    /**
     * `isValidSubcategory`: the category exists and its list holds the name
     * exactly; no list holds null, so a null name is never valid.
     */
    predicate IsValidSubcategory(id: Option<string>, sub: Option<string>)
      requires Valid()
      reads this, categories.Values
    {
      match GetCategory(id)
      case None => false
      case Some(c) => sub.Some? && sub.value in c.subcategories.value
    }

    /** A subcategory is valid exactly when its category is and the category's list holds it. */
    lemma ValidSubcategoryIff(id: Option<string>, sub: Option<string>)
      requires Valid()
      ensures IsValidSubcategory(id, sub) <==> IsValidCategory(id) && sub.Some? && sub.value in GetSubcategories(id)
    {
    }
  }
}
