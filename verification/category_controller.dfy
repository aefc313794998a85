/**
 * The category handlers (Backend/controller/categoryController.js) over an
 * in-memory category collection: create (with the pre-save slug), list the
 * active categories by name, read by id, update with `$set` (which bypasses
 * the save hook) and soft delete.
 */
module CategoryController {
  import opened Js
  import opened Text
  import opened CategoryModel

  // ---------------------------------------------------------------------------
  // Queries over the collection

  function IndexOfId(cs: seq<Category>, id: string): (k: int)
    ensures -1 <= k < |cs|
    ensures k >= 0 ==> cs[k].id == id && forall j :: 0 <= j < k ==> cs[j].id != id
    ensures k == -1 ==> forall j :: 0 <= j < |cs| ==> cs[j].id != id
  {
    if cs == [] then -1
    else if cs[0].id == id then 0
    else
      var k := IndexOfId(cs[1..], id);
      if k == -1 then -1 else k + 1
  }

  /** Lexicographic order of strings by code point, as MongoDB's binary string comparison orders them. */
  predicate LexLe(a: string, b: string)
    decreases |a|
  {
    a == [] || (b != [] && (a[0] < b[0] || (a[0] == b[0] && LexLe(a[1..], b[1..]))))
  }

  lemma {:induction false} LexTotal(a: string, b: string)
    ensures LexLe(a, b) || LexLe(b, a)
    decreases |a|
  {
    if a != [] && b != [] && a[0] == b[0] {
      LexTotal(a[1..], b[1..]);
    }
  }

  predicate SortedByName(cs: seq<Category>) {
    forall i :: 0 <= i < |cs| - 1 ==> LexLe(cs[i].name, cs[i + 1].name)
  }

  function InsertByName(c: Category, cs: seq<Category>): (r: seq<Category>)
    requires SortedByName(cs)
    ensures SortedByName(r)
    ensures multiset(r) == multiset(cs) + multiset{c}
    ensures r != [] && (r[0] == c || (cs != [] && r[0] == cs[0]))
  {
    if cs == [] then [c]
    else if LexLe(c.name, cs[0].name) then [c] + cs
    else
      LexTotal(c.name, cs[0].name);
      var rest := InsertByName(c, cs[1..]);
      assert cs == [cs[0]] + cs[1..];
      [cs[0]] + rest
  }

  function SortByName(cs: seq<Category>): (r: seq<Category>)
    ensures SortedByName(r)
    ensures multiset(r) == multiset(cs)
  {
    if cs == [] then []
    else
      assert cs == [cs[0]] + cs[1..];
      InsertByName(cs[0], SortByName(cs[1..]))
  }

  function Active(cs: seq<Category>): (r: seq<Category>)
    ensures forall c :: c in r <==> c in cs && c.isActive
    ensures multiset(r) <= multiset(cs)
  {
    if cs == [] then []
    else
      assert cs == [cs[0]] + cs[1..];
      (if cs[0].isActive then [cs[0]] else []) + Active(cs[1..])
  }

  /** `Category.find({ isActive: true }).sort({ name: 1 })` */
  function ActiveByName(cs: seq<Category>): seq<Category> {
    SortByName(Active(cs))
  }

  /** The active categories, each once, in ascending name order. */
  lemma ActiveByNameSpec(cs: seq<Category>)
    ensures forall c :: c in ActiveByName(cs) <==> c in cs && c.isActive
    ensures SortedByName(ActiveByName(cs))
    ensures multiset(ActiveByName(cs)) == multiset(Active(cs))
  {
    var r := ActiveByName(cs);
    forall c ensures c in r <==> c in Active(cs) {
      assert c in r <==> c in multiset(r);
      assert c in Active(cs) <==> c in multiset(Active(cs));
    }
  }

  /** The unique index on a key is violated by `c` unless only the record at `except` has it. */
  predicate Collides(cs: seq<Category>, c: Category, except: int) {
    exists j :: 0 <= j < |cs| && j != except && (cs[j].name == c.name || cs[j].slug == c.slug)
  }

  lemma AppendKeepsKeysUnique(cs: seq<Category>, c: Category)
    requires UniqueKeys(cs) && !Collides(cs, c, -1)
    ensures UniqueKeys(cs + [c])
  {
    var r := cs + [c];
    forall i, j | 0 <= i < j < |r| ensures r[i].name != r[j].name && r[i].slug != r[j].slug {
      if j == |cs| {
        assert r[i] == cs[i];
      }
    }
  }

  lemma ReplaceKeepsKeysUnique(cs: seq<Category>, k: int, c: Category)
    requires 0 <= k < |cs|
    requires UniqueKeys(cs) && !Collides(cs, c, k)
    ensures UniqueKeys(cs[k := c])
  {
  }

  // ---------------------------------------------------------------------------
  // Requests and replies

  /** The fields of a `$set` update body that the category schema keeps. */
  datatype CategoryPatch = CategoryPatch(
    name: Option<string>,
    slug: Option<string>,
    description: Option<string>,
    icon: Option<string>,
    isActive: Option<bool>)

  function Trimmed(o: Option<string>): Option<string> {
    if o.Some? then Some(Trim(o.value)) else None
  }

  /** `$set` after casting: the `trim` setters apply; the slug is NOT recomputed. */
  function ApplyPatch(c: Category, p: CategoryPatch): (r: Category)
    ensures r.id == c.id
    ensures p.name.None? ==> r.name == c.name
    ensures r.slug == (if p.slug.Some? then Trim(p.slug.value) else c.slug)
    ensures r.isActive == (if p.isActive.Some? then p.isActive.value else c.isActive)
  {
    Category(
      c.id,
      if p.name.Some? then Trim(p.name.value) else c.name,
      if p.slug.Some? then Trim(p.slug.value) else c.slug,
      if p.description.Some? then Trimmed(p.description) else c.description,
      if p.icon.Some? then p.icon.value else c.icon,
      if p.isActive.Some? then p.isActive.value else c.isActive)
  }

  /** The update validators, run on the paths of the `$set` only. */
  predicate PatchValid(p: CategoryPatch) {
    (p.name.Some? ==> NameValid(Trim(p.name.value))) && DescriptionValid(p.description)
  }

  /** The record createCategory saves: the trimmed name, the trimmed description, the icon or its placeholder, active, its slug set by the pre-save hook. */
  function NewCategory(newId: string, name: string, description: Option<string>, icon: Option<string>): (c: Category)
    ensures c.id == newId && c.name == Trim(name) && c.slug == Slugify(Trim(name)) && c.isActive
    ensures c.description == Trimmed(description)
    ensures c.icon == (if icon.Some? then icon.value else PlaceholderIcon)
  {
    PreSave(Category(newId, Trim(name), "", Trimmed(description), if icon.Some? then icon.value else PlaceholderIcon, true), true)
  }

  class CategoryStore {
    /** The collection, in insertion order. */
    var records: seq<Category>
    /** Whether a string casts to an ObjectId (Mongoose's ObjectId check, not modelled further). */
    const isValidId: string -> bool

    ghost predicate Valid()
      reads this
    {
      && UniqueKeys(records)
      && (forall i, j :: 0 <= i < j < |records| ==> records[i].id != records[j].id)
      && (forall i :: 0 <= i < |records| ==> isValidId(records[i].id) && NameValid(records[i].name))
    }

    constructor (isValidId: string -> bool)
      ensures Valid() && records == [] && this.isValidId == isValidId
    {
      records := [];
      this.isValidId := isValidId;
    }

    /**
     * createCategory: 400 without a name; 500 when the schema validators
     * reject the trimmed name or the description; 400 when the name or the
     * derived slug is already stored; otherwise 201 with the new record.
     */
    method Create(name: Option<string>, description: Option<string>, icon: Option<string>, newId: string)
      returns (status: int, created: Option<Category>)
      requires Valid()
      requires isValidId(newId) && forall i :: 0 <= i < |records| ==> records[i].id != newId
      modifies this
      ensures Valid()
      ensures name.None? || name.value == "" ==> status == 400 && records == old(records)
      ensures status == 201 <==> created.Some?
      ensures status != 201 ==> records == old(records)
      ensures status == 201 <==>
        && name.Some? && name.value != "" && NameValid(Trim(name.value)) && DescriptionValid(description)
        && !Collides(old(records), NewCategory(newId, name.value, description, icon), -1)
      ensures name.Some? && name.value != "" && !(NameValid(Trim(name.value)) && DescriptionValid(description)) ==> status == 500
      ensures (&& name.Some? && name.value != "" && NameValid(Trim(name.value)) && DescriptionValid(description)
               && Collides(old(records), NewCategory(newId, name.value, description, icon), -1))
        ==> status == 400
      ensures status == 201 ==>
        && created.value == NewCategory(newId, name.value, description, icon)
        && records == old(records) + [created.value]
      ensures status == 201 || status == 400 || status == 500
    {
      if name.None? || name.value == "" {
        return 400, None;
      }
      if !NameValid(Trim(name.value)) || !DescriptionValid(description) {
        return 500, None;
      }
      var c := NewCategory(newId, name.value, description, icon);
      var inserted := Insert(c);
      if !inserted {
        return 400, None;
      }
      return 201, Some(c);
    }

    /** The unique indexes on the name and the slug, then the insert. */
    method Insert(c: Category) returns (inserted: bool)
      requires Valid() && isValidId(c.id) && NameValid(c.name)
      requires forall i :: 0 <= i < |records| ==> records[i].id != c.id
      modifies this
      ensures Valid()
      ensures inserted <==> !Collides(old(records), c, -1)
      ensures inserted ==> records == old(records) + [c]
      ensures !inserted ==> records == old(records)
    {
      if Collides(records, c, -1) {
        return false;
      }
      AppendKeepsKeysUnique(records, c);
      records := records + [c];
      return true;
    }

    /** getCategories: the active categories in ascending name order. */
    method GetCategories() returns (r: seq<Category>)
      ensures forall c :: c in r <==> c in records && c.isActive
      ensures SortedByName(r)
      ensures multiset(r) == multiset(Active(records))
    {
      ActiveByNameSpec(records);
      r := ActiveByName(records);
    }

    /** getCategoryById: 500 when the id does not cast, 404 when absent; inactive records are returned too. */
    method GetById(id: string) returns (status: int, found: Option<Category>)
      ensures !isValidId(id) ==> status == 500 && found.None?
      ensures isValidId(id) && (exists i :: 0 <= i < |records| && records[i].id == id) ==>
        status == 200 && found.Some? && found.value in records && found.value.id == id
      ensures isValidId(id) && (forall i :: 0 <= i < |records| ==> records[i].id != id) ==>
        status == 404 && found.None?
    {
      if !isValidId(id) {
        return 500, None;
      }
      var k := IndexOfId(records, id);
      if k < 0 {
        return 404, None;
      }
      return 200, Some(records[k]);
    }

    /**
     * updateCategory: `findByIdAndUpdate(id, { $set: body }, { runValidators: true })`.
     * Invalid ids and failed validators give 400, a missing record 404, a
     * clash with another record's name or slug 400. The slug is only
     * changed when the body sets it: renaming keeps the old slug.
     */
    method Update(id: string, patch: CategoryPatch) returns (status: int, updated: Option<Category>)
      requires Valid()
      modifies this
      ensures Valid()
      ensures status == 200 <==> updated.Some?
      ensures status != 200 ==> records == old(records)
      ensures !isValidId(id) || !PatchValid(patch) ==> status == 400
      ensures isValidId(id) && PatchValid(patch) && (forall i :: 0 <= i < |old(records)| ==> old(records)[i].id != id) ==>
        status == 404
      ensures status == 200 <==>
        && isValidId(id) && PatchValid(patch) && IndexOfId(old(records), id) >= 0
        && !Collides(old(records), ApplyPatch(old(records)[IndexOfId(old(records), id)], patch), IndexOfId(old(records), id))
      ensures (&& isValidId(id) && PatchValid(patch) && IndexOfId(old(records), id) >= 0
               && Collides(old(records), ApplyPatch(old(records)[IndexOfId(old(records), id)], patch), IndexOfId(old(records), id)))
        ==> status == 400
      ensures status == 200 ==>
        var k := IndexOfId(old(records), id);
        && updated.value == ApplyPatch(old(records)[k], patch)
        && records == old(records)[k := updated.value]
      ensures status == 200 || status == 400 || status == 404
    {
      if !isValidId(id) || !PatchValid(patch) {
        return 400, None;
      }
      var k := IndexOfId(records, id);
      if k < 0 {
        return 404, None;
      }
      var c := ApplyPatch(records[k], patch);
      if Collides(records, c, k) {
        return 400, None;
      }
      ReplaceKeepsKeysUnique(records, k, c);
      records := records[k := c];
      return 200, Some(c);
    }

    /** deleteCategory: a soft delete that only clears `isActive`; 500 for an id that does not cast, 404 when absent. */
    method Delete(id: string) returns (status: int)
      requires Valid()
      modifies this
      ensures Valid()
      ensures |records| == |old(records)|
      ensures status != 200 ==> records == old(records)
      ensures !isValidId(id) ==> status == 500
      ensures isValidId(id) && (forall i :: 0 <= i < |old(records)| ==> old(records)[i].id != id) ==> status == 404
      ensures status == 200 <==> isValidId(id) && IndexOfId(old(records), id) >= 0
      ensures status == 200 ==>
        var k := IndexOfId(old(records), id);
        records == old(records)[k := old(records)[k].(isActive := false)]
      ensures status == 200 || status == 404 || status == 500
    {
      if !isValidId(id) {
        return 500;
      }
      var k := IndexOfId(records, id);
      if k < 0 {
        return 404;
      }
      records := records[k := records[k].(isActive := false)];
      return 200;
    }
  }

  /** After a successful update that renames a category without setting a slug, the stored slug is the old one. */
  lemma RenameKeepsSlug(c: Category, p: CategoryPatch)
    requires p.name.Some? && p.slug.None?
    ensures ApplyPatch(c, p).slug == c.slug
    ensures ApplyPatch(c, p).name == Trim(p.name.value)
  {
  }
}
