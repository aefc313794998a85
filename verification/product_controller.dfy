/**
 * The product handlers (Backend/controller/productController.js): the
 * category-id parser, the upload paths, the image files on disk, create,
 * update (with its image reconciliation), delete, the newest-first listing
 * and the category/search filter.
 */
module ProductController {
  import opened Js
  import opened Text
  import opened CategoryModel
  import opened ProductModel
  import opened Sorting

  const Placeholder: string := "https://via.placeholder.com/600x600"
  /** The public prefix of an uploaded image's path. */
  const UploadPrefix: string := "/uploads/products/"
  /** The directory, relative to the server, that holds the uploaded files. */
  const UploadDir: string := "uploads/products"

  // ---------------------------------------------------------------------------
  // parseObjectId

  /**
   * parseObjectId: a falsy id gives null; a string the ObjectId check
   * accepts is returned as is; otherwise a string is read as JSON and an
   * object's `$oid` is unwrapped, from the JSON or from an object id.
   * `isValid` is the ObjectId check and `parseJson` is JSON.parse, with None
   * for a string it throws on.
   */
  function ParseObjectId(id: Value, isValid: Value -> bool, parseJson: string -> Option<Value>): (r: Option<Value>)
    ensures r.Some? ==> isValid(r.value) && Truthy(r.value)
    ensures !Truthy(id) ==> r.None?
    ensures id.Str? && Truthy(id) && isValid(id) ==> r == Some(id)
    ensures id.Obj? && Truthy(Get(id, "$oid")) && isValid(Get(id, "$oid")) ==> r == Some(Get(id, "$oid"))
    ensures !id.Str? && !id.Obj? ==> r.None?
    ensures r.Some? && r.value != id ==>
      (id.Obj? && r.value == Get(id, "$oid"))
      || (id.Str? && parseJson(id.s).Some? && r.value == Get(parseJson(id.s).value, "$oid"))
  {
    if !Truthy(id) then None
    else if id.Str? then
      if isValid(id) then Some(id)
      else
        var parsed := parseJson(id.s);
        if parsed.Some? && Truthy(parsed.value) && Truthy(Get(parsed.value, "$oid")) && isValid(Get(parsed.value, "$oid"))
        then Some(Get(parsed.value, "$oid"))
        else None
    else if IsObjectLike(id) && Truthy(Get(id, "$oid")) && isValid(Get(id, "$oid")) then
      Some(Get(id, "$oid"))
    else None
  }

  /** The three encodings a client sends an id in all parse back to that id. */
  lemma ParseObjectIdRoundTrip(x: string, isValid: Value -> bool, parseJson: string -> Option<Value>, json: string)
    requires x != "" && isValid(Str(x))
    requires json != "" && !isValid(Str(json)) && parseJson(json) == Some(Obj(map["$oid" := Str(x)]))
    ensures ParseObjectId(Str(x), isValid, parseJson) == Some(Str(x))
    ensures ParseObjectId(Obj(map["$oid" := Str(x)]), isValid, parseJson) == Some(Str(x))
    ensures ParseObjectId(Str(json), isValid, parseJson) == Some(Str(x))
  {
    assert Get(Obj(map["$oid" := Str(x)]), "$oid") == Str(x);
  }

  // ---------------------------------------------------------------------------
  // Paths

  function UploadPath(fileName: string): string {
    UploadPrefix + fileName
  }

  function UploadPathsOf(fileNames: seq<string>): (r: seq<string>)
    ensures |r| == |fileNames|
    ensures forall i :: 0 <= i < |r| ==> r[i] == UploadPath(fileNames[i])
  {
    if fileNames == [] then [] else [UploadPath(fileNames[0])] + UploadPathsOf(fileNames[1..])
  }

  /** The uploaded files, one per upload path, in upload order. */
  method UploadPaths(fileNames: seq<string>) returns (paths: seq<string>)
    ensures paths == UploadPathsOf(fileNames)
  {
    paths := [];
    var i := 0;
    while i < |fileNames|
      invariant 0 <= i <= |fileNames|
      invariant |paths| == i
      invariant forall j :: 0 <= j < i ==> paths[j] == UploadPath(fileNames[j])
    {
      paths := paths + [UploadPath(fileNames[i])];
      i := i + 1;
    }
  }

  /** `path.basename` without trailing separators removed. */
  function LastSegment(s: string): (r: string)
    ensures |r| <= |s| && r == s[|s| - |r|..]
    ensures '/' !in r
    ensures |r| == |s| || s[|s| - |r| - 1] == '/'
  {
    if s == [] then []
    else if s[|s| - 1] == '/' then []
    else
      var r := LastSegment(s[..|s| - 1]);
      assert s[..|s| - 1][|s| - 1 - |r|..] == s[|s| - 1 - |r|..|s| - 1];
      r + [s[|s| - 1]]
  }

  function StripTrailingSlashes(s: string): (r: string)
    ensures r <= s && (r == [] || r[|r| - 1] != '/')
    ensures forall i :: |r| <= i < |s| ==> s[i] == '/'
  {
    if s != [] && s[|s| - 1] == '/' then StripTrailingSlashes(s[..|s| - 1]) else s
  }

  /** POSIX `path.basename`: the last segment after trailing slashes are dropped. */
  function Basename(p: string): string {
    LastSegment(StripTrailingSlashes(p))
  }

  /** `path.join(UploadDir, name)` with `.` and `..` resolved. */
  function JoinUnderUploadDir(name: string): string {
    if name == "" || name == "." then UploadDir
    else if name == ".." then "uploads"
    else UploadDir + "/" + name
  }

  /** The file deleteFile removes for an image path, if any: none for an empty path or the placeholder. */
  function Unlinked(imagePath: string): (r: set<string>)
    ensures imagePath == "" || imagePath == Placeholder ==> r == {}
    ensures |r| <= 1
  {
    if imagePath == "" || imagePath == Placeholder then {}
    else {JoinUnderUploadDir(Basename(imagePath))}
  }

  function UnlinkedAll(paths: seq<string>): set<string> {
    if paths == [] then {} else UnlinkedAll(paths[..|paths| - 1]) + Unlinked(paths[|paths| - 1])
  }

  /** A file name as the upload middleware produces it: one path segment. */
  predicate PlainFileName(f: string) {
    f != "" && f != "." && f != ".." && '/' !in f
  }

  function StoredFile(f: string): string {
    UploadDir + "/" + f
  }

  lemma {:induction false} LastSegmentOfJoin(dir: string, f: string)
    requires f != [] && '/' !in f
    ensures LastSegment(dir + "/" + f) == f
    decreases |f|
  {
    var s := dir + "/" + f;
    assert s[|s| - 1] == f[|f| - 1];
    assert s[..|s| - 1] == dir + "/" + f[..|f| - 1];
    if |f| == 1 {
      assert s[..|s| - 1] == dir + "/";
      assert LastSegment(s[..|s| - 1]) == [];
      assert f == [f[0]];
    } else {
      var g := f[..|f| - 1];
      assert '/' !in g by {
        forall i | 0 <= i < |g| ensures g[i] != '/' {
          assert g[i] == f[i];
        }
      }
      LastSegmentOfJoin(dir, f[..|f| - 1]);
      assert f == f[..|f| - 1] + [f[|f| - 1]];
    }
  }

  /** Deleting the stored path of an upload removes exactly the file the upload wrote. */
  lemma UnlinkUploadedFile(f: string)
    requires PlainFileName(f)
    ensures Unlinked(UploadPath(f)) == {StoredFile(f)}
  {
    var p := UploadPath(f);
    assert p != "" && p != Placeholder by {
      assert p[1] == 'u' && Placeholder[1] == 't';
    }
    assert Basename(p) == f by {
      assert p == "/uploads/products" + "/" + f;
      assert StripTrailingSlashes(p) == p by {
        assert p[|p| - 1] == f[|f| - 1];
      }
      LastSegmentOfJoin("/uploads/products", f);
    }
  }

  function StoredFiles(fileNames: seq<string>): set<string> {
    set f | f in fileNames :: StoredFile(f)
  }

  /**
   * The stored images an update unlinks: served from the upload directory
   * and not kept. `includes` compares strictly, so a kept item that is not
   * the same string (a number, say) keeps nothing.
   */
  function ImagesToDelete(stored: seq<string>, kept: seq<Value>): (r: seq<string>)
    ensures forall p :: p in r <==> p in stored && Str(p) !in kept && StartsWith(p, "/uploads")
    ensures |r| <= |stored|
  {
    if stored == [] then []
    else
      (if Str(stored[0]) !in kept && StartsWith(stored[0], "/uploads") then [stored[0]] else [])
      + ImagesToDelete(stored[1..], kept)
  }

  /** `filter((p) => p !== x)`: every copy of `x` goes, the rest stay in order (WithoutCounts, WithoutSplits). */
  function Without<T(==,!new)>(s: seq<T>, x: T): (r: seq<T>)
    ensures forall p :: p in r <==> p in s && p != x
  {
    if s == [] then []
    else
      assert s == [s[0]] + s[1..];
      (if s[0] != x then [s[0]] else []) + Without(s[1..], x)
  }

  /** The filter drops every copy of `x` and keeps every other item as often as it occurs. */
  lemma {:induction false} WithoutCounts<T(!new)>(s: seq<T>, x: T)
    ensures multiset(Without(s, x)) == multiset(s)[x := 0]
  {
    if s != [] {
      assert s == [s[0]] + s[1..];
      WithoutCounts(s[1..], x);
    }
  }

  /** Filtering two halves is filtering each half: the kept items stay in order. */
  lemma {:induction false} WithoutSplits<T(!new)>(a: seq<T>, b: seq<T>, x: T)
    ensures Without(a + b, x) == Without(a, x) + Without(b, x)
  {
    if a != [] {
      assert (a + b)[1..] == a[1..] + b;
      WithoutSplits(a[1..], b, x);
    } else {
      assert a + b == b;
    }
  }

  /**
   * Mongoose's `[String]` cast of an array: each item goes through the
   * String cast, and one item that does not cast fails the whole update.
   */
  function CastStrings(items: seq<Value>): (r: Option<seq<string>>)
    ensures r.Some? <==> forall i :: 0 <= i < |items| ==> CastString(items[i]).Some?
    ensures r.Some? ==> |r.value| == |items| && forall i :: 0 <= i < |items| ==> r.value[i] == CastString(items[i]).value
  {
    CastEach(CastString, items)
  }


  /** `keptImages` before the placeholder filter: a non-empty string decoded, an array as is, anything else []. None when `JSON.parse` throws. */
  function KeptSource(existingImages: Value, parseJson: string -> Option<Value>): Option<Value> {
    if existingImages.Str? && existingImages.s != "" then parseJson(existingImages.s)
    else if existingImages.Arr? then Some(existingImages)
    else Some(Arr([]))
  }

  /**
   * keptImages after the placeholder filter. None is the error case: the
   * JSON does not parse, or what it decodes to is not an array and so has
   * no `filter`. The items are not cast here: "[5]" keeps the number 5.
   */
  function KeptImages(existingImages: Value, parseJson: string -> Option<Value>): (r: Option<seq<Value>>)
    ensures r.Some? <==> KeptSource(existingImages, parseJson).Some? && KeptSource(existingImages, parseJson).value.Arr?
    ensures r.Some? ==> r.value == Without(KeptSource(existingImages, parseJson).value.items, Str(Placeholder))
    ensures !existingImages.Arr? && !Truthy(existingImages) ==> r == Some([])
    ensures r.Some? ==> Str(Placeholder) !in r.value
  {
    var raw := KeptSource(existingImages, parseJson);
    if raw.None? || !raw.value.Arr? then None
    else Some(Without(raw.value.items, Str(Placeholder)))
  }

  /** A kept list given as the JSON text "[5]" keeps the number, which the image path cast then stores as "5". */
  lemma NumericKeptImageStored(text: string, parseJson: string -> Option<Value>)
    requires text != "" && parseJson(text) == Some(Arr([Num(5)]))
    ensures KeptImages(Str(text), parseJson) == Some([Num(5)])
    ensures CastStrings([Num(5)]) == Some(["5"])
  {
    assert Without([Num(5)], Str(Placeholder)) == [Num(5)] by {
      assert Without([Num(5)][1..], Str(Placeholder)) == [];
    }
    assert DigitsOf(5) == ['5'];
    assert CastString(Num(5)) == Some(NumberText(5)) == Some("5");
    var items := [Num(5)];
    assert CastStrings(items[1..]) == Some([]) by {
      assert items[1..] == [];
    }
    assert CastStrings(items) == Some(["5"] + []);
    assert ["5"] + [] == ["5"];
  }

  /**
   * The list fields of a request (composition, indications,
   * contraindications, uses and mechanismOfAction): a non-empty string is
   * handed to `JSON.parse`, which must not throw.
   */
  predicate ListsParse(lists: seq<Value>, parseJson: string -> Option<Value>) {
    forall v :: v in lists ==> !(v.Str? && v.s != "" && parseJson(v.s).None?)
  }

  /** With no `existingImages`, every stored upload is unlinked. */
  lemma OmittedExistingImagesUnlinksAll(stored: seq<string>, parseJson: string -> Option<Value>)
    ensures KeptImages(Undefined, parseJson) == Some([])
    ensures forall p :: p in ImagesToDelete(stored, []) <==> p in stored && StartsWith(p, "/uploads")
  {
  }

  // ---------------------------------------------------------------------------
  // Category lookup

  /** `Category.findById`: inactive categories are found too. Only string ids are looked up. */
  predicate CategoryExists(cats: seq<Category>, id: Value) {
    id.Str? && exists c :: c in cats && c.id == id.s
  }

  function IndexOfProduct(ps: seq<Product>, id: string): (k: int)
    ensures -1 <= k < |ps|
    ensures k >= 0 ==> ps[k].id == id
    ensures k == -1 ==> forall j :: 0 <= j < |ps| ==> ps[j].id != id
  {
    if ps == [] then -1
    else if ps[0].id == id then 0
    else
      var k := IndexOfProduct(ps[1..], id);
      if k == -1 then -1 else k + 1
  }

  predicate NameTaken(ps: seq<Product>, name: string, except: int) {
    exists j :: 0 <= j < |ps| && j != except && ps[j].productName == name
  }

  predicate AllValid(ps: seq<Product>) {
    forall i :: 0 <= i < |ps| ==> ProductValid(ps[i])
  }

  predicate DistinctIds(ps: seq<Product>) {
    forall i, j :: 0 <= i < j < |ps| ==> ps[i].id != ps[j].id
  }

  /** The unique index on `productName`. */
  predicate DistinctNames(ps: seq<Product>) {
    forall i, j :: 0 <= i < j < |ps| ==> ps[i].productName != ps[j].productName
  }

  predicate StoreInvariant(ps: seq<Product>) {
    AllValid(ps) && DistinctIds(ps) && DistinctNames(ps)
  }

  lemma AppendKeepsInvariant(ps: seq<Product>, p: Product)
    requires StoreInvariant(ps) && ProductValid(p) && !NameTaken(ps, p.productName, -1)
    requires forall i :: 0 <= i < |ps| ==> ps[i].id != p.id
    ensures StoreInvariant(ps + [p])
  {
    var r := ps + [p];
    forall i, j | 0 <= i < j < |r| ensures r[i].id != r[j].id && r[i].productName != r[j].productName {
      if j == |ps| {
        assert r[i] == ps[i];
      }
    }
  }

  lemma ReplaceKeepsInvariant(ps: seq<Product>, k: int, p: Product)
    requires 0 <= k < |ps| && p.id == ps[k].id
    requires StoreInvariant(ps) && ProductValid(p) && !NameTaken(ps, p.productName, k)
    ensures StoreInvariant(ps[k := p])
  {
  }

  lemma RemoveKeepsInvariant(ps: seq<Product>, k: int)
    requires 0 <= k < |ps| && StoreInvariant(ps)
    ensures StoreInvariant(ps[..k] + ps[k + 1..])
  {
    var r := ps[..k] + ps[k + 1..];
    assert forall i :: 0 <= i < |r| ==> r[i] == ps[if i < k then i else i + 1];
  }

  function CreatedAt(p: Product): int {
    p.createdAt
  }

  // ---------------------------------------------------------------------------
  // getFilterProducts

  /** The query getFilterProducts builds. */
  datatype Cond =
    | All
    | CategoryIs(id: string)
    | CategoryIn(ids: seq<string>)
    | TextMatches(search: string)
    | Or(left: Cond, right: Cond)
    | And(left: Cond, right: Cond)

  /** `productName`, `name` or `description` matches the search, ignoring case. */
  predicate ProductTextMatches(p: Product, search: string) {
    || ContainsIgnoreCase(p.productName, search)
    || (p.name.Some? && ContainsIgnoreCase(p.name.value, search))
    || (p.description.Some? && ContainsIgnoreCase(p.description.value, search))
  }

  predicate Eval(c: Cond, p: Product) {
    match c
    case All => true
    case CategoryIs(id) => p.category == id
    case CategoryIn(ids) => p.category in ids
    case TextMatches(search) => ProductTextMatches(p, search)
    case Or(l, r) => Eval(l, p) || Eval(r, p)
    case And(l, r) => Eval(l, p) && Eval(r, p)
  }

  /** `Category.findOne({ slug })`; the unique slug index makes the first match the only one. */
  function FindBySlug(cats: seq<Category>, slug: string): (r: Option<Category>)
    ensures r.Some? ==> r.value in cats && r.value.slug == slug
    ensures r.None? ==> forall c :: c in cats ==> c.slug != slug
  {
    if cats == [] then None
    else if cats[0].slug == slug then Some(cats[0])
    else FindBySlug(cats[1..], slug)
  }

  /** The ids of the categories whose name matches the search, ignoring case. */
  function CategoryIdsMatching(cats: seq<Category>, search: string): (r: seq<string>)
    ensures forall id :: id in r <==> exists c :: c in cats && c.id == id && ContainsIgnoreCase(c.name, search)
  {
    if cats == [] then []
    else
      assert forall c :: c in cats <==> c == cats[0] || c in cats[1..];
      (if ContainsIgnoreCase(cats[0].name, search) then [cats[0].id] else []) + CategoryIdsMatching(cats[1..], search)
  }

  predicate Selects(category: Option<string>) {
    category.Some? && category.value != "" && category.value != "all"
  }

  /**
   * The query of getFilterProducts, or None when the category slug matches
   * no category and the handler answers with an empty list straight away.
   */
  function BuildQuery(cats: seq<Category>, category: Option<string>, search: Option<string>): Option<Cond> {
    var selected := if Selects(category) then FindBySlug(cats, category.value) else None;
    if Selects(category) && selected.None? then None
    else if search.None? || search.value == "" then
      Some(if selected.Some? then CategoryIs(selected.value.id) else All)
    else if selected.Some? then
      Some(And(CategoryIs(selected.value.id), TextMatches(search.value)))
    else
      var ids := CategoryIdsMatching(cats, search.value);
      Some(if |ids| > 0 then Or(TextMatches(search.value), CategoryIn(ids)) else TextMatches(search.value))
  }

  /** What the filter promises, stated per product. */
  predicate Wanted(cats: seq<Category>, category: Option<string>, search: Option<string>, p: Product) {
    var searching := search.Some? && search.value != "";
    if Selects(category) then
      exists c :: c in cats && c.slug == category.value && p.category == c.id
        && (searching ==> ProductTextMatches(p, search.value))
    else
      !searching || ProductTextMatches(p, search.value)
        || exists c :: c in cats && c.id == p.category && ContainsIgnoreCase(c.name, search.value)
  }

  /** The query built step by step selects exactly the products the filter promises. */
  lemma BuildQueryMeansWanted(cats: seq<Category>, category: Option<string>, search: Option<string>, p: Product)
    requires UniqueKeys(cats)
    ensures BuildQuery(cats, category, search).None? ==> !Wanted(cats, category, search, p)
    ensures BuildQuery(cats, category, search).Some? ==>
      (Eval(BuildQuery(cats, category, search).value, p) <==> Wanted(cats, category, search, p))
  {
    if Selects(category) {
      var sel := FindBySlug(cats, category.value);
      if sel.Some? {
        forall c | c in cats && c.slug == category.value ensures c == sel.value {
          var i :| 0 <= i < |cats| && cats[i] == c;
          var j :| 0 <= j < |cats| && cats[j] == sel.value;
          SameSlugNotStored(cats, i, j);
        }
      }
    } else if search.Some? && search.value != "" {
      var ids := CategoryIdsMatching(cats, search.value);
      assert p.category in ids <==> exists c :: c in cats && c.id == p.category && ContainsIgnoreCase(c.name, search.value);
    }
  }

  function FilterBy(ps: seq<Product>, q: Cond): (r: seq<Product>)
    ensures forall p :: p in r <==> p in ps && Eval(q, p)
    ensures multiset(r) <= multiset(ps)
  {
    if ps == [] then []
    else
      assert ps == [ps[0]] + ps[1..];
      (if Eval(q, ps[0]) then [ps[0]] else []) + FilterBy(ps[1..], q)
  }

  // ---------------------------------------------------------------------------
  // The store

  class ProductStore {
    var products: seq<Product>
    /** The files present under the upload directory. */
    var files: set<string>
    /** `mongoose.Types.ObjectId.isValid`. */
    const isValidId: Value -> bool
    /** `JSON.parse`, None when it throws. */
    const parseJson: string -> Option<Value>

    ghost predicate Valid()
      reads this
    {
      StoreInvariant(products)
    }

    constructor (isValidId: Value -> bool, parseJson: string -> Option<Value>, files: set<string>)
      ensures Valid() && products == [] && this.files == files
      ensures this.isValidId == isValidId && this.parseJson == parseJson
    {
      products := [];
      this.files := files;
      this.isValidId := isValidId;
      this.parseJson := parseJson;
    }

    /** deleteFile: removes the resolved file when it exists; the placeholder and "" are left alone. */
    method DeleteFile(imagePath: string)
      modifies this
      ensures files == old(files) - Unlinked(imagePath)
      ensures products == old(products)
    {
      if imagePath != "" && imagePath != Placeholder {
        var fullPath := JoinUnderUploadDir(Basename(imagePath));
        if fullPath in files {
          files := files - {fullPath};
        }
      }
    }

    /** `paths.forEach(deleteFile)` */
    method DeleteFiles(paths: seq<string>)
      modifies this
      ensures files == old(files) - UnlinkedAll(paths)
      ensures products == old(products)
    {
      var i := 0;
      while i < |paths|
        invariant 0 <= i <= |paths|
        invariant files == old(files) - UnlinkedAll(paths[..i])
        invariant products == old(products)
      {
        assert paths[..i + 1][..i] == paths[..i];
        DeleteFile(paths[i]);
        i := i + 1;
      }
      assert paths[..i] == paths;
    }

    /** The validators, then the unique index on the name, then the insert; the files are not touched. */
    method Insert(p: Product) returns (inserted: bool)
      requires Valid() && forall i :: 0 <= i < |products| ==> products[i].id != p.id
      modifies this
      ensures Valid() && files == old(files)
      ensures inserted <==> ProductValid(p) && !NameTaken(old(products), p.productName, -1)
      ensures inserted ==> products == old(products) + [p]
      ensures !inserted ==> products == old(products)
    {
      if !ProductValid(p) || NameTaken(products, p.productName, -1) {
        return false;
      }
      AppendKeepsInvariant(products, p);
      products := products + [p];
      return true;
    }

    /** createProduct answers 201 on `ps`: the list fields parse, the category id parses and names a stored category, and the new product passes the schema and its trimmed name is free. */
    predicate CreateGoesThrough(ps: seq<Product>, fields: ProductFields, lists: seq<Value>, category: Value, uploads: seq<string>, cats: seq<Category>, newId: string, now: int) {
      var categoryId := ParseObjectId(category, isValidId, parseJson);
      && ListsParse(lists, parseJson)
      && categoryId.Some? && CategoryExists(cats, categoryId.value)
      && var p := NewProduct(fields, newId, categoryId.value.s, UploadPathsOf(uploads), now);
         ProductValid(p) && !NameTaken(ps, p.productName, -1)
    }

    /**
     * createProduct: the uploads are already on disk when the handler runs.
     * A list field that `JSON.parse` throws on, an id that does not parse
     * and an unknown category give 400 before any write; so do the schema
     * validators and a duplicate product name. `fields` holds the list
     * fields as they decode; `lists` holds them as they arrive.
     */
    method Create(fields: ProductFields, lists: seq<Value>, category: Value, uploads: seq<string>, cats: seq<Category>, newId: string, now: int)
      returns (status: int, created: Option<Product>)
      requires Valid()
      requires forall i :: 0 <= i < |products| ==> products[i].id != newId
      modifies this
      ensures Valid()
      ensures files == old(files) + StoredFiles(uploads)
      ensures status == 201 <==> created.Some?
      ensures status == 201 || status == 400
      ensures status == 201 <==> CreateGoesThrough(old(products), fields, lists, category, uploads, cats, newId, now)
      ensures status == 400 ==> products == old(products)
      ensures status == 201 ==>
        && created.value == NewProduct(fields, newId, ParseObjectId(category, isValidId, parseJson).value.s, UploadPathsOf(uploads), now)
        && ProductValid(created.value)
        && products == old(products) + [created.value]
    {
      files := files + StoredFiles(uploads);
      var checked, categoryId := CheckCreate(lists, category, cats);
      if checked != 0 {
        return 400, None;
      }
      var paths := UploadPaths(uploads);
      var p := NewProduct(fields, newId, categoryId, paths, now);
      assert p == NewProduct(fields, newId, ParseObjectId(category, isValidId, parseJson).value.s, UploadPathsOf(uploads), now);
      var inserted := Insert(p);
      if !inserted {
        return 400, None;
      }
      return 201, Some(p);
    }

    /** The checks createProduct makes before it saves: the list fields' JSON, then the category id and its record. Status 0 means they passed. */
    method CheckCreate(lists: seq<Value>, category: Value, cats: seq<Category>) returns (status: int, categoryId: string)
      ensures status == 0 || status == 400
      ensures status == 0 <==> ListsParse(lists, parseJson) && ParseObjectId(category, isValidId, parseJson).Some? && CategoryExists(cats, ParseObjectId(category, isValidId, parseJson).value)
      ensures status == 0 ==> Str(categoryId) == ParseObjectId(category, isValidId, parseJson).value
    {
      categoryId := "";
      if !ListsParse(lists, parseJson) {
        return 400, categoryId;
      }
      var parsed := ParseObjectId(category, isValidId, parseJson);
      if parsed.None? || !CategoryExists(cats, parsed.value) {
        return 400, categoryId;
      }
      return 0, parsed.value.s;
    }

    /** The request passes the checks updateProduct makes before any file is touched. */
    predicate UpdateChecksPass(id: string, lists: seq<Value>, category: Value, existingImages: Value, cats: seq<Category>)
      reads this
    {
      && isValidId(Str(id))
      && IndexOfProduct(products, id) >= 0
      && ListsParse(lists, parseJson)
      && PatchInputsOk(category, existingImages, cats)
    }

    /** The category and the kept image list of an update both pass their checks. */
    predicate PatchInputsOk(category: Value, existingImages: Value, cats: seq<Category>) {
      && (Truthy(category) ==> ParseObjectId(category, isValidId, parseJson).Some? && CategoryExists(cats, ParseObjectId(category, isValidId, parseJson).value))
      && KeptImages(existingImages, parseJson).Some?
    }

    /** The category path of the `$set`: a truthy category becomes the parsed id, a falsy one that is present "", an absent one leaves the body's. */
    function CategoryPath(body: ProductPatch, category: Value): Option<string> {
      if Truthy(category) then
        var catId := ParseObjectId(category, isValidId, parseJson);
        if catId.Some? && catId.value.Str? then Some(catId.value.s) else body.category
      else if category != Undefined then Some("")
      else body.category
    }

    /**
     * The `$set` document updateProduct sends: the body with the category
     * path and, as the image list, the kept items cast to strings followed
     * by the new uploads. None when the kept list is not an array or one of
     * its items does not cast.
     */
    function FinalPatch(body: ProductPatch, category: Value, existingImages: Value, uploads: seq<string>): Option<ProductPatch> {
      var kept := KeptImages(existingImages, parseJson);
      if kept.None? || CastStrings(kept.value).None? then None
      else Some(body.(category := CategoryPath(body, category), productImage := Some(CastStrings(kept.value).value + UploadPathsOf(uploads))))
    }

    /** The tail of updateProduct, with the uploads already on disk: the dropped images are unlinked, then the `$set` is cast and written, whatever its outcome. */
    method UnlinkThenCommit(k: int, d: ProductPatch, kept: seq<Value>, uploads: seq<string>) returns (status: int, updated: Option<Product>)
      requires Valid() && 0 <= k < |products|
      modifies this
      ensures Valid()
      ensures files == (old(files) + StoredFiles(uploads)) - UnlinkedAll(ImagesToDelete(old(products)[k].productImage, kept))
      ensures status == 200 <==> updated.Some?
      ensures status == 200 || status == 400
      ensures status == 200 <==> CastStrings(kept).Some? && old(PatchAccepted(k, d.(productImage := Some(CastStrings(kept).value + UploadPathsOf(uploads)))))
      ensures status != 200 ==> products == old(products)
      ensures d.uses == Some([]) ==> status != 200
      ensures status == 200 ==>
        && updated.value == ApplyPatch(old(products)[k], d.(productImage := Some(CastStrings(kept).value + UploadPathsOf(uploads))))
        && ProductValid(updated.value)
        && products == old(products)[k := updated.value]
    {
      files := files + StoredFiles(uploads);
      DeleteFiles(ImagesToDelete(products[k].productImage, kept));
      status, updated := CastAndCommit(k, d, kept, uploads);
    }

    /** The corrected tail, with the uploads already on disk: the cast and the validators are checked first, and the dropped images are unlinked only when the write will succeed. */
    method CommitThenUnlink(k: int, d: ProductPatch, kept: seq<Value>, uploads: seq<string>) returns (status: int, updated: Option<Product>)
      requires Valid() && 0 <= k < |products|
      modifies this
      ensures Valid()
      ensures status == 200 <==> updated.Some?
      ensures status == 200 || status == 400
      ensures status == 200 <==> CastStrings(kept).Some? && old(PatchAccepted(k, d.(productImage := Some(CastStrings(kept).value + UploadPathsOf(uploads)))))
      ensures status != 200 ==> products == old(products) && files == old(files) + StoredFiles(uploads)
      ensures d.uses == Some([]) ==> status != 200
      ensures status == 200 ==>
        && updated.value == ApplyPatch(old(products)[k], d.(productImage := Some(CastStrings(kept).value + UploadPathsOf(uploads))))
        && ProductValid(updated.value)
        && products == old(products)[k := updated.value]
        && files == (old(files) + StoredFiles(uploads)) - UnlinkedAll(ImagesToDelete(old(products)[k].productImage, kept))
    {
      files := files + StoredFiles(uploads);
      var images := CastStrings(kept);
      if images.None? || !PatchAccepted(k, d.(productImage := Some(images.value + UploadPathsOf(uploads)))) {
        return 400, None;
      }
      DeleteFiles(ImagesToDelete(products[k].productImage, kept));
      status, updated := CastAndCommit(k, d, kept, uploads);
    }

    /** What CheckUpdate hands over decides FinalPatch: the cast of the kept list, the category path and the uploads. */
    lemma FinalPatchOf(body: ProductPatch, category: Value, existingImages: Value, uploads: seq<string>, d: ProductPatch, kept: seq<Value>)
      requires KeptImages(existingImages, parseJson) == Some(kept)
      requires d == body.(category := CategoryPath(body, category))
      ensures FinalPatch(body, category, existingImages, uploads).Some? <==> CastStrings(kept).Some?
      ensures CastStrings(kept).Some? ==>
        FinalPatch(body, category, existingImages, uploads).value == d.(productImage := Some(CastStrings(kept).value + UploadPathsOf(uploads)))
    {
    }

    /** updateProduct answers 200: the early checks pass, the image list casts, and the update passes the validators and the unique name. */
    predicate UpdateGoesThrough(id: string, body: ProductPatch, lists: seq<Value>, category: Value, existingImages: Value, uploads: seq<string>, cats: seq<Category>)
      reads this
    {
      && UpdateChecksPass(id, lists, category, existingImages, cats)
      && FinalPatch(body, category, existingImages, uploads).Some?
      && PatchAccepted(IndexOfProduct(products, id), FinalPatch(body, category, existingImages, uploads).value)
    }

    /** Once the early checks have passed, updateProduct goes through exactly when the kept list casts and the final patch is accepted. */
    lemma GoesThroughOf(id: string, body: ProductPatch, lists: seq<Value>, category: Value, existingImages: Value, uploads: seq<string>, cats: seq<Category>,
                        k: int, d: ProductPatch, kept: seq<Value>)
      requires UpdateChecksPass(id, lists, category, existingImages, cats)
      requires k == IndexOfProduct(products, id)
      requires KeptImages(existingImages, parseJson) == Some(kept)
      requires d == body.(category := CategoryPath(body, category))
      ensures UpdateGoesThrough(id, body, lists, category, existingImages, uploads, cats)
        <==> CastStrings(kept).Some? && PatchAccepted(k, d.(productImage := Some(CastStrings(kept).value + UploadPathsOf(uploads))))
      ensures CastStrings(kept).Some? ==>
        FinalPatch(body, category, existingImages, uploads).value == d.(productImage := Some(CastStrings(kept).value + UploadPathsOf(uploads)))
    {
      FinalPatchOf(body, category, existingImages, uploads, d, kept);
    }

    /**
     * The category and the kept images of an update. A truthy category must
     * cast to an id and name an existing category (else 400); then
     * `existingImages` must parse to an array (else 400).
     */
    method PreparePatch(body: ProductPatch, category: Value, existingImages: Value, cats: seq<Category>)
      returns (status: int, d: ProductPatch, kept: seq<Value>)
      ensures status == 0 || status == 400
      ensures status == 0 <==> PatchInputsOk(category, existingImages, cats)
      ensures status == 0 ==>
        && KeptImages(existingImages, parseJson) == Some(kept)
        && d == body.(category := CategoryPath(body, category))
    {
      d, kept := body, [];
      if Truthy(category) {
        var catId := ParseObjectId(category, isValidId, parseJson);
        if catId.None? || !CategoryExists(cats, catId.value) {
          return 400, d, kept;
        }
        d := d.(category := Some(catId.value.s));
      } else if category != Undefined {
        d := d.(category := Some(""));
      }
      var keptImages := KeptImages(existingImages, parseJson);
      if keptImages.None? {
        return 400, d, kept;
      }
      kept := keptImages.value;
      status := 0;
    }

    /**
     * The checks updateProduct makes before touching any file: the id (400),
     * the product (404), the list fields' JSON (400), a truthy category
     * (400) and `existingImages` (400). Status 0 means they passed.
     */
    method CheckUpdate(id: string, body: ProductPatch, lists: seq<Value>, category: Value, existingImages: Value, cats: seq<Category>)
      returns (status: int, k: int, d: ProductPatch, kept: seq<Value>)
      ensures status == 0 || status == 400 || status == 404
      ensures !isValidId(Str(id)) ==> status == 400
      ensures status == 404 <==> isValidId(Str(id)) && IndexOfProduct(products, id) < 0
      ensures status == 0 <==> UpdateChecksPass(id, lists, category, existingImages, cats)
      ensures status == 0 ==>
        && k == IndexOfProduct(products, id) && 0 <= k < |products|
        && KeptImages(existingImages, parseJson) == Some(kept)
        && d == body.(category := CategoryPath(body, category))
    {
      if !isValidId(Str(id)) {
        return 400, -1, body, [];
      }
      k := IndexOfProduct(products, id);
      if k < 0 {
        return 404, k, body, [];
      }
      if !ListsParse(lists, parseJson) {
        return 400, k, body, [];
      }
      status, d, kept := PreparePatch(body, category, existingImages, cats);
    }

    /** The patch `d` would pass the update validators and keep the product name unique. */
    predicate PatchAccepted(k: int, d: ProductPatch)
      reads this
    {
      0 <= k < |products| && PatchValid(d) && !NameTaken(products, ApplyPatch(products[k], d).productName, k)
    }

    /**
     * The `$set` of updateProduct on the product at index `k`: the update
     * validators (400), then the unique index on the name (400), then the
     * replacement. The files are not touched.
     */
    method CommitPatch(k: int, d: ProductPatch) returns (status: int, updated: Option<Product>)
      requires Valid() && 0 <= k < |products|
      modifies this
      ensures Valid() && files == old(files)
      ensures status == 200 <==> updated.Some?
      ensures status == 200 || status == 400
      ensures status == 200 <==> old(PatchAccepted(k, d))
      ensures status != 200 ==> products == old(products)
      ensures d.uses == Some([]) ==> status != 200
      ensures status == 200 ==>
        && updated.value == ApplyPatch(old(products)[k], d)
        && ProductValid(updated.value)
        && products == old(products)[k := updated.value]
    {
      if !PatchValid(d) {
        return 400, None;
      }
      var p := ApplyPatch(products[k], d);
      if NameTaken(products, p.productName, k) {
        return 400, None;
      }
      PatchPreservesValidity(products[k], d);
      ReplaceKeepsInvariant(products, k, p);
      products := products[k := p];
      return 200, Some(p);
    }

    /** The `$set` once the files are reconciled: the image list cast (a failed cast is a 400), then CommitPatch. */
    method CastAndCommit(k: int, d: ProductPatch, kept: seq<Value>, uploads: seq<string>) returns (status: int, updated: Option<Product>)
      requires Valid() && 0 <= k < |products|
      modifies this
      ensures Valid() && files == old(files)
      ensures status == 200 <==> updated.Some?
      ensures status == 200 || status == 400
      ensures status == 200 <==> CastStrings(kept).Some? && old(PatchAccepted(k, d.(productImage := Some(CastStrings(kept).value + UploadPathsOf(uploads)))))
      ensures status != 200 ==> products == old(products)
      ensures d.uses == Some([]) ==> status != 200
      ensures status == 200 ==>
        && updated.value == ApplyPatch(old(products)[k], d.(productImage := Some(CastStrings(kept).value + UploadPathsOf(uploads))))
        && ProductValid(updated.value)
        && products == old(products)[k := updated.value]
    {
      var images := CastStrings(kept);
      if images.None? {
        return 400, None;
      }
      var newPaths := UploadPaths(uploads);
      status, updated := CommitPatch(k, d.(productImage := Some(images.value + newPaths)));
    }

    /**
     * updateProduct: the id, the product, the list fields and a truthy
     * category are checked first (400, 404, 400, 400). Then the stored
     * images the client no longer keeps are unlinked, and only then does
     * the `$set` cast the image list and run its validators: a rejected
     * update has already deleted those files.
     */
    method Update(id: string, body: ProductPatch, lists: seq<Value>, category: Value, existingImages: Value, uploads: seq<string>, cats: seq<Category>)
      returns (status: int, updated: Option<Product>)
      requires Valid()
      modifies this
      ensures Valid()
      ensures status == 200 <==> updated.Some?
      ensures status == 200 || status == 400 || status == 404
      ensures status == 200 <==> old(UpdateGoesThrough(id, body, lists, category, existingImages, uploads, cats))
      ensures status != 200 ==> products == old(products)
      ensures !isValidId(Str(id)) ==> status == 400
      ensures status == 404 <==> isValidId(Str(id)) && IndexOfProduct(old(products), id) < 0
      ensures !old(UpdateChecksPass(id, lists, category, existingImages, cats)) ==> files == old(files) + StoredFiles(uploads)
      ensures old(UpdateChecksPass(id, lists, category, existingImages, cats))
        ==> files == (old(files) + StoredFiles(uploads))
                     - UnlinkedAll(ImagesToDelete(old(products)[IndexOfProduct(old(products), id)].productImage, KeptImages(existingImages, parseJson).value))
      ensures body.uses == Some([]) ==> status != 200
      ensures status == 200 ==>
        var k := IndexOfProduct(old(products), id);
        && 0 <= k < |old(products)|
        && updated.value == ApplyPatch(old(products)[k], FinalPatch(body, category, existingImages, uploads).value)
        && ProductValid(updated.value)
        && products == old(products)[k := updated.value]
    {
      var checked, k, d, kept := CheckUpdate(id, body, lists, category, existingImages, cats);
      if checked != 0 {
        files := files + StoredFiles(uploads);
        return checked, None;
      }
      GoesThroughOf(id, body, lists, category, existingImages, uploads, cats, k, d, kept);
      status, updated := UnlinkThenCommit(k, d, kept, uploads);
    }

    /**
     * updateProduct with the order of its steps corrected: every check,
     * including the image cast, the update validators and the unique name,
     * comes before any stored image is unlinked, so a rejected update
     * leaves the old images in place.
     */
    method UpdateCorrected(id: string, body: ProductPatch, lists: seq<Value>, category: Value, existingImages: Value, uploads: seq<string>, cats: seq<Category>)
      returns (status: int, updated: Option<Product>)
      requires Valid()
      modifies this
      ensures Valid()
      ensures status == 200 <==> updated.Some?
      ensures status == 200 || status == 400 || status == 404
      ensures status == 200 <==> old(UpdateGoesThrough(id, body, lists, category, existingImages, uploads, cats))
      ensures status != 200 ==> products == old(products) && files == old(files) + StoredFiles(uploads)
      ensures !isValidId(Str(id)) ==> status == 400
      ensures status == 404 <==> isValidId(Str(id)) && IndexOfProduct(old(products), id) < 0
      ensures body.uses == Some([]) ==> status != 200
      ensures status == 200 ==>
        var k := IndexOfProduct(old(products), id);
        && 0 <= k < |old(products)|
        && updated.value == ApplyPatch(old(products)[k], FinalPatch(body, category, existingImages, uploads).value)
        && ProductValid(updated.value)
        && products == old(products)[k := updated.value]
        && files == (old(files) + StoredFiles(uploads))
                    - UnlinkedAll(ImagesToDelete(old(products)[k].productImage, KeptImages(existingImages, parseJson).value))
    {
      var checked, k, d, kept := CheckUpdate(id, body, lists, category, existingImages, cats);
      if checked != 0 {
        files := files + StoredFiles(uploads);
        return checked, None;
      }
      GoesThroughOf(id, body, lists, category, existingImages, uploads, cats, k, d, kept);
      status, updated := CommitThenUnlink(k, d, kept, uploads);
    }

    /** deleteProduct: 400 and 404 come before any unlink; then every stored image is unlinked and the record removed. */
    method Delete(id: string) returns (status: int)
      requires Valid()
      modifies this
      ensures Valid()
      ensures status == 200 || status == 400 || status == 404
      ensures !isValidId(Str(id)) ==> status == 400
      ensures isValidId(Str(id)) && IndexOfProduct(old(products), id) < 0 ==> status == 404
      ensures isValidId(Str(id)) && IndexOfProduct(old(products), id) >= 0 ==> status == 200
      ensures status != 200 ==> products == old(products) && files == old(files)
      ensures status == 200 ==>
        var k := IndexOfProduct(old(products), id);
        && 0 <= k
        && products == old(products)[..k] + old(products)[k + 1..]
        && files == old(files) - UnlinkedAll(old(products)[k].productImage)
    {
      if !isValidId(Str(id)) {
        return 400;
      }
      var k := IndexOfProduct(products, id);
      if k < 0 {
        return 404;
      }
      DeleteFiles(products[k].productImage);
      RemoveKeepsInvariant(products, k);
      products := products[..k] + products[k + 1..];
      return 200;
    }

    /** getProducts: every product, newest first. */
    method GetProducts() returns (r: seq<Product>)
      ensures SortedDesc(r, CreatedAt)
      ensures multiset(r) == multiset(products)
    {
      r := SortDesc(products, CreatedAt);
    }

    /**
     * getFilterProducts: the products the query selects, newest first; an
     * unknown category slug gives an empty list.
     */
    method GetFilterProducts(cats: seq<Category>, category: Option<string>, search: Option<string>) returns (r: seq<Product>)
      requires UniqueKeys(cats)
      ensures forall p :: p in r <==> p in products && Wanted(cats, category, search, p)
      ensures SortedDesc(r, CreatedAt)
      ensures multiset(r) <= multiset(products)
      ensures Selects(category) && FindBySlug(cats, category.value).None? ==> r == []
    {
      var q := BuildQuery(cats, category, search);
      if q.None? {
        return [];
      }
      var selected := FilterBy(products, q.value);
      r := SortDesc(selected, CreatedAt);
      MembersOfSort(selected, CreatedAt);
      forall p ensures Eval(q.value, p) <==> Wanted(cats, category, search, p) {
        BuildQueryMeansWanted(cats, category, search, p);
      }
    }
  }

  lemma {:induction false} UnlinkedAllIncludes(paths: seq<string>, i: int)
    requires 0 <= i < |paths|
    ensures Unlinked(paths[i]) <= UnlinkedAll(paths)
    decreases |paths|
  {
    if i < |paths| - 1 {
      UnlinkedAllIncludes(paths[..|paths| - 1], i);
    }
  }

  lemma UploadsPrefix()
    ensures "/uploads" <= UploadPrefix
  {
    var a, b := "/uploads", UploadPrefix;
    assert |a| == 8 && |b| == 18;
    assert a == b[..8];
  }

  /**
   * An update that sends no `existingImages` unlinks every uploaded image
   * of the product, and it does so before the update validators run, so
   * the file is gone even when the update is then rejected (for instance
   * for an empty `uses` list).
   */
  lemma RejectedUpdateStillUnlinks(stored: seq<string>, f: string)
    requires PlainFileName(f) && UploadPath(f) in stored
    ensures StoredFile(f) in UnlinkedAll(ImagesToDelete(stored, []))
  {
    var del := ImagesToDelete(stored, []);
    assert StartsWith(UploadPath(f), "/uploads") by {
      UploadsPrefix();
      assert UploadPrefix <= UploadPath(f);
    }
    assert UploadPath(f) in del;
    var i :| 0 <= i < |del| && del[i] == UploadPath(f);
    UnlinkedAllIncludes(del, i);
    UnlinkUploadedFile(f);
  }
}
