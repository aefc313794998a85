/**
 * The product list page of the admin panel (Admin/src/pages/allproduct.jsx):
 * the list editors of the edit modal, the image list normalisation, the
 * defaults the modal opens with, and the payload its submit sends.
 */
module AdminProductList {
  import opened Js
  import opened Text

  // ---------------------------------------------------------------------------
  // Generic list editors

  /** `xs.filter((_, i) => i !== idx)` */
  function RemoveIndex<T>(xs: seq<T>, idx: int): (r: seq<T>)
    ensures 0 <= idx < |xs| ==>
      |r| == |xs| - 1 && forall j :: 0 <= j < |r| ==> r[j] == xs[if j < idx then j else j + 1]
    ensures !(0 <= idx < |xs|) ==> r == xs
  {
    if 0 <= idx < |xs| then xs[..idx] + xs[idx + 1..] else xs
  }

  /** addField: one value appended after the unchanged list. */
  function AddField<T>(xs: seq<T>, v: T): (r: seq<T>)
    ensures |r| == |xs| + 1 && r[..|xs|] == xs && r[|xs|] == v
  {
    xs + [v]
  }

  /** removeArrayObj: a one-element list becomes `[def]`; otherwise index `idx` is dropped. */
  function RemoveArrayObj<T>(arr: seq<T>, idx: int, def: T): (r: seq<T>)
    ensures |arr| >= 1 ==> |r| >= 1
    ensures |arr| == 1 ==> r == [def]
    ensures |arr| != 1 ==> r == RemoveIndex(arr, idx)
  {
    if |arr| == 1 then [def] else RemoveIndex(arr, idx)
  }

  /** removeStringArray: the string-list version, whose default is "". */
  function RemoveStringArray(arr: seq<string>, idx: int): (r: seq<string>)
    ensures |arr| >= 1 ==> |r| >= 1
    ensures |arr| == 1 ==> r == [""]
    ensures |arr| > 1 && 0 <= idx < |arr| ==>
      |r| == |arr| - 1 && forall j :: 0 <= j < |r| ==> r[j] == arr[if j < idx then j else j + 1]
  {
    RemoveArrayObj(arr, idx, "")
  }

  /** updateField: `{ ...item, [field]: val }` at index `i`, every other row as it was. */
  function UpdateField(rows: seq<Row>, i: int, field: string, val: string): (r: seq<Row>)
    ensures |r| == |rows|
    ensures forall j :: 0 <= j < |rows| && j != i ==> r[j] == rows[j]
    ensures 0 <= i < |rows| ==> r[i] == rows[i][field := val] && RowGet(r[i], field) == val
  {
    seq(|rows|, j requires 0 <= j < |rows| => if j == i then rows[j][field := val] else rows[j])
  }

  /** updateArray: `val` at index `i`, every other element as it was. */
  function UpdateArray<T>(xs: seq<T>, i: int, val: T): (r: seq<T>)
    ensures |r| == |xs|
    ensures forall j :: 0 <= j < |xs| && j != i ==> r[j] == xs[j]
    ensures 0 <= i < |xs| ==> r[i] == val
  {
    seq(|xs|, j requires 0 <= j < |xs| => if j == i then val else xs[j])
  }

  /** removeExistingImage: every copy of `path` goes, the other paths keep their order. */
  function RemoveExistingImage(paths: seq<string>, path: string): (r: seq<string>)
    ensures forall p :: p in r <==> p in paths && p != path
    ensures |r| <= |paths|
  {
    if paths == [] then [] else (if paths[0] != path then [paths[0]] else []) + RemoveExistingImage(paths[1..], path)
  }

  /** Removing an image from two halves is removing it from each half: the order of the rest is kept. */
  lemma {:induction false} RemoveExistingImageSplits(a: seq<string>, b: seq<string>, path: string)
    ensures RemoveExistingImage(a + b, path) == RemoveExistingImage(a, path) + RemoveExistingImage(b, path)
  {
    if a != [] {
      assert (a + b)[1..] == a[1..] + b;
      RemoveExistingImageSplits(a[1..], b, path);
    } else {
      assert a + b == b;
    }
  }

  /** A list without `path` is left as it is. */
  lemma {:induction false} RemoveAbsentImage(paths: seq<string>, path: string)
    requires path !in paths
    ensures RemoveExistingImage(paths, path) == paths
  {
    if paths != [] {
      RemoveAbsentImage(paths[1..], path);
    }
  }

  // ---------------------------------------------------------------------------
  // Loading and opening a product

  /** `productImage` as the page keeps it: an array as is, a truthy scalar wrapped, anything else []. */
  function NormalizeImages(v: Value): (r: seq<Value>)
    ensures v.Arr? ==> r == v.items
    ensures !v.Arr? && Truthy(v) ==> r == [v]
    ensures !v.Arr? && !Truthy(v) ==> r == []
  {
    if v.Arr? then v.items else if Truthy(v) then [v] else []
  }

  /** Normalising twice is normalising once. */
  lemma NormalizeImagesIdempotent(v: Value)
    ensures NormalizeImages(Arr(NormalizeImages(v))) == NormalizeImages(v)
  {
  }

  /** `xs?.length ? xs : [blank]`: the edit modal never opens on an empty list. */
  function OrBlank<T>(xs: Option<seq<T>>, blank: T): (r: seq<T>)
    ensures |r| >= 1
    ensures xs.Some? && |xs.value| > 0 ==> r == xs.value
    ensures xs.None? || xs.value == [] ==> r == [blank]
  {
    if xs.Some? && |xs.value| > 0 then xs.value else [blank]
  }

  /** The lists a product's edit modal starts with. */
  datatype EditLists = EditLists(
    composition: seq<Row>,
    uses: seq<string>,
    indications: seq<string>,
    contraindications: seq<string>,
    mechanismOfAction: seq<Row>,
    currentImagePaths: seq<string>)

  /** openEditModal: each missing or empty list becomes one blank entry; the image paths default to []. */
  function OpenEditLists(
    composition: Option<seq<Row>>, uses: Option<seq<string>>, indications: Option<seq<string>>,
    contraindications: Option<seq<string>>, moa: Option<seq<Row>>, productImage: Option<seq<string>>): (r: EditLists)
    ensures |r.composition| >= 1 && |r.uses| >= 1 && |r.indications| >= 1
    ensures |r.contraindications| >= 1 && |r.mechanismOfAction| >= 1
    ensures composition.None? || composition.value == [] ==> r.composition == [BlankComposition]
    ensures moa.None? || moa.value == [] ==> r.mechanismOfAction == [BlankMoa]
    ensures uses.None? || uses.value == [] ==> r.uses == [""]
    ensures r.currentImagePaths == (if productImage.Some? then productImage.value else [])
  {
    EditLists(
      OrBlank(composition, BlankComposition),
      OrBlank(uses, ""),
      OrBlank(indications, ""),
      OrBlank(contraindications, ""),
      OrBlank(moa, BlankMoa),
      if productImage.Some? then productImage.value else [])
  }

  // ---------------------------------------------------------------------------
  // Submitting the edit

  /** `row.name || row.strength` (or the drug and moa pair): the row has a non-empty field. */
  function RowFilled(a: string, b: string): Row -> bool {
    row => RowGet(row, a) != "" || RowGet(row, b) != ""
  }

  function FilterRows(rows: seq<Row>, a: string, b: string): (r: seq<Row>)
    ensures forall x :: x in r <==> x in rows && (RowGet(x, a) != "" || RowGet(x, b) != "")
    ensures |r| <= |rows|
  {
    Filter(RowFilled(a, b), rows)
  }

  predicate Filled(x: string) {
    !IsBlank(x)
  }

  /** `xs.filter((u) => u.trim())` */
  function NonBlank(xs: seq<string>): (r: seq<string>)
    ensures forall x :: x in r <==> x in xs && !IsBlank(x)
    ensures |r| <= |xs|
  {
    Filter(Filled, xs)
  }

  /** FilterRows keeps the order of what it keeps: filtering two halves is filtering each half. */
  lemma FilterRowsSplits(xs: seq<Row>, ys: seq<Row>, a: string, b: string)
    ensures FilterRows(xs + ys, a, b) == FilterRows(xs, a, b) + FilterRows(ys, a, b)
  {
    FilterSplits(RowFilled(a, b), xs, ys);
  }

  /** FilterRows keeps every kept entry as often as it occurs, and no other. */
  lemma FilterRowsCounts(xs: seq<Row>, a: string, b: string)
    ensures forall x :: multiset(FilterRows(xs, a, b))[x] == if RowGet(x, a) != "" || RowGet(x, b) != "" then multiset(xs)[x] else 0
  {
    FilterCounts(RowFilled(a, b), xs);
  }

  /** NonBlank keeps the order of what it keeps: filtering two halves is filtering each half. */
  lemma NonBlankSplits(xs: seq<string>, ys: seq<string>)
    ensures NonBlank(xs + ys) == NonBlank(xs) + NonBlank(ys)
  {
    FilterSplits(Filled, xs, ys);
  }

  /** NonBlank keeps every kept entry as often as it occurs, and no other. */
  lemma NonBlankCounts(xs: seq<string>)
    ensures forall x :: multiset(NonBlank(xs))[x] == if !IsBlank(x) then multiset(xs)[x] else 0
  {
    FilterCounts(Filled, xs);
  }

  /** The list parts of the update request, before JSON encoding. */
  datatype UpdatePayload = UpdatePayload(
    composition: seq<Row>,
    uses: seq<string>,
    mechanismOfAction: seq<Row>,
    indications: seq<string>,
    contraindications: seq<string>,
    existingImages: seq<string>)

  /**
   * handleUpdate: composition rows need a name or a strength, MOA rows a
   * drug or a text, strings a non-blank value; `existingImages` is the
   * current image list as it stands.
   */
  function BuildUpdatePayload(lists: EditLists): (p: UpdatePayload)
    ensures forall c :: c in p.composition <==> c in lists.composition && (RowGet(c, "name") != "" || RowGet(c, "strength") != "")
    ensures forall m :: m in p.mechanismOfAction <==> m in lists.mechanismOfAction && (RowGet(m, "drug") != "" || RowGet(m, "moa") != "")
    ensures forall u :: u in p.uses <==> u in lists.uses && !IsBlank(u)
    ensures forall u :: u in p.indications <==> u in lists.indications && !IsBlank(u)
    ensures forall u :: u in p.contraindications <==> u in lists.contraindications && !IsBlank(u)
    ensures p.existingImages == lists.currentImagePaths
    ensures && p.composition == FilterRows(lists.composition, "name", "strength")
            && p.mechanismOfAction == FilterRows(lists.mechanismOfAction, "drug", "moa")
            && p.uses == NonBlank(lists.uses)
            && p.indications == NonBlank(lists.indications)
            && p.contraindications == NonBlank(lists.contraindications)
  {
    UpdatePayload(
      FilterRows(lists.composition, "name", "strength"),
      NonBlank(lists.uses),
      FilterRows(lists.mechanismOfAction, "drug", "moa"),
      NonBlank(lists.indications),
      NonBlank(lists.contraindications),
      lists.currentImagePaths)
  }

  /** Opening a product without lists and saving at once sends empty lists, not the blank rows. */
  lemma UntouchedModalSendsEmptyLists(productImage: Option<seq<string>>)
    ensures var p := BuildUpdatePayload(OpenEditLists(None, None, None, None, None, productImage));
      p.composition == [] && p.uses == [] && p.mechanismOfAction == [] && p.indications == [] && p.contraindications == []
  {
    var lists := OpenEditLists(None, None, None, None, None, productImage);
    assert lists.uses == [""] && lists.indications == [""] && lists.contraindications == [""];
    BlankStringDropped();
    BlankRowsDropped();
  }

  lemma BlankStringDropped()
    ensures NonBlank([""]) == []
  {
    assert Trim("") == "";
  }

  lemma BlankRowsDropped()
    ensures FilterRows([BlankComposition], "name", "strength") == []
    ensures FilterRows([BlankMoa], "drug", "moa") == []
  {
    BlankRowsRead();
  }

}
