/**
 * The add-product form of the admin panel (Admin/src/pages/AddProduct.jsx):
 * its list editors, the reset, the checks before submit and the request it
 * sends, together with what the product schema then makes of that request.
 */
module AddProductForm {
  import opened Js
  import opened Text
  import opened ProductModel
  import AdminProductList

  /** The scalar fields of the form, all strings as they are sent. */
  type FormFields = map<string, string>

  /** The form's state. */
  datatype ProductForm = ProductForm(
    form: FormFields,
    composition: seq<Row>,
    uses: seq<string>,
    mechanismOfAction: seq<Row>,
    indications: seq<string>,
    contraindications: seq<string>,
    productImages: seq<string>)

  const InitialFields: FormFields := map[
    "productName" := "", "genericName" := "", "brandName" := "", "strength" := "",
    "dosageForm" := "", "administrationRoute" := "", "packSize" := "", "storage" := "",
    "prescriptionRequired" := "true", "category" := "", "isFeatured" := "false", "color" := "#f0f0f0"]

  // ---------------------------------------------------------------------------
  // List editors

  /** removeImage: the image at `index` is dropped, the others keep their order. */
  function RemoveImage(images: seq<string>, index: int): (r: seq<string>)
    ensures 0 <= index < |images| ==>
      |r| == |images| - 1 && forall j :: 0 <= j < |r| ==> r[j] == images[if j < index then j else j + 1]
    ensures !(0 <= index < |images|) ==> r == images
  {
    AdminProductList.RemoveIndex(images, index)
  }

  /** updateArrayObj: a copy of the list whose row `index` gets `key` set to `value`. */
  method UpdateArrayObj(arr: seq<Row>, index: int, key: string, value: string) returns (r: seq<Row>)
    requires 0 <= index < |arr|
    ensures |r| == |arr|
    ensures r[index] == arr[index][key := value]
    ensures forall j :: 0 <= j < |arr| && j != index ==> r[j] == arr[j]
  {
    var copy := new Row[|arr|](j requires 0 <= j < |arr| => arr[j]);
    copy[index] := copy[index][key := value];
    r := copy[..];
  }

  /** updateStringArray: a copy of the list with `value` at `idx`. */
  method UpdateStringArray(arr: seq<string>, idx: int, value: string) returns (r: seq<string>)
    requires 0 <= idx < |arr|
    ensures |r| == |arr|
    ensures r[idx] == value
    ensures forall j :: 0 <= j < |arr| && j != idx ==> r[j] == arr[j]
  {
    var copy := new string[|arr|](j requires 0 <= j < |arr| => arr[j]);
    copy[idx] := value;
    r := copy[..];
  }

  /** removeArrayObj and removeStringArray: nothing happens on a one-element list, otherwise `idx` is dropped. */
  function RemoveEntry<T>(arr: seq<T>, idx: int): (r: seq<T>)
    ensures |arr| == 1 ==> r == arr
    ensures |arr| != 1 && 0 <= idx < |arr| ==> r == arr[..idx] + arr[idx + 1..]
    ensures |arr| >= 1 ==> |r| >= 1
  {
    if |arr| == 1 then arr else AdminProductList.RemoveIndex(arr, idx)
  }

  /** resetForm: the initial fields, one blank entry in every list, no images. */
  function ResetForm(): (f: ProductForm)
    ensures f.composition == [BlankComposition] && f.mechanismOfAction == [BlankMoa]
    ensures f.uses == [""] && f.indications == [""] && f.contraindications == [""]
    ensures f.productImages == []
    ensures forall k :: k in f.form ==> (f.form[k] == "" <==> k !in {"prescriptionRequired", "isFeatured", "color"})
  {
    ProductForm(InitialFields, [BlankComposition], [""], [BlankMoa], [""], [""], [])
  }

  // ---------------------------------------------------------------------------
  // Submit

  /** The request the form sends, with its JSON-encoded lists shown decoded. */
  datatype AddPayload = AddPayload(
    form: FormFields,
    composition: seq<Row>,
    uses: seq<string>,
    mechanismOfAction: seq<Row>,
    indications: seq<string>,
    contraindications: seq<string>,
    productImages: seq<string>)

  function FieldOf(form: FormFields, k: string): string {
    if k in form then form[k] else ""
  }

  /** The checks before anything is sent: three names, a category, and one non-blank use. */
  predicate SubmitAllowed(f: ProductForm) {
    && !IsBlank(FieldOf(f.form, "productName"))
    && !IsBlank(FieldOf(f.form, "genericName"))
    && !IsBlank(FieldOf(f.form, "strength"))
    && FieldOf(f.form, "category") != ""
    && exists u :: u in f.uses && !IsBlank(u)
  }

  /**
   * handleSubmit as written: uses, indications and contraindications lose
   * their blank entries; composition and mechanism of action are sent as
   * they stand, blank rows included.
   */
  function Submit(f: ProductForm): (r: Option<AddPayload>)
    ensures r.Some? <==> SubmitAllowed(f)
    ensures r.Some? ==> r.value.composition == f.composition && r.value.mechanismOfAction == f.mechanismOfAction
    ensures r.Some? ==> |r.value.uses| > 0 && forall u :: u in r.value.uses <==> u in f.uses && !IsBlank(u)
    ensures r.Some? ==>
      r.value == AddPayload(f.form, f.composition, AdminProductList.NonBlank(f.uses), f.mechanismOfAction,
                            AdminProductList.NonBlank(f.indications), AdminProductList.NonBlank(f.contraindications), f.productImages)
  {
    if !SubmitAllowed(f) then None
    else
      var uses := AdminProductList.NonBlank(f.uses);
      assert |uses| > 0 by {
        var u :| u in f.uses && !IsBlank(u);
        assert u in uses;
      }
      Some(AddPayload(f.form, f.composition, uses, f.mechanismOfAction,
                      AdminProductList.NonBlank(f.indications), AdminProductList.NonBlank(f.contraindications),
                      f.productImages))
  }

  function RowsToCompositions(rows: seq<Row>): (r: seq<Composition>)
    ensures |r| == |rows|
    ensures forall i :: 0 <= i < |rows| ==> r[i] == Composition(RowGet(rows[i], "name"), RowGet(rows[i], "strength"))
  {
    if rows == [] then [] else [Composition(RowGet(rows[0], "name"), RowGet(rows[0], "strength"))] + RowsToCompositions(rows[1..])
  }

  function RowsToMoas(rows: seq<Row>): (r: seq<Moa>)
    ensures |r| == |rows|
    ensures forall i :: 0 <= i < |rows| ==> r[i] == Moa(RowGet(rows[i], "drug"), RowGet(rows[i], "moa"))
  {
    if rows == [] then [] else [Moa(RowGet(rows[0], "drug"), RowGet(rows[0], "moa"))] + RowsToMoas(rows[1..])
  }

  function OptionalField(form: FormFields, k: string): Option<string> {
    if k in form then Some(form[k]) else None
  }

  /** What the create handler hands the schema for this request (the booleans arrive as "true"/"false"). */
  function ToProductFields(p: AddPayload): ProductFields {
    ProductFields(
      FieldOf(p.form, "productName"), FieldOf(p.form, "genericName"), OptionalField(p.form, "brandName"),
      FieldOf(p.form, "strength"), FieldOf(p.form, "dosageForm"), FieldOf(p.form, "administrationRoute"),
      RowsToCompositions(p.composition), p.uses, RowsToMoas(p.mechanismOfAction),
      p.indications, p.contraindications, FieldOf(p.form, "packSize"), None, OptionalField(p.form, "storage"),
      Some(FieldOf(p.form, "prescriptionRequired") != "false"), Some(FieldOf(p.form, "isFeatured") == "true"),
      OptionalField(p.form, "color"))
  }

  /**
   * A form that keeps the untouched blank composition row passes every
   * client check yet is refused by the schema, whatever else is filled in.
   */
  lemma BlankRowRejectedByServer(f: ProductForm, id: string, category: string, images: seq<string>, now: int)
    requires SubmitAllowed(f)
    requires |f.composition| >= 1 && f.composition[0] == BlankComposition
    ensures Submit(f).Some?
    ensures !ProductValid(NewProduct(ToProductFields(Submit(f).value), id, category, images, now))
  {
    var payload := Submit(f).value;
    FieldsLists(payload);
    var cs := RowsToCompositions(payload.composition);
    BlankRowsRead();
    assert cs[0] == Composition("", "");
    assert IsBlank("") by {
      assert Trim("") == "";
    }
    BlankCompositionRejected(ToProductFields(payload), id, category, images, now, 0);
  }

  lemma FieldsLists(p: AddPayload)
    ensures ToProductFields(p).composition == RowsToCompositions(p.composition)
    ensures ToProductFields(p).mechanismOfAction == RowsToMoas(p.mechanismOfAction)
  {
  }

  /** A row nobody typed into: every field blank. */
  predicate UntouchedRow(row: Row, a: string, b: string) {
    IsBlank(RowGet(row, a)) && IsBlank(RowGet(row, b))
  }

  function RowTouched(a: string, b: string): Row -> bool {
    row => !UntouchedRow(row, a, b)
  }

  function DropUntouched(rows: seq<Row>, a: string, b: string): (r: seq<Row>)
    ensures forall x :: x in r <==> x in rows && !UntouchedRow(x, a, b)
    ensures |r| <= |rows|
  {
    Filter(RowTouched(a, b), rows)
  }

  /** DropUntouched keeps the order of what it keeps: filtering two halves is filtering each half. */
  lemma DropUntouchedSplits(xs: seq<Row>, ys: seq<Row>, a: string, b: string)
    ensures DropUntouched(xs + ys, a, b) == DropUntouched(xs, a, b) + DropUntouched(ys, a, b)
  {
    FilterSplits(RowTouched(a, b), xs, ys);
  }

  /** DropUntouched keeps every kept entry as often as it occurs, and no other. */
  lemma DropUntouchedCounts(xs: seq<Row>, a: string, b: string)
    ensures forall x :: multiset(DropUntouched(xs, a, b))[x] == if !UntouchedRow(x, a, b) then multiset(xs)[x] else 0
  {
    FilterCounts(RowTouched(a, b), xs);
  }

  /** handleSubmit as intended: untouched composition and MOA rows are dropped like blank uses. */
  function SubmitCorrected(f: ProductForm): (r: Option<AddPayload>)
    ensures r.Some? <==> SubmitAllowed(f)
    ensures r.Some? ==> forall c :: c in r.value.composition <==> c in f.composition && !UntouchedRow(c, "name", "strength")
    ensures r.Some? ==> forall m :: m in r.value.mechanismOfAction <==> m in f.mechanismOfAction && !UntouchedRow(m, "drug", "moa")
    ensures r.Some? ==>
      r.value == Submit(f).value.(composition := DropUntouched(f.composition, "name", "strength"),
                                  mechanismOfAction := DropUntouched(f.mechanismOfAction, "drug", "moa"))
  {
    var r := Submit(f);
    if r.None? then None
    else Some(r.value.(composition := DropUntouched(f.composition, "name", "strength"),
                       mechanismOfAction := DropUntouched(f.mechanismOfAction, "drug", "moa")))
  }

  /** A row that is either untouched or filled in on both sides. */
  predicate RowSettled(row: Row, a: string, b: string) {
    UntouchedRow(row, a, b) || (!IsBlank(RowGet(row, a)) && !IsBlank(RowGet(row, b)))
  }

  /** Filled-in rows become compositions the schema accepts once trimmed. */
  lemma FilledCompositionsValid(rows: seq<Row>)
    requires forall x :: x in rows ==> !IsBlank(RowGet(x, "name")) && !IsBlank(RowGet(x, "strength"))
    ensures forall c :: c in TrimCompositions(RowsToCompositions(rows)) ==> CompositionValid(c)
  {
    var cs := TrimCompositions(RowsToCompositions(rows));
    forall c | c in cs ensures CompositionValid(c) {
      var i :| 0 <= i < |cs| && cs[i] == c;
      assert rows[i] in rows;
      assert c == Composition(Trim(RowGet(rows[i], "name")), Trim(RowGet(rows[i], "strength")));
    }
  }

  /** Filled-in rows become MOA entries the schema accepts once trimmed. */
  lemma FilledMoasValid(rows: seq<Row>)
    requires forall x :: x in rows ==> !IsBlank(RowGet(x, "drug")) && !IsBlank(RowGet(x, "moa"))
    ensures forall m :: m in TrimMoas(RowsToMoas(rows)) ==> MoaValid(m)
  {
    var ms := TrimMoas(RowsToMoas(rows));
    forall m | m in ms ensures MoaValid(m) {
      var i :| 0 <= i < |ms| && ms[i] == m;
      assert rows[i] in rows;
      assert m == Moa(Trim(RowGet(rows[i], "drug")), Trim(RowGet(rows[i], "moa")));
    }
  }

  /**
   * With every row untouched or complete, the corrected request passes the
   * schema's composition and MOA validators; in particular the reset form's
   * blank rows no longer cause a rejection.
   */
  lemma CorrectedRowsAccepted(f: ProductForm, id: string, category: string, images: seq<string>, now: int)
    requires SubmitAllowed(f)
    requires forall c :: c in f.composition ==> RowSettled(c, "name", "strength")
    requires forall m :: m in f.mechanismOfAction ==> RowSettled(m, "drug", "moa")
    ensures SubmitCorrected(f).Some?
    ensures var p := NewProduct(ToProductFields(SubmitCorrected(f).value), id, category, images, now);
      && (forall c :: c in p.composition ==> CompositionValid(c))
      && (forall m :: m in p.mechanismOfAction ==> MoaValid(m))
  {
    var payload := SubmitCorrected(f).value;
    FilledCompositionsValid(payload.composition);
    FilledMoasValid(payload.mechanismOfAction);
  }
}
