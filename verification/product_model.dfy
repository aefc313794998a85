/**
 * The product record (Backend/model/productModel.js): its fields after the
 * `trim` setters and defaults, the schema validators, and the `$set`
 * update with the validators Mongoose runs on the updated paths only.
 */
module ProductModel {
  import opened Js
  import opened Text

  const DosageForms: seq<string> := ["Tablet", "Capsule", "Injection", "Syrup", "Cream", "Ointment", "Powder"]

  datatype Composition = Composition(name: string, strength: string)

  /** A drug-wise mechanism-of-action entry (no `_id` of its own). */
  datatype Moa = Moa(drug: string, moa: string)

  /**
   * A stored product. `name` and `description` are not schema paths: they
   * only exist on records written outside the schema, and the search filter
   * still looks at them.
   */
  datatype Product = Product(
    id: string,
    productName: string,
    genericName: string,
    brandName: Option<string>,
    strength: string,
    dosageForm: string,
    administrationRoute: string,
    composition: seq<Composition>,
    uses: seq<string>,
    mechanismOfAction: seq<Moa>,
    indications: seq<string>,
    contraindications: seq<string>,
    packSize: string,
    mrp: Option<real>,
    storage: Option<string>,
    prescriptionRequired: bool,
    category: string,
    isFeatured: bool,
    productImage: seq<string>,
    color: Option<string>,
    createdAt: int,
    name: Option<string>,
    description: Option<string>)

  /**
   * The decoded fields of a create request. A required string that is
   * missing is given as "" (both fail `required`); an array that is missing
   * is given as [] (Mongoose's implicit array default).
   */
  datatype ProductFields = ProductFields(
    productName: string,
    genericName: string,
    brandName: Option<string>,
    strength: string,
    dosageForm: string,
    administrationRoute: string,
    composition: seq<Composition>,
    uses: seq<string>,
    mechanismOfAction: seq<Moa>,
    indications: seq<string>,
    contraindications: seq<string>,
    packSize: string,
    mrp: Option<real>,
    storage: Option<string>,
    prescriptionRequired: Option<bool>,
    isFeatured: Option<bool>,
    color: Option<string>)

  /** The fields a `$set` update body may carry, after the controller's decoding. */
  datatype ProductPatch = ProductPatch(
    productName: Option<string>,
    genericName: Option<string>,
    brandName: Option<string>,
    strength: Option<string>,
    dosageForm: Option<string>,
    administrationRoute: Option<string>,
    composition: Option<seq<Composition>>,
    uses: Option<seq<string>>,
    mechanismOfAction: Option<seq<Moa>>,
    indications: Option<seq<string>>,
    contraindications: Option<seq<string>>,
    packSize: Option<string>,
    mrp: Option<real>,
    storage: Option<string>,
    prescriptionRequired: Option<bool>,
    category: Option<string>,
    isFeatured: Option<bool>,
    productImage: Option<seq<string>>,
    color: Option<string>,
    createdAt: Option<int>)

  function TrimOpt(o: Option<string>): Option<string> {
    if o.Some? then Some(Trim(o.value)) else None
  }

  function TrimComposition(c: Composition): Composition {
    Composition(Trim(c.name), Trim(c.strength))
  }

  function TrimMoa(m: Moa): Moa {
    Moa(Trim(m.drug), Trim(m.moa))
  }

  function TrimCompositions(cs: seq<Composition>): (r: seq<Composition>)
    ensures |r| == |cs| && forall i :: 0 <= i < |cs| ==> r[i] == TrimComposition(cs[i])
  {
    MapSeq(TrimComposition, cs)
  }

  function TrimMoas(ms: seq<Moa>): (r: seq<Moa>)
    ensures |r| == |ms| && forall i :: 0 <= i < |ms| ==> r[i] == TrimMoa(ms[i])
  {
    MapSeq(TrimMoa, ms)
  }

  /** `xs.map(f)` */
  function MapSeq<A, B>(f: A -> B, xs: seq<A>): (r: seq<B>)
    ensures |r| == |xs| && forall i :: 0 <= i < |xs| ==> r[i] == f(xs[i])
  {
    if xs == [] then [] else [f(xs[0])] + MapSeq(f, xs[1..])
  }

  /**
   * `Product.create(data)` before validation: the `trim` setters, the
   * defaults (`prescriptionRequired` true, `isFeatured` false, `color`
   * null) and the generated id and timestamp.
   */
  function NewProduct(f: ProductFields, id: string, category: string, images: seq<string>, now: int): (p: Product)
    ensures p.id == id && p.category == category && p.productImage == images && p.createdAt == now
    ensures p.prescriptionRequired == (f.prescriptionRequired.None? || f.prescriptionRequired.value)
    ensures p.isFeatured == (f.isFeatured.Some? && f.isFeatured.value)
    ensures f.color.None? ==> p.color.None?
    ensures p.uses == f.uses && p.indications == f.indications && p.contraindications == f.contraindications
    ensures p.name.None? && p.description.None?
  {
    Product(
      id,
      Trim(f.productName),
      Trim(f.genericName),
      TrimOpt(f.brandName),
      Trim(f.strength),
      f.dosageForm,
      Trim(f.administrationRoute),
      TrimCompositions(f.composition),
      f.uses,
      TrimMoas(f.mechanismOfAction),
      f.indications,
      f.contraindications,
      Trim(f.packSize),
      f.mrp,
      TrimOpt(f.storage),
      if f.prescriptionRequired.Some? then f.prescriptionRequired.value else true,
      category,
      if f.isFeatured.Some? then f.isFeatured.value else false,
      images,
      TrimOpt(f.color),
      now,
      None,
      None)
  }

  // ---------------------------------------------------------------------------
  // Validators

  /** Both paths of a composition sub-document are required. */
  predicate CompositionValid(c: Composition) {
    c.name != "" && c.strength != ""
  }

  /** The sub-document `required` rules and the list validator both ask for a non-empty `drug` and `moa`. */
  predicate MoaValid(m: Moa) {
    m.drug != "" && m.moa != ""
  }

  predicate MrpValid(mrp: Option<real>) {
    mrp.None? || mrp.value >= 0.0
  }

  /**
   * Every schema validator. `indications` is `required`, but an empty
   * array satisfies `required`, so it adds no condition.
   */
  predicate ProductValid(p: Product) {
    && p.productName != ""
    && p.genericName != ""
    && p.strength != ""
    && p.dosageForm in DosageForms
    && p.administrationRoute != ""
    && (forall c :: c in p.composition ==> CompositionValid(c))
    && |p.uses| > 0
    && (forall m :: m in p.mechanismOfAction ==> MoaValid(m))
    && p.packSize != ""
    && MrpValid(p.mrp)
    && p.category != ""
  }

  /** A composition row whose name or strength is blank makes a new product invalid. */
  lemma BlankCompositionRejected(f: ProductFields, id: string, category: string, images: seq<string>, now: int, i: int)
    requires 0 <= i < |f.composition|
    requires IsBlank(f.composition[i].name) || IsBlank(f.composition[i].strength)
    ensures !ProductValid(NewProduct(f, id, category, images, now))
  {
    var cs := TrimCompositions(f.composition);
    assert !CompositionValid(cs[i]);
    NewProductLists(f, id, category, images, now);
    InvalidRowRejected(NewProduct(f, id, category, images, now), i, -1);
  }

  /** A mechanism-of-action row whose drug or text is blank makes a new product invalid. */
  lemma BlankMoaRejected(f: ProductFields, id: string, category: string, images: seq<string>, now: int, i: int)
    requires 0 <= i < |f.mechanismOfAction|
    requires IsBlank(f.mechanismOfAction[i].drug) || IsBlank(f.mechanismOfAction[i].moa)
    ensures !ProductValid(NewProduct(f, id, category, images, now))
  {
    var ms := TrimMoas(f.mechanismOfAction);
    assert !MoaValid(ms[i]);
    NewProductLists(f, id, category, images, now);
    InvalidRowRejected(NewProduct(f, id, category, images, now), -1, i);
  }

  /** One invalid composition row (index `i`) or mechanism row (index `j`) fails the whole product. */
  lemma InvalidRowRejected(p: Product, i: int, j: int)
    requires (0 <= i < |p.composition| && !CompositionValid(p.composition[i]))
          || (0 <= j < |p.mechanismOfAction| && !MoaValid(p.mechanismOfAction[j]))
    ensures !ProductValid(p)
  {
    if 0 <= i < |p.composition| && !CompositionValid(p.composition[i]) {
      assert p.composition[i] in p.composition;
    } else {
      assert p.mechanismOfAction[j] in p.mechanismOfAction;
    }
  }

  lemma NewProductLists(f: ProductFields, id: string, category: string, images: seq<string>, now: int)
    ensures NewProduct(f, id, category, images, now).composition == TrimCompositions(f.composition)
    ensures NewProduct(f, id, category, images, now).mechanismOfAction == TrimMoas(f.mechanismOfAction)
  {
  }

  // ---------------------------------------------------------------------------
  // Updates

  function Pick<T>(o: Option<T>, old_: T): T {
    if o.Some? then o.value else old_
  }

  function PickTrimmed(o: Option<string>, old_: string): string {
    if o.Some? then Trim(o.value) else old_
  }

  /** `$set` after casting: present paths are overwritten (through the `trim` setters), the rest are kept. */
  function ApplyPatch(p: Product, d: ProductPatch): (r: Product)
    ensures r.id == p.id && r.name == p.name && r.description == p.description
    ensures d.productImage.Some? ==> r.productImage == d.productImage.value
    ensures d.productImage.None? ==> r.productImage == p.productImage
    ensures d.category.Some? ==> r.category == d.category.value
    ensures d.category.None? ==> r.category == p.category
  {
    Product(
      p.id,
      PickTrimmed(d.productName, p.productName),
      PickTrimmed(d.genericName, p.genericName),
      if d.brandName.Some? then TrimOpt(d.brandName) else p.brandName,
      PickTrimmed(d.strength, p.strength),
      Pick(d.dosageForm, p.dosageForm),
      PickTrimmed(d.administrationRoute, p.administrationRoute),
      if d.composition.Some? then TrimCompositions(d.composition.value) else p.composition,
      Pick(d.uses, p.uses),
      if d.mechanismOfAction.Some? then TrimMoas(d.mechanismOfAction.value) else p.mechanismOfAction,
      Pick(d.indications, p.indications),
      Pick(d.contraindications, p.contraindications),
      PickTrimmed(d.packSize, p.packSize),
      if d.mrp.Some? then d.mrp else p.mrp,
      if d.storage.Some? then TrimOpt(d.storage) else p.storage,
      Pick(d.prescriptionRequired, p.prescriptionRequired),
      Pick(d.category, p.category),
      Pick(d.isFeatured, p.isFeatured),
      Pick(d.productImage, p.productImage),
      if d.color.Some? then TrimOpt(d.color) else p.color,
      Pick(d.createdAt, p.createdAt),
      p.name,
      p.description)
  }

  /** The update validators (`runValidators: true`): only the paths present in the `$set` are checked. */
  predicate PatchValid(d: ProductPatch) {
    && (d.productName.Some? ==> Trim(d.productName.value) != "")
    && (d.genericName.Some? ==> Trim(d.genericName.value) != "")
    && (d.strength.Some? ==> Trim(d.strength.value) != "")
    && (d.dosageForm.Some? ==> d.dosageForm.value in DosageForms)
    && (d.administrationRoute.Some? ==> Trim(d.administrationRoute.value) != "")
    && (d.composition.Some? ==> forall c :: c in TrimCompositions(d.composition.value) ==> CompositionValid(c))
    && (d.uses.Some? ==> |d.uses.value| > 0)
    && (d.mechanismOfAction.Some? ==> forall m :: m in TrimMoas(d.mechanismOfAction.value) ==> MoaValid(m))
    && (d.packSize.Some? ==> Trim(d.packSize.value) != "")
    && MrpValid(d.mrp)
    && (d.category.Some? ==> d.category.value != "")
  }

  /**
   * Checking only the updated paths is enough: a valid stored product
   * stays valid under an update that passes the update validators.
   */
  lemma PatchPreservesValidity(p: Product, d: ProductPatch)
    requires ProductValid(p) && PatchValid(d)
    ensures ProductValid(ApplyPatch(p, d))
  {
  }

  /** An update that leaves a path out never rejects it, even when the stored value would fail. */
  lemma PatchIgnoresAbsentPaths(p: Product, d: ProductPatch)
    requires d == ProductPatch(None, None, None, None, None, None, None, None, None, None, None, None, None, None, None, None, None, d.productImage, None, None)
    ensures PatchValid(d)
    ensures ApplyPatch(p, d) == p.(productImage := Pick(d.productImage, p.productImage))
  {
  }
}
