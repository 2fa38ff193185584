/** The document schema of a stored candle (lib/models/Candle.ts): which
    fields are required, which take enumerated values, which have defaults,
    and the unique index on `id`. */
module CandleSchema {
  import opened Wrappers
  import opened Products

  /** A document as submitted, before validation: every field may be missing
      and the enumerated fields are plain strings. */
  datatype CandleDoc = CandleDoc(
    id: Option<string>,
    name: Option<string>,
    description: Option<string>,
    price: Option<int>,
    originalPrice: Option<int>,
    images: seq<string>,
    category: Option<string>,
    scentType: Option<string>,
    size: Option<string>,
    burnTime: Option<string>,
    inStock: Option<bool>,
    featured: Option<bool>)

  datatype SchemaError =
    | Required(path: string)
    | NotInEnum(path: string, value: string)
    | DuplicateId(id: string)

  /** The error a required field produces when it is missing. */
  function RequiredCheck(path: string, present: bool): seq<SchemaError> {
    if present then [] else [Required(path)]
  }

  /** The error an enumerated field produces: missing (when required) or
      outside its values. */
  function EnumCheck(path: string, value: Option<string>, required: bool, known: bool): seq<SchemaError> {
    if value.None? then (if required then [Required(path)] else [])
    else if known then []
    else [NotInEnum(path, value.value)]
  }

  /** Every validation error of `doc`, in schema field order. */
  function Errors(doc: CandleDoc): seq<SchemaError> {
    RequiredCheck("id", doc.id.Some?) +
    RequiredCheck("name", doc.name.Some?) +
    RequiredCheck("description", doc.description.Some?) +
    RequiredCheck("price", doc.price.Some?) +
    EnumCheck("category", doc.category, true,
      doc.category.Some? && ParseCategory(doc.category.value).Some?) +
    EnumCheck("scentType", doc.scentType, false,
      doc.scentType.Some? && ParseScent(doc.scentType.value).Some?) +
    EnumCheck("size", doc.size, true,
      doc.size.Some? && ParseSize(doc.size.value).Some?) +
    RequiredCheck("burnTime", doc.burnTime.Some?)
  }

  /** Validation with defaults applied: `inStock` defaults to true and
      `featured` to false; `originalPrice`, `scentType` and `featured` may be
      left out. */
  function Validate(doc: CandleDoc): (r: Result<Product, seq<SchemaError>>)
    ensures r.Success? <==>
      && doc.id.Some? && doc.name.Some? && doc.description.Some?
      && doc.price.Some? && doc.burnTime.Some?
      && doc.category.Some? && ParseCategory(doc.category.value).Some?
      && doc.size.Some? && ParseSize(doc.size.value).Some?
      && (doc.scentType.None? || ParseScent(doc.scentType.value).Some?)
    ensures r.Success? ==>
      && Some(r.value.id) == doc.id && Some(r.value.name) == doc.name
      && Some(r.value.description) == doc.description && Some(r.value.price) == doc.price
      && r.value.originalPrice == doc.originalPrice && r.value.images == doc.images
      && Some(CategoryName(r.value.category)) == doc.category
      && Some(SizeName(r.value.size)) == doc.size
      && (r.value.scentType.Some? <==> doc.scentType.Some?)
      && (r.value.scentType.Some? ==> Some(ScentName(r.value.scentType.value)) == doc.scentType)
      && Some(r.value.burnTime) == doc.burnTime
      && r.value.inStock == doc.inStock.GetOr(true)
      && r.value.featured == Some(doc.featured.GetOr(false))
    ensures r.Failure? ==> |r.error| > 0
    ensures r.Failure? && doc.id.None? ==> Required("id") in r.error
    ensures r.Failure? && doc.size.Some? && ParseSize(doc.size.value).None? ==>
      NotInEnum("size", doc.size.value) in r.error
  {
    var errors := Errors(doc);
    if errors != [] then Failure(errors)
    else
      Success(Product(doc.id.value, doc.name.value, doc.description.value, doc.price.value,
        doc.originalPrice, doc.images, ParseCategory(doc.category.value).value,
        if doc.scentType.Some? then ParseScent(doc.scentType.value) else None,
        ParseSize(doc.size.value).value, doc.burnTime.value,
        doc.inStock.GetOr(true), Some(doc.featured.GetOr(false))))
  }

  /** A typed product written out as a document. */
  function ToDoc(p: Product): (d: CandleDoc)
    ensures d.id == Some(p.id) && d.category == Some(CategoryName(p.category))
  {
    CandleDoc(Some(p.id), Some(p.name), Some(p.description), Some(p.price), p.originalPrice,
      p.images, Some(CategoryName(p.category)),
      if p.scentType.Some? then Some(ScentName(p.scentType.value)) else None,
      Some(SizeName(p.size)), Some(p.burnTime), Some(p.inStock), p.featured)
  }

  /** Every typed product is a valid document and reads back as itself, with
      an absent `featured` filled in as false. */
  lemma ValidateToDoc(p: Product)
    ensures Validate(ToDoc(p)) == Success(p.(featured := Some(p.featured.GetOr(false))))
  {
    CategoryRoundTrip(p.category);
    SizeRoundTrip(p.size);
    if p.scentType.Some? {
      ScentRoundTrip(p.scentType.value);
    }
  }

  /** A document missing `inStock` and `featured` gets the defaults. */
  lemma DefaultsApplied(doc: CandleDoc)
    requires Validate(doc).Success? && doc.inStock.None? && doc.featured.None?
    ensures Validate(doc).value.inStock && Validate(doc).value.featured == Some(false)
  {
  }

  /** Storing a document: it must validate and its id must not already be in
      the collection (the unique index). */
  function Insert(store: seq<Product>, doc: CandleDoc): (r: Result<seq<Product>, seq<SchemaError>>)
    ensures r.Success? <==> Validate(doc).Success? && !HasId(store, doc.id.value)
    ensures r.Success? ==> r.value == store + [Validate(doc).value]
    ensures Validate(doc).Success? && HasId(store, doc.id.value) ==> r == Failure([DuplicateId(doc.id.value)])
    ensures r.Success? && DistinctIds(store) ==> DistinctIds(r.value)
  {
    match Validate(doc)
    case Failure(errors) => Failure(errors)
    case Success(p) =>
      if HasId(store, p.id) then Failure([DuplicateId(p.id)])
      else
        var stored := store + [p];
        assert DistinctIds(store) ==> DistinctIds(stored) by {
          if DistinctIds(store) {
            forall i, j | 0 <= i < j < |stored|
              ensures stored[i].id != stored[j].id
            {
              if j == |store| {
                assert stored[i] == store[i];
              }
            }
          }
        }
        Success(stored)
  }
}
