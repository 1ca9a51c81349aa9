/** The catalog entities whose `create` is modelled: Collection, CustomField
    and Product. Only the columns of their uniqueness indexes and a few plain
    columns are kept. */
module Catalog {
  import opened Wrappers
  import opened Records

  datatype Collection = Collection(
    id: int,
    storeId: int,
    resourceId: string,
    displayName: string,
    isVisible: bool,
    description: string,
    tags: string,
    createdAt: Time,
    updatedAt: Time)

  /** The `PK SERIAL` Id, `unique(resourceId)` over StoreId and ResourceId,
      and `unique(name)` over StoreId and DisplayName. */
  function CollectionKeys(c: Collection): set<Key>
  {
    PrimaryKey(c.id)
    + {Key("resourceId", [Int(c.storeId), Str(c.resourceId)]),
       Key("name", [Int(c.storeId), Str(c.displayName)])}
  }

  const CollectionDuplicate: string := "The collection was already existing."

  const CollectionKind: EntityKind<Collection> := EntityKind(
    "collection", CollectionKeys,
    (c: Collection, created: Time, updated: Time) => c.(createdAt := created, updatedAt := updated),
    CollectionDuplicate)

  /** `Collection.create`. */
  function CreateCollection(t: seq<Collection>, c: Collection, created: Time, updated: Time,
                            fault: Option<string>): (out: CreateOutcome<Collection>)
    ensures out.row == c.(createdAt := created, updatedAt := updated)
    ensures out.err.None? <==> fault.None? && !Collides(t, c, CollectionKeys)
    ensures InsertTranslated(t, out.row, CollectionKeys, CollectionDuplicate, fault, out)
  {
    Create(t, c, CollectionKind, created, updated, fault)
  }

  /** Either index alone rejects a collection: one that reuses only the display
      name of an existing collection of the same store is already-existing. */
  lemma CollectionNameTaken(a: Collection, b: Collection, created: Time, updated: Time)
    requires a.storeId == b.storeId && a.displayName == b.displayName
    ensures CreateCollection([a], b, created, updated, None).err
         == Some(AppError(UniqueViolation("collection"), CollectionDuplicate, AlreadyExistsCode))
  {
    assert Key("name", [Int(b.storeId), Str(b.displayName)]) in CollectionKeys([a][0]) * CollectionKeys(b);
  }

  /** A non-zero Id is inserted as given, so a collection reusing the Id of an
      existing one is already-existing even in another store. */
  lemma CollectionIdTaken(a: Collection, b: Collection, created: Time, updated: Time)
    requires a.id == b.id && b.id != 0
    ensures CreateCollection([a], b, created, updated, None).err
         == Some(AppError(UniqueViolation("collection"), CollectionDuplicate, AlreadyExistsCode))
    ensures CreateCollection([a], b, created, updated, None).table == [a]
  {
    assert Key("id", [Int(b.id)]) in CollectionKeys([a][0]) * CollectionKeys(b);
  }

  datatype CustomField = CustomField(
    id: int,
    storeId: int,
    typeId: int,
    parentId: int,
    key: string,
    value: string,
    createdAt: Time,
    updatedAt: Time)

  /** The `PK SERIAL` Id and `unique(custom_field)` over StoreId, TypeId,
      ParentId and Key. */
  function CustomFieldKeys(f: CustomField): set<Key>
  {
    PrimaryKey(f.id) + {Key("custom_field", [Int(f.storeId), Int(f.typeId), Int(f.parentId), Str(f.key)])}
  }

  const CustomFieldDuplicate: string := "The custom Field was already existing."

  const CustomFieldKind: EntityKind<CustomField> := EntityKind(
    "custom_field", CustomFieldKeys,
    (f: CustomField, created: Time, updated: Time) => f.(createdAt := created, updatedAt := updated),
    CustomFieldDuplicate)

  /** `CustomField.create`. */
  function CreateCustomField(t: seq<CustomField>, f: CustomField, created: Time, updated: Time,
                             fault: Option<string>): (out: CreateOutcome<CustomField>)
    ensures out.row == f.(createdAt := created, updatedAt := updated)
    ensures out.err.None? <==> fault.None? && !Collides(t, f, CustomFieldKeys)
    ensures InsertTranslated(t, out.row, CustomFieldKeys, CustomFieldDuplicate, fault, out)
  {
    Create(t, f, CustomFieldKind, created, updated, fault)
  }

  datatype Product = Product(
    id: int,
    storeId: int,
    sku: string,
    skuEx: string,
    resourceId: string,
    name: string,
    tags: string,
    content: string,
    vendor: string,
    createdAt: Time,
    updatedAt: Time)

  /** The `PK SERIAL` Id, `unique(resourceId)`, `unique(name)` and
      `unique(Sku)`, the last over StoreId, Sku and SkuEx. */
  function ProductKeys(p: Product): set<Key>
  {
    PrimaryKey(p.id)
    + {Key("resourceId", [Int(p.storeId), Str(p.resourceId)]),
       Key("name", [Int(p.storeId), Str(p.name)]),
       Key("Sku", [Int(p.storeId), Str(p.sku), Str(p.skuEx)])}
  }

  const ProductDuplicate: string := "The product was already existing."

  const ProductKind: EntityKind<Product> := EntityKind(
    "product", ProductKeys,
    (p: Product, created: Time, updated: Time) => p.(createdAt := created, updatedAt := updated),
    ProductDuplicate)

  /** `Product.create`. */
  function CreateProduct(t: seq<Product>, p: Product, created: Time, updated: Time,
                         fault: Option<string>): (out: CreateOutcome<Product>)
    ensures out.row == p.(createdAt := created, updatedAt := updated)
    ensures out.err.None? <==> fault.None? && !Collides(t, p, ProductKeys)
    ensures InsertTranslated(t, out.row, ProductKeys, ProductDuplicate, fault, out)
  {
    Create(t, p, ProductKind, created, updated, fault)
  }

  /** The Sku index spans Sku and SkuEx together: two products of one store
      sharing a Sku but not its SkuEx, and differing in ResourceId and Name,
      do not collide. */
  lemma SkuNeedsSkuEx(a: Product, b: Product)
    requires a.storeId == b.storeId && a.sku == b.sku && a.skuEx != b.skuEx
    requires a.resourceId != b.resourceId && a.name != b.name
    requires a.id == 0 || a.id != b.id
    ensures ProductKeys(a) !! ProductKeys(b)
  {
  }
}
