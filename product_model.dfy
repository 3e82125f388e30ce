/**
  The product record in its two shapes: the application's camelCase object and
  the hosted table's snake_case row, with the two field mappers between them
  (`mapProductFromDB` and `mapProductToDB`).
*/
module ProductModel {
  import opened Basics

  /**
    A catalog record as the application handles it. An optional field is `None`
    when the property is missing, `undefined` or `null`.
  */
  datatype Product = Product(
    id: int,
    name: string,
    model: string,
    storage: string,
    color: string,
    batteryHealth: Option<string>,
    price: int,
    originalPrice: Option<int>,
    condition: Option<string>,
    image: string,
    images: Option<seq<string>>,
    description: Option<string>,
    specs: Option<seq<string>>,
    inStock: Option<bool>,
    isFeatured: Option<bool>,
    createdAt: Option<string>)

  /** A row of the `products` table as a query returns it; the fields carry the column names. */
  datatype Row = Row(
    id: int,
    name: string,
    model: string,
    storage: string,
    color: string,
    battery_health: Option<string>,
    price: int,
    original_price: Option<int>,
    condition: Option<string>,
    image: string,
    images: Option<seq<string>>,
    description: Option<string>,
    specs: Option<seq<string>>,
    in_stock: Option<bool>,
    is_featured: Option<bool>,
    created_at: string)

  /** The columns an insert or update writes; the table assigns `id` and `created_at` itself. */
  datatype RowWrite = RowWrite(
    name: string,
    model: string,
    storage: string,
    color: string,
    battery_health: string,
    price: int,
    original_price: Option<int>,
    condition: string,
    image: string,
    images: seq<string>,
    description: Option<string>,
    specs: seq<string>,
    in_stock: bool,
    is_featured: bool)

  /** JavaScript truthiness of an optional string: present and not empty. */
  predicate TextTruthy(v: Option<string>) {
    v.Some? && v.value != ""
  }

  /** JavaScript truthiness of an optional number: present and not zero. */
  predicate NumberTruthy(v: Option<int>) {
    v.Some? && v.value != 0
  }

  /** `mapProductFromDB`: rename the columns; a missing `images` or `specs` becomes `[]`. */
  function FromDb(row: Row): (p: Product)
    ensures p.id == row.id && p.createdAt == Some(row.created_at)
    ensures p.images.Some? && p.specs.Some?
    ensures row.images.None? ==> p.images == Some([])
    ensures row.images.Some? ==> p.images == row.images
    ensures row.specs.None? ==> p.specs == Some([])
    ensures row.specs.Some? ==> p.specs == row.specs
    ensures p.inStock == row.in_stock && p.isFeatured == row.is_featured
  {
    Product(
      id := row.id,
      name := row.name,
      model := row.model,
      storage := row.storage,
      color := row.color,
      batteryHealth := row.battery_health,
      price := row.price,
      originalPrice := row.original_price,
      condition := row.condition,
      image := row.image,
      images := Some(row.images.GetOr([])),
      description := row.description,
      specs := Some(row.specs.GetOr([])),
      inStock := row.in_stock,
      isFeatured := row.is_featured,
      createdAt := Some(row.created_at))
  }

  /** `data.map(mapProductFromDB)`. */
  function FromDbAll(rows: seq<Row>): (ps: seq<Product>)
    ensures |ps| == |rows|
    ensures forall i :: 0 <= i < |rows| ==> ps[i] == FromDb(rows[i])
  {
    seq(|rows|, i requires 0 <= i < |rows| => FromDb(rows[i]))
  }

  /**
    `mapProductToDB`: rename the fields and fill the defaults. Battery health
    and condition default when falsy, `in_stock` is true unless `inStock` is
    exactly false, `is_featured` is false unless truthy, and a falsy original
    price is written as `null`.
  */
  function ToDb(p: Product): (w: RowWrite)
    ensures w.battery_health != "" && w.condition != ""
    ensures TextTruthy(p.batteryHealth) ==> w.battery_health == p.batteryHealth.value
    ensures !TextTruthy(p.batteryHealth) ==> w.battery_health == "100%"
    ensures TextTruthy(p.condition) ==> w.condition == p.condition.value
    ensures !TextTruthy(p.condition) ==> w.condition == "New"
    ensures w.in_stock <==> p.inStock != Some(false)
    ensures w.is_featured <==> p.isFeatured == Some(true)
    ensures w.original_price.Some? <==> NumberTruthy(p.originalPrice)
    ensures w.original_price.Some? ==> w.original_price == p.originalPrice
    ensures w.images == p.images.GetOr([]) && w.specs == p.specs.GetOr([])
    ensures w.name == p.name && w.model == p.model && w.price == p.price && w.image == p.image
  {
    RowWrite(
      name := p.name,
      model := p.model,
      storage := p.storage,
      color := p.color,
      battery_health := if TextTruthy(p.batteryHealth) then p.batteryHealth.value else "100%",
      price := p.price,
      original_price := if NumberTruthy(p.originalPrice) then p.originalPrice else None,
      condition := if TextTruthy(p.condition) then p.condition.value else "New",
      image := p.image,
      images := p.images.GetOr([]),
      description := p.description,
      specs := p.specs.GetOr([]),
      in_stock := p.inStock != Some(false),
      is_featured := p.isFeatured == Some(true))
  }

  /** The row the table holds after `w` was written with the given id and creation time. */
  function Stored(w: RowWrite, id: int, createdAt: string): Row {
    Row(id, w.name, w.model, w.storage, w.color, Some(w.battery_health), w.price,
        w.original_price, Some(w.condition), w.image, Some(w.images), w.description,
        Some(w.specs), Some(w.in_stock), Some(w.is_featured), createdAt)
  }

  /** A row none of whose columns `mapProductToDB` would replace by a default. */
  predicate Complete(row: Row) {
    && TextTruthy(row.battery_health)
    && (row.original_price.None? || row.original_price.value != 0)
    && TextTruthy(row.condition)
    && row.images.Some? && row.specs.Some?
    && row.in_stock.Some? && row.is_featured.Some?
  }

  /** Reading a complete row and writing it back reproduces every column. */
  lemma ReadThenWrite(row: Row)
    requires Complete(row)
    ensures Stored(ToDb(FromDb(row)), row.id, row.created_at) == row
  {
    var back := Stored(ToDb(FromDb(row)), row.id, row.created_at);
    assert back.battery_health == row.battery_health;
    assert back.original_price == row.original_price;
    assert back.condition == row.condition;
    assert back.images == row.images && back.specs == row.specs;
    var w := ToDb(FromDb(row));
    assert w.in_stock == row.in_stock.value;
    assert w.is_featured == row.is_featured.value;
  }

  /** A product as it comes back from the table: the write defaults filled in. */
  function WithDefaults(p: Product, id: int, createdAt: string): Product {
    p.(id := id,
       batteryHealth := Some(if TextTruthy(p.batteryHealth) then p.batteryHealth.value else "100%"),
       originalPrice := if NumberTruthy(p.originalPrice) then p.originalPrice else None,
       condition := Some(if TextTruthy(p.condition) then p.condition.value else "New"),
       images := Some(p.images.GetOr([])),
       specs := Some(p.specs.GetOr([])),
       inStock := Some(p.inStock != Some(false)),
       isFeatured := Some(p.isFeatured == Some(true)),
       createdAt := Some(createdAt))
  }

  /**
    Writing a product and reading it back gives the product with its defaults
    filled, and a second write of that result writes the same columns again.
  */
  lemma WriteThenRead(p: Product, id: int, createdAt: string)
    ensures FromDb(Stored(ToDb(p), id, createdAt)) == WithDefaults(p, id, createdAt)
    ensures ToDb(FromDb(Stored(ToDb(p), id, createdAt))) == ToDb(p)
  {
  }
}
