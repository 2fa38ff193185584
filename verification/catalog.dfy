/** The static catalog and its lookups (lib/products.ts). */
module Catalog {
  import opened Wrappers
  import opened Seqs
  import opened Products

  /** The static product list (lib/products.ts), one constant per entry. */
  const Entries: seq<Product> := [
    Angel, Birthday, FiveFlower, Lotus,
    PackedCandles, TeddyBear, TwoFlower, ThreeTeddyBears
  ]

  /** The image host prefix every catalog image URL starts with. */
  const Cdn := "https://res.cloudinary.com/djoxmk3tk/image/upload/"

  const Angel := Product("angel", "Angel",
    "A soothing blend of French lavender and vanilla that creates a peaceful, relaxing atmosphere perfect for unwinding after a long day.",
    2899, Some(3499),
    [Cdn + "v1757353323/agenl_1_y3nuwd.webp",
     Cdn + "v1757353324/angel_2_c44kzg.webp"],
    Scented, Some(Floral), Medium, "45-50 hours", true, Some(true))

  const Birthday := Product("birthday", "Birthday",
    "An energizing combination of orange, lemon, and grapefruit that brightens any room with its fresh, invigorating scent.",
    2499, None,
    [Cdn + "v1757353325/birthday_1_lvhkdz.webp",
     Cdn + "v1757353325/birthday_2_iatrkr.webp",
     Cdn + "v1757353327/birthday_3_kcbmpl.webp"],
    Scented, Some(Citrus), Medium, "40-45 hours", true, None)

  const FiveFlower := Product("five-flower", "Five Flower",
    "A delightful blend of five distinct floral fragrances that transport you to a blooming garden.",
    3299, None,
    [Cdn + "v1757353325/five_flower_1._rkogba.webp"],
    Seasonal, Some(Spicy), Large, "60-65 hours", true, Some(true))

  const Lotus := Product("lotus", "Lotus",
    "A classic unscented pillar candle perfect for formal dining or creating sophisticated ambiance.",
    1899, None,
    [Cdn + "v1757353326/lotus_1_znkdms.webp",
     Cdn + "v1757353323/lotus_2_agbndd.webp",
     Cdn + "v1757353323/lotus_3_edf6ni.webp"],
    Decorative, None, Large, "50-55 hours", true, None)

  const PackedCandles := Product("packed-candles", "Packed Candles",
    "Rich Madagascar vanilla bean creates a warm, comforting atmosphere that feels like home.",
    2699, None,
    [Cdn + "v1757353323/pack_1_zm0ku5.webp",
     Cdn + "v1757353322/pack_2_t9erpn.webp",
     Cdn + "v1757353324/pack_3_ncohqe.webp"],
    Scented, Some(Vanilla), Medium, "42-48 hours", true, None)

  const TeddyBear := Product("teddy-bear", "Teddy Bear",
    "A cozy and comforting scent that wraps you in warmth, like a hug from your favorite stuffed animal.",
    3599, None,
    [Cdn + "v1757353323/teddy_1_lvcnqw.webp",
     Cdn + "v1757353324/teddy_2_tmxj1w.webp",
     Cdn + "v1757353324/teddy_3_vlliba.webp"],
    Scented, Some(Woody), Large, "55-60 hours", true, None)

  const TwoFlower := Product("two-flower", "Spring Garden",
    "Fresh jasmine and lily of the valley capture the essence of a blooming spring garden.",
    2999, None,
    [Cdn + "v1757353325/two_flower_1_z8c40w.webp",
     Cdn + "v1757353326/two_flower_2_fr3mf5.webp"],
    Seasonal, Some(Floral), Medium, "45-50 hours", true, None)

  const ThreeTeddyBears := Product("three-teddy-bears", "Three Teddy Bears",
    "A delightful trio of teddy bear candles, each with its own unique scent.",
    4599, None,
    [Cdn + "v1757353324/three_teddy_1_msf2z2.webp",
     Cdn + "v1757353325/three_teddy_2_tro3uy.webp"],
    Decorative, None, Small, "4-5 hours each", true, None)

  /** The ids of the catalog, in catalog order. */
  lemma EntryIds()
    ensures |Entries| == 8
    ensures Entries[0].id == "angel" && Entries[1].id == "birthday"
    ensures Entries[2].id == "five-flower" && Entries[3].id == "lotus"
    ensures Entries[4].id == "packed-candles" && Entries[5].id == "teddy-bear"
    ensures Entries[6].id == "two-flower" && Entries[7].id == "three-teddy-bears"
  {
  }

  /** Catalog entries have pairwise-distinct ids, at least one image each, and
      a sale price strictly below the original price wherever one is given. */
  lemma WellFormed()
    ensures DistinctIds(Entries)
    ensures forall i | 0 <= i < |Entries| :: |Entries[i].images| > 0
    ensures forall i | 0 <= i < |Entries| ::
      Entries[i].originalPrice.Some? ==> Entries[i].originalPrice.value > Entries[i].price
  {
    EntryIds();
  }

  /** `getProductById`: the first catalog product with that id, or nothing. */
  function GetProductById(id: string): (r: Option<Product>)
    ensures r.None? <==> forall i | 0 <= i < |Entries| :: Entries[i].id != id
    ensures r.Some? ==> r.value in Entries && r.value.id == id
    ensures r.Some? ==> exists i | 0 <= i < |Entries| ::
      (Entries[i] == r.value && forall j | 0 <= j < i :: Entries[j].id != id)
  {
    match IndexOfId(Entries, id)
    case None => None
    case Some(k) => Some(Entries[k])
  }

  /** `getProductsByCategory`: the catalog products whose category is the
      given string, in catalog order. */
  function GetProductsByCategory(category: string): (r: seq<Product>)
    ensures forall p :: p in r <==> p in Entries && CategoryName(p.category) == category
    ensures IsSubseq(r, Entries)
    ensures ParseCategory(category).None? ==> r == []
  {
    Filter(Entries, (p: Product) => CategoryName(p.category) == category)
  }

  /** `getFeaturedProducts`: the catalog products flagged featured; an absent
      flag counts as not featured. */
  function GetFeaturedProducts(): (r: seq<Product>)
    ensures forall p :: p in r <==> p in Entries && p.featured == Some(true)
    ensures IsSubseq(r, Entries)
  {
    Filter(Entries, (p: Product) => p.featured == Some(true))
  }

  /** `getAllProducts`: the catalog itself, same entries in the same order. */
  function GetAllProducts(): (r: seq<Product>)
    ensures r == Entries
  {
    Entries
  }

  /** Every product of the full list is found again by its id and listed
      under its category: the lookups cover the whole catalog. */
  lemma EveryProductFound(p: Product)
    requires p in GetAllProducts()
    ensures GetProductById(p.id) == Some(p)
    ensures p in GetProductsByCategory(CategoryName(p.category))
  {
    WellFormed();
    var i :| 0 <= i < |Entries| && Entries[i] == p;
    var r := GetProductById(p.id);
    var j :| 0 <= j < |Entries| && Entries[j] == r.value && forall k | 0 <= k < j :: Entries[k].id != p.id;
    if j < i {
      assert Entries[j].id == Entries[i].id;
    }
  }
}
