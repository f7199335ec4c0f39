/** The picture of each category on the category browser
    (src/app/categories/page.tsx): the first image of the first product of
    the category that has one. */
module CategoryImages {
  import opened Types

  /** A product that can give its category a picture: it names a category
      and has a first image. */
  predicate Contributes(p: Product) {
    p.category != "" && |p.images| > 0
  }

  /** The map after the first `n` products: a product that contributes sets
      its category's entry unless the category already has one. */
  function ImagesOfFirst(products: seq<Product>, n: nat): (m: map<string, string>)
    requires n <= |products|
  {
    if n == 0 then map[]
    else
      var m := ImagesOfFirst(products, n - 1);
      var p := products[n - 1];
      if p.category != "" && p.category !in m && |p.images| > 0 then m[p.category := p.images[0].imageUrl] else m
  }

  /** The `useMemo` body: no products yet gives an empty map; otherwise one
      pass over the products, in order, filling the map. */
  method CategoryImageMap(products: Option<seq<Product>>) returns (imageMap: map<string, string>)
    ensures products.None? ==> imageMap == map[]
    ensures products.Some? ==> imageMap == ImagesOfFirst(products.value, |products.value|)
  {
    if products.None? {
      return map[];
    }
    var ps := products.value;
    imageMap := map[];
    var i := 0;
    while i < |ps|
      invariant 0 <= i <= |ps|
      invariant imageMap == ImagesOfFirst(ps, i)
    {
      var product := ps[i];
      if product.category != "" && product.category !in imageMap && |product.images| > 0 {
        imageMap := imageMap[product.category := product.images[0].imageUrl];
      }
      i := i + 1;
    }
  }

  /** `j` is the first of the first `n` products that gives category `k` a
      picture. */
  predicate FirstFor(products: seq<Product>, n: nat, k: string, j: int)
    requires n <= |products|
  {
    && 0 <= j < n && products[j].category == k && Contributes(products[j])
    && forall i :: 0 <= i < j ==> !(products[i].category == k && Contributes(products[i]))
  }

  /** The keys are exactly the categories some product gives a picture. */
  lemma {:induction false} ImagesKeys(products: seq<Product>, n: nat, k: string)
    requires n <= |products|
    ensures k in ImagesOfFirst(products, n) <==>
      exists i :: 0 <= i < n && products[i].category == k && Contributes(products[i])
  {
    if n > 0 {
      ImagesKeys(products, n - 1, k);
    }
  }

  /** Each category's picture is the first image of its first contributing
      product. */
  lemma {:induction false} ImagesFirstWins(products: seq<Product>, n: nat, k: string)
    requires n <= |products|
    requires k in ImagesOfFirst(products, n)
    ensures exists j :: FirstFor(products, n, k, j) && ImagesOfFirst(products, n)[k] == products[j].images[0].imageUrl
  {
    var m := ImagesOfFirst(products, n - 1);
    if k in m {
      ImagesFirstWins(products, n - 1, k);
      var j :| FirstFor(products, n - 1, k, j) && m[k] == products[j].images[0].imageUrl;
      assert FirstFor(products, n, k, j);
    } else {
      ImagesKeys(products, n - 1, k);
      assert FirstFor(products, n, k, n - 1);
    }
  }

  /** A later product never replaces an entry. */
  lemma {:induction false} ImagesKept(products: seq<Product>, n1: nat, n2: nat, k: string)
    requires n1 <= n2 <= |products|
    requires k in ImagesOfFirst(products, n1)
    ensures k in ImagesOfFirst(products, n2)
    ensures ImagesOfFirst(products, n2)[k] == ImagesOfFirst(products, n1)[k]
  {
    if n1 < n2 {
      ImagesKept(products, n1, n2 - 1, k);
    }
  }

  /** A product without a category or without images adds nothing. */
  lemma NonContributorIgnored(products: seq<Product>, n: nat)
    requires n < |products| && !Contributes(products[n])
    ensures ImagesOfFirst(products, n + 1) == ImagesOfFirst(products, n)
  {
  }

  /** The picture a category card shows: looked up by the category's name. */
  function CardImage(c: Category, imageMap: map<string, string>): (image: Option<string>)
    ensures image.Some? <==> c.name in imageMap
    ensures image.Some? ==> image.value == imageMap[c.name]
  {
    if c.name in imageMap then Some(imageMap[c.name]) else None
  }

  /** The lookup goes by name, so a card shows a picture exactly when some
      product names that category by its name, whatever the category's id. */
  lemma CardImageByName(products: seq<Product>, c: Category)
    ensures CardImage(c, ImagesOfFirst(products, |products|)).Some? <==>
      exists i :: 0 <= i < |products| && products[i].category == c.name && Contributes(products[i])
  {
    ImagesKeys(products, |products|, c.name);
  }
}
