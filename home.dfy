/** The home page's derived values (src/components/home-client.tsx): the
    featured products and whether the hero and product sections show. */
module Home {
  import opened Types
  import opened Text
  import Settings

  predicate IsFeatured(p: Product) {
    p.featured == Some(true)
  }

  /** `slice(0, n)`. */
  function Take<T>(s: seq<T>, n: nat): (r: seq<T>)
    ensures |r| == if |s| <= n then |s| else n
    ensures r == s[..|r|]
  {
    if |s| <= n then s else s[..n]
  }

  /** `products?.filter(p => p.featured).slice(0, 4) || []`. */
  function FeaturedProducts(products: Option<seq<Product>>): (featured: seq<Product>)
    ensures |featured| <= 4
    ensures forall i :: 0 <= i < |featured| ==> IsFeatured(featured[i])
    ensures products.None? ==> featured == []
  {
    match products
    case None => []
    case Some(ps) => Take(Filter(ps, IsFeatured), 4)
  }

  /** The featured products are the first four (or fewer) featured ones, in
      the order the products come. */
  lemma FeaturedAreFirstFour(ps: seq<Product>)
    ensures var all := Filter(ps, IsFeatured);
      var featured := FeaturedProducts(Some(ps));
      && |featured| == (if |all| <= 4 then |all| else 4)
      && featured == all[..|featured|]
  {
  }

  /** Every featured product shown is one of the products, and with at most
      four featured products every one of them is shown. */
  lemma FeaturedMembers(ps: seq<Product>, p: Product)
    ensures p in FeaturedProducts(Some(ps)) ==> p in ps && IsFeatured(p)
    ensures |Filter(ps, IsFeatured)| <= 4 ==> (p in FeaturedProducts(Some(ps)) <==> p in ps && IsFeatured(p))
  {
    FilterMember(ps, IsFeatured, p);
    var all := Filter(ps, IsFeatured);
    if p in FeaturedProducts(Some(ps)) {
      assert p in all;
    }
  }

  /** Products added after the first four featured ones do not change the
      selection. */
  lemma FeaturedIgnoresLater(ps: seq<Product>, more: seq<Product>)
    requires |Filter(ps, IsFeatured)| >= 4
    ensures FeaturedProducts(Some(ps + more)) == FeaturedProducts(Some(ps))
  {
    FilterConcat(ps, more, IsFeatured);
    var a := Filter(ps, IsFeatured);
    assert (a + Filter(more, IsFeatured))[..4] == a[..4];
  }

  /** `settings?.showHeroSection !== false`. */
  function ShowHero(settings: Option<AppSettings>): (show: bool)
    ensures !show <==> settings.Some? && settings.value.showHeroSection == Some(false)
  {
    settings.None? || NotFalse(settings.value.showHeroSection)
  }

  /** `settings?.showProductsSection !== false`. */
  function ShowProducts(settings: Option<AppSettings>): (show: bool)
    ensures !show <==> settings.Some? && settings.value.showProductsSection == Some(false)
  {
    settings.None? || NotFalse(settings.value.showProductsSection)
  }

  /** The home page shows a section exactly when the settings page loads its
      switch as on. */
  lemma SectionsMatchSettingsPage(s: AppSettings)
    ensures ShowHero(Some(s)) == Settings.LoadedValues(s).showHeroSection
    ensures ShowProducts(Some(s)) == Settings.LoadedValues(s).showProductsSection
  {
  }

  /** Saving the settings form and reading the document back on the home
      page shows each section exactly as its switch was saved. */
  lemma SavedSwitchesShown(existing: Option<AppSettings>, v: Settings.SettingsValues)
    ensures ShowHero(Some(Settings.MergeSettings(existing, v))) == v.showHeroSection
    ensures ShowProducts(Some(Settings.MergeSettings(existing, v))) == v.showProductsSection
  {
  }
}
