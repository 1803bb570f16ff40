/** The customer pages that list products: the home page's search and
    category sections (`src/pages/HomePage.tsx`) and the category page
    (`src/pages/CategoryPage.tsx`) reached from the header's category links
    (`src/components/Header.tsx`). */
module Storefront {
  import opened Wrappers
  import opened Text
  import opened Seqs
  import opened Domain
  import opened AdminProducts

  /** The search test for a lower-cased term: it occurs in the lower-cased
      name, description or category. */
  function MatchesTerm(lowered: string): Product -> bool {
    (p: Product) =>
      || Includes(Lower(p.name), lowered)
      || Includes(Lower(p.description), lowered)
      || Includes(Lower(p.category), lowered)
  }

  /** The test above, stated with substring occurrence. */
  lemma {:induction false} MatchesTermIsOccurs(lowered: string)
    ensures forall p :: MatchesTerm(lowered)(p) <==>
              || Occurs(lowered, Lower(p.name))
              || Occurs(lowered, Lower(p.description))
              || Occurs(lowered, Lower(p.category))
  {
    forall p: Product
      ensures MatchesTerm(lowered)(p) <==>
                || Occurs(lowered, Lower(p.name))
                || Occurs(lowered, Lower(p.description))
                || Occurs(lowered, Lower(p.category))
    {
      IncludesIsOccurs(Lower(p.name), lowered);
      IncludesIsOccurs(Lower(p.description), lowered);
      IncludesIsOccurs(Lower(p.category), lowered);
    }
  }

  /** `filteredProducts`: everything for a blank term; otherwise, in catalog
      order, the products whose name, description or category contains the
      lower-cased term, which is not trimmed for the comparison. */
  function SearchProducts(ps: seq<Product>, term: string): (r: seq<Product>)
    ensures AllSpace(term) ==> r == ps
    ensures !AllSpace(term) ==>
              forall p :: p in r <==>
                && p in ps
                && (|| Occurs(Lower(term), Lower(p.name))
                    || Occurs(Lower(term), Lower(p.description))
                    || Occurs(Lower(term), Lower(p.category)))
    ensures forall p :: p in r ==> multiset(r)[p] == multiset(ps)[p]
    ensures IsSubseq(r, ps)
  {
    MatchesTermIsOccurs(Lower(term));
    IsSubseqRefl(ps);
    if Trim(term) == "" then ps
    else Filter(ps, MatchesTerm(Lower(term)))
  }

  /** A search term padded with blanks finds nothing a product text does not
      hold with those blanks. */
  lemma PaddedTermNeedsBlank(ps: seq<Product>, term: string, p: Product)
    requires !AllSpace(term) && p in SearchProducts(ps, term)
    requires |term| > 0 && term[0] == ' '
    ensures || ' ' in Lower(p.name) || ' ' in Lower(p.description) || ' ' in Lower(p.category)
  {
    var t := Lower(term);
    assert t[0] == ' ';
    if Occurs(t, Lower(p.name)) {
      var i :| PrefixAt(t, Lower(p.name), i);
      assert Lower(p.name)[i] == t[0];
    } else if Occurs(t, Lower(p.description)) {
      var i :| PrefixAt(t, Lower(p.description), i);
      assert Lower(p.description)[i] == t[0];
    } else {
      var i :| PrefixAt(t, Lower(p.category), i);
      assert Lower(p.category)[i] == t[0];
    }
  }

  /** `products.map(p => p.category)` */
  function CategoryList(ps: seq<Product>): (cs: seq<string>)
    ensures |cs| == |ps|
    ensures forall i :: 0 <= i < |ps| ==> cs[i] == ps[i].category
  {
    seq(|ps|, i requires 0 <= i < |ps| => ps[i].category)
  }

  /** `[...new Set(categories)]`: each category of the catalog once, in the
      order the catalog first mentions it. */
  function Categories(ps: seq<Product>): (cs: seq<string>)
    ensures forall c :: c in cs <==> c in CategoryList(ps)
    ensures forall c :: c in cs <==> exists i :: 0 <= i < |ps| && ps[i].category == c
    ensures NoDuplicates(cs)
    ensures forall i, j :: 0 <= i < j < |cs| ==>
              FirstIndex(CategoryList(ps), cs[i]) < FirstIndex(CategoryList(ps), cs[j])
  {
    var all := CategoryList(ps);
    assert forall c :: c in all <==> exists i :: 0 <= i < |ps| && ps[i].category == c by {
      forall c ensures c in all <==> exists i :: 0 <= i < |ps| && ps[i].category == c {
        if c in all {
          var i :| 0 <= i < |all| && all[i] == c;
          assert ps[i].category == c;
        }
      }
    }
    Distinct(all)
  }

  /** `p => p.category === c` */
  function CategoryIs(c: string): Product -> bool {
    (p: Product) => p.category == c
  }

  /** One titled section of the home page. */
  datatype Section = Section(title: string, products: seq<Product>)

  /** The sections shown when the search box is empty: one per category. */
  function CategorySections(ps: seq<Product>): (ss: seq<Section>)
    ensures |ss| == |Categories(ps)|
    ensures forall i :: 0 <= i < |ss| ==> ss[i].title == Categories(ps)[i]
    ensures forall i, p :: 0 <= i < |ss| ==>
              (p in ss[i].products <==> p in ps && p.category == ss[i].title)
    ensures forall i :: 0 <= i < |ss| ==> IsSubseq(ss[i].products, ps)
    ensures forall i, p :: 0 <= i < |ss| && p in ss[i].products ==>
              multiset(ss[i].products)[p] == multiset(ps)[p]
  {
    var cs := Categories(ps);
    seq(|cs|, i requires 0 <= i < |cs| => Section(cs[i], Filter(ps, CategoryIs(cs[i]))))
  }

  /** Every product of the catalog is listed in exactly one section. */
  lemma {:induction false} EachProductInOneSection(ps: seq<Product>, p: Product)
    requires p in ps
    ensures var ss := CategorySections(ps);
            exists i :: && 0 <= i < |ss| && p in ss[i].products
                        && forall j :: 0 <= j < |ss| && p in ss[j].products ==> j == i
  {
    var ss := CategorySections(ps);
    var cs := Categories(ps);
    var k :| 0 <= k < |ps| && ps[k] == p;
    assert p.category in cs;
    var i :| 0 <= i < |cs| && cs[i] == p.category;
    assert p in ss[i].products;
    forall j | 0 <= j < |ss| && p in ss[j].products ensures j == i {
      assert cs[j] == p.category;
    }
  }

  /** What the product area shows: the search results whenever the box holds
      any text, blanks included, and the category sections otherwise. */
  datatype HomeView = Results(title: string, found: seq<Product>) | Sections(sections: seq<Section>)

  function HomeProducts(ps: seq<Product>, term: string): (v: HomeView)
    ensures v.Results? <==> term != ""
    ensures v.Results? ==> v.found == SearchProducts(ps, term)
    ensures v.Sections? ==> v.sections == CategorySections(ps)
  {
    if term != "" then Results(term, SearchProducts(ps, term)) else Sections(CategorySections(ps))
  }

  /** A search box holding only blanks lists the whole catalog as results. */
  lemma BlankSearchListsEverything(ps: seq<Product>, term: string)
    requires term != "" && AllSpace(term)
    ensures HomeProducts(ps, term) == Results(term, ps)
  {
  }

  /** `formatName`: nothing for a missing or empty name, otherwise the name
      with its first character upper-cased. */
  function FormatName(name: Option<string>): (r: string)
    ensures name.None? || name.value == "" ==> r == ""
    ensures name.Some? && name.value != "" ==>
              && |r| == |name.value| && r[0] == UpperChar(name.value[0])
              && r[1..] == name.value[1..]
  {
    if name.None? || name.value == "" then ""
    else Upper(name.value[..1]) + name.value[1..]
  }

  /** The category page's filter as written: the route's gender must equal the
      product's gender and the formatted route category its category. */
  function CategoryProducts(ps: seq<Product>, gender: Option<string>, categoryName: Option<string>)
    : (r: seq<Product>)
    ensures forall p :: p in r <==>
              p in ps && gender == Some(GenderName(p.gender)) && p.category == FormatName(categoryName)
    ensures forall p :: p in r ==> multiset(r)[p] == multiset(ps)[p]
    ensures IsSubseq(r, ps)
  {
    Filter(ps, (p: Product) =>
      gender == Some(GenderName(p.gender)) && p.category == FormatName(categoryName))
  }

  /** A header link: the category it names and the last segment of its path. */
  datatype CategoryLink = CategoryLink(name: string, slug: string)

  /** The header's links for one gender, leading to
      `/categoria/<gender>/<slug>`. */
  function HeaderLinks(g: Gender): seq<CategoryLink> {
    match g
    case Homem => [
      CategoryLink("Camisas", "camisas"), CategoryLink("Cal\U{00E7}as", "calcas"),
      CategoryLink("Blazers", "blazers"), CategoryLink("Pijamas", "pijamas"),
      CategoryLink("Roupa \U{00CD}ntima", "roupa-intima"), CategoryLink("Cal\U{00E7}ado", "calcado")]
    case Mulher => [
      CategoryLink("Vestidos", "vestidos"), CategoryLink("Blusas", "blusas"),
      CategoryLink("Saias", "saias"), CategoryLink("Cal\U{00E7}as", "calcas"),
      CategoryLink("Pijamas", "pijamas"), CategoryLink("Roupa \U{00CD}ntima", "roupa-intima"),
      CategoryLink("Cal\U{00E7}ado", "calcado")]
    case Jovens => [
      CategoryLink("Camisas", "camisas"), CategoryLink("Cal\U{00E7}as", "calcas"),
      CategoryLink("Vestidos", "vestidos"), CategoryLink("Pijamas", "pijamas"),
      CategoryLink("Roupa \U{00CD}ntima", "roupa-intima"), CategoryLink("Cal\U{00E7}ado", "calcado")]
  }

  /** The header offers, for each gender, exactly the categories the product
      editor offers, in the same order. */
  lemma HeaderMatchesEditor(g: Gender)
    ensures |HeaderLinks(g)| == |CategoriesFor(g)|
    ensures forall i :: 0 <= i < |HeaderLinks(g)| ==> HeaderLinks(g)[i].name == CategoriesFor(g)[i]
  {
  }

  /** The link for `Calças` of any gender leads to a page that lists none of
      that gender's trousers: `formatName("calcas")` is `"Calcas"`. */
  lemma {:induction false} TrousersLinkListsNothing(ps: seq<Product>, g: Gender)
    ensures CategoryLink("Cal\U{00E7}as", "calcas") in HeaderLinks(g)
    ensures forall p :: p in ps && p.category == "Cal\U{00E7}as" ==>
              p !in CategoryProducts(ps, Some(GenderName(g)), Some("calcas"))
  {
    var f := FormatName(Some("calcas"));
    assert f[0] == 'C' && f[1..] == "alcas";
    assert f == "Calcas";
    assert f[3] != "Cal\U{00E7}as"[3];
  }

  /** The slugs of one gender's links are distinct. */
  lemma HeaderSlugsDistinct(g: Gender)
    ensures forall i, j :: 0 <= i < j < |HeaderLinks(g)| ==> HeaderLinks(g)[i].slug != HeaderLinks(g)[j].slug
  {
  }

  /** The category a slug of the header stands for. */
  function CategoryForSlug(g: Gender, slug: string): (r: Option<string>)
    ensures r.None? <==> forall i :: 0 <= i < |HeaderLinks(g)| ==> HeaderLinks(g)[i].slug != slug
    ensures r.Some? ==> CategoryLink(r.value, slug) in HeaderLinks(g)
  {
    var links := HeaderLinks(g);
    match Find(links, (l: CategoryLink) => l.slug == slug)
    case Some(l) => Some(l.name)
    case None => None
  }

  /** The category page with the slug looked up in the header's table: a
      header link lists exactly the products of its gender and category. */
  function CategoryProductsBySlug(ps: seq<Product>, g: Gender, slug: string): (r: seq<Product>)
    ensures forall p :: p in r <==>
              p in ps && p.gender == g && Some(p.category) == CategoryForSlug(g, slug)
    ensures forall p :: p in r ==> multiset(r)[p] == multiset(ps)[p]
    ensures IsSubseq(r, ps)
  {
    var wanted := CategoryForSlug(g, slug);
    Filter(ps, (p: Product) => p.gender == g && Some(p.category) == wanted)
  }

  /** Every header link lists exactly its own category of its own gender. */
  lemma {:induction false} EveryLinkListsItsCategory(ps: seq<Product>, g: Gender, k: nat)
    requires k < |HeaderLinks(g)|
    ensures var link := HeaderLinks(g)[k];
            forall p :: p in CategoryProductsBySlug(ps, g, link.slug) <==>
              p in ps && p.gender == g && p.category == link.name
  {
    var links := HeaderLinks(g);
    var link := links[k];
    HeaderSlugsDistinct(g);
    var r := CategoryForSlug(g, link.slug);
    assert r.Some?;
    var j :| 0 <= j < |links| && links[j] == CategoryLink(r.value, link.slug);
    assert j == k;
  }
}
