/**
 The product list page: a fixed catalogue, a category filter driven by a
 drop-down whose "all" entry shows everything, and the rendering of the
 filtered list as cards or as a "nothing found" message.
 */
module Catalogue {
  import Seqs

  datatype Product = Product(id: int, title: string, category: string)

  const Products: seq<Product> := [
    Product(1, "Smartphone", "electronics"),
    Product(2, "Laptop", "electronics"),
    Product(3, "Jeans", "clothing"),
    Product(4, "Bookshelf", "furniture"),
    Product(5, "T-shirt", "clothing"),
    Product(6, "Novel: Sci-Fi", "books"),
    Product(7, "Desk Lamp", "electronics"),
    Product(8, "Chair", "furniture"),
    Product(9, "Notebook", "books")
  ]

  /** The drop-down value that disables filtering. */
  const ShowAll: string := "all"

  const Categories: set<string> := {"electronics", "clothing", "furniture", "books"}

  const NoProductsMessage: string := "No products found."

  /** One rendered product card: its title line and its category line. */
  datatype Card = Card(title: string, category: string)

  /** What the list element ends up holding. */
  datatype Listing = Message(text: string) | Cards(cards: seq<Card>)

  /** The filter predicate for a selected category. */
  function InCategory(c: string): Product -> bool
  {
    (p: Product) => p.category == c
  }

  /** The category filter applied to a catalogue: "all" keeps everything;
      any other value keeps, in order, exactly the products whose category
      equals it. */
  function Filtered(catalogue: seq<Product>, selected: string): (r: seq<Product>)
    ensures selected == ShowAll ==> r == catalogue
    ensures selected != ShowAll ==> forall k | 0 <= k < |r| :: r[k].category == selected
    ensures selected != ShowAll ==> forall p | p in catalogue && p.category == selected :: p in r
    ensures selected != ShowAll ==> |r| == Seqs.Count(InCategory(selected), catalogue)
    ensures Seqs.IsSubsequence(r, catalogue)
  {
    if selected == ShowAll then
      Seqs.SubsequenceReflexive(catalogue);
      catalogue
    else
      Seqs.Filter(InCategory(selected), catalogue)
  }

  /** `filterProducts` for the drop-down value `selected`. */
  function FilterProducts(selected: string): seq<Product>
  {
    Filtered(Products, selected)
  }

  /** `renderProducts`: an empty list shows only the message; otherwise one
      card per product, in list order, with that product's title and category. */
  function Render(ps: seq<Product>): (l: Listing)
    ensures |ps| == 0 <==> l == Message(NoProductsMessage)
    ensures |ps| > 0 ==> l.Cards? && |l.cards| == |ps|
    ensures |ps| > 0 ==> forall k | 0 <= k < |ps| :: l.cards[k] == Card(ps[k].title, ps[k].category)
  {
    if |ps| == 0 then Message(NoProductsMessage)
    else Cards(seq(|ps|, k requires 0 <= k < |ps| => Card(ps[k].title, ps[k].category)))
  }

  /** Filtering an already filtered list with the same value changes nothing. */
  lemma FilteredIdempotent(catalogue: seq<Product>, selected: string)
    ensures Filtered(Filtered(catalogue, selected), selected) == Filtered(catalogue, selected)
  {
    if selected != ShowAll {
      Seqs.FilterIdempotent(InCategory(selected), catalogue);
    }
  }

  /** The catalogue: nine products with ids 1 to 9 in order (hence
      distinct), each in one of the four categories. */
  lemma CatalogueShape()
    ensures |Products| == 9
    ensures forall k | 0 <= k < |Products| :: Products[k].id == k + 1
    ensures forall k | 0 <= k < |Products| :: Products[k].category in Categories
  {
  }

  /** A value that names none of the four categories (and is not "all")
      selects nothing, and the page shows only the message. */
  lemma UnknownCategoryShowsMessage(selected: string)
    requires selected != ShowAll && selected !in Categories
    ensures FilterProducts(selected) == []
    ensures Render(FilterProducts(selected)) == Message(NoProductsMessage)
  {
    CatalogueShape();
  }

  /** The first render, and the "all" choice, show all nine products as cards. */
  lemma ShowAllRendersEveryProduct()
    ensures Render(FilterProducts(ShowAll)) == Render(Products)
    ensures Render(Products).Cards? && |Render(Products).cards| == 9
    ensures Render(Products).cards[0] == Card("Smartphone", "electronics")
  {
  }

  /** "electronics" selects the smartphone, the laptop and the desk lamp, in
      catalogue order. */
  lemma ElectronicsScenario()
    ensures var r := FilterProducts("electronics");
      |r| == 3 && r[0] == Products[0] && r[1] == Products[1] && r[2] == Products[6]
  {
    var p := InCategory("electronics");
    var c := Products;
    var t8 := [c[8]];
    var t7 := [c[7]] + t8;
    var t6 := [c[6]] + t7;
    var t5 := [c[5]] + t6;
    var t4 := [c[4]] + t5;
    var t3 := [c[3]] + t4;
    var t2 := [c[2]] + t3;
    var t1 := [c[1]] + t2;
    assert c == [c[0]] + t1;
    assert p(c[0]) && p(c[1]) && p(c[6]);
    assert !p(c[2]) && !p(c[3]) && !p(c[4]) && !p(c[5]) && !p(c[7]) && !p(c[8]);
    Seqs.FilterCons(p, c[8], []);
    assert t8 == [c[8]] + [];
    assert Seqs.Filter(p, t8) == [];
    Seqs.FilterCons(p, c[7], t8);
    assert Seqs.Filter(p, t7) == [];
    Seqs.FilterCons(p, c[6], t7);
    assert Seqs.Filter(p, t6) == [c[6]];
    Seqs.FilterCons(p, c[5], t6);
    Seqs.FilterCons(p, c[4], t5);
    Seqs.FilterCons(p, c[3], t4);
    Seqs.FilterCons(p, c[2], t3);
    assert Seqs.Filter(p, t2) == [c[6]];
    Seqs.FilterCons(p, c[1], t2);
    assert Seqs.Filter(p, t1) == [c[1]] + [c[6]];
    Seqs.FilterCons(p, c[0], t1);
    assert Seqs.Filter(p, c) == [c[0]] + ([c[1]] + [c[6]]);
  }
}
