/** The product catalog: the `Product` record, the projection of the raw
    feed onto it, and the search filter that selects the visible products
    (fe/src/page/dashbaord.tsx). */
module Catalog {
  import opened Lists
  import opened Text

  /** One catalog entry. The price is only displayed, never computed with. */
  datatype Product = Product(id: int, title: string, description: string, price: real, image: string)

  /** One record of the product feed: the five product fields plus whatever
      else the feed sends, which the projection drops. */
  datatype FeedRecord = FeedRecord(
    id: int, title: string, description: string, price: real, image: string,
    extra: map<string, string>)

  /** The object literal built for one feed item: the five product fields
      are copied by name, everything else the feed sends is dropped. */
  function StripRecord(item: FeedRecord): (p: Product)
    ensures p.id == item.id && p.title == item.title && p.description == item.description
    ensures p.price == item.price && p.image == item.image
  {
    Product(item.id, item.title, item.description, item.price, item.image)
  }

  /** `data.map(item => ({ id, title, description, price, image }))`. */
  function Strip(feed: seq<FeedRecord>): (products: seq<Product>)
    ensures |products| == |feed|
  {
    Map(feed, StripRecord)
  }

  /** The projection keeps length and order and copies the five fields. */
  lemma StripCopiesFields(feed: seq<FeedRecord>)
    ensures |Strip(feed)| == |feed|
    ensures forall i :: 0 <= i < |feed| ==>
      && Strip(feed)[i].id == feed[i].id
      && Strip(feed)[i].title == feed[i].title
      && Strip(feed)[i].description == feed[i].description
      && Strip(feed)[i].price == feed[i].price
      && Strip(feed)[i].image == feed[i].image
  {
    MapAt(feed, StripRecord);
  }

  /** The product's lower-cased title includes the lower-cased search term. */
  function Matches(p: Product, term: string): (b: bool)
    ensures term == "" ==> b
    ensures b ==> |term| <= |p.title|
  {
    ContainsEmpty(Lower(p.title));
    Contains(Lower(p.title), Lower(term))
  }

  /** The test `product => product.title.toLowerCase().includes(term.toLowerCase())`. */
  function MatchesTerm(term: string): Product -> bool
  {
    p => Matches(p, term)
  }

  /** `products.filter(product => product.title.toLowerCase().includes(searchTerm.toLowerCase()))`. */
  function Visible(products: seq<Product>, term: string): (r: seq<Product>)
    ensures |r| <= |products|
    ensures forall p :: p in r ==> p in products && Matches(p, term)
  {
    Filter(products, MatchesTerm(term))
  }

  /** The visible products are the matching ones, every copy of each, in catalog order. */
  lemma VisibleSpec(products: seq<Product>, term: string)
    ensures IsSubsequence(Visible(products, term), products)
    ensures forall p :: p in Visible(products, term) <==> p in products && Matches(p, term)
    ensures forall p :: multiset(Visible(products, term))[p] ==
                          (if Matches(p, term) then multiset(products)[p] else 0)
  {
    FilterIsSubsequence(products, MatchesTerm(term));
    forall p
      ensures p in Visible(products, term) <==> p in products && Matches(p, term)
      ensures multiset(Visible(products, term))[p] ==
        (if Matches(p, term) then multiset(products)[p] else 0)
    {
      FilterMembers(products, MatchesTerm(term), p);
      FilterCount(products, MatchesTerm(term), p);
    }
  }

  /** An empty search term shows the whole catalog. */
  lemma VisibleEmptyTerm(products: seq<Product>)
    ensures Visible(products, "") == products
  {
    forall i | 0 <= i < |products| ensures Matches(products[i], "") {
      ContainsEmpty(Lower(products[i].title));
    }
    FilterKeepsAll(products, MatchesTerm(""));
  }

  /** Typing more characters can only narrow the visible list, keeping its order. */
  lemma VisibleNarrows(products: seq<Product>, term: string, more: string)
    ensures IsSubsequence(Visible(products, term + more), Visible(products, term))
  {
    LowerConcat(term, more);
    forall i | 0 <= i < |products| && Matches(products[i], term + more)
      ensures Matches(products[i], term)
    {
      ContainsPrefixOfNeedle(Lower(products[i].title), Lower(term), Lower(more));
    }
    FilterWeaker(products, MatchesTerm(term + more), MatchesTerm(term));
  }

  /** The "No products found." placeholder shows exactly when no product matches. */
  lemma PlaceholderIffNoMatch(products: seq<Product>, term: string)
    ensures Visible(products, term) == [] <==> forall p :: p in products ==> !Matches(p, term)
  {
    VisibleSpec(products, term);
    if Visible(products, term) != [] {
      assert Visible(products, term)[0] in Visible(products, term);
    }
  }

  /** A one-item feed titled "Red Shirt": "red" finds it, "blue" finds nothing. */
  lemma RedShirtScenario()
    ensures var products := Strip([FeedRecord(1, "Red Shirt", "", 19.99, "u", map[])]);
      && Visible(products, "red") == products
      && Visible(products, "blue") == []
  {
    var feed := [FeedRecord(1, "Red Shirt", "", 19.99, "u", map[])];
    var shirt := Product(1, "Red Shirt", "", 19.99, "u");
    StripCopiesFields(feed);
    assert Strip(feed) == [shirt];
    RedShirtMatches(shirt);
    FilterKeepsAll([shirt], MatchesTerm("red"));
    FilterDropsAll([shirt], MatchesTerm("blue"));
  }

  /** The title "Red Shirt" matches "red" and not "blue". */
  lemma RedShirtMatches(shirt: Product)
    requires shirt.title == "Red Shirt"
    ensures Matches(shirt, "red") && !Matches(shirt, "blue")
  {
    LowerRedShirt();
    LowerKeepsLowercase("red");
    LowerKeepsLowercase("blue");
    RedShirtIncludes();
  }

  /** Lower-casing "Red Shirt". */
  lemma LowerRedShirt()
    ensures Lower("Red Shirt") == "red shirt"
  {
    LowerConcat("R", "ed Shirt");
    LowerConcat("ed ", "Shirt");
    LowerConcat("S", "hirt");
    assert "Red Shirt" == "R" + ("ed " + ("S" + "hirt"));
    LowerKeepsLowercase("ed ");
    LowerKeepsLowercase("hirt");
  }

  /** "red shirt" includes "red" and, having no "b", not "blue". */
  lemma RedShirtIncludes()
    ensures Contains("red shirt", "red") && !Contains("red shirt", "blue")
  {
    assert OccursAt("red shirt", "red", 0);
    ContainsIff("red shirt", "red");
    if Contains("red shirt", "blue") {
      ContainsFirstChar("red shirt", "blue");
      assert false;
    }
  }
}
