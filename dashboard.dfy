/** The `Dashboard` page component (fe/src/page/dashbaord.tsx): six state
    cells, the handlers that update them one event at a time, and the values
    the page derives from them when it renders. */
module DashboardPage {
  import opened Lists
  import opened Text
  import Catalog
  import Cart
  import Chat

  /** The cart badge: not rendered, or rendered with a count. */
  datatype Badge = Hidden | Shown(count: nat)

  /** The label of a product card's cart button. */
  datatype CartButton = AddToCart | RemoveFromCart

  /** The confirmation shown by "Buy Now", naming the product and its price. */
  datatype Alert = BuyingNotice(title: string, price: real)

  class Dashboard {
    var products: seq<Catalog.Product>
    var searchTerm: string
    var cart: seq<int>
    var isChatOpen: bool
    var messages: seq<string>
    var currentMessage: string

    /** What every reachable state satisfies: the cart holds each id at most
        once, and no message of the transcript is blank. */
    ghost predicate Valid()
      reads this
    {
      NoDup(cart) && Chat.AllNonBlank(messages)
    }

    /** Mounting the page: every cell holds its `useState` initial value. */
    constructor ()
      ensures Valid()
      ensures products == [] && searchTerm == "" && cart == []
      ensures !isChatOpen && messages == [] && currentMessage == ""
    {
      products := [];
      searchTerm := "";
      cart := [];
      isChatOpen := false;
      messages := [];
      currentMessage := "";
    }

    /** The fetch on mount resolves: the feed, projected, becomes the catalog. */
    method Load(feed: seq<Catalog.FeedRecord>)
      requires Valid()
      modifies this`products
      ensures Valid()
      ensures products == Catalog.Strip(feed)
      ensures |products| == |feed|
      ensures forall i :: 0 <= i < |feed| ==> products[i] == Catalog.StripRecord(feed[i])
    {
      products := Catalog.Strip(feed);
      Catalog.StripCopiesFields(feed);
    }

    /** The search box's change event. */
    method SetSearchTerm(term: string)
      requires Valid()
      modifies this`searchTerm
      ensures Valid()
      ensures searchTerm == term
    {
      searchTerm := term;
    }

    /** `handleToggleCart`: remove the id if it is in the cart, append it otherwise. */
    method ToggleCart(id: int)
      requires Valid()
      modifies this`cart
      ensures Valid()
      ensures cart == Cart.Toggle(old(cart), id)
      ensures id !in old(cart) ==> cart == old(cart) + [id]
      ensures id in old(cart) ==>
        id !in cart && IsSubsequence(cart, old(cart)) && |cart| == |old(cart)| - 1
      ensures forall other :: other != id ==> (other in cart <==> other in old(cart))
    {
      ghost var before := cart;
      cart := Cart.Toggle(cart, id);
      Cart.ToggleKeepsNoDup(before, id);
      forall other ensures other in cart <==> (other in before) != (other == id) {
        Cart.ToggleMembership(before, id, other);
      }
      if id in before {
        Cart.TogglePresent(before, id);
        var i :| 0 <= i < |before| && before[i] == id;
        Cart.TogglePresentAt(before, id, i);
      }
    }

    /** `handleBuyNow`: shows a confirmation and changes no state. */
    method BuyNow(product: Catalog.Product) returns (alert: Alert)
      ensures alert.title == product.title && alert.price == product.price
    {
      alert := BuyingNotice(product.title, product.price);
    }

    /** The chat bubble opens the sidebar. */
    method OpenChat()
      requires Valid()
      modifies this`isChatOpen
      ensures Valid()
      ensures isChatOpen
    {
      isChatOpen := true;
    }

    /** The sidebar's close button. */
    method CloseChat()
      requires Valid()
      modifies this`isChatOpen
      ensures Valid()
      ensures !isChatOpen
    {
      isChatOpen := false;
    }

    /** The chat input's change event. */
    method SetCurrentMessage(text: string)
      requires Valid()
      modifies this`currentMessage
      ensures Valid()
      ensures currentMessage == text
    {
      currentMessage := text;
    }

    /** `handleSendMessage`, run by both the Send button and the Enter key. */
    method SendMessage()
      requires Valid()
      modifies this`messages, this`currentMessage
      ensures Valid()
      ensures Chat.Session(messages, currentMessage) == Chat.Send(Chat.Session(old(messages), old(currentMessage)))
      ensures IsBlank(old(currentMessage)) ==>
        messages == old(messages) && currentMessage == old(currentMessage)
      ensures !IsBlank(old(currentMessage)) ==>
        messages == old(messages) + [old(currentMessage)] && currentMessage == ""
    {
      ghost var before := Chat.Session(messages, currentMessage);
      if Trim(currentMessage) != "" {
        messages := messages + [currentMessage];
        currentMessage := "";
      }
      Chat.SendGuard(before);
      Chat.SendKeepsNonBlank(before);
    }

    /** `handleClearChat`: empties the transcript and nothing else. */
    method ClearChat()
      requires Valid()
      modifies this`messages
      ensures Valid()
      ensures messages == []
    {
      messages := [];
    }

    /** `filteredProducts`: the matching products, every copy of each, in catalog order. */
    function FilteredProducts(): (r: seq<Catalog.Product>)
      reads this
      ensures IsSubsequence(r, products)
      ensures forall p :: p in r <==> p in products && Catalog.Matches(p, searchTerm)
      ensures forall p :: multiset(r)[p] ==
                            (if Catalog.Matches(p, searchTerm) then multiset(products)[p] else 0)
      ensures searchTerm == "" ==> r == products
    {
      Catalog.VisibleSpec(products, searchTerm);
      Catalog.VisibleEmptyTerm(products);
      Catalog.Visible(products, searchTerm)
    }

    /** "No products found." replaces the grid exactly when no product matches. */
    function ShowsPlaceholder(): (b: bool)
      reads this
      ensures b <==> forall p :: p in products ==> !Catalog.Matches(p, searchTerm)
    {
      Catalog.PlaceholderIffNoMatch(products, searchTerm);
      |FilteredProducts()| == 0
    }

    /** The cart badge: hidden when the cart is empty, otherwise `cart.length`. */
    function CartBadge(): (b: Badge)
      reads this
      ensures b == Hidden <==> cart == []
      ensures b.Shown? ==> b.count == |cart|
    {
      if |cart| > 0 then Shown(|cart|) else Hidden
    }

    /** In a reachable state the badge counts distinct products. */
    lemma BadgeCountsDistinctIds()
      requires Valid()
      ensures CartBadge().Shown? ==> CartBadge().count == |set id | id in cart|
    {
      NoDupCardinality(cart);
    }

    /** A card offers removal exactly when its product's id is in the cart. */
    function CartButtonFor(id: int): (button: CartButton)
      reads this
      ensures button == RemoveFromCart <==> id in cart
    {
      if id in cart then RemoveFromCart else AddToCart
    }
  }

  /** Toggling 1, then 2, then 1 leaves only 2 in the cart, with a badge of 1. */
  method CartScenario()
  {
    var d := new Dashboard();
    d.ToggleCart(1);
    d.ToggleCart(2);
    assert d.cart == [1, 2];
    Cart.TogglePresentAt([1, 2], 1, 0);
    d.ToggleCart(1);
    assert d.cart == [2];
    assert d.CartButtonFor(1) == AddToCart && d.CartButtonFor(2) == RemoveFromCart;
    assert d.CartBadge() == Shown(1);
  }

  /** A send, a repeated send, a blank send and a clear: the transcript ends
      empty while the draft and the sidebar's visibility are kept. */
  method ChatScenario()
  {
    var d := new Dashboard();
    d.OpenChat();
    d.SetCurrentMessage("hello");
    assert !IsWhitespace("hello"[0]);
    d.SendMessage();
    assert d.messages == ["hello"] && d.currentMessage == "";
    d.SendMessage();
    assert d.messages == ["hello"];
    d.SetCurrentMessage("  ");
    assert IsBlank("  ");
    d.SendMessage();
    assert d.messages == ["hello"] && d.currentMessage == "  ";
    d.ClearChat();
    assert d.messages == [] && d.currentMessage == "  " && d.isChatOpen;
  }
}
