/** The cart: an array of product ids in insertion order, changed only by
    toggling (`handleToggleCart`, fe/src/page/dashbaord.tsx). */
module Cart {
  import opened Lists

  /** The test `x => x !== id` of the removal's `filter`. */
  function IsNot(id: int): int -> bool
  {
    x => x != id
  }

  /** `prevCart.includes(id) ? prevCart.filter(x => x !== id) : [...prevCart, id]`. */
  function Toggle(cart: seq<int>, id: int): (r: seq<int>)
    ensures id in r <==> id !in cart
    ensures |r| <= |cart| + 1
  {
    if id in cart then Filter(cart, IsNot(id)) else cart + [id]
  }

  /** The cart after clicking the cart buttons of `ids`, in that order. */
  function ApplyToggles(cart: seq<int>, ids: seq<int>): (r: seq<int>)
    ensures |r| <= |cart| + |ids|
    decreases |ids|
  {
    if ids == [] then cart else ApplyToggles(Toggle(cart, ids[0]), ids[1..])
  }

  /** How many times `id` occurs in `ids`. */
  function Occurrences(ids: seq<int>, id: int): nat
  {
    if ids == [] then 0 else (if ids[0] == id then 1 else 0) + Occurrences(ids[1..], id)
  }

  /** The distinct ids that occur an odd number of times in `ids`. */
  function OddToggled(ids: seq<int>): set<int>
  {
    set id | id in ids && Occurrences(ids, id) % 2 == 1
  }

  /** Toggling flips the membership of `id` and of no other id. */
  lemma ToggleMembership(cart: seq<int>, id: int, other: int)
    ensures other in Toggle(cart, id) <==> (other in cart) != (other == id)
  {
    if id in cart {
      FilterMembers(cart, IsNot(id), other);
    }
  }

  /** Toggling an absent id appends it at the end; toggling it again restores the cart exactly. */
  lemma ToggleAbsent(cart: seq<int>, id: int)
    requires id !in cart
    ensures Toggle(cart, id) == cart + [id]
    ensures Toggle(Toggle(cart, id), id) == cart
  {
    FilterConcat(cart, [id], IsNot(id));
    FilterKeepsAll(cart, IsNot(id));
  }

  /** Toggling a present id removes every occurrence and keeps the others in order. */
  lemma TogglePresent(cart: seq<int>, id: int)
    requires id in cart
    ensures id !in Toggle(cart, id)
    ensures IsSubsequence(Toggle(cart, id), cart)
    ensures forall other :: other != id ==> (other in Toggle(cart, id) <==> other in cart)
  {
    FilterIsSubsequence(cart, IsNot(id));
    forall other ensures other in Toggle(cart, id) <==> (other in cart && other != id) {
      FilterMembers(cart, IsNot(id), other);
    }
  }

  /** In a cart without duplicates, toggling the id at position `i` deletes exactly that position. */
  lemma TogglePresentAt(cart: seq<int>, id: int, i: nat)
    requires NoDup(cart) && i < |cart| && cart[i] == id
    ensures Toggle(cart, id) == cart[..i] + cart[i + 1..]
  {
    var pre, post := cart[..i], cart[i + 1..];
    forall k | 0 <= k < |pre| ensures IsNot(id)(pre[k]) {
      assert pre[k] == cart[k] != cart[i];
    }
    forall k | 0 <= k < |post| ensures IsNot(id)(post[k]) {
      assert post[k] == cart[i + 1 + k] != cart[i];
    }
    assert cart == pre + [id] + post;
    FilterDropsOne(pre, id, post, IsNot(id));
  }

  /** Toggling keeps the cart free of duplicates. */
  lemma ToggleKeepsNoDup(cart: seq<int>, id: int)
    requires NoDup(cart)
    ensures NoDup(Toggle(cart, id))
  {
    if id in cart {
      FilterKeepsNoDup(cart, IsNot(id));
    }
  }

  /** Toggling the same id twice restores every id's membership. */
  lemma ToggleTwiceMembership(cart: seq<int>, id: int, other: int)
    ensures other in Toggle(Toggle(cart, id), id) <==> other in cart
  {
    ToggleMembership(cart, id, other);
    ToggleMembership(Toggle(cart, id), id, other);
  }

  /** Toggling the last id of a cart without duplicates twice restores the cart exactly. */
  lemma ToggleTwiceLast(cart: seq<int>, id: int)
    requires NoDup(cart) && cart != [] && cart[|cart| - 1] == id
    ensures Toggle(Toggle(cart, id), id) == cart
  {
    var init := cart[..|cart| - 1];
    TogglePresentAt(cart, id, |cart| - 1);
    assert Toggle(cart, id) == init;
    assert id !in init by {
      forall k | 0 <= k < |init| ensures init[k] != id { assert init[k] == cart[k]; }
    }
    ToggleAbsent(init, id);
    assert init + [id] == cart;
  }

  /** Toggling a present id twice moves it to the end: membership is restored, order is not. */
  lemma ToggleTwiceReorders()
    ensures Toggle(Toggle([1, 2], 1), 1) == [2, 1]
  {
    ToggleTwicePresentAt([1, 2], 1, 0);
    assert [1, 2][..0] + [1, 2][1..] == [2];
  }

  /** In a cart without duplicates, toggling the id at position `i` twice
      moves it from position `i` to the end. */
  lemma ToggleTwicePresentAt(cart: seq<int>, id: int, i: nat)
    requires NoDup(cart) && i < |cart| && cart[i] == id
    ensures Toggle(Toggle(cart, id), id) == cart[..i] + cart[i + 1..] + [id]
  {
    var rest := cart[..i] + cart[i + 1..];
    TogglePresentAt(cart, id, i);
    assert id !in rest by {
      forall k | 0 <= k < |rest| ensures rest[k] != id {
        if k < i { assert rest[k] == cart[k]; } else { assert rest[k] == cart[k + 1]; }
      }
    }
    ToggleAbsent(rest, id);
  }

  /** An id is in the cart exactly when its membership at the start differs from
      the parity of the number of times it was toggled. */
  lemma {:induction false} ToggleParity(cart: seq<int>, ids: seq<int>, id: int)
    ensures id in ApplyToggles(cart, ids) <==> (id in cart) != (Occurrences(ids, id) % 2 == 1)
    decreases |ids|
  {
    if ids != [] {
      var next := Toggle(cart, ids[0]);
      ToggleMembership(cart, ids[0], id);
      ToggleParity(next, ids[1..], id);
      OccurrencesStep(ids, id);
    }
  }

  /** One more occurrence at the front flips the parity. */
  lemma OccurrencesStep(ids: seq<int>, id: int)
    requires ids != []
    ensures Occurrences(ids, id) % 2 == 1 <==> (ids[0] == id) != (Occurrences(ids[1..], id) % 2 == 1)
  {
  }

  /** Any sequence of toggles keeps the cart free of duplicates. */
  lemma {:induction false} ApplyTogglesKeepsNoDup(cart: seq<int>, ids: seq<int>)
    requires NoDup(cart)
    ensures NoDup(ApplyToggles(cart, ids))
    decreases |ids|
  {
    if ids != [] {
      ToggleKeepsNoDup(cart, ids[0]);
      ApplyTogglesKeepsNoDup(Toggle(cart, ids[0]), ids[1..]);
    }
  }

  /** From an empty cart, the badge count is the number of distinct ids toggled an odd number of times. */
  lemma CountIsOddToggledIds(ids: seq<int>)
    ensures |ApplyToggles([], ids)| == |OddToggled(ids)|
  {
    var cart := ApplyToggles([], ids);
    ApplyTogglesKeepsNoDup([], ids);
    NoDupCardinality(cart);
    forall id ensures id in cart <==> id in ids && Occurrences(ids, id) % 2 == 1 {
      ToggleParity([], ids, id);
      if id !in ids {
        OccurrencesOfAbsent(ids, id);
      }
    }
    assert (set x | x in cart) == OddToggled(ids);
  }

  /** An id that does not occur has no occurrences. */
  lemma {:induction false} OccurrencesOfAbsent(ids: seq<int>, id: int)
    requires id !in ids
    ensures Occurrences(ids, id) == 0
  {
    if ids != [] {
      OccurrencesOfAbsent(ids[1..], id);
    }
  }

  /** Toggle 1, then 2, then 1: only 2 is left. */
  lemma ToggleScenario()
    ensures ApplyToggles([], [1, 2, 1]) == [2]
  {
    ToggleAbsent([], 1);
    assert Toggle([], 1) == [1];
    ToggleAbsent([1], 2);
    assert Toggle([1], 2) == [1, 2];
    TogglePresentAt([1, 2], 1, 0);
    assert Toggle([1, 2], 1) == [2] by { assert [1, 2][..0] + [1, 2][1..] == [2]; }
    calc {
      ApplyToggles([], [1, 2, 1]);
      ApplyToggles([1], [2, 1]);
      ApplyToggles([1, 2], [1]);
      ApplyToggles([2], []);
    }
  }
}
