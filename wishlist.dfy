/** The customer wishlist (backend/controllers/wishlistController.js): the
    list of hotel ids a user keeps, with append-if-absent and
    remove-every-occurrence. Neither operation looks the hotel up. */
module Wishlist {
  import opened Common

  /** No id occurs twice. */
  predicate Distinct(w: seq<Id>) {
    forall i, j :: 0 <= i < j < |w| ==> w[i] != w[j]
  }

  /** `addToWishlist`: 400 when the id is already listed; otherwise the id
      is pushed at the end. */
  function Add(w: seq<Id>, h: Id): (r: Result<seq<Id>>)
    ensures h in w <==> r == Err(BadRequest)
    ensures r.Ok? ==> r.value == w + [h] && |r.value| == |w| + 1
  {
    if h in w then Err(BadRequest) else Ok(w + [h])
  }

  function Other(h: Id): Id -> bool {
    (x: Id) => x != h
  }

  /** `removeFromWishlist`: the list without any occurrence of `h`, the
      rest in its order. An absent id is not an error. */
  function Remove(w: seq<Id>, h: Id): (r: seq<Id>)
    ensures h !in r
    ensures forall x: Id :: x != h ==> multiset(r)[x] == multiset(w)[x]
  {
    var r := Filter<Id>(w, Other(h));
    forall x: Id | x != h
      ensures multiset(r)[x] == multiset(w)[x]
    {
      FilterMultiplicity<Id>(w, Other(h), x);
    }
    assert h !in r by {
      FilterMultiplicity<Id>(w, Other(h), h);
      assert multiset(r)[h] == 0;
    }
    r
  }

  /** Removal keeps the order of the remaining ids: removing from a
      concatenation removes from each part. */
  lemma RemoveKeepsOrder(a: seq<Id>, b: seq<Id>, h: Id)
    ensures Remove(a + b, h) == Remove(a, h) + Remove(b, h)
  {
    FilterConcat<Id>(a, b, Other(h));
  }

  /** Removing an id that is not listed leaves the list as it is. */
  lemma RemoveAbsent(w: seq<Id>, h: Id)
    requires h !in w
    ensures Remove(w, h) == w
  {
    FilterAll<Id>(w, Other(h));
  }

  /** Adding an id and then removing it gives back the list. */
  lemma AddThenRemove(w: seq<Id>, h: Id)
    requires Add(w, h).Ok?
    ensures Remove(Add(w, h).value, h) == w
  {
    RemoveKeepsOrder(w, [h], h);
    RemoveAbsent(w, h);
    assert Filter<Id>([h], Other(h)) == [];
  }

  /** Both operations keep the list duplicate-free. */
  lemma AddKeepsDistinct(w: seq<Id>, h: Id)
    requires Distinct(w)
    ensures Add(w, h).Ok? ==> Distinct(Add(w, h).value)
  {
  }

  lemma RemoveKeepsDistinct(w: seq<Id>, h: Id)
    requires Distinct(w)
    ensures Distinct(Remove(w, h))
  {
    FilterKeepsDistinct(w, Other(h));
  }

  /** Keeping some of the ids of a duplicate-free list keeps it so. */
  lemma {:induction false} FilterKeepsDistinct(w: seq<Id>, p: Id -> bool)
    requires Distinct(w)
    ensures Distinct(Filter<Id>(w, p))
  {
    if w != [] {
      var tail := Filter<Id>(w[1..], p);
      assert Distinct(w[1..]) by {
        forall i, j | 0 <= i < j < |w[1..]| ensures w[1..][i] != w[1..][j] {
          assert w[1..][i] == w[i + 1] && w[1..][j] == w[j + 1];
        }
      }
      FilterKeepsDistinct(w[1..], p);
      if p(w[0]) {
        assert w[0] !in tail by {
          forall k | 0 <= k < |tail| ensures tail[k] != w[0] {
            var m :| 0 <= m < |w[1..]| && w[1..][m] == tail[k];
            assert w[m + 1] == tail[k];
          }
        }
        var r := [w[0]] + tail;
        assert Filter<Id>(w, p) == r;
        forall i, j | 0 <= i < j < |r| ensures r[i] != r[j] {
          if i == 0 {
            assert r[j] == tail[j - 1];
          } else {
            assert r[i] == tail[i - 1] && r[j] == tail[j - 1];
          }
        }
      }
    }
  }
}
