/**
 * The discount overlay of src/api/services/utils.py: a dish whose id has a
 * truthy `discount:<id>` entry shows that entry as its price.
 */
module Discounts {
  import opened Wrappers
  import opened Values
  import opened Keys

  /** `set_discount(dish, discount)`: the dish with `price` set to the discount. */
  function SetDiscount(dish: Row, discount: Val): (r: Row)
    ensures r.id == dish.id
    ensures "price" in r.fields && r.fields["price"] == discount
    ensures r.fields.Keys == dish.fields.Keys + {"price"}
    ensures forall f :: f in dish.fields && f != "price" ==> r.fields[f] == dish.fields[f]
  {
    dish.(fields := dish.fields["price" := discount])
  }

  /** The entry `set_discounts` looks up for a dish, `None` when absent. */
  function DiscountOf(discounts: map<string, Val>, dish: Row): Val {
    Get(discounts, DiscountKey(dish.id)).GetOr(Null)
  }

  predicate IsDiscounted(discounts: map<string, Val>, dish: Row) {
    Truthy(DiscountOf(discounts, dish))
  }

  /** The dish as readers see it: its discount as price when it has one. */
  function Effective(discounts: map<string, Val>, dish: Row): Row {
    if IsDiscounted(discounts, dish) then SetDiscount(dish, DiscountOf(discounts, dish)) else dish
  }

  /** Reference overlay: every dish with its effective price, in the original order. */
  function ApplyAll(discounts: map<string, Val>, s: seq<Row>): (r: seq<Row>)
    ensures |r| == |s|
  {
    if s == [] then [] else [Effective(discounts, s[0])] + ApplyAll(discounts, s[1..])
  }

  /** The undiscounted dishes of `s`, in order. */
  function Kept(discounts: map<string, Val>, s: seq<Row>): seq<Row>
  {
    if s == [] then []
    else (if IsDiscounted(discounts, s[0]) then [] else [s[0]]) + Kept(discounts, s[1..])
  }

  /** The discounted dishes of `s`, in order, with their discount as price. */
  function Moved(discounts: map<string, Val>, s: seq<Row>): seq<Row>
  {
    if s == [] then []
    else (if IsDiscounted(discounts, s[0]) then [Effective(discounts, s[0])] else []) + Moved(discounts, s[1..])
  }

  function Reverse<T>(s: seq<T>): (r: seq<T>)
    ensures |r| == |s|
  {
    if s == [] then [] else Reverse(s[1..]) + [s[0]]
  }

  /** What `set_discounts` leaves in the list: undiscounted dishes first, then the discounted ones reversed. */
  function Overlay(discounts: map<string, Val>, s: seq<Row>): seq<Row> {
    Kept(discounts, s) + Reverse(Moved(discounts, s))
  }

  lemma {:induction false} ReverseMultiset<T>(s: seq<T>)
    ensures multiset(Reverse(s)) == multiset(s)
  {
    if s != [] {
      ReverseMultiset(s[1..]);
      assert s == [s[0]] + s[1..];
    }
  }

  /** The overlay is a permutation of the reference overlay. */
  lemma {:induction false} OverlayIsPermutation(discounts: map<string, Val>, s: seq<Row>)
    ensures |Overlay(discounts, s)| == |s|
    ensures multiset(Overlay(discounts, s)) == multiset(ApplyAll(discounts, s))
  {
    KeptMovedLength(discounts, s);
    KeptMovedSplit(discounts, s);
    ReverseMultiset(Moved(discounts, s));
  }

  lemma {:induction false} KeptMovedLength(discounts: map<string, Val>, s: seq<Row>)
    ensures |Kept(discounts, s)| + |Moved(discounts, s)| == |s|
  {
    if s != [] {
      KeptMovedLength(discounts, s[1..]);
    }
  }

  lemma {:induction false} KeptMovedSplit(discounts: map<string, Val>, s: seq<Row>)
    ensures multiset(Kept(discounts, s)) + multiset(Moved(discounts, s)) == multiset(ApplyAll(discounts, s))
  {
    if s != [] {
      var h, t := s[0], s[1..];
      KeptMovedSplit(discounts, t);
      var e := Effective(discounts, h);
      if IsDiscounted(discounts, h) {
        assert Kept(discounts, s) == Kept(discounts, t);
        assert Moved(discounts, s) == [e] + Moved(discounts, t);
      } else {
        assert Kept(discounts, s) == [h] + Kept(discounts, t);
        assert Moved(discounts, s) == Moved(discounts, t);
        assert e == h;
      }
    }
  }

  /** Undiscounted dishes keep their price; discounted ones carry their discount. */
  lemma {:induction false} OverlayPrices(discounts: map<string, Val>, s: seq<Row>)
    ensures forall x :: x in Kept(discounts, s) ==> x in s && !IsDiscounted(discounts, x)
    ensures forall x :: x in Moved(discounts, s) ==>
      exists y :: y in s && IsDiscounted(discounts, y) && x == SetDiscount(y, DiscountOf(discounts, y))
  {
    if s != [] {
      OverlayPrices(discounts, s[1..]);
      forall x | x in Moved(discounts, s)
        ensures exists y :: y in s && IsDiscounted(discounts, y) && x == SetDiscount(y, DiscountOf(discounts, y))
      {
        if x in Moved(discounts, s[1..]) {
          var y :| y in s[1..] && IsDiscounted(discounts, y) && x == SetDiscount(y, DiscountOf(discounts, y));
          assert y in s;
        } else {
          assert x == SetDiscount(s[0], DiscountOf(discounts, s[0]));
        }
      }
    }
  }

  lemma {:induction false} NothingDiscounted(s: seq<Row>)
    ensures Kept(map[], s) == s && Moved(map[], s) == []
  {
    if s != [] {
      NothingDiscounted(s[1..]);
      assert !IsDiscounted(map[], s[0]);
    }
  }

  /** With no discount entries the list is left as it was. */
  lemma OverlayWithoutDiscounts(s: seq<Row>)
    ensures Overlay(map[], s) == s
  {
    NothingDiscounted(s);
  }

  /** One step of the backwards walk over an undiscounted dish: the list is unchanged. */
  lemma StepKept(discounts: map<string, Val>, s: seq<Row>, i: nat)
    requires i < |s| && !IsDiscounted(discounts, s[i])
    ensures s[..i] + Kept(discounts, s[i..]) + Reverse(Moved(discounts, s[i..]))
         == s[..i + 1] + Kept(discounts, s[i + 1..]) + Reverse(Moved(discounts, s[i + 1..]))
  {
    var t, rest := s[i..], s[i + 1..];
    assert t[0] == s[i] && t[1..] == rest;
    assert Kept(discounts, t) == [s[i]] + Kept(discounts, rest);
    assert Moved(discounts, t) == Moved(discounts, rest);
    assert s[..i + 1] == s[..i] + [s[i]];
  }

  /** One step over a discounted dish: it leaves its place and is appended with its discount. */
  lemma StepMoved(discounts: map<string, Val>, s: seq<Row>, i: nat, before: seq<Row>)
    requires i < |s| && IsDiscounted(discounts, s[i])
    requires before == s[..i + 1] + Kept(discounts, s[i + 1..]) + Reverse(Moved(discounts, s[i + 1..]))
    ensures |before| == |s| && before[i] == s[i]
    ensures s[..i] + Kept(discounts, s[i..]) + Reverse(Moved(discounts, s[i..]))
         == before[..i] + before[i + 1..] + [Effective(discounts, s[i])]
  {
    var t, rest := s[i..], s[i + 1..];
    var kept, moved := Kept(discounts, rest), Moved(discounts, rest);
    var e := Effective(discounts, s[i]);
    assert t[0] == s[i] && t[1..] == rest;
    assert Kept(discounts, t) == kept;
    assert Moved(discounts, t) == [e] + moved;
    ReverseCons(e, moved);
    KeptMovedLength(discounts, rest);
    assert s[..i + 1] == s[..i] + [s[i]];
    SplitAt(s[..i], s[i], kept + Reverse(moved));
  }

  lemma ReverseCons<T>(x: T, s: seq<T>)
    ensures Reverse([x] + s) == Reverse(s) + [x]
  {
    assert ([x] + s)[1..] == s;
  }

  lemma SplitAt<T>(a: seq<T>, x: T, b: seq<T>)
    ensures (a + [x] + b)[..|a|] == a && (a + [x] + b)[|a| + 1..] == b && (a + [x] + b)[|a|] == x
  {
  }

  /** `del dishes[i]` followed by `dishes.append(x)`, on a list whose length does not change. */
  method MoveToEnd(a: array<Row>, i: nat, x: Row)
    requires i < a.Length
    modifies a
    ensures a[..] == old(a[..])[..i] + old(a[..])[i + 1..] + [x]
  {
    forall j | i <= j < a.Length - 1 {
      a[j] := a[j + 1];
    }
    a[a.Length - 1] := x;
  }

  /**
   * `set_discounts(discounts, dishes)`: walks the list from the back; each
   * dish with a truthy discount is deleted, given the discount as price and
   * appended. The list is changed in place and returned.
   */
  method SetDiscounts(discounts: map<string, Val>, dishes: array<Row>) returns (r: array<Row>)
    modifies dishes
    ensures r == dishes
    ensures dishes[..] == Overlay(discounts, old(dishes[..]))
  {
    ghost var s := dishes[..];
    var n := dishes.Length;
    var i := n;
    while i > 0
      invariant 0 <= i <= n
      invariant dishes[..] == s[..i] + Kept(discounts, s[i..]) + Reverse(Moved(discounts, s[i..]))
    {
      i := i - 1;
      var dish := dishes[i];
      var discount := Get(discounts, DiscountKey(dish.id)).GetOr(Null);
      if Truthy(discount) {
        ghost var before := dishes[..];
        StepMoved(discounts, s, i, before);
        var priced := SetDiscount(dish, discount);
        MoveToEnd(dishes, i, priced);
      } else {
        StepKept(discounts, s, i);
      }
    }
    assert s[0..] == s;
    r := dishes;
  }
}
