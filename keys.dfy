/**
 * Cache keys. The key templates live in `src/api/keys_for_cache_invalidation`,
 * which is not part of this model; the literals below are this model's
 * assumption about them, and `AllData` stands for its fixed full-tree key.
 * Redis matches the pattern `*frag*` against a key exactly when `frag` is a
 * substring of it (`Contains`).
 */
module Keys {
  import opened Values
  import Uuids

  /** `frag in text`. */
  predicate Contains(text: string, frag: string)
    decreases |text|
  {
    frag <= text || (|text| > 0 && Contains(text[1..], frag))
  }

  lemma {:induction false} ContainsAfter(a: string, b: string, c: string)
    ensures Contains(a + b + c, b)
    decreases |a|
  {
    if a == [] {
      assert a + b + c == b + c;
    } else {
      assert (a + b + c)[1..] == a[1..] + b + c;
      ContainsAfter(a[1..], b, c);
    }
  }

  /** A key containing `frag` still contains it with text added on either side. */
  lemma {:induction false} ContainsExtend(a: string, t: string, c: string, frag: string)
    requires Contains(t, frag)
    ensures Contains(a + t + c, frag)
    decreases |a|, |t|
  {
    if a == [] {
      assert a + t + c == t + c;
      if frag <= t {
        assert frag <= t + c;
      } else {
        assert (t + c)[1..] == t[1..] + c;
        ContainsExtend([], t[1..], c, frag);
        assert [] + t[1..] + c == t[1..] + c;
      }
    } else {
      assert (a + t + c)[1..] == a[1..] + t + c;
      ContainsExtend(a[1..], t, c, frag);
    }
  }

  /** `MENUS_LIST`. */
  const MenusList: string := "list_of_menus"

  /** `ALL_DATA`: the key of the cached full tree. */
  const AllData: string := "all_data"

  /** `DETAIL_MENU.format(m)`. */
  function DetailMenu(m: Id): (k: string)
    ensures Contains(k, m)
  {
    ContainsAfter("menu:", m, "");
    assert "menu:" + m + "" == "menu:" + m;
    "menu:" + m
  }

  /** `SUBMENUS_LIST.format(m)`. */
  function SubmenusList(m: Id): (k: string)
    ensures Contains(k, m)
  {
    ContainsAfter("menu:", m, ":list_of_submenus");
    "menu:" + m + ":list_of_submenus"
  }

  /** `DETAIL_SUBMENU.format(m, s)`. */
  function DetailSubmenu(m: Id, s: Id): (k: string)
    ensures Contains(k, m) && Contains(k, s)
  {
    ContainsAfter("menu:", m, ":submenu:" + s);
    assert "menu:" + m + (":submenu:" + s) == "menu:" + m + ":submenu:" + s;
    ContainsAfter("menu:" + m + ":submenu:", s, "");
    assert "menu:" + m + ":submenu:" + s + "" == "menu:" + m + ":submenu:" + s;
    "menu:" + m + ":submenu:" + s
  }

  /** `DISHES_LIST.format(m, s)`. */
  function DishesList(m: Id, s: Id): (k: string)
    ensures Contains(k, m) && Contains(k, s)
  {
    var t := DetailSubmenu(m, s);
    ContainsExtend("", t, ":list_of_dishes", m);
    ContainsExtend("", t, ":list_of_dishes", s);
    assert "" + t + ":list_of_dishes" == t + ":list_of_dishes";
    t + ":list_of_dishes"
  }

  /** `DETAIL_DISH.format(m, s, d)`. */
  function DetailDish(m: Id, s: Id, d: Id): (k: string)
    ensures Contains(k, m) && Contains(k, s) && Contains(k, d)
  {
    var t := DetailSubmenu(m, s);
    ContainsExtend("", t, ":dish:" + d, m);
    ContainsExtend("", t, ":dish:" + d, s);
    assert "" + t + (":dish:" + d) == t + ":dish:" + d;
    ContainsAfter(t + ":dish:", d, "");
    assert t + ":dish:" + d + "" == t + ":dish:" + d;
    t + ":dish:" + d
  }

  /** `f'discount:{d}'`, the key of a dish's discount. */
  function DiscountKey(d: Id): (k: string)
    ensures Contains(k, "discount")
  {
    ContainsAfter("", "discount", ":" + d);
    assert "" + "discount" + (":" + d) == "discount:" + d;
    "discount:" + d
  }

  /** The lengths of the keys for canonical ids: each kind of key has its own. */
  lemma KeyLengths(m: Id, s: Id, d: Id)
    requires Uuids.IsCanonical(m) && Uuids.IsCanonical(s) && Uuids.IsCanonical(d)
    ensures |DetailMenu(m)| == 41 && |SubmenusList(m)| == 58 && |DetailSubmenu(m, s)| == 86
    ensures |DishesList(m, s)| == 101 && |DetailDish(m, s, d)| == 128 && |MenusList| == 13
  {
  }

  /** A submenu detail key names its menu and its submenu. */
  lemma SubmenuKeyInjective(m: Id, s: Id, m': Id, s': Id)
    requires Uuids.IsCanonical(m) && Uuids.IsCanonical(s) && Uuids.IsCanonical(m') && Uuids.IsCanonical(s')
    ensures DetailSubmenu(m, s) == DetailSubmenu(m', s') ==> m == m' && s == s'
  {
    if DetailSubmenu(m, s) == DetailSubmenu(m', s') {
      var k, k' := DetailSubmenu(m, s), DetailSubmenu(m', s');
      assert m == k[5..41] == k'[5..41] == m';
      assert s == k[50..86] == k'[50..86] == s';
    }
  }

  /** Keys built from canonical UUIDs are never ambiguous: each template is injective. */
  lemma KeysInjective(m: Id, s: Id, d: Id, m': Id, s': Id, d': Id)
    requires Uuids.IsCanonical(m) && Uuids.IsCanonical(s) && Uuids.IsCanonical(d)
    requires Uuids.IsCanonical(m') && Uuids.IsCanonical(s') && Uuids.IsCanonical(d')
    ensures DetailMenu(m) == DetailMenu(m') ==> m == m'
    ensures SubmenusList(m) == SubmenusList(m') ==> m == m'
    ensures DetailSubmenu(m, s) == DetailSubmenu(m', s') ==> m == m' && s == s'
    ensures DishesList(m, s) == DishesList(m', s') ==> m == m' && s == s'
    ensures DetailDish(m, s, d) == DetailDish(m', s', d') ==> m == m' && s == s' && d == d'
    ensures DiscountKey(d) == DiscountKey(d') ==> d == d'
  {
    if DetailMenu(m) == DetailMenu(m') {
      assert m == DetailMenu(m)[5..] == DetailMenu(m')[5..] == m';
    }
    if SubmenusList(m) == SubmenusList(m') {
      assert m == SubmenusList(m)[5..41] == SubmenusList(m')[5..41] == m';
    }
    SubmenuKeyInjective(m, s, m', s');
    if DishesList(m, s) == DishesList(m', s') {
      var k, k' := DishesList(m, s), DishesList(m', s');
      assert DetailSubmenu(m, s) == k[..86] == k'[..86] == DetailSubmenu(m', s');
    }
    if DetailDish(m, s, d) == DetailDish(m', s', d') {
      var k, k' := DetailDish(m, s, d), DetailDish(m', s', d');
      assert DetailSubmenu(m, s) == k[..86] == k'[..86] == DetailSubmenu(m', s');
      assert d == k[92..] == k'[92..] == d';
    }
    if DiscountKey(d) == DiscountKey(d') {
      assert d == DiscountKey(d)[9..] == DiscountKey(d')[9..] == d';
    }
  }

  /** Keys of different kinds never collide: their lengths differ. */
  lemma KindsDistinct(m: Id, s: Id, d: Id, m': Id, s': Id, d': Id)
    requires Uuids.IsCanonical(m) && Uuids.IsCanonical(s) && Uuids.IsCanonical(d)
    requires Uuids.IsCanonical(m') && Uuids.IsCanonical(s') && Uuids.IsCanonical(d')
    ensures |{MenusList, AllData, DetailMenu(m), SubmenusList(m'), DetailSubmenu(m, s),
              DishesList(m', s'), DetailDish(m, s, d), DiscountKey(d')}| == 8
  {
    var ks := [MenusList, AllData, DetailMenu(m), SubmenusList(m'), DetailSubmenu(m, s),
               DishesList(m', s'), DetailDish(m, s, d), DiscountKey(d')];
    assert |MenusList| == 13 && |AllData| == 8 && |DetailMenu(m)| == 41 && |SubmenusList(m')| == 58;
    assert |DetailSubmenu(m, s)| == 86 && |DishesList(m', s')| == 101;
    assert |DetailDish(m, s, d)| == 128 && |DiscountKey(d')| == 45;
    assert |set k | k in ks| == 8 by {
      forall i, j | 0 <= i < j < 8 ensures ks[i] != ks[j] {
        assert |ks[i]| != |ks[j]|;
      }
      DistinctCard(ks);
    }
    assert (set k | k in ks) == {MenusList, AllData, DetailMenu(m), SubmenusList(m'), DetailSubmenu(m, s),
              DishesList(m', s'), DetailDish(m, s, d), DiscountKey(d')};
  }

  lemma {:induction false} DistinctCard(ks: seq<string>)
    requires forall i, j :: 0 <= i < j < |ks| ==> ks[i] != ks[j]
    ensures |set k | k in ks| == |ks|
  {
    if ks != [] {
      var t := ks[..|ks| - 1];
      DistinctCard(t);
      assert (set k | k in ks) == (set k | k in t) + {ks[|ks| - 1]};
      assert ks[|ks| - 1] !in (set k | k in t);
    }
  }
}
