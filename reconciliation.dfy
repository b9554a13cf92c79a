/**
 What save_cart does to a user's stored rows, as functions of the rows it found
 (`rows`) and of the cart it was given (`items`):

 - the update pass visits the cart's items in order; a row whose product is in
   the cart takes the item's name, price and quantity where it stands
   (`Refresh`), and an item with no row becomes a new row after all the others
   (`Without(items, Ids(rows))`, the items whose products had no row);
 - the delete pass visits the rows it found and drops those whose product is
   not in the cart.

 `Reconcile` is the result of both passes; `ReconcileMatchesCart` shows it
 holds exactly the cart's items.
 */
module Reconciliation {
  import opened Carts

  /** The stored rows once the update pass has visited `items`. */
  function Refresh(rows: seq<CartItem>, items: seq<CartItem>): (r: seq<CartItem>)
    ensures |r| == |rows|
    ensures forall i :: 0 <= i < |rows| ==> r[i].productId == rows[i].productId
    ensures forall i :: 0 <= i < |rows| && rows[i].productId !in Ids(items) ==> r[i] == rows[i]
    ensures forall i :: 0 <= i < |rows| && rows[i].productId in Ids(items) ==> r[i] in items
  {
    var m := Keyed(items);
    seq(|rows|, i requires 0 <= i < |rows| => if rows[i].productId in m then CopyFields(rows[i], m[rows[i].productId]) else rows[i])
  }

  /** The stored rows while the update pass runs: refreshed old rows, then the new rows so far. */
  function Staged(rows: seq<CartItem>, visited: seq<CartItem>): seq<CartItem>
  {
    Refresh(rows, visited) + Without(visited, Ids(rows))
  }

  /** The stored rows after both passes of save_cart. */
  function Reconcile(rows: seq<CartItem>, items: seq<CartItem>): seq<CartItem>
  {
    Without(Staged(rows, items), Ids(rows) - Ids(items))
  }

  lemma IdsConcat(a: seq<CartItem>, b: seq<CartItem>)
    ensures Ids(a + b) == Ids(a) + Ids(b)
  {
    assert forall x :: x in a + b <==> x in a || x in b;
  }

  lemma UniqueConcat(a: seq<CartItem>, b: seq<CartItem>)
    requires UniqueIds(a) && UniqueIds(b) && Ids(a) !! Ids(b)
    ensures UniqueIds(a + b)
  {
    var t := a + b;
    forall i, j | 0 <= i < j < |t| ensures t[i].productId != t[j].productId {
      if i < |a| && j >= |a| {
        assert t[i] == a[i] && t[i] in a;
        assert t[j] == b[j - |a|] && t[j] in b;
        assert t[i].productId in Ids(a) && t[j].productId in Ids(b);
      } else if i >= |a| {
        assert t[i] == b[i - |a|] && t[j] == b[j - |a|];
      } else {
        assert t[i] == a[i] && t[j] == a[j];
      }
    }
  }

  /**
   save_cart leaves the user's record holding exactly the cart's items, with
   their names, prices and quantities, and no product twice.
   */
  lemma ReconcileMatchesCart(rows: seq<CartItem>, items: seq<CartItem>)
    requires UniqueIds(rows) && UniqueIds(items)
    ensures UniqueIds(Reconcile(rows, items))
    ensures forall x :: x in Reconcile(rows, items) <==> x in items
    ensures Keyed(Reconcile(rows, items)) == Keyed(items)
  {
    var kept := Refresh(rows, items);
    var added := Without(items, Ids(rows));
    var drop := Ids(rows) - Ids(items);
    var r := Reconcile(rows, items);
    SameIdsAt(rows, kept);
    UniqueConcat(kept, added);
    forall x | x in r ensures x in items {
      assert x in kept + added;
      if x in kept {
        var i :| 0 <= i < |kept| && kept[i] == x;
        assert rows[i] in rows;
      }
    }
    forall x | x in items ensures x in r {
      if x.productId in Ids(rows) {
        var i :| 0 <= i < |rows| && rows[i].productId == x.productId;
        assert kept[i] in kept + added;
        SameIdSameItem(items, kept[i], x);
      } else {
        assert x in added;
        assert x in kept + added;
      }
    }
    KeyedSame(r, items);
  }

  /** The rows that are already stored come first, in their order; the new rows follow in cart order. */
  lemma ReconcileOrder(rows: seq<CartItem>, items: seq<CartItem>)
    ensures Reconcile(rows, items) == Without(Refresh(rows, items), Ids(rows) - Ids(items)) + Without(items, Ids(rows))
  {
    var added := Without(items, Ids(rows));
    WithoutConcat(Refresh(rows, items), added, Ids(rows) - Ids(items));
  }

  lemma {:induction false} WithoutConcat(a: seq<CartItem>, b: seq<CartItem>, drop: set<int>)
    ensures Without(a + b, drop) == Without(a, drop) + Without(b, drop)
    decreases |b|
  {
    if b == [] {
      assert a + b == a;
    } else {
      var init, last := b[..|b| - 1], b[|b| - 1];
      assert b == init + [last];
      assert a + b == (a + init) + [last];
      WithoutAppend(a + init, last, drop);
      WithoutAppend(init, last, drop);
      WithoutConcat(a, init, drop);
      ConcatAssoc(Without(a, drop), Without(init, drop), if last.productId in drop then [] else [last]);
    }
  }

  lemma {:induction false} WithoutAppend(s: seq<CartItem>, x: CartItem, drop: set<int>)
    ensures Without(s + [x], drop) == Without(s, drop) + (if x.productId in drop then [] else [x])
  {
    assert (s + [x])[..|s|] == s;
  }

  /** Dropping in two rounds is dropping once. */
  lemma {:induction false} WithoutTwice(s: seq<CartItem>, a: set<int>, b: set<int>)
    ensures Without(Without(s, a), b) == Without(s, a + b)
    decreases |s|
  {
    if s != [] {
      var init, last := s[..|s| - 1], s[|s| - 1];
      assert s == init + [last];
      WithoutAppend(init, last, a);
      WithoutAppend(init, last, a + b);
      WithoutTwice(init, a, b);
      if last.productId !in a {
        WithoutAppend(Without(init, a), last, b);
      }
    }
  }

  lemma OverwriteConcat(a: seq<CartItem>, b: seq<CartItem>, x: CartItem)
    ensures Overwrite(a + b, x) == Overwrite(a, x) + Overwrite(b, x)
  {
  }

  lemma OverwriteAbsent(s: seq<CartItem>, x: CartItem)
    requires x.productId !in Ids(s)
    ensures Overwrite(s, x) == s
  {
    forall i | 0 <= i < |s| ensures Overwrite(s, x)[i] == s[i] {
      assert s[i] in s;
    }
  }

  lemma StagedIds(rows: seq<CartItem>, visited: seq<CartItem>)
    ensures Ids(Staged(rows, visited)) == Ids(rows) + Ids(visited)
  {
    SameIdsAt(rows, Refresh(rows, visited));
    IdsConcat(Refresh(rows, visited), Without(visited, Ids(rows)));
  }

  /** Visiting one more item changes only the rows that carry its product. */
  lemma RefreshAppend(rows: seq<CartItem>, visited: seq<CartItem>, x: CartItem, i: nat)
    requires x.productId !in Ids(visited) && i < |rows|
    ensures Refresh(rows, visited + [x])[i] ==
      if rows[i].productId == x.productId then CopyFields(rows[i], x) else Refresh(rows, visited)[i]
  {
    KeyedAppend(visited, x);
    UniqueAppend(visited, x);
    var p := rows[i].productId;
    assert p in Ids(visited + [x]) <==> p in Ids(visited) || p == x.productId;
  }

  /** Before the update pass has visited any item the rows are as found. */
  lemma StagedStart(rows: seq<CartItem>)
    ensures Staged(rows, []) == rows
  {
    var none: seq<CartItem> := [];
    assert Refresh(rows, none) == rows;
  }

  /** The update pass meets an item whose product has a row: that row is updated in place. */
  lemma UpdateStep(rows: seq<CartItem>, visited: seq<CartItem>, x: CartItem)
    requires x.productId in Ids(rows) && x.productId !in Ids(visited)
    ensures Overwrite(Staged(rows, visited), x) == Staged(rows, visited + [x])
  {
    var a, b := Refresh(rows, visited), Without(visited, Ids(rows));
    OverwriteConcat(a, b, x);
    OverwriteAbsent(b, x);
    WithoutAppend(visited, x, Ids(rows));
    var r := Refresh(rows, visited + [x]);
    forall i | 0 <= i < |rows| ensures Overwrite(a, x)[i] == r[i] {
      RefreshAppend(rows, visited, x, i);
    }
    assert Overwrite(a, x) == r;
  }

  /** The update pass meets an item whose product has no row: a row is added after the others. */
  lemma InsertStep(rows: seq<CartItem>, visited: seq<CartItem>, x: CartItem)
    requires x.productId !in Ids(rows) && x.productId !in Ids(visited)
    ensures Staged(rows, visited) + [x] == Staged(rows, visited + [x])
  {
    var w := Without(visited, Ids(rows));
    WithoutAppend(visited, x, Ids(rows));
    RefreshUnrelated(rows, visited, x);
    ConcatAssoc(Refresh(rows, visited), w, [x]);
  }

  lemma ConcatAssoc(a: seq<CartItem>, b: seq<CartItem>, c: seq<CartItem>)
    ensures (a + b) + c == a + (b + c)
  {
  }

  /** Visiting an item whose product has no row changes no row. */
  lemma RefreshUnrelated(rows: seq<CartItem>, visited: seq<CartItem>, x: CartItem)
    requires x.productId !in Ids(rows) && x.productId !in Ids(visited)
    ensures Refresh(rows, visited + [x]) == Refresh(rows, visited)
  {
    var a, r := Refresh(rows, visited), Refresh(rows, visited + [x]);
    forall i | 0 <= i < |rows| ensures a[i] == r[i] {
      RefreshAppend(rows, visited, x, i);
      assert rows[i] in rows;
    }
  }

  /** The products the delete pass has dropped after visiting `seen`, the first rows it found. */
  function Dropped(seen: seq<CartItem>, items: seq<CartItem>): set<int>
  {
    Ids(seen) - Ids(items)
  }

  /** Before the delete pass has visited any row it has dropped nothing. */
  lemma DropStart(staged: seq<CartItem>, rows: seq<CartItem>, items: seq<CartItem>)
    ensures Without(staged, Dropped(rows[..0], items)) == staged
  {
    var none: seq<CartItem> := [];
    assert rows[..0] == none;
    assert Ids(none) == {};
  }

  /** Once the delete pass has visited every row it found, it has dropped the products that left the cart. */
  lemma DropEnd(staged: seq<CartItem>, rows: seq<CartItem>, items: seq<CartItem>)
    ensures Without(staged, Dropped(rows[..|rows|], items)) == Without(staged, Ids(rows) - Ids(items))
  {
    assert rows[..|rows|] == rows;
  }

  /** The delete pass meets one more of the rows it found. */
  lemma DropStep(staged: seq<CartItem>, rows: seq<CartItem>, k: nat, items: seq<CartItem>)
    requires k < |rows|
    ensures rows[k].productId !in Ids(items) ==>
      Without(Without(staged, Dropped(rows[..k], items)), {rows[k].productId}) == Without(staged, Dropped(rows[..k + 1], items))
    ensures rows[k].productId in Ids(items) ==>
      Without(staged, Dropped(rows[..k], items)) == Without(staged, Dropped(rows[..k + 1], items))
  {
    var p := rows[k].productId;
    assert rows[..k + 1] == rows[..k] + [rows[k]];
    UniqueAppend(rows[..k], rows[k]);
    var d0, d1 := Dropped(rows[..k], items), Dropped(rows[..k + 1], items);
    if p in Ids(items) {
      assert d1 == d0;
    } else {
      assert d1 == d0 + {p};
      WithoutTwice(staged, d0, {p});
    }
  }
}
