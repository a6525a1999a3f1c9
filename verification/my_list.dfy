/** The "My List" watch list: an ordered list of titles, each identified by
    its `id`, to which titles are added at most once and from which they are
    removed by id. */
module MyList {

  /** A title on the list. The app keeps the whole content object; only its
      `id` takes part in any decision, the rest is carried along unchanged. */
  datatype Item = Item(id: string, title: string)

  /** `list.some((i) => i.id === id)`. */
  function IsInList(l: seq<Item>, id: string): (b: bool)
    ensures b <==> exists i :: 0 <= i < |l| && l[i].id == id
  {
    if l == [] then false
    else l[0].id == id || IsInList(l[1..], id)
  }

  /** No id occurs twice. */
  predicate UniqueIds(l: seq<Item>) {
    forall i, j :: 0 <= i < j < |l| ==> l[i].id != l[j].id
  }

  /** `addToList(item)`: appended at the end unless its id is already on the
      list, in which case the list is left as it is. */
  function AddToList(l: seq<Item>, item: Item): (r: seq<Item>)
    ensures IsInList(r, item.id)
    ensures IsInList(l, item.id) ==> r == l
    ensures !IsInList(l, item.id) ==> |r| == |l| + 1 && r[..|l|] == l && r[|l|] == item
    ensures UniqueIds(l) ==> UniqueIds(r)
  {
    if IsInList(l, item.id) then l
    else
      var r := l + [item];
      assert r[..|l|] == l && r[|l|] == item;
      assert UniqueIds(l) ==> UniqueIds(r) by {
        if UniqueIds(l) {
          forall i, j | 0 <= i < j < |r| ensures r[i].id != r[j].id {
            if j == |l| {
              assert r[i] == l[i];
            }
          }
        }
      }
      r
  }

  /** `removeFromList(id)`: `list.filter((i) => i.id !== id)`. */
  function RemoveFromList(l: seq<Item>, id: string): (r: seq<Item>)
    ensures forall i :: 0 <= i < |r| ==> r[i].id != id
    ensures |r| <= |l|
  {
    if l == [] then []
    else
      assert l == [l[0]] + l[1..];
      (if l[0].id == id then [] else [l[0]]) + RemoveFromList(l[1..], id)
  }

  /** What stays on the list: exactly the entries with another id. */
  lemma {:induction false} RemoveMembership(l: seq<Item>, id: string, x: Item)
    ensures x in RemoveFromList(l, id) <==> x in l && x.id != id
  {
    if l != [] {
      RemoveMembership(l[1..], id, x);
      assert l == [l[0]] + l[1..];
    }
  }

  /** Every other title keeps its number of occurrences. */
  lemma {:induction false} RemoveKeepsOthers(l: seq<Item>, id: string, x: Item)
    requires x.id != id
    ensures multiset(RemoveFromList(l, id))[x] == multiset(l)[x]
  {
    if l != [] {
      RemoveKeepsOthers(l[1..], id, x);
      assert l == [l[0]] + l[1..];
    }
  }

  /** Removing an id that is not on the list changes nothing. */
  lemma {:induction false} RemoveAbsent(l: seq<Item>, id: string)
    requires forall i :: 0 <= i < |l| ==> l[i].id != id
    ensures RemoveFromList(l, id) == l
  {
    if l != [] {
      RemoveAbsent(l[1..], id);
      assert l == [l[0]] + l[1..];
    }
  }

  lemma {:induction false} RemoveAppend(a: seq<Item>, b: seq<Item>, id: string)
    ensures RemoveFromList(a + b, id) == RemoveFromList(a, id) + RemoveFromList(b, id)
  {
    if a == [] {
      assert a + b == b;
    } else {
      assert (a + b)[1..] == a[1..] + b;
      RemoveAppend(a[1..], b, id);
    }
  }

  /** On a list without duplicate ids, removing an id that is on it drops
      exactly that one entry and keeps the order of the rest. */
  lemma {:induction false} RemoveFromUnique(l: seq<Item>, k: nat)
    requires UniqueIds(l) && k < |l|
    ensures RemoveFromList(l, l[k].id) == l[..k] + l[k + 1..]
  {
    var id := l[k].id;
    var rest := l[1..];
    assert l == [l[0]] + rest;
    if k == 0 {
      forall i | 0 <= i < |rest| ensures rest[i].id != id {
        assert rest[i] == l[i + 1];
      }
      RemoveAbsent(rest, id);
    } else {
      assert l[0].id != id;
      assert UniqueIds(rest) by {
        forall i, j | 0 <= i < j < |rest| ensures rest[i].id != rest[j].id {
          assert rest[i] == l[i + 1] && rest[j] == l[j + 1];
        }
      }
      assert rest[k - 1] == l[k];
      RemoveFromUnique(rest, k - 1);
      assert l[..k] == [l[0]] + rest[..k - 1];
      assert rest[k..] == l[k + 1..];
    }
  }

  /** `toggleInList(item)`: removes the item's id when it is on the list and
      adds the item otherwise, so membership of that id flips. */
  function ToggleInList(l: seq<Item>, item: Item): (r: seq<Item>)
    ensures IsInList(r, item.id) <==> !IsInList(l, item.id)
    ensures UniqueIds(l) ==> UniqueIds(r)
  {
    if IsInList(l, item.id) then
      var r := RemoveFromList(l, item.id);
      assert UniqueIds(l) ==> UniqueIds(r) by {
        if UniqueIds(l) {
          var k :| 0 <= k < |l| && l[k].id == item.id;
          RemoveFromUnique(l, k);
          assert r == l[..k] + l[k + 1..];
          forall i, j | 0 <= i < j < |r| ensures r[i].id != r[j].id {
            var i' := if i < k then i else i + 1;
            var j' := if j < k then j else j + 1;
            assert r[i] == l[i'] && r[j] == l[j'];
          }
        }
      }
      r
    else AddToList(l, item)
  }

  /** Toggling a title that is not on the list twice restores the list. */
  lemma ToggleTwiceRestores(l: seq<Item>, item: Item)
    requires !IsInList(l, item.id)
    ensures ToggleInList(ToggleInList(l, item), item) == l
  {
    var once := ToggleInList(l, item);
    assert once == l + [item];
    RemoveAppend(l, [item], item.id);
    RemoveAbsent(l, item.id);
    assert RemoveFromList([item], item.id) == [];
  }

  /** Toggling a title that is on a duplicate-free list twice moves it to the
      end of the list and changes nothing else. */
  lemma ToggleTwiceMovesToEnd(l: seq<Item>, k: nat)
    requires UniqueIds(l) && k < |l|
    ensures ToggleInList(ToggleInList(l, l[k]), l[k]) == l[..k] + l[k + 1..] + [l[k]]
  {
    assert IsInList(l, l[k].id);
    RemoveFromUnique(l, k);
  }
}
