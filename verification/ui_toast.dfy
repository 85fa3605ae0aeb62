/**
 * UiToastService: the front end's list of toast messages. Each message shown
 * gets the next value of a counter that starts at 1, so the ids in the list
 * are increasing and never repeat; removing a message filters it out by id.
 */
module UiToast {
  import opened Wrappers

  datatype Variant = Success | Danger | Warning | Info

  /** UiToastMessage. */
  datatype ToastMessage = ToastMessage(id: nat, text: string, variant: Variant)

  /** The ids of the list rise strictly from front to back. */
  predicate IdsIncreasing(items: seq<ToastMessage>) {
    forall i, j :: 0 <= i < j < |items| ==> items[i].id < items[j].id
  }

  /** `items.filter((item) => item.id !== id)`. */
  function WithoutId(items: seq<ToastMessage>, id: nat): (r: seq<ToastMessage>)
    ensures |r| <= |items|
    ensures forall m :: m in r <==> m in items && m.id != id
  {
    if items == [] then []
    else
      var rest := WithoutId(items[1..], id);
      assert items == [items[0]] + items[1..];
      if items[0].id != id then [items[0]] + rest else rest
  }

  /** The tail of an increasing list is increasing, and its ids are above the head's. */
  lemma TailIncreasing(items: seq<ToastMessage>)
    requires IdsIncreasing(items) && items != []
    ensures IdsIncreasing(items[1..])
    ensures forall k :: 0 <= k < |items| - 1 ==> items[0].id < items[1..][k].id
  {
    var tail := items[1..];
    forall i, j | 0 <= i < j < |tail| ensures tail[i].id < tail[j].id {
      assert tail[i] == items[i + 1] && tail[j] == items[j + 1];
    }
    forall k | 0 <= k < |tail| ensures items[0].id < tail[k].id {
      assert tail[k] == items[k + 1];
    }
  }

  /** A head below every id of an increasing list makes an increasing list. */
  lemma ConsIncreasing(first: ToastMessage, rest: seq<ToastMessage>)
    requires IdsIncreasing(rest) && forall k :: 0 <= k < |rest| ==> first.id < rest[k].id
    ensures IdsIncreasing([first] + rest)
  {
    var r := [first] + rest;
    forall i, j | 0 <= i < j < |r| ensures r[i].id < r[j].id {
      assert r[j] == rest[j - 1];
      if 0 < i {
        assert r[i] == rest[i - 1];
      }
    }
  }

  /** Filtering an increasing list whose ids are above `lo` leaves an increasing list whose ids are above `lo`. */
  lemma {:induction false} WithoutIdAbove(items: seq<ToastMessage>, id: nat, lo: int)
    requires IdsIncreasing(items) && forall k :: 0 <= k < |items| ==> lo < items[k].id
    ensures IdsIncreasing(WithoutId(items, id))
    ensures forall k :: 0 <= k < |WithoutId(items, id)| ==> lo < WithoutId(items, id)[k].id
  {
    if items != [] {
      TailIncreasing(items);
      WithoutIdAbove(items[1..], id, items[0].id);
      if items[0].id != id {
        ConsIncreasing(items[0], WithoutId(items[1..], id));
      }
    }
  }

  /** Filtering keeps the survivors in their order, so an increasing list stays increasing. */
  lemma WithoutIdKeepsOrder(items: seq<ToastMessage>, id: nat)
    requires IdsIncreasing(items)
    ensures IdsIncreasing(WithoutId(items, id))
  {
    WithoutIdAbove(items, id, -1);
  }

  /** Removing an id no message carries changes nothing. */
  lemma {:induction false} WithoutAbsentId(items: seq<ToastMessage>, id: nat)
    requires forall i :: 0 <= i < |items| ==> items[i].id != id
    ensures WithoutId(items, id) == items
  {
    if items != [] {
      WithoutAbsentId(items[1..], id);
      assert items == [items[0]] + items[1..];
    }
  }

  /** Removing the same id twice is removing it once. */
  lemma WithoutIdIdempotent(items: seq<ToastMessage>, id: nat)
    ensures WithoutId(WithoutId(items, id), id) == WithoutId(items, id)
  {
    var once := WithoutId(items, id);
    forall i | 0 <= i < |once| ensures once[i].id != id {
      assert once[i] in once;
    }
    WithoutAbsentId(once, id);
  }

  class UiToastService {
    var messages: seq<ToastMessage>
    var idCounter: nat

    /** The counter starts at 1 and stays above every id in the list, whose ids rise. */
    predicate Valid()
      reads this
    {
      && 1 <= idCounter
      && IdsIncreasing(messages)
      && forall i :: 0 <= i < |messages| ==> messages[i].id < idCounter
    }

    constructor ()
      ensures Valid()
      ensures messages == [] && idCounter == 1
    {
      messages := [];
      idCounter := 1;
    }

    /** show(text, variant = 'info'): one message with the next id is appended at the end. */
    method Show(text: string, variant: Option<Variant>)
      requires Valid()
      modifies this
      ensures Valid()
      ensures messages == old(messages) + [ToastMessage(old(idCounter), text, variant.GetOr(Info))]
      ensures idCounter == old(idCounter) + 1
      ensures forall i :: 0 <= i < |old(messages)| ==> messages[i].id != old(idCounter)
    {
      var id := idCounter;
      idCounter := idCounter + 1;
      messages := messages + [ToastMessage(id, text, variant.GetOr(Info))];
    }

    /** remove(id): the messages with that id leave the list; the others stay, in order. */
    method Remove(id: nat)
      requires Valid()
      modifies this
      ensures Valid()
      ensures messages == WithoutId(old(messages), id)
      ensures idCounter == old(idCounter)
      ensures forall m :: m in messages <==> m in old(messages) && m.id != id
      ensures (forall i :: 0 <= i < |old(messages)| ==> old(messages)[i].id != id) ==> messages == old(messages)
    {
      WithoutIdKeepsOrder(messages, id);
      if forall i :: 0 <= i < |messages| ==> messages[i].id != id {
        WithoutAbsentId(messages, id);
      }
      var kept := WithoutId(messages, id);
      forall i | 0 <= i < |kept| ensures kept[i].id < idCounter {
        assert kept[i] in messages;
      }
      messages := kept;
    }
  }
}
