/**
 * Properties relating the list operations of the shopping list to each
 * other: trimming is idempotent, add then remove by the new id restores the
 * list, increment then decrement is the identity, decrement is idempotent at
 * zero, totals move by the matching count, and no sequence of user actions
 * makes a quantity negative.
 */
module ShoppingProofs {
  import opened Shopping

  /** Trimming a trimmed string changes nothing. */
  lemma TrimIdempotent(s: string)
    ensures Trim(Trim(s)) == Trim(s)
  {
  }

  /** Sum of the quantities of a list. */
  function TotalQuantity(items: seq<Item>): (total: int)
  {
    if |items| == 0 then 0 else items[0].quantity + TotalQuantity(items[1..])
  }

  predicate AllNonNegative(items: seq<Item>)
  {
    forall i :: 0 <= i < |items| ==> 0 <= items[i].quantity
  }

  /** Removing by id distributes over concatenation. */
  lemma {:induction false} RemoveAppend(a: seq<Item>, b: seq<Item>, id: int)
    ensures Remove(a + b, id) == Remove(a, id) + Remove(b, id)
  {
    if |a| > 0 {
      assert (a + b)[1..] == a[1..] + b;
      RemoveAppend(a[1..], b, id);
    } else {
      assert a + b == b;
    }
  }

  /** Adding an item and then removing by its id gives the list with that id removed. */
  lemma AddThenRemove(items: seq<Item>, input: string, now: int)
    ensures Remove(AddItem(items, input, now), now) == Remove(items, now)
  {
    if !IsBlank(input) {
      var it := Item(now, Trim(input), 1);
      assert AddItem(items, input, now) == items + [it];
      RemoveAppend(items, [it], now);
      assert [it][1..] == [];
    }
  }

  /** When no item carried the new id, add then remove restores the list exactly. */
  lemma AddThenRemoveRestores(items: seq<Item>, input: string, now: int)
    requires forall i :: 0 <= i < |items| ==> items[i].id != now
    ensures Remove(AddItem(items, input, now), now) == items
  {
    AddThenRemove(items, input, now);
    RemoveAbsent(items, now);
  }

  /** Removing an id no item carries changes nothing. */
  lemma {:induction false} RemoveAbsent(items: seq<Item>, id: int)
    requires forall i :: 0 <= i < |items| ==> items[i].id != id
    ensures Remove(items, id) == items
  {
    if |items| > 0 {
      RemoveAbsent(items[1..], id);
    }
  }

  /** Removing twice by the same id is removing once. */
  lemma RemoveIdempotent(items: seq<Item>, id: int)
    ensures Remove(Remove(items, id), id) == Remove(items, id)
  {
  }

  /** On non-negative quantities, a decrement undoes an increment. */
  lemma IncrementThenDecrement(items: seq<Item>, id: int)
    requires AllNonNegative(items)
    ensures Decrement(Increment(items, id), id) == items
  {
    var r := Decrement(Increment(items, id), id);
    assert |r| == |items|;
    forall i | 0 <= i < |items|
      ensures r[i] == items[i]
    {
    }
  }

  /** A decrement of an id whose items all sit at zero changes nothing. */
  lemma DecrementIdempotentAtZero(items: seq<Item>, id: int)
    requires forall i :: 0 <= i < |items| && items[i].id == id ==> items[i].quantity == 0
    ensures Decrement(items, id) == items
  {
  }

  /** An increment raises the total by the number of matching items. */
  lemma {:induction false} IncrementTotal(items: seq<Item>, id: int)
    ensures TotalQuantity(Increment(items, id)) == TotalQuantity(items) + Count(items, id)
  {
    if |items| > 0 {
      IncrementTotal(items[1..], id);
      assert Increment(items, id)[1..] == Increment(items[1..], id);
    }
  }

  /** Number of matching items whose quantity is positive. */
  function CountPositive(items: seq<Item>, id: int): (n: nat)
  {
    if |items| == 0 then 0
    else (if items[0].id == id && items[0].quantity > 0 then 1 else 0) + CountPositive(items[1..], id)
  }

  /** On non-negative quantities, a decrement lowers the total by the matching items above zero. */
  lemma {:induction false} DecrementTotal(items: seq<Item>, id: int)
    requires AllNonNegative(items)
    ensures TotalQuantity(Decrement(items, id)) == TotalQuantity(items) - CountPositive(items, id)
  {
    if |items| > 0 {
      DecrementTotal(items[1..], id);
      assert Decrement(items, id)[1..] == Decrement(items[1..], id);
    }
  }

  /** A user action on the list. */
  datatype Action =
    | Add(input: string, now: int)
    | IncrementOf(id: int)
    | DecrementOf(id: int)
    | RemoveOf(id: int)
    | Clear

  function Apply(items: seq<Item>, a: Action): (r: seq<Item>)
  {
    match a
    case Add(input, now) => AddItem(items, input, now)
    case IncrementOf(id) => Increment(items, id)
    case DecrementOf(id) => Decrement(items, id)
    case RemoveOf(id) => Remove(items, id)
    case Clear => ClearAll()
  }

  /** The list after a sequence of actions, applied in order. */
  function ApplyAll(items: seq<Item>, acts: seq<Action>): (r: seq<Item>)
    decreases |acts|
  {
    if |acts| == 0 then items else ApplyAll(Apply(items, acts[0]), acts[1..])
  }

  /** Each operation keeps every quantity non-negative. */
  lemma ApplyKeepsNonNegative(items: seq<Item>, a: Action)
    requires AllNonNegative(items)
    ensures AllNonNegative(Apply(items, a))
  {
    match a {
      case Add(input, now) =>
      case IncrementOf(id) =>
      case DecrementOf(id) =>
      case RemoveOf(id) =>
        var r := Remove(items, id);
        forall i | 0 <= i < |r|
          ensures 0 <= r[i].quantity
        {
          SubsequenceMember(r, items, r[i]);
        }
      case Clear =>
    }
  }

  /** An element of a subsequence is an element of the whole. */
  lemma {:induction false} SubsequenceMember(a: seq<Item>, b: seq<Item>, x: Item)
    requires IsSubsequence(a, b)
    requires x in a
    ensures x in b
    decreases |b|
  {
    if a[0] == b[0] && IsSubsequence(a[1..], b[1..]) {
      if x != a[0] {
        assert x in a[1..];
        SubsequenceMember(a[1..], b[1..], x);
      }
    } else {
      SubsequenceMember(a, b[1..], x);
    }
  }

  /** From any list with non-negative quantities, no sequence of actions makes a quantity negative. */
  lemma {:induction false} NonNegativeAcrossActions(items: seq<Item>, acts: seq<Action>)
    requires AllNonNegative(items)
    ensures AllNonNegative(ApplyAll(items, acts))
    decreases |acts|
  {
    if |acts| > 0 {
      ApplyKeepsNonNegative(items, acts[0]);
      NonNegativeAcrossActions(Apply(items, acts[0]), acts[1..]);
    }
  }
}
