/**
 * The list operations of src/Shopping.jsx: each is a pure transformation of
 * the item list the component keeps in state.  The id of a new item is the
 * clock reading (`Date.now()`), passed in as a parameter; ids are not
 * assumed to be unique, since two adds in the same millisecond share one.
 */
module Shopping {

  /** One line of the list; `quantity` is a JavaScript number, kept as an integer. */
  datatype Item = Item(id: int, name: string, quantity: int)

  /**
   * The characters `String.prototype.trim` strips, restricted to a fixed
   * set: ASCII whitespace, no-break space, byte-order mark, the line and
   * paragraph separators and the ideographic space.
   */
  predicate IsSpace(c: char)
  {
    || c == ' ' || c == '\t' || c == '\n' || c == '\r'
    || c == '\U{000B}' || c == '\U{000C}' || c == '\U{00A0}' || c == '\U{FEFF}'
    || c == '\U{2028}' || c == '\U{2029}' || c == '\U{3000}'
  }

  /** A string made of whitespace only (the empty string included). */
  predicate IsBlank(s: string)
  {
    forall k :: 0 <= k < |s| ==> IsSpace(s[k])
  }

  /** Length of the whitespace prefix of `s`. */
  function LeadingSpaces(s: string): (n: nat)
    ensures n <= |s|
    ensures forall k :: 0 <= k < n ==> IsSpace(s[k])
    ensures n < |s| ==> !IsSpace(s[n])
  {
    if |s| == 0 || !IsSpace(s[0]) then 0 else 1 + LeadingSpaces(s[1..])
  }

  /** Length of the whitespace suffix of `s`. */
  function TrailingSpaces(s: string): (n: nat)
    ensures n <= |s|
    ensures forall k :: |s| - n <= k < |s| ==> IsSpace(s[k])
    ensures n < |s| ==> !IsSpace(s[|s| - n - 1])
  {
    if |s| == 0 || !IsSpace(s[|s| - 1]) then 0 else 1 + TrailingSpaces(s[..|s| - 1])
  }

  /**
   * `String.prototype.trim`: the slice of `s` left after the whitespace
   * prefix and suffix are removed.  The result is empty exactly when `s` is
   * blank, and otherwise starts and ends with a non-space.
   */
  function Trim(s: string): (t: string)
    ensures |t| <= |s|
    ensures t == [] <==> IsBlank(s)
    ensures t != [] ==> !IsSpace(t[0]) && !IsSpace(t[|t| - 1])
    ensures LeadingSpaces(s) + |t| <= |s| && t == s[LeadingSpaces(s)..LeadingSpaces(s) + |t|]
    ensures forall k :: LeadingSpaces(s) + |t| <= k < |s| ==> IsSpace(s[k])
  {
    var i := LeadingSpaces(s);
    var rest := s[i..];
    rest[..|rest| - TrailingSpaces(rest)]
  }

  /**
   * `addItem`: a name that trims to nothing leaves the list alone; any
   * other name is appended, trimmed, with quantity 1 and the clock reading
   * `now` as its id.
   */
  function AddItem(items: seq<Item>, input: string, now: int): (r: seq<Item>)
    ensures IsBlank(input) ==> r == items
    ensures !IsBlank(input) ==>
      && |r| == |items| + 1
      && r[..|items|] == items
      && r[|items|].id == now && r[|items|].quantity == 1
      && r[|items|].name != [] && r[|items|].name == Trim(input)
  {
    var name := Trim(input);
    if name == [] then items
    else items + [Item(now, name, 1)]
  }

  /** `incrementItem`: every item with the given id gains one unit. */
  function Increment(items: seq<Item>, id: int): (r: seq<Item>)
    ensures |r| == |items|
    ensures forall i :: 0 <= i < |items| ==> r[i].id == items[i].id && r[i].name == items[i].name
    ensures forall i :: 0 <= i < |items| ==>
      r[i].quantity == (if items[i].id == id then items[i].quantity + 1 else items[i].quantity)
  {
    if |items| == 0 then []
    else
      var it := items[0];
      [if it.id == id then it.(quantity := it.quantity + 1) else it] + Increment(items[1..], id)
  }

  /** `Math.max(0, q)` on integers. */
  function AtLeastZero(q: int): (r: int)
  {
    if q < 0 then 0 else q
  }

  /** `decrementItem`: every item with the given id loses one unit, never going below zero. */
  function Decrement(items: seq<Item>, id: int): (r: seq<Item>)
    ensures |r| == |items|
    ensures forall i :: 0 <= i < |items| ==> r[i].id == items[i].id && r[i].name == items[i].name
    ensures forall i :: 0 <= i < |items| && items[i].id == id ==>
      0 <= r[i].quantity && (0 < items[i].quantity ==> r[i].quantity == items[i].quantity - 1)
      && (items[i].quantity <= 0 ==> r[i].quantity == 0)
    ensures forall i :: 0 <= i < |items| && items[i].id != id ==> r[i] == items[i]
  {
    if |items| == 0 then []
    else
      var it := items[0];
      [if it.id == id then it.(quantity := AtLeastZero(it.quantity - 1)) else it] + Decrement(items[1..], id)
  }

  /** Number of items carrying the given id. */
  function Count(items: seq<Item>, id: int): (n: nat)
  {
    if |items| == 0 then 0
    else (if items[0].id == id then 1 else 0) + Count(items[1..], id)
  }

  /**
   * `a` is `b` with some elements left out, the rest kept in their
   * original relative order.
   */
  ghost predicate IsSubsequence<T>(a: seq<T>, b: seq<T>)
    decreases |b|
  {
    && |a| <= |b|
    && (|a| == 0 || (a[0] == b[0] && IsSubsequence(a[1..], b[1..])) || IsSubsequence(a, b[1..]))
  }

  /**
   * `removeItem`: every item with the given id goes; every other item
   * stays, in its original relative order.
   */
  function Remove(items: seq<Item>, id: int): (r: seq<Item>)
    ensures forall it :: it in r ==> it.id != id
    ensures forall it :: it in items && it.id != id ==> it in r
    ensures |r| == |items| - Count(items, id)
    ensures IsSubsequence(r, items)
  {
    if |items| == 0 then []
    else
      var rest := Remove(items[1..], id);
      if items[0].id == id then rest else [items[0]] + rest
  }

  /** `clearAllItems`: the list becomes empty. */
  function ClearAll(): (r: seq<Item>)
    ensures |r| == 0
  {
    []
  }
}
