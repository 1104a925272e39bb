/** The order record kept in session storage and the pure list operations
    the handlers and the two renderers apply to a list of orders. */
module Orders {

  datatype Status = Incomplete | Completed

  datatype Order = Order(orderNumber: int, description: string, status: Status)

  function Max(a: int, b: int): int { if a < b then b else a }

  /** The reduction in setOrders: a left fold of `max` over the order
      numbers, starting from 0 (`o.orderNumber || 0` is the number itself
      for every integer). */
  function MaxOrderNumber(orders: seq<Order>): (m: int)
    ensures 0 <= m
    ensures forall i :: 0 <= i < |orders| ==> orders[i].orderNumber <= m
    ensures m == 0 || exists i :: 0 <= i < |orders| && orders[i].orderNumber == m
  {
    if orders == [] then 0
    else
      var init := orders[..|orders| - 1];
      var m := Max(MaxOrderNumber(init), orders[|orders| - 1].orderNumber);
      assert forall i :: 0 <= i < |init| ==> init[i] == orders[i];
      m
  }

  /** Every order number in the list is at most `mark`. */
  predicate AllAtMost(orders: seq<Order>, mark: int)
  {
    forall i :: 0 <= i < |orders| ==> orders[i].orderNumber <= mark
  }

  /** Order numbers strictly increase in insertion order. */
  predicate Increasing(orders: seq<Order>)
  {
    forall i, j :: 0 <= i < j < |orders| ==> orders[i].orderNumber < orders[j].orderNumber
  }

  /** No order number occurs twice. */
  predicate Distinct(orders: seq<Order>)
  {
    forall i, j :: 0 <= i < |orders| && 0 <= j < |orders| && i != j ==>
      orders[i].orderNumber != orders[j].orderNumber
  }

  /** The order numbers of a list, in order. */
  function Numbers(orders: seq<Order>): seq<int>
  {
    seq(|orders|, i requires 0 <= i < |orders| => orders[i].orderNumber)
  }

  /** `Array.prototype.findIndex` with `o.orderNumber === num`: the first
      position holding `num`, or -1 when there is none. */
  function FindIndex(orders: seq<Order>, num: int): (r: int)
    ensures -1 <= r < |orders|
    ensures r == -1 <==> forall i :: 0 <= i < |orders| ==> orders[i].orderNumber != num
    ensures 0 <= r ==> orders[r].orderNumber == num
    ensures 0 <= r ==> forall i :: 0 <= i < r ==> orders[i].orderNumber != num
  {
    if orders == [] then -1
    else if orders[0].orderNumber == num then 0
    else
      var r := FindIndex(orders[1..], num);
      if r == -1 then -1 else r + 1
  }

  /** In a strictly increasing list every number is found at its own position. */
  lemma FindIndexIncreasing(orders: seq<Order>, i: int)
    requires Increasing(orders) && 0 <= i < |orders|
    ensures FindIndex(orders, orders[i].orderNumber) == i
  {
  }

  /** The completion handler's effect on the list it read: the first entry
      numbered `num`, if any, gets status `Completed`. */
  function MarkFirstCompleted(orders: seq<Order>, num: int): (r: seq<Order>)
    ensures |r| == |orders|
    ensures forall i :: 0 <= i < |r| ==>
      r[i].orderNumber == orders[i].orderNumber && r[i].description == orders[i].description
    ensures (forall i :: 0 <= i < |orders| ==> orders[i].orderNumber != num) ==> r == orders
  {
    var i := FindIndex(orders, num);
    if i < 0 then orders else orders[i := orders[i].(status := Completed)]
  }

  /** The `filter(o => o.status === s)` of the two renderers. */
  function WithStatus(orders: seq<Order>, s: Status): (r: seq<Order>)
    ensures |r| <= |orders|
    ensures forall i :: 0 <= i < |r| ==> r[i].status == s
  {
    if orders == [] then []
    else (if orders[0].status == s then [orders[0]] else []) + WithStatus(orders[1..], s)
  }

  /** What renderIncompleteOrders lists. */
  function IncompleteOrders(orders: seq<Order>): (r: seq<Order>)
    ensures |r| <= |orders|
    ensures forall i :: 0 <= i < |r| ==> r[i].status == Incomplete
  {
    WithStatus(orders, Incomplete)
  }

  /** What renderCompletedOrders lists. */
  function CompletedOrders(orders: seq<Order>): (r: seq<Order>)
    ensures |r| <= |orders|
    ensures forall i :: 0 <= i < |r| ==> r[i].status == Completed
  {
    WithStatus(orders, Completed)
  }

  // ---------------------------------------------------------------------
  // The high-water mark fold

  /** Folding one more order in raises the maximum to that order's number
      when it is larger (the order in which the fold runs). */
  lemma MaxOrderNumberAppend(orders: seq<Order>, o: Order)
    ensures MaxOrderNumber(orders + [o]) == Max(MaxOrderNumber(orders), o.orderNumber)
  {
    assert (orders + [o])[..|orders|] == orders;
  }

  /** The maximum depends on the order numbers alone. */
  lemma {:induction false} MaxOrderNumberByNumbers(a: seq<Order>, b: seq<Order>)
    requires Numbers(a) == Numbers(b)
    ensures MaxOrderNumber(a) == MaxOrderNumber(b)
  {
    assert |a| == |Numbers(a)| == |b|;
    if a != [] {
      var n := |a| - 1;
      assert Numbers(a[..n]) == Numbers(b[..n]) by {
        forall i | 0 <= i < n ensures Numbers(a[..n])[i] == Numbers(b[..n])[i] {
          assert Numbers(a)[i] == Numbers(b)[i];
        }
      }
      MaxOrderNumberByNumbers(a[..n], b[..n]);
      assert Numbers(a)[n] == Numbers(b)[n];
    }
  }

  /** When the list's numbers are all at most `mark` and `mark` is not
      negative, raising the mark to the list's maximum leaves it alone. */
  lemma MaxOrderNumberBelowMark(orders: seq<Order>, mark: int)
    requires 0 <= mark && AllAtMost(orders, mark)
    ensures Max(mark, MaxOrderNumber(orders)) == mark
  {
  }

  // ---------------------------------------------------------------------
  // Numbering invariants

  /** Strictly increasing numbers are unique numbers. */
  lemma IncreasingIsDistinct(orders: seq<Order>)
    requires Increasing(orders)
    ensures Distinct(orders)
  {
  }

  /** Appending an order whose number exceeds a bound on all earlier numbers
      keeps the list strictly increasing and keeps the bound (now the new
      number) over the whole list. */
  lemma AppendAboveMark(orders: seq<Order>, mark: int, o: Order)
    requires Increasing(orders) && AllAtMost(orders, mark) && mark < o.orderNumber
    ensures Increasing(orders + [o])
    ensures AllAtMost(orders + [o], o.orderNumber)
    ensures forall i :: 0 <= i < |orders| ==> orders[i].orderNumber != o.orderNumber
  {
  }

  /** Lists with the same numbers are increasing, or bounded, together. */
  lemma SameNumbersKeepInvariants(a: seq<Order>, b: seq<Order>, mark: int)
    requires Numbers(a) == Numbers(b)
    ensures Increasing(a) <==> Increasing(b)
    ensures AllAtMost(a, mark) <==> AllAtMost(b, mark)
  {
    assert |a| == |Numbers(a)| == |b|;
    assert forall i :: 0 <= i < |a| ==> a[i].orderNumber == Numbers(a)[i] == Numbers(b)[i] == b[i].orderNumber;
  }

  // ---------------------------------------------------------------------
  // Completion

  /** Completion keeps the length, every number and every description, makes
      the first entry numbered `num` completed, and changes no other entry. */
  lemma MarkFirstCompletedEffect(orders: seq<Order>, num: int)
    ensures var r := MarkFirstCompleted(orders, num);
      && |r| == |orders|
      && Numbers(r) == Numbers(orders)
      && (forall i :: 0 <= i < |r| ==> r[i].description == orders[i].description)
      && (forall i :: 0 <= i < |r| && orders[i].orderNumber != num ==> r[i] == orders[i])
      && (forall i :: 0 <= i < |r| && r[i] != orders[i] ==> i == FindIndex(orders, num))
      && ((exists i :: 0 <= i < |orders| && orders[i].orderNumber == num) ==>
            r[FindIndex(orders, num)].status == Completed)
  {
    var r := MarkFirstCompleted(orders, num);
    assert |r| == |orders|;
    assert forall i :: 0 <= i < |r| ==> Numbers(r)[i] == Numbers(orders)[i];
  }

  /** Completion changes at most one entry. */
  lemma MarkFirstCompletedChangesAtMostOne(orders: seq<Order>, num: int, i: int, j: int)
    requires 0 <= i < |orders| && 0 <= j < |orders|
    requires MarkFirstCompleted(orders, num)[i] != orders[i]
    requires MarkFirstCompleted(orders, num)[j] != orders[j]
    ensures i == j
  {
  }

  /** Completion never turns a completed order back into an incomplete one. */
  lemma MarkFirstCompletedNeverReopens(orders: seq<Order>, num: int, i: int)
    requires 0 <= i < |orders| && orders[i].status == Completed
    ensures MarkFirstCompleted(orders, num)[i].status == Completed
  {
  }

  /** Completing the same number twice has the effect of completing it once. */
  lemma MarkFirstCompletedIdempotent(orders: seq<Order>, num: int)
    ensures MarkFirstCompleted(MarkFirstCompleted(orders, num), num) == MarkFirstCompleted(orders, num)
  {
    MarkFirstCompletedEffect(orders, num);
    var r := MarkFirstCompleted(orders, num);
    assert forall i :: 0 <= i < |r| ==> r[i].orderNumber == Numbers(r)[i] == Numbers(orders)[i] == orders[i].orderNumber;
    assert FindIndex(r, num) == FindIndex(orders, num);
  }

  /** Re-completing an already completed order leaves the list as it was. */
  lemma MarkFirstCompletedAlreadyCompleted(orders: seq<Order>, num: int)
    requires 0 <= FindIndex(orders, num) && orders[FindIndex(orders, num)].status == Completed
    ensures MarkFirstCompleted(orders, num) == orders
  {
  }

  // ---------------------------------------------------------------------
  // The status filters

  /** Filtering distributes over concatenation: it keeps insertion order. */
  lemma {:induction false} WithStatusAppend(a: seq<Order>, b: seq<Order>, s: Status)
    ensures WithStatus(a + b, s) == WithStatus(a, s) + WithStatus(b, s)
  {
    if a == [] {
      assert a + b == b;
    } else {
      assert (a + b)[0] == a[0];
      assert (a + b)[1..] == a[1..] + b;
      WithStatusAppend(a[1..], b, s);
    }
  }

  /** An order is listed by the `s` filter exactly when it is in the list and has status `s`. */
  lemma {:induction false} WithStatusMembership(orders: seq<Order>, s: Status, o: Order)
    ensures o in WithStatus(orders, s) <==> o in orders && o.status == s
  {
    if orders != [] {
      WithStatusMembership(orders[1..], s, o);
      assert orders == [orders[0]] + orders[1..];
    }
  }

  lemma {:induction false} WithStatusSplit(orders: seq<Order>)
    ensures |WithStatus(orders, Incomplete)| + |WithStatus(orders, Completed)| == |orders|
    ensures multiset(WithStatus(orders, Incomplete)) + multiset(WithStatus(orders, Completed)) == multiset(orders)
  {
    if orders != [] {
      WithStatusSplit(orders[1..]);
      assert orders == [orders[0]] + orders[1..];
    }
  }

  /** The incomplete and the completed lists together hold every order
      exactly once. */
  lemma StatusSplit(orders: seq<Order>)
    ensures |IncompleteOrders(orders)| + |CompletedOrders(orders)| == |orders|
    ensures multiset(IncompleteOrders(orders)) + multiset(CompletedOrders(orders)) == multiset(orders)
  {
    WithStatusSplit(orders);
  }

  /** A newly appended incomplete order goes to the end of the incomplete
      list; the completed list does not change. */
  lemma AppendIncomplete(orders: seq<Order>, o: Order)
    requires o.status == Incomplete
    ensures IncompleteOrders(orders + [o]) == IncompleteOrders(orders) + [o]
    ensures CompletedOrders(orders + [o]) == CompletedOrders(orders)
  {
    WithStatusAppend(orders, [o], Incomplete);
    WithStatusAppend(orders, [o], Completed);
    assert WithStatus([o], Incomplete) == [o] by { assert [o][1..] == []; }
    assert WithStatus([o], Completed) == [] by { assert [o][1..] == []; }
  }
}
