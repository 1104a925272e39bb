/** The session order store: the two sessionStorage keys (`orders` and
    `lastOrderNumber`) and the event handlers that read and write them. */
module Session {
  import opened Orders
  import opened Ingredient

  datatype Option<T> = None | Some(value: T)

  /** What the `orders` key holds: nothing, text that does not parse as an
      order list, or an order list. */
  datatype OrdersSlot = Absent | Malformed | Stored(orders: seq<Order>)

  /** The outcome of fetchMealsByIngredient for the normalized token. */
  datatype Lookup =
    | Meals(names: seq<string>)  // `data.meals` is an array; the `strMeal` of each meal
    | NoMeals                    // `data.meals` is null or missing
    | Failed                     // the request failed or the response was not ok

  /** The feedback the order form shows. */
  datatype CreateOutcome =
    | BlankInput              // "Please enter an ingredient."
    | NoMatch(query: string)  // "No meals found for <query>."
    | RemoteError             // "Could not reach TheMealDB right now."
    | Created(order: Order)   // "Order #n created."

  /** The feedback the completion form shows. */
  datatype CompleteOutcome =
    | NotANumber                    // "Please enter a valid number."
    | NoneCompleted                 // "No order was completed."
    | NoSuchOrder(num: int)         // "Order #num does not exist."
    | MarkedCompleted(order: Order) // "Order #num marked as completed."

  /** The random draw of pickRandomMeal, `Math.floor(Math.random() * n)`:
      below `n`, and 0 when there are no meals. */
  predicate ValidPick(lookup: Lookup, pick: nat)
    ensures ValidPick(lookup, pick) && lookup.Meals? && lookup.names != [] ==> pick < |lookup.names|
  {
    lookup.Meals? ==> pick < |lookup.names| || pick == 0
  }

  /** pickRandomMeal: the meal at the drawn index, or nothing (`undefined`)
      when the array is empty. */
  function PickMeal(names: seq<string>, pick: nat): (m: Option<string>)
    requires pick < |names| || pick == 0
    ensures m.Some? <==> names != []
    ensures m.Some? ==> m.value in names
  {
    if pick < |names| then Some(names[pick]) else None
  }

  class SessionStore {
    var ordersSlot: OrdersSlot
    /** The `lastOrderNumber` key; a missing key reads as 0. */
    var lastOrderNumber: int

    /** A new tab: both keys missing. */
    constructor ()
      ensures ordersSlot == Absent && lastOrderNumber == 0
      ensures Valid()
    {
      ordersSlot := Absent;
      lastOrderNumber := 0;
    }

    /** A tab whose storage already holds something. */
    constructor Restore(slot: OrdersSlot, last: int)
      ensures ordersSlot == slot && lastOrderNumber == last
    {
      ordersSlot := slot;
      lastOrderNumber := last;
    }

    /** getOrders: the stored list; a missing or malformed key reads as the
        empty list. */
    function GetOrders(): (r: seq<Order>)
      reads this
      ensures ordersSlot.Stored? ==> r == ordersSlot.orders
      ensures !ordersSlot.Stored? ==> r == []
    {
      if ordersSlot.Stored? then ordersSlot.orders else []
    }

    /** The numbering invariant: the mark is a non-negative bound on every
        stored order number, and the numbers strictly increase in insertion
        order (so they are unique). */
    ghost predicate Valid()
      reads this
      ensures Valid() ==> Distinct(GetOrders())
    {
      0 <= lastOrderNumber && AllAtMost(GetOrders(), lastOrderNumber) && Increasing(GetOrders())
    }

    /** setOrders: store the list and raise the mark to the largest stored
        order number, never lowering it. */
    method SetOrders(orders: seq<Order>)
      modifies this
      ensures ordersSlot == Stored(orders) && GetOrders() == orders
      ensures lastOrderNumber == Max(old(lastOrderNumber), MaxOrderNumber(orders))
      ensures old(lastOrderNumber) <= lastOrderNumber
      ensures AllAtMost(orders, lastOrderNumber)
    {
      ordersSlot := Stored(orders);
      var last := MaxOrderNumber(orders);
      var storedLast := lastOrderNumber;
      if last > storedLast {
        lastOrderNumber := last;
      }
    }

    /** getNextOrderNumber: one more than the larger of the order count and
        the mark, which becomes the new mark. */
    method GetNextOrderNumber() returns (next: int)
      modifies this
      ensures next == Max(|old(GetOrders())| + 1, old(lastOrderNumber) + 1)
      ensures next > old(lastOrderNumber) && next > |old(GetOrders())| && next >= 1
      ensures lastOrderNumber == next && ordersSlot == old(ordersSlot)
      ensures old(Valid()) ==> Valid() && forall i :: 0 <= i < |GetOrders()| ==> GetOrders()[i].orderNumber < next
    {
      var orders := GetOrders();
      var countBased := |orders| + 1;
      var lastStored := lastOrderNumber + 1;
      next := Max(countBased, lastStored);
      lastOrderNumber := next;
    }

    /** The success path of the order form: number the order, append it as
        incomplete to the list read back from storage, and store the list. */
    method PlaceOrder(description: string) returns (order: Order)
      modifies this
      ensures order.orderNumber == Max(|old(GetOrders())| + 1, old(lastOrderNumber) + 1)
      ensures order.description == description && order.status == Incomplete
      ensures ordersSlot == Stored(old(GetOrders()) + [order])
      ensures lastOrderNumber == Max(order.orderNumber, MaxOrderNumber(old(GetOrders()) + [order]))
      ensures old(Valid()) ==> Valid() && lastOrderNumber == order.orderNumber
      ensures old(Valid()) ==> forall i :: 0 <= i < |old(GetOrders())| ==> old(GetOrders())[i].orderNumber < order.orderNumber
    {
      var number := GetNextOrderNumber();
      order := Order(number, description, Incomplete);
      var orders := GetOrders();
      orders := orders + [order];
      SetOrders(orders);
      if old(Valid()) {
        AppendAboveMark(old(GetOrders()), old(lastOrderNumber), order);
        MaxOrderNumberBelowMark(orders, number);
      }
    }

    /** The order form's submit handler, with an empty `meals` array treated
        like no meals at all. */
    method CreateOrder(raw: string, lookup: Lookup, pick: nat) returns (outcome: CreateOutcome)
      requires ValidPick(lookup, pick)
      modifies this
      ensures IsBlank(raw) ==> outcome == BlankInput
      ensures !IsBlank(raw) && lookup == Failed ==> outcome == RemoteError
      ensures !IsBlank(raw) && (lookup == NoMeals || lookup == Meals([])) ==> outcome == NoMatch(Normalize(raw))
      ensures outcome.Created? <==> !IsBlank(raw) && lookup.Meals? && lookup.names != []
      ensures !outcome.Created? ==> ordersSlot == old(ordersSlot) && lastOrderNumber == old(lastOrderNumber)
      ensures outcome.Created? ==>
        && outcome.order == Order(Max(|old(GetOrders())| + 1, old(lastOrderNumber) + 1), lookup.names[pick], Incomplete)
        && ordersSlot == Stored(old(GetOrders()) + [outcome.order])
        && lastOrderNumber == Max(outcome.order.orderNumber, MaxOrderNumber(GetOrders()))
      ensures old(Valid()) ==> Valid()
      ensures old(Valid()) && outcome.Created? ==>
        && lastOrderNumber == outcome.order.orderNumber
        && forall i :: 0 <= i < |old(GetOrders())| ==> old(GetOrders())[i].orderNumber < outcome.order.orderNumber
    {
      if IsBlank(raw) {
        return BlankInput;
      }
      var norm := Normalize(raw);
      match lookup
      case Failed =>
        outcome := RemoteError;
      case NoMeals =>
        outcome := NoMatch(norm);
      case Meals(names) =>
        if names == [] {
          outcome := NoMatch(norm);
        } else {
          var meal := PickMeal(names, pick);
          var order := PlaceOrder(meal.value);
          outcome := Created(order);
        }
    }

    /** The order form's submit handler as the source has it: an empty
        `meals` array passes the `!data.meals` test, the order number is drawn
        while the order record is built, and reading `strMeal` of the missing
        meal throws, which the handler reports as a connection failure. */
    method CreateOrderAsWritten(raw: string, lookup: Lookup, pick: nat) returns (outcome: CreateOutcome)
      requires ValidPick(lookup, pick)
      modifies this
      ensures IsBlank(raw) ==> outcome == BlankInput
      ensures !IsBlank(raw) && lookup == Failed ==> outcome == RemoteError
      ensures !IsBlank(raw) && lookup == NoMeals ==> outcome == NoMatch(Normalize(raw))
      ensures !IsBlank(raw) && lookup == Meals([]) ==>
        && outcome == RemoteError
        && ordersSlot == old(ordersSlot)
        && lastOrderNumber == Max(|old(GetOrders())| + 1, old(lastOrderNumber) + 1)
      ensures outcome.Created? <==> !IsBlank(raw) && lookup.Meals? && lookup.names != []
      ensures !outcome.Created? && (IsBlank(raw) || lookup != Meals([])) ==> ordersSlot == old(ordersSlot) && lastOrderNumber == old(lastOrderNumber)
      ensures outcome.Created? ==>
        && outcome.order == Order(Max(|old(GetOrders())| + 1, old(lastOrderNumber) + 1), lookup.names[pick], Incomplete)
        && ordersSlot == Stored(old(GetOrders()) + [outcome.order])
        && lastOrderNumber == Max(outcome.order.orderNumber, MaxOrderNumber(GetOrders()))
      ensures old(Valid()) ==> Valid()
      ensures old(Valid()) && outcome.Created? ==>
        && lastOrderNumber == outcome.order.orderNumber
        && forall i :: 0 <= i < |old(GetOrders())| ==> old(GetOrders())[i].orderNumber < outcome.order.orderNumber
    {
      if IsBlank(raw) {
        return BlankInput;
      }
      var norm := Normalize(raw);
      match lookup
      case Failed =>
        outcome := RemoteError;
      case NoMeals =>
        outcome := NoMatch(norm);
      case Meals(names) =>
        var meal := PickMeal(names, pick);
        if meal.None? {
          var _ := GetNextOrderNumber();
          outcome := RemoteError;
        } else {
          var order := PlaceOrder(meal.value);
          outcome := Created(order);
        }
    }

    /** The completion form's submit handler; `input` is the parsed number,
        `None` standing for NaN. */
    method CompleteOrder(input: Option<int>) returns (outcome: CompleteOutcome)
      modifies this
      ensures input == None ==> outcome == NotANumber
      ensures input == Some(0) ==> outcome == NoneCompleted
      ensures input.Some? && input.value != 0 && FindIndex(old(GetOrders()), input.value) == -1 ==>
        outcome == NoSuchOrder(input.value)
      ensures !outcome.MarkedCompleted? ==> ordersSlot == old(ordersSlot) && lastOrderNumber == old(lastOrderNumber)
      ensures outcome.MarkedCompleted? <==>
        input.Some? && input.value != 0 && FindIndex(old(GetOrders()), input.value) != -1
      ensures outcome.MarkedCompleted? ==>
        && outcome.order.orderNumber == input.value
        && outcome.order.status == Completed
        && outcome.order.description == old(GetOrders())[FindIndex(old(GetOrders()), input.value)].description
        && ordersSlot == Stored(MarkFirstCompleted(old(GetOrders()), input.value))
        && lastOrderNumber == Max(old(lastOrderNumber), MaxOrderNumber(old(GetOrders())))
      ensures old(Valid()) ==> Valid() && lastOrderNumber == old(lastOrderNumber)
    {
      if input.None? {
        return NotANumber;
      }
      var num := input.value;
      if num == 0 {
        return NoneCompleted;
      }
      var orders := GetOrders();
      var idx := FindIndex(orders, num);
      if idx == -1 {
        return NoSuchOrder(num);
      }
      orders := orders[idx := orders[idx].(status := Completed)];
      assert orders == MarkFirstCompleted(old(GetOrders()), num);
      MarkFirstCompletedEffect(old(GetOrders()), num);
      MaxOrderNumberByNumbers(orders, old(GetOrders()));
      SameNumbersKeepInvariants(orders, old(GetOrders()), old(lastOrderNumber));
      SetOrders(orders);
      outcome := MarkedCompleted(orders[idx]);
    }

    /** The clear-all button, once confirmed: remove both keys. */
    method ClearAll()
      modifies this
      ensures ordersSlot == Absent && lastOrderNumber == 0
      ensures GetOrders() == [] && Valid()
    {
      ordersSlot := Absent;
      lastOrderNumber := 0;
    }
  }

  // -----------------------------------------------------------------------
  // Sessions driven through the handlers

  /** The first order of a new tab gets number 1 and status incomplete. */
  method FirstOrderOfSession(raw: string, names: seq<string>, pick: nat) returns (outcome: CreateOutcome, orders: seq<Order>)
    requires !IsBlank(raw) && pick < |names|
    ensures outcome == Created(Order(1, names[pick], Incomplete))
    ensures orders == [Order(1, names[pick], Incomplete)]
  {
    var store := new SessionStore();
    outcome := store.CreateOrder(raw, Meals(names), pick);
    orders := store.GetOrders();
  }

  /** Blank input is refused before any lookup and stores nothing. */
  method BlankInputLeavesStoreEmpty(raw: string, lookup: Lookup, pick: nat) returns (outcome: CreateOutcome, orders: seq<Order>, mark: int)
    requires IsBlank(raw) && ValidPick(lookup, pick)
    ensures outcome == BlankInput && orders == [] && mark == 0
  {
    var store := new SessionStore();
    outcome := store.CreateOrder(raw, lookup, pick);
    orders, mark := store.GetOrders(), store.lastOrderNumber;
  }

  /** A lookup without meals reports the normalized token and stores nothing. */
  method NoMealsLeavesStoreEmpty(raw: string) returns (outcome: CreateOutcome, orders: seq<Order>, mark: int)
    requires !IsBlank(raw)
    ensures outcome == NoMatch(Normalize(raw)) && Normalize(raw) != []
    ensures orders == [] && mark == 0
  {
    var store := new SessionStore();
    outcome := store.CreateOrder(raw, NoMeals, 0);
    orders, mark := store.GetOrders(), store.lastOrderNumber;
  }

  /** Two stored orders, then completing #2: only order #2 becomes
      completed and the mark stays at 2. */
  method CompleteSecondOfTwo(meal1: string, meal2: string) returns (outcome: CompleteOutcome, orders: seq<Order>, mark: int)
    ensures outcome == MarkedCompleted(Order(2, meal2, Completed))
    ensures orders == [Order(1, meal1, Incomplete), Order(2, meal2, Completed)]
    ensures mark == 2
  {
    var before := [Order(1, meal1, Incomplete), Order(2, meal2, Incomplete)];
    var store := new SessionStore.Restore(Stored(before), 2);
    FindIndexIncreasing(before, 1);
    outcome := store.CompleteOrder(Some(2));
    orders, mark := store.GetOrders(), store.lastOrderNumber;
    assert orders == MarkFirstCompleted(before, 2) == before[1 := before[1].(status := Completed)];
  }

  /** Completing an order twice reports success both times and leaves the
      list as the first completion did. */
  method CompleteTwice(meal: string) returns (first: CompleteOutcome, second: CompleteOutcome, orders: seq<Order>)
    ensures first == second == MarkedCompleted(Order(1, meal, Completed))
    ensures orders == [Order(1, meal, Completed)]
  {
    var before := [Order(1, meal, Incomplete)];
    var store := new SessionStore.Restore(Stored(before), 1);
    FindIndexIncreasing(before, 0);
    first := store.CompleteOrder(Some(1));
    ghost var middle := store.GetOrders();
    assert middle == MarkFirstCompleted(before, 1) == [Order(1, meal, Completed)];
    FindIndexIncreasing(middle, 0);
    MarkFirstCompletedAlreadyCompleted(middle, 1);
    second := store.CompleteOrder(Some(1));
    orders := store.GetOrders();
  }

  /** Whatever the tab held, after clearing the list is empty and the next
      order is number 1. */
  method ClearRestartsNumbering(slot: OrdersSlot, last: int, raw: string, meal: string)
    returns (cleared: seq<Order>, after: CreateOutcome, orders: seq<Order>)
    requires !IsBlank(raw)
    ensures cleared == []
    ensures after == Created(Order(1, meal, Incomplete))
    ensures orders == [Order(1, meal, Incomplete)]
  {
    var store := new SessionStore.Restore(slot, last);
    store.ClearAll();
    cleared := store.GetOrders();
    after := store.CreateOrder(raw, Meals([meal]), 0);
    orders := store.GetOrders();
  }

  /** As written, an empty `meals` array uses up order number 1 and reports
      a connection failure, though no order is stored. */
  method EmptyMealsAsWritten(raw: string) returns (outcome: CreateOutcome, orders: seq<Order>, mark: int)
    requires !IsBlank(raw)
    ensures outcome == RemoteError && orders == [] && mark == 1
  {
    var store := new SessionStore();
    outcome := store.CreateOrderAsWritten(raw, Meals([]), 0);
    orders, mark := store.GetOrders(), store.lastOrderNumber;
  }

  /** With the empty array treated as no meals, nothing is stored or used up. */
  method EmptyMealsCorrected(raw: string) returns (outcome: CreateOutcome, orders: seq<Order>, mark: int)
    requires !IsBlank(raw)
    ensures outcome == NoMatch(Normalize(raw)) && orders == [] && mark == 0
  {
    var store := new SessionStore();
    outcome := store.CreateOrder(raw, Meals([]), 0);
    orders, mark := store.GetOrders(), store.lastOrderNumber;
  }
}
