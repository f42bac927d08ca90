/** The onboarding step machine: slides are completed strictly in slide order, and completing a
    slide again changes nothing. */
module Onboarding {
  import opened Wrappers
  import opened Models
  import opened Db
  import opened Sorting

  function SlideOrder(s: OnboardingSlide): int { s.order }

  predicate Ascending(orders: seq<int>) {
    forall i, j :: 0 <= i < j < |orders| ==> orders[i] <= orders[j]
  }

  /** The orders of a list of slides, position by position. */
  function OrdersOf(slides: seq<OnboardingSlide>): (orders: seq<int>)
    ensures |orders| == |slides|
    ensures forall i :: 0 <= i < |slides| ==> orders[i] == slides[i].order
  {
    if |slides| == 0 then [] else [slides[0].order] + OrdersOf(slides[1..])
  }

  /** The slide orders in ascending order, as the slide query returns them. */
  function AllowedOrders(slides: seq<OnboardingSlide>): (orders: seq<int>)
    ensures |orders| == |slides|
  {
    OrdersOf(SortBy(slides, SlideOrder))
  }

  lemma AllowedOrdersAscending(slides: seq<OnboardingSlide>)
    ensures Ascending(AllowedOrders(slides))
  {
    var sorted := SortBy(slides, SlideOrder);
    var orders := AllowedOrders(slides);
    SortBySorted(slides, SlideOrder);
    forall i, j | 0 <= i < j < |orders| ensures orders[i] <= orders[j] {
      assert SlideOrder(sorted[i]) <= SlideOrder(sorted[j]);
    }
  }

  /** An order is allowed exactly when some slide has it. */
  lemma AllowedOrdersMembers(slides: seq<OnboardingSlide>, v: int)
    ensures v in AllowedOrders(slides) <==> exists s :: s in slides && s.order == v
  {
    var sorted := SortBy(slides, SlideOrder);
    var orders := AllowedOrders(slides);
    if v in orders {
      var i :| 0 <= i < |orders| && orders[i] == v;
      MembersOfSorted(slides, SlideOrder, sorted[i]);
    }
    if exists s :: s in slides && s.order == v {
      var s :| s in slides && s.order == v;
      MembersOfSorted(slides, SlideOrder, s);
      var i :| 0 <= i < |sorted| && sorted[i] == s;
      assert orders[i] == v;
    }
  }

  /** The first order after `last` in the list, as `next(...)` scans for it. */
  function NextOrder(orders: seq<int>, last: int): (next: Option<int>)
    ensures next.Some? ==> next.value in orders && next.value > last
    ensures next.None? ==> forall v :: v in orders ==> v <= last
  {
    if |orders| == 0 then None
    else if orders[0] > last then Some(orders[0])
    else
      assert forall v :: v in orders ==> v == orders[0] || v in orders[1..];
      NextOrder(orders[1..], last)
  }

  /** On an ascending list the first order after `last` is the smallest one. */
  lemma {:induction false} NextOrderIsSmallest(orders: seq<int>, last: int)
    requires Ascending(orders)
    ensures var next := NextOrder(orders, last);
      next.Some? ==> forall v :: v in orders && v > last ==> next.value <= v
  {
    if |orders| > 0 && orders[0] <= last {
      NextOrderIsSmallest(orders[1..], last);
      forall v | v in orders && v > last ensures v in orders[1..] {
        var k :| 0 <= k < |orders| && orders[k] == v;
        assert orders[1..][k - 1] == v;
      }
    }
  }

  /** The state of a user, with a missing row read as the column defaults. */
  function StateOf(states: map<nat, OnboardingState>, userId: nat): OnboardingState {
    if userId in states then states[userId] else NewOnboardingState()
  }

  /** The rule `complete_slide` applies to a state given the ascending slide orders. */
  function Step(orders: seq<int>, state: OnboardingState, order: int): (r: Result<OnboardingState, Error>)
    ensures r.Err? <==> orders == [] || order !in orders
                        || (state.lastCompletedOrder < order && NextOrder(orders, state.lastCompletedOrder) != Some(order))
    ensures r.Ok? ==> r.value == state || (r.value.lastCompletedOrder == order && state.lastCompletedOrder < order)
    ensures r.Ok? && r.value != state ==> (r.value.isCompleted <==> order == orders[|orders| - 1])
  {
    if orders == [] then Err(Invalid("Онбординг ещё не настроен"))
    else if order !in orders then Err(Invalid("Неизвестный шаг онбординга"))
    else if order <= state.lastCompletedOrder then Ok(state)
    else
      var expected := NextOrder(orders, state.lastCompletedOrder);
      if expected.None? || order != expected.value then Err(Invalid("Сначала завершите предыдущие шаги"))
      else Ok(OnboardingState(order, order == orders[|orders| - 1]))
  }

  /** Completing the same slide again is a no-op. */
  lemma StepIdempotent(orders: seq<int>, state: OnboardingState, order: int)
    requires Step(orders, state, order).Ok?
    ensures var next := Step(orders, state, order).value;
      Step(orders, next, order) == Ok(next)
  {
  }

  /** Progress only moves forward, and only to the smallest slide order not yet completed. */
  lemma StepAdvancesToNextSlide(orders: seq<int>, state: OnboardingState, order: int)
    requires Ascending(orders)
    requires Step(orders, state, order).Ok?
    ensures var next := Step(orders, state, order).value;
      next.lastCompletedOrder >= state.lastCompletedOrder
      && (next != state ==>
            next.lastCompletedOrder > state.lastCompletedOrder
            && next.lastCompletedOrder in orders
            && (forall v :: v in orders && v > state.lastCompletedOrder ==> next.lastCompletedOrder <= v)
            && (next.isCompleted <==> next.lastCompletedOrder == orders[|orders| - 1]))
  {
    NextOrderIsSmallest(orders, state.lastCompletedOrder);
  }

  /** A slide cannot be skipped: completing an order while a smaller uncompleted one exists fails. */
  lemma StepRejectsSkipping(orders: seq<int>, state: OnboardingState, order: int, skipped: int)
    requires Ascending(orders)
    requires order in orders && skipped in orders && state.lastCompletedOrder < skipped < order
    ensures Step(orders, state, order) == Err(Invalid("Сначала завершите предыдущие шаги"))
  {
    NextOrderIsSmallest(orders, state.lastCompletedOrder);
  }

  /** Once the last slide is completed nothing remains: there is no next order. */
  lemma CompletedHasNoNext(orders: seq<int>, state: OnboardingState, order: int)
    requires Ascending(orders)
    requires Step(orders, state, order).Ok? && Step(orders, state, order).value != state
    ensures var next := Step(orders, state, order).value;
      next.isCompleted <==> NextOrder(orders, next.lastCompletedOrder).None?
  {
    var next := Step(orders, state, order).value;
    var last := orders[|orders| - 1];
    if next.isCompleted {
      forall v | v in orders ensures v <= next.lastCompletedOrder {
        var k :| 0 <= k < |orders| && orders[k] == v;
      }
    } else {
      assert last in orders;
      assert last > next.lastCompletedOrder by {
        var k :| 0 <= k < |orders| && orders[k] == order;
        assert orders[k] <= last;
      }
    }
  }

  /** `_ensure_state`: the user's onboarding row, inserted with the defaults when missing. */
  method EnsureState(db: Session, userId: nat) returns (state: OnboardingState)
    modifies db`onboardingStates
    ensures db.onboardingStates == old(db.onboardingStates)[userId := StateOf(old(db.onboardingStates), userId)]
    ensures state == StateOf(old(db.onboardingStates), userId)
  {
    if userId in db.onboardingStates {
      return db.onboardingStates[userId];
    }
    state := NewOnboardingState();
    db.onboardingStates := db.onboardingStates[userId := state];
  }

  /** The next order is the smallest slide order above `last`, and there is none
      exactly when every slide is at or below `last`. */
  lemma NextSlide(slides: seq<OnboardingSlide>, last: int)
    ensures var next := NextOrder(AllowedOrders(slides), last);
      && (next.Some? ==>
        (exists s :: s in slides && s.order == next.value) && next.value > last
        && forall s :: s in slides && s.order > last ==> next.value <= s.order)
      && (next.None? ==> forall s :: s in slides ==> s.order <= last)
  {
    var orders := AllowedOrders(slides);
    var next := NextOrder(orders, last);
    AllowedOrdersAscending(slides);
    NextOrderIsSmallest(orders, last);
    forall s | s in slides ensures s.order in orders {
      AllowedOrdersMembers(slides, s.order);
    }
    if next.Some? {
      AllowedOrdersMembers(slides, next.value);
    }
  }

  /** `get_overview`: the slides in order, the user's state and the next order to complete. */
  method GetOverview(db: Session, userId: nat) returns (slides: seq<OnboardingSlide>, state: OnboardingState, nextOrder: Option<int>)
    modifies db`onboardingStates
    ensures db.onboardingStates == old(db.onboardingStates)[userId := StateOf(old(db.onboardingStates), userId)]
    ensures state == StateOf(old(db.onboardingStates), userId)
    ensures SortedBy(slides, SlideOrder) && multiset(slides) == multiset(db.slides)
    ensures nextOrder.Some? ==>
      (exists s :: s in db.slides && s.order == nextOrder.value) && nextOrder.value > state.lastCompletedOrder
      && forall s :: s in db.slides && s.order > state.lastCompletedOrder ==> nextOrder.value <= s.order
    ensures nextOrder.None? ==> forall s :: s in db.slides ==> s.order <= state.lastCompletedOrder
    ensures nextOrder == NextOrder(AllowedOrders(db.slides), state.lastCompletedOrder)
  {
    slides := SortBy(db.slides, SlideOrder);
    SortBySorted(db.slides, SlideOrder);
    SortByPermutes(db.slides, SlideOrder);
    state := EnsureState(db, userId);
    nextOrder := NextOrder(AllowedOrders(db.slides), state.lastCompletedOrder);
    NextSlide(db.slides, state.lastCompletedOrder);
  }

  /** The part of `complete_slide` after the slide checks, on the user's ensured state. */
  method AdvanceState(db: Session, userId: nat, orders: seq<int>, order: int) returns (r: Result<OnboardingState, Error>)
    requires orders != [] && order in orders
    modifies db`onboardingStates
    ensures r == Step(orders, StateOf(old(db.onboardingStates), userId), order)
    ensures r.Err? ==> db.onboardingStates == old(db.onboardingStates)[userId := StateOf(old(db.onboardingStates), userId)]
    ensures r.Ok? ==> db.onboardingStates == old(db.onboardingStates)[userId := r.value]
  {
    var state := EnsureState(db, userId);
    if order <= state.lastCompletedOrder {
      return Ok(state);
    }
    var expected := NextOrder(orders, state.lastCompletedOrder);
    if expected.None? || order != expected.value {
      return Err(Invalid("Сначала завершите предыдущие шаги"));
    }
    ghost var ensured := db.onboardingStates;
    state := OnboardingState(order, order == orders[|orders| - 1]);
    db.onboardingStates := db.onboardingStates[userId := state];
    assert ensured[userId := state] == old(db.onboardingStates)[userId := state];
    r := Ok(state);
  }

  /** `complete_slide`: fails when there are no slides or the order is unknown; an order already
      completed returns the state as it is; otherwise only the next slide in order may be completed,
      and completing the last one marks onboarding complete. */
  method CompleteSlide(db: Session, userId: nat, order: int) returns (r: Result<OnboardingState, Error>)
    modifies db`onboardingStates
    ensures r == Step(AllowedOrders(db.slides), StateOf(old(db.onboardingStates), userId), order)
    ensures db.slides == [] ==> unchanged(db`onboardingStates)
    ensures db.slides != [] && r.Err? ==>
      db.onboardingStates == old(db.onboardingStates)[userId := StateOf(old(db.onboardingStates), userId)]
    ensures r.Ok? ==> db.onboardingStates == old(db.onboardingStates)[userId := r.value]
  {
    var orders := AllowedOrders(db.slides);
    if |db.slides| == 0 {
      return Err(Invalid("Онбординг ещё не настроен"));
    }
    if order !in orders {
      // the state row is ensured before this check
      var _ := EnsureState(db, userId);
      return Err(Invalid("Неизвестный шаг онбординга"));
    }
    r := AdvanceState(db, userId, orders, order);
  }
}
