/** Why a product is held by at most one reservation at a time: a reservation
    can only be created for an available product, creating it makes the
    product unavailable, and cancelling it makes the product available again.
    The statement covers the actions the application offers for the
    reservation life cycle: a customer reserving, the admin clicking one of
    the status buttons of `src/pages/admin/AdminReservations.tsx`, the admin
    deleting or creating a product, and logging in or out. */
module Lifecycle {
  import opened Wrappers
  import opened Seqs
  import opened Domain
  import opened Catalog
  import opened AppStore
  import opened AdminReservations

  ghost predicate UniqueReservationIds(rs: seq<Reservation>) {
    forall i, j :: 0 <= i < j < |rs| ==> rs[i].id != rs[j].id
  }

  /** No product id is held by two pending-or-confirmed reservations. */
  ghost predicate AtMostOneHolder(rs: seq<Reservation>) {
    forall i, j :: 0 <= i < j < |rs| && Holds(rs[i].status) && Holds(rs[j].status) ==>
      rs[i].productId != rs[j].productId
  }

  /** Every product a pending-or-confirmed reservation refers to is unavailable. */
  ghost predicate HeldAreUnavailable(s: Store) {
    forall i, k ::
      (&& 0 <= i < |s.reservations| && 0 <= k < |s.products|
       && Holds(s.reservations[i].status) && s.products[k].id == s.reservations[i].productId)
      ==> !s.products[k].available
  }

  ghost predicate Consistent(s: Store) {
    && UniqueReservationIds(s.reservations)
    && AtMostOneHolder(s.reservations)
    && HeldAreUnavailable(s)
  }

  /** One user action. `AdminSetStatus` is a click on the status button
      `target` of the reservation at `index` of the list. */
  datatype Action =
    | Reserve(req: ReservationRequest, id: string, raw: string, now: int)
    | AdminSetStatus(index: nat, target: Status)
    | RemoveProduct(productId: string)
    | CreateProduct(product: Product)
    | SetSession(isAdmin: bool)

  /** What the action needs in order to be one the application offers: a fresh
      reservation id, a button the page shows for that reservation, and a new
      product whose id no pending-or-confirmed reservation already holds. */
  ghost predicate Allowed(s: Store, a: Action) {
    match a
    case Reserve(_, id, _, _) => forall i :: 0 <= i < |s.reservations| ==> s.reservations[i].id != id
    case AdminSetStatus(index, target) =>
      index < |s.reservations| && target in OfferedActions(s.reservations[index].status)
    case CreateProduct(p) =>
      !p.available ||
      forall i :: 0 <= i < |s.reservations| && Holds(s.reservations[i].status) ==>
        s.reservations[i].productId != p.id
    case RemoveProduct(_) => true
    case SetSession(_) => true
  }

  /** The state after an action; a refused reservation leaves it unchanged. */
  function Apply(s: Store, a: Action): Store {
    match a
    case Reserve(req, id, raw, now) =>
      (match AddReservation(s, req, id, raw, now)
       case Ok(v) => v.store
       case Err(_) => s)
    case AdminSetStatus(index, target) =>
      if index < |s.reservations| then UpdateReservationStatus(s, s.reservations[index].id, target)
      else s
    case RemoveProduct(id) => s.(products := DeleteProduct(s.products, id))
    case CreateProduct(p) => s.(products := AddProduct(s.products, p))
    case SetSession(b) => Login(s, b)
  }

  /** Appending a reservation with a fresh id for a product nobody holds, and
      marking that product unavailable, keeps the store consistent. */
  lemma AppendHolderPreserves(s: Store, s': Store, x: Reservation)
    requires Consistent(s)
    requires s'.reservations == s.reservations + [x]
    requires forall i :: 0 <= i < |s.reservations| ==> s.reservations[i].id != x.id
    requires forall i :: 0 <= i < |s.reservations| && Holds(s.reservations[i].status) ==>
               s.reservations[i].productId != x.productId
    requires |s'.products| == |s.products|
    requires forall k :: 0 <= k < |s.products| ==>
               s'.products[k] == if s.products[k].id == x.productId
                                 then s.products[k].(available := false) else s.products[k]
    ensures Consistent(s')
  {
    var rs, rs' := s.reservations, s'.reservations;
    assert UniqueReservationIds(rs') by {
      forall i, j | 0 <= i < j < |rs'| ensures rs'[i].id != rs'[j].id {
        if j == |rs| { assert rs'[i] == rs[i]; }
      }
    }
    assert AtMostOneHolder(rs') by {
      forall i, j | 0 <= i < j < |rs'| && Holds(rs'[i].status) && Holds(rs'[j].status)
        ensures rs'[i].productId != rs'[j].productId
      {
        if j == |rs| { assert rs'[i] == rs[i]; }
      }
    }
    forall i, k | 0 <= i < |rs'| && 0 <= k < |s'.products|
      && Holds(rs'[i].status) && s'.products[k].id == rs'[i].productId
      ensures !s'.products[k].available
    {
      if i < |rs| { assert rs'[i] == rs[i]; }
    }
  }

  lemma {:induction false} ReservePreserves(s: Store, req: ReservationRequest, id: string, raw: string, now: int)
    requires Consistent(s) && Allowed(s, Reserve(req, id, raw, now))
    ensures Consistent(Apply(s, Reserve(req, id, raw, now)))
  {
    var r := AddReservation(s, req, id, raw, now);
    if r.Ok? {
      var s' := r.value.store;
      var n := |s.reservations|;
      var found := FindProduct(s.products, req.productId);
      var k0 :| && 0 <= k0 < |s.products| && s.products[k0] == found.value
                && s.products[k0].id == req.productId;
      assert s'.reservations == s.reservations + [s'.reservations[n]];
      AppendHolderPreserves(s, s', s'.reservations[n]);
    }
  }

  /** Moving the one holder at `index` to another status, and releasing its
      product when the new status is `canceled`, keeps the store consistent. */
  lemma ChangeHolderPreserves(s: Store, s': Store, index: nat, target: Status)
    requires Consistent(s)
    requires index < |s.reservations| && Holds(s.reservations[index].status)
    requires |s'.reservations| == |s.reservations|
    requires forall i :: 0 <= i < |s.reservations| && i != index ==> s'.reservations[i] == s.reservations[i]
    requires s'.reservations[index] == s.reservations[index].(status := target)
    requires target != Canceled ==> s'.products == s.products
    requires target == Canceled ==>
               && |s'.products| == |s.products|
               && forall k :: 0 <= k < |s.products| ==>
                    s'.products[k] == if s.products[k].id == s.reservations[index].productId
                                      then s.products[k].(available := true) else s.products[k]
    ensures Consistent(s')
  {
    var rs, rs' := s.reservations, s'.reservations;
    var x := rs[index];
    assert UniqueReservationIds(rs') by {
      forall i, j | 0 <= i < j < |rs'| ensures rs'[i].id != rs'[j].id {
        assert rs'[i].id == rs[i].id && rs'[j].id == rs[j].id;
      }
    }
    assert AtMostOneHolder(rs') by {
      forall i, j | 0 <= i < j < |rs'| && Holds(rs'[i].status) && Holds(rs'[j].status)
        ensures rs'[i].productId != rs'[j].productId
      {
        assert rs'[i].productId == rs[i].productId && rs'[j].productId == rs[j].productId;
        assert Holds(rs[i].status) && Holds(rs[j].status);
      }
    }
    forall i, k | 0 <= i < |rs'| && 0 <= k < |s'.products|
      && Holds(rs'[i].status) && s'.products[k].id == rs'[i].productId
      ensures !s'.products[k].available
    {
      assert Holds(rs[i].status) && rs'[i].productId == rs[i].productId;
      if target == Canceled {
        assert i != index;
        if i < index { assert rs[i].productId != x.productId; }
        else { assert x.productId != rs[i].productId; }
        assert s'.products[k] == s.products[k];
      }
    }
  }

  lemma {:induction false} AdminSetStatusPreserves(s: Store, index: nat, target: Status)
    requires Consistent(s) && Allowed(s, AdminSetStatus(index, target))
    ensures Consistent(Apply(s, AdminSetStatus(index, target)))
  {
    var rs := s.reservations;
    var x := rs[index];
    var s' := UpdateReservationStatus(s, x.id, target);
    // the id is unique, so only the clicked reservation changes
    forall i | 0 <= i < |rs| && i != index ensures s'.reservations[i] == rs[i] {
      if i < index { assert rs[i].id != rs[index].id; } else { assert rs[index].id != rs[i].id; }
    }
    var found := FindReservation(rs, x.id);
    var k :| 0 <= k < |rs| && rs[k] == found.value && rs[k].id == x.id;
    assert k == index;
    ChangeHolderPreserves(s, s', index, target);
  }

  /** Whatever the admin answers in the dialog, a status button the page shows
      keeps the store consistent. */
  lemma {:induction false} HandleStatusChangePreserves(s: Store, index: nat, next: Status, confirmed: bool)
    requires Consistent(s)
    requires index < |s.reservations| && next in OfferedActions(s.reservations[index].status)
    ensures Consistent(HandleStatusChange(s, s.reservations[index].id, next, confirmed))
  {
    if confirmed {
      AdminSetStatusPreserves(s, index, next);
    }
  }

  /** Every offered action keeps the store consistent. */
  lemma {:induction false} StepPreservesConsistency(s: Store, a: Action)
    requires Consistent(s) && Allowed(s, a)
    ensures Consistent(Apply(s, a))
  {
    match a
    case Reserve(req, id, raw, now) => ReservePreserves(s, req, id, raw, now);
    case AdminSetStatus(index, target) => AdminSetStatusPreserves(s, index, target);
    case RemoveProduct(id) =>
      var s' := Apply(s, a);
      forall i, k | 0 <= i < |s'.reservations| && 0 <= k < |s'.products|
        && Holds(s'.reservations[i].status) && s'.products[k].id == s'.reservations[i].productId
        ensures !s'.products[k].available
      {
        assert s'.products[k] in s.products;
      }
    case CreateProduct(p) =>
    case SetSession(b) =>
  }

  /** The state after a sequence of actions. */
  function Run(s: Store, actions: seq<Action>): Store
    decreases |actions|
  {
    if |actions| == 0 then s else Run(Apply(s, actions[0]), actions[1..])
  }

  /** Every action is allowed in the state it is applied to. */
  ghost predicate AllAllowed(s: Store, actions: seq<Action>)
    decreases |actions|
  {
    |actions| == 0 || (Allowed(s, actions[0]) && AllAllowed(Apply(s, actions[0]), actions[1..]))
  }

  /** From a consistent state, offered actions only reach consistent states;
      in particular at most one reservation holds each product. */
  lemma {:induction false} RunPreservesConsistency(s: Store, actions: seq<Action>)
    requires Consistent(s) && AllAllowed(s, actions)
    ensures Consistent(Run(s, actions))
    ensures AtMostOneHolder(Run(s, actions).reservations)
    decreases |actions|
  {
    if |actions| > 0 {
      StepPreservesConsistency(s, actions[0]);
      RunPreservesConsistency(Apply(s, actions[0]), actions[1..]);
    }
  }

  /** A store without reservations, such as the seeded one, is consistent. */
  lemma NoReservationsIsConsistent(s: Store)
    requires |s.reservations| == 0
    ensures Consistent(s)
  {
  }
}
