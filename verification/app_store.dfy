/** The reservation half of the store and the session flag
    (`generateReservationNumber`, `addReservation`, `updateReservationStatus`
    and `login` in `src/context/AppContext.tsx`). The random ids, the random
    text behind a reservation number and the clock are parameters. */
module AppStore {
  import opened Wrappers
  import opened Text
  import opened Seqs
  import opened Domain
  import opened Catalog

  const TicketPrefix: string := "RES-"

  /** A digit of `Number.prototype.toString(36)`. */
  predicate IsBase36Digit(c: char) {
    '0' <= c <= '9' || 'a' <= c <= 'z'
  }

  /** A character a reservation number may carry after its prefix. */
  predicate IsTicketChar(c: char) {
    '0' <= c <= '9' || 'A' <= c <= 'Z'
  }

  /** `RES-${raw.substring(2, 8).toUpperCase()}`, where `raw` is the text of
      `Math.random().toString(36)` (`"0."` followed by base-36 digits). The
      number is the prefix followed by at most six characters, six when the
      random text is long enough, upper-case base-36 digits when `raw` holds
      base-36 digits. */
  function ReservationNumber(raw: string): (n: string)
    ensures StartsWith(n, TicketPrefix)
    ensures |TicketPrefix| <= |n| <= |TicketPrefix| + 6
    ensures |raw| >= 8 ==> |n| == |TicketPrefix| + 6
    ensures forall i :: |TicketPrefix| <= i < |n| ==> i - 2 < |raw| && n[i] == UpperChar(raw[i - 2])
    ensures (forall i :: 2 <= i < |raw| ==> IsBase36Digit(raw[i])) ==>
              && (forall i :: |TicketPrefix| <= i < |n| ==> IsTicketChar(n[i]))
              && Lower(n[|TicketPrefix|..]) == Substring(raw, 2, 8)
  {
    var digits := Upper(Substring(raw, 2, 8));
    assert forall i :: 0 <= i < |digits| ==> digits[i] == UpperChar(raw[2 + i]);
    TicketPrefix + digits
  }

  /** The error `addReservation` throws. */
  datatype StoreError = ProductUnavailable

  function StoreErrorMessage(e: StoreError): string {
    "Produto n\U{00E3}o dispon\U{00ED}vel para reserva!"
  }

  /** The state after a successful `addReservation`, and the number it returns. */
  datatype Reserved = Reserved(store: Store, number: string)

  /** `x` is the reservation built from `req`: the request's fields, the given
      id, number and creation time, and status `pending`. */
  predicate IsNewReservation(x: Reservation, req: ReservationRequest, id: string, number: string, now: int) {
    && x.id == id
    && x.productId == req.productId
    && x.fullName == req.fullName
    && x.phone == req.phone
    && x.girlfriendName == req.girlfriendName
    && x.email == req.email
    && x.selectedSize == req.selectedSize
    && x.selectedColor == req.selectedColor
    && x.reservationNumber == number
    && x.createdAt == now
    && x.status == Pending
  }

  /** `addReservation`: refuses when the first product with the requested id
      is missing or unavailable; otherwise appends one pending reservation,
      marks the products with that id unavailable, changes no other product,
      and returns the number it stored. */
  function AddReservation(s: Store, req: ReservationRequest, id: string, raw: string, now: int)
    : (r: Result<Reserved, StoreError>)
    ensures var found := FindProduct(s.products, req.productId);
            r.Err? <==> found.None? || !found.value.available
    ensures r.Ok? ==> r.value.number == ReservationNumber(raw)
    ensures r.Ok? ==>
              var rs := r.value.store.reservations;
              && |rs| == |s.reservations| + 1
              && rs[..|s.reservations|] == s.reservations
              && IsNewReservation(rs[|s.reservations|], req, id, r.value.number, now)
    ensures r.Ok? ==>
              var ps := r.value.store.products;
              && |ps| == |s.products|
              && forall i :: 0 <= i < |ps| ==>
                   ps[i] == if s.products[i].id == req.productId
                            then s.products[i].(available := false) else s.products[i]
    ensures r.Ok? ==> r.value.store.user == s.user
  {
    var found := FindProduct(s.products, req.productId);
    if found.None? || !found.value.available then Err(ProductUnavailable)
    else
      var number := ReservationNumber(raw);
      var reservation := Reservation(
        id, req.productId, req.fullName, req.phone, req.girlfriendName, req.email,
        number, now, Pending, req.selectedSize, req.selectedColor);
      var rs := s.reservations + [reservation];
      assert rs[..|s.reservations|] == s.reservations;
      Ok(Reserved(
        Store(UpdateProducts(s.products, found.value.id, AvailabilityPatch(false)), rs, s.user),
        number))
  }

  /** `reservations.find(r => r.id === id)`: the first reservation with that id. */
  function FindReservation(rs: seq<Reservation>, id: string): (r: Option<Reservation>)
    ensures r.None? <==> forall i :: 0 <= i < |rs| ==> rs[i].id != id
    ensures r.Some? ==> exists k :: && 0 <= k < |rs| && rs[k] == r.value && rs[k].id == id
                                   && forall j :: 0 <= j < k ==> rs[j].id != id
  {
    Find(rs, ReservationIdIs(id))
  }

  /** `reservations.map(r => r.id === id ? { ...r, status } : r)`. */
  function SetStatus(rs: seq<Reservation>, id: string, st: Status): (r: seq<Reservation>)
    ensures |r| == |rs|
    ensures forall i :: 0 <= i < |rs| && rs[i].id == id ==> r[i] == rs[i].(status := st)
    ensures forall i :: 0 <= i < |rs| && rs[i].id != id ==> r[i] == rs[i]
  {
    if |rs| == 0 then []
    else
      var head := if rs[0].id == id then rs[0].(status := st) else rs[0];
      [head] + SetStatus(rs[1..], id, st)
  }

  /** `updateReservationStatus`: only the status of the reservations with that
      id changes; products change only for a cancellation of an existing
      reservation, and then exactly the products with the id the first such
      reservation refers to become available. */
  function UpdateReservationStatus(s: Store, id: string, st: Status): (r: Store)
    ensures |r.reservations| == |s.reservations|
    ensures forall i :: 0 <= i < |s.reservations| ==>
              r.reservations[i] == if s.reservations[i].id == id
                                   then s.reservations[i].(status := st) else s.reservations[i]
    ensures var target := FindReservation(s.reservations, id);
            if st == Canceled && target.Some? then
              && |r.products| == |s.products|
              && forall i :: 0 <= i < |s.products| ==>
                   r.products[i] == if s.products[i].id == target.value.productId
                                    then s.products[i].(available := true) else s.products[i]
            else r.products == s.products
    ensures r.user == s.user
  {
    var target := FindReservation(s.reservations, id);
    var products :=
      if st == Canceled && target.Some?
      then UpdateProducts(s.products, target.value.productId, AvailabilityPatch(true))
      else s.products;
    Store(products, SetStatus(s.reservations, id, st), s.user)
  }

  /** Setting the status keeps the first reservation with that id the first one. */
  lemma {:induction false} FindAfterSetStatus(rs: seq<Reservation>, id: string, st: Status)
    ensures FindReservation(SetStatus(rs, id, st), id) ==
              match FindReservation(rs, id)
              case Some(x) => Some(x.(status := st))
              case None => None
  {
    if |rs| > 0 {
      var updated := SetStatus(rs, id, st);
      assert updated[1..] == SetStatus(rs[1..], id, st);
      FindAfterSetStatus(rs[1..], id, st);
    }
  }

  /** `updateReservationStatus` is idempotent. */
  lemma {:induction false} UpdateReservationStatusTwice(s: Store, id: string, st: Status)
    ensures UpdateReservationStatus(UpdateReservationStatus(s, id, st), id, st)
            == UpdateReservationStatus(s, id, st)
  {
    var once := UpdateReservationStatus(s, id, st);
    var twice := UpdateReservationStatus(once, id, st);
    FindAfterSetStatus(s.reservations, id, st);
    assert twice.reservations == once.reservations;
    var target := FindReservation(s.reservations, id);
    if st == Canceled && target.Some? {
      UpdateProductsTwice(s.products, target.value.productId, AvailabilityPatch(true));
    }
  }

  /** `login`: sets the admin flag and nothing else. */
  function Login(s: Store, isAdmin: bool): (r: Store)
    ensures r.user.isAdmin == isAdmin
    ensures r.products == s.products && r.reservations == s.reservations
  {
    s.(user := User(isAdmin))
  }
}
