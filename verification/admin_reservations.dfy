/** The admin reservation list (`src/pages/admin/AdminReservations.tsx`):
    the search and status filter, the status labels and badge classes, and
    the status changes the page offers for each reservation. */
module AdminReservations {
  import opened Text
  import opened Seqs
  import opened Domain
  import opened AppStore

  /** The filter value that shows every status. */
  const AllStatuses: string := "all"

  /** The search box: an empty term matches everything; otherwise the
      lower-cased term must occur in the lower-cased name, number or email. */
  predicate MatchesSearch(r: Reservation, term: string) {
    var t := Lower(term);
    || term == ""
    || Includes(Lower(r.fullName), t)
    || Includes(Lower(r.reservationNumber), t)
    || Includes(Lower(r.email), t)
  }

  /** The status drop-down: `"all"` or one status name, compared exactly. */
  predicate MatchesStatus(r: Reservation, selected: string) {
    selected == AllStatuses || StatusName(r.status) == selected
  }

  function Shown(term: string, selected: string): Reservation -> bool {
    r => MatchesSearch(r, term) && MatchesStatus(r, selected)
  }

  /** The search test, stated with substring occurrence. */
  lemma {:induction false} MatchesSearchIsOccurs(term: string)
    ensures forall r :: MatchesSearch(r, term) <==>
              || term == ""
              || Occurs(Lower(term), Lower(r.fullName))
              || Occurs(Lower(term), Lower(r.reservationNumber))
              || Occurs(Lower(term), Lower(r.email))
  {
    forall r: Reservation
      ensures MatchesSearch(r, term) <==>
                || term == ""
                || Occurs(Lower(term), Lower(r.fullName))
                || Occurs(Lower(term), Lower(r.reservationNumber))
                || Occurs(Lower(term), Lower(r.email))
    {
      IncludesIsOccurs(Lower(r.fullName), Lower(term));
      IncludesIsOccurs(Lower(r.reservationNumber), Lower(term));
      IncludesIsOccurs(Lower(r.email), Lower(term));
    }
  }

  /** `filteredReservations`: the reservations, in list order, that match the
      search term and the selected status, each as often as the list holds it;
      with no term and `"all"` it is the whole list. */
  function FilterReservations(rs: seq<Reservation>, term: string, selected: string)
    : (r: seq<Reservation>)
    ensures IsSubseq(r, rs)
    ensures forall x :: x in r <==>
              && x in rs
              && (|| term == ""
                  || Occurs(Lower(term), Lower(x.fullName))
                  || Occurs(Lower(term), Lower(x.reservationNumber))
                  || Occurs(Lower(term), Lower(x.email)))
              && (selected == AllStatuses || StatusName(x.status) == selected)
    ensures forall x :: x in r ==> multiset(r)[x] == multiset(rs)[x]
    ensures term == "" && selected == AllStatuses ==> r == rs
  {
    MatchesSearchIsOccurs(term);
    Filter(rs, Shown(term, selected))
  }

  /** The keys of the status label table. */
  predicate IsStatusKey(s: string) {
    s == "pending" || s == "confirmed" || s == "canceled" || s == "completed" || s == AllStatuses
  }

  /** `translateStatus`: the Portuguese label of a status key; any other text
      is shown as it is. */
  function TranslateStatus(s: string): (text: string)
    ensures !IsStatusKey(s) ==> text == s
    ensures IsStatusKey(s) ==> !IsStatusKey(text) && text != ""
  {
    if s == "pending" then "Pendente"
    else if s == "confirmed" then "Confirmada"
    else if s == "canceled" then "Cancelada"
    else if s == "completed" then "Conclu\U{00ED}da"
    else if s == AllStatuses then "Todos"
    else s
  }

  /** Distinct keys get distinct labels. */
  lemma TranslateStatusDistinguishesKeys(a: string, b: string)
    requires IsStatusKey(a) && IsStatusKey(b) && a != b
    ensures TranslateStatus(a) != TranslateStatus(b)
  {
  }

  const DefaultBadge: string := "bg-gray-100 text-gray-800"

  /** `getStatusBadgeClass`: one colour per status; everything else, `"all"`
      included, gets the gray default. */
  function BadgeClass(s: string): (c: string)
    ensures ParseStatus(s).None? ==> c == DefaultBadge
    ensures ParseStatus(s).Some? ==> c != DefaultBadge
  {
    if s == "pending" then "bg-yellow-100 text-yellow-800"
    else if s == "confirmed" then "bg-blue-100 text-blue-800"
    else if s == "canceled" then "bg-red-100 text-red-800"
    else if s == "completed" then "bg-green-100 text-green-800"
    else DefaultBadge
  }

  /** Different statuses get different badges. */
  lemma BadgeClassDistinguishesStatuses(a: Status, b: Status)
    requires a != b
    ensures BadgeClass(StatusName(a)) != BadgeClass(StatusName(b))
  {
  }

  /** The status buttons a reservation row and its detail view show: only a
      reservation that still holds its product offers any, cancelling is
      always among them, and none leads back to pending or stays put. */
  function OfferedActions(st: Status): (acts: seq<Status>)
    ensures |acts| > 0 <==> Holds(st)
    ensures forall a :: a in acts ==> a != st && a != Pending
    ensures Holds(st) ==> Canceled in acts
    ensures Confirmed in acts <==> st == Pending
    ensures Completed in acts <==> st == Confirmed
  {
    match st
    case Pending => [Confirmed, Canceled]
    case Confirmed => [Completed, Canceled]
    case Canceled => []
    case Completed => []
  }

  /** `handleStatusChange`: nothing happens unless the admin confirms the
      dialog. A confirmed change gives the reservations with that id the new
      status and changes no other field of any reservation; products change
      only when the new status is `canceled`, and the session never does. */
  function HandleStatusChange(s: Store, reservationId: string, next: Status, confirmed: bool)
    : (r: Store)
    ensures !confirmed ==> r == s
    ensures |r.reservations| == |s.reservations| && r.user == s.user
    ensures forall i :: 0 <= i < |s.reservations| ==>
              r.reservations[i].(status := s.reservations[i].status) == s.reservations[i]
    ensures confirmed ==> forall i :: 0 <= i < |s.reservations| && s.reservations[i].id == reservationId ==>
              r.reservations[i].status == next
    ensures forall i :: 0 <= i < |s.reservations| && s.reservations[i].id != reservationId ==>
              r.reservations[i] == s.reservations[i]
    ensures next != Canceled ==> r.products == s.products
    ensures confirmed ==> r == UpdateReservationStatus(s, reservationId, next)
  {
    if confirmed then UpdateReservationStatus(s, reservationId, next) else s
  }
}
