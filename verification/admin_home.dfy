/** The admin dashboard's home page (`src/pages/admin/AdminHome.tsx`): the
    product and reservation counters, the conversion rate and the five most
    recent reservations. */
module AdminHome {
  import opened Wrappers
  import opened Seqs
  import opened Domain
  import opened Catalog
  import opened AdminReservations

  /** `p => p.available` */
  function IsAvailable(): Product -> bool {
    (p: Product) => p.available
  }

  /** The product card: all products, the available ones, and the rest, which
      the page calls reserved. */
  datatype ProductStats = ProductStats(total: nat, available: nat, reserved: nat)

  /** The reserved count is computed as a difference, and it is exactly the
      number of unavailable products. */
  function ProductCounts(ps: seq<Product>): (r: ProductStats)
    ensures r.total == |ps|
    ensures r.available == Count(ps, IsAvailable())
    ensures r.reserved == Count(ps, Not(IsAvailable()))
    ensures r.available + r.reserved == r.total
  {
    CountComplement(ps, IsAvailable());
    var total := |ps|;
    var available := Count(ps, IsAvailable());
    ProductStats(total, available, total - available)
  }

  /** `r => r.status === st` */
  function StatusIs(st: Status): Reservation -> bool {
    (r: Reservation) => r.status == st
  }

  /** The reservation card. */
  datatype ReservationStats = ReservationStats(
    total: nat, pending: nat, confirmed: nat, completed: nat, canceled: nat)

  /** One counter per status, each the number of reservations in that status;
      together they account for every reservation. */
  function ReservationCounts(rs: seq<Reservation>): (r: ReservationStats)
    ensures r.total == |rs|
    ensures r.pending == Count(rs, StatusIs(Pending))
    ensures r.confirmed == Count(rs, StatusIs(Confirmed))
    ensures r.completed == Count(rs, StatusIs(Completed))
    ensures r.canceled == Count(rs, StatusIs(Canceled))
    ensures r.pending + r.confirmed + r.completed + r.canceled == r.total
  {
    StatusCountsPartition(rs);
    ReservationStats(
      |rs|,
      Count(rs, StatusIs(Pending)),
      Count(rs, StatusIs(Confirmed)),
      Count(rs, StatusIs(Completed)),
      Count(rs, StatusIs(Canceled)))
  }

  /** Every reservation is counted under exactly one of the four statuses. */
  lemma {:induction false} StatusCountsPartition(rs: seq<Reservation>)
    ensures Count(rs, StatusIs(Pending)) + Count(rs, StatusIs(Confirmed))
            + Count(rs, StatusIs(Completed)) + Count(rs, StatusIs(Canceled)) == |rs|
  {
    if |rs| > 0 {
      StatusCountsPartition(rs[1..]);
    }
  }

  /** `totalReservations || 1`: the divisor of the conversion rate, never zero. */
  function ConversionDivisor(total: nat): (d: nat)
    ensures d >= 1
    ensures total > 0 ==> d == total
  {
    if total == 0 then 1 else total
  }

  /** The conversion rate before rounding: completed reservations as a share of
      all reservations, between 0 and 100, and 0 when there are none. */
  function ConversionRate(stats: ReservationStats): (pct: real)
    requires stats.completed <= stats.total
    ensures 0.0 <= pct <= 100.0
    ensures stats.total == 0 ==> pct == 0.0
    ensures stats.completed == stats.total && stats.total > 0 ==> pct == 100.0
    ensures stats.total > 0 ==> pct * stats.total as real == 100.0 * stats.completed as real
  {
    var d := ConversionDivisor(stats.total) as real;
    var c := stats.completed as real;
    assert c / d * d == c;
    c / d * 100.0
  }

  /** `new Date(r.createdAt).getTime()`: the creation time, as a number. */
  function CreatedAt(): Reservation -> int {
    (r: Reservation) => r.createdAt
  }

  /** `[...reservations].sort(newest first).slice(0, 5)`. */
  const RecentCount: nat := 5

  /** The newest reservations: at most five, newest first, all taken from the
      list, and every reservation left out is no newer than any shown one. */
  function RecentReservations(rs: seq<Reservation>): (r: seq<Reservation>)
    ensures |r| == if |rs| < RecentCount then |rs| else RecentCount
    ensures SortedDesc(r, CreatedAt())
    ensures multiset(r) <= multiset(rs)
    ensures forall x, y :: x in multiset(rs) - multiset(r) && y in r ==> x.createdAt <= y.createdAt
  {
    var sorted := SortDesc(rs, CreatedAt());
    TakeSortedKeepsLargest(sorted, CreatedAt(), RecentCount);
    Take(sorted, RecentCount)
  }

  const ProductNotFound: string := "Produto n\U{00E3}o encontrado"

  /** The product line of a recent reservation: the name of the first product
      with the reserved id, or a placeholder once the product is gone. */
  function RowProductName(ps: seq<Product>, r: Reservation): (name: string)
    ensures (forall i :: 0 <= i < |ps| ==> ps[i].id != r.productId) ==> name == ProductNotFound
    ensures (exists i :: 0 <= i < |ps| && ps[i].id == r.productId) ==>
              exists k :: 0 <= k < |ps| && ps[k].id == r.productId && name == ps[k].name
                          && forall j :: 0 <= j < k ==> ps[j].id != r.productId
  {
    match FindProduct(ps, r.productId)
    case Some(p) => p.name
    case None => ProductNotFound
  }

  /** The page's own status table: the four statuses only, anything else shown
      as it is. */
  function HomeStatusLabel(s: string): (text: string)
    ensures ParseStatus(s).None? ==> text == s
  {
    if s == "pending" then "Pendente"
    else if s == "confirmed" then "Confirmada"
    else if s == "canceled" then "Cancelada"
    else if s == "completed" then "Conclu\U{00ED}da"
    else s
  }

  /** The home page's table and the reservation page's table give every
      stored status the same label. */
  lemma HomeLabelsAgree(st: Status)
    ensures HomeStatusLabel(StatusName(st)) == TranslateStatus(StatusName(st))
  {
  }
}
