/** The records of the store: products, reservations, the admin session and
    the in-memory state that holds them (`src/types/index.ts`). */
module Domain {
  import opened Wrappers

  /** The catalog partition a product is browsed under. */
  datatype Gender = Homem | Mulher | Jovens

  /** The spelling of a gender in product records and routes. */
  function GenderName(g: Gender): string {
    match g
    case Homem => "homem"
    case Mulher => "mulher"
    case Jovens => "jovens"
  }

  /** The life-cycle state of a reservation. */
  datatype Status = Pending | Confirmed | Canceled | Completed

  /** The spelling of a status in reservation records and filters. */
  function StatusName(st: Status): string {
    match st
    case Pending => "pending"
    case Confirmed => "confirmed"
    case Canceled => "canceled"
    case Completed => "completed"
  }

  /** Reads a status name back: the inverse of `StatusName`. */
  function ParseStatus(s: string): (r: Option<Status>)
    ensures forall st :: r == Some(st) <==> StatusName(st) == s
  {
    if s == "pending" then Some(Pending)
    else if s == "confirmed" then Some(Confirmed)
    else if s == "canceled" then Some(Canceled)
    else if s == "completed" then Some(Completed)
    else None
  }

  /** A reservation in one of these states still holds its product. */
  predicate Holds(st: Status) {
    st == Pending || st == Confirmed
  }

  /** A catalog item. `price` is carried along but never computed on. */
  datatype Product = Product(
    id: string,
    name: string,
    description: string,
    price: real,
    imageUrl: string,
    category: string,
    gender: Gender,
    available: bool,
    sizes: seq<string>,
    colors: seq<string>)

  /** `Partial<Product>`: each field is either present or absent. */
  datatype ProductPatch = ProductPatch(
    id: Option<string>,
    name: Option<string>,
    description: Option<string>,
    price: Option<real>,
    imageUrl: Option<string>,
    category: Option<string>,
    gender: Option<Gender>,
    available: Option<bool>,
    sizes: Option<seq<string>>,
    colors: Option<seq<string>>)

  const EmptyPatch := ProductPatch(None, None, None, None, None, None, None, None, None, None)

  /** The patch `{ available: b }`. */
  function AvailabilityPatch(b: bool): ProductPatch {
    EmptyPatch.(available := Some(b))
  }

  /** `{ ...p, ...q }`: every field present in `q` overrides the one of `p`. */
  function ApplyPatch(p: Product, q: ProductPatch): Product {
    Product(
      q.id.GetOr(p.id),
      q.name.GetOr(p.name),
      q.description.GetOr(p.description),
      q.price.GetOr(p.price),
      q.imageUrl.GetOr(p.imageUrl),
      q.category.GetOr(p.category),
      q.gender.GetOr(p.gender),
      q.available.GetOr(p.available),
      q.sizes.GetOr(p.sizes),
      q.colors.GetOr(p.colors))
  }

  /** A customer's reservation of one product. `girlfriendName` holds the
      customer's postal address; the field keeps its historical name. */
  datatype Reservation = Reservation(
    id: string,
    productId: string,
    fullName: string,
    phone: string,
    girlfriendName: string,
    email: string,
    reservationNumber: string,
    createdAt: int,
    status: Status,
    selectedSize: Option<string>,
    selectedColor: Option<string>)

  /** `Omit<Reservation, 'id' | 'reservationNumber' | 'createdAt' | 'status'>`:
      what a customer submits. */
  datatype ReservationRequest = ReservationRequest(
    productId: string,
    fullName: string,
    phone: string,
    girlfriendName: string,
    email: string,
    selectedSize: Option<string>,
    selectedColor: Option<string>)

  datatype User = User(isAdmin: bool)

  /** The state `AppProvider` keeps: products, reservations and the session. */
  datatype Store = Store(products: seq<Product>, reservations: seq<Reservation>, user: User)

  /** `p => p.id === id` */
  function ProductIdIs(id: string): Product -> bool {
    (p: Product) => p.id == id
  }

  /** `r => r.id === id` */
  function ReservationIdIs(id: string): Reservation -> bool {
    (r: Reservation) => r.id == id
  }
}
