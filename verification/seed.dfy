/** The built-in catalog (`src/data/mockData.ts`), the state the application
    starts in, and the reservation life cycle played through on it. */
module Seed {
  import opened Wrappers
  import opened Text
  import opened Domain
  import opened Catalog
  import opened AppStore
  import opened Storefront
  import opened Lifecycle

  /** The six seeded products; every one starts available. Image addresses
      are shortened to their photo number. */
  const MockProducts: seq<Product> := [
    Product("1", "Vestido Floral Ver\U{00E3}o",
      "Vestido floral perfeito para o ver\U{00E3}o, com tecido leve e design elegante.",
      159.90, "pexels-photo-7679720", "Vestidos", Mulher, true,
      ["P", "M", "G"], ["Azul", "Rosa", "Verde"]),
    Product("2", "Camisa Social Masculina",
      "Camisa social de alta qualidade, ideal para ocasi\U{00F5}es formais e ambiente de trabalho.",
      129.90, "pexels-photo-297933", "Camisas", Homem, true,
      ["P", "M", "G", "GG"], ["Branco", "Azul", "Preto"]),
    Product("3", "Cal\U{00E7}a Jeans Skinny",
      "Cal\U{00E7}a jeans skinny com lavagem moderna e corte perfeito para todos os tipos de corpo.",
      179.90, "pexels-photo-1082529", "Cal\U{00E7}as", Jovens, true,
      ["36", "38", "40", "42", "44"], ["Azul Claro", "Azul Escuro"]),
    Product("4", "Pijama de Algod\U{00E3}o",
      "Pijama confort\U{00E1}vel feito de algod\U{00E3}o puro, perfeito para uma boa noite de sono.",
      89.90, "pexels-photo-6765028", "Pijamas", Mulher, true,
      ["P", "M", "G"], ["Rosa", "Azul", "Cinza"]),
    Product("5", "T\U{00EA}nis Casual",
      "T\U{00EA}nis casual vers\U{00E1}til, combina com diversos looks.",
      149.90, "pexels-photo-6765029", "Cal\U{00E7}ado", Jovens, true,
      ["38", "39", "40", "41", "42"], ["Preto", "Branco", "Cinza"]),
    Product("6", "Conjunto de Roupa \U{00CD}ntima",
      "Conjunto de roupa \U{00ED}ntima confort\U{00E1}vel e elegante.",
      79.90, "pexels-photo-6765027", "Roupa \U{00CD}ntima", Mulher, true,
      ["P", "M", "G"], ["Preto", "Branco", "Rosa"])
  ]

  /** The state at start-up when nothing was saved: the seeded catalog, no
      reservations, and no admin session. */
  const InitialStore: Store := Store(MockProducts, [], User(false))

  /** The seeded ids are distinct. */
  lemma SeedIdsDistinct()
    ensures forall i, j :: 0 <= i < j < |MockProducts| ==> MockProducts[i].id != MockProducts[j].id
  {
  }

  /** The start-up state is consistent. */
  lemma InitialStoreConsistent()
    ensures Consistent(InitialStore)
  {
    NoReservationsIsConsistent(InitialStore);
  }

  /** The first product with a seeded id is the seeded product itself. */
  lemma {:induction false} FindSeeded(ps: seq<Product>, k: nat)
    requires k < |ps| && forall j :: 0 <= j < |ps| && j != k ==> ps[j].id != ps[k].id
    ensures FindProduct(ps, ps[k].id) == Some(ps[k])
  {
    var r := FindProduct(ps, ps[k].id);
    var m :| 0 <= m < |ps| && ps[m] == r.value && ps[m].id == ps[k].id;
    assert m == k;
  }

  const AnaRequest: ReservationRequest :=
    ReservationRequest("1", "Ana Silva", "912345678", "Rua X", "ana@x.pt", Some("M"), Some("Azul"))

  /** The store after Ana's reservation. */
  function AfterReserve(): Store {
    match AddReservation(InitialStore, AnaRequest, "r1", "0.k3j9x2ab", 0)
    case Ok(v) => v.store
    case Err(_) => InitialStore
  }

  /** The first seeded product is the one the id `1` finds, and it is available. */
  lemma {:induction false} FirstSeedFound()
    ensures |MockProducts| == 6 && MockProducts[0].id == "1" && MockProducts[0].available
    ensures FindProduct(MockProducts, "1") == Some(MockProducts[0])
  {
    SeedIdsDistinct();
    FindSeeded(MockProducts, 0);
  }

  /** The number the random text `0.k3j9x2ab` gives. */
  lemma SampleNumber()
    ensures ReservationNumber("0.k3j9x2ab") == "RES-K3J9X2"
  {
    assert Substring("0.k3j9x2ab", 2, 8) == "k3j9x2";
  }

  /** Reserving the first seeded product succeeds, returns a number in the
      ticket format, stores one pending reservation and makes the product
      unavailable. */
  lemma {:induction false} ScenarioReserve()
    ensures var r := AddReservation(InitialStore, AnaRequest, "r1", "0.k3j9x2ab", 0);
            && r.Ok?
            && r.value.number == "RES-K3J9X2"
            && |r.value.store.reservations| == 1
            && r.value.store.reservations[0].status == Pending
            && r.value.store.reservations[0].id == "r1"
            && r.value.store.reservations[0].productId == "1"
            && |r.value.store.products| == 6
            && r.value.store.products[0] == MockProducts[0].(available := false)
            && r.value.store == AfterReserve()
  {
    FirstSeedFound();
    SampleNumber();
  }

  /** The state after Ana's reservation, as the later scenarios use it. */
  lemma {:induction false} AfterReserveFacts()
    ensures var s := AfterReserve();
            && |s.reservations| == 1
            && s.reservations[0].id == "r1" && s.reservations[0].productId == "1"
            && s.reservations[0].status == Pending
            && |s.products| == 6
            && s.products[0].id == "1" && !s.products[0].available
  {
    ScenarioReserve();
    FirstSeedFound();
  }

  /** A second reservation of the same product is refused. */
  lemma {:induction false} ScenarioReserveTwice()
    ensures AddReservation(AfterReserve(), AnaRequest, "r2", "0.zz", 1).Err?
  {
    AfterReserveFacts();
    FirstHeldIsRefused(AfterReserve(), AnaRequest, "r2", "0.zz", 1);
  }

  /** A request for the id of the first product, which is unavailable, is refused. */
  lemma {:induction false} FirstHeldIsRefused(s: Store, req: ReservationRequest, id: string, raw: string, now: int)
    requires |s.products| > 0 && s.products[0].id == req.productId && !s.products[0].available
    ensures AddReservation(s, req, id, raw, now).Err?
  {
    var found := FindProduct(s.products, req.productId);
    var k :| && 0 <= k < |s.products| && s.products[k] == found.value && s.products[k].id == req.productId
             && forall j :: 0 <= j < k ==> s.products[j].id != req.productId;
    assert k == 0;
  }

  /** Confirming and then completing the only reservation changes no product
      and leaves no reservation holding one. */
  lemma {:induction false} ConfirmThenComplete(s: Store, id: string)
    requires |s.reservations| == 1 && s.reservations[0].id == id
    ensures var t := UpdateReservationStatus(UpdateReservationStatus(s, id, Confirmed), id, Completed);
            && t.products == s.products
            && |t.reservations| == 1 && t.reservations[0].status == Completed
            && forall i :: 0 <= i < |t.reservations| ==> !Holds(t.reservations[i].status)
  {
    var s1 := UpdateReservationStatus(s, id, Confirmed);
    assert s1.reservations[0].id == id;
  }

  /** Confirming and then completing keeps the product unavailable, although
      no pending or confirmed reservation refers to it any more: availability
      does not mirror the existence of an active reservation. */
  lemma {:induction false} ScenarioComplete()
    ensures var s := UpdateReservationStatus(
              UpdateReservationStatus(AfterReserve(), "r1", Confirmed), "r1", Completed);
            && s.reservations[0].status == Completed
            && !s.products[0].available
            && s.products[0].id == "1"
            && forall i :: 0 <= i < |s.reservations| ==> !Holds(s.reservations[i].status)
  {
    AfterReserveFacts();
    ConfirmThenComplete(AfterReserve(), "r1");
  }

  /** Cancelling releases the product. */
  lemma {:induction false} ScenarioCancel()
    ensures var s := UpdateReservationStatus(AfterReserve(), "r1", Canceled);
            && s.reservations[0].status == Canceled
            && s.products[0].available
  {
    ScenarioReserve();
    var s := AfterReserve();
    var t := FindReservation(s.reservations, "r1");
    assert s.reservations[0].id == "r1";
    assert t == Some(s.reservations[0]);
  }

  /** Deleting a reserved product leaves its reservation in place, pointing to
      a product that no longer exists. */
  lemma {:induction false} ScenarioDeleteReserved()
    ensures var s := AfterReserve();
            var ps := DeleteProduct(s.products, "1");
            && s.reservations[0].productId == "1"
            && forall i :: 0 <= i < |ps| ==> ps[i].id != "1"
  {
    ScenarioReserve();
    var ps := DeleteProduct(AfterReserve().products, "1");
    forall i | 0 <= i < |ps| ensures ps[i].id != "1" {
      assert ps[i] in ps;
    }
  }

  /** A start-up after Ana's reservation was saved: the catalog is reseeded,
      so the product she holds is available again. */
  lemma {:induction false} ReloadReleasesHeldProduct()
    ensures var s := Store(MockProducts, AfterReserve().reservations, User(false));
            && Holds(s.reservations[0].status) && s.reservations[0].productId == "1"
            && s.products[0].available
            && !Consistent(s)
  {
    ScenarioReserve();
  }

  /** On the seeded catalog the header's trousers link for the young people's
      collection lists nothing, although product 3 is such trousers; looking
      the link up in the header's table lists it. */
  lemma {:induction false} SeededTrousersLink()
    ensures MockProducts[2] !in CategoryProducts(MockProducts, Some("jovens"), Some("calcas"))
    ensures MockProducts[2] in CategoryProductsBySlug(MockProducts, Jovens, "calcas")
  {
    assert MockProducts[2].category == "Cal\U{00E7}as" && MockProducts[2].gender == Jovens;
    TrousersLinkOn(MockProducts, 2);
  }

  /** For any catalog, a young people's trousers product is missed by the link as
      written and found when the slug is looked up. */
  lemma {:induction false} TrousersLinkOn(ps: seq<Product>, k: nat)
    requires k < |ps| && ps[k].category == "Cal\U{00E7}as" && ps[k].gender == Jovens
    ensures ps[k] !in CategoryProducts(ps, Some("jovens"), Some("calcas"))
    ensures ps[k] in CategoryProductsBySlug(ps, Jovens, "calcas")
  {
    var p := ps[k];
    assert p in ps;
    TrousersLinkListsNothing(ps, Jovens);
    EveryLinkListsItsCategory(ps, Jovens, 1);
    assert HeaderLinks(Jovens)[1] == CategoryLink("Cal\U{00E7}as", "calcas");
  }

}
