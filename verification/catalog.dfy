/** The product half of the store (`addProduct`, `updateProduct`,
    `deleteProduct` and the product lookup in `src/context/AppContext.tsx`). */
module Catalog {
  import opened Wrappers
  import opened Seqs
  import opened Domain

  /** `[...products, p]`: the new product goes last and every earlier product
      keeps its value and its position. */
  function AddProduct(ps: seq<Product>, p: Product): (r: seq<Product>)
    ensures |r| == |ps| + 1
    ensures forall i :: 0 <= i < |ps| ==> r[i] == ps[i]
    ensures r[|ps|] == p
  {
    ps + [p]
  }

  /** `products.map(p => p.id === id ? { ...p, ...patch } : p)`: the products
      with that id take the patched fields, every other product stays as it
      was, and the length does not change. */
  function UpdateProducts(ps: seq<Product>, id: string, patch: ProductPatch): (r: seq<Product>)
    ensures |r| == |ps|
    ensures forall i :: 0 <= i < |ps| && ps[i].id == id ==> r[i] == ApplyPatch(ps[i], patch)
    ensures forall i :: 0 <= i < |ps| && ps[i].id != id ==> r[i] == ps[i]
  {
    if |ps| == 0 then []
    else
      var head := if ps[0].id == id then ApplyPatch(ps[0], patch) else ps[0];
      [head] + UpdateProducts(ps[1..], id, patch)
  }

  /** An update for an id no product has changes nothing. */
  lemma UpdateUnknownIdIsNoOp(ps: seq<Product>, id: string, patch: ProductPatch)
    requires forall i :: 0 <= i < |ps| ==> ps[i].id != id
    ensures UpdateProducts(ps, id, patch) == ps
  {
  }

  /** An update that leaves ids alone gives the same catalog when repeated. */
  lemma UpdateProductsTwice(ps: seq<Product>, id: string, patch: ProductPatch)
    requires patch.id.None? || patch.id == Some(id)
    ensures UpdateProducts(UpdateProducts(ps, id, patch), id, patch) == UpdateProducts(ps, id, patch)
  {
    var once := UpdateProducts(ps, id, patch);
    var twice := UpdateProducts(once, id, patch);
    forall i | 0 <= i < |ps| ensures twice[i] == once[i] {
      if ps[i].id == id {
        assert once[i].id == id;
      }
    }
  }

  /** `products.filter(p => p.id !== id)`: exactly the products with another
      id, in their original order; an unknown id removes nothing. */
  function DeleteProduct(ps: seq<Product>, id: string): (r: seq<Product>)
    ensures forall p :: p in r <==> p in ps && p.id != id
    ensures forall p :: p in r ==> multiset(r)[p] == multiset(ps)[p]
    ensures IsSubseq(r, ps)
    ensures (forall i :: 0 <= i < |ps| ==> ps[i].id != id) ==> r == ps
    ensures |r| + Count(ps, ProductIdIs(id)) == |ps|
  {
    CountComplement(ps, ProductIdIs(id));
    Filter(ps, Not(ProductIdIs(id)))
  }

  /** `products.find(p => p.id === id)`: the first product with that id. */
  function FindProduct(ps: seq<Product>, id: string): (r: Option<Product>)
    ensures r.None? <==> forall i :: 0 <= i < |ps| ==> ps[i].id != id
    ensures r.Some? ==> exists k :: && 0 <= k < |ps| && ps[k] == r.value && ps[k].id == id
                                   && forall j :: 0 <= j < k ==> ps[j].id != id
  {
    Find(ps, ProductIdIs(id))
  }
}
