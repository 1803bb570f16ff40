/** The admin product editor (`src/pages/admin/AdminProducts.tsx`): the draft
    a create or edit starts from, how each input changes the draft, and what
    saving or deleting does to the catalog. */
module AdminProducts {
  import opened Wrappers
  import opened Text
  import opened Seqs
  import opened Domain
  import opened Catalog

  /** The values a new product starts with; its id is chosen on saving. */
  const DefaultProduct: Product := Product(
    "", "", "", 0.0, "", "Vestidos", Mulher, true, ["P", "M", "G"], ["Preto"])

  /** Every field of `p`, as a patch. */
  function PatchOf(p: Product): (q: ProductPatch)
    ensures forall base :: ApplyPatch(base, q) == p
  {
    ProductPatch(
      Some(p.id), Some(p.name), Some(p.description), Some(p.price), Some(p.imageUrl),
      Some(p.category), Some(p.gender), Some(p.available), Some(p.sizes), Some(p.colors))
  }

  /** `initialProductState`: every field of the default product except the id. */
  const InitialDraft: ProductPatch := PatchOf(DefaultProduct).(id := None)

  /** The categories the editor offers for a gender. */
  function CategoriesFor(g: Gender): (cs: seq<string>)
    ensures |cs| > 0
    ensures "Cal\U{00E7}as" in cs && "Pijamas" in cs
    ensures "Roupa \U{00CD}ntima" in cs && "Cal\U{00E7}ado" in cs
  {
    match g
    case Homem => ["Camisas", "Cal\U{00E7}as", "Blazers", "Pijamas", "Roupa \U{00CD}ntima", "Cal\U{00E7}ado"]
    case Mulher => ["Vestidos", "Blusas", "Saias", "Cal\U{00E7}as", "Pijamas", "Roupa \U{00CD}ntima", "Cal\U{00E7}ado"]
    case Jovens => ["Camisas", "Cal\U{00E7}as", "Vestidos", "Pijamas", "Roupa \U{00CD}ntima", "Cal\U{00E7}ado"]
  }

  /** A new draft is in a category its gender offers, and it is the first one. */
  lemma InitialDraftCategoryIsOffered()
    ensures InitialDraft.category == Some(CategoriesFor(InitialDraft.gender.value)[0])
  {
  }

  /** The editor: which mode is open and the draft it holds. */
  datatype Editor = Editor(isEditing: bool, isCreating: bool, current: Option<ProductPatch>)

  const Closed: Editor := Editor(false, false, None)

  /** `handleEditClick`: edit a copy of every field of `p`. */
  function EditClick(p: Product): (e: Editor)
    ensures e.isEditing && !e.isCreating
    ensures e.current.Some? && e.current.value.id == Some(p.id)
    ensures forall base :: ApplyPatch(base, e.current.value) == p
  {
    Editor(true, false, Some(PatchOf(p)))
  }

  /** `handleCreateClick`: a fresh draft with no id. */
  function CreateClick(): (e: Editor)
    ensures e.isCreating && !e.isEditing
    ensures e.current == Some(InitialDraft) && InitialDraft.id.None?
  {
    Editor(false, true, Some(InitialDraft))
  }

  /** `handleCancelEdit` */
  function CancelEdit(): (e: Editor)
    ensures !e.isEditing && !e.isCreating && e.current.None?
  {
    Closed
  }

  /** `value.split(',').map(item => item.trim())`: one trimmed item per
      comma-separated piece, as many as there are commas plus one. */
  function SplitTrim(text: string): (items: seq<string>)
    ensures |items| == CountChar(text, ',') + 1
    ensures forall i :: 0 <= i < |items| ==>
              items[i] == Trim(Split(text, ',')[i]) && ',' !in items[i]
  {
    var pieces := Split(text, ',');
    seq(|pieces|, i requires 0 <= i < |pieces| => Trim(pieces[i]))
  }

  /** `xs.join(', ') || ''`: what the sizes and colours boxes show. */
  function ListText(xs: seq<string>): string {
    if |xs| == 0 then "" else Join(Padded(xs), ',')
  }

  /** The items as `join(', ')` places them between commas: every item after
      the first carries one leading blank. */
  function Padded(xs: seq<string>): (ps: seq<string>)
    requires |xs| > 0
    ensures |ps| == |xs| && ps[0] == xs[0]
    ensures forall i :: 0 < i < |xs| ==> ps[i] == [' '] + xs[i]
  {
    [xs[0]] + seq(|xs| - 1, i requires 0 <= i < |xs| - 1 => [' '] + xs[i + 1])
  }

  /** Editing the sizes or colours box without changing it keeps the list,
      provided it is non-empty and its items carry no comma and no outer
      white space. */
  lemma {:induction false} SplitTrimListText(xs: seq<string>)
    requires |xs| > 0
    requires forall i :: 0 <= i < |xs| ==> ',' !in xs[i] && Trimmed(xs[i])
    ensures SplitTrim(ListText(xs)) == xs
  {
    var ps := Padded(xs);
    forall i | 0 <= i < |ps| ensures ',' !in ps[i] {
      if i > 0 { assert ps[i] == [' '] + xs[i]; }
    }
    SplitJoin(ps, ',');
    var items := SplitTrim(ListText(xs));
    forall i | 0 <= i < |xs| ensures items[i] == xs[i] {
      TrimPadded(xs[i]);
    }
  }

  /** An emptied box does not give an empty list but one blank item. */
  lemma EmptiedListIsOneBlank()
    ensures SplitTrim("") == [""]
  {
    assert Split("", ',') == [""];
  }

  /** The inputs of the editor form. The price arrives already parsed from
      the typed text, `None` standing for `NaN`. */
  datatype TextField = Name | Description | ImageUrl | Category
  datatype ListField = Sizes | Colors
  datatype Input =
    | PriceInput(parsed: Option<real>)
    | AvailableInput(checked: bool)
    | ListInput(list: ListField, text: string)
    | GenderInput(gender: Gender)
    | TextInput(field: TextField, value: string)

  /** `handleInputChange` on a draft: the touched field takes its new value
      and nothing else changes, except that choosing a gender also resets the
      category to the first one that gender offers. */
  function ChangeDraft(d: ProductPatch, input: Input): (r: ProductPatch)
    ensures input.PriceInput? ==>
              r == d.(price := Some(if input.parsed.Some? then input.parsed.value else 0.0))
    ensures input.AvailableInput? ==> r == d.(available := Some(input.checked))
    ensures input.ListInput? && input.list == Sizes ==> r == d.(sizes := Some(SplitTrim(input.text)))
    ensures input.ListInput? && input.list == Colors ==> r == d.(colors := Some(SplitTrim(input.text)))
    ensures input.GenderInput? ==>
              && r.gender == Some(input.gender)
              && r.category == Some(CategoriesFor(input.gender)[0])
              && r.category.value in CategoriesFor(input.gender)
              && r.(gender := d.gender, category := d.category) == d
    ensures input.TextInput? ==>
              match input.field
              case Name => r == d.(name := Some(input.value))
              case Description => r == d.(description := Some(input.value))
              case ImageUrl => r == d.(imageUrl := Some(input.value))
              case Category => r == d.(category := Some(input.value))
    ensures r.id == d.id
  {
    match input
    case PriceInput(parsed) => d.(price := Some(parsed.GetOr(0.0)))
    case AvailableInput(checked) => d.(available := Some(checked))
    case ListInput(Sizes, text) => d.(sizes := Some(SplitTrim(text)))
    case ListInput(Colors, text) => d.(colors := Some(SplitTrim(text)))
    case GenderInput(g) => d.(gender := Some(g), category := Some(CategoriesFor(g)[0]))
    case TextInput(Name, v) => d.(name := Some(v))
    case TextInput(Description, v) => d.(description := Some(v))
    case TextInput(ImageUrl, v) => d.(imageUrl := Some(v))
    case TextInput(Category, v) => d.(category := Some(v))
  }

  /** The editor after an input: the mode stays, a draft is always open
      afterwards (without one the spread starts from an empty object), and the
      draft keeps its id, so a later save still patches the same product. */
  function InputChange(e: Editor, input: Input): (r: Editor)
    ensures r.isEditing == e.isEditing && r.isCreating == e.isCreating
    ensures r.current.Some?
    ensures e.current.Some? ==> r.current.value.id == e.current.value.id
    ensures e.current.None? ==> r.current.value.id.None?
    ensures r.current.value == ChangeDraft(e.current.GetOr(EmptyPatch), input)
  {
    e.(current := Some(ChangeDraft(e.current.GetOr(EmptyPatch), input)))
  }

  /** `Math.random().toString(36).substring(2, 11)`: the random text after its
      first two characters, cut to at most nine. */
  function NewProductId(raw: string): (id: string)
    ensures |id| <= 9
    ensures |id| == if |raw| <= 2 then 0 else if |raw| >= 11 then 9 else |raw| - 2
    ensures forall i :: 0 <= i < |id| ==> 2 + i < |raw| && id[i] == raw[2 + i]
  {
    Substring(raw, 2, 11)
  }

  /** `{ ...initialProductState, ...draft, id }`: the draft's fields over the
      defaults, with the new id. */
  function NewProduct(d: ProductPatch, raw: string): (p: Product)
    ensures p.id == NewProductId(raw)
    ensures p.(id := "") == ApplyPatch(DefaultProduct, d.(id := None))
  {
    ApplyPatch(DefaultProduct, d).(id := NewProductId(raw))
  }

  /** `handleSubmit`. Without a draft nothing happens. Otherwise a create adds
      the new product at the end, an edit whose draft has a non-empty id
      patches the products with that id, and the editor closes. */
  function SubmitProductForm(e: Editor, ps: seq<Product>, raw: string): (r: (Editor, seq<Product>))
    ensures e.current.None? ==> r == (e, ps)
    ensures e.current.Some? ==> r.0 == Closed
    ensures e.current.Some? && e.isCreating ==>
              r.1 == AddProduct(ps, NewProduct(e.current.value, raw))
    ensures e.current.Some? && !e.isCreating && e.isEditing
            && e.current.value.id.Some? && e.current.value.id.value != "" ==>
              r.1 == UpdateProducts(ps, e.current.value.id.value, e.current.value)
    ensures e.current.Some? && !e.isCreating
            && !(e.isEditing && e.current.value.id.Some? && e.current.value.id.value != "") ==>
              r.1 == ps
  {
    match e.current
    case None => (e, ps)
    case Some(d) =>
      if e.isCreating then (Closed, AddProduct(ps, NewProduct(d, raw)))
      else if e.isEditing && d.id.Some? && d.id.value != "" then
        (Closed, UpdateProducts(ps, d.id.value, d))
      else (Closed, ps)
  }

  /** Opening a product and saving it unchanged leaves a catalog with unique
      ids as it was. */
  lemma {:induction false} SaveUnchangedIsNoOp(ps: seq<Product>, k: nat, raw: string)
    requires k < |ps| && ps[k].id != ""
    requires forall i, j :: 0 <= i < j < |ps| ==> ps[i].id != ps[j].id
    ensures SubmitProductForm(EditClick(ps[k]), ps, raw).1 == ps
  {
    var p := ps[k];
    var r := UpdateProducts(ps, p.id, PatchOf(p));
    forall i | 0 <= i < |ps| ensures r[i] == ps[i] {
      if i < k { assert ps[i].id != p.id; }
      if i > k { assert p.id != ps[i].id; }
    }
  }

  /** Editing a product, changing one input and saving patches exactly the
      products with the edited product's id with the changed draft. */
  lemma {:induction false} EditInputSavePatchesSameProduct(
    ps: seq<Product>, p: Product, input: Input, raw: string)
    requires p.id != ""
    ensures var e := InputChange(EditClick(p), input);
            SubmitProductForm(e, ps, raw).1 == UpdateProducts(ps, p.id, e.current.value)
  {
    var e := InputChange(EditClick(p), input);
    assert e.current.value.id == Some(p.id);
  }

  /** `handleDelete`: the product goes only when the admin confirms. */
  function HandleDelete(ps: seq<Product>, id: string, confirmed: bool): (r: seq<Product>)
    ensures !confirmed ==> r == ps
    ensures confirmed ==> forall p :: p in r <==> p in ps && p.id != id
    ensures confirmed ==> forall p :: p in r ==> multiset(r)[p] == multiset(ps)[p]
    ensures confirmed ==> IsSubseq(r, ps) && |r| + Count(ps, ProductIdIs(id)) == |ps|
  {
    if confirmed then DeleteProduct(ps, id) else ps
  }
}
