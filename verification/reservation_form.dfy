/** The customer's reservation form (`src/components/ReservationForm.tsx`):
    its initial values, field edits, validation and submission. */
module ReservationForm {
  import opened Wrappers
  import opened Text
  import opened Domain
  import opened Catalog
  import opened AppStore

  /** No white space and no `@`: the class `[^\s@]`. */
  predicate NoSpaceOrAt(s: string) {
    forall i :: 0 <= i < |s| ==> !IsSpace(s[i]) && s[i] != '@'
  }

  /** The pattern `^[^\s@]+@[^\s@]+\.[^\s@]+$`, read literally: a non-empty
      local part, an `@`, a non-empty piece, a dot and a non-empty rest, none of
      the three pieces holding white space or `@`. */
  ghost predicate MatchesEmailPattern(s: string) {
    exists at, dot ::
      && 0 < at && at + 1 < dot < |s| - 1
      && s[at] == '@' && s[dot] == '.'
      && NoSpaceOrAt(s[..at]) && NoSpaceOrAt(s[at + 1..dot]) && NoSpaceOrAt(s[dot + 1..])
  }

  /** The e-mail test as the form performs it, by splitting at `@`: no white
      space, exactly one `@`, a non-empty local part, and a dot strictly
      inside the domain (neither its first nor its last character). */
  predicate IsEmailShape(s: string) {
    var parts := Split(s, '@');
    && (forall i :: 0 <= i < |s| ==> !IsSpace(s[i]))
    && |parts| == 2
    && |parts[0]| > 0
    && |parts[1]| >= 3
    && '.' in parts[1][1..|parts[1]| - 1]
  }

  /** What the split finds is a match of the pattern. */
  lemma {:induction false} EmailShapeMatches(s: string)
    requires IsEmailShape(s)
    ensures MatchesEmailPattern(s)
  {
    var parts := Split(s, '@');
    var a, b := parts[0], parts[1];
    JoinSplit(s, '@');
    assert parts[1..] == [b];
    assert s == a + ['@'] + b;
    var j :| 0 <= j < |b| - 2 && b[1..|b| - 1][j] == '.';
    var at, dot := |a|, |a| + 2 + j;
    assert s[..at] == a;
    assert s[at + 1..dot] == b[..j + 1];
    assert s[dot + 1..] == b[j + 2..];
    assert s[at] == '@' && s[dot] == '.';
  }

  /** A match of the pattern passes the split test. */
  lemma {:induction false} PatternHasEmailShape(s: string, at: int, dot: int)
    requires && 0 < at && at + 1 < dot < |s| - 1
             && s[at] == '@' && s[dot] == '.'
             && NoSpaceOrAt(s[..at]) && NoSpaceOrAt(s[at + 1..dot]) && NoSpaceOrAt(s[dot + 1..])
    ensures IsEmailShape(s)
  {
    var a, b := s[..at], s[at + 1..];
    assert b == s[at + 1..dot] + ['.'] + s[dot + 1..];
    assert '@' !in a;
    assert '@' !in b;
    assert Join([a, b], '@') == a + ['@'] + b;
    assert s == a + ['@'] + b;
    SplitJoin([a, b], '@');
    assert b[1..|b| - 1][dot - at - 2] == '.';
    forall i | 0 <= i < |s| ensures !IsSpace(s[i]) {
      if i < at { assert s[i] == s[..at][i]; }
      else if at < i < dot { assert s[i] == s[at + 1..dot][i - at - 1]; }
      else if dot < i { assert s[i] == s[dot + 1..][i - dot - 1]; }
    }
  }

  /** The splitting test accepts exactly the strings the pattern matches. */
  lemma {:induction false} EmailShapeIsPattern(s: string)
    ensures IsEmailShape(s) <==> MatchesEmailPattern(s)
  {
    if IsEmailShape(s) {
      EmailShapeMatches(s);
    }
    if MatchesEmailPattern(s) {
      var at, dot :| && 0 < at && at + 1 < dot < |s| - 1
                     && s[at] == '@' && s[dot] == '.'
                     && NoSpaceOrAt(s[..at]) && NoSpaceOrAt(s[at + 1..dot]) && NoSpaceOrAt(s[dot + 1..]);
      PatternHasEmailShape(s, at, dot);
    }
  }

  /** An accepted address has exactly one `@`, no white space at all, and so
      equals its own trim: an address typed with a blank before or after it is
      refused even though its trim would pass. */
  lemma {:induction false} ValidEmailFacts(s: string)
    requires MatchesEmailPattern(s)
    ensures CountChar(s, '@') == 1
    ensures forall i :: 0 <= i < |s| ==> !IsSpace(s[i])
    ensures !AllSpace(s)
    ensures Trim(s) == s
  {
    EmailShapeIsPattern(s);
  }

  /** A blank address never matches, so the blank check comes first only for
      the sake of its message. */
  lemma BlankEmailIsInvalid(s: string)
    ensures AllSpace(s) ==> !MatchesEmailPattern(s)
  {
    if MatchesEmailPattern(s) { ValidEmailFacts(s); }
  }

  /** The values the form holds. The size and colour start as the product's
      first size and colour, which do not exist when the lists are empty. */
  datatype FormData = FormData(
    fullName: string,
    phone: string,
    address: string,
    email: string,
    selectedSize: Option<string>,
    selectedColor: Option<string>)

  /** `xs[0]`, which is `undefined` for an empty array. */
  function First(xs: seq<string>): (r: Option<string>)
    ensures r.Some? <==> |xs| > 0
    ensures r.Some? ==> r.value in xs && r.value == xs[0]
  {
    if |xs| > 0 then Some(xs[0]) else None
  }

  /** The form's initial state: empty text fields and the product's first size
      and colour pre-selected. */
  function InitialForm(p: Product): (f: FormData)
    ensures f.fullName == "" && f.phone == "" && f.address == "" && f.email == ""
    ensures f.selectedSize.Some? <==> |p.sizes| > 0
    ensures f.selectedSize.Some? ==> f.selectedSize.value == p.sizes[0]
    ensures f.selectedColor.Some? <==> |p.colors| > 0
    ensures f.selectedColor.Some? ==> f.selectedColor.value == p.colors[0]
  {
    FormData("", "", "", "", First(p.sizes), First(p.colors))
  }

  /** The `name` attribute of an input or select. */
  datatype Field = FullName | Phone | Address | Email | SelectedSize | SelectedColor

  /** What a field shows; a text field always holds some text. */
  function FieldValue(f: FormData, field: Field): Option<string> {
    match field
    case FullName => Some(f.fullName)
    case Phone => Some(f.phone)
    case Address => Some(f.address)
    case Email => Some(f.email)
    case SelectedSize => f.selectedSize
    case SelectedColor => f.selectedColor
  }

  /** The form data together with the error banner. */
  datatype FormState = FormState(data: FormData, error: Option<string>)

  /** `handleChange`: the edited field takes the new value, every other field
      keeps its value, and the error banner is cleared. */
  function HandleChange(st: FormState, field: Field, value: string): (r: FormState)
    ensures FieldValue(r.data, field) == Some(value)
    ensures forall g :: g != field ==> FieldValue(r.data, g) == FieldValue(st.data, g)
    ensures r.error.None?
  {
    var d := st.data;
    var d' := match field
      case FullName => d.(fullName := value)
      case Phone => d.(phone := value)
      case Address => d.(address := value)
      case Email => d.(email := value)
      case SelectedSize => d.(selectedSize := Some(value))
      case SelectedColor => d.(selectedColor := Some(value));
    FormState(d', None)
  }

  /** A field's value after an edit depends only on that edit: two forms that
      agree on the other fields agree after the same edit. */
  lemma HandleChangeDeterminesForm(st1: FormState, st2: FormState, field: Field, value: string)
    requires forall g :: g != field ==> FieldValue(st1.data, g) == FieldValue(st2.data, g)
    ensures HandleChange(st1, field, value) == HandleChange(st2, field, value)
  {
    var r1, r2 := HandleChange(st1, field, value), HandleChange(st2, field, value);
    assert FieldValue(r1.data, FullName) == FieldValue(r2.data, FullName);
    assert FieldValue(r1.data, Phone) == FieldValue(r2.data, Phone);
    assert FieldValue(r1.data, Address) == FieldValue(r2.data, Address);
    assert FieldValue(r1.data, Email) == FieldValue(r2.data, Email);
    assert FieldValue(r1.data, SelectedSize) == FieldValue(r2.data, SelectedSize);
    assert FieldValue(r1.data, SelectedColor) == FieldValue(r2.data, SelectedColor);
  }

  /** The reasons `validateForm` gives, in the order it checks them. */
  datatype FormError = MissingName | MissingPhone | MissingAddress | MissingEmail | InvalidEmail

  function FormErrorMessage(e: FormError): string {
    match e
    case MissingName => "Nome completo \U{00E9} obrigat\U{00F3}rio"
    case MissingPhone => "Telem\U{00F3}vel \U{00E9} obrigat\U{00F3}rio"
    case MissingAddress => "Morada \U{00E9} obrigat\U{00F3}ria"
    case MissingEmail => "Email \U{00E9} obrigat\U{00F3}rio"
    case InvalidEmail => "Email inv\U{00E1}lido"
  }

  /** `validateForm`: the first blank field among name, phone, address and
      e-mail, in that order; then the e-mail pattern, applied to the untrimmed
      text; nothing when all pass. */
  function ValidateForm(f: FormData): (r: Option<FormError>)
    ensures r == Some(MissingName) <==> AllSpace(f.fullName)
    ensures r == Some(MissingPhone) <==> !AllSpace(f.fullName) && AllSpace(f.phone)
    ensures r == Some(MissingAddress) <==>
              !AllSpace(f.fullName) && !AllSpace(f.phone) && AllSpace(f.address)
    ensures r == Some(MissingEmail) <==>
              !AllSpace(f.fullName) && !AllSpace(f.phone) && !AllSpace(f.address) && AllSpace(f.email)
    ensures r.None? <==>
              && !AllSpace(f.fullName) && !AllSpace(f.phone) && !AllSpace(f.address)
              && MatchesEmailPattern(f.email)
  {
    EmailShapeIsPattern(f.email);
    BlankEmailIsInvalid(f.email);
    if Trim(f.fullName) == "" then Some(MissingName)
    else if Trim(f.phone) == "" then Some(MissingPhone)
    else if Trim(f.address) == "" then Some(MissingAddress)
    else if Trim(f.email) == "" then Some(MissingEmail)
    else if !IsEmailShape(f.email) then Some(InvalidEmail)
    else None
  }

  /** The request the form sends: the address travels in `girlfriendName`. */
  function RequestOf(p: Product, f: FormData): (req: ReservationRequest)
    ensures req.productId == p.id && req.girlfriendName == f.address
    ensures req.fullName == f.fullName && req.phone == f.phone && req.email == f.email
    ensures req.selectedSize == f.selectedSize && req.selectedColor == f.selectedColor
  {
    ReservationRequest(p.id, f.fullName, f.phone, f.address, f.email, f.selectedSize, f.selectedColor)
  }

  /** How a submission ends: a validation error, the product shown as no longer
      available, the store refusing, or a stored reservation. */
  datatype Outcome =
    | Invalid(reason: FormError)
    | Unavailable
    | Rejected(storeError: StoreError)
    | Submitted(result: Reserved)

  /** `handleSubmit`. `p` is the product the page shows, which can be older
      than the store's copy; the store decides with its own copy. */
  function Submit(s: Store, p: Product, f: FormData, id: string, raw: string, now: int)
    : (o: Outcome)
    ensures o.Invalid? <==> ValidateForm(f).Some?
    ensures o.Invalid? ==> o.reason == ValidateForm(f).value
    ensures o.Unavailable? <==> ValidateForm(f).None? && !p.available
    ensures o.Rejected? <==>
              var found := FindProduct(s.products, p.id);
              ValidateForm(f).None? && p.available && (found.None? || !found.value.available)
    ensures o.Submitted? ==>
              var rs := o.result.store.reservations;
              && MatchesEmailPattern(f.email)
              && |rs| == |s.reservations| + 1
              && rs[..|s.reservations|] == s.reservations
              && IsNewReservation(rs[|s.reservations|], RequestOf(p, f), id, ReservationNumber(raw), now)
  {
    match ValidateForm(f)
    case Some(e) => Invalid(e)
    case None =>
      if !p.available then Unavailable
      else
        match AddReservation(s, RequestOf(p, f), id, raw, now)
        case Err(e) => Rejected(e)
        case Ok(v) => Submitted(v)
  }

  /** The store after a submission: only a stored reservation changes it. */
  function StoreAfter(s: Store, o: Outcome): Store {
    if o.Submitted? then o.result.store else s
  }

  /** A valid form for a product the store still offers is always stored. */
  lemma ValidFormForAvailableProductIsStored(
    s: Store, p: Product, f: FormData, id: string, raw: string, now: int)
    requires ValidateForm(f).None?
    requires FindProduct(s.products, p.id) == Some(p) && p.available
    ensures Submit(s, p, f, id, raw, now).Submitted?
  {
  }

  /** A failed submission leaves the store as it was. */
  lemma FailedSubmitKeepsStore(s: Store, p: Product, f: FormData, id: string, raw: string, now: int)
    requires !Submit(s, p, f, id, raw, now).Submitted?
    ensures StoreAfter(s, Submit(s, p, f, id, raw, now)) == s
  {
  }

  /** The banner text after a submission; a stored reservation shows none
      and hands its number to the page instead. */
  function ShownError(o: Outcome): (m: Option<string>)
    ensures m.None? <==> o.Submitted?
  {
    match o
    case Invalid(e) => Some(FormErrorMessage(e))
    case Unavailable => Some("Este produto n\U{00E3}o est\U{00E1} mais dispon\U{00ED}vel para reserva.")
    case Rejected(e) => Some(StoreErrorMessage(e))
    case Submitted(_) => None
  }

  /** Different failures show different banners. */
  lemma ShownErrorDistinguishesFailures(o1: Outcome, o2: Outcome)
    requires !o1.Submitted? && !o2.Submitted? && o1 != o2
    ensures ShownError(o1) != ShownError(o2)
  {
  }
}
