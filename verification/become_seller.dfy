/**
 * The seller registration form of app/become-seller/page.tsx: the form
 * state, the field edits, the first-blank-field validation and the
 * submission that promotes the signed-in user to a seller.  The simulated
 * two-second delay is left out; a submission is the state after it ends.
 */
module BecomeSeller {
  import opened Wrappers
  import opened Types
  import Text
  import Store

  /** The eleven inputs of the form. */
  datatype FormField =
    | BusinessName | BusinessCategory | BusinessDescription | BusinessPhone | BusinessEmail
    | BusinessAddress | BusinessCity | BusinessPostalCode | BankAccountName | BankAccountNumber | BankCode

  datatype SellerForm = SellerForm(
    businessName: string,
    businessCategory: string,
    businessDescription: string,
    businessPhone: string,
    businessEmail: string,
    businessAddress: string,
    businessCity: string,
    businessPostalCode: string,
    bankAccountName: string,
    bankAccountNumber: string,
    bankCode: string)

  /** The form as the page first renders it: everything blank, category "Electronics". */
  const InitialForm := SellerForm("", "Electronics", "", "", "", "", "", "", "", "", "")

  function Get(form: SellerForm, field: FormField): string {
    match field
    case BusinessName => form.businessName
    case BusinessCategory => form.businessCategory
    case BusinessDescription => form.businessDescription
    case BusinessPhone => form.businessPhone
    case BusinessEmail => form.businessEmail
    case BusinessAddress => form.businessAddress
    case BusinessCity => form.businessCity
    case BusinessPostalCode => form.businessPostalCode
    case BankAccountName => form.bankAccountName
    case BankAccountNumber => form.bankAccountNumber
    case BankCode => form.bankCode
  }

  /** `{ ...prev, [name]: value }`: the named field takes the new value, the others keep theirs. */
  function Set(form: SellerForm, field: FormField, value: string): (r: SellerForm)
    ensures forall g :: Get(r, g) == if g == field then value else Get(form, g)
  {
    match field
    case BusinessName => form.(businessName := value)
    case BusinessCategory => form.(businessCategory := value)
    case BusinessDescription => form.(businessDescription := value)
    case BusinessPhone => form.(businessPhone := value)
    case BusinessEmail => form.(businessEmail := value)
    case BusinessAddress => form.(businessAddress := value)
    case BusinessCity => form.(businessCity := value)
    case BusinessPostalCode => form.(businessPostalCode := value)
    case BankAccountName => form.(bankAccountName := value)
    case BankAccountNumber => form.(bankAccountNumber := value)
    case BankCode => form.(bankCode := value)
  }

  /** A form is determined by what its fields read. */
  lemma FormExtensional(a: SellerForm, b: SellerForm)
    requires forall g :: Get(a, g) == Get(b, g)
    ensures a == b
  {
    assert Get(a, BusinessName) == Get(b, BusinessName);
    assert Get(a, BusinessCategory) == Get(b, BusinessCategory);
    assert Get(a, BusinessDescription) == Get(b, BusinessDescription);
    assert Get(a, BusinessPhone) == Get(b, BusinessPhone);
    assert Get(a, BusinessEmail) == Get(b, BusinessEmail);
    assert Get(a, BusinessAddress) == Get(b, BusinessAddress);
    assert Get(a, BusinessCity) == Get(b, BusinessCity);
    assert Get(a, BusinessPostalCode) == Get(b, BusinessPostalCode);
    assert Get(a, BankAccountName) == Get(b, BankAccountName);
    assert Get(a, BankAccountNumber) == Get(b, BankAccountNumber);
    assert Get(a, BankCode) == Get(b, BankCode);
  }

  /** Setting a field to what it already reads leaves the form as it was. */
  lemma SetUnchanged(form: SellerForm, field: FormField)
    ensures Set(form, field, Get(form, field)) == form
  {
    FormExtensional(Set(form, field, Get(form, field)), form);
  }

  // ---------------------------------------------------------------------------
  // Validation

  /** The required fields, in the order `validateForm` checks them. */
  const Required: seq<FormField> :=
    [BusinessName, BusinessEmail, BusinessPhone, BusinessAddress, BusinessCity,
     BankAccountName, BankAccountNumber, BankCode]

  function RequiredMessage(field: FormField): string {
    match field
    case BusinessName => "Business name is required"
    case BusinessEmail => "Business email is required"
    case BusinessPhone => "Business phone is required"
    case BusinessAddress => "Business address is required"
    case BusinessCity => "City is required"
    case BankAccountName => "Bank account name is required"
    case BankAccountNumber => "Bank account number is required"
    case BankCode => "Bank code is required"
    case _ => ""
  }

  /** `!value.trim()`: nothing but white space. */
  predicate Blank(value: string) {
    Text.Trim(value) == ""
  }

  /** Index of the first `true`. */
  function FirstTrue(flags: seq<bool>): (r: Option<nat>)
    ensures r.Some? ==> r.value < |flags| && flags[r.value]
    ensures r.Some? ==> forall j :: 0 <= j < r.value ==> !flags[j]
    ensures r.None? <==> forall j :: 0 <= j < |flags| ==> !flags[j]
  {
    if |flags| == 0 then None
    else if flags[0] then Some(0)
    else match FirstTrue(flags[1..])
      case None => None
      case Some(k) => Some(k + 1)
  }

  /** Which of `fields` are blank in `form`. */
  function BlankFlags(form: SellerForm, fields: seq<FormField>): (r: seq<bool>)
    ensures |r| == |fields| && forall i :: 0 <= i < |fields| ==> r[i] == Blank(Get(form, fields[i]))
  {
    seq(|fields|, i requires 0 <= i < |fields| => Blank(Get(form, fields[i])))
  }

  /** Index in `fields` of the first one that is blank in `form`. */
  function FirstBlank(form: SellerForm, fields: seq<FormField>): (r: Option<nat>)
    ensures r.Some? ==> r.value < |fields| && Blank(Get(form, fields[r.value]))
    ensures r.Some? ==> forall j :: 0 <= j < r.value ==> !Blank(Get(form, fields[j]))
    ensures r.None? <==> forall j :: 0 <= j < |fields| ==> !Blank(Get(form, fields[j]))
  {
    var flags := BlankFlags(form, fields);
    FirstTrue(flags)
  }

  /** `validateForm`: `None` when it passes, otherwise the error it reports. */
  function ValidateForm(form: SellerForm): (r: Option<string>)
    ensures r.None? <==> forall f :: f in Required ==> !Blank(Get(form, f))
    ensures r.Some? ==> exists i :: (0 <= i < |Required| && Blank(Get(form, Required[i]))
      && r.value == RequiredMessage(Required[i])
      && forall j :: 0 <= j < i ==> !Blank(Get(form, Required[j])))
  {
    match FirstBlank(form, Required)
    case None => None
    case Some(i) => Some(RequiredMessage(Required[i]))
  }

  /** Each required field has its own message, so the error names the field that failed. */
  lemma RequiredMessagesDistinct(i: nat, j: nat)
    requires i < j < |Required|
    ensures RequiredMessage(Required[i]) != RequiredMessage(Required[j])
  {
  }

  /** Category, description and postal code are never checked. */
  lemma OptionalFieldsIgnored(form: SellerForm, field: FormField, value: string)
    requires field !in Required
    ensures ValidateForm(Set(form, field, value)) == ValidateForm(form)
  {
    var other := Set(form, field, value);
    assert forall f :: f in Required ==> Get(other, f) == Get(form, f);
    assert FirstBlank(other, Required) == FirstBlank(form, Required) by {
      FirstBlankDependsOnFields(form, other, Required);
    }
  }

  lemma FirstBlankDependsOnFields(a: SellerForm, b: SellerForm, fields: seq<FormField>)
    requires forall f :: f in fields ==> Get(a, f) == Get(b, f)
    ensures FirstBlank(a, fields) == FirstBlank(b, fields)
  {
    assert BlankFlags(a, fields) == BlankFlags(b, fields);
  }

  /** A required field made only of white space fails validation just like an empty one. */
  lemma WhiteSpaceIsMissing(form: SellerForm, field: FormField, value: string)
    requires field in Required && Text.AllSpace(value)
    ensures ValidateForm(Set(form, field, value)).Some?
  {
    Text.TrimEmptyIffAllSpace(value);
    var other := Set(form, field, value);
    assert Blank(Get(other, field));
  }

  // ---------------------------------------------------------------------------
  // The page

  datatype BecomeSellerPage = BecomeSellerPage(form: SellerForm, error: string, isSuccess: bool)

  const InitialPage := BecomeSellerPage(InitialForm, "", false)

  /** `handleInputChange`: store the new value and clear the error. */
  function HandleInputChange(page: BecomeSellerPage, field: FieldEdit): (r: BecomeSellerPage)
    ensures r.error == "" && r.isSuccess == page.isSuccess
    ensures Get(r.form, field.field) == field.value
    ensures forall g :: g != field.field ==> Get(r.form, g) == Get(page.form, g)
  {
    page.(form := Set(page.form, field.field, field.value), error := "")
  }

  /** One `change` event: the input's name and its new value. */
  datatype FieldEdit = FieldEdit(field: FormField, value: string)

  /**
   * `handleSubmit` once its delay is over: an invalid form shows the first
   * error and leaves the store alone; a valid one marks the page successful
   * and makes a signed-in user a seller.
   */
  function HandleSubmit(page: BecomeSellerPage, store: Store.StoreState): (r: (BecomeSellerPage, Store.StoreState))
    ensures ValidateForm(page.form).Some? ==>
      r.1 == store && r.0 == page.(error := ValidateForm(page.form).value)
    ensures ValidateForm(page.form).None? ==> r.0 == page.(isSuccess := true)
    ensures ValidateForm(page.form).None? && store.user.Some? ==>
      r.1 == store.(user := Some(store.user.value.(role := Seller)))
    ensures store.user.None? ==> r.1 == store
  {
    match ValidateForm(page.form)
    case Some(message) => (page.(error := message), store)
    case None =>
      (page.(isSuccess := true), if store.user.Some? then Store.UpdateUserRole(store, Seller) else store)
  }

  /** A submission keeps the store's invariants. */
  lemma HandleSubmitKeepsValid(page: BecomeSellerPage, store: Store.StoreState)
    requires Store.Valid(store)
    ensures Store.Valid(HandleSubmit(page, store).1)
  {
  }

  /** Filling every required field with something other than white space lets the form through. */
  lemma FilledFormPasses(form: SellerForm)
    requires forall i :: 0 <= i < |Required| ==>
      exists k :: 0 <= k < |Get(form, Required[i])| && !Text.IsJsSpace(Get(form, Required[i])[k])
    ensures ValidateForm(form).None?
  {
    forall f | f in Required
      ensures !Blank(Get(form, f))
    {
      Text.TrimEmptyIffAllSpace(Get(form, f));
    }
  }
}
