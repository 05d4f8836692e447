/** The super-admin's discount actions: the form is normalised (an empty
    text field is absent), validated, and stored; a discount can be deleted
    by id. Both actions are refused to anyone but a super admin. */
module Discounts {
  import opened Common
  import Price
  import Orders

  /** What `Number(text)` gives: a finite number, or something validation
      rejects (`NaN`, and the infinities). */
  datatype Num = NotNumber | Finite(value: real)

  /** The form as `formData.get` reads it: `None` for a missing field. */
  datatype DiscountForm = DiscountForm(code: Option<string>, percentage: Option<string>,
                                       amount: Option<string>, startDate: Option<string>,
                                       endDate: Option<string>, productId: Option<string>)

  /** A discount that passed validation, as it is stored. */
  datatype ValidDiscount = ValidDiscount(code: Option<string>, percentage: Option<real>,
                                         amount: Option<real>, startDate: string,
                                         endDate: string, productId: Option<string>)

  datatype Outcome = Unauthorized | Invalid | Failed | Done

  /** The object handed to the schema: code, percentage, amount and product
      lose an empty value; the dates are passed as read. */
  function Normalize(form: DiscountForm): (r: DiscountForm)
    ensures r.code != Some("") && r.percentage != Some("") && r.amount != Some("") && r.productId != Some("")
    ensures r.startDate == form.startDate && r.endDate == form.endDate
    ensures form.code != Some("") ==> r.code == form.code
    ensures form.percentage != Some("") ==> r.percentage == form.percentage
    ensures form.amount != Some("") ==> r.amount == form.amount
    ensures form.productId != Some("") ==> r.productId == form.productId
  {
    form.(code := NonEmpty(form.code), percentage := NonEmpty(form.percentage),
          amount := NonEmpty(form.amount), productId := NonEmpty(form.productId))
  }

  /** `z.coerce.number()` with bounds, behind `.optional()`: an absent field
      passes as absent; a present one must be a number within the bounds. */
  function Coerce(x: Option<string>, toNumber: string -> Num, hasMax: bool): Option<Option<real>>
  {
    if x.None? then Some(None)
    else
      var n := toNumber(x.value);
      if n.NotNumber? || n.value < 0.0 || (hasMax && n.value > 100.0) then None
      else Some(Some(n.value))
  }

  /** JavaScript truthiness of a validated optional number. */
  predicate Truthy(x: Option<real>)
  {
    x.Some? && x.value != 0.0
  }

  /** `discountSchema.safeParse`: `None` when validation fails. */
  function Validate(input: DiscountForm, toNumber: string -> Num): (r: Option<ValidDiscount>)
    ensures r.Some? ==> var v := r.value;
              && (v.percentage.Some? ==> 0.0 <= v.percentage.value <= 100.0)
              && (v.amount.Some? ==> 0.0 <= v.amount.value)
              && (Truthy(v.percentage) || Truthy(v.amount))
              && v.code == input.code && v.productId == input.productId
              && Some(v.startDate) == input.startDate && Some(v.endDate) == input.endDate
              && v.percentage.Some? == input.percentage.Some? && v.amount.Some? == input.amount.Some?
    ensures r.None? <==>
              || input.startDate.None? || input.endDate.None?
              || Coerce(input.percentage, toNumber, true).None?
              || Coerce(input.amount, toNumber, false).None?
              || !(Truthy(Coerce(input.percentage, toNumber, true).value)
                   || Truthy(Coerce(input.amount, toNumber, false).value))
  {
    var p := Coerce(input.percentage, toNumber, true);
    var a := Coerce(input.amount, toNumber, false);
    if input.startDate.None? || input.endDate.None? || p.None? || a.None? then None
    else if !(Truthy(p.value) || Truthy(a.value)) then None
    else Some(ValidDiscount(input.code, p.value, a.value, input.startDate.value,
                            input.endDate.value, input.productId))
  }

  /** A discount with neither a percentage nor an amount, or with both
      zero, is rejected; so is a percentage above 100 or a negative amount. */
  lemma RejectedForms(input: DiscountForm, toNumber: string -> Num)
    ensures ((input.percentage.None? || toNumber(input.percentage.value) == Finite(0.0))
             && (input.amount.None? || toNumber(input.amount.value) == Finite(0.0)))
            ==> Validate(input, toNumber).None?
    ensures (input.percentage.Some? && toNumber(input.percentage.value).Finite?
             && toNumber(input.percentage.value).value > 100.0) ==> Validate(input, toNumber).None?
    ensures (input.amount.Some? && toNumber(input.amount.value).Finite?
             && toNumber(input.amount.value).value < 0.0) ==> Validate(input, toNumber).None?
  {
  }

  /** An empty percentage field is absent rather than zero, so a form with
      only an amount passes. */
  lemma AmountOnlyAccepted(start: string, end: string, amount: string, toNumber: string -> Num)
    requires amount != "" && toNumber(amount) == Finite(5000.0)
    ensures Validate(Normalize(DiscountForm(Some(""), Some(""), Some(amount), Some(start), Some(end), Some(""))), toNumber)
            == Some(ValidDiscount(None, None, Some(5000.0), start, end, None))
  {
  }

  /** The discount a validated form gives the price calculation, once its
      dates are parsed. */
  function ToPrice(v: ValidDiscount, start: int, end: int): (d: Price.Discount)
    ensures d.percentage == v.percentage && d.amount == v.amount
    ensures d.startDate == start && d.endDate == end
  {
    Price.Discount(v.percentage, v.amount, start, end)
  }

  /** Validation is what keeps a discounted price within [0, price]: a
      validated discount never raises a price nor makes it negative. */
  lemma ValidatedWithinPrice(input: DiscountForm, toNumber: string -> Num, price: real, start: int, end: int)
    requires Validate(input, toNumber).Some? && 0.0 <= price
    ensures var d := ToPrice(Validate(input, toNumber).value, start, end);
            0.0 <= Price.Discounted(price, d) <= price
  {
    var d := ToPrice(Validate(input, toNumber).value, start, end);
    if Price.Truthy(d.percentage) {
      Price.PercentagePath(price, d);
    } else {
      Price.AmountPath(price, d);
    }
  }

  class DiscountTable {
    var discounts: map<string, ValidDiscount>

    constructor ()
      ensures discounts == map[]
    {
      discounts := map[];
    }

    /** `createDiscount`: `id` is the identifier the database assigns and
        `stored` whether the insert succeeds. */
    method CreateDiscount(role: Option<string>, form: DiscountForm, toNumber: string -> Num,
                          id: string, stored: bool) returns (r: Outcome)
      modifies this
      ensures var v := Validate(Normalize(form), toNumber);
              && (role != Some(Orders.SuperAdmin) ==> r == Unauthorized && discounts == old(discounts))
              && (role == Some(Orders.SuperAdmin) && v.None? ==> r == Invalid && discounts == old(discounts))
              && (role == Some(Orders.SuperAdmin) && v.Some? && (!stored || id in old(discounts)) ==>
                    r == Failed && discounts == old(discounts))
              && (role == Some(Orders.SuperAdmin) && v.Some? && stored && id !in old(discounts) ==>
                    r == Done && discounts == old(discounts)[id := v.value])
    {
      if role != Some(Orders.SuperAdmin) {
        return Unauthorized;
      }
      var validated := Validate(Normalize(form), toNumber);
      if validated.None? {
        return Invalid;
      }
      if !stored || id in discounts {
        return Failed;
      }
      discounts := discounts[id := validated.value];
      r := Done;
    }

    /** `deleteDiscount`: deleting a missing id fails. */
    method DeleteDiscount(role: Option<string>, id: string) returns (r: Outcome)
      modifies this
      ensures role != Some(Orders.SuperAdmin) ==> r == Unauthorized && discounts == old(discounts)
      ensures role == Some(Orders.SuperAdmin) && id !in old(discounts) ==> r == Failed && discounts == old(discounts)
      ensures role == Some(Orders.SuperAdmin) && id in old(discounts) ==> r == Done && discounts == old(discounts) - {id}
    {
      if role != Some(Orders.SuperAdmin) {
        return Unauthorized;
      }
      if id !in discounts {
        return Failed;
      }
      discounts := discounts - {id};
      r := Done;
    }
  }
}
