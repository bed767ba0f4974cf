/**
 Which commission rate a dish is charged at: product, else category, else
 restaurant (app/services/commission.py). Rates are fractions.
 */
module Commission {
  import opened Options

  datatype Level = PRODUCT | CATEGORY | RESTAURANT

  /** The most specific rate that is set, and where it is set. */
  function Resolve(product: Option<real>, category: Option<real>, restaurant: real): (real, Level)
  {
    if product.Some? then (product.value, PRODUCT)
    else if category.Some? then (category.value, CATEGORY)
    else (restaurant, RESTAURANT)
  }

  function LineRateOf(product: Option<real>, category: Option<real>): Option<real>
  {
    if product.Some? then product else category
  }

  /** The rate a cart line carries; None leaves it to the restaurant's. */
  method LineRate(product: Option<real>, category: Option<real>) returns (rate: Option<real>)
    ensures rate == LineRateOf(product, category)
  {
    var rates := [product, category];
    assert rates[0] == product && rates[1] == category;
    for i := 0 to |rates|
      invariant forall k :: 0 <= k < i ==> rates[k].None?
    {
      if rates[i].Some? { return rates[i]; }
    }
    return None;
  }
}
