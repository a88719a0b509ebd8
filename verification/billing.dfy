/** Order pricing and the payment flag shown on the user's dashboard. */
module Billing {
  import opened Tables

  /** Unit price per service name. */
  const Prices: map<string, int> := map["Wash" := 50, "Dry" := 32, "Iron" := 20]

  /** `pricing.get(service, 0)`: a name missing from the table costs 0. */
  function UnitPrice(service: string): (price: int)
  {
    if service in Prices then Prices[service] else 0
  }

  /** The total stored with a new order. */
  function TotalPrice(service: string, quantity: int): (total: int)
    ensures total == 0 <==> quantity == 0 || service !in Prices
    ensures quantity >= 0 ==> 0 <= total <= 50 * quantity
    ensures quantity <= 0 ==> 50 * quantity <= total <= 0
  {
    UnitPrice(service) * quantity
  }

  /** The three priced services and the silent zero for any other name. */
  lemma UnitPrices(service: string)
    ensures UnitPrice("Wash") == 50 && UnitPrice("Dry") == 32 && UnitPrice("Iron") == 20
    ensures service != "Wash" && service != "Dry" && service != "Iron" ==> UnitPrice(service) == 0
  {
  }

  /** Worked totals: 3 washes, 2 dries, 5 irons, and 4 of an unknown service. */
  lemma TotalPriceExamples()
    ensures TotalPrice("Wash", 3) == 150 && TotalPrice("Dry", 2) == 64
    ensures TotalPrice("Iron", 5) == 100 && TotalPrice("Mystery", 4) == 0
  {
  }

  /** Any quantity within 1/50 of the INTEGER range gives a total that fits
      the range as well, whatever the service. */
  lemma TotalPriceFits(service: string, quantity: int)
    requires -(MaxInteger / 50) <= quantity <= MaxInteger / 50
    ensures FitsInteger(quantity) && FitsInteger(TotalPrice(service, quantity))
  {
  }

  /** A quantity that fits the INTEGER range can still give a total that
      does not: 2^58 washes. */
  lemma TotalPriceCanOverflow()
    ensures FitsInteger(0x400_0000_0000_0000)
    ensures !FitsInteger(TotalPrice("Wash", 0x400_0000_0000_0000))
  {
  }

  /** `any(order["status"] == "Completed" for order in orders)`. */
  function PaymentAllowed(orders: seq<Order>): (allowed: bool)
    ensures allowed <==> exists i :: 0 <= i < |orders| && orders[i].status == "Completed"
  {
    if orders == [] then false
    else
      orders[0].status == "Completed" || (
        assert forall i | 0 <= i < |orders[1..]| :: orders[1..][i] == orders[i + 1];
        PaymentAllowed(orders[1..]))
  }

  /** The flag does not depend on the order in which the orders are listed. */
  lemma PaymentAllowedIgnoresOrder(a: seq<Order>, b: seq<Order>)
    requires multiset(a) == multiset(b)
    ensures PaymentAllowed(a) == PaymentAllowed(b)
  {
    if PaymentAllowed(a) {
      var i :| 0 <= i < |a| && a[i].status == "Completed";
      assert a[i] in multiset(b);
      var j :| 0 <= j < |b| && b[j] == a[i];
    }
    if PaymentAllowed(b) {
      var j :| 0 <= j < |b| && b[j].status == "Completed";
      assert b[j] in multiset(a);
      var i :| 0 <= i < |a| && a[i] == b[j];
    }
  }
}
