/** The order of internal/shared/models/order.go, with exact prices. */
module Orders {
  datatype Item = Item(product: nat, quantity: int, price: real)

  datatype Order = Order(user: nat, items: seq<Item>, total: real, status: string)

  const PENDING := "PENDING"

  /** What the items cost together. */
  function Cost(items: seq<Item>): real {
    if items == [] then 0.0
    else Cost(items[..|items| - 1]) + items[|items| - 1].quantity as real * items[|items| - 1].price
  }

  /** It is the sum of quantity times price, however the items are grouped. */
  lemma {:induction false} CostAdds(a: seq<Item>, b: seq<Item>)
    ensures Cost(a + b) == Cost(a) + Cost(b)
    ensures forall x: Item :: Cost([x]) == x.quantity as real * x.price
  {
    forall x: Item ensures Cost([x]) == x.quantity as real * x.price {
      assert Cost([x][..0]) == 0.0;
    }
    if b == [] {
      assert a + b == a;
    } else {
      assert (a + b)[..|a + b| - 1] == a + b[..|b| - 1];
      CostAdds(a, b[..|b| - 1]);
    }
  }
}
