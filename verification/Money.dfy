/** Two's-complement 64-bit arithmetic and invoice amounts in cents. */
module Money {
  import opened AppErrors
  import opened Sums

  const TWO_63: int := 0x8000_0000_0000_0000
  const TWO_64: int := 0x1_0000_0000_0000_0000

  type int64 = x: int | -0x8000_0000_0000_0000 <= x < 0x8000_0000_0000_0000

  predicate InRange(x: int) { -TWO_63 <= x < TWO_63 }

  // The 64-bit value of a mathematical integer: the only one congruent to it.
  function Wrap(x: int): (r: int64)
    ensures (r - x) % TWO_64 == 0
    ensures InRange(x) ==> r == x
  {
    (x + TWO_63) % TWO_64 - TWO_63
  }

  lemma WrapIsUnique(x: int, y: int)
    requires InRange(y) && (y - x) % TWO_64 == 0
    ensures Wrap(x) == y
  {
    var k := (y - x) / TWO_64;
    assert x + TWO_63 + k * TWO_64 == y + TWO_63;
  }

  lemma WrapAdd(x: int, y: int)
    ensures Wrap(Wrap(x) + Wrap(y)) == Wrap(x + y)
  {
    WrapIsUnique(Wrap(x) + Wrap(y), Wrap(x + y));
  }

  datatype InvoiceItem = InvoiceItem(description: string, quantity: int64, unitPriceCents: int64)
  {
    // The mathematical line total; the program only ever sees it wrapped.
    function Exact(): int { quantity * unitPriceCents }

    function TotalCents(): int64 { Wrap(quantity * unitPriceCents) }

    predicate Valid() { description != "" && quantity > 0 && unitPriceCents >= 0 }
  }

  function NewInvoiceItem(description: string, quantity: int64, unitPriceCents: int64): (r: Result<InvoiceItem>)
    ensures r.Ok? <==> InvoiceItem(description, quantity, unitPriceCents).Valid()
    ensures r.Ok? <==> description != "" && quantity > 0 && unitPriceCents >= 0
    ensures r.Ok? ==> r.value == InvoiceItem(description, quantity, unitPriceCents)
  {
    if description == "" then Err(Plain("invalid invoice item\ndescription is required"))
    else if quantity <= 0 then Err(Plain("invalid invoice item\nquantity must be positive"))
    else if unitPriceCents < 0 then Err(Plain("invalid invoice item\nunit price cannot be negative"))
    else Ok(InvoiceItem(description, quantity, unitPriceCents))
  }

  predicate AllValid(items: seq<InvoiceItem>) {
    forall i :: 0 <= i < |items| ==> items[i].Valid()
  }

  function ExactOf(item: InvoiceItem): int { item.Exact() }

  // The mathematical sum of the line totals.
  function ExactTotal(items: seq<InvoiceItem>): int { Sum(items, ExactOf) }

  // No product and no partial sum of the loop leaves the 64-bit range.
  ghost predicate OverflowFree(items: seq<InvoiceItem>) {
    && (forall i :: 0 <= i < |items| ==> items[i].TotalCents() == items[i].Exact())
    && (forall k :: 0 <= k <= |items| ==> Wrap(ExactTotal(items[..k])) == ExactTotal(items[..k]))
  }

  lemma LineNotNegative(item: InvoiceItem)
    requires item.Valid()
    ensures ExactOf(item) >= 0
  {
  }

  /** The subtotal of valid items equals the mathematical sum exactly when that sum is
      below 2^63, and then neither a line total nor a partial sum overflowed either. */
  lemma SubtotalExactness(items: seq<InvoiceItem>)
    requires AllValid(items)
    ensures Wrap(ExactTotal(items)) == ExactTotal(items) <==> ExactTotal(items) < TWO_63
    ensures OverflowFree(items) <==> ExactTotal(items) < TWO_63
  {
    forall i | 0 <= i < |items| ensures ExactOf(items[i]) >= 0 { LineNotNegative(items[i]); }
    forall k | 0 <= k <= |items|
      ensures 0 <= ExactTotal(items[..k]) <= ExactTotal(items)
      ensures k < |items| ==> 0 <= ExactOf(items[k]) <= ExactTotal(items)
    {
      PrefixAtMost(items, k, ExactOf);
    }
    assert items[..|items|] == items;
  }

  lemma WrapStep(a: int, b: int, x: int)
    requires Wrap(a) == Wrap(b)
    ensures Wrap(a + Wrap(x)) == Wrap(b + x)
  {
    WrapAdd(a, Wrap(x));
    WrapAdd(b, x);
  }

  /** Line totals that were wrapped one by one still add up, in 64 bits, to the items' subtotal. */
  lemma {:induction false} WrappedLinesAddUp<T>(items: seq<InvoiceItem>, lines: seq<T>, total: T -> int)
    requires |items| == |lines| && forall i :: 0 <= i < |items| ==> total(lines[i]) == items[i].TotalCents()
    ensures Wrap(Sum(lines, total)) == Wrap(ExactTotal(items))
  {
    if items == [] {
    } else {
      var n := |items| - 1;
      WrappedLinesAddUp(items[..n], lines[..n], total);
      WrapStep(Sum(lines[..n], total), ExactTotal(items[..n]), items[n].Exact());
    }
  }

  /** Reordering the items does not change the subtotal, wrapped or not. */
  lemma SubtotalOfPermutation(a: seq<InvoiceItem>, b: seq<InvoiceItem>)
    requires multiset(a) == multiset(b)
    ensures ExactTotal(a) == ExactTotal(b)
    ensures Wrap(ExactTotal(a)) == Wrap(ExactTotal(b))
  {
    SumOfPermutation(a, b, ExactOf);
  }
}
