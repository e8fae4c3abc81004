/** Filling a cart line by line: what the quantities come to, and that the order of adding does not matter. */
module CartFolds {
  import opened Basics
  import opened LineKeys
  import opened Cart

  /** `lines.reduce((next, line) => addLine(next, line), cart)` */
  function AddAll(cart: CartLines, lines: CartLines): CartLines {
    if lines == [] then cart else AddLine(AddAll(cart, lines[..|lines| - 1]), lines[|lines| - 1])
  }

  function QuantityOf(line: CartLine, id: Ident): int {
    if IdentOf(line) == id then line.quantity else 0
  }

  function OccurrenceOf(line: CartLine, id: Ident): nat {
    if IdentOf(line) == id then 1 else 0
  }

  /** How many of one identity a list of lines asks for. */
  function Asked(lines: CartLines, id: Ident): int {
    if lines == [] then 0 else Asked(lines[..|lines| - 1], id) + QuantityOf(lines[|lines| - 1], id)
  }

  /** In how many lines it occurs. */
  function Times(lines: CartLines, id: Ident): nat {
    if lines == [] then 0 else Times(lines[..|lines| - 1], id) + OccurrenceOf(lines[|lines| - 1], id)
  }

  /** The identities of the lines, each where it first occurs, after those already there. */
  function FirstOccurrences(order: seq<Ident>, lines: CartLines): seq<Ident> {
    if lines == [] then order
    else
      var before := FirstOccurrences(order, lines[..|lines| - 1]);
      var id := IdentOf(lines[|lines| - 1]);
      if id in before then before else before + [id]
  }

  function Held(b: Basket, id: Ident): int {
    if id in b.quantity then b.quantity[id] else 0
  }

  /** What adding lines makes of one identity: only a line that meets another one is cut at the maximum. */
  function HeldAfter(b: Basket, lines: CartLines, id: Ident): int {
    if Times(lines, id) == 0 then Held(b, id)
    else if id !in b.quantity && Times(lines, id) == 1 then Asked(lines, id)
    else Min(Held(b, id) + Asked(lines, id), MAX_LINE_QUANTITY)
  }

  predicate NonNegative(lines: CartLines) {
    forall i :: 0 <= i < |lines| ==> lines[i].quantity >= 0
  }

  lemma Front(lines: CartLines)
    requires lines != []
    ensures GoodLines(lines) ==> GoodLines(lines[..|lines| - 1]) && GoodLine(lines[|lines| - 1])
    ensures NonNegative(lines) ==> NonNegative(lines[..|lines| - 1]) && lines[|lines| - 1].quantity >= 0
  {
    hide GoodLine;
  }

  lemma BasketAddHolds(b: Basket, line: CartLine, id: Ident)
    ensures var b' := BasketAdd(b, IdentOf(line), line.quantity);
            && (id in b'.quantity <==> id in b.quantity || IdentOf(line) == id)
            && Held(b', id) == if IdentOf(line) != id then Held(b, id)
                               else if id in b.quantity then Min(Held(b, id) + line.quantity, MAX_LINE_QUANTITY)
                               else line.quantity
  {
    hide IdentOf;
  }

  lemma BasketAddOrder(b: Basket, id: Ident, quantity: int)
    requires BasketOk(b)
    ensures BasketAdd(b, id, quantity).order == if id in b.order then b.order else b.order + [id]
  {}

  /** What holds of one identity after adding `lines`. */
  predicate Counted(before: Basket, after: Basket, lines: CartLines, id: Ident) {
    && (id in after.quantity <==> id in before.quantity || Times(lines, id) > 0)
    && Held(after, id) == HeldAfter(before, lines, id)
  }

  lemma {:induction false} AskedOnlyOfThose(lines: CartLines, id: Ident)
    requires Times(lines, id) == 0
    ensures Asked(lines, id) == 0
    decreases lines
  {
    hide IdentOf;
    if lines != [] { AskedOnlyOfThose(lines[..|lines| - 1], id); }
  }

  lemma CountedStep(before: Basket, middle: Basket, lines: CartLines, id: Ident)
    requires lines != [] && lines[|lines| - 1].quantity >= 0
    requires Counted(before, middle, lines[..|lines| - 1], id)
    ensures var last := lines[|lines| - 1];
            Counted(before, BasketAdd(middle, IdentOf(last), last.quantity), lines, id)
  {
    hide IdentOf, BasketAdd;
    BasketAddHolds(middle, lines[|lines| - 1], id);
    if Times(lines[..|lines| - 1], id) == 0 { AskedOnlyOfThose(lines[..|lines| - 1], id); }
  }

  /**
   Adding any lines to any cart: each identity gets what it held and what is asked of it, cut at the
   maximum unless it is new and occurs once, and new identities are listed in the order in which they
   first occur.
   */
  lemma {:induction false} AddAllCounts(cart: CartLines, lines: CartLines)
    requires CartOk(cart) && GoodLines(lines) && NonNegative(lines)
    ensures CartOk(AddAll(cart, lines))
    ensures var before, after := BasketOf(cart), BasketOf(AddAll(cart, lines));
            && after.order == FirstOccurrences(before.order, lines)
            && forall id :: Counted(before, after, lines, id)
    decreases lines
  {
    hide CartOk, GoodLine, IdentOf, BasketOf, BasketAdd, AddLine, GoodLines, DistinctKeys, BasketOk, NonNegative, Counted;
    OkHasDistinctKeys(cart);
    if lines == [] {
      forall id ensures Counted(BasketOf(cart), BasketOf(cart), [], id) {
        NothingCounted(BasketOf(cart), id);
      }
    } else {
      var front, last := lines[..|lines| - 1], lines[|lines| - 1];
      Front(lines);
      AddAllCounts(cart, front);
      var middle := AddAll(cart, front);
      OkHasDistinctKeys(middle);
      BasketIsOk(middle);
      AddRefines(middle, last);
      OkHasDistinctKeys(AddAll(cart, lines));
      BasketAddOrder(BasketOf(middle), IdentOf(last), last.quantity);
      forall id ensures Counted(BasketOf(cart), BasketOf(AddAll(cart, lines)), lines, id) {
        CountedStep(BasketOf(cart), BasketOf(middle), lines, id);
      }
    }
  }

  lemma NothingCounted(b: Basket, id: Ident)
    ensures Counted(b, b, [], id)
  {}

  lemma OkHasDistinctKeys(cart: CartLines)
    requires CartOk(cart)
    ensures DistinctKeys(cart)
  {}

  // ----- When the maximum holds

  /** An identity that slips past the maximum: new to the cart, asked for once, and for more than the maximum. */
  predicate SlipsPast(b: Basket, lines: CartLines, id: Ident) {
    id !in b.quantity && Times(lines, id) == 1 && Asked(lines, id) > MAX_LINE_QUANTITY
  }

  lemma {:induction false} AskedIsNonNegative(lines: CartLines, id: Ident)
    requires NonNegative(lines)
    ensures Asked(lines, id) >= 0
    decreases lines
  {
    hide IdentOf;
    if lines != [] { AskedIsNonNegative(lines[..|lines| - 1], id); }
  }

  lemma HeldIsInRange(cart: CartLines, id: Ident)
    requires DistinctKeys(cart) && InRange(cart)
    ensures 0 <= Held(BasketOf(cart), id) <= MAX_LINE_QUANTITY
    ensures id in BasketOf(cart).quantity ==> 1 <= Held(BasketOf(cart), id)
  {
    hide LineKey, IdentOf;
    DistinctIdentsOf(cart);
  }

  /**
   Starting from a cart in range, an identity ends up with the sum of its quantities cut once at the
   maximum, exactly when it does not slip past it.
   */
  lemma CutAtTheMaximum(cart: CartLines, lines: CartLines, id: Ident)
    requires CartOk(cart) && InRange(cart) && GoodLines(lines) && NonNegative(lines)
    ensures CartOk(AddAll(cart, lines))
    ensures var before, after := BasketOf(cart), BasketOf(AddAll(cart, lines));
            Held(after, id) == Min(Held(before, id) + Asked(lines, id), MAX_LINE_QUANTITY)
            <==> !SlipsPast(before, lines, id)
  {
    hide CartOk, GoodLine, GoodLines, BasketOf, AddAll, InRange, NonNegative;
    AddAllCounts(cart, lines);
    OkHasDistinctKeys(cart);
    OkHasDistinctKeys(AddAll(cart, lines));
    AskedIsNonNegative(lines, id);
    if Times(lines, id) == 0 { AskedOnlyOfThose(lines, id); }
    HeldIsInRange(cart, id);
    assert Counted(BasketOf(cart), BasketOf(AddAll(cart, lines)), lines, id);
  }

  /** And the whole cart stays in range exactly when no identity slips past the maximum. */
  lemma RangeAfterAdding(cart: CartLines, lines: CartLines)
    requires CartOk(cart) && InRange(cart) && GoodLines(lines)
    requires forall i :: 0 <= i < |lines| ==> lines[i].quantity >= 1
    ensures InRange(AddAll(cart, lines)) <==> forall id :: !SlipsPast(BasketOf(cart), lines, id)
  {
    hide GoodLine, GoodLines, AddAll, IdentOf, LineKey, SlipsPast, Asked, Times;
    AddAllCounts(cart, lines);
    var after := AddAll(cart, lines);
    DistinctIdentsOf(after);
    if InRange(after) {
      forall id ensures !SlipsPast(BasketOf(cart), lines, id) {
        assert Counted(BasketOf(cart), BasketOf(after), lines, id);
        HeldIsInRange(after, id);
        if SlipsPast(BasketOf(cart), lines, id) {
          SlippedIsOver(BasketOf(cart), BasketOf(after), lines, id);
        }
      }
    }
    if forall id :: !SlipsPast(BasketOf(cart), lines, id) {
      forall i | 0 <= i < |after| ensures 1 <= after[i].quantity <= MAX_LINE_QUANTITY {
        var id := IdentOf(after[i]);
        QuantityAt(after, i);
        assert Counted(BasketOf(cart), BasketOf(after), lines, id);
        HeldIsInRange(cart, id);
        AskedAtLeastOnce(lines, id);
        KeptIsInRange(BasketOf(cart), BasketOf(after), lines, id);
      }
    }
  }

  lemma SlippedIsOver(before: Basket, after: Basket, lines: CartLines, id: Ident)
    requires Counted(before, after, lines, id) && SlipsPast(before, lines, id)
    ensures Held(after, id) > MAX_LINE_QUANTITY
  {}

  lemma KeptIsInRange(before: Basket, after: Basket, lines: CartLines, id: Ident)
    requires Counted(before, after, lines, id) && !SlipsPast(before, lines, id) && id in after.quantity
    requires 0 <= Held(before, id) <= MAX_LINE_QUANTITY && (id in before.quantity ==> 1 <= Held(before, id))
    requires Asked(lines, id) >= Times(lines, id)
    ensures 1 <= after.quantity[id] <= MAX_LINE_QUANTITY
  {}

  lemma {:induction false} AskedAtLeastOnce(lines: CartLines, id: Ident)
    requires forall i :: 0 <= i < |lines| ==> lines[i].quantity >= 1
    ensures Asked(lines, id) >= Times(lines, id)
    decreases lines
  {
    hide IdentOf;
    if lines != [] { AskedAtLeastOnce(lines[..|lines| - 1], id); }
  }

  /** The exception is real: an earlier order of 150 pieces, ordered again, stands in the cart as 150. */
  lemma OneLineSlipsPast()
    ensures var line := CartLine("latte", None, [], None, 150);
            && GoodLine(line) && AddAll([], [line]) == [line] && !InRange([line])
            && SlipsPast(Basket([], map[]), [line], IdentOf(line))
  {
    hide LineKey;
    var line := CartLine("latte", None, [], None, 150);
    assert [line][..0] == [];
    assert AddLine([], line) == [] + [line] == [line];
    assert [line][0].quantity == 150;
    assert Asked([], IdentOf(line)) == 0 && Times([], IdentOf(line)) == 0;
  }

  // ----- The order of adding

  lemma {:induction false} CountsWithout(lines: CartLines, k: nat, id: Ident)
    requires k < |lines|
    ensures Asked(lines, id) == Asked(Without(lines, k), id) + QuantityOf(lines[k], id)
    ensures Times(lines, id) == Times(Without(lines, k), id) + OccurrenceOf(lines[k], id)
    decreases lines
  {
    hide QuantityOf, OccurrenceOf;
    var n := |lines| - 1;
    var rest := Without(lines, k);
    if k == n {
      assert rest == lines[..n];
    } else {
      CountsWithout(lines[..n], k, id);
      assert rest[..|rest| - 1] == Without(lines[..n], k);
      assert rest[|rest| - 1] == lines[n];
    }
  }

  lemma WithoutMultiset(lines: CartLines, k: nat)
    requires k < |lines|
    ensures multiset(Without(lines, k)) == multiset(lines) - multiset{lines[k]}
  {
    assert lines == lines[..k] + [lines[k]] + lines[k + 1..];
  }

  lemma {:induction false} CountsReordered(a: CartLines, b: CartLines, id: Ident)
    requires multiset(a) == multiset(b)
    ensures Asked(a, id) == Asked(b, id) && Times(a, id) == Times(b, id)
    decreases a
  {
    hide QuantityOf, OccurrenceOf;
    assert |multiset(a)| == |multiset(b)|;
    if a != [] {
      var n := |a| - 1;
      assert a[n] in multiset(b);
      var k :| 0 <= k < |b| && b[k] == a[n];
      CountsWithout(b, k, id);
      WithoutMultiset(b, k);
      assert a == a[..n] + [a[n]];
      assert multiset(a[..n]) == multiset(a) - multiset{a[n]};
      CountsReordered(a[..n], Without(b, k), id);
    }
  }

  /** Adding the same lines in another order gives every identity the same quantity. */
  lemma AddingOrderIsFree(cart: CartLines, a: CartLines, b: CartLines)
    requires CartOk(cart) && multiset(a) == multiset(b)
    requires GoodLines(a) && NonNegative(a) && GoodLines(b) && NonNegative(b)
    ensures CartOk(AddAll(cart, a)) && CartOk(AddAll(cart, b))
    ensures BasketOf(AddAll(cart, a)).quantity == BasketOf(AddAll(cart, b)).quantity
  {
    hide GoodLine, GoodLines, NonNegative, IdentOf, Asked, Times, AddLine, Quantities, Idents, AddAll, Held;
    AddAllCounts(cart, a);
    AddAllCounts(cart, b);
    var before, x, y := BasketOf(cart), BasketOf(AddAll(cart, a)), BasketOf(AddAll(cart, b));
    forall id ensures (id in x.quantity <==> id in y.quantity) && Held(x, id) == Held(y, id) {
      CountsReordered(a, b, id);
      assert Counted(before, x, a, id) && Counted(before, y, b, id);
    }
    SameHeld(x, y);
  }

  lemma SameHeld(x: Basket, y: Basket)
    requires forall id :: (id in x.quantity <==> id in y.quantity) && Held(x, id) == Held(y, id)
    ensures x.quantity == y.quantity
  {
    forall id | id in x.quantity ensures x.quantity[id] == y.quantity[id] {
      assert Held(x, id) == Held(y, id);
    }
    SameMap(x.quantity, y.quantity);
  }

  /** Adding the lines of a cart one by one to an empty cart gives that cart back. */
  lemma {:induction false} AddAllOfCart(cart: CartLines)
    requires DistinctKeys(cart)
    ensures AddAll([], cart) == cart
    decreases cart
  {
    hide LineKey;
    if cart != [] {
      var n := |cart| - 1;
      AddAllOfCart(cart[..n]);
      assert cart == cart[..n] + [cart[n]];
      assert forall i :: 0 <= i < n ==> LineKey(cart[..n][i]) != LineKey(cart[n]);
    }
  }
}
