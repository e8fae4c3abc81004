/** Pricing a cart against the menu, and turning what is sellable of it into an order. */
module CartPricing {
  import opened Basics
  import opened LineKeys
  import opened Cart
  import opened CartFolds

  datatype MenuOption = MenuOption(id: string, name: string, priceDeltaMinor: int)

  datatype ModifierGroup = ModifierGroup(minSelections: int, maxSelections: int, options: seq<MenuOption>)

  datatype MenuItem = MenuItem(
    id: string,
    name: string,
    priceMinor: int,
    variants: seq<MenuOption>,
    modifierGroups: seq<ModifierGroup>)

  type Menu = map<string, MenuItem>

  /** `new Map(products.map(product => [product.id, product]))`: of products with one id, the last counts. */
  function MenuOf(products: seq<MenuItem>): Menu {
    if products == [] then map[]
    else MenuOf(products[..|products| - 1])[products[|products| - 1].id := products[|products| - 1]]
  }

  function Chosen(line: CartLine): set<string> {
    set id | id in line.modifierOptionIds
  }

  /** `product.variants.find(item => item.id === line.variantId)` */
  function FindVariant(variants: seq<MenuOption>, variantId: Option<string>): Option<MenuOption> {
    if variants == [] then None
    else if Some(variants[0].id) == variantId then Some(variants[0])
    else FindVariant(variants[1..], variantId)
  }

  function OptionsPrice(options: seq<MenuOption>, chosen: set<string>): int {
    if options == [] then 0
    else OptionsPrice(options[..|options| - 1], chosen)
         + (if options[|options| - 1].id in chosen then options[|options| - 1].priceDeltaMinor else 0)
  }

  function GroupsPrice(groups: seq<ModifierGroup>, chosen: set<string>): int {
    if groups == [] then 0
    else GroupsPrice(groups[..|groups| - 1], chosen) + OptionsPrice(groups[|groups| - 1].options, chosen)
  }

  function UnitPrice(product: MenuItem, line: CartLine): int {
    var variant := FindVariant(product.variants, line.variantId);
    product.priceMinor
    + (if variant.Some? then variant.value.priceDeltaMinor else 0)
    + GroupsPrice(product.modifierGroups, Chosen(line))
  }

  method UnitPriceLoop(product: MenuItem, line: CartLine) returns (price: int)
    ensures price == UnitPrice(product, line)
  {
    var chosen := Chosen(line);
    var variant := FindVariant(product.variants, line.variantId);
    price := product.priceMinor + (if variant.Some? then variant.value.priceDeltaMinor else 0);
    var groups := product.modifierGroups;
    ghost var base := price;
    for g := 0 to |groups|
      invariant price == base + GroupsPrice(groups[..g], chosen)
    {
      var options := groups[g].options;
      ghost var before := price;
      for o := 0 to |options|
        invariant price == before + OptionsPrice(options[..o], chosen)
      {
        assert options[..o + 1][..o] == options[..o];
        if options[o].id in chosen {
          price := price + options[o].priceDeltaMinor;
        }
      }
      assert options[..|options|] == options;
      assert groups[..g + 1][..g] == groups[..g];
    }
    assert groups[..|groups|] == groups;
  }

  function ChosenOptions(options: seq<MenuOption>, chosen: set<string>): seq<MenuOption> {
    if options == [] then []
    else (if options[0].id in chosen then [options[0]] else []) + ChosenOptions(options[1..], chosen)
  }

  predicate GroupSatisfied(group: ModifierGroup, chosen: set<string>) {
    group.minSelections <= |ChosenOptions(group.options, chosen)| <= group.maxSelections
  }

  predicate IsLineComplete(product: MenuItem, line: CartLine) {
    && (product.variants != [] ==> FindVariant(product.variants, line.variantId).Some?)
    && forall g :: 0 <= g < |product.modifierGroups| ==> GroupSatisfied(product.modifierGroups[g], Chosen(line))
  }

  /** The positions of the chosen options. */
  function Places(options: seq<MenuOption>, chosen: set<string>): set<nat> {
    set i: nat | i < |options| && options[i].id in chosen
  }

  lemma {:induction false} ChosenCount(options: seq<MenuOption>, chosen: set<string>)
    ensures |ChosenOptions(options, chosen)| == |Places(options, chosen)|
    decreases options
  {
    if options == [] {
      assert Places(options, chosen) == {};
    } else {
      var n := |options| - 1;
      ChosenCount(options[..n], chosen);
      ChosenLast(options, chosen);
      var before := Places(options[..n], chosen);
      if options[n].id in chosen {
        assert Places(options, chosen) == before + {n};
      } else {
        assert Places(options, chosen) == before;
      }
    }
  }

  lemma {:induction false} ChosenLast(options: seq<MenuOption>, chosen: set<string>)
    requires options != []
    ensures var n := |options| - 1;
            ChosenOptions(options, chosen)
            == ChosenOptions(options[..n], chosen) + (if options[n].id in chosen then [options[n]] else [])
    decreases options
  {
    if |options| > 1 {
      ChosenLast(options[1..], chosen);
      assert options[1..][..|options| - 2] == options[..|options| - 1][1..];
    }
  }

  /** The product's rules: a variant of it when it has any, and in each group a permitted number of options. */
  lemma CompleteExactly(product: MenuItem, line: CartLine)
    ensures IsLineComplete(product, line) <==>
      && (product.variants == [] || exists v :: v in product.variants && Some(v.id) == line.variantId)
      && forall group :: group in product.modifierGroups ==>
           group.minSelections
           <= |set i: nat | i < |group.options| && group.options[i].id in line.modifierOptionIds|
           <= group.maxSelections
  {
    VariantFound(product.variants, line.variantId);
    forall group: ModifierGroup
      ensures |ChosenOptions(group.options, Chosen(line))|
           == |set i: nat | i < |group.options| && group.options[i].id in line.modifierOptionIds|
    {
      ChosenCount(group.options, Chosen(line));
      assert (set i: nat | i < |group.options| && group.options[i].id in line.modifierOptionIds)
          == Places(group.options, Chosen(line));
    }
  }

  lemma {:induction false} VariantFound(variants: seq<MenuOption>, variantId: Option<string>)
    ensures FindVariant(variants, variantId).Some? <==> exists v :: v in variants && Some(v.id) == variantId
  {
    if variants != [] && Some(variants[0].id) != variantId {
      VariantFound(variants[1..], variantId);
      assert forall v :: v in variants <==> v == variants[0] || v in variants[1..];
    }
  }

  predicate IsSellable(menu: Menu, line: CartLine) {
    line.productId in menu && IsLineComplete(menu[line.productId], line)
  }

  // ----- The view

  datatype CartLineView = CartLineView(
    choices: seq<string>,
    key: string,
    line: CartLine,
    lineTotalMinor: int,
    name: string,
    unitPriceMinor: int)

  datatype CartView = CartView(itemCount: int, lines: seq<CartLineView>, totalMinor: int)

  function Names(options: seq<MenuOption>): seq<string> {
    seq(|options|, i requires 0 <= i < |options| => options[i].name)
  }

  function ModifierNames(groups: seq<ModifierGroup>, chosen: set<string>): seq<string> {
    if groups == [] then [] else Names(ChosenOptions(groups[0].options, chosen)) + ModifierNames(groups[1..], chosen)
  }

  function LineView(product: MenuItem, line: CartLine): CartLineView {
    var variant := FindVariant(product.variants, line.variantId);
    CartLineView(
      (if variant.Some? then [variant.value.name] else []) + ModifierNames(product.modifierGroups, Chosen(line)),
      LineKey(line),
      line,
      UnitPrice(product, line) * line.quantity,
      product.name,
      UnitPrice(product, line))
  }

  /** The sellable lines of a cart, in cart order. */
  function Sellable(menu: Menu, cart: CartLines): CartLines {
    if cart == [] then []
    else Sellable(menu, cart[..|cart| - 1]) + (if IsSellable(menu, cart[|cart| - 1]) then [cart[|cart| - 1]] else [])
  }

  lemma {:induction false} SellableIs(menu: Menu, cart: CartLines)
    ensures forall i :: 0 <= i < |Sellable(menu, cart)| ==>
              IsSellable(menu, Sellable(menu, cart)[i]) && Sellable(menu, cart)[i] in cart
  {
    if cart != [] { SellableIs(menu, cart[..|cart| - 1]); }
  }

  ghost predicate IsViewOf(view: CartView, menu: Menu, cart: CartLines) {
    var sold := Sellable(menu, cart);
    && |view.lines| == |sold|
    && (forall i :: 0 <= i < |sold| ==>
          sold[i].productId in menu && view.lines[i] == LineView(menu[sold[i].productId], sold[i]))
    && view.totalMinor == Sum(PriceOf(menu), cart)
    && view.itemCount == Sum(CountOf(menu), cart)
  }

  /** What one line adds to the total, and to the number of items. */
  function LineTotal(menu: Menu, line: CartLine): int {
    if IsSellable(menu, line) then UnitPrice(menu[line.productId], line) * line.quantity else 0
  }

  function LineCount(menu: Menu, line: CartLine): int {
    if IsSellable(menu, line) then line.quantity else 0
  }

  function PriceOf(menu: Menu): CartLine -> int {
    line => LineTotal(menu, line)
  }

  function CountOf(menu: Menu): CartLine -> int {
    line => LineCount(menu, line)
  }

  function Sum(f: CartLine -> int, cart: CartLines): int {
    if cart == [] then 0 else Sum(f, cart[..|cart| - 1]) + f(cart[|cart| - 1])
  }

  method ViewCart(cart: CartLines, products: seq<MenuItem>) returns (view: CartView)
    ensures IsViewOf(view, MenuOf(products), cart)
  {
    hide IsLineComplete, UnitPrice, LineKey, ModifierNames, Chosen, FindVariant;
    var menu: Menu := map[];
    for k := 0 to |products|
      invariant menu == MenuOf(products[..k])
    {
      assert products[..k + 1][..k] == products[..k];
      menu := menu[products[k].id := products[k]];
    }
    assert products[..|products|] == products;
    var lines: seq<CartLineView> := [];
    var totalMinor, itemCount := 0, 0;
    for i := 0 to |cart|
      invariant IsViewOf(CartView(itemCount, lines, totalMinor), menu, cart[..i])
    {
      var line := cart[i];
      assert cart[..i + 1][..i] == cart[..i];
      if line.productId !in menu || !IsLineComplete(menu[line.productId], line) {
        continue;
      }
      var product := menu[line.productId];
      var unitPriceMinor := UnitPriceLoop(product, line);
      var lineTotalMinor := unitPriceMinor * line.quantity;
      totalMinor := totalMinor + lineTotalMinor;
      itemCount := itemCount + line.quantity;
      var variant := FindVariant(product.variants, line.variantId);
      lines := lines + [CartLineView(
        (if variant.Some? then [variant.value.name] else []) + ModifierNames(product.modifierGroups, Chosen(line)),
        LineKey(line), line, lineTotalMinor, product.name, unitPriceMinor)];
    }
    assert cart[..|cart|] == cart;
    return CartView(itemCount, lines, totalMinor);
  }

  // ----- What a choice costs

  lemma {:induction false} OptionsPriceSplits(options: seq<MenuOption>, a: set<string>, b: set<string>)
    requires a !! b
    ensures OptionsPrice(options, a + b) == OptionsPrice(options, a) + OptionsPrice(options, b)
  {
    if options != [] { OptionsPriceSplits(options[..|options| - 1], a, b); }
  }

  lemma {:induction false} GroupsPriceSplits(groups: seq<ModifierGroup>, a: set<string>, b: set<string>)
    requires a !! b
    ensures GroupsPrice(groups, a + b) == GroupsPrice(groups, a) + GroupsPrice(groups, b)
  {
    if groups != [] {
      GroupsPriceSplits(groups[..|groups| - 1], a, b);
      OptionsPriceSplits(groups[|groups| - 1].options, a, b);
    }
  }

  /** Choosing one more option adds what the menu asks for it, and choosing it twice adds nothing. */
  lemma ChoiceAddsItsPrice(product: MenuItem, line: CartLine, id: string)
    ensures var more := line.(modifierOptionIds := line.modifierOptionIds + [id]);
            UnitPrice(product, more) == UnitPrice(product, line)
              + (if id in line.modifierOptionIds then 0 else GroupsPrice(product.modifierGroups, {id}))
  {
    hide GroupsPrice, FindVariant;
    var more := line.(modifierOptionIds := line.modifierOptionIds + [id]);
    assert Chosen(more) == Chosen(line) + {id};
    if id in line.modifierOptionIds {
      assert Chosen(more) == Chosen(line);
    } else {
      GroupsPriceSplits(product.modifierGroups, Chosen(line), {id});
    }
  }

  // ----- What a unit price is made of

  function RaiseVariant(product: MenuItem, v: nat, d: int): MenuItem
    requires v < |product.variants|
  {
    var variant := product.variants[v];
    product.(variants := product.variants[v := variant.(priceDeltaMinor := variant.priceDeltaMinor + d)])
  }

  function RaiseOption(group: ModifierGroup, o: nat, d: int): ModifierGroup
    requires o < |group.options|
  {
    var option := group.options[o];
    group.(options := group.options[o := option.(priceDeltaMinor := option.priceDeltaMinor + d)])
  }

  function RaiseGroupOption(product: MenuItem, g: nat, o: nat, d: int): MenuItem
    requires g < |product.modifierGroups| && o < |product.modifierGroups[g].options|
  {
    product.(modifierGroups := product.modifierGroups[g := RaiseOption(product.modifierGroups[g], o, d)])
  }

  /** Nothing on the menu asks for money. */
  predicate IsFree(product: MenuItem) {
    && product.priceMinor == 0
    && (forall v :: 0 <= v < |product.variants| ==> product.variants[v].priceDeltaMinor == 0)
    && forall g, o :: 0 <= g < |product.modifierGroups| && 0 <= o < |product.modifierGroups[g].options| ==>
         product.modifierGroups[g].options[o].priceDeltaMinor == 0
  }

  /** The variant at `v` is the first with the id that the line asks for. */
  predicate IsAsked(product: MenuItem, v: nat, variantId: Option<string>)
    requires v < |product.variants|
  {
    Some(product.variants[v].id) == variantId && forall w :: 0 <= w < v ==> Some(product.variants[w].id) != variantId
  }

  lemma {:induction false} FreeOptions(options: seq<MenuOption>, chosen: set<string>)
    requires forall o :: 0 <= o < |options| ==> options[o].priceDeltaMinor == 0
    ensures OptionsPrice(options, chosen) == 0
  {
    if options != [] { FreeOptions(options[..|options| - 1], chosen); }
  }

  lemma {:induction false} FreeGroups(groups: seq<ModifierGroup>, chosen: set<string>)
    requires forall g, o :: 0 <= g < |groups| && 0 <= o < |groups[g].options| ==> groups[g].options[o].priceDeltaMinor == 0
    ensures GroupsPrice(groups, chosen) == 0
  {
    if groups != [] {
      FreeGroups(groups[..|groups| - 1], chosen);
      FreeOptions(groups[|groups| - 1].options, chosen);
    }
  }

  lemma {:induction false} FoundVariant(variants: seq<MenuOption>, variantId: Option<string>)
    ensures match FindVariant(variants, variantId)
            case None => forall v :: 0 <= v < |variants| ==> Some(variants[v].id) != variantId
            case Some(variant) => exists v :: 0 <= v < |variants| && variants[v] == variant && Some(variant.id) == variantId
                                    && forall w :: 0 <= w < v ==> Some(variants[w].id) != variantId
  {
    if variants != [] && Some(variants[0].id) != variantId {
      FoundVariant(variants[1..], variantId);
      var rest := FindVariant(variants[1..], variantId);
      if rest.Some? {
        var v :| 0 <= v < |variants| - 1 && variants[1..][v] == rest.value && Some(rest.value.id) == variantId
                 && forall w :: 0 <= w < v ==> Some(variants[1..][w].id) != variantId;
        assert variants[v + 1] == rest.value;
        assert forall w :: 0 < w < v + 1 ==> variants[w] == variants[1..][w - 1];
      } else {
        assert forall w :: 0 < w < |variants| ==> variants[w] == variants[1..][w - 1];
      }
    }
  }

  /** A product on whose menu everything costs nothing costs nothing. */
  lemma FreeCostsNothing(product: MenuItem, line: CartLine)
    requires IsFree(product)
    ensures UnitPrice(product, line) == 0
  {
    FreeGroups(product.modifierGroups, Chosen(line));
    FoundVariant(product.variants, line.variantId);
  }

  /** Raising the base price by an amount raises the price of every line of the product by it. */
  lemma BaseCounts(product: MenuItem, line: CartLine, d: int)
    ensures UnitPrice(product.(priceMinor := product.priceMinor + d), line) == UnitPrice(product, line) + d
  {}

  /** Raising a variant raises the price exactly of the lines that ask for it; of variants with one id, the first counts. */
  lemma VariantCounts(product: MenuItem, line: CartLine, v: nat, d: int)
    requires v < |product.variants|
    ensures UnitPrice(RaiseVariant(product, v, d), line)
         == UnitPrice(product, line) + (if IsAsked(product, v, line.variantId) then d else 0)
  {
    hide FindVariant, GroupsPrice;
    VariantRaised(product.variants, line.variantId, v, d);
  }

  lemma {:induction false} VariantRaised(variants: seq<MenuOption>, variantId: Option<string>, v: nat, d: int)
    requires v < |variants|
    ensures var raised := variants[v := variants[v].(priceDeltaMinor := variants[v].priceDeltaMinor + d)];
            var before, after := FindVariant(variants, variantId), FindVariant(raised, variantId);
            var first := Some(variants[v].id) == variantId && forall w :: 0 <= w < v ==> Some(variants[w].id) != variantId;
            && (before.Some? <==> after.Some?)
            && (before.Some? ==>
                  after.value.priceDeltaMinor == before.value.priceDeltaMinor + (if first then d else 0))
            && (first ==> before.Some?)
    decreases variants
  {
    var raised := variants[v := variants[v].(priceDeltaMinor := variants[v].priceDeltaMinor + d)];
    if v > 0 && Some(variants[0].id) != variantId {
      var tail := variants[1..];
      VariantRaised(tail, variantId, v - 1, d);
      assert raised[1..] == tail[v - 1 := tail[v - 1].(priceDeltaMinor := tail[v - 1].priceDeltaMinor + d)];
      assert forall w :: 0 < w < v ==> variants[w] == tail[w - 1];
      assert forall w :: 0 <= w < v - 1 ==> tail[w] == variants[w + 1];
    } else if v == 0 {
      assert raised[1..] == variants[1..];
    }
  }

  lemma {:induction false} OptionRaised(options: seq<MenuOption>, chosen: set<string>, o: nat, d: int)
    requires o < |options|
    ensures OptionsPrice(options[o := options[o].(priceDeltaMinor := options[o].priceDeltaMinor + d)], chosen)
         == OptionsPrice(options, chosen) + (if options[o].id in chosen then d else 0)
    decreases options
  {
    var n := |options| - 1;
    var raised := options[o := options[o].(priceDeltaMinor := options[o].priceDeltaMinor + d)];
    if o < n {
      OptionRaised(options[..n], chosen, o, d);
      assert raised[..n] == options[..n][o := options[o].(priceDeltaMinor := options[o].priceDeltaMinor + d)];
    } else {
      assert raised[..n] == options[..n];
    }
  }

  lemma {:induction false} GroupRaised(groups: seq<ModifierGroup>, chosen: set<string>, g: nat, o: nat, d: int)
    requires g < |groups| && o < |groups[g].options|
    ensures GroupsPrice(groups[g := RaiseOption(groups[g], o, d)], chosen)
         == GroupsPrice(groups, chosen) + (if groups[g].options[o].id in chosen then d else 0)
    decreases groups
  {
    hide OptionsPrice;
    var n := |groups| - 1;
    var raised := groups[g := RaiseOption(groups[g], o, d)];
    if g < n {
      GroupRaised(groups[..n], chosen, g, o, d);
      assert raised[..n] == groups[..n][g := RaiseOption(groups[g], o, d)];
    } else {
      assert raised[..n] == groups[..n];
      OptionRaised(groups[g].options, chosen, o, d);
    }
  }

  /** Raising one option raises the price exactly of the lines that chose its id, once. */
  lemma OptionCounts(product: MenuItem, line: CartLine, g: nat, o: nat, d: int)
    requires g < |product.modifierGroups| && o < |product.modifierGroups[g].options|
    ensures UnitPrice(RaiseGroupOption(product, g, o, d), line)
         == UnitPrice(product, line)
            + (if product.modifierGroups[g].options[o].id in line.modifierOptionIds then d else 0)
  {
    hide FindVariant, GroupsPrice;
    GroupRaised(product.modifierGroups, Chosen(line), g, o, d);
  }

  // ----- What the view shows

  /** Under an id stands the last product that has it. */
  lemma {:induction false} MenuFinds(products: seq<MenuItem>, id: string)
    ensures id in MenuOf(products) <==> exists i :: 0 <= i < |products| && products[i].id == id
    ensures id in MenuOf(products) ==>
      exists i :: 0 <= i < |products| && products[i].id == id && MenuOf(products)[id] == products[i]
        && forall j :: i < j < |products| ==> products[j].id != id
  {
    if products != [] {
      var n := |products| - 1;
      MenuFinds(products[..n], id);
      if products[n].id != id && id in MenuOf(products[..n]) {
        var i :| 0 <= i < n && products[..n][i].id == id && MenuOf(products[..n])[id] == products[..n][i]
                 && forall j :: i < j < n ==> products[..n][j].id != id;
        assert products[i].id == id && MenuOf(products)[id] == products[i];
        assert forall j :: i < j < n ==> products[j] == products[..n][j];
      } else if products[n].id != id {
        assert forall i :: 0 <= i < n ==> products[..n][i] == products[i];
      }
    }
  }

  function SumOfLines(lines: seq<CartLineView>): int {
    if lines == [] then 0 else SumOfLines(lines[..|lines| - 1]) + lines[|lines| - 1].lineTotalMinor
  }

  function SumOfQuantities(lines: seq<CartLineView>): int {
    if lines == [] then 0 else SumOfQuantities(lines[..|lines| - 1]) + lines[|lines| - 1].line.quantity
  }

  /** Each shown line is a sellable line of the cart with its name and price; the totals of the shown lines add up to the total, and their quantities to the number of items. */
  lemma ShownLinesAddUp(menu: Menu, cart: CartLines, view: CartView)
    requires IsViewOf(view, menu, cart)
    ensures SumOfLines(view.lines) == view.totalMinor && SumOfQuantities(view.lines) == view.itemCount
    ensures forall i :: 0 <= i < |view.lines| ==>
              var shown, line := view.lines[i], Sellable(menu, cart)[i];
              && shown.line == line && shown.key == LineKey(line)
              && line.productId in menu && shown.name == menu[line.productId].name
              && shown.unitPriceMinor == UnitPrice(menu[line.productId], line)
              && shown.lineTotalMinor == shown.unitPriceMinor * line.quantity
  {
    hide IsSellable, UnitPrice, LineKey, Sum, LineTotal, LineCount;
    var sold := Sellable(menu, cart);
    SellableIs(menu, cart);
    SellableHasTheBill(menu, cart);
    SumOfShown(menu, sold, view.lines);
  }

  lemma {:induction false} SumOfShown(menu: Menu, sold: CartLines, lines: seq<CartLineView>)
    requires |lines| == |sold|
    requires forall i :: 0 <= i < |sold| ==>
               IsSellable(menu, sold[i]) && sold[i].productId in menu && lines[i] == LineView(menu[sold[i].productId], sold[i])
    ensures SumOfLines(lines) == Sum(PriceOf(menu), sold) && SumOfQuantities(lines) == Sum(CountOf(menu), sold)
    decreases lines
  {
    hide IsSellable, UnitPrice, LineKey, FindVariant, ModifierNames;
    if lines != [] {
      var n := |lines| - 1;
      SumOfShown(menu, sold[..n], lines[..n]);
    }
  }

  /** All options of a product, in the order of the menu. */
  function AllOptions(groups: seq<ModifierGroup>): seq<MenuOption> {
    if groups == [] then [] else groups[0].options + AllOptions(groups[1..])
  }

  lemma {:induction false} ChosenOfConcat(a: seq<MenuOption>, b: seq<MenuOption>, chosen: set<string>)
    ensures ChosenOptions(a + b, chosen) == ChosenOptions(a, chosen) + ChosenOptions(b, chosen)
    decreases a
  {
    if a == [] {
      assert a + b == b;
    } else {
      assert (a + b)[1..] == a[1..] + b;
      ChosenOfConcat(a[1..], b, chosen);
    }
  }

  lemma {:induction false} NamesOfAll(groups: seq<ModifierGroup>, chosen: set<string>)
    ensures ModifierNames(groups, chosen) == Names(ChosenOptions(AllOptions(groups), chosen))
    decreases groups
  {
    hide ChosenOptions;
    if groups == [] {
      NothingChosen(chosen);
    } else {
      NamesOfAll(groups[1..], chosen);
      ChosenOfConcat(groups[0].options, AllOptions(groups[1..]), chosen);
      var a, b := ChosenOptions(groups[0].options, chosen), ChosenOptions(AllOptions(groups[1..]), chosen);
      assert Names(a + b) == Names(a) + Names(b);
    }
  }

  lemma NothingChosen(chosen: set<string>)
    ensures ChosenOptions([], chosen) == []
  {}

  predicate Increasing(places: seq<nat>) {
    forall i, j :: 0 <= i < j < |places| ==> places[i] < places[j]
  }

  lemma {:induction false} ChosenPlaces(options: seq<MenuOption>, chosen: set<string>) returns (places: seq<nat>)
    ensures Increasing(places) && |places| == |ChosenOptions(options, chosen)|
    ensures forall i :: 0 <= i < |places| ==>
              places[i] < |options| && ChosenOptions(options, chosen)[i] == options[places[i]]
    ensures forall o: nat :: o in places <==> o < |options| && options[o].id in chosen
    decreases options
  {
    if options == [] {
      places := [];
    } else {
      var n := |options| - 1;
      var front := ChosenPlaces(options[..n], chosen);
      ChosenLast(options, chosen);
      hide ChosenOptions;
      if options[n].id in chosen {
        places := front + [n as nat];
        PlaceAdded(front, n);
      } else {
        places := front;
        assert ChosenOptions(options, chosen) == ChosenOptions(options[..n], chosen);
      }
    }
  }

  lemma PlaceAdded(front: seq<nat>, n: nat)
    requires Increasing(front) && forall o: nat :: o in front ==> o < n
    ensures Increasing(front + [n])
    ensures forall o: nat :: o in front + [n] <==> o in front || o == n
  {
    assert forall i :: 0 <= i < |front| ==> front[i] in front;
  }

  /** A line shows the name of its variant, if it has one, and of every option it chose, in the order of the menu. */
  lemma ChoicesInMenuOrder(product: MenuItem, line: CartLine) returns (places: seq<nat>)
    ensures var options, choices := AllOptions(product.modifierGroups), LineView(product, line).choices;
            var variant := FindVariant(product.variants, line.variantId);
            && Increasing(places)
            && (forall o: nat :: o in places <==> o < |options| && options[o].id in line.modifierOptionIds)
            && |choices| == (if variant.Some? then 1 else 0) + |places|
            && (variant.Some? ==> choices[0] == variant.value.name)
            && forall i :: 0 <= i < |places| ==>
                 places[i] < |options| && choices[|choices| - |places| + i] == options[places[i]].name
  {
    hide FindVariant, UnitPrice, LineKey, ChosenOptions, ModifierNames, AllOptions;
    NamesOfAll(product.modifierGroups, Chosen(line));
    places := ChosenPlaces(AllOptions(product.modifierGroups), Chosen(line));
  }

  // ----- Sums over a changing cart

  lemma {:induction false} SumReplace(f: CartLine -> int, cart: CartLines, i: nat, line: CartLine)
    requires i < |cart|
    ensures Sum(f, cart[i := line]) == Sum(f, cart) - f(cart[i]) + f(line)
    decreases cart
  {
    var n := |cart| - 1;
    if i < n {
      SumReplace(f, cart[..n], i, line);
      assert cart[i := line][..n] == cart[..n][i := line];
    } else {
      assert cart[i := line][..n] == cart[..n];
    }
  }

  lemma {:induction false} SumWithout(f: CartLine -> int, cart: CartLines, i: nat)
    requires i < |cart|
    ensures Sum(f, Without(cart, i)) == Sum(f, cart) - f(cart[i])
    decreases cart
  {
    var n := |cart| - 1;
    var rest := Without(cart, i);
    if i < n {
      SumWithout(f, cart[..n], i);
      assert rest[..|rest| - 1] == Without(cart[..n], i);
      assert rest[|rest| - 1] == cart[n];
    } else {
      assert rest == cart[..n];
    }
  }

  // ----- Pricing sees the identity only, and not the note

  predicate SameChoice(a: CartLine, b: CartLine) {
    IdentOf(a).(note := "") == IdentOf(b).(note := "")
  }

  /** No variant has an empty id, so an empty and an absent choice of variant are the same. */
  ghost predicate GoodMenu(menu: Menu) {
    forall id :: id in menu ==> forall v :: v in menu[id].variants ==> v.id != ""
  }

  lemma NoVariantIsEmpty(variants: seq<MenuOption>)
    requires forall v :: v in variants ==> v.id != ""
    ensures FindVariant(variants, Some("")) == FindVariant(variants, None) == None
  {
    VariantFound(variants, Some(""));
    VariantFound(variants, None);
  }

  lemma SameVariant(menu: Menu, a: CartLine, b: CartLine)
    requires GoodMenu(menu) && a.productId in menu && OrEmpty(a.variantId) == OrEmpty(b.variantId)
    ensures FindVariant(menu[a.productId].variants, a.variantId) == FindVariant(menu[a.productId].variants, b.variantId)
  {
    hide FindVariant;
    NoVariantIsEmpty(menu[a.productId].variants);
  }

  lemma SamePrice(menu: Menu, a: CartLine, b: CartLine)
    requires GoodMenu(menu) && SameChoice(a, b)
    ensures a.productId == b.productId && IsSellable(menu, a) == IsSellable(menu, b)
    ensures a.productId in menu ==> UnitPrice(menu[a.productId], a) == UnitPrice(menu[a.productId], b)
  {
    hide FindVariant, GroupsPrice, GroupSatisfied, GoodMenu;
    if a.productId in menu { SameVariant(menu, a, b); }
    assert multiset(a.modifierOptionIds) == multiset(b.modifierOptionIds);
    forall id ensures id in Chosen(a) <==> id in Chosen(b) {
      assert id in a.modifierOptionIds <==> id in multiset(a.modifierOptionIds);
      assert id in b.modifierOptionIds <==> id in multiset(b.modifierOptionIds);
    }
    assert Chosen(a) == Chosen(b);
  }

  /** What `SetLineNote` cuts off at the maximum when it merges two lines. */
  function Excess(cart: CartLines, key: string, note: string): int {
    match FindLine(cart, key)
    case None => 0
    case Some(t) =>
      match FindFrom(cart, LineKey(WithNote(cart[t], CleanNote(note))), 0, t)
      case None => 0
      case Some(twin) => Max(0, cart[twin].quantity + cart[t].quantity - MAX_LINE_QUANTITY)
  }

  lemma NoteIsFree(menu: Menu, line: CartLine, trimmed: string)
    requires GoodMenu(menu)
    ensures LineTotal(menu, WithNote(line, trimmed)) == LineTotal(menu, line)
    ensures LineCount(menu, WithNote(line, trimmed)) == LineCount(menu, line)
  {
    hide UnitPrice, IsLineComplete;
    NoteIsOnePart(line, trimmed);
    SamePrice(menu, line, WithNote(line, trimmed));
  }

  /** What one piece of a line costs; nothing if it cannot be sold. */
  function PieceTotal(menu: Menu, line: CartLine): int {
    if IsSellable(menu, line) then UnitPrice(menu[line.productId], line) else 0
  }

  function PieceCount(menu: Menu, line: CartLine): int {
    if IsSellable(menu, line) then 1 else 0
  }

  lemma ByThePiece(menu: Menu, line: CartLine)
    ensures LineTotal(menu, line) == PieceTotal(menu, line) * line.quantity
    ensures LineCount(menu, line) == PieceCount(menu, line) * line.quantity
  {}

  lemma SamePiece(menu: Menu, a: CartLine, b: CartLine)
    requires GoodMenu(menu) && SameChoice(a, b)
    ensures PieceTotal(menu, a) == PieceTotal(menu, b) && PieceCount(menu, a) == PieceCount(menu, b)
  {
    hide UnitPrice, IsLineComplete;
    SamePrice(menu, a, b);
  }

  /**
   Setting a note leaves the total and the number of items as they are, except that a merge beyond
   the maximum drops exactly the pieces that are cut off, at the price of the line.
   */
  lemma NoteKeepsTheBill(menu: Menu, cart: CartLines, key: string, note: string)
    requires GoodMenu(menu) && CartOk(cart)
    ensures var cart', excess := SetLineNote(cart, key, note), Excess(cart, key, note);
            var target := FindLine(cart, key);
            && (target.None? ==> cart' == cart)
            && (target.Some? ==>
                  && Sum(PriceOf(menu), cart') == Sum(PriceOf(menu), cart) - excess * PieceTotal(menu, cart[target.value])
                  && Sum(CountOf(menu), cart') == Sum(CountOf(menu), cart) - excess * PieceCount(menu, cart[target.value]))
  {
    hide LineKey, GoodLine, IdentOf, CleanNote, WithNote, LineTotal, LineCount, PieceTotal, PieceCount, Sum, Without;
    match FindLine(cart, key)
    case None =>
    case Some(t) =>
      var updated := WithNote(cart[t], CleanNote(note));
      NoteIsOnePart(cart[t], CleanNote(note));
      match FindFrom(cart, LineKey(updated), 0, t)
      case None =>
        NoteIsFree(menu, cart[t], CleanNote(note));
        SumReplace(PriceOf(menu), cart, t, updated);
        SumReplace(CountOf(menu), cart, t, updated);
      case Some(twin) =>
        LineKeyExact(cart[twin], updated);
        MergeKeepsTheBill(menu, cart, t, twin);
  }

  lemma MergeKeepsTheBill(menu: Menu, cart: CartLines, t: nat, twin: nat)
    requires GoodMenu(menu) && t < |cart| && twin < |cart| && t != twin
    requires SameChoice(cart[t], cart[twin])
    ensures var both := cart[twin].quantity + cart[t].quantity;
            var q, excess := Min(both, MAX_LINE_QUANTITY), Max(0, both - MAX_LINE_QUANTITY);
            var cart' := Without(cart[twin := cart[twin].(quantity := q)], t);
            && Sum(PriceOf(menu), cart') == Sum(PriceOf(menu), cart) - excess * PieceTotal(menu, cart[t])
            && Sum(CountOf(menu), cart') == Sum(CountOf(menu), cart) - excess * PieceCount(menu, cart[t])
  {
    hide GoodLine, IdentOf, LineTotal, LineCount, PieceTotal, PieceCount, Sum, Without, SameChoice;
    var a, b := cart[t], cart[twin];
    var q := Min(b.quantity + a.quantity, MAX_LINE_QUANTITY);
    var merged := b.(quantity := q);
    var raised := cart[twin := merged];
    SumReplace(PriceOf(menu), cart, twin, merged);
    SumReplace(CountOf(menu), cart, twin, merged);
    SumWithout(PriceOf(menu), raised, t);
    SumWithout(CountOf(menu), raised, t);
    assert raised[t] == a;
    ByThePiece(menu, a);
    ByThePiece(menu, b);
    ByThePiece(menu, merged);
    SamePiece(menu, a, b);
    QuantityKeepsChoice(b, q);
    SamePiece(menu, b, merged);
    Cut(PieceTotal(menu, a), a.quantity, b.quantity, q);
    Cut(PieceCount(menu, a), a.quantity, b.quantity, q);
  }

  lemma QuantityKeepsChoice(line: CartLine, quantity: int)
    ensures SameChoice(line, line.(quantity := quantity))
  {}

  lemma Cut(price: int, a: int, b: int, q: int)
    requires q == Min(b + a, MAX_LINE_QUANTITY)
    ensures -(price * b) + price * q - price * a == -(Max(0, b + a - MAX_LINE_QUANTITY) * price)
  {
    assert q - b - a == -Max(0, b + a - MAX_LINE_QUANTITY);
    assert price * (q - b - a) == price * q - price * b - price * a;
  }

  // ----- The bill of a basket

  /** A function of lines that multiplies something of the identity by the quantity. */
  ghost predicate ByIdentity(f: CartLine -> int) {
    forall a, b :: IdentOf(a) == IdentOf(b) && a.quantity == b.quantity ==> f(a) == f(b)
  }

  lemma BillIsByIdentity(menu: Menu)
    requires GoodMenu(menu)
    ensures ByIdentity(PriceOf(menu)) && ByIdentity(CountOf(menu))
  {
    hide GoodLine, IdentOf, LineTotal, LineCount, PieceTotal, PieceCount;
    forall a, b | IdentOf(a) == IdentOf(b) && a.quantity == b.quantity
      ensures LineTotal(menu, a) == LineTotal(menu, b) && LineCount(menu, a) == LineCount(menu, b)
    {
      ByThePiece(menu, a);
      ByThePiece(menu, b);
      SamePiece(menu, a, b);
    }
  }

  lemma {:induction false} SumOfBasket(f: CartLine -> int, a: CartLines, b: CartLines)
    requires DistinctIdents(a) && DistinctIdents(b)
    requires Quantities(a) == Quantities(b) && ByIdentity(f)
    ensures Sum(f, a) == Sum(f, b)
    decreases |a|
  {
    hide GoodLine, IdentOf, Quantities, Without, ByIdentity;
    if a == [] {
      if b != [] { QuantityAt(b, 0); NothingInEmpty(IdentOf(b[0])); }
    } else {
      var n := |a| - 1;
      QuantityAt(a, n);
      var k := PlaceOf(b, IdentOf(a[n]));
      SameTerm(f, a[n], b[k]);
      SumWithout(f, a, n);
      SumWithout(f, b, k);
      DropLine(a, n);
      DropLine(b, k);
      SumOfBasket(f, Without(a, n), Without(b, k));
    }
  }

  lemma SameTerm(f: CartLine -> int, a: CartLine, b: CartLine)
    requires ByIdentity(f) && IdentOf(a) == IdentOf(b) && a.quantity == b.quantity
    ensures f(a) == f(b)
  {}

  lemma NothingInEmpty(id: Ident)
    ensures id !in Quantities([])
  {}

  /** The bill depends on the basket alone: carts with the same quantities cost the same and count the same. */
  lemma SameBasketSameBill(menu: Menu, a: CartLines, b: CartLines)
    requires GoodMenu(menu) && DistinctKeys(a) && DistinctKeys(b) && BasketOf(a).quantity == BasketOf(b).quantity
    ensures Sum(PriceOf(menu), a) == Sum(PriceOf(menu), b)
    ensures Sum(CountOf(menu), a) == Sum(CountOf(menu), b)
  {
    hide GoodLine, IdentOf, LineKey, Sum, LineTotal, LineCount, Quantities, Idents;
    DistinctIdentsOf(a);
    DistinctIdentsOf(b);
    BillIsByIdentity(menu);
    SumOfBasket(PriceOf(menu), a, b);
    SumOfBasket(CountOf(menu), a, b);
  }

  /** In whatever order lines are added, the bill is the same. */
  lemma BillIgnoresAddingOrder(menu: Menu, cart: CartLines, a: CartLines, b: CartLines)
    requires GoodMenu(menu) && CartOk(cart) && multiset(a) == multiset(b)
    requires GoodLines(a) && NonNegative(a) && GoodLines(b) && NonNegative(b)
    ensures Sum(PriceOf(menu), AddAll(cart, a)) == Sum(PriceOf(menu), AddAll(cart, b))
    ensures Sum(CountOf(menu), AddAll(cart, a)) == Sum(CountOf(menu), AddAll(cart, b))
  {
    hide CartOk, GoodLines, Sum, AddAll, Quantities, Idents;
    AddingOrderIsFree(cart, a, b);
    OkHasDistinctKeys(AddAll(cart, a));
    OkHasDistinctKeys(AddAll(cart, b));
    SameBasketSameBill(menu, AddAll(cart, a), AddAll(cart, b));
  }

  // ----- The order

  datatype OrderItem = OrderItem(
    modifierOptionIds: seq<string>,
    note: Option<string>,
    productId: string,
    quantity: int,
    variantId: Option<string>)

  function NonEmpty(text: Option<string>): Option<string> {
    if OrEmpty(text) != "" then text else None
  }

  function ToOrderItems(lines: seq<CartLineView>): (r: seq<OrderItem>)
    ensures |r| == |lines|
  {
    seq(|lines|, i requires 0 <= i < |lines| =>
      var line := lines[i].line;
      OrderItem(line.modifierOptionIds, NonEmpty(line.note), line.productId, line.quantity, NonEmpty(line.variantId)))
  }

  /** An order item as the cart line it asks for. */
  function AskedLine(item: OrderItem): CartLine {
    CartLine(item.productId, item.variantId, item.modifierOptionIds, item.note, item.quantity)
  }

  function AskedLines(items: seq<OrderItem>): CartLines {
    seq(|items|, i requires 0 <= i < |items| => AskedLine(items[i]))
  }

  lemma SellableStep(menu: Menu, cart: CartLines)
    requires cart != []
    ensures Sellable(menu, cart)
         == Sellable(menu, cart[..|cart| - 1]) + (if IsSellable(menu, cart[|cart| - 1]) then [cart[|cart| - 1]] else [])
  {}

  lemma {:induction false} SellableIsOk(menu: Menu, cart: CartLines)
    requires CartOk(cart)
    ensures CartOk(Sellable(menu, cart))
    decreases cart
  {
    hide GoodLine, LineKey, IsSellable, Sellable;
    if cart == [] {
      assert Sellable(menu, []) == [] by { NothingSellable(menu); }
    } else {
      var n := |cart| - 1;
      var front, last := cart[..n], cart[n];
      var rest := Sellable(menu, front);
      SellableIsOk(menu, front);
      SellableIs(menu, front);
      SellableStep(menu, cart);
      forall i | 0 <= i < |rest| ensures LineKey(rest[i]) != LineKey(last) {
        var j :| 0 <= j < |front| && front[j] == rest[i];
        assert cart[j] == rest[i];
      }
    }
  }

  lemma NothingSellable(menu: Menu)
    ensures Sellable(menu, []) == []
  {}

  lemma {:induction false} SellableHasTheBill(menu: Menu, cart: CartLines)
    ensures Sum(PriceOf(menu), Sellable(menu, cart)) == Sum(PriceOf(menu), cart)
    ensures Sum(CountOf(menu), Sellable(menu, cart)) == Sum(CountOf(menu), cart)
    decreases cart
  {
    hide IsSellable, UnitPrice;
    if cart != [] {
      var n := |cart| - 1;
      var rest := Sellable(menu, cart[..n]);
      SellableHasTheBill(menu, cart[..n]);
      if IsSellable(menu, cart[n]) {
        assert (rest + [cart[n]])[..|rest|] == rest;
      } else {
        assert rest + [] == rest;
      }
    }
  }

  /** An empty text is never sent: an item has a note or a variant only if there is something in it. */
  lemma OrdersCarryNoEmptyText(lines: seq<CartLineView>)
    ensures forall i :: 0 <= i < |lines| ==>
              var item, line := ToOrderItems(lines)[i], lines[i].line;
              && item.note != Some("") && item.variantId != Some("")
              && OrEmpty(item.note) == OrEmpty(line.note) && OrEmpty(item.variantId) == OrEmpty(line.variantId)
              && item.modifierOptionIds == line.modifierOptionIds
  {}

  lemma NormalisedLine(line: CartLine)
    ensures var item := OrderItem(line.modifierOptionIds, NonEmpty(line.note), line.productId, line.quantity,
                                  NonEmpty(line.variantId));
            && IdentOf(AskedLine(item)) == IdentOf(line) && AskedLine(item).quantity == line.quantity
            && (GoodLine(line) ==> GoodLine(AskedLine(item)))
  {}

  /**
   The order asks for exactly what the view sells: adding its items to an empty cart gives the same
   identities in the same order and number, and the bill that was shown.
   */
  lemma OrderIsTheSellableCart(menu: Menu, cart: CartLines, view: CartView)
    requires GoodMenu(menu) && CartOk(cart) && IsViewOf(view, menu, cart)
    ensures var again := AddAll([], AskedLines(ToOrderItems(view.lines)));
            && CartOk(again) && CartOk(Sellable(menu, cart))
            && BasketOf(again) == BasketOf(Sellable(menu, cart))
            && Sum(PriceOf(menu), again) == view.totalMinor
            && Sum(CountOf(menu), again) == view.itemCount
  {
    hide GoodLine, IdentOf, LineKey, IsSellable, UnitPrice, LineTotal, LineCount, Sum, AddAll;
    var sold := Sellable(menu, cart);
    var asked := AskedLines(ToOrderItems(view.lines));
    SellableIsOk(menu, cart);
    SellableHasTheBill(menu, cart);
    DistinctIdentsOf(sold);
    forall i | 0 <= i < |sold|
      ensures IdentOf(asked[i]) == IdentOf(sold[i]) && asked[i].quantity == sold[i].quantity && GoodLine(asked[i])
    {
      NormalisedLine(sold[i]);
    }
    assert DistinctIdents(asked);
    DistinctKeysOf(asked);
    AddAllOfCart(asked);
    SameLinesSameBasket(asked, sold);
    SameBasketSameBill(menu, asked, sold);
  }

  lemma SameLinesSameBasket(a: CartLines, b: CartLines)
    requires DistinctKeys(a) && DistinctKeys(b) && |a| == |b|
    requires forall i :: 0 <= i < |a| ==> IdentOf(a[i]) == IdentOf(b[i]) && a[i].quantity == b[i].quantity
    ensures BasketOf(a) == BasketOf(b)
  {
    hide IdentOf, LineKey;
    DistinctIdentsOf(a);
    DistinctIdentsOf(b);
    SameMap(Quantities(a), Quantities(b));
  }
}
