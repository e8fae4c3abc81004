/**
 The cart: an ordered list of lines with distinct keys. It is shown to be a basket, that is, an
 ordered finite map from what a line is about to how many.
 */
module Cart {
  import opened Basics
  import opened Text
  import opened LineKeys

  const MAX_LINE_QUANTITY := 99

  const MAX_NOTE_LENGTH := 300

  type CartLines = seq<CartLine>

  /** `cart.find(line => lineKey(line) === key)`, as a position. */
  function FindLine(cart: CartLines, key: string): (r: Option<nat>)
    ensures r.Some? ==> r.value < |cart| && LineKey(cart[r.value]) == key
    ensures r.Some? ==> forall j :: 0 <= j < r.value ==> LineKey(cart[j]) != key
    ensures r.None? ==> forall j :: 0 <= j < |cart| ==> LineKey(cart[j]) != key
  {
    FindFrom(cart, key, 0, |cart|)
  }

  /** The first line with the key at or after `i`, other than the one at `skip`. */
  function FindFrom(cart: CartLines, key: string, i: nat, skip: nat): (r: Option<nat>)
    requires i <= |cart|
    ensures r.Some? ==> i <= r.value < |cart| && r.value != skip && LineKey(cart[r.value]) == key
    ensures r.Some? ==> forall j :: i <= j < r.value && j != skip ==> LineKey(cart[j]) != key
    ensures r.None? ==> forall j :: i <= j < |cart| && j != skip ==> LineKey(cart[j]) != key
    decreases |cart| - i
  {
    if i == |cart| then None
    else if i != skip && LineKey(cart[i]) == key then Some(i)
    else FindFrom(cart, key, i + 1, skip)
  }

  function AddLine(cart: CartLines, added: CartLine): CartLines {
    match FindLine(cart, LineKey(added))
    case None => cart + [added]
    case Some(i) => cart[i := cart[i].(quantity := Min(cart[i].quantity + added.quantity, MAX_LINE_QUANTITY))]
  }

  function SetLineQuantity(cart: CartLines, key: string, quantity: int): CartLines {
    seq(|cart|, i requires 0 <= i < |cart| =>
      if LineKey(cart[i]) == key
      then cart[i].(quantity := Max(1, Min(quantity, MAX_LINE_QUANTITY)))
      else cart[i])
  }

  function CleanNote(note: string): string {
    var trimmed := Trim(note);
    if |trimmed| <= MAX_NOTE_LENGTH then trimmed else trimmed[..MAX_NOTE_LENGTH]
  }

  function WithNote(target: CartLine, trimmed: string): CartLine {
    CartLine(target.productId,
             if OrEmpty(target.variantId) != "" then target.variantId else None,
             target.modifierOptionIds,
             if trimmed != "" then Some(trimmed) else None,
             target.quantity)
  }

  function SetLineNote(cart: CartLines, key: string, note: string): CartLines {
    match FindLine(cart, key)
    case None => cart
    case Some(t) =>
      var updated := WithNote(cart[t], CleanNote(note));
      match FindFrom(cart, LineKey(updated), 0, t)
      case None => cart[t := updated]
      case Some(twin) =>
        var merged := cart[twin].(quantity := Min(cart[twin].quantity + cart[t].quantity, MAX_LINE_QUANTITY));
        Without(cart[twin := merged], t)
  }

  function Without<T>(s: seq<T>, i: nat): (r: seq<T>)
    requires i < |s|
    ensures |r| == |s| - 1
  {
    s[..i] + s[i + 1..]
  }

  /** `cart.filter(line => lineKey(line) !== key)` */
  function RemoveLine(cart: CartLines, key: string): CartLines {
    if cart == [] then []
    else (if LineKey(cart[0]) != key then [cart[0]] else []) + RemoveLine(cart[1..], key)
  }

  // ----- What every cart keeps

  predicate DistinctKeys(cart: CartLines) {
    forall i, j :: 0 <= i < j < |cart| ==> LineKey(cart[i]) != LineKey(cart[j])
  }

  predicate GoodLines(cart: CartLines) {
    forall i :: 0 <= i < |cart| ==> GoodLine(cart[i])
  }

  /** Lines with good ids, no two of them with one key. */
  predicate CartOk(cart: CartLines) {
    GoodLines(cart) && DistinctKeys(cart)
  }

  predicate InRange(cart: CartLines) {
    forall i :: 0 <= i < |cart| ==> 1 <= cart[i].quantity <= MAX_LINE_QUANTITY
  }

  // ----- The basket a cart stands for

  /** The identities in the order in which the cart shows them, and how many of each. */
  datatype Basket = Basket(order: seq<Ident>, quantity: map<Ident, int>)

  function Idents(cart: CartLines): (r: seq<Ident>)
    ensures |r| == |cart|
  {
    seq(|cart|, i requires 0 <= i < |cart| => IdentOf(cart[i]))
  }

  predicate DistinctIdents(cart: CartLines) {
    forall i, j :: 0 <= i < j < |cart| ==> IdentOf(cart[i]) != IdentOf(cart[j])
  }

  function Quantities(cart: CartLines): map<Ident, int>
    requires DistinctIdents(cart)
  {
    map i | 0 <= i < |cart| :: IdentOf(cart[i]) := cart[i].quantity
  }

  lemma DistinctIdentsOf(cart: CartLines)
    requires DistinctKeys(cart)
    ensures DistinctIdents(cart)
  {
    hide LineKey, IdentOf;
    forall i, j | 0 <= i < j < |cart|
      ensures IdentOf(cart[i]) != IdentOf(cart[j])
    {
      KeyOfIdent(cart[i]);
      KeyOfIdent(cart[j]);
    }
  }

  function BasketOf(cart: CartLines): Basket
    requires DistinctKeys(cart)
  {
    DistinctIdentsOf(cart);
    Basket(Idents(cart), Quantities(cart))
  }

  ghost function FindIdent(order: seq<Ident>, key: string): (r: Option<nat>)
    ensures r.Some? ==> r.value < |order| && IdentKey(order[r.value]) == key
    ensures r.None? ==> forall j :: 0 <= j < |order| ==> IdentKey(order[j]) != key
  {
    if order == [] then None
    else if IdentKey(order[0]) == key then Some(0)
    else
      var rest := FindIdent(order[1..], key);
      if rest.Some? then Some(rest.value + 1) else None
  }

  ghost predicate BasketOk(b: Basket) {
    && (forall id :: id in b.quantity <==> id in b.order)
    && (forall i, j :: 0 <= i < j < |b.order| ==> b.order[i] != b.order[j])
  }

  function BasketAdd(b: Basket, id: Ident, quantity: int): Basket {
    if id in b.quantity
    then b.(quantity := b.quantity[id := Min(b.quantity[id] + quantity, MAX_LINE_QUANTITY)])
    else Basket(b.order + [id], b.quantity[id := quantity])
  }

  ghost function BasketSetQuantity(b: Basket, key: string, quantity: int): Basket {
    match FindIdent(b.order, key)
    case None => b
    case Some(i) => b.(quantity := b.quantity[b.order[i] := Max(1, Min(quantity, MAX_LINE_QUANTITY))])
  }

  /** The identity with the key gets the note; if it thereby becomes another one of the basket, that one absorbs it. */
  ghost function BasketSetNote(b: Basket, key: string, note: string): Basket {
    match FindIdent(b.order, key)
    case None => b
    case Some(i) =>
      var id := b.order[i];
      if id !in b.quantity then b else
      var renamed := id.(note := CleanNote(note));
      var others := b.quantity - {id};
      if renamed in others
      then Basket(Without(b.order, i), others[renamed := Min(b.quantity[renamed] + b.quantity[id], MAX_LINE_QUANTITY)])
      else Basket(b.order[i := renamed], others[renamed := b.quantity[id]])
  }

  ghost function BasketRemove(b: Basket, key: string): Basket {
    match FindIdent(b.order, key)
    case None => b
    case Some(i) => Basket(Without(b.order, i), b.quantity - {b.order[i]})
  }

  // ----- Facts about positions

  lemma {:induction false} FindIdentUnique(order: seq<Ident>, key: string, i: nat)
    requires i < |order| && IdentKey(order[i]) == key
    requires forall j :: 0 <= j < |order| && j != i ==> IdentKey(order[j]) != key
    ensures FindIdent(order, key) == Some(i)
  {
    hide IdentKey;
  }

  lemma FindAgrees(cart: CartLines, key: string)
    requires DistinctKeys(cart)
    ensures FindIdent(Idents(cart), key) == FindLine(cart, key)
  {
    hide LineKey, IdentOf, IdentKey;
    forall i | 0 <= i < |cart| ensures IdentKey(Idents(cart)[i]) == LineKey(cart[i]) {
      KeyOfIdent(cart[i]);
    }
    if FindLine(cart, key).Some? {
      FindIdentUnique(Idents(cart), key, FindLine(cart, key).value);
    }
  }

  lemma BasketIsOk(cart: CartLines)
    requires CartOk(cart)
    ensures BasketOk(BasketOf(cart))
  {
    hide LineKey, IdentOf, GoodLine;
    DistinctIdentsOf(cart);
    var b := BasketOf(cart);
    forall id ensures id in b.quantity <==> id in b.order {
      if id in b.quantity {
        var i :| 0 <= i < |cart| && IdentOf(cart[i]) == id;
        assert b.order[i] == id;
      }
      if id in b.order {
        var i :| 0 <= i < |b.order| && b.order[i] == id;
        assert IdentOf(cart[i]) == id;
      }
    }
  }

  /** A quantity is looked up at the line's own position. */
  lemma QuantityAt(cart: CartLines, i: nat)
    requires DistinctIdents(cart) && i < |cart|
    ensures IdentOf(cart[i]) in Quantities(cart) && Quantities(cart)[IdentOf(cart[i])] == cart[i].quantity
  {}

  /** Replacing a line by one of the same identity. */
  lemma ReplaceQuantity(cart: CartLines, i: nat, quantity: int)
    requires DistinctIdents(cart) && i < |cart|
    ensures var cart' := cart[i := cart[i].(quantity := quantity)];
            && Idents(cart') == Idents(cart) && DistinctIdents(cart')
            && Quantities(cart') == Quantities(cart)[IdentOf(cart[i]) := quantity]
  {
    var line := cart[i].(quantity := quantity);
    var cart' := cart[i := line];
    assert IdentOf(line) == IdentOf(cart[i]);
    hide IdentOf;
    assert forall j :: 0 <= j < |cart| ==> IdentOf(cart'[j]) == IdentOf(cart[j]);
    SameMap(Quantities(cart'), Quantities(cart)[IdentOf(cart[i]) := quantity]);
  }

  lemma SameMap(a: map<Ident, int>, b: map<Ident, int>)
    requires forall id :: id in a <==> id in b
    requires forall id :: id in a && id in b ==> a[id] == b[id]
    ensures a == b
  {}

  lemma AppendLine(cart: CartLines, line: CartLine)
    requires DistinctIdents(cart) && forall i :: 0 <= i < |cart| ==> IdentOf(cart[i]) != IdentOf(line)
    ensures DistinctIdents(cart + [line]) && Idents(cart + [line]) == Idents(cart) + [IdentOf(line)]
    ensures Quantities(cart + [line]) == Quantities(cart)[IdentOf(line) := line.quantity]
  {
    hide IdentOf;
    var cart' := cart + [line];
    assert cart'[|cart|] == line;
    assert forall j :: 0 <= j < |cart| ==> cart'[j] == cart[j];
    SameMap(Quantities(cart'), Quantities(cart)[IdentOf(line) := line.quantity]);
  }

  lemma WithoutAt<T>(s: seq<T>, i: nat)
    requires i < |s|
    ensures var r := Without(s, i);
            && (forall j :: 0 <= j < i ==> r[j] == s[j])
            && (forall j :: i <= j < |r| ==> r[j] == s[j + 1])
            && (forall j :: i < j < |s| ==> s[j] == r[j - 1])
  {}

  lemma DropLine(cart: CartLines, i: nat)
    requires DistinctIdents(cart) && i < |cart|
    ensures DistinctIdents(Without(cart, i)) && Idents(Without(cart, i)) == Without(Idents(cart), i)
    ensures Quantities(Without(cart, i)) == Quantities(cart) - {IdentOf(cart[i])}
  {
    hide IdentOf, Without;
    var cart' := Without(cart, i);
    WithoutAt(cart, i);
    WithoutAt(Idents(cart), i);
    DropQuantity(cart, i, cart');
  }

  lemma DropQuantity(cart: CartLines, i: nat, cart': CartLines)
    requires DistinctIdents(cart) && i < |cart| && |cart'| == |cart| - 1
    requires forall j :: 0 <= j < i ==> cart'[j] == cart[j]
    requires forall j :: i <= j < |cart'| ==> cart'[j] == cart[j + 1]
    requires forall j :: i < j < |cart| ==> cart[j] == cart'[j - 1]
    ensures DistinctIdents(cart') && Quantities(cart') == Quantities(cart) - {IdentOf(cart[i])}
  {
    hide IdentOf, Quantities;
    assert DistinctIdents(cart');
    var gone := IdentOf(cart[i]);
    var left, right := Quantities(cart'), Quantities(cart) - {gone};
    forall id | id in left ensures id in right && right[id] == left[id] {
      var j := PlaceOf(cart', id);
      var k := if j < i then j else j + 1;
      assert cart[k] == cart'[j];
      QuantityAt(cart, k);
    }
    forall id | id in right ensures id in left {
      var k := PlaceOf(cart, id);
      var j := if k < i then k else k - 1;
      assert cart'[j] == cart[k];
      QuantityAt(cart', j);
    }
    SameMap(left, right);
  }

  /** The line an identity is counted at. */
  lemma PlaceOf(cart: CartLines, id: Ident) returns (i: nat)
    requires DistinctIdents(cart) && id in Quantities(cart)
    ensures i < |cart| && IdentOf(cart[i]) == id && Quantities(cart)[id] == cart[i].quantity
  {
    hide IdentOf;
    i :| 0 <= i < |cart| && IdentOf(cart[i]) == id;
    QuantityAt(cart, i);
  }

  lemma RenameLine(cart: CartLines, i: nat, line: CartLine)
    requires DistinctIdents(cart) && i < |cart|
    requires forall j :: 0 <= j < |cart| && j != i ==> IdentOf(cart[j]) != IdentOf(line)
    ensures DistinctIdents(cart[i := line]) && Idents(cart[i := line]) == Idents(cart)[i := IdentOf(line)]
    ensures Quantities(cart[i := line]) == (Quantities(cart) - {IdentOf(cart[i])})[IdentOf(line) := line.quantity]
  {
    hide IdentOf, Quantities;
    var cart' := cart[i := line];
    assert cart'[i] == line;
    assert forall j :: 0 <= j < |cart| && j != i ==> cart'[j] == cart[j];
    var left, right := Quantities(cart'), (Quantities(cart) - {IdentOf(cart[i])})[IdentOf(line) := line.quantity];
    forall id | id in left ensures id in right && right[id] == left[id] {
      var j := PlaceOf(cart', id);
      QuantityAt(cart, j);
    }
    forall id | id in right ensures id in left {
      if id == IdentOf(line) {
        QuantityAt(cart', i);
      } else {
        var j := PlaceOf(cart, id);
        QuantityAt(cart', j);
      }
    }
    SameMap(left, right);
  }

  /** With good ids, distinct identities are distinct keys. */
  lemma DistinctKeysOf(cart: CartLines)
    requires GoodLines(cart) && DistinctIdents(cart)
    ensures DistinctKeys(cart)
  {
    hide LineKey, IdentOf, GoodLine;
    forall i, j | 0 <= i < j < |cart|
      ensures LineKey(cart[i]) != LineKey(cart[j])
    {
      LineKeyExact(cart[i], cart[j]);
    }
  }

  lemma QuantityIsNoPart(line: CartLine, quantity: int)
    ensures IdentOf(line.(quantity := quantity)) == IdentOf(line)
    ensures LineKey(line.(quantity := quantity)) == LineKey(line)
    ensures GoodLine(line.(quantity := quantity)) == GoodLine(line)
  {}

  lemma NoteIsOnePart(line: CartLine, trimmed: string)
    ensures IdentOf(WithNote(line, trimmed)) == IdentOf(line).(note := trimmed)
    ensures GoodLine(line) ==> GoodLine(WithNote(line, trimmed))
    ensures WithNote(line, trimmed).quantity == line.quantity
  {}

  // ----- Each operation is the matching update of the basket

  lemma AddRefines(cart: CartLines, added: CartLine)
    requires CartOk(cart) && GoodLine(added)
    ensures CartOk(AddLine(cart, added))
    ensures BasketOf(AddLine(cart, added)) == BasketAdd(BasketOf(cart), IdentOf(added), added.quantity)
  {
    hide LineKey, IdentOf, GoodLine;
    DistinctIdentsOf(cart);
    match FindLine(cart, LineKey(added))
    case None =>
      forall i | 0 <= i < |cart| ensures IdentOf(cart[i]) != IdentOf(added) {
        LineKeyExact(cart[i], added);
      }
      AppendLine(cart, added);
      assert IdentOf(added) !in Quantities(cart);
      DistinctKeysOf(cart + [added]);
    case Some(i) =>
      var q := Min(cart[i].quantity + added.quantity, MAX_LINE_QUANTITY);
      LineKeyExact(cart[i], added);
      QuantityAt(cart, i);
      ReplaceQuantity(cart, i, q);
      QuantityIsNoPart(cart[i], q);
      DistinctKeysOf(AddLine(cart, added));
  }

  lemma SetQuantityRefines(cart: CartLines, key: string, quantity: int)
    requires CartOk(cart)
    ensures CartOk(SetLineQuantity(cart, key, quantity))
    ensures BasketOf(SetLineQuantity(cart, key, quantity)) == BasketSetQuantity(BasketOf(cart), key, quantity)
  {
    hide LineKey, IdentOf, GoodLine, IdentKey;
    DistinctIdentsOf(cart);
    FindAgrees(cart, key);
    var q := Max(1, Min(quantity, MAX_LINE_QUANTITY));
    match FindLine(cart, key)
    case None =>
      assert SetLineQuantity(cart, key, quantity) == cart;
    case Some(i) =>
      assert SetLineQuantity(cart, key, quantity) == cart[i := cart[i].(quantity := q)];
      ReplaceQuantity(cart, i, q);
      QuantityIsNoPart(cart[i], q);
      DistinctKeysOf(SetLineQuantity(cart, key, quantity));
  }

  lemma {:induction false} RemoveOnly(cart: CartLines, key: string, i: nat)
    requires i < |cart| && LineKey(cart[i]) == key
    requires forall j :: 0 <= j < |cart| && j != i ==> LineKey(cart[j]) != key
    ensures RemoveLine(cart, key) == Without(cart, i)
    decreases i
  {
    hide LineKey;
    if i == 0 {
      RemoveNone(cart[1..], key);
    } else {
      RemoveOnly(cart[1..], key, i - 1);
      assert Without(cart, i) == [cart[0]] + Without(cart[1..], i - 1);
    }
  }

  lemma {:induction false} RemoveNone(cart: CartLines, key: string)
    requires forall j :: 0 <= j < |cart| ==> LineKey(cart[j]) != key
    ensures RemoveLine(cart, key) == cart
  {
    hide LineKey;
    if cart != [] {
      RemoveNone(cart[1..], key);
      assert [cart[0]] + cart[1..] == cart;
    }
  }

  lemma RemoveRefines(cart: CartLines, key: string)
    requires CartOk(cart)
    ensures CartOk(RemoveLine(cart, key))
    ensures BasketOf(RemoveLine(cart, key)) == BasketRemove(BasketOf(cart), key)
  {
    hide LineKey, IdentOf, GoodLine, IdentKey, Without, Quantities;
    DistinctIdentsOf(cart);
    FindAgrees(cart, key);
    match FindLine(cart, key)
    case None => RemoveNone(cart, key);
    case Some(i) =>
      RemoveOnly(cart, key, i);
      DropLine(cart, i);
      DropKeepsGood(cart, i);
      DistinctKeysOf(Without(cart, i));
  }

  /** Where `SetLineNote` finds a twin, by identity. */
  lemma TwinIsRenamed(cart: CartLines, t: nat, updated: CartLine)
    requires CartOk(cart) && t < |cart| && GoodLine(updated)
    ensures match FindFrom(cart, LineKey(updated), 0, t)
            case None => forall j :: 0 <= j < |cart| && j != t ==> IdentOf(cart[j]) != IdentOf(updated)
            case Some(twin) => IdentOf(cart[twin]) == IdentOf(updated)
  {
    hide LineKey, IdentOf, GoodLine;
    forall j | 0 <= j < |cart| ensures LineKey(cart[j]) == LineKey(updated) <==> IdentOf(cart[j]) == IdentOf(updated) {
      LineKeyExact(cart[j], updated);
    }
  }

  lemma SetNoteRefines(cart: CartLines, key: string, note: string)
    requires CartOk(cart)
    ensures CartOk(SetLineNote(cart, key, note))
    ensures BasketOf(SetLineNote(cart, key, note)) == BasketSetNote(BasketOf(cart), key, note)
  {
    hide LineKey, IdentOf, GoodLine, IdentKey, WithNote, CleanNote, Without, Quantities;
    DistinctIdentsOf(cart);
    FindAgrees(cart, key);
    BasketIsOk(cart);
    match FindLine(cart, key)
    case None =>
    case Some(t) =>
      NoteIsOnePart(cart[t], CleanNote(note));
      QuantityAt(cart, t);
      var updated := WithNote(cart[t], CleanNote(note));
      TwinIsRenamed(cart, t, updated);
      match FindFrom(cart, LineKey(updated), 0, t)
      case None =>
        RenameLine(cart, t, updated);
        DistinctKeysOf(cart[t := updated]);
        NotHeldElsewhere(cart, t, IdentOf(updated));
      case Some(twin) =>
        MergeRefines(cart, t, twin, updated);
  }

  lemma NotHeldElsewhere(cart: CartLines, t: nat, id: Ident)
    requires DistinctIdents(cart) && t < |cart|
    requires forall j :: 0 <= j < |cart| && j != t ==> IdentOf(cart[j]) != id
    ensures id !in Quantities(cart) - {IdentOf(cart[t])}
  {
    hide IdentOf;
  }

  lemma MergeRefines(cart: CartLines, t: nat, twin: nat, updated: CartLine)
    requires CartOk(cart) && DistinctIdents(cart) && t < |cart| && twin < |cart| && t != twin
    requires IdentOf(cart[twin]) == IdentOf(updated)
    ensures var q := Min(cart[twin].quantity + cart[t].quantity, MAX_LINE_QUANTITY);
            var merged := Without(cart[twin := cart[twin].(quantity := q)], t);
            && CartOk(merged) && DistinctIdents(merged)
            && IdentOf(updated) in Quantities(cart) - {IdentOf(cart[t])}
            && Quantities(cart)[IdentOf(updated)] == cart[twin].quantity
            && Idents(merged) == Without(Idents(cart), t)
            && Quantities(merged) == (Quantities(cart) - {IdentOf(cart[t])})[IdentOf(updated) := q]
  {
    hide LineKey, IdentOf, GoodLine, Without, Quantities, Idents, DistinctKeys;
    var q := Min(cart[twin].quantity + cart[t].quantity, MAX_LINE_QUANTITY);
    var raised := cart[twin := cart[twin].(quantity := q)];
    QuantityAt(cart, twin);
    QuantityAt(cart, t);
    ReplaceQuantity(cart, twin, q);
    QuantityIsNoPart(cart[twin], q);
    assert GoodLines(raised);
    DropLine(raised, t);
    DropKeepsGood(raised, t);
    DistinctKeysOf(Without(raised, t));
    assert raised[t] == cart[t];
    SameMap(Quantities(Without(raised, t)), (Quantities(cart) - {IdentOf(cart[t])})[IdentOf(updated) := q]);
  }

  lemma DropKeepsGood(cart: CartLines, i: nat)
    requires GoodLines(cart) && i < |cart|
    ensures GoodLines(Without(cart, i))
  {
    hide GoodLine;
    WithoutAt(cart, i);
  }

  // ----- Whole runs

  datatype Operation =
    | Add(line: CartLine)
    | SetQuantity(key: string, quantity: int)
    | SetNote(key: string, note: string)
    | Remove(key: string)

  predicate Allowed(op: Operation) {
    op.Add? ==> GoodLine(op.line)
  }

  /** What the menus add: at least one and at most the maximum. */
  predicate AddsInRange(op: Operation) {
    op.Add? ==> 1 <= op.line.quantity <= MAX_LINE_QUANTITY
  }

  function Apply(cart: CartLines, op: Operation): CartLines {
    match op
    case Add(line) => AddLine(cart, line)
    case SetQuantity(key, quantity) => SetLineQuantity(cart, key, quantity)
    case SetNote(key, note) => SetLineNote(cart, key, note)
    case Remove(key) => RemoveLine(cart, key)
  }

  ghost function ApplyToBasket(b: Basket, op: Operation): Basket {
    match op
    case Add(line) => BasketAdd(b, IdentOf(line), line.quantity)
    case SetQuantity(key, quantity) => BasketSetQuantity(b, key, quantity)
    case SetNote(key, note) => BasketSetNote(b, key, note)
    case Remove(key) => BasketRemove(b, key)
  }

  function Run(ops: seq<Operation>): CartLines {
    if ops == [] then [] else Apply(Run(ops[..|ops| - 1]), ops[|ops| - 1])
  }

  ghost function RunBasket(ops: seq<Operation>): Basket {
    if ops == [] then Basket([], map[]) else ApplyToBasket(RunBasket(ops[..|ops| - 1]), ops[|ops| - 1])
  }

  lemma ApplyRefines(cart: CartLines, op: Operation)
    requires CartOk(cart) && Allowed(op)
    ensures CartOk(Apply(cart, op))
    ensures BasketOf(Apply(cart, op)) == ApplyToBasket(BasketOf(cart), op)
  {
    hide CartOk, BasketOf, BasketOk, AddLine, SetLineQuantity, SetLineNote, RemoveLine, BasketAdd, BasketSetQuantity,
      BasketSetNote, BasketRemove;
    match op
    case Add(line) => AddRefines(cart, line);
    case SetQuantity(key, quantity) => SetQuantityRefines(cart, key, quantity);
    case SetNote(key, note) => SetNoteRefines(cart, key, note);
    case Remove(key) => RemoveRefines(cart, key);
  }

  /**
   Every run of the four operations keeps the keys distinct, and leads to the basket that the same
   operations on ordered finite maps lead to, whatever quantities are added.
   */
  lemma {:induction false} RunRefines(ops: seq<Operation>)
    requires forall i :: 0 <= i < |ops| ==> Allowed(ops[i])
    ensures CartOk(Run(ops)) && BasketOf(Run(ops)) == RunBasket(ops) && BasketOk(RunBasket(ops))
  {
    hide Apply, ApplyToBasket, BasketOk, CartOk, Allowed;
    if ops == [] {
      EmptyCart();
    } else {
      var front, last := ops[..|ops| - 1], ops[|ops| - 1];
      RunRefines(front);
      ApplyRefines(Run(front), last);
      BasketIsOk(Run(ops));
    }
  }

  lemma EmptyCart()
    ensures CartOk([]) && BasketOf([]) == Basket([], map[]) && BasketOk(Basket([], map[]))
  {}

  /**
   Adding keeps the quantities in range exactly when the one it leads to is: a fresh line is stored as
   it comes, so a quantity above the maximum is not cut, while a growing line is.
   */
  lemma AddKeepsExactly(cart: CartLines, added: CartLine)
    requires InRange(cart)
    ensures InRange(AddLine(cart, added))
       <==> match FindLine(cart, LineKey(added))
            case None => 1 <= added.quantity <= MAX_LINE_QUANTITY
            case Some(i) => 1 <= cart[i].quantity + added.quantity
  {
    hide LineKey;
    match FindLine(cart, LineKey(added))
    case None =>
      var cart' := AddLine(cart, added);
      assert cart'[|cart|] == added;
    case Some(i) =>
      var q := Min(cart[i].quantity + added.quantity, MAX_LINE_QUANTITY);
      assert AddLine(cart, added)[i].quantity == q;
  }

  lemma SetNoteKeepsRange(cart: CartLines, key: string, note: string)
    requires InRange(cart)
    ensures InRange(SetLineNote(cart, key, note))
  {
    hide LineKey, CleanNote, Without;
    if FindLine(cart, key).Some? {
      var t := FindLine(cart, key).value;
      var updated := WithNote(cart[t], CleanNote(note));
      match FindFrom(cart, LineKey(updated), 0, t)
      case None =>
      case Some(twin) =>
        var q := Min(cart[twin].quantity + cart[t].quantity, MAX_LINE_QUANTITY);
        WithoutAt(cart[twin := cart[twin].(quantity := q)], t);
    }
  }

  lemma {:induction false} RemoveKeepsRange(cart: CartLines, key: string)
    requires InRange(cart)
    ensures InRange(RemoveLine(cart, key))
  {
    hide LineKey;
    if cart != [] { RemoveKeepsRange(cart[1..], key); }
  }

  /** When only quantities in 1..99 are added, every quantity of every run stays in 1..99. */
  lemma {:induction false} RunInRange(ops: seq<Operation>)
    requires forall i :: 0 <= i < |ops| ==> AddsInRange(ops[i])
    ensures InRange(Run(ops))
  {
    hide InRange, LineKey, AddLine, SetLineNote, RemoveLine;
    if ops == [] {
      NothingOutOfRange();
    } else {
      var front, last := ops[..|ops| - 1], ops[|ops| - 1];
      RunInRange(front);
      match last
      case Add(line) =>
        AddKeepsExactly(Run(front), line);
        LineInRange(Run(front), line.quantity);
      case SetQuantity(key, quantity) => SetQuantityKeepsRange(Run(front), key, quantity);
      case SetNote(key, note) => SetNoteKeepsRange(Run(front), key, note);
      case Remove(key) => RemoveKeepsRange(Run(front), key);
    }
  }

  lemma NothingOutOfRange()
    ensures InRange([])
  {}

  lemma LineInRange(cart: CartLines, quantity: int)
    requires InRange(cart) && quantity >= 1
    ensures forall i :: 0 <= i < |cart| ==> 1 <= cart[i].quantity + quantity
  {}

  lemma SetQuantityKeepsRange(cart: CartLines, key: string, quantity: int)
    requires InRange(cart)
    ensures InRange(SetLineQuantity(cart, key, quantity))
  {
    hide LineKey;
  }

  /** What is stored of a note: without the white space around it, its first 300 characters. */
  lemma CleanNoteExactly(note: string) returns (a: string, text: string, b: string)
    ensures note == a + text + b && AllSpaces(a) && AllSpaces(b)
    ensures text != "" ==> !IsSpace(text[0]) && !IsSpace(text[|text| - 1])
    ensures CleanNote(note) == text[..Min(300, |text|)]
  {
    text := Trim(note);
    a, b := TrimTakesOff(note);
  }

  /** Cleaning a note again changes nothing, except when the cut at the limit leaves white space at the end. */
  lemma CleanNoteFixed(note: string)
    ensures CleanNote(CleanNote(note)) == CleanNote(note)
       <==> |Trim(note)| <= MAX_NOTE_LENGTH || !IsSpace(Trim(note)[MAX_NOTE_LENGTH - 1])
  {
    hide IsSpace;
    var t := Trim(note);
    var clean := CleanNote(note);
    assert |t| > MAX_NOTE_LENGTH ==> clean == t[..MAX_NOTE_LENGTH] && clean[0] == t[0]
                                     && clean[|clean| - 1] == t[MAX_NOTE_LENGTH - 1];
    TrimStartsAtText(clean);
  }

  lemma TrimStartsAtText(s: string)
    requires s != "" ==> !IsSpace(s[0])
    ensures Trim(s) == s <==> s == "" || !IsSpace(s[|s| - 1])
    ensures |Trim(s)| <= |s|
  {}

  /** The exception is real: 299 letters, a space and a letter lose the space only the second time. */
  lemma CutAtSpaceIsNotFixed()
    ensures var note := Repeat('a', 299) + " b";
            && |note| == 301 && note[299] == ' '
            && CleanNote(note) == Repeat('a', 299) + " "
            && CleanNote(CleanNote(note)) != CleanNote(note)
  {
    hide TrimStart, TrimEnd;
    var letters := Repeat('a', 299);
    var note := letters + " b";
    assert note[0] == 'a' && note[300] == 'b';
    TrimStartsAtText(note);
    assert note[..300] == letters + " ";
    CleanNoteFixed(note);
  }

  // ----- What an operation leaves alone

  /** Adding changes at most one quantity, that of a line with the added key, or appends the line as it is. */
  lemma AddTouchesOneQuantity(cart: CartLines, added: CartLine)
    ensures var cart' := AddLine(cart, added);
            && |cart| <= |cart'| <= |cart| + 1
            && (forall i :: 0 <= i < |cart| ==> cart'[i] == cart[i].(quantity := cart'[i].quantity))
            && (forall i :: 0 <= i < |cart| && LineKey(cart[i]) != LineKey(added) ==> cart'[i] == cart[i])
            && (|cart'| > |cart| ==> cart'[|cart|] == added)
  {
    hide LineKey;
  }

  /** Setting a quantity changes that of the lines with the key, to the nearest number from 1 to 99, and nothing else. */
  lemma SetQuantityTouchesQuantities(cart: CartLines, key: string, quantity: int)
    ensures var cart' := SetLineQuantity(cart, key, quantity);
            && |cart'| == |cart|
            && (forall i :: 0 <= i < |cart| ==> cart'[i] == cart[i].(quantity := cart'[i].quantity))
            && (forall i :: 0 <= i < |cart| && LineKey(cart[i]) != key ==> cart'[i] == cart[i])
            && (forall i :: 0 <= i < |cart| && LineKey(cart[i]) == key ==>
                  && (1 <= quantity <= MAX_LINE_QUANTITY ==> cart'[i].quantity == quantity)
                  && (quantity < 1 ==> cart'[i].quantity == 1)
                  && (quantity > MAX_LINE_QUANTITY ==> cart'[i].quantity == MAX_LINE_QUANTITY))
  {
    hide LineKey;
  }

  /** Removing takes out the one line with the key, and nothing if there is none. */
  lemma RemoveTakesOneLine(cart: CartLines, key: string)
    requires DistinctKeys(cart)
    ensures match FindLine(cart, key)
            case None => RemoveLine(cart, key) == cart
            case Some(i) => RemoveLine(cart, key) == Without(cart, i)
  {
    hide LineKey, RemoveLine, Without;
    match FindLine(cart, key)
    case None => RemoveNone(cart, key);
    case Some(i) => RemoveOnly(cart, key, i);
  }

  /**
   Setting a note changes the line in place, in its note alone, or takes it out and raises one quantity.
   Empty texts are not stored: without a note, and without a variant, the line has no such field.
   */
  lemma SetNoteTouchesOneLine(cart: CartLines, key: string, note: string)
    ensures var cart' := SetLineNote(cart, key, note);
            match FindLine(cart, key)
            case None => cart' == cart
            case Some(t) =>
              if |cart'| == |cart| then
                && (forall i :: 0 <= i < |cart| && i != t ==> cart'[i] == cart[i])
                && cart'[t] == cart[t].(note := cart'[t].note, variantId := cart'[t].variantId)
                && OrEmpty(cart'[t].note) == CleanNote(note) && cart'[t].note != Some("")
                && OrEmpty(cart'[t].variantId) == OrEmpty(cart[t].variantId) && cart'[t].variantId != Some("")
              else
                && |cart'| == |cart| - 1
                && forall i :: 0 <= i < |cart'| ==>
                     cart'[i] == cart[if i < t then i else i + 1].(quantity := cart'[i].quantity)
  {
    hide LineKey, CleanNote;
  }
}
