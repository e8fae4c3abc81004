/** Cart lines and the text key that decides which lines are one line. */
module LineKeys {
  import opened Basics
  import opened Text

  datatype CartLine = CartLine(
    productId: string,
    variantId: Option<string>,
    modifierOptionIds: seq<string>,
    note: Option<string>,
    quantity: int)

  /** `text ?? ""` */
  function OrEmpty(text: Option<string>): string {
    if text.Some? then text.value else ""
  }

  // ----- Sorting by code units, as `sort()` does

  predicate AtMost(a: string, b: string) {
    a == "" || (b != "" && (a[0] < b[0] || (a[0] == b[0] && AtMost(a[1..], b[1..]))))
  }

  /** The texts agree up to a place where the first has the smaller code unit. */
  predicate SmallerAt(a: string, b: string, k: int) {
    0 <= k < |a| && k < |b| && a[..k] == b[..k] && a[k] < b[k]
  }

  /** The order is that of the first code unit in which the texts differ, a beginning before the whole. */
  lemma {:induction false} AtMostExactly(a: string, b: string)
    ensures AtMost(a, b) <==> a <= b || exists k :: SmallerAt(a, b, k)
    decreases |a|
  {
    if a != "" && b != "" {
      if a[0] == b[0] {
        SameFirst(a, b);
        AtMostExactly(a[1..], b[1..]);
      } else if a[0] < b[0] {
        assert SmallerAt(a, b, 0);
      }
      forall k ensures SmallerAt(a, b, k) ==> a[0] <= b[0] {
        FirstAtMost(a, b, k);
      }
    }
  }

  lemma FirstAtMost(a: string, b: string, k: int)
    ensures SmallerAt(a, b, k) ==> a[0] <= b[0]
  {
    if SmallerAt(a, b, k) && k > 0 { assert a[0] == a[..k][0] && b[0] == b[..k][0]; }
  }

  lemma SameFirst(a: string, b: string)
    requires a != "" && b != "" && a[0] == b[0]
    ensures a <= b <==> a[1..] <= b[1..]
    ensures (exists k :: SmallerAt(a, b, k)) <==> exists k :: SmallerAt(a[1..], b[1..], k)
  {
    assert a == [a[0]] + a[1..] && b == [b[0]] + b[1..];
    if k :| SmallerAt(a, b, k) {
      assert a[1..][..k - 1] == a[..k][1..] && b[1..][..k - 1] == b[..k][1..];
      assert SmallerAt(a[1..], b[1..], k - 1);
    }
    if k :| SmallerAt(a[1..], b[1..], k) {
      assert a[..k + 1] == [a[0]] + a[1..][..k] && b[..k + 1] == [b[0]] + b[1..][..k];
      assert SmallerAt(a, b, k + 1);
    }
  }

  predicate Sorted(ids: seq<string>) {
    forall i, j :: 0 <= i < j < |ids| ==> AtMost(ids[i], ids[j])
  }

  function Insert(id: string, ids: seq<string>): seq<string> {
    if ids == [] then [id]
    else if AtMost(id, ids[0]) then [id] + ids
    else [ids[0]] + Insert(id, ids[1..])
  }

  function SortIds(ids: seq<string>): seq<string> {
    if ids == [] then [] else Insert(ids[0], SortIds(ids[1..]))
  }

  lemma {:induction false} AtMostTotal(a: string, b: string)
    ensures AtMost(a, b) || AtMost(b, a)
    ensures AtMost(a, b) && AtMost(b, a) ==> a == b
  {
    if a != "" && b != "" {
      AtMostTotal(a[1..], b[1..]);
      assert a == [a[0]] + a[1..] && b == [b[0]] + b[1..];
    }
  }

  lemma {:induction false} AtMostTransitive(a: string, b: string, c: string)
    requires AtMost(a, b) && AtMost(b, c)
    ensures AtMost(a, c)
  {
    if a != "" && a[0] == b[0] && b[0] == c[0] { AtMostTransitive(a[1..], b[1..], c[1..]); }
  }

  predicate BeforeAll(id: string, ids: seq<string>) {
    forall j :: 0 <= j < |ids| ==> AtMost(id, ids[j])
  }

  lemma SortedCons(id: string, ids: seq<string>)
    ensures Sorted([id] + ids) <==> BeforeAll(id, ids) && Sorted(ids)
  {
    hide AtMost;
    var all := [id] + ids;
    if Sorted(all) {
      forall i, j | 0 <= i < j < |ids| ensures AtMost(ids[i], ids[j]) {
        assert AtMost(all[i + 1], all[j + 1]);
      }
      forall j | 0 <= j < |ids| ensures AtMost(id, ids[j]) {
        assert AtMost(all[0], all[j + 1]);
      }
    }
  }

  lemma BeforeAllTransitive(id: string, head: string, ids: seq<string>)
    requires AtMost(id, head) && BeforeAll(head, ids)
    ensures BeforeAll(id, ids)
  {
    hide AtMost;
    forall j | 0 <= j < |ids| ensures AtMost(id, ids[j]) {
      AtMostTransitive(id, head, ids[j]);
    }
  }

  lemma BeforeInserted(head: string, id: string, ids: seq<string>, inserted: seq<string>)
    requires BeforeAll(head, ids) && AtMost(head, id)
    requires multiset(inserted) == multiset{id} + multiset(ids)
    ensures BeforeAll(head, inserted)
  {
    hide AtMost;
    forall j | 0 <= j < |inserted| ensures AtMost(head, inserted[j]) {
      assert inserted[j] in multiset(inserted);
    }
  }

  lemma {:induction false} InsertSorts(id: string, ids: seq<string>)
    requires Sorted(ids)
    ensures Sorted(Insert(id, ids)) && multiset(Insert(id, ids)) == multiset{id} + multiset(ids)
    decreases ids
  {
    hide AtMost, Sorted, BeforeAll;
    if ids == [] {
      SortedCons(id, []);
      NothingBefore(id);
      assert [id] + [] == [id];
    } else {
      var head, tail := ids[0], ids[1..];
      assert ids == [head] + tail;
      SortedCons(head, tail);
      AtMostTotal(id, head);
      if AtMost(id, head) {
        BeforeAllTransitive(id, head, tail);
        BeforeHeadAndTail(id, head, tail);
        SortedCons(id, ids);
      } else {
        InsertSorts(id, tail);
        BeforeInserted(head, id, tail, Insert(id, tail));
        SortedCons(head, Insert(id, tail));
      }
    }
  }

  lemma NothingBefore(id: string)
    ensures BeforeAll(id, []) && Sorted([])
  {}

  lemma BeforeHeadAndTail(id: string, head: string, tail: seq<string>)
    requires AtMost(id, head) && BeforeAll(id, tail)
    ensures BeforeAll(id, [head] + tail)
  {
    hide AtMost;
  }

  /** The result of sorting: sorted, and the same ids the same number of times. */
  lemma {:induction false} SortSorts(ids: seq<string>)
    ensures Sorted(SortIds(ids)) && multiset(SortIds(ids)) == multiset(ids)
    decreases ids
  {
    if ids != [] {
      SortSorts(ids[1..]);
      InsertSorts(ids[0], SortIds(ids[1..]));
      assert ids == [ids[0]] + ids[1..];
    }
  }

  lemma {:induction false} SortedUnique(a: seq<string>, b: seq<string>)
    requires Sorted(a) && Sorted(b) && multiset(a) == multiset(b)
    ensures a == b
    decreases a
  {
    hide AtMost, Sorted;
    assert |multiset(a)| == |multiset(b)|;
    if a != [] {
      assert a == [a[0]] + a[1..] && b == [b[0]] + b[1..];
      SameHead(a, b);
      SortedCons(a[0], a[1..]);
      SortedCons(b[0], b[1..]);
      assert multiset(a[1..]) == multiset(a) - multiset{a[0]};
      assert multiset(b[1..]) == multiset(b) - multiset{b[0]};
      SortedUnique(a[1..], b[1..]);
    }
  }

  lemma SameHead(a: seq<string>, b: seq<string>)
    requires Sorted(a) && Sorted(b) && multiset(a) == multiset(b) && a != [] && b != []
    ensures a[0] == b[0]
  {
    hide AtMost, Sorted;
    assert a[0] in multiset(b) && b[0] in multiset(a);
    LeastFirst(a, b[0]);
    LeastFirst(b, a[0]);
    AtMostTotal(a[0], b[0]);
  }

  lemma LeastFirst(ids: seq<string>, id: string)
    requires Sorted(ids) && id in ids
    ensures AtMost(ids[0], id)
  {
    hide AtMost;
    AtMostTotal(id, id);
  }

  // ----- The key

  function Join(parts: seq<string>, separator: string): string {
    if parts == [] then ""
    else if |parts| == 1 then parts[0]
    else parts[0] + separator + Join(parts[1..], separator)
  }

  function LineKey(line: CartLine): string {
    Join([line.productId,
          OrEmpty(line.variantId),
          Join(SortIds(line.modifierOptionIds), ","),
          OrEmpty(line.note)], "|")
  }

  /** What a line is about, apart from how many: an absent variant or note is an empty one. */
  datatype Ident = Ident(productId: string, variantId: string, modifiers: multiset<string>, note: string)

  function IdentOf(line: CartLine): Ident {
    Ident(line.productId, OrEmpty(line.variantId), multiset(line.modifierOptionIds), OrEmpty(line.note))
  }

  /** Modifier ids that the key can tell apart in their joined text. */
  predicate GoodId(id: string) {
    id != "" && '|' !in id && ',' !in id
  }

  /** What the key needs of ids; the UUIDs that the server hands out have it. */
  predicate GoodLine(line: CartLine) {
    '|' !in line.productId && '|' !in OrEmpty(line.variantId) && GoodIds(line.modifierOptionIds)
  }

  lemma KeyParts(p: string, v: string, m: string, n: string)
    ensures Join([p, v, m, n], "|") == p + "|" + (v + "|" + (m + "|" + n))
  {
    assert [p, v, m, n][1..] == [v, m, n] && [v, m, n][1..] == [m, n] && [m, n][1..] == [n];
    assert Join([m, n], "|") == m + "|" + n;
    assert Join([v, m, n], "|") == v + "|" + (m + "|" + n);
  }

  predicate GoodIds(ids: seq<string>) {
    forall i :: 0 <= i < |ids| ==> GoodId(ids[i])
  }

  lemma SortedStaysGood(ids: seq<string>)
    requires GoodIds(ids)
    ensures GoodIds(SortIds(ids))
  {
    SortSorts(ids);
    forall i | 0 <= i < |SortIds(ids)| ensures GoodId(SortIds(ids)[i]) {
      assert SortIds(ids)[i] in multiset(ids);
    }
  }

  lemma {:induction false} JoinedHasNoBar(ids: seq<string>)
    requires GoodIds(ids)
    ensures '|' !in Join(ids, ",")
    decreases ids
  {
    if |ids| > 1 { JoinedHasNoBar(ids[1..]); }
  }

  lemma JoinMore(ids: seq<string>)
    requires |ids| > 1
    ensures Join(ids, ",") == ids[0] + [','] + Join(ids[1..], ",")
  {}

  lemma CommaMeansMore(ids: seq<string>)
    requires GoodIds(ids)
    ensures ',' in Join(ids, ",") <==> |ids| > 1
    ensures Join(ids, ",") == "" <==> ids == []
  {
    if |ids| > 1 {
      JoinMore(ids);
      assert Join(ids, ",")[|ids[0]|] == ',';
    }
  }

  /** Ids without commas can be told apart in their joined text. */
  lemma {:induction false} JoinInjective(a: seq<string>, b: seq<string>)
    requires GoodIds(a) && GoodIds(b)
    requires Join(a, ",") == Join(b, ",")
    ensures a == b
    decreases a
  {
    CommaMeansMore(a);
    CommaMeansMore(b);
    if |a| > 1 {
      JoinMore(a);
      JoinMore(b);
      SplitAtFirst(a[0], Join(a[1..], ","), b[0], Join(b[1..], ","), ',');
      JoinInjective(a[1..], b[1..]);
      assert a == [a[0]] + a[1..] && b == [b[0]] + b[1..];
    }
  }

  lemma PartsFromKey(p: string, v: string, m: string, n: string, p': string, v': string, m': string, n': string)
    requires '|' !in p && '|' !in v && '|' !in m && '|' !in p' && '|' !in v' && '|' !in m'
    requires Join([p, v, m, n], "|") == Join([p', v', m', n'], "|")
    ensures p == p' && v == v' && m == m' && n == n'
  {
    hide Join;
    KeyParts(p, v, m, n);
    KeyParts(p', v', m', n');
    SplitAtFirst(p, v + "|" + (m + "|" + n), p', v' + "|" + (m' + "|" + n'), '|');
    SplitAtFirst(v, m + "|" + n, v', m' + "|" + n', '|');
    SplitAtFirst(m, n, m', n', '|');
  }

  /**
   Two lines have the same key exactly when product, variant and note agree and the modifiers are
   the same up to order, whatever the note contains.
   */
  lemma LineKeyExact(a: CartLine, b: CartLine)
    requires GoodLine(a) && GoodLine(b)
    ensures LineKey(a) == LineKey(b) <==> IdentOf(a) == IdentOf(b)
  {
    var (x, y) := (a.modifierOptionIds, b.modifierOptionIds);
    SortSorts(x);
    SortSorts(y);
    if IdentOf(a) == IdentOf(b) {
      SortedUnique(SortIds(x), SortIds(y));
    }
    if LineKey(a) == LineKey(b) {
      SortedStaysGood(x);
      SortedStaysGood(y);
      JoinedHasNoBar(SortIds(x));
      JoinedHasNoBar(SortIds(y));
      PartsFromKey(a.productId, OrEmpty(a.variantId), Join(SortIds(x), ","), OrEmpty(a.note),
                   b.productId, OrEmpty(b.variantId), Join(SortIds(y), ","), OrEmpty(b.note));
      JoinInjective(SortIds(x), SortIds(y));
    }
  }

  // ----- What ids that are not good do

  /** Another line, about something else, with the same key. */
  ghost predicate Collides(line: CartLine) {
    exists other :: LineKey(other) == LineKey(line) && IdentOf(other) != IdentOf(line)
  }

  lemma KeyOf(line: CartLine)
    ensures LineKey(line) == line.productId + "|" + (OrEmpty(line.variantId) + "|"
                             + (Join(SortIds(line.modifierOptionIds), ",") + "|" + OrEmpty(line.note)))
  {
    hide Join, SortIds;
    KeyParts(line.productId, OrEmpty(line.variantId), Join(SortIds(line.modifierOptionIds), ","), OrEmpty(line.note));
  }

  lemma JoinedOne(id: string)
    ensures Join(SortIds([id]), ",") == id
  {
    assert SortIds([id]) == [id];
  }

  lemma JoinedNone()
    ensures Join(SortIds([]), ",") == ""
  {}

  lemma SplitAtBar(s: string) returns (front: string, back: string)
    requires '|' in s
    ensures s == front + "|" + back
  {
    var i :| 0 <= i < |s| && s[i] == '|';
    front, back := s[..i], s[i + 1..];
    assert s == s[..i] + [s[i]] + s[i + 1..];
  }

  /** A bar in a product id: its second half can be read as a variant. */
  lemma BarInProductCollides(line: CartLine)
    requires '|' in line.productId
    ensures Collides(line)
  {
    hide Join, SortIds;
    var x, y := SplitAtBar(line.productId);
    var v, m, n := OrEmpty(line.variantId), Join(SortIds(line.modifierOptionIds), ","), OrEmpty(line.note);
    var other := CartLine(x, Some(y), [v], Some(m + "|" + n), line.quantity);
    JoinedOne(v);
    KeyOf(line);
    KeyOf(other);
    assert x + "|" + (y + "|" + (v + "|" + (m + "|" + n))) == x + "|" + y + "|" + (v + "|" + (m + "|" + n));
    assert other.productId != line.productId;
  }

  /** A bar in a variant id: its second half can be read as a modifier. */
  lemma BarInVariantCollides(line: CartLine)
    requires '|' in OrEmpty(line.variantId)
    ensures Collides(line)
  {
    hide Join, SortIds;
    var p, v := line.productId, OrEmpty(line.variantId);
    var x, y := SplitAtBar(v);
    var m, n := Join(SortIds(line.modifierOptionIds), ","), OrEmpty(line.note);
    var other := CartLine(p, Some(x), [y], Some(m + "|" + n), line.quantity);
    JoinedOne(y);
    KeyOf(line);
    KeyOf(other);
    assert x + "|" + (y + "|" + (m + "|" + n)) == v + "|" + (m + "|" + n);
    assert IdentOf(other).variantId != IdentOf(line).variantId;
  }

  lemma {:induction false} BarInJoined(ids: seq<string>, i: nat)
    requires i < |ids| && '|' in ids[i]
    ensures '|' in Join(ids, ",")
    decreases i
  {
    if |ids| > 1 {
      JoinMore(ids);
      if i > 0 { BarInJoined(ids[1..], i - 1); }
    }
  }

  /** A bar in a modifier id: what follows it can be read as part of the note. */
  lemma BarInModifierCollides(line: CartLine, i: nat)
    requires i < |line.modifierOptionIds| && '|' in line.modifierOptionIds[i]
    ensures Collides(line)
  {
    hide Join, SortIds;
    var ids := SortIds(line.modifierOptionIds);
    SortSorts(line.modifierOptionIds);
    assert line.modifierOptionIds[i] in multiset(ids);
    var k :| 0 <= k < |ids| && ids[k] == line.modifierOptionIds[i];
    BarInJoined(ids, k);
    var m, n := Join(ids, ","), OrEmpty(line.note);
    var x, y := SplitAtBar(m);
    var other := CartLine(line.productId, line.variantId, [x], Some(y + "|" + n), line.quantity);
    JoinedOne(x);
    KeyOf(line);
    KeyOf(other);
    assert x + "|" + (y + "|" + n) == m + "|" + n;
    assert IdentOf(other).note != IdentOf(line).note;
  }

  /** Several modifiers, whatever they are, look like one modifier with commas in its id. */
  lemma CommasCollide(line: CartLine)
    requires |line.modifierOptionIds| > 1
    ensures Collides(line)
  {
    hide Join, SortIds;
    var m := Join(SortIds(line.modifierOptionIds), ",");
    var other := line.(modifierOptionIds := [m]);
    JoinedOne(m);
    KeyOf(line);
    KeyOf(other);
    assert |multiset(line.modifierOptionIds)| > 1;
    assert |multiset([m])| == 1;
  }

  /** One empty modifier looks like none. */
  lemma EmptyIdCollides(line: CartLine)
    requires line.modifierOptionIds == [""]
    ensures Collides(line)
  {
    hide Join, SortIds;
    var other := line.(modifierOptionIds := []);
    JoinedOne("");
    JoinedNone();
    KeyOf(line);
    KeyOf(other);
    assert |multiset([""])| == 1;
  }

  /** One modifier with a comma looks like two, if those stand in order. */
  lemma CommaCollides(line: CartLine, x: string, y: string)
    requires line.modifierOptionIds == [x + "," + y] && AtMost(x, y)
    ensures Collides(line)
  {
    hide Join, SortIds, AtMost;
    var other := line.(modifierOptionIds := [x, y]);
    JoinedOne(x + "," + y);
    JoinedPair(x, y);
    KeyOf(line);
    KeyOf(other);
    assert |multiset([x, y])| == 2 && |multiset([x + "," + y])| == 1;
  }

  lemma JoinedPair(x: string, y: string)
    requires AtMost(x, y)
    ensures Join(SortIds([x, y]), ",") == x + "," + y
  {
    hide AtMost;
    assert [x, y][1..] == [y] && SortIds([y]) == [y];
    assert SortIds([x, y]) == [x, y];
  }

  /** The one breach that does no harm by itself: a lone modifier such as "b,a", which no sorted list joins to. */
  ghost predicate LoneOutOfOrder(line: CartLine) {
    && '|' !in line.productId && '|' !in OrEmpty(line.variantId)
    && |line.modifierOptionIds| == 1 && '|' !in line.modifierOptionIds[0] && line.modifierOptionIds[0] != ""
    && forall x, y :: line.modifierOptionIds[0] == x + "," + y ==> !AtMost(x, y)
  }

  /** The restriction on ids is needed: with that one exception, a line that breaks it shares its key with another. */
  lemma BadIdsCollide(line: CartLine)
    requires !GoodLine(line) && !LoneOutOfOrder(line)
    ensures Collides(line)
  {
    hide Collides, AtMost;
    var ids := line.modifierOptionIds;
    if '|' in line.productId {
      BarInProductCollides(line);
    } else if '|' in OrEmpty(line.variantId) {
      BarInVariantCollides(line);
    } else if |ids| > 1 {
      CommasCollide(line);
    } else if ids[0] == "" {
      EmptyIdCollides(line);
    } else if '|' in ids[0] {
      BarInModifierCollides(line, 0);
    } else {
      var x, y :| ids[0] == x + "," + y && AtMost(x, y);
      CommaCollides(line, x, y);
    }
  }

  // ----- The key of an identity

  /** The one sorted list with given elements. */
  ghost function SortedOf(ids: multiset<string>): (r: seq<string>)
    ensures Sorted(r) && multiset(r) == ids
    decreases |ids|
  {
    if ids == multiset{} then []
    else
      var id :| id in ids;
      var rest := SortedOf(ids - multiset{id});
      InsertSorts(id, rest);
      Insert(id, rest)
  }

  ghost function IdentKey(id: Ident): string {
    Join([id.productId, id.variantId, Join(SortedOf(id.modifiers), ","), id.note], "|")
  }

  lemma KeyOfIdent(line: CartLine)
    ensures IdentKey(IdentOf(line)) == LineKey(line)
  {
    SortSorts(line.modifierOptionIds);
    SortedUnique(SortedOf(multiset(line.modifierOptionIds)), SortIds(line.modifierOptionIds));
  }
}
