/** The checklist data model and the two pure builders of src/lib/storage.js:
    `instantiateTemplate`, which expands a seed into a fresh checklist, and
    `normalizeList`, which turns any JSON-decoded value into a checklist.

    Both call `uid` as they go; here the oracle's counter is threaded
    through, first the section's identifier and then its items' in order,
    exactly as the nested `map` calls evaluate. Each returns the checklist
    and the counter after the last identifier it took. */
module Storage {
  import opened Js
  import opened Ids

  /** An item. Its identifier is whatever JSON value the data carried; only
      identifiers minted by `uid` are known to be strings. */
  datatype Item = Item(id: Value, text: string, done: bool)

  /** A section with its items in display order. */
  datatype Section = Section(id: Value, title: string, items: seq<Item>)

  /** Every identifier is truthy: what `normalizeList` and `uid` produce,
      and what every transition keeps. */
  predicate IdsTruthy(cl: seq<Section>)
  {
    forall k :: 0 <= k < |cl| ==> SectionIdsTruthy(cl[k])
  }

  predicate SectionIdsTruthy(s: Section)
  {
    Truthy(s.id) && forall j :: 0 <= j < |s.items| ==> Truthy(s.items[j].id)
  }

  /** One entry of the template seed: a title and the texts of its items. */
  datatype SeedSection = SeedSection(title: string, items: seq<string>)

  /** The identifier `uid` hands out for counter value `n`. */
  function FreshId(scope: Scope, n: nat): (id: Value)
    ensures id.Str? && Truthy(id)
  {
    Str(Uid(scope, n))
  }

  /** `id` is one the oracle handed out in `scope` with a counter in [lo, hi). */
  ghost predicate MintedIn(id: Value, scope: Scope, lo: nat, hi: nat)
  {
    exists n: nat :: lo <= n < hi && id == FreshId(scope, n)
  }

  // ---------------------------------------------------------------------
  // instantiateTemplate
  // ---------------------------------------------------------------------

  /** `s.items.map((t) => ({ id: uid("it"), text: t, done: false }))`. */
  function InstantiateItems(texts: seq<string>, next: nat): (r: (seq<Item>, nat))
    ensures |r.0| == |texts| && r.1 == next + |texts|
    ensures forall j :: 0 <= j < |texts| ==>
              r.0[j].text == texts[j] && !r.0[j].done && r.0[j].id == FreshId(It, next + j)
  {
    if texts == [] then ([], next)
    else
      var rest := InstantiateItems(texts[1..], next + 1);
      ([Item(FreshId(It, next), texts[0], false)] + rest.0, rest.1)
  }

  /** How many identifiers instantiating `seed` takes: one per section and one per item. */
  function IdCount(seed: seq<SeedSection>): nat
  {
    if seed == [] then 0 else 1 + |seed[0].items| + IdCount(seed[1..])
  }

  /** `instantiateTemplate(seed)`: one section per seed entry, in order, the
      title copied verbatim, one item per text, in order, none done. */
  function Instantiate(seed: seq<SeedSection>, next: nat): (r: (seq<Section>, nat))
    ensures |r.0| == |seed| && r.1 == next + IdCount(seed)
    ensures forall k :: 0 <= k < |seed| ==>
              && r.0[k].title == seed[k].title
              && |r.0[k].items| == |seed[k].items|
              && (forall j :: 0 <= j < |seed[k].items| ==>
                    r.0[k].items[j].text == seed[k].items[j] && !r.0[k].items[j].done)
    ensures IdsTruthy(r.0)
  {
    if seed == [] then ([], next)
    else
      var items := InstantiateItems(seed[0].items, next + 1);
      var rest := Instantiate(seed[1..], items.1);
      ([Section(FreshId(Sec, next), seed[0].title, items.0)] + rest.0, rest.1)
  }

  /** Every identifier of a checklist, each section's before its items', in order. */
  function AllIds(cl: seq<Section>): (ids: seq<Value>)
  {
    if cl == [] then [] else [cl[0].id] + ItemIds(cl[0].items) + AllIds(cl[1..])
  }

  function ItemIds(items: seq<Item>): seq<Value>
  {
    seq(|items|, j requires 0 <= j < |items| => items[j].id)
  }

  /** `ids` are the oracle's answers for the consecutive counters lo, lo+1, ... */
  ghost predicate ConsecutiveFresh(ids: seq<Value>, lo: nat)
  {
    forall i :: 0 <= i < |ids| ==> ids[i] == FreshId(Sec, lo + i) || ids[i] == FreshId(It, lo + i)
  }

  lemma ConsecutiveFreshDistinct(ids: seq<Value>, lo: nat)
    requires ConsecutiveFresh(ids, lo)
    ensures forall i, j :: 0 <= i < j < |ids| ==> ids[i] != ids[j]
  {
    forall i, j | 0 <= i < j < |ids| ensures ids[i] != ids[j] {
      if ids[i] == ids[j] {
        var a := if ids[i] == FreshId(Sec, lo + i) then Sec else It;
        var b := if ids[j] == FreshId(Sec, lo + j) then Sec else It;
        UidInjective(a, lo + i, b, lo + j);
      }
    }
  }

  lemma ConsecutiveFreshAppend(a: seq<Value>, b: seq<Value>, lo: nat)
    requires ConsecutiveFresh(a, lo) && ConsecutiveFresh(b, lo + |a|)
    ensures ConsecutiveFresh(a + b, lo)
  {
    forall i | |a| <= i < |a| + |b|
      ensures (a + b)[i] == FreshId(Sec, lo + i) || (a + b)[i] == FreshId(It, lo + i)
    {
      assert (a + b)[i] == b[i - |a|];
    }
  }

  /** The identifiers of one instantiated section: its own, then its items'. */
  lemma InstantiatedSectionIds(title: string, texts: seq<string>, next: nat)
    ensures ConsecutiveFresh([FreshId(Sec, next)] + ItemIds(InstantiateItems(texts, next + 1).0), next)
  {
  }

  lemma AllIdsCons(s: Section, rest: seq<Section>)
    ensures AllIds([s] + rest) == [s.id] + ItemIds(s.items) + AllIds(rest)
  {
    assert ([s] + rest)[1..] == rest;
  }

  lemma {:induction false} InstantiateIdsConsecutive(seed: seq<SeedSection>, next: nat)
    ensures var r := Instantiate(seed, next); |AllIds(r.0)| == r.1 - next && ConsecutiveFresh(AllIds(r.0), next)
  {
    if seed != [] {
      var items := InstantiateItems(seed[0].items, next + 1);
      var rest := Instantiate(seed[1..], items.1);
      var sec := Section(FreshId(Sec, next), seed[0].title, items.0);
      InstantiateIdsConsecutive(seed[1..], items.1);
      InstantiatedSectionIds(seed[0].title, seed[0].items, next);
      AllIdsCons(sec, rest.0);
      ConsecutiveFreshAppend([FreshId(Sec, next)] + ItemIds(items.0), AllIds(rest.0), next);
    }
  }

  /** Instantiation hands every section and every item an identifier of its
      own: no two identifiers produced by one call are equal, and each comes
      from the oracle with a counter the call took. */
  lemma InstantiateIdsDistinct(seed: seq<SeedSection>, next: nat)
    ensures var r := Instantiate(seed, next); var ids := AllIds(r.0);
            && (forall i, j :: 0 <= i < j < |ids| ==> ids[i] != ids[j])
            && (forall i :: 0 <= i < |ids| ==> MintedIn(ids[i], Sec, next, r.1) || MintedIn(ids[i], It, next, r.1))
  {
    var r := Instantiate(seed, next);
    var ids := AllIds(r.0);
    InstantiateIdsConsecutive(seed, next);
    ConsecutiveFreshDistinct(ids, next);
    forall i | 0 <= i < |ids| ensures MintedIn(ids[i], Sec, next, r.1) || MintedIn(ids[i], It, next, r.1) {
      assert next + i < r.1;
    }
  }

  // ---------------------------------------------------------------------
  // normalizeList
  // ---------------------------------------------------------------------

  /** What `normalizeList` gives: the checklist, with the counter after the
      last identifier it took, or the TypeError that `String` raised. */
  datatype Normalized = TypeError | Normalized(sections: seq<Section>, next: nat)

  /** `String(it?.text || "")` throws for element `e`. */
  predicate ItemThrows(e: Value)
  {
    ToStrThrows(OrElse(Get(e, "text"), Str("")))
  }

  /** Normalizing element `e` throws: `String(s?.title || "Untitled")` does,
      or one of its items' texts does. */
  predicate SectionThrows(e: Value)
  {
    || ToStrThrows(OrElse(Get(e, "title"), Str("Untitled")))
    || match Get(e, "items")
       case Defined(Arr(elems)) => exists j :: 0 <= j < |elems| && ItemThrows(elems[j])
       case _ => false
  }

  /** `normalizeList(list)` throws: `list` is an array and some element throws. */
  predicate ListThrows(list: Value)
  {
    list.Arr? && exists k :: 0 <= k < |list.elems| && SectionThrows(list.elems[k])
  }

  /** The item `normalizeList` builds from element `e`, given the oracle's
      identifier should `e` carry none. */
  function NormalizeItem(e: Value, next: nat): (Item, nat)
    requires !ItemThrows(e)
  {
    var id := Get(e, "id");
    var (itemId, after) := if IsTruthy(id) then (id.v, next) else (FreshId(It, next), next + 1);
    (Item(itemId, ToStr(OrElse(Get(e, "text"), Str(""))), IsTruthy(Get(e, "done"))), after)
  }

  /** What normalizing element `e` must give, when fresh identifiers come
      from counters in [lo, hi): a truthy `id` verbatim, otherwise a fresh
      one; `String(text || "")`; `Boolean(done)`. */
  ghost predicate ItemFrom(e: Value, it: Item, lo: nat, hi: nat)
  {
    && !ItemThrows(e)
    && (IsTruthy(Get(e, "id")) ==> it.id == Get(e, "id").v)
    && (!IsTruthy(Get(e, "id")) ==> MintedIn(it.id, It, lo, hi))
    && it.text == (if IsTruthy(Get(e, "text")) then ToStr(Get(e, "text").v) else "")
    && it.done == IsTruthy(Get(e, "done"))
  }

  /** `s.items.map((it) => ...)` inside `normalizeList`. */
  function NormalizeItems(elems: seq<Value>, next: nat): (r: (seq<Item>, nat))
    requires forall j :: 0 <= j < |elems| ==> !ItemThrows(elems[j])
    ensures |r.0| == |elems| && next <= r.1
    ensures forall j :: 0 <= j < |elems| ==> ItemFrom(elems[j], r.0[j], next, r.1)
  {
    if elems == [] then ([], next)
    else
      assert forall j :: 0 < j < |elems| ==> elems[j] == elems[1..][j - 1];
      var first := NormalizeItem(elems[0], next);
      var rest := NormalizeItems(elems[1..], first.1);
      ([first.0] + rest.0, rest.1)
  }

  /** The section `normalizeList` builds from element `e`. */
  function NormalizeSection(e: Value, next: nat): (Section, nat)
    requires !SectionThrows(e)
  {
    var id := Get(e, "id");
    var (sectionId, after) := if IsTruthy(id) then (id.v, next) else (FreshId(Sec, next), next + 1);
    var title := ToStr(OrElse(Get(e, "title"), Str("Untitled")));
    match Get(e, "items")
    case Defined(Arr(elems)) =>
      var items := NormalizeItems(elems, after);
      (Section(sectionId, title, items.0), items.1)
    case _ => (Section(sectionId, title, []), after)
  }

  /** What normalizing element `e` must give: a truthy `id` verbatim,
      otherwise a fresh one; `String(title || "Untitled")`; the items
      normalized one by one when `items` is an array, none otherwise. */
  ghost predicate SectionFrom(e: Value, s: Section, lo: nat, hi: nat)
  {
    && !SectionThrows(e)
    && (IsTruthy(Get(e, "id")) ==> s.id == Get(e, "id").v)
    && (!IsTruthy(Get(e, "id")) ==> MintedIn(s.id, Sec, lo, hi))
    && s.title == (if IsTruthy(Get(e, "title")) then ToStr(Get(e, "title").v) else "Untitled")
    && match Get(e, "items")
       case Defined(Arr(elems)) =>
         |s.items| == |elems| && forall j :: 0 <= j < |elems| ==> ItemFrom(elems[j], s.items[j], lo, hi)
       case _ => s.items == []
  }

  lemma ItemFromWiden(e: Value, it: Item, lo: nat, hi: nat, lo': nat, hi': nat)
    requires ItemFrom(e, it, lo, hi) && lo' <= lo && hi <= hi'
    ensures ItemFrom(e, it, lo', hi')
  {
    if !IsTruthy(Get(e, "id")) {
      var n: nat :| lo <= n < hi && it.id == FreshId(It, n);
    }
  }

  lemma SectionFromWiden(e: Value, s: Section, lo: nat, hi: nat, lo': nat, hi': nat)
    requires SectionFrom(e, s, lo, hi) && lo' <= lo && hi <= hi'
    ensures SectionFrom(e, s, lo', hi')
  {
    if !IsTruthy(Get(e, "id")) {
      var n: nat :| lo <= n < hi && s.id == FreshId(Sec, n);
    }
    match Get(e, "items")
    case Defined(Arr(elems)) =>
      forall j | 0 <= j < |elems| ensures ItemFrom(elems[j], s.items[j], lo', hi') {
        ItemFromWiden(elems[j], s.items[j], lo, hi, lo', hi');
      }
    case _ =>
  }

  lemma NormalizeSectionFrom(e: Value, next: nat)
    requires !SectionThrows(e)
    ensures var r := NormalizeSection(e, next); next <= r.1 && SectionFrom(e, r.0, next, r.1)
  {
    var r := NormalizeSection(e, next);
    var id := Get(e, "id");
    var after := if IsTruthy(id) then next else next + 1;
    if !IsTruthy(id) {
      assert r.0.id == FreshId(Sec, next);
    }
    match Get(e, "items")
    case Defined(Arr(elems)) =>
      var items := NormalizeItems(elems, after);
      forall j | 0 <= j < |elems| ensures ItemFrom(elems[j], r.0.items[j], next, r.1) {
        ItemFromWiden(elems[j], r.0.items[j], after, items.1, next, r.1);
      }
    case _ =>
  }

  /** The `list.map((s) => ...)` of `normalizeList`. */
  function NormalizeSections(elems: seq<Value>, next: nat): (r: (seq<Section>, nat))
    requires forall k :: 0 <= k < |elems| ==> !SectionThrows(elems[k])
    ensures |r.0| == |elems| && next <= r.1
    ensures forall k :: 0 <= k < |elems| ==> SectionFrom(elems[k], r.0[k], next, r.1)
  {
    if elems == [] then ([], next)
    else
      assert forall k :: 0 < k < |elems| ==> elems[k] == elems[1..][k - 1];
      var first := NormalizeSection(elems[0], next);
      var rest := NormalizeSections(elems[1..], first.1);
      NormalizeSectionFrom(elems[0], next);
      SectionFromWiden(elems[0], first.0, next, first.1, next, rest.1);
      forall k | 0 < k < |elems| ensures SectionFrom(elems[k], rest.0[k - 1], next, rest.1) {
        SectionFromWiden(elems[k], rest.0[k - 1], first.1, rest.1, next, rest.1);
      }
      ([first.0] + rest.0, rest.1)
  }

  /** `normalizeList(list)`: anything but an array gives the empty checklist;
      an array on which `String` throws gives the TypeError; any other array
      gives one section per element, in order, section k built from element
      k alone, and fresh identifiers only from counters it took. */
  function NormalizeList(list: Value, next: nat): (r: Normalized)
    ensures r.TypeError? <==> ListThrows(list)
    ensures !list.Arr? ==> r == Normalized([], next)
    ensures list.Arr? && r.Normalized? ==> |r.sections| == |list.elems| && next <= r.next
    ensures list.Arr? && r.Normalized? ==>
              forall k :: 0 <= k < |list.elems| ==> SectionFrom(list.elems[k], r.sections[k], next, r.next)
  {
    if !list.Arr? then Normalized([], next)
    else if ListThrows(list) then TypeError
    else
      var r := NormalizeSections(list.elems, next);
      Normalized(r.0, r.1)
  }

  // ---------------------------------------------------------------------
  // The identifiers normalizeList gives out
  // ---------------------------------------------------------------------

  /** `id` is the oracle's answer for counter `n`, in either scope. */
  ghost predicate MintedAt(id: Value, n: nat)
  {
    id == FreshId(Sec, n) || id == FreshId(It, n)
  }

  lemma MintedAtInjective(id: Value, m: nat, n: nat)
    requires MintedAt(id, m) && MintedAt(id, n)
    ensures m == n
  {
    var a := if id == FreshId(Sec, m) then Sec else It;
    var b := if id == FreshId(Sec, n) then Sec else It;
    UidInjective(a, m, b, n);
  }

  /** The `id` properties of the elements of `elems`, in order. */
  function ItemInputIds(elems: seq<Value>): seq<Prop>
  {
    seq(|elems|, j requires 0 <= j < |elems| => Get(elems[j], "id"))
  }

  /** The `id` properties element `e` holds, in the order `normalizeList`
      reads them: the section's own, then its items'. */
  function SectionInputIds(e: Value): seq<Prop>
  {
    [Get(e, "id")] + match Get(e, "items")
                     case Defined(Arr(elems)) => ItemInputIds(elems)
                     case _ => []
  }

  function InputIds(elems: seq<Value>): seq<Prop>
  {
    if elems == [] then [] else SectionInputIds(elems[0]) + InputIds(elems[1..])
  }

  /** `ids` are what `normalizeList` makes of the `id` properties `inputs`,
      with the oracle's counter running from `lo` to `hi`: a truthy one is
      kept, and each other one takes the next counter. */
  ghost predicate KeptOrMinted(ids: seq<Value>, inputs: seq<Prop>, lo: nat, hi: nat)
    decreases |ids|
  {
    if ids == [] || inputs == [] then ids == [] && inputs == [] && lo == hi
    else if IsTruthy(inputs[0]) then ids[0] == inputs[0].v && KeptOrMinted(ids[1..], inputs[1..], lo, hi)
    else MintedAt(ids[0], lo) && KeptOrMinted(ids[1..], inputs[1..], lo + 1, hi)
  }

  lemma {:induction false} KeptOrMintedAppend(a: seq<Value>, ia: seq<Prop>, b: seq<Value>, ib: seq<Prop>, lo: nat, mid: nat, hi: nat)
    requires KeptOrMinted(a, ia, lo, mid) && KeptOrMinted(b, ib, mid, hi)
    ensures KeptOrMinted(a + b, ia + ib, lo, hi)
    decreases |a|
  {
    if a == [] {
      assert a + b == b && ia + ib == ib;
    } else {
      var lo' := if IsTruthy(ia[0]) then lo else lo + 1;
      KeptOrMintedAppend(a[1..], ia[1..], b, ib, lo', mid, hi);
      assert (a + b)[1..] == a[1..] + b;
      assert (ia + ib)[1..] == ia[1..] + ib;
    }
  }

  /** What `KeptOrMinted` promises position by position: truthy inputs are
      kept, the others are minted from counters in [lo, hi), and no two
      minted identifiers are equal. */
  lemma {:induction false} KeptOrMintedFacts(ids: seq<Value>, inputs: seq<Prop>, lo: nat, hi: nat)
    requires KeptOrMinted(ids, inputs, lo, hi)
    ensures |ids| == |inputs| && lo <= hi
    ensures forall i :: 0 <= i < |ids| && IsTruthy(inputs[i]) ==> ids[i] == inputs[i].v
    ensures forall i :: 0 <= i < |ids| && !IsTruthy(inputs[i]) ==> exists n :: lo <= n < hi && MintedAt(ids[i], n)
    ensures forall i, j :: 0 <= i < j < |ids| && !IsTruthy(inputs[i]) && !IsTruthy(inputs[j]) ==> ids[i] != ids[j]
    decreases |ids|
  {
    if ids != [] {
      var lo' := if IsTruthy(inputs[0]) then lo else lo + 1;
      var t, ti := ids[1..], inputs[1..];
      KeptOrMintedFacts(t, ti, lo', hi);
      assert forall i :: 0 < i < |ids| ==> ids[i] == t[i - 1] && inputs[i] == ti[i - 1];
      if !IsTruthy(inputs[0]) {
        assert exists n :: lo <= n < hi && MintedAt(ids[0], n) by {
          assert MintedAt(ids[0], lo);
        }
      }
      forall i | 0 < i < |ids| && !IsTruthy(inputs[i]) ensures exists n :: lo <= n < hi && MintedAt(ids[i], n) {
        var n :| lo' <= n < hi && MintedAt(t[i - 1], n);
      }
      forall j | 0 < j < |ids| && !IsTruthy(inputs[0]) && !IsTruthy(inputs[j]) ensures ids[0] != ids[j] {
        var n :| lo' <= n < hi && MintedAt(t[j - 1], n);
        if ids[0] == ids[j] {
          MintedAtInjective(ids[0], lo, n);
        }
      }
    }
  }

  lemma KeptOrMintedOne(id: Value, input: Prop, lo: nat, hi: nat)
    requires IsTruthy(input) ==> id == input.v && hi == lo
    requires !IsTruthy(input) ==> MintedAt(id, lo) && hi == lo + 1
    ensures KeptOrMinted([id], [input], lo, hi)
  {
    assert [id][1..] == [] && [input][1..] == [];
  }

  lemma ItemIdsCons(first: Item, rest: seq<Item>)
    ensures ItemIds([first] + rest) == [first.id] + ItemIds(rest)
  {
  }

  lemma ItemInputIdsCons(elems: seq<Value>)
    requires elems != []
    ensures ItemInputIds(elems) == [Get(elems[0], "id")] + ItemInputIds(elems[1..])
  {
  }

  lemma {:induction false} NormalizeItemsIds(elems: seq<Value>, next: nat)
    requires forall j :: 0 <= j < |elems| ==> !ItemThrows(elems[j])
    ensures var r := NormalizeItems(elems, next); KeptOrMinted(ItemIds(r.0), ItemInputIds(elems), next, r.1)
    decreases |elems|
  {
    if elems == [] {
      assert ItemIds([]) == [] && ItemInputIds([]) == [];
    } else {
      var tl := elems[1..];
      assert forall j :: 0 <= j < |tl| ==> tl[j] == elems[j + 1];
      var first := NormalizeItem(elems[0], next);
      var rest := NormalizeItems(tl, first.1);
      NormalizeItemsIds(tl, first.1);
      KeptOrMintedOne(first.0.id, Get(elems[0], "id"), next, first.1);
      KeptOrMintedAppend([first.0.id], [Get(elems[0], "id")], ItemIds(rest.0), ItemInputIds(tl), next, first.1, rest.1);
      ItemIdsCons(first.0, rest.0);
      ItemInputIdsCons(elems);
      assert NormalizeItems(elems, next) == ([first.0] + rest.0, rest.1);
    }
  }

  lemma NormalizeSectionIds(e: Value, next: nat)
    requires !SectionThrows(e)
    ensures var r := NormalizeSection(e, next); KeptOrMinted([r.0.id] + ItemIds(r.0.items), SectionInputIds(e), next, r.1)
  {
    var r := NormalizeSection(e, next);
    var id := Get(e, "id");
    var after := if IsTruthy(id) then next else next + 1;
    assert KeptOrMinted([r.0.id], [id], next, after);
    match Get(e, "items")
    case Defined(Arr(elems)) =>
      NormalizeItemsIds(elems, after);
      KeptOrMintedAppend([r.0.id], [id], ItemIds(r.0.items), ItemInputIds(elems), next, after, r.1);
    case _ =>
      assert ItemIds(r.0.items) == [] && [r.0.id] + [] == [r.0.id] && [id] + [] == [id];
  }

  lemma {:induction false} NormalizeSectionsIds(elems: seq<Value>, next: nat)
    requires forall k :: 0 <= k < |elems| ==> !SectionThrows(elems[k])
    ensures var r := NormalizeSections(elems, next); KeptOrMinted(AllIds(r.0), InputIds(elems), next, r.1)
    decreases |elems|
  {
    var r := NormalizeSections(elems, next);
    if elems != [] {
      assert forall k :: 0 < k < |elems| ==> elems[k] == elems[1..][k - 1];
      var first := NormalizeSection(elems[0], next);
      var rest := NormalizeSections(elems[1..], first.1);
      NormalizeSectionIds(elems[0], next);
      NormalizeSectionsIds(elems[1..], first.1);
      KeptOrMintedAppend([first.0.id] + ItemIds(first.0.items), SectionInputIds(elems[0]),
                         AllIds(rest.0), InputIds(elems[1..]), next, first.1, rest.1);
      AllIdsCons(first.0, rest.0);
    }
  }

  /** Every identifier of a normalized checklist, in document order, is the
      element's own truthy `id` or else freshly minted from a counter the
      call took, and no two minted ones are equal. */
  lemma NormalizeIdsDistinct(list: Value, next: nat)
    requires NormalizeList(list, next).Normalized?
    ensures var r := NormalizeList(list, next);
            var ids := AllIds(r.sections);
            var inputs := if list.Arr? then InputIds(list.elems) else [];
            && |ids| == |inputs|
            && (forall i :: 0 <= i < |ids| && IsTruthy(inputs[i]) ==> ids[i] == inputs[i].v)
            && (forall i :: 0 <= i < |ids| && !IsTruthy(inputs[i]) ==> exists n :: next <= n < r.next && MintedAt(ids[i], n))
            && (forall i, j :: 0 <= i < j < |ids| && !IsTruthy(inputs[i]) && !IsTruthy(inputs[j]) ==> ids[i] != ids[j])
  {
    var r := NormalizeList(list, next);
    if list.Arr? {
      NormalizeSectionsIds(list.elems, next);
      KeptOrMintedFacts(AllIds(r.sections), InputIds(list.elems), next, r.next);
    }
  }

  // ---------------------------------------------------------------------
  // Properties of normalizeList
  // ---------------------------------------------------------------------

  /** The JSON value an item is stored as (what `JSON.parse(JSON.stringify(it))` gives). */
  function ItemToJson(it: Item): Value
  {
    Obj(map["id" := it.id, "text" := Str(it.text), "done" := Bool(it.done)])
  }

  function ItemsToJson(items: seq<Item>): seq<Value>
  {
    seq(|items|, j requires 0 <= j < |items| => ItemToJson(items[j]))
  }

  function SectionToJson(s: Section): Value
  {
    Obj(map["id" := s.id, "title" := Str(s.title), "items" := Arr(ItemsToJson(s.items))])
  }

  /** The JSON value a checklist is stored, exported and imported as. */
  function ToJson(cl: seq<Section>): Value
  {
    Arr(seq(|cl|, k requires 0 <= k < |cl| => SectionToJson(cl[k])))
  }

  /** A stored checklist holds only strings where `String` is applied, so
      normalizing it never throws. */
  lemma ToJsonNeverThrows(cl: seq<Section>)
    ensures forall k :: 0 <= k < |cl| ==> !SectionThrows(ToJson(cl).elems[k])
    ensures !ListThrows(ToJson(cl))
  {
    forall k | 0 <= k < |cl| ensures !SectionThrows(ToJson(cl).elems[k]) {
      var e := SectionToJson(cl[k]);
      assert Get(e, "title") == Defined(Str(cl[k].title));
      assert Get(e, "items") == Defined(Arr(ItemsToJson(cl[k].items)));
      forall j | 0 <= j < |cl[k].items| ensures !ItemThrows(ItemsToJson(cl[k].items)[j]) {
        assert Get(ItemToJson(cl[k].items[j]), "text") == Defined(Str(cl[k].items[j].text));
      }
    }
  }

  /** A checklist in the persisted shape: every identifier truthy and every
      title a non-empty string (texts are strings and flags booleans by type). */
  predicate WellFormed(cl: seq<Section>)
  {
    IdsTruthy(cl) && forall k :: 0 <= k < |cl| ==> cl[k].title != ""
  }

  lemma {:induction false} NormalizeItemsRoundTrip(items: seq<Item>, next: nat)
    requires forall j :: 0 <= j < |items| ==> Truthy(items[j].id)
    requires forall j :: 0 <= j < |items| ==> !ItemThrows(ItemsToJson(items)[j])
    ensures NormalizeItems(ItemsToJson(items), next) == (items, next)
  {
    var elems := ItemsToJson(items);
    if items != [] {
      assert elems[1..] == ItemsToJson(items[1..]);
      NormalizeItemsRoundTrip(items[1..], next);
      assert Get(elems[0], "text") == Defined(Str(items[0].text));
      assert NormalizeItem(elems[0], next) == (items[0], next);
      assert [items[0]] + items[1..] == items;
    }
  }

  lemma NormalizeSectionRoundTrip(s: Section, next: nat)
    requires SectionIdsTruthy(s) && s.title != ""
    requires !SectionThrows(SectionToJson(s))
    ensures NormalizeSection(SectionToJson(s), next) == (s, next)
  {
    var e := SectionToJson(s);
    var itemElems := ItemsToJson(s.items);
    assert Get(e, "items") == Defined(Arr(itemElems));
    assert Get(e, "title") == Defined(Str(s.title)) && Get(e, "id") == Defined(s.id);
    NormalizeItemsRoundTrip(s.items, next);
  }

  lemma {:induction false} NormalizeSectionsRoundTrip(cl: seq<Section>, next: nat)
    requires WellFormed(cl)
    requires forall k :: 0 <= k < |cl| ==> !SectionThrows(ToJson(cl).elems[k])
    ensures NormalizeSections(ToJson(cl).elems, next) == (cl, next)
  {
    var elems := ToJson(cl).elems;
    if cl != [] {
      var tl := cl[1..];
      assert elems[1..] == ToJson(tl).elems;
      assert forall k :: 0 <= k < |tl| ==> tl[k] == cl[k + 1];
      NormalizeSectionsRoundTrip(tl, next);
      assert elems[0] == SectionToJson(cl[0]);
      NormalizeSectionRoundTrip(cl[0], next);
      assert NormalizeSections(elems, next) == ([cl[0]] + tl, next);
      assert [cl[0]] + tl == cl;
    }
  }

  /** Normalizing a well-formed checklist gives it back unchanged and takes
      no identifier from the oracle: `normalizeList` is the identity on the
      shape it produces from well-formed data, so storing, exporting and
      importing again loses nothing. */
  lemma NormalizeRoundTrip(cl: seq<Section>, next: nat)
    requires WellFormed(cl)
    ensures NormalizeList(ToJson(cl), next) == Normalized(cl, next)
  {
    ToJsonNeverThrows(cl);
    NormalizeSectionsRoundTrip(cl, next);
  }

  /** Every identifier `normalizeList` gives out is truthy: kept ones were,
      minted ones are non-empty strings. */
  lemma NormalizeIdsTruthy(list: Value, next: nat)
    ensures NormalizeList(list, next).Normalized? ==> IdsTruthy(NormalizeList(list, next).sections)
  {
    var r := NormalizeList(list, next);
    if r.Normalized? {
      var cl := r.sections;
      forall k | 0 <= k < |cl| ensures SectionIdsTruthy(cl[k]) {
        var e := list.elems[k];
        if !IsTruthy(Get(e, "id")) {
          var n: nat :| next <= n < r.next && cl[k].id == FreshId(Sec, n);
        }
        forall j | 0 <= j < |cl[k].items| ensures Truthy(cl[k].items[j].id) {
          var es := Get(e, "items").v.elems;
          if !IsTruthy(Get(es[j], "id")) {
            var n: nat :| next <= n < r.next && cl[k].items[j].id == FreshId(It, n);
          }
        }
      }
    }
  }

  /** Normalizing twice is normalizing once, for any input that normalizes
      and whose titles come out non-empty. */
  lemma NormalizeIdempotent(list: Value, next: nat, next': nat)
    requires NormalizeList(list, next).Normalized?
    requires forall k :: 0 <= k < |NormalizeList(list, next).sections| ==> NormalizeList(list, next).sections[k].title != ""
    ensures NormalizeList(ToJson(NormalizeList(list, next).sections), next') == Normalized(NormalizeList(list, next).sections, next')
  {
    NormalizeIdsTruthy(list, next);
    NormalizeRoundTrip(NormalizeList(list, next).sections, next');
  }

  /** The two items of the import example normalize to two minted items. */
  lemma NormalizeItemsExample(a: Value, b: Value, next: nat)
    requires a == Obj(map["text" := Str("a")]) && b == Obj(map["text" := Str("b")])
    ensures forall j :: 0 <= j < 2 ==> !ItemThrows([a, b][j])
    ensures NormalizeItems([a, b], next) == ([Item(FreshId(It, next), "a", false), Item(FreshId(It, next + 1), "b", false)], next + 2)
  {
    assert Get(a, "text") == Defined(Str("a")) && Get(b, "text") == Defined(Str("b"));
    assert Get(a, "id") == Undefined && Get(a, "done") == Undefined;
    assert Get(b, "id") == Undefined && Get(b, "done") == Undefined;
    assert [a, b][0] == a && [a, b][1] == b && [a, b][1..] == [b] && [b][0] == b && [b][1..] == [];
    var ia, ib := Item(FreshId(It, next), "a", false), Item(FreshId(It, next + 1), "b", false);
    assert NormalizeItem(a, next) == (ia, next + 1);
    assert NormalizeItem(b, next + 1) == (ib, next + 2);
    assert NormalizeItems([b], next + 1) == ([ib] + NormalizeItems([], next + 2).0, next + 2);
    assert [ib] + [] == [ib];
    assert NormalizeItems([a, b], next) == ([ia] + NormalizeItems([b], next + 1).0, next + 2);
    assert [ia] + [ib] == [ia, ib];
  }

  /** Importing `[{"title":"X","items":[{"text":"a"},{"text":"b"}]}]` gives
      one section titled "X" with generated identifier, whose two items keep
      their texts, are not done and get two different generated identifiers. */
  lemma NormalizeImportExample(next: nat)
    ensures NormalizeList(Arr([Obj(map["title" := Str("X"), "items" := Arr([Obj(map["text" := Str("a")]), Obj(map["text" := Str("b")])])])]), next)
            == Normalized([Section(FreshId(Sec, next), "X", [Item(FreshId(It, next + 1), "a", false), Item(FreshId(It, next + 2), "b", false)])], next + 3)
    ensures FreshId(It, next + 1) != FreshId(It, next + 2)
  {
    var e := Obj(map["title" := Str("X"), "items" := Arr([Obj(map["text" := Str("a")]), Obj(map["text" := Str("b")])])]);
    var sec := Section(FreshId(Sec, next), "X", [Item(FreshId(It, next + 1), "a", false), Item(FreshId(It, next + 2), "b", false)]);
    NormalizeSectionExample(e, next);
    assert !SectionThrows([e][0]);
    assert [e][0] == e && [e][1..] == [];
    assert NormalizeSections([e], next) == ([sec] + NormalizeSections([], next + 3).0, next + 3);
    assert [sec] + [] == [sec];
    if FreshId(It, next + 1) == FreshId(It, next + 2) {
      UidInjective(It, next + 1, It, next + 2);
    }
  }

  lemma NormalizeSectionExample(e: Value, next: nat)
    requires e == Obj(map["title" := Str("X"), "items" := Arr([Obj(map["text" := Str("a")]), Obj(map["text" := Str("b")])])])
    ensures !SectionThrows(e)
    ensures NormalizeSection(e, next)
            == (Section(FreshId(Sec, next), "X", [Item(FreshId(It, next + 1), "a", false), Item(FreshId(It, next + 2), "b", false)]), next + 3)
  {
    var a, b := Obj(map["text" := Str("a")]), Obj(map["text" := Str("b")]);
    NormalizeItemsExample(a, b, next + 1);
    assert Get(e, "title") == Defined(Str("X")) && Get(e, "items") == Defined(Arr([a, b]));
    assert OrElse(Get(e, "title"), Str("Untitled")) == Str("X");
    assert !ToStrThrows(Str("X")) && ToStr(Str("X")) == "X";
    assert !SectionThrows(e);
    assert Get(e, "id") == Undefined && !IsTruthy(Get(e, "id"));
    var items := NormalizeItems([a, b], next + 1);
    assert NormalizeSection(e, next) == (Section(FreshId(Sec, next), "X", items.0), items.1);
  }

  /** An object with its own "toString" key as a title, or as an item's text,
      makes `normalizeList` throw. */
  lemma NormalizeThrowsOnOwnToString(next: nat)
    ensures NormalizeList(Arr([Obj(map["title" := Obj(map["toString" := Num(0)])])]), next) == TypeError
    ensures NormalizeList(Arr([Obj(map["items" := Arr([Obj(map["text" := Obj(map["toString" := Str("")])])])])]), next) == TypeError
  {
    var e1 := Obj(map["title" := Obj(map["toString" := Num(0)])]);
    assert SectionThrows([e1][0]);
    var it := Obj(map["text" := Obj(map["toString" := Str("")])]);
    assert ItemThrows([it][0]);
    var e2 := Obj(map["items" := Arr([it])]);
    assert SectionThrows([e2][0]);
  }

  /** A truthy title is kept through `String`, so an empty array, or a title
      of blanks, becomes an empty or blank section title: normalization does
      not enforce the non-blank titles that adding and renaming do. */
  lemma NormalizeKeepsBlankTitles(next: nat)
    ensures NormalizeList(Arr([Obj(map["title" := Arr([])])]), next) == Normalized([Section(FreshId(Sec, next), "", [])], next + 1)
    ensures NormalizeList(Arr([Obj(map["title" := Str("  ")])]), next) == Normalized([Section(FreshId(Sec, next), "  ", [])], next + 1)
  {
    var e1, e2 := Obj(map["title" := Arr([])]), Obj(map["title" := Str("  ")]);
    assert Get(e1, "title") == Defined(Arr([])) && Get(e2, "title") == Defined(Str("  "));
    assert !SectionThrows([e1][0]) && !SectionThrows([e2][0]);
    assert [e1][1..] == [] && [e2][1..] == [];
    assert Get(e1, "id") == Undefined && Get(e1, "items") == Undefined;
    assert Get(e2, "id") == Undefined && Get(e2, "items") == Undefined;
    assert ToStr(Arr([])) == "";
    assert NormalizeSection(e1, next) == (Section(FreshId(Sec, next), "", []), next + 1);
    assert NormalizeSection(e2, next) == (Section(FreshId(Sec, next), "  ", []), next + 1);
    assert NormalizeSections([], next + 1) == ([], next + 1);
    assert [e1][0] == e1 && [e2][0] == e2;
    assert [Section(FreshId(Sec, next), "", [])] + [] == [Section(FreshId(Sec, next), "", [])];
    assert [Section(FreshId(Sec, next), "  ", [])] + [] == [Section(FreshId(Sec, next), "  ", [])];
    assert NormalizeSections([e1], next) == ([Section(FreshId(Sec, next), "", [])], next + 1);
    assert NormalizeSections([e2], next) == ([Section(FreshId(Sec, next), "  ", [])], next + 1);
  }
}
