/** The checklist transitions of src/App.jsx: the updater `prev => next`
    that each operation hands to `setSections`, with the trim-and-reject
    guard in front of it, and the `filtered` search view.

    Each updater is a function of the previous checklist. Those that create
    an item or a section also take the id oracle's counter and return the
    counter after it. */
module Transitions {
  import opened Js
  import opened Ids
  import opened Text
  import opened Seqs
  import opened Storage

  /** Some section has identifier `sid` (`===` on identifiers is equality of values). */
  predicate HasSection(cl: seq<Section>, sid: Value)
  {
    exists k :: 0 <= k < |cl| && cl[k].id == sid
  }

  /** Some section `sid` holds an item `iid`. */
  predicate HasItem(cl: seq<Section>, sid: Value, iid: Value)
  {
    exists k, j :: 0 <= k < |cl| && 0 <= j < |cl[k].items| && cl[k].id == sid && cl[k].items[j].id == iid
  }

  /** Text as the operations store it: non-empty, with no white space at
      either end (so `Trim` leaves it as it is, see TrimmedIsFixed). */
  predicate Trimmed(s: string)
  {
    s != [] && !IsSpace(s[0]) && !IsSpace(s[|s| - 1])
  }

  /** Every title and every text is trimmed and non-empty: the operations
      reject blank input and store the trimmed value, so they keep this;
      an import need not establish it. */
  predicate Tidy(cl: seq<Section>)
  {
    forall k :: 0 <= k < |cl| ==> SectionTidy(cl[k])
  }

  predicate SectionTidy(s: Section)
  {
    Trimmed(s.title) && forall j :: 0 <= j < |s.items| ==> Trimmed(s.items[j].text)
  }

  /** `a` and `b` have the same sections and items with the same identifiers,
      titles and texts, in the same order: at most `done` flags differ. */
  predicate SameButDone(a: seq<Section>, b: seq<Section>)
  {
    && |a| == |b|
    && forall k :: 0 <= k < |a| ==>
         && a[k].id == b[k].id && a[k].title == b[k].title && |a[k].items| == |b[k].items|
         && forall j :: 0 <= j < |a[k].items| ==>
              a[k].items[j].id == b[k].items[j].id && a[k].items[j].text == b[k].items[j].text
  }

  lemma TrimmedTrim(s: string)
    requires Trim(s) != []
    ensures Trimmed(Trim(s))
  {
    var _ := TrimIsSlice(s);
  }

  /** Trimming stored text gives it back. */
  lemma TrimmedIsFixed(s: string)
    requires Trimmed(s)
    ensures Trim(s) == s
  {
    assert SkipSpace(s, 0) == 0;
    assert SkipSpaceBack(s, 0, |s|) == |s|;
  }

  /** `id` is none of the identifiers the oracle handed out before counter `n`. */
  ghost predicate NotMintedBefore(id: Value, n: nat)
  {
    forall m: nat :: m < n ==> id != FreshId(Sec, m) && id != FreshId(It, m)
  }

  /** An identifier minted from counter `lo` or later differs from every one
      minted before: the oracle never hands out the same identifier twice. */
  lemma MintedIsNew(id: Value, scope: Scope, lo: nat, hi: nat)
    requires MintedIn(id, scope, lo, hi)
    ensures NotMintedBefore(id, lo)
  {
    var n: nat :| lo <= n < hi && id == FreshId(scope, n);
    forall m: nat | m < lo ensures id != FreshId(Sec, m) && id != FreshId(It, m) {
      if id == FreshId(Sec, m) { UidInjective(scope, n, Sec, m); }
      if id == FreshId(It, m) { UidInjective(scope, n, It, m); }
    }
  }

  // ---------------------------------------------------------------------
  // addSection (src/App.jsx:133-137)
  // ---------------------------------------------------------------------

  /** `addSection(title)`: blank input changes nothing; otherwise one new,
      empty section with a fresh identifier and the trimmed title goes at
      the end, and the sections before it are untouched. */
  function AddSection(cl: seq<Section>, title: string, next: nat): (r: (seq<Section>, nat))
    ensures AllSpace(title) ==> r == (cl, next)
    ensures !AllSpace(title) ==>
              && |r.0| == |cl| + 1 && r.0[..|cl|] == cl && r.1 == next + 1
              && r.0[|cl|].id == FreshId(Sec, next) && r.0[|cl|].items == []
              && Trimmed(r.0[|cl|].title) && r.0[|cl|].title == Trim(title)
              && NotMintedBefore(r.0[|cl|].id, next)
    ensures IdsTruthy(cl) ==> IdsTruthy(r.0)
    ensures Tidy(cl) ==> Tidy(r.0)
  {
    TrimEmptyIffAllSpace(title);
    var t := Trim(title);
    if t == [] then (cl, next)
    else
      TrimmedTrim(title);
      MintedIsNew(FreshId(Sec, next), Sec, next, next + 1);
      (cl + [Section(FreshId(Sec, next), t, [])], next + 1)
  }

  // ---------------------------------------------------------------------
  // addItem (src/App.jsx:139-152)
  // ---------------------------------------------------------------------

  /** How many sections have identifier `sid`. */
  function CountSections(cl: seq<Section>, sid: Value): (n: nat)
    ensures n <= |cl|
    ensures n == 0 <==> !HasSection(cl, sid)
  {
    if cl == [] then 0
    else
      assert forall k :: 0 < k < |cl| ==> cl[k] == cl[1..][k - 1];
      assert HasSection(cl[1..], sid) ==> HasSection(cl, sid);
      (if cl[0].id == sid then 1 else 0) + CountSections(cl[1..], sid)
  }

  /** `after` is `before` with one item of text `t`, not done, appended,
      its identifier minted from a counter in [lo, hi). */
  ghost predicate Appended(before: Section, after: Section, t: string, lo: nat, hi: nat)
  {
    && after.id == before.id && after.title == before.title
    && |after.items| == |before.items| + 1 && after.items[..|before.items|] == before.items
    && after.items[|before.items|].text == t && !after.items[|before.items|].done
    && MintedIn(after.items[|before.items|].id, It, lo, hi)
  }

  /** The `prev.map(...)` of `addItem` once the text is trimmed: every section
      `sid` gets one new item, each with its own call to `uid`. */
  function AppendItem(cl: seq<Section>, sid: Value, t: string, next: nat): (r: (seq<Section>, nat))
    ensures |r.0| == |cl| && r.1 == next + CountSections(cl, sid)
    ensures forall k :: 0 <= k < |cl| && cl[k].id != sid ==> r.0[k] == cl[k]
    ensures forall k :: 0 <= k < |cl| && cl[k].id == sid ==> Appended(cl[k], r.0[k], t, next, r.1)
  {
    if cl == [] then ([], next)
    else
      var after := if cl[0].id == sid then next + 1 else next;
      var first := if cl[0].id == sid then cl[0].(items := cl[0].items + [Item(FreshId(It, next), t, false)]) else cl[0];
      var rest := AppendItem(cl[1..], sid, t, after);
      AppendItemStep(cl, sid, t, next, first, rest.0, after, rest.1);
      ([first] + rest.0, rest.1)
  }

  lemma AppendedWiden(before: Section, after: Section, t: string, lo: nat, hi: nat, lo': nat)
    requires Appended(before, after, t, lo, hi) && lo' <= lo
    ensures Appended(before, after, t, lo', hi)
  {
    var n: nat :| lo <= n < hi && after.items[|before.items|].id == FreshId(It, n);
  }

  /** One step of AppendItem: the first section, then the rest as the
      recursive call left them. */
  lemma AppendItemStep(cl: seq<Section>, sid: Value, t: string, next: nat,
                       first: Section, rest: seq<Section>, after: nat, hi: nat)
    requires cl != [] && |rest| == |cl| - 1 && after <= hi
    requires after == if cl[0].id == sid then next + 1 else next
    requires first == if cl[0].id == sid then cl[0].(items := cl[0].items + [Item(FreshId(It, next), t, false)]) else cl[0]
    requires forall k :: 0 <= k < |rest| && cl[1..][k].id != sid ==> rest[k] == cl[1..][k]
    requires forall k :: 0 <= k < |rest| && cl[1..][k].id == sid ==> Appended(cl[1..][k], rest[k], t, after, hi)
    ensures forall k :: 0 <= k < |cl| && cl[k].id != sid ==> ([first] + rest)[k] == cl[k]
    ensures forall k :: 0 <= k < |cl| && cl[k].id == sid ==> Appended(cl[k], ([first] + rest)[k], t, next, hi)
  {
    var r := [first] + rest;
    forall k | 0 <= k < |cl| && cl[k].id == sid ensures Appended(cl[k], r[k], t, next, hi) {
      if k == 0 {
        assert first.items[..|cl[0].items|] == cl[0].items;
        assert MintedIn(first.items[|cl[0].items|].id, It, next, hi);
      } else {
        assert cl[1..][k - 1] == cl[k] && r[k] == rest[k - 1];
        AppendedWiden(cl[k], r[k], t, after, hi, next);
      }
    }
    forall k | 0 < k < |cl| && cl[k].id != sid ensures r[k] == cl[k] {
      assert cl[1..][k - 1] == cl[k];
    }
  }

  /** `addItem(sectionId, text)`: blank text, or no section `sid`, changes
      nothing and takes no identifier; otherwise every section `sid` gets one
      new item with the trimmed text, not done, at the end, and every other
      section is unchanged. */
  function AddItem(cl: seq<Section>, sid: Value, text: string, next: nat): (r: (seq<Section>, nat))
    ensures AllSpace(text) || !HasSection(cl, sid) ==> r == (cl, next)
    ensures |r.0| == |cl|
    ensures forall k :: 0 <= k < |cl| && cl[k].id != sid ==> r.0[k] == cl[k]
    ensures !AllSpace(text) ==> Trimmed(Trim(text))
    ensures !AllSpace(text) ==>
              forall k :: 0 <= k < |cl| && cl[k].id == sid ==> Appended(cl[k], r.0[k], Trim(text), next, r.1)
    ensures IdsTruthy(cl) ==> IdsTruthy(r.0)
    ensures Tidy(cl) ==> Tidy(r.0)
  {
    TrimEmptyIffAllSpace(text);
    var t := Trim(text);
    if t == [] then (cl, next)
    else
      TrimmedTrim(text);
      AppendItemKeeps(cl, sid, t, next);
      AppendItem(cl, sid, t, next)
  }

  /** Appending changes nothing when no section matches, and keeps the
      identifiers truthy and, for trimmed text, the checklist tidy. */
  lemma AppendItemKeeps(cl: seq<Section>, sid: Value, t: string, next: nat)
    requires Trimmed(t)
    ensures var r := AppendItem(cl, sid, t, next);
            && (!HasSection(cl, sid) ==> r == (cl, next))
            && (IdsTruthy(cl) ==> IdsTruthy(r.0))
            && (Tidy(cl) ==> Tidy(r.0))
  {
    var r := AppendItem(cl, sid, t, next);
    if !HasSection(cl, sid) {
      assert r.0 == cl;
    }
    forall k | 0 <= k < |cl|
      ensures SectionIdsTruthy(cl[k]) ==> SectionIdsTruthy(r.0[k])
      ensures SectionTidy(cl[k]) ==> SectionTidy(r.0[k])
    {
      if cl[k].id == sid {
        AppendedKeeps(cl[k], r.0[k], t, next, r.1);
      }
    }
  }

  lemma AppendedKeeps(before: Section, after: Section, t: string, lo: nat, hi: nat)
    requires Appended(before, after, t, lo, hi) && Trimmed(t)
    ensures SectionIdsTruthy(before) ==> SectionIdsTruthy(after)
    ensures SectionTidy(before) ==> SectionTidy(after)
  {
    var n := |before.items|;
    assert forall j :: 0 <= j < n ==> after.items[j] == after.items[..n][j];
    var m: nat :| lo <= m < hi && after.items[n].id == FreshId(It, m);
  }

  // ---------------------------------------------------------------------
  // toggleItem (src/App.jsx:154-167)
  // ---------------------------------------------------------------------

  /** `toggleItem(sectionId, itemId)`: flips `done` on the items `iid` of the
      sections `sid`, and on nothing else. */
  function ToggleItem(cl: seq<Section>, sid: Value, iid: Value): (r: seq<Section>)
    ensures SameButDone(cl, r)
    ensures forall k, j :: 0 <= k < |cl| && 0 <= j < |cl[k].items| ==>
              (r[k].items[j].done <==> (cl[k].items[j].done != (cl[k].id == sid && cl[k].items[j].id == iid)))
    ensures IdsTruthy(cl) ==> IdsTruthy(r)
    ensures Tidy(cl) ==> Tidy(r)
  {
    seq(|cl|, k requires 0 <= k < |cl| =>
      if cl[k].id == sid then
        cl[k].(items := seq(|cl[k].items|, j requires 0 <= j < |cl[k].items| =>
          if cl[k].items[j].id == iid then cl[k].items[j].(done := !cl[k].items[j].done) else cl[k].items[j]))
      else cl[k])
  }

  /** Two checklists that agree on everything, `done` flags included, are equal. */
  lemma SameButDoneEqual(a: seq<Section>, b: seq<Section>)
    requires SameButDone(a, b)
    requires forall k, j :: 0 <= k < |a| && 0 <= j < |a[k].items| ==> a[k].items[j].done == b[k].items[j].done
    ensures a == b
  {
    assert forall k :: 0 <= k < |a| ==> a[k].items == b[k].items;
  }

  /** Toggling the same item twice restores the checklist. */
  lemma ToggleItemInvolution(cl: seq<Section>, sid: Value, iid: Value)
    ensures ToggleItem(ToggleItem(cl, sid, iid), sid, iid) == cl
  {
    SameButDoneEqual(ToggleItem(ToggleItem(cl, sid, iid), sid, iid), cl);
  }

  /** Toggling an item that is not there changes nothing. */
  lemma ToggleItemUnknown(cl: seq<Section>, sid: Value, iid: Value)
    requires !HasItem(cl, sid, iid)
    ensures ToggleItem(cl, sid, iid) == cl
  {
    SameButDoneEqual(ToggleItem(cl, sid, iid), cl);
  }

  // ---------------------------------------------------------------------
  // editItem (src/App.jsx:169-184)
  // ---------------------------------------------------------------------

  /** `editItem(sectionId, itemId, newText)`: blank text changes nothing;
      otherwise the items `iid` of the sections `sid` take the trimmed text,
      and identifiers, `done` flags, titles and order stay as they were. */
  function EditItem(cl: seq<Section>, sid: Value, iid: Value, text: string): (r: seq<Section>)
    ensures AllSpace(text) ==> r == cl
    ensures |r| == |cl|
    ensures forall k :: 0 <= k < |cl| ==>
              r[k].id == cl[k].id && r[k].title == cl[k].title && |r[k].items| == |cl[k].items|
    ensures forall k, j :: 0 <= k < |cl| && 0 <= j < |cl[k].items| ==>
              && r[k].items[j].id == cl[k].items[j].id && r[k].items[j].done == cl[k].items[j].done
              && r[k].items[j].text ==
                   if !AllSpace(text) && cl[k].id == sid && cl[k].items[j].id == iid then Trim(text)
                   else cl[k].items[j].text
    ensures IdsTruthy(cl) ==> IdsTruthy(r)
    ensures Tidy(cl) ==> Tidy(r)
  {
    TrimEmptyIffAllSpace(text);
    var t := Trim(text);
    if t == [] then cl
    else
      TrimmedTrim(text);
      seq(|cl|, k requires 0 <= k < |cl| =>
        if cl[k].id == sid then
          cl[k].(items := seq(|cl[k].items|, j requires 0 <= j < |cl[k].items| =>
            if cl[k].items[j].id == iid then cl[k].items[j].(text := t) else cl[k].items[j]))
        else cl[k])
  }

  // ---------------------------------------------------------------------
  // deleteItem and deleteSection (src/App.jsx:186-198)
  // ---------------------------------------------------------------------

  function ItemIdIsNot(iid: Value): Item -> bool
  {
    (it: Item) => it.id != iid
  }

  function SectionIdIsNot(sid: Value): Section -> bool
  {
    (s: Section) => s.id != sid
  }

  /** `deleteItem(sectionId, itemId)`: the sections `sid` lose exactly their
      items `iid`, the rest staying; every other section is unchanged. */
  function DeleteItem(cl: seq<Section>, sid: Value, iid: Value): (r: seq<Section>)
    ensures |r| == |cl|
    ensures forall k :: 0 <= k < |cl| && cl[k].id != sid ==> r[k] == cl[k]
    ensures forall k :: 0 <= k < |cl| && cl[k].id == sid ==>
              && r[k].id == cl[k].id && r[k].title == cl[k].title
              && (forall j :: 0 <= j < |r[k].items| ==> r[k].items[j] in cl[k].items && r[k].items[j].id != iid)
              && (forall j :: 0 <= j < |cl[k].items| && cl[k].items[j].id != iid ==> cl[k].items[j] in r[k].items)
    ensures forall k, x :: 0 <= k < |cl| && cl[k].id == sid ==>
              multiset(r[k].items)[x] == if x.id == iid then 0 else multiset(cl[k].items)[x]
    ensures IdsTruthy(cl) ==> IdsTruthy(r)
    ensures Tidy(cl) ==> Tidy(r)
  {
    var r := seq(|cl|, k requires 0 <= k < |cl| =>
      if cl[k].id == sid then cl[k].(items := Filter(cl[k].items, ItemIdIsNot(iid))) else cl[k]);
    DeleteItemCounts(cl, sid, iid, r);
    r
  }

  lemma DeleteItemCounts(cl: seq<Section>, sid: Value, iid: Value, r: seq<Section>)
    requires |r| == |cl|
    requires forall k :: 0 <= k < |cl| && cl[k].id == sid ==> r[k].items == Filter(cl[k].items, ItemIdIsNot(iid))
    ensures forall k, x :: 0 <= k < |cl| && cl[k].id == sid ==>
              multiset(r[k].items)[x] == if x.id == iid then 0 else multiset(cl[k].items)[x]
  {
    forall k | 0 <= k < |cl| && cl[k].id == sid {
      FilterCounts(cl[k].items, ItemIdIsNot(iid));
    }
  }

  /** Deleting keeps the remaining items of a section in their order, and
      deleting an item that is not there changes nothing. */
  lemma DeleteItemKeepsOrder(cl: seq<Section>, sid: Value, iid: Value)
    ensures forall k :: 0 <= k < |cl| ==> IsSubseq(DeleteItem(cl, sid, iid)[k].items, cl[k].items)
    ensures !HasItem(cl, sid, iid) ==> DeleteItem(cl, sid, iid) == cl
  {
    var r := DeleteItem(cl, sid, iid);
    forall k | 0 <= k < |cl| ensures IsSubseq(r[k].items, cl[k].items) {
      FilterIsSubseq(cl[k].items, ItemIdIsNot(iid));
      if cl[k].id != sid {
        FilterIsSubseq(cl[k].items, _ => true);
        FilterAllPass(cl[k].items, _ => true);
      }
    }
    if !HasItem(cl, sid, iid) {
      forall k | 0 <= k < |cl| && cl[k].id == sid ensures r[k] == cl[k] {
        FilterAllPass(cl[k].items, ItemIdIsNot(iid));
      }
    }
  }

  /** `deleteSection(sectionId)`: exactly the sections `sid` go. */
  function DeleteSection(cl: seq<Section>, sid: Value): (r: seq<Section>)
    ensures |r| <= |cl|
    ensures forall k :: 0 <= k < |r| ==> r[k] in cl && r[k].id != sid
    ensures forall k :: 0 <= k < |cl| && cl[k].id != sid ==> cl[k] in r
    ensures HasSection(cl, sid) ==> |r| < |cl|
    ensures forall x :: multiset(r)[x] == if x.id == sid then 0 else multiset(cl)[x]
    ensures IdsTruthy(cl) ==> IdsTruthy(r)
    ensures Tidy(cl) ==> Tidy(r)
  {
    FilterAllPass(cl, SectionIdIsNot(sid));
    FilterCounts(cl, SectionIdIsNot(sid));
    Filter(cl, SectionIdIsNot(sid))
  }

  /** Deleting keeps the remaining sections in their order, and deleting a
      section that is not there changes nothing. */
  lemma DeleteSectionKeepsOrder(cl: seq<Section>, sid: Value)
    ensures IsSubseq(DeleteSection(cl, sid), cl)
    ensures !HasSection(cl, sid) ==> DeleteSection(cl, sid) == cl
  {
    FilterIsSubseq(cl, SectionIdIsNot(sid));
    FilterAllPass(cl, SectionIdIsNot(sid));
  }

  // ---------------------------------------------------------------------
  // renameSection (src/App.jsx:200-206)
  // ---------------------------------------------------------------------

  /** `renameSection(sectionId, newTitle)`: blank input changes nothing;
      otherwise the sections `sid` take the trimmed title, and nothing else
      changes. */
  function RenameSection(cl: seq<Section>, sid: Value, title: string): (r: seq<Section>)
    ensures AllSpace(title) ==> r == cl
    ensures |r| == |cl|
    ensures forall k :: 0 <= k < |cl| ==>
              && r[k].id == cl[k].id && r[k].items == cl[k].items
              && r[k].title == if !AllSpace(title) && cl[k].id == sid then Trim(title) else cl[k].title
    ensures IdsTruthy(cl) ==> IdsTruthy(r)
    ensures Tidy(cl) ==> Tidy(r)
  {
    TrimEmptyIffAllSpace(title);
    var t := Trim(title);
    if t == [] then cl
    else
      TrimmedTrim(title);
      seq(|cl|, k requires 0 <= k < |cl| => if cl[k].id == sid then cl[k].(title := t) else cl[k])
  }

  // ---------------------------------------------------------------------
  // sectionToggleAll and clearAllChecks (src/App.jsx:208-225)
  // ---------------------------------------------------------------------

  /** `sectionToggleAll(sectionId, done)`: every item of the sections `sid`
      gets `done`; nothing else changes. */
  function SectionToggleAll(cl: seq<Section>, sid: Value, done: bool): (r: seq<Section>)
    ensures SameButDone(cl, r)
    ensures forall k, j :: 0 <= k < |cl| && 0 <= j < |cl[k].items| ==>
              r[k].items[j].done == if cl[k].id == sid then done else cl[k].items[j].done
    ensures IdsTruthy(cl) ==> IdsTruthy(r)
    ensures Tidy(cl) ==> Tidy(r)
  {
    seq(|cl|, k requires 0 <= k < |cl| =>
      if cl[k].id == sid then
        cl[k].(items := seq(|cl[k].items|, j requires 0 <= j < |cl[k].items| => cl[k].items[j].(done := done)))
      else cl[k])
  }

  lemma SectionToggleAllIdempotent(cl: seq<Section>, sid: Value, done: bool)
    ensures SectionToggleAll(SectionToggleAll(cl, sid, done), sid, done) == SectionToggleAll(cl, sid, done)
  {
    var once := SectionToggleAll(cl, sid, done);
    SameButDoneEqual(SectionToggleAll(once, sid, done), once);
  }

  /** `clearAllChecks()`: every item of every section is not done; nothing
      else changes. */
  function ClearAllChecks(cl: seq<Section>): (r: seq<Section>)
    ensures SameButDone(cl, r)
    ensures forall k, j :: 0 <= k < |r| && 0 <= j < |r[k].items| ==> !r[k].items[j].done
    ensures IdsTruthy(cl) ==> IdsTruthy(r)
    ensures Tidy(cl) ==> Tidy(r)
  {
    seq(|cl|, k requires 0 <= k < |cl| =>
      cl[k].(items := seq(|cl[k].items|, j requires 0 <= j < |cl[k].items| => cl[k].items[j].(done := false))))
  }

  lemma ClearAllChecksIdempotent(cl: seq<Section>)
    ensures ClearAllChecks(ClearAllChecks(cl)) == ClearAllChecks(cl)
  {
    var once := ClearAllChecks(cl);
    SameButDoneEqual(ClearAllChecks(once), once);
  }

  /** A checklist with one section "Packing" holding "Socks" and "Shoes":
      toggling Socks checks it alone, checking the whole section checks both,
      and clearing unchecks both. */
  lemma PackingScenario(sid: Value, sock: Value, shoe: Value)
    requires sock != shoe
    ensures var cl := [Section(sid, "Packing", [Item(sock, "Socks", false), Item(shoe, "Shoes", false)])];
            var a := ToggleItem(cl, sid, sock);
            var b := SectionToggleAll(a, sid, true);
            var c := ClearAllChecks(b);
            && a[0].items[0].done && !a[0].items[1].done
            && b[0].items[0].done && b[0].items[1].done
            && c == cl
  {
    var cl := [Section(sid, "Packing", [Item(sock, "Socks", false), Item(shoe, "Shoes", false)])];
    var c := ClearAllChecks(SectionToggleAll(ToggleItem(cl, sid, sock), sid, true));
    SameButDoneEqual(c, cl);
  }

  // ---------------------------------------------------------------------
  // The search view `filtered` (src/App.jsx:28-37)
  // ---------------------------------------------------------------------

  /** `it.text.toLowerCase().includes(q)`. */
  function TextMatches(q: string): Item -> bool
  {
    (it: Item) => Includes(Lower(it.text), q)
  }

  function NotEmpty(): Section -> bool
  {
    (s: Section) => s.items != []
  }

  /** `{ ...s, items: s.items.filter(...) }`. */
  function Narrow(s: Section, q: string): (r: Section)
  {
    s.(items := Filter(s.items, TextMatches(q)))
  }

  /** `sections.map((s) => ({ ...s, items: ... }))`: every section stays, in
      place, with its identifier and title, holding exactly its items whose
      lower-cased text contains `q`, each as often as before. */
  function NarrowAll(cl: seq<Section>, q: string): (r: seq<Section>)
    ensures |r| == |cl|
    ensures forall k :: 0 <= k < |cl| ==> r[k].id == cl[k].id && r[k].title == cl[k].title
    ensures forall k, x :: 0 <= k < |cl| ==>
              multiset(r[k].items)[x] == if Includes(Lower(x.text), q) then multiset(cl[k].items)[x] else 0
  {
    var r := seq(|cl|, k requires 0 <= k < |cl| => Narrow(cl[k], q));
    NarrowCounts(cl, q, r);
    r
  }

  lemma NarrowCounts(cl: seq<Section>, q: string, r: seq<Section>)
    requires |r| == |cl| && forall k :: 0 <= k < |cl| ==> r[k] == Narrow(cl[k], q)
    ensures forall k, x :: 0 <= k < |cl| ==>
              multiset(r[k].items)[x] == if Includes(Lower(x.text), q) then multiset(cl[k].items)[x] else 0
  {
    forall k | 0 <= k < |cl| {
      FilterCounts(cl[k].items, TextMatches(q));
    }
  }

  /** The query as the view compares it: trimmed and lower-cased. */
  function Needle(query: string): string
  {
    Lower(Trim(query))
  }

  /** `filtered`: a blank query shows every section as it is; otherwise only
      the items whose lower-cased text contains the query, and only the
      sections left with at least one such item. */
  function Search(cl: seq<Section>, query: string): (r: seq<Section>)
    ensures AllSpace(query) ==> r == cl
    ensures !AllSpace(query) ==>
              forall k :: 0 <= k < |r| ==>
                && r[k].items != []
                && forall j :: 0 <= j < |r[k].items| ==> Includes(Lower(r[k].items[j].text), Needle(query))
  {
    TrimEmptyIffAllSpace(query);
    var q := Needle(query);
    if q == [] then cl
    else
      var n := NarrowAll(cl, q);
      var r := Filter(n, NotEmpty());
      forall k | 0 <= k < |r|
        ensures forall j :: 0 <= j < |r[k].items| ==> Includes(Lower(r[k].items[j].text), q)
      {
        var m :| 0 <= m < |n| && n[m] == r[k];
        assert n[m] == Narrow(cl[m], q);
      }
      r
  }

  /** The search view is an order-keeping selection: its sections come from
      the checklist in order, each with the same identifier and title and a
      subsequence of its items; and nothing that matches is missed. */
  lemma SearchKeepsOrderAndFindsAll(cl: seq<Section>, query: string)
    requires !AllSpace(query)
    ensures var q := Needle(query);
            && IsSubseq(Search(cl, query), NarrowAll(cl, q))
            && (forall k :: 0 <= k < |cl| ==>
                  NarrowAll(cl, q)[k].id == cl[k].id && NarrowAll(cl, q)[k].title == cl[k].title
                  && IsSubseq(NarrowAll(cl, q)[k].items, cl[k].items))
            && (forall k, j :: 0 <= k < |cl| && 0 <= j < |cl[k].items| && Includes(Lower(cl[k].items[j].text), q) ==>
                  NarrowAll(cl, q)[k] in Search(cl, query) && cl[k].items[j] in NarrowAll(cl, q)[k].items)
  {
    TrimEmptyIffAllSpace(query);
    var q := Needle(query);
    var n := NarrowAll(cl, q);
    FilterIsSubseq(n, NotEmpty());
    forall k | 0 <= k < |cl| ensures IsSubseq(n[k].items, cl[k].items) {
      FilterIsSubseq(cl[k].items, TextMatches(q));
    }
    forall k, j | 0 <= k < |cl| && 0 <= j < |cl[k].items| && Includes(Lower(cl[k].items[j].text), q)
      ensures n[k] in Search(cl, query) && cl[k].items[j] in n[k].items
    {
      assert TextMatches(q)(cl[k].items[j]);
      assert NotEmpty()(n[k]);
    }
  }

  /** The search shows each narrowed section that still has items as many
      times as the checklist holds it, and no narrowed section left empty:
      `.filter((s) => s.items.length > 0)` drops nothing else. */
  lemma SearchCounts(cl: seq<Section>, query: string)
    ensures !AllSpace(query) ==>
              forall x :: multiset(Search(cl, query))[x] == if x.items != [] then multiset(NarrowAll(cl, Needle(query)))[x] else 0
  {
    if !AllSpace(query) {
      TrimEmptyIffAllSpace(query);
      var n := NarrowAll(cl, Needle(query));
      assert Search(cl, query) == Filter(n, NotEmpty());
      FilterCounts(n, NotEmpty());
    }
  }

  /** Every section shown is one of the checklist's, keeping its identifier
      and title and showing only items it holds. */
  lemma SearchShowsOwnItems(cl: seq<Section>, query: string)
    ensures !AllSpace(query) ==>
              forall m :: 0 <= m < |Search(cl, query)| ==>
                exists k :: 0 <= k < |cl| && Search(cl, query)[m].id == cl[k].id && Search(cl, query)[m].title == cl[k].title
                  && forall j :: 0 <= j < |Search(cl, query)[m].items| ==> Search(cl, query)[m].items[j] in cl[k].items
  {
    if !AllSpace(query) {
      TrimEmptyIffAllSpace(query);
      var q := Needle(query);
      var r, n := Search(cl, query), NarrowAll(cl, q);
      assert r == Filter(n, NotEmpty());
      forall m | 0 <= m < |r|
        ensures exists k :: 0 <= k < |cl| && r[m].id == cl[k].id && r[m].title == cl[k].title
                  && forall j :: 0 <= j < |r[m].items| ==> r[m].items[j] in cl[k].items
      {
        NarrowedFrom(cl, q, r[m]);
      }
    }
  }

  /** A narrowed section is some section of the checklist with only items it holds. */
  lemma NarrowedFrom(cl: seq<Section>, q: string, s: Section)
    requires s in NarrowAll(cl, q)
    ensures exists k :: 0 <= k < |cl| && s.id == cl[k].id && s.title == cl[k].title
              && forall j :: 0 <= j < |s.items| ==> s.items[j] in cl[k].items
  {
    var n := NarrowAll(cl, q);
    var k :| 0 <= k < |n| && n[k] == s;
    forall j | 0 <= j < |s.items| ensures s.items[j] in cl[k].items {
      assert multiset(n[k].items)[s.items[j]] > 0;
    }
  }

  /** Every item whose text matches the query shows up, under a section with
      its own identifier and title. */
  lemma SearchFinds(cl: seq<Section>, query: string)
    ensures !AllSpace(query) ==>
              forall k, j :: 0 <= k < |cl| && 0 <= j < |cl[k].items| && Includes(Lower(cl[k].items[j].text), Needle(query)) ==>
                exists m :: 0 <= m < |Search(cl, query)| && Search(cl, query)[m].id == cl[k].id
                  && Search(cl, query)[m].title == cl[k].title && cl[k].items[j] in Search(cl, query)[m].items
  {
    if !AllSpace(query) {
      SearchKeepsOrderAndFindsAll(cl, query);
      var q := Needle(query);
      var r, n := Search(cl, query), NarrowAll(cl, q);
      forall k, j | 0 <= k < |cl| && 0 <= j < |cl[k].items| && Includes(Lower(cl[k].items[j].text), q)
        ensures exists m :: 0 <= m < |r| && r[m].id == cl[k].id && r[m].title == cl[k].title && cl[k].items[j] in r[m].items
      {
        var m :| 0 <= m < |r| && r[m] == n[k];
      }
    }
  }

  // ---------------------------------------------------------------------
  // Identifiers addItem hands out
  // ---------------------------------------------------------------------

  /** One unfolding of AppendItem. */
  lemma AppendItemUnfold(cl: seq<Section>, sid: Value, t: string, next: nat)
    requires cl != []
    ensures var after := if cl[0].id == sid then next + 1 else next;
            var r := AppendItem(cl, sid, t, next);
            var rest := AppendItem(cl[1..], sid, t, after);
            && r.1 == rest.1 && r.0[1..] == rest.0
            && (cl[0].id == sid ==> r.0[0].items[|cl[0].items|].id == FreshId(It, next))
  {
  }

  /** Each section `sid` gets its own call to `uid`: no two of the items
      one call appends share an identifier. */
  lemma {:induction false} AppendItemIdsDistinct(cl: seq<Section>, sid: Value, t: string, next: nat)
    ensures var r := AppendItem(cl, sid, t, next);
            forall k1, k2 :: 0 <= k1 < k2 < |cl| && cl[k1].id == sid && cl[k2].id == sid ==>
              r.0[k1].items[|cl[k1].items|].id != r.0[k2].items[|cl[k2].items|].id
    decreases |cl|
  {
    if cl != [] {
      var after := if cl[0].id == sid then next + 1 else next;
      var r := AppendItem(cl, sid, t, next);
      var tl := cl[1..];
      var rest := AppendItem(tl, sid, t, after);
      AppendItemUnfold(cl, sid, t, next);
      AppendItemIdsDistinct(tl, sid, t, after);
      forall k1, k2 | 0 <= k1 < k2 < |cl| && cl[k1].id == sid && cl[k2].id == sid
        ensures r.0[k1].items[|cl[k1].items|].id != r.0[k2].items[|cl[k2].items|].id
      {
        assert cl[k2] == tl[k2 - 1] && r.0[k2] == rest.0[k2 - 1];
        if k1 == 0 {
          assert Appended(tl[k2 - 1], rest.0[k2 - 1], t, after, rest.1);
          var n: nat :| after <= n < rest.1 && rest.0[k2 - 1].items[|tl[k2 - 1].items|].id == FreshId(It, n);
          if FreshId(It, next) == FreshId(It, n) {
            UidInjective(It, next, It, n);
          }
        } else {
          assert cl[k1] == tl[k1 - 1] && r.0[k1] == rest.0[k1 - 1];
        }
      }
    }
  }

  /** `addItem` into several sections sharing the identifier `sid` gives each
      new item a different identifier. */
  lemma AddItemIdsDistinct(cl: seq<Section>, sid: Value, text: string, next: nat)
    ensures var r := AddItem(cl, sid, text, next);
            !AllSpace(text) ==>
              forall k1, k2 :: 0 <= k1 < k2 < |cl| && cl[k1].id == sid && cl[k2].id == sid ==>
                r.0[k1].items[|cl[k1].items|].id != r.0[k2].items[|cl[k2].items|].id
  {
    if !AllSpace(text) {
      TrimEmptyIffAllSpace(text);
      assert AddItem(cl, sid, text, next) == AppendItem(cl, sid, Trim(text), next);
      AppendItemIdsDistinct(cl, sid, Trim(text), next);
    }
  }
}
