/** The `App` component of src/App.jsx as a state container: the `sections`
    and `filter` state variables, the id oracle's counter, and one method
    per operation. Each operation replaces `sections` wholesale with the
    result of its updater, as `setSections(prev => ...)` does. */
module App {
  import opened Js
  import opened Ids
  import opened Text
  import opened Storage
  import T = Transitions

  class ChecklistApp {
    /** The `sections` state: the checklist shown and persisted. */
    var sections: seq<Section>
    /** The `filter` state: the text of the search box. */
    var query: string
    /** The counter the next call of `uid` uses. */
    var nextId: nat

    /** Every identifier in the checklist is truthy. */
    ghost predicate Valid()
      reads this
    {
      IdsTruthy(sections)
    }

    /** A fresh component whose checklist is the instantiated template (what
        `loadInitialSections` falls back to) and whose search box is empty. */
    constructor (seed: seq<SeedSection>, firstId: nat)
      ensures Valid()
      ensures (sections, nextId) == Instantiate(seed, firstId) && query == ""
    {
      var r := Instantiate(seed, firstId);
      sections, nextId, query := r.0, r.1, "";
    }

    /** The `filtered` view the list renders: the whole checklist for a blank
        search box; otherwise sections of the checklist, each left with only
        its items that contain the lower-cased, trimmed query and with at
        least one of them, and no matching item left out. */
    function Filtered(): (r: seq<Section>)
      reads this
      ensures AllSpace(query) ==> r == sections
      ensures !AllSpace(query) ==>
                forall m :: 0 <= m < |r| ==>
                  && r[m].items != []
                  && (forall j :: 0 <= j < |r[m].items| ==> Includes(Lower(r[m].items[j].text), T.Needle(query)))
                  && exists k :: 0 <= k < |sections| && r[m].id == sections[k].id && r[m].title == sections[k].title
                       && forall j :: 0 <= j < |r[m].items| ==> r[m].items[j] in sections[k].items
      ensures !AllSpace(query) ==>
                forall k, j :: 0 <= k < |sections| && 0 <= j < |sections[k].items|
                               && Includes(Lower(sections[k].items[j].text), T.Needle(query)) ==>
                  exists m :: 0 <= m < |r| && r[m].id == sections[k].id
                    && r[m].title == sections[k].title && sections[k].items[j] in r[m].items
      ensures !AllSpace(query) ==>
                forall x :: multiset(r)[x] == if x.items != [] then multiset(T.NarrowAll(sections, T.Needle(query)))[x] else 0
    {
      T.SearchShowsOwnItems(sections, query);
      T.SearchFinds(sections, query);
      T.SearchCounts(sections, query);
      T.Search(sections, query)
    }

    /** Typing in the search box: `setFilter(e.target.value)`. */
    method SetFilter(q: string)
      modifies this
      ensures query == q && sections == old(sections) && nextId == old(nextId)
    {
      query := q;
    }

    method AddSection(title: string)
      modifies this
      ensures old(Valid()) ==> Valid()
      ensures query == old(query)
      ensures (sections, nextId) == T.AddSection(old(sections), title, old(nextId))
    {
      var r := T.AddSection(sections, title, nextId);
      sections, nextId := r.0, r.1;
    }

    /** `addItem`: every item it adds has an identifier the oracle never
        handed out before. */
    method AddItem(sid: Value, text: string)
      modifies this
      ensures old(Valid()) ==> Valid()
      ensures query == old(query)
      ensures (sections, nextId) == T.AddItem(old(sections), sid, text, old(nextId))
      ensures !AllSpace(text) ==>
                forall k :: 0 <= k < |old(sections)| && old(sections)[k].id == sid ==>
                  T.NotMintedBefore(sections[k].items[|old(sections)[k].items|].id, old(nextId))
    {
      var before, first := sections, nextId;
      var r := T.AddItem(sections, sid, text, nextId);
      sections, nextId := r.0, r.1;
      if !AllSpace(text) {
        forall k | 0 <= k < |before| && before[k].id == sid
          ensures T.NotMintedBefore(sections[k].items[|before[k].items|].id, first)
        {
          T.MintedIsNew(sections[k].items[|before[k].items|].id, It, first, nextId);
        }
      }
    }

    method ToggleItem(sid: Value, iid: Value)
      modifies this
      ensures old(Valid()) ==> Valid()
      ensures query == old(query) && nextId == old(nextId)
      ensures sections == T.ToggleItem(old(sections), sid, iid)
    {
      sections := T.ToggleItem(sections, sid, iid);
    }

    method EditItem(sid: Value, iid: Value, text: string)
      modifies this
      ensures old(Valid()) ==> Valid()
      ensures query == old(query) && nextId == old(nextId)
      ensures sections == T.EditItem(old(sections), sid, iid, text)
    {
      sections := T.EditItem(sections, sid, iid, text);
    }

    method DeleteItem(sid: Value, iid: Value)
      modifies this
      ensures old(Valid()) ==> Valid()
      ensures query == old(query) && nextId == old(nextId)
      ensures sections == T.DeleteItem(old(sections), sid, iid)
    {
      sections := T.DeleteItem(sections, sid, iid);
    }

    method DeleteSection(sid: Value)
      modifies this
      ensures old(Valid()) ==> Valid()
      ensures query == old(query) && nextId == old(nextId)
      ensures sections == T.DeleteSection(old(sections), sid)
    {
      sections := T.DeleteSection(sections, sid);
    }

    method RenameSection(sid: Value, title: string)
      modifies this
      ensures old(Valid()) ==> Valid()
      ensures query == old(query) && nextId == old(nextId)
      ensures sections == T.RenameSection(old(sections), sid, title)
    {
      sections := T.RenameSection(sections, sid, title);
    }

    method SectionToggleAll(sid: Value, done: bool)
      modifies this
      ensures old(Valid()) ==> Valid()
      ensures query == old(query) && nextId == old(nextId)
      ensures sections == T.SectionToggleAll(old(sections), sid, done)
    {
      sections := T.SectionToggleAll(sections, sid, done);
    }

    method ClearAllChecks()
      modifies this
      ensures old(Valid()) ==> Valid()
      ensures query == old(query) && nextId == old(nextId)
      ensures sections == T.ClearAllChecks(old(sections))
    {
      sections := T.ClearAllChecks(sections);
    }

    /** `resetTemplate` once the user has confirmed: the checklist becomes a
        fresh instantiation of the seed. */
    method ResetTemplate(seed: seq<SeedSection>)
      modifies this
      ensures Valid() && query == old(query)
      ensures (sections, nextId) == Instantiate(seed, old(nextId))
    {
      var r := Instantiate(seed, nextId);
      sections, nextId := r.0, r.1;
    }

    /** `resetAppData`: the search box is cleared and the checklist becomes a
        fresh instantiation of the seed. */
    method ResetAppData(seed: seq<SeedSection>)
      modifies this
      ensures Valid() && query == ""
      ensures (sections, nextId) == Instantiate(seed, old(nextId))
    {
      query := "";
      var r := Instantiate(seed, nextId);
      sections, nextId := r.0, r.1;
    }

    /** `importJSON` once the file has been parsed into `data`: anything but
        an array is refused, and so is an array on which `normalizeList`
        throws; a refusal changes nothing. Any other array replaces the
        checklist with its normalization. */
    method ImportJson(data: Value) returns (ok: bool)
      modifies this
      ensures ok <==> data.Arr? && !ListThrows(data)
      ensures query == old(query)
      ensures !ok ==> sections == old(sections) && nextId == old(nextId)
      ensures ok ==> NormalizeList(data, old(nextId)) == Normalized(sections, nextId)
      ensures ok ==> Valid()
      ensures old(Valid()) ==> Valid()
    {
      if !data.Arr? {
        return false;
      }
      var r := NormalizeList(data, nextId);
      if r.TypeError? {
        return false;
      }
      NormalizeIdsTruthy(data, nextId);
      sections, nextId := r.sections, r.next;
      ok := true;
    }

    /** `openFromPhoneAndLoad` once the file has been parsed into `data`: with
        no array check, the checklist becomes `normalizeList(data)`, unless
        that throws, which changes nothing. A second, separate
        `normalizeList(data)` is what this call hands to the file store; it
        returns that value as `written`. */
    method OpenFromFile(data: Value) returns (ok: bool, written: seq<Section>)
      modifies this
      ensures ok <==> !ListThrows(data)
      ensures query == old(query)
      ensures !ok ==> sections == old(sections) && nextId == old(nextId) && written == []
      ensures ok ==> var shown := NormalizeList(data, old(nextId));
                     && sections == shown.sections
                     && NormalizeList(data, shown.next) == Normalized(written, nextId)
      ensures ok ==> Valid()
      ensures old(Valid()) ==> Valid()
    {
      var r := NormalizeList(data, nextId);
      if r.TypeError? {
        return false, [];
      }
      NormalizeIdsTruthy(data, nextId);
      sections := r.sections;
      var w := NormalizeList(data, r.next);
      written, nextId := w.sections, w.next;
      ok := true;
    }
  }

  /** Because `normalizeList` runs twice when a file is opened, an element
      without an identifier gets one identifier in the checklist and another
      in the copy this call hands to the file store. */
  lemma OpenFromFileIdsDiffer(next: nat)
    ensures var data := Arr([Obj(map[])]);
            var shown := NormalizeList(data, next);
            && shown.Normalized? && NormalizeList(data, shown.next).Normalized?
            && NormalizeList(data, shown.next).sections[0].id != shown.sections[0].id
  {
    var e := Obj(map[]);
    var data := Arr([e]);
    assert Get(e, "id") == Undefined && Get(e, "items") == Undefined;
    assert NormalizeSection(e, next).1 == next + 1;
    assert [e][1..] == [];
    assert NormalizeSections([], next + 1) == ([], next + 1);
    var first := NormalizeSection(e, next);
    assert [e][0] == e;
    assert NormalizeSections([e], next) == ([first.0] + NormalizeSections([], first.1).0, NormalizeSections([], first.1).1);
    assert !SectionThrows([e][0]);
    var shown := NormalizeList(data, next);
    assert shown.sections[0].id == FreshId(Sec, next) && shown.next == next + 1;
    assert NormalizeSection(e, next + 1).0.id == FreshId(Sec, next + 1);
    assert NormalizeList(data, shown.next).sections[0].id == FreshId(Sec, next + 1);
    if FreshId(Sec, next + 1) == FreshId(Sec, next) {
      UidInjective(Sec, next + 1, Sec, next);
    }
  }
}
