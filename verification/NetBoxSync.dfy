/**
 The inventory sync: make the discovered items of one NetBox device equal to the current placements.

 The slot label is the diff key. The remote side is a map of items by id; listing it gives the
 discovered items of the device in no particular order.
 */
module NetBoxSync {
  import opened Wrappers

  const MAX_PART_ID := 50
  const MAX_SERIAL := 50

  /** `description` is the kind and capacity, already formatted. */
  datatype PartPlacement = PartPlacement(
    slot: string, serial: Option<string>, wwid: Option<string>,
    manufacturer: Option<string>, model: Option<string>, description: string)

  datatype Payload = Payload(device: int, name: string, partId: string, serial: string, description: string)

  /** An item as NetBox returns it; an absent or null field is None. `note` is a field the sync never sends. */
  datatype Item = Item(
    device: int, name: Option<string>, partId: Option<string>, serial: Option<string>,
    description: Option<string>, discovered: bool, note: string)

  datatype ItemId = ItemId(value: int)

  type Items = map<ItemId, Item>

  // ---------------------------------------------------------------- payloads

  function Truncate(s: string, max: nat): (r: string)
    requires max > 0
    ensures |s| <= max ==> r == s
    ensures |s| > max ==> |r| == max && r[..max - 1] == s[..max - 1] && r[max - 1] == '…'
  {
    if |s| > max then s[..max - 1] + "…" else s
  }

  function NonEmpty(s: Option<string>): string {
    s.GetOr("")
  }

  function BuildPayload(p: PartPlacement, device: int): (r: Payload)
    ensures r.name == p.slot && r.device == device
  {
    var maker, model := NonEmpty(p.manufacturer), NonEmpty(p.model);
    var partId := maker + (if maker != "" && model != "" then " " else "") + model;
    var serial := if NonEmpty(p.serial) != "" then NonEmpty(p.serial) else NonEmpty(p.wwid);
    Payload(device, p.slot, Truncate(partId, MAX_PART_ID), Truncate(serial, MAX_SERIAL), p.description)
  }

  /** What each field of a payload is made of. */
  lemma PayloadSays(p: PartPlacement, device: int)
    ensures var r := BuildPayload(p, device);
            var maker, model := p.manufacturer.GetOr(""), p.model.GetOr("");
            && r.name == p.slot && r.device == device && r.description == p.description
            && |r.partId| <= 50 && |r.serial| <= 50
            && (model == "" ==> r.partId == Truncate(maker, 50))
            && (maker == "" ==> r.partId == Truncate(model, 50))
            && (maker != "" && model != "" ==> r.partId == Truncate(maker + " " + model, 50))
            && (p.serial.GetOr("") != "" ==> r.serial == Truncate(p.serial.value, 50))
            && (p.serial.GetOr("") == "" ==> r.serial == Truncate(p.wwid.GetOr(""), 50))
  {
  }

  /** Every compared field agrees; a missing one counts as empty. */
  predicate Matches(item: Item, payload: Payload) {
    && NonEmpty(item.name) == payload.name
    && NonEmpty(item.partId) == payload.partId
    && NonEmpty(item.serial) == payload.serial
    && NonEmpty(item.description) == payload.description
    && item.discovered
  }

  function Patched(item: Item, p: Payload): (r: Item)
    ensures Matches(r, p) && r.device == p.device && r.name == Some(p.name) && r.note == item.note
  {
    Item(p.device, Some(p.name), Some(p.partId), Some(p.serial), Some(p.description), true, item.note)
  }

  function Created(p: Payload): (r: Item)
    ensures Matches(r, p) && r.device == p.device && r.name == Some(p.name)
  {
    Item(p.device, Some(p.name), Some(p.partId), Some(p.serial), Some(p.description), true, "")
  }

  // ---------------------------------------------------------------- the two sides of the diff

  /** The slot decides; a slot named twice is what its last placement says. */
  function Desired(placements: seq<PartPlacement>, device: int): map<string, Payload> {
    if placements == [] then map[]
    else
      var last := placements[|placements| - 1];
      Desired(placements[..|placements| - 1], device)[last.slot := BuildPayload(last, device)]
  }

  predicate LastFor(placements: seq<PartPlacement>, slot: string, i: int) {
    && 0 <= i < |placements| && placements[i].slot == slot
    && forall j :: i < j < |placements| ==> placements[j].slot != slot
  }

  lemma {:induction false} LastPlacementDecides(placements: seq<PartPlacement>, device: int, slot: string)
    returns (i: int)
    ensures slot in Desired(placements, device) ==>
              LastFor(placements, slot, i) && Desired(placements, device)[slot] == BuildPayload(placements[i], device)
    ensures slot !in Desired(placements, device) ==> forall j :: 0 <= j < |placements| ==> placements[j].slot != slot
  {
    hide BuildPayload, LastFor;
    i := |placements| - 1;
    if placements != [] && placements[i].slot == slot {
      LastIsLast(placements);
    } else if placements != [] {
      var init, n := placements[..i], i;
      i := LastPlacementDecides(init, device, slot);
      if slot in Desired(init, device) {
        StaysLast(placements, slot, i);
      } else {
        forall j | 0 <= j < |placements| ensures placements[j].slot != slot {
          assert j == n || placements[j] == init[j];
        }
      }
    }
  }

  lemma LastIsLast(placements: seq<PartPlacement>)
    requires placements != []
    ensures LastFor(placements, placements[|placements| - 1].slot, |placements| - 1)
  {
  }

  lemma StaysLast(placements: seq<PartPlacement>, slot: string, i: int)
    requires placements != [] && placements[|placements| - 1].slot != slot
    requires LastFor(placements[..|placements| - 1], slot, i)
    ensures LastFor(placements, slot, i) && 0 <= i < |placements| - 1 &&
          placements[i] == placements[..|placements| - 1][i]
  {
  }

  predicate Ours(item: Item, device: int) {
    item.device == device && item.discovered
  }

  /** Names of discovered items, each with one item of that name. */
  ghost predicate IsLookup(items: Items, device: int, existing: map<string, ItemId>) {
    && (forall n :: n in existing ==>
        existing[n] in items && Ours(items[existing[n]], device) && items[existing[n]].name == Some(n))
    && (forall id :: id in items && Ours(items[id], device) && items[id].name.Some? ==>
        items[id].name.value in existing)
  }

  datatype SyncResult = SyncResult(created: seq<string>, updated: seq<string>, deleted: seq<string>, kept: seq<string>)

  ghost predicate NoDuplicates<T(!new)>(s: seq<T>) {
    forall i, j :: 0 <= i < j < |s| ==> s[i] != s[j]
  }

  /** Every desired slot is in exactly one of three lists, and what is deleted is the rest. */
  ghost predicate Buckets(result: SyncResult, items: Items, existing: map<string, ItemId>,
      desired: map<string, Payload>) {
    && (forall s :: s in result.created <==> s in desired && s !in existing)
    && (forall s :: s in result.kept <==>
        s in desired && s in existing && existing[s] in items && Matches(items[existing[s]], desired[s]))
    && (forall s :: s in result.updated <==>
        s in desired && s in existing && existing[s] in items && !Matches(items[existing[s]], desired[s]))
    && (forall s :: s in result.deleted <==> s in existing && s !in desired)
    && NoDuplicates(result.created) && NoDuplicates(result.updated) && NoDuplicates(result.deleted) &&
        NoDuplicates(result.kept)
  }

  // ---------------------------------------------------------------- the remote side

  class NetBox {
    var items: Items
    var nextId: int

    ghost predicate Valid()
      reads this
    {
      forall id :: id in items ==> id.value < nextId
    }

    constructor (items: Items, nextId: int)
      requires forall id :: id in items ==> id.value < nextId
      ensures Valid() && this.items == items
    {
      this.items, this.nextId := items, nextId;
    }

    method ListInventoryItems(device: int) returns (ids: seq<ItemId>)
      ensures forall id :: id in ids <==> id in items && items[id].device == device && items[id].discovered
      ensures NoDuplicates(ids)
    {
      ids := [];
      var rest := set id | id in items && Ours(items[id], device);
      while rest != {}
        invariant rest <= items.Keys
        invariant forall id :: id in rest ==> Ours(items[id], device)
        invariant forall i :: 0 <= i < |ids| ==> ids[i] in items && Ours(items[ids[i]], device) && ids[i] !in rest
        invariant forall id :: id in items && Ours(items[id], device) && id !in rest ==> id in ids
        invariant NoDuplicates(ids)
      {
        var id :| id in rest;
        rest := rest - {id};
        ids := ids + [id];
      }
    }

    method Create(payload: Payload) returns (id: ItemId)
      requires Valid()
      modifies this
      ensures Valid() && id !in old(items) && items == old(items)[id := Created(payload)]
    {
      id := ItemId(nextId);
      nextId := nextId + 1;
      items := items[id := Created(payload)];
    }

    method Update(id: ItemId, payload: Payload)
      requires Valid() && id in items
      modifies this
      ensures Valid() && items == old(items)[id := Patched(old(items)[id], payload)]
    {
      items := items[id := Patched(items[id], payload)];
    }

    method Delete(id: ItemId)
      requires Valid()
      modifies this
      ensures Valid() && items == old(items) - {id}
    {
      items := items - {id};
    }
  }

  // ---------------------------------------------------------------- the sync

  /** An item of before, once the slots `done` have been brought up to date. */
  function Standing(item: Item, id: ItemId, existing: map<string, ItemId>, desired: map<string, Payload>,
      done: set<string>): Item {
    if item.name.Some? && item.name.value in existing && existing[item.name.value] == id
       && item.name.value in done && item.name.value in desired && !Matches(item, desired[item.name.value])
    then Patched(item, desired[item.name.value]) else item
  }

  /**
   How the items stand once the slots `done` have been created or updated and the names `gone` deleted.
   `made` gives the new item of each created slot.
   */
  ghost predicate Synced(items: Items, was: Items, existing: map<string, ItemId>, desired: map<string, Payload>,
      done: set<string>, gone: set<string>, made: map<string, ItemId>) {
    && (forall s :: s in made <==> s in done && s !in existing)
    && (forall s :: s in made ==>
        s in desired && made[s] !in was && made[s] in items && items[made[s]] == Created(desired[s]))
    && (forall id :: id in items && id !in was ==> MadeBy(items, made, id))
    && (forall id :: id in was ==> (id in items <==> !Gone(was, existing, gone, id)))
    && (forall id :: id in was && id in items ==> items[id] == Standing(was[id], id, existing, desired, done))
  }

  /** A new item is the one made for the slot it is named after. */
  predicate MadeBy(items: Items, made: map<string, ItemId>, id: ItemId) {
    id in items && items[id].name.Some? && items[id].name.value in made && made[items[id].name.value] == id
  }

  predicate Gone(was: Items, existing: map<string, ItemId>, gone: set<string>, id: ItemId) {
    id in was && was[id].name.Some? && was[id].name.value in gone && was[id].name.value in existing &&
        existing[was[id].name.value] == id
  }

  method BuildDesired(placements: seq<PartPlacement>, device: int)
    returns (slots: seq<string>, desired: map<string, Payload>)
    ensures desired == Desired(placements, device)
    ensures forall s :: s in desired ==>
              exists i :: LastFor(placements, s, i) && desired[s] == BuildPayload(placements[i], device)
    ensures NoDuplicates(slots) && forall s :: s in slots <==> s in desired
  {
    slots, desired := [], map[];
    for i := 0 to |placements|
      invariant desired == Desired(placements[..i], device)
      invariant NoDuplicates(slots) && forall s :: s in slots <==> s in desired
    {
      var p := placements[i];
      if p.slot !in desired {
        slots := slots + [p.slot];
      }
      desired := desired[p.slot := BuildPayload(p, device)];
      assert placements[..i + 1][..i] == placements[..i];
    }
    assert placements[..|placements|] == placements;
    forall s | s in desired
      ensures exists i :: LastFor(placements, s, i) && desired[s] == BuildPayload(placements[i], device)
    {
      var i := LastPlacementDecides(placements, device, s);
    }
  }

  method IndexByName(box: NetBox, device: int) returns (names: seq<string>, existing: map<string, ItemId>)
    ensures IsLookup(box.items, device, existing)
    ensures NoDuplicates(names) && forall n :: n in names <==> n in existing
  {
    var ids := box.ListInventoryItems(device);
    forall j | 0 <= j < |ids| ensures ids[j] in box.items && Ours(box.items[ids[j]], device) {
      assert ids[j] in ids;
    }
    names, existing := [], map[];
    for i := 0 to |ids|
      invariant forall j :: 0 <= j < |ids| ==> ids[j] in box.items && Ours(box.items[ids[j]], device)
      invariant forall n :: n in existing ==>
                  existing[n] in box.items && Ours(box.items[existing[n]], device) &&
                      box.items[existing[n]].name == Some(n)
      invariant forall j :: 0 <= j < i && box.items[ids[j]].name.Some? ==> box.items[ids[j]].name.value in existing
      invariant NoDuplicates(names) && forall n :: n in names <==> n in existing
    {
      assert ids[i] in ids;
      var item := box.items[ids[i]];
      if item.name.Some? {
        if item.name.value !in existing {
          names := names + [item.name.value];
        }
        existing := existing[item.name.value := ids[i]];
      }
    }
  }

  lemma {:induction false} UpdateStep(items: Items, was: Items, device: int, existing: map<string, ItemId>,
      desired: map<string, Payload>, done: set<string>, made: map<string, ItemId>, slot: string)
    requires IsLookup(was, device, existing) && slot in desired && slot !in done && slot in existing
    requires Synced(items, was, existing, desired, done, {}, made)
    ensures existing[slot] in items && items[existing[slot]] == was[existing[slot]]
    ensures var item := was[existing[slot]];
            var next := if Matches(item, desired[slot]) then items
                else items[existing[slot] := Patched(item, desired[slot])];
            Synced(next, was, existing, desired, done + {slot}, {}, made)
  {
    hide Matches, Patched, Created, MadeBy, IsLookup;
    var id := existing[slot];
    assert id in was && was[id].name == Some(slot) by { LookedUp(was, device, existing, slot); }
    assert !Gone(was, existing, {}, id);
    var next := if Matches(was[id], desired[slot]) then items else items[id := Patched(was[id], desired[slot])];
    forall k | k in next && k !in was ensures MadeBy(next, made, k) {
      assert MadeBy(items, made, k) && next[k] == items[k];
      StillMade(items, next, made, k);
    }
  }

  lemma LookedUp(items: Items, device: int, existing: map<string, ItemId>, name: string)
    requires IsLookup(items, device, existing) && name in existing
    ensures existing[name] in items && items[existing[name]].name == Some(name) && Ours(items[existing[name]], device)
  {
  }

  lemma StillMade(items: Items, next: Items, made: map<string, ItemId>, id: ItemId)
    requires MadeBy(items, made, id) && id in next && next[id] == items[id]
    ensures MadeBy(next, made, id)
  {
  }

  lemma {:induction false} CreateStep(items: Items, was: Items, existing: map<string, ItemId>,
      desired: map<string, Payload>, done: set<string>, made: map<string, ItemId>, slot: string, id: ItemId)
    requires slot in desired && slot !in done && slot !in existing && id !in items && desired[slot].name == slot
    requires Synced(items, was, existing, desired, done, {}, made)
    ensures Synced(items[id := Created(desired[slot])], was, existing, desired, done + {slot}, {}, made[slot := id])
  {
    hide Matches, Patched, Standing, MadeBy;
    var next, more := items[id := Created(desired[slot])], made[slot := id];
    assert !Gone(was, existing, {}, id);
    assert id !in was;
    forall k | k in was ensures Standing(was[k], k, existing, desired, done + {slot}) ==
        Standing(was[k], k, existing, desired, done) {
      StandsAlone(was[k], k, existing, desired, done, slot);
    }
    forall k | k in next && k !in was ensures MadeBy(next, more, k) {
      MadeStays(items, made, slot, id, desired[slot], k);
    }
  }

  lemma StandsAlone(item: Item, id: ItemId, existing: map<string, ItemId>, desired: map<string, Payload>,
      done: set<string>, slot: string)
    requires slot !in existing
    ensures Standing(item, id, existing, desired, done + {slot}) == Standing(item, id, existing, desired, done)
  {
  }

  lemma MadeStays(items: Items, made: map<string, ItemId>, slot: string, id: ItemId, payload: Payload, k: ItemId)
    requires slot !in made && id !in items && payload.name == slot
    requires k == id || MadeBy(items, made, k)
    ensures MadeBy(items[id := Created(payload)], made[slot := id], k)
  {
  }

  lemma {:induction false} DeleteStep(items: Items, was: Items, device: int, existing: map<string, ItemId>,
      desired: map<string, Payload>, done: set<string>, gone: set<string>, made: map<string, ItemId>, name: string)
    requires IsLookup(was, device, existing) && name in existing && name !in desired
    requires Synced(items, was, existing, desired, done, gone, made)
    ensures Synced(items - {existing[name]}, was, existing, desired, done, gone + {name}, made)
  {
    hide Matches, Patched, Created, Standing, IsLookup, MadeBy;
    LookedUp(was, device, existing, name);
    var next := items - {existing[name]};
    forall k | k in next && k !in was ensures MadeBy(next, made, k) {
      StillMade(items, next, made, k);
    }
  }

  lemma {:induction false} DesiredNames(placements: seq<PartPlacement>, device: int)
    ensures forall s :: s in Desired(placements, device) ==>
              Desired(placements, device)[s].name == s && Desired(placements, device)[s].device == device
  {
    if placements != [] {
      DesiredNames(placements[..|placements| - 1], device);
    }
  }

  datatype Diff = Missing | Stale | Current

  function Compare(items: Items, existing: map<string, ItemId>, desired: map<string, Payload>, slot: string): Diff {
    if slot !in existing then Missing
    else if slot in desired && existing[slot] in items && Matches(items[existing[slot]], desired[slot]) then Current
    else Stale
  }

  function Select(items: Items, existing: map<string, ItemId>, desired: map<string, Payload>, slots: seq<string>,
      which: Diff): seq<string> {
    if slots == [] then []
    else
      Select(items, existing, desired, slots[..|slots| - 1], which) +
      if Compare(items, existing, desired, slots[|slots| - 1]) == which then [slots[|slots| - 1]] else []
  }

  lemma {:induction false} Selected(items: Items, existing: map<string, ItemId>, desired: map<string, Payload>,
      slots: seq<string>, which: Diff)
    requires NoDuplicates(slots)
    ensures var chosen := Select(items, existing, desired, slots, which);
            && (forall s :: s in chosen <==> s in slots && Compare(items, existing, desired, s) == which)
            && NoDuplicates(chosen)
  {
    hide Compare;
    if slots != [] {
      var init, last := slots[..|slots| - 1], slots[|slots| - 1];
      Selected(items, existing, desired, init, which);
      assert slots == init + [last] && last !in init;
      assert forall s :: s in slots <==> s in init || s == last;
    }
  }

  /** The lists of the upsert pass over these slots. */
  function UpsertLists(items: Items, existing: map<string, ItemId>, desired: map<string, Payload>,
      slots: seq<string>): SyncResult {
    SyncResult(
      Select(items, existing, desired, slots, Missing), Select(items, existing, desired, slots, Stale), [],
      Select(items, existing, desired, slots, Current))
  }

  lemma OneMoreSlot(items: Items, existing: map<string, ItemId>, desired: map<string, Payload>, slots: seq<string>,
      i: nat)
    requires i < |slots|
    ensures var sofar, slot := UpsertLists(items, existing, desired, slots[..i]), slots[i];
            UpsertLists(items, existing, desired, slots[..i + 1]) ==
            match Compare(items, existing, desired, slot)
            case Missing => sofar.(created := sofar.created + [slot])
            case Current => sofar.(kept := sofar.kept + [slot])
            case Stale => sofar.(updated := sofar.updated + [slot])
  {
    hide Compare;
    assert slots[..i + 1][..i] == slots[..i];
  }

  lemma DistinctFromEarlier(slots: seq<string>, i: nat)
    requires NoDuplicates(slots) && i < |slots|
    ensures slots[i] !in slots[..i] && slots[i] in slots
    ensures slots[..i + 1] == slots[..i] + [slots[i]]
  {
  }

  /** Creates and updates, slot by slot. */
  method UpsertSlots(box: NetBox, device: int, slots: seq<string>, desired: map<string, Payload>,
      existing: map<string, ItemId>, dryRun: bool)
    returns (result: SyncResult, ghost made: map<string, ItemId>)
    requires box.Valid() && IsLookup(box.items, device, existing)
    requires NoDuplicates(slots) && forall s :: s in slots <==> s in desired
    requires forall s :: s in desired ==> desired[s].name == s
    modifies box
    ensures box.Valid()
    ensures result == UpsertLists(old(box.items), existing, desired, slots)
    ensures dryRun ==> box.items == old(box.items)
    ensures !dryRun ==> Synced(box.items, old(box.items), existing, desired, desired.Keys, {}, made)
  {
    hide Matches, IsLookup, Synced, UpsertLists, Created, Patched, NoDuplicates;
    ghost var was := box.items;
    ghost var done: set<string> := {};
    result, made := SyncResult([], [], [], []), map[];
    NothingDone(was, existing, desired);
    NoSlots(was, existing, desired);
    assert slots[..0] == [];
    for i := 0 to |slots|
      invariant box.Valid()
      invariant dryRun ==> box.items == was
      invariant forall s :: s in done <==> s in slots[..i]
      invariant !dryRun ==> Synced(box.items, was, existing, desired, done, {}, made)
      invariant result == UpsertLists(was, existing, desired, slots[..i])
    {
      var slot := slots[i];
      DistinctFromEarlier(slots, i);
      OneMoreSlot(was, existing, desired, slots, i);
      if slot !in existing {
        if !dryRun {
          ghost var before := box.items;
          var id := box.Create(desired[slot]);
          CreateStep(before, was, existing, desired, done, made, slot, id);
          made := made[slot := id];
        }
        result := result.(created := result.created + [slot]);
      } else {
        LookedUp(was, device, existing, slot);
        if !dryRun {
          UpdateStep(box.items, was, device, existing, desired, done, made, slot);
        }
        if Matches(box.items[existing[slot]], desired[slot]) {
          result := result.(kept := result.kept + [slot]);
        } else {
          if !dryRun {
            box.Update(existing[slot], desired[slot]);
          }
          result := result.(updated := result.updated + [slot]);
        }
      }
      done := done + {slot};
    }
    assert slots[..|slots|] == slots;
    assert done == desired.Keys;
  }

  lemma NoSlots(items: Items, existing: map<string, ItemId>, desired: map<string, Payload>)
    ensures UpsertLists(items, existing, desired, []) == SyncResult([], [], [], [])
  {
  }

  lemma NothingDone(was: Items, existing: map<string, ItemId>, desired: map<string, Payload>)
    ensures Synced(was, was, existing, desired, {}, {}, map[])
  {
  }

  /** Deletes the discovered items the placements no longer claim. */
  method DeleteUnclaimed(box: NetBox, device: int, names: seq<string>, desired: map<string, Payload>,
      existing: map<string, ItemId>, dryRun: bool, ghost was: Items, ghost made: map<string, ItemId>)
    returns (deleted: seq<string>)
    requires box.Valid() && IsLookup(was, device, existing)
    requires NoDuplicates(names) && forall n :: n in names <==> n in existing
    requires dryRun ==> box.items == was
    requires !dryRun ==> Synced(box.items, was, existing, desired, desired.Keys, {}, made)
    modifies box
    ensures box.Valid()
    ensures forall s :: s in deleted <==> s in existing && s !in desired
    ensures NoDuplicates(deleted)
    ensures dryRun ==> box.items == was
    ensures !dryRun ==> Synced(box.items, was, existing, desired, desired.Keys, existing.Keys - desired.Keys, made)
  {
    hide IsLookup, Synced;
    deleted := [];
    ghost var gone: set<string> := {};
    for i := 0 to |names|
      invariant box.Valid()
      invariant forall s :: s in deleted <==> s in names[..i] && s !in desired
      invariant NoDuplicates(deleted)
      invariant forall s :: s in gone <==> s in deleted
      invariant dryRun ==> box.items == was
      invariant !dryRun ==> Synced(box.items, was, existing, desired, desired.Keys, gone, made)
    {
      var name := names[i];
      assert name in names && name !in names[..i];
      assert names[..i + 1] == names[..i] + [name];
      if name !in desired {
        if !dryRun {
          DeleteStep(box.items, was, device, existing, desired, desired.Keys, gone, made, name);
          box.Delete(existing[name]);
        }
        deleted := deleted + [name];
        gone := gone + {name};
      }
    }
    assert names[..|names|] == names;
    assert gone == existing.Keys - desired.Keys;
  }

  /**
   The sync. `existing` is the item it went by for each name. Its lists tell apart the desired slots
   that were missing, stale and up to date, and the names that were unclaimed, each once; a dry run
   gives the same lists and writes nothing. Items of other devices and items a person entered are not
   touched, and the items converge exactly when each discovered one had a name of its own.
   */
  method SyncInventoryItems(box: NetBox, device: int, placements: seq<PartPlacement>, dryRun: bool)
    returns (result: SyncResult, ghost existing: map<string, ItemId>, ghost made: map<string, ItemId>)
    requires box.Valid()
    modifies box
    ensures box.Valid() && IsLookup(old(box.items), device, existing)
    ensures Buckets(result, old(box.items), existing, Desired(placements, device))
    ensures dryRun ==> box.items == old(box.items)
    ensures !dryRun ==> IsSync(box.items, old(box.items), existing, Desired(placements, device), made)
    ensures forall id :: id in old(box.items) ==>
              var item := old(box.items)[id];
              item.device != device || !item.discovered ==> id in box.items && box.items[id] == item
    ensures forall s :: s in result.kept <==>
              s in existing && ShowsLast(old(box.items), existing[s], placements, s, device)
    ensures forall s :: s in result.updated <==>
              exists i :: LastFor(placements, s, i) && s in existing
                && !IsUpToDate(old(box.items), existing[s], BuildPayload(placements[i], device))
    ensures !dryRun ==> (ShowsPlacements(box.items, device, placements) <==> Canonical(old(box.items), device))
    ensures !dryRun ==> (Converged(box.items, device, Desired(placements, device)) <==>
          Canonical(old(box.items), device))
  {
    hide Converged, Canonical, Synced, IsLookup, Buckets, ShowsPlacements, ShowsLast, IsUpToDate, BuildPayload;
    ghost var was := box.items;
    var slots, desired := BuildDesired(placements, device);
    DesiredNames(placements, device);
    var names, found := IndexByName(box, device);
    existing := found;
    result, made := UpsertSlots(box, device, slots, desired, found, dryRun);
    var deleted := DeleteUnclaimed(box, device, names, desired, found, dryRun, was, made);
    result := result.(deleted := deleted);
    ListsAreBuckets(result, was, device, existing, desired, slots);
    if !dryRun {
      OthersUntouched(box.items, was, device, existing, desired, made);
      ConvergesIffCanonical(box.items, was, device, existing, placements, made);
      ConvergedShowsPlacements(box.items, device, placements);
    }
    BucketsSay(result, was, device, existing, placements);
  }

  /** A complete sync: every desired slot done and every unclaimed name gone. */
  ghost predicate IsSync(items: Items, was: Items, existing: map<string, ItemId>, desired: map<string, Payload>,
      made: map<string, ItemId>) {
    Synced(items, was, existing, desired, desired.Keys, existing.Keys - desired.Keys, made)
  }

  lemma ListsAreBuckets(result: SyncResult, items: Items, device: int, existing: map<string, ItemId>,
      desired: map<string, Payload>, slots: seq<string>)
    requires IsLookup(items, device, existing)
    requires NoDuplicates(slots) && forall s :: s in slots <==> s in desired
    requires result.(deleted := []) == UpsertLists(items, existing, desired, slots)
    requires forall s :: s in result.deleted <==> s in existing && s !in desired
    requires NoDuplicates(result.deleted)
    ensures Buckets(result, items, existing, desired)
  {
    hide Select, Matches;
    Selected(items, existing, desired, slots, Missing);
    Selected(items, existing, desired, slots, Stale);
    Selected(items, existing, desired, slots, Current);
  }

  // ---------------------------------------------------------------- convergence

  /** The discovered items of the device are the desired placements, one for one, on every compared field. */
  ghost predicate Converged(items: Items, device: int, desired: map<string, Payload>) {
    && (forall id :: id in items && Ours(items[id], device) ==>
          items[id].name.Some? && items[id].name.value in desired && Matches(items[id], desired[items[id].name.value]))
    && NamesUnique(items, device)
    && (forall s :: s in desired ==> Present(items, device, s))
  }

  ghost predicate Present(items: Items, device: int, name: string) {
    exists id :: id in items && Ours(items[id], device) && items[id].name == Some(name)
  }

  ghost predicate NamesUnique(items: Items, device: int) {
    forall a, b :: a in items && b in items && Ours(items[a], device) && Ours(items[b], device) ==>
      items[a].name == items[b].name ==> a == b
  }

  /** What NetBox promises of a device's items: each has a name, and no two the same. */
  ghost predicate Canonical(items: Items, device: int) {
    && (forall id :: id in items && Ours(items[id], device) ==> items[id].name.Some?)
    && NamesUnique(items, device)
  }

  /** The item is there, was discovered, and shows the payload; a missing field counts as empty. */
  ghost predicate IsUpToDate(items: Items, id: ItemId, p: Payload) {
    && id in items && items[id].discovered
    && items[id].name.GetOr("") == p.name && items[id].partId.GetOr("") == p.partId
    && items[id].serial.GetOr("") == p.serial && items[id].description.GetOr("") == p.description
  }

  /** Every discovered item of the device shows the last placement of its slot, and every slot has exactly one. */
  ghost predicate ShowsPlacements(items: Items, device: int, placements: seq<PartPlacement>) {
    && (forall id :: id in items && items[id].device == device && items[id].discovered ==>
          items[id].name.Some? && ShowsLast(items, id, placements, items[id].name.value, device))
    && NamesUnique(items, device)
    && (forall i :: 0 <= i < |placements| ==> Present(items, device, placements[i].slot))
  }

  ghost predicate ShowsLast(items: Items, id: ItemId, placements: seq<PartPlacement>, slot: string, device: int) {
    exists i :: LastFor(placements, slot, i) && IsUpToDate(items, id, BuildPayload(placements[i], device))
  }

  lemma {:induction false} ConvergedShowsPlacements(items: Items, device: int, placements: seq<PartPlacement>)
    ensures Converged(items, device, Desired(placements, device)) <==> ShowsPlacements(items, device, placements)
  {
    hide BuildPayload, NamesUnique, Present;
    var desired := Desired(placements, device);
    forall i | 0 <= i < |placements| ensures placements[i].slot in desired {
      var _ := LastPlacementDecides(placements, device, placements[i].slot);
    }
    forall s | s in desired
      ensures exists i :: 0 <= i < |placements| && placements[i].slot == s
    {
      var i := LastPlacementDecides(placements, device, s);
      SlotOfLast(placements, s, i);
    }
    forall id | id in items && items[id].name.Some?
      ensures items[id].name.value in desired && Matches(items[id], desired[items[id].name.value]) <==>
              ShowsLast(items, id, placements, items[id].name.value, device)
    {
      ShowsSlot(items, id, items[id].name.value, device, placements);
    }
  }

  lemma SlotOfLast(placements: seq<PartPlacement>, slot: string, i: int)
    requires LastFor(placements, slot, i)
    ensures 0 <= i < |placements| && placements[i].slot == slot
    ensures forall j :: LastFor(placements, slot, j) ==> i == j
  {
  }

  lemma ShowsSlot(items: Items, id: ItemId, slot: string, device: int, placements: seq<PartPlacement>)
    ensures var desired := Desired(placements, device);
            slot in desired && id in items && Matches(items[id], desired[slot]) <==>
            ShowsLast(items, id, placements, slot, device)
    ensures var desired := Desired(placements, device);
            slot in desired && !(id in items && Matches(items[id], desired[slot])) <==>
            exists i :: LastFor(placements, slot, i) && !IsUpToDate(items, id, BuildPayload(placements[i], device))
  {
    hide BuildPayload, LastFor;
    var last := LastPlacementDecides(placements, device, slot);
    if slot in Desired(placements, device) {
      SlotOfLast(placements, slot, last);
    } else {
      forall i | LastFor(placements, slot, i) ensures false {
        SlotOfLast(placements, slot, i);
      }
    }
  }

  lemma BucketsSay(result: SyncResult, items: Items, device: int, existing: map<string, ItemId>,
      placements: seq<PartPlacement>)
    requires IsLookup(items, device, existing) && Buckets(result, items, existing, Desired(placements, device))
    ensures forall s :: s in result.kept <==>
              s in existing && ShowsLast(items, existing[s], placements, s, device)
    ensures forall s :: s in result.updated <==>
              exists i :: LastFor(placements, s, i) && s in existing
                && !IsUpToDate(items, existing[s], BuildPayload(placements[i], device))
  {
    hide BuildPayload, LastFor, IsUpToDate, Matches, Desired;
    forall s | s in existing {
      ShowsSlot(items, existing[s], s, device, placements);
    }
  }

  /** Items of other devices and items a person entered are what they were. */
  lemma {:induction false} OthersUntouched(items: Items, was: Items, device: int, existing: map<string, ItemId>,
      desired: map<string, Payload>, made: map<string, ItemId>)
    requires IsLookup(was, device, existing) && IsSync(items, was, existing, desired, made)
    ensures forall id :: id in was && !Ours(was[id], device) ==> id in items && items[id] == was[id]
  {
    hide Matches, Patched, MadeBy;
  }

  /** What is left of the device's items after a sync: the ones gone by, the rest as they stand, and the new ones. */
  lemma {:induction false} Remains(items: Items, was: Items, device: int, existing: map<string, ItemId>,
      desired: map<string, Payload>, made: map<string, ItemId>, id: ItemId)
    requires IsLookup(was, device, existing) && IsSync(items, was, existing, desired, made)
    requires forall s :: s in desired ==> desired[s].device == device && desired[s].name == s
    ensures id in was && Ours(was[id], device) && !(was[id].name.Some? && existing[was[id].name.value] == id) ==>
              id in items && items[id] == was[id]
    ensures id in was && id in items ==>
          items[id].name == was[id].name && (Ours(items[id], device) <==> Ours(was[id], device))
    ensures id in was && Ours(was[id], device) && was[id].name.Some? && existing[was[id].name.value] == id ==>
              if was[id].name.value in desired then id in items && Matches(items[id], desired[was[id].name.value])
                  else id !in items
    ensures id in items && id !in was ==>
              MadeBy(items, made, id) && items[id].name.value in desired && items[id].name.value !in existing
              && Ours(items[id], device) && Matches(items[id], desired[items[id].name.value])
  {
    hide MadeBy, Matches;
    if id in items && id !in was {
      assert MadeBy(items, made, id);
      MadeFor(items, made, id);
    }
  }

  lemma MadeFor(items: Items, made: map<string, ItemId>, id: ItemId)
    requires MadeBy(items, made, id)
    ensures id in items && items[id].name.Some? && items[id].name.value in made && made[items[id].name.value] == id
  {
  }

  lemma {:induction false} SyncedUnique(items: Items, was: Items, device: int, existing: map<string, ItemId>,
      desired: map<string, Payload>, made: map<string, ItemId>)
    requires IsLookup(was, device, existing) && IsSync(items, was, existing, desired, made)
    requires forall s :: s in desired ==> desired[s].device == device && desired[s].name == s
    requires Canonical(was, device)
    ensures NamesUnique(items, device)
  {
    hide Synced, IsSync, Matches, MadeBy;
    forall a, b | a in items && b in items && Ours(items[a], device) && Ours(items[b], device) &&
        items[a].name == items[b].name
      ensures a == b
    {
      Remains(items, was, device, existing, desired, made, a);
      Remains(items, was, device, existing, desired, made, b);
      if a !in was { MadeFor(items, made, a); }
      if b !in was { MadeFor(items, made, b); }
    }
  }

  lemma {:induction false} SyncedPresent(items: Items, was: Items, device: int, existing: map<string, ItemId>,
      desired: map<string, Payload>, made: map<string, ItemId>, slot: string)
    requires IsLookup(was, device, existing) && IsSync(items, was, existing, desired, made)
    requires forall s :: s in desired ==> desired[s].device == device && desired[s].name == s
    requires slot in desired
    ensures Present(items, device, slot)
  {
    if slot in existing {
      Remains(items, was, device, existing, desired, made, existing[slot]);
      assert items[existing[slot]].name == Some(slot);
    } else {
      assert items[made[slot]].name == Some(slot);
    }
  }

  lemma {:induction false} CanonicalConverges(items: Items, was: Items, device: int, existing: map<string, ItemId>,
      desired: map<string, Payload>, made: map<string, ItemId>)
    requires IsLookup(was, device, existing) && IsSync(items, was, existing, desired, made)
    requires forall s :: s in desired ==> desired[s].device == device && desired[s].name == s
    requires Canonical(was, device)
    ensures Converged(items, device, desired)
  {
    SyncedUnique(items, was, device, existing, desired, made);
    forall s | s in desired ensures Present(items, device, s) {
      SyncedPresent(items, was, device, existing, desired, made, s);
    }
    hide Synced, IsSync, Matches, MadeBy, NamesUnique, Present;
    forall id | id in items && Ours(items[id], device)
      ensures items[id].name.Some? && items[id].name.value in desired &&
            Matches(items[id], desired[items[id].name.value])
    {
      Remains(items, was, device, existing, desired, made, id);
      if id in was { CanonicalLooksUp(was, device, existing, id); }
    }
  }

  lemma CanonicalLooksUp(items: Items, device: int, existing: map<string, ItemId>, id: ItemId)
    requires IsLookup(items, device, existing) && Canonical(items, device) && id in items && Ours(items[id], device)
    ensures items[id].name.Some? && items[id].name.value in existing && existing[items[id].name.value] == id
  {
  }

  /** An item the sync could not tell from another, or not name at all, is still there and still wrong. */
  lemma {:induction false} LeftoverBlocks(items: Items, was: Items, device: int, existing: map<string, ItemId>,
      desired: map<string, Payload>, made: map<string, ItemId>, id: ItemId)
    requires IsLookup(was, device, existing) && IsSync(items, was, existing, desired, made)
    requires forall s :: s in desired ==> desired[s].device == device && desired[s].name == s
    requires id in was && Ours(was[id], device) && !(was[id].name.Some? && existing[was[id].name.value] == id)
    ensures !Converged(items, device, desired)
  {
    hide Synced, IsSync, Matches, MadeBy;
    Remains(items, was, device, existing, desired, made, id);
    if was[id].name.Some? && was[id].name.value in desired {
      Remains(items, was, device, existing, desired, made, existing[was[id].name.value]);
    }
  }

  /**
   After a sync the discovered items are the desired placements exactly when, before it, every
   discovered item of the device had a name of its own. NetBox itself keeps names unique, so the sync
   converges in one run; without that, the item it did not go by stays behind.
   */
  lemma {:induction false} ConvergesIffCanonical(items: Items, was: Items, device: int, existing: map<string, ItemId>,
      placements: seq<PartPlacement>, made: map<string, ItemId>)
    requires IsLookup(was, device, existing) && IsSync(items, was, existing, Desired(placements, device), made)
    ensures Converged(items, device, Desired(placements, device)) <==> Canonical(was, device)
  {
    var desired := Desired(placements, device);
    DesiredNames(placements, device);
    if Canonical(was, device) {
      CanonicalConverges(items, was, device, existing, desired, made);
    } else {
      hide Synced, IsSync, Converged;
      if id :| id in was && Ours(was[id], device) && was[id].name == None {
        LeftoverBlocks(items, was, device, existing, desired, made, id);
      } else {
        var a, b :| a in was && b in was && Ours(was[a], device) && Ours(was[b], device) &&
            was[a].name == was[b].name && a != b;
        LeftoverBlocks(items, was, device, existing, desired, made, if existing[was[a].name.value] == a then b else a);
      }
    }
  }

  /** A second run on converged items reports every slot unchanged and leaves everything as it is. */
  lemma {:induction false} SecondRunIsQuiet(items: Items, after: Items, device: int, existing: map<string, ItemId>,
      desired: map<string, Payload>, made: map<string, ItemId>, result: SyncResult)
    requires Converged(items, device, desired) && IsLookup(items, device, existing)
    requires Buckets(result, items, existing, desired) && IsSync(after, items, existing, desired, made)
    ensures result.created == [] && result.updated == [] && result.deleted == []
    ensures forall s :: s in result.kept <==> s in desired
    ensures after == items
  {
    hide Matches, Patched, Created;
    forall s | s in desired ensures s in existing && Matches(items[existing[s]], desired[s]) {
      assert Present(items, device, s);
    }
    assert forall s :: s in existing ==> s in desired;
    NoneIn(result.created);
    NoneIn(result.updated);
    NoneIn(result.deleted);
    assert made == map[];
    forall id | id in items ensures id in after && after[id] == items[id] {
    }
  }

  lemma NoneIn(s: seq<string>)
    ensures (forall x :: x !in s) ==> s == []
  {
    if s != [] { assert s[0] in s; }
  }
}
