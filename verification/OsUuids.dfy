/** Taking the os_uuid keys out of a nested device description and putting them back
    (init_scan_service.py). */
module OsUuids {
  import opened Wrappers

  // The os_uuid key of one dictionary: missing, null, or a value.
  datatype Os = Absent | Null | Id(id: string)

  datatype Item = Item(fields: string, os: Os)

  // A storage may or may not have a partition list.
  datatype Storage = Storage(item: Item, parts: Option<seq<Item>>)

  datatype Component = Cpu | Memory | Nic | Gpu

  datatype Device = Device(item: Item, components: map<Component, seq<Item>>, storages: Option<seq<Storage>>)

  datatype Ids = Ids(
    device: Option<Os>, components: map<Component, seq<Os>>, storages: Option<seq<Os>>, parts: seq<seq<Os>>)

  // dict.pop(key, None): a missing key reads as null.
  function Popped(os: Os): Os {
    if os == Absent then Null else os
  }

  function Strip(i: Item): Item {
    i.(os := Absent)
  }

  function StripAll(items: seq<Item>): seq<Item> {
    seq(|items|, k requires 0 <= k < |items| => Strip(items[k]))
  }

  function IdsOf(items: seq<Item>): seq<Os> {
    seq(|items|, k requires 0 <= k < |items| => Popped(items[k].os))
  }

  function StripStorage(s: Storage): Storage {
    Storage(Strip(s.item), if s.parts.Some? then Some(StripAll(s.parts.value)) else None)
  }

  function StripStorages(storages: seq<Storage>): seq<Storage> {
    seq(|storages|, j requires 0 <= j < |storages| => StripStorage(storages[j]))
  }

  function StorageIds(storages: seq<Storage>): seq<Os> {
    seq(|storages|, j requires 0 <= j < |storages| => Popped(storages[j].item.os))
  }

  // One list per storage that has partitions; the others leave no gap.
  function PartLists(storages: seq<Storage>): seq<seq<Os>> {
    if storages == [] then []
    else
      var last, rest := storages[|storages| - 1], PartLists(storages[..|storages| - 1]);
      if last.parts.Some? then rest + [IdsOf(last.parts.value)] else rest
  }

  function StripDevice(d: Device): Device {
    Device(Strip(d.item),
           map c | c in d.components :: StripAll(d.components[c]),
           if d.storages.Some? then Some(StripStorages(d.storages.value)) else None)
  }

  function Extract(d: Device): Ids {
    Ids(if d.item.os == Absent then None else Some(d.item.os),
        map c | c in d.components :: IdsOf(d.components[c]),
        if d.storages.Some? then Some(StorageIds(d.storages.value)) else None,
        if d.storages.Some? then PartLists(d.storages.value) else [])
  }

  function Restore(items: seq<Item>, ids: seq<Os>): seq<Item> {
    seq(|items|, k requires 0 <= k < |items| => items[k].(os := if k < |ids| then ids[k] else Null))
  }

  // The j-th storage takes the j-th partition list.
  function RestoreStorages(storages: seq<Storage>, ids: seq<Os>, parts: seq<seq<Os>>): seq<Storage> {
    seq(|storages|, j requires 0 <= j < |storages| =>
      Storage(storages[j].item.(os := if j < |ids| then ids[j] else Null),
              if storages[j].parts.Some? && j < |parts|
              then Some(Restore(storages[j].parts.value, parts[j])) else storages[j].parts))
  }

  // Empty values are not put back.
  predicate Truthy(os: Option<Os>) {
    os.Some? && os.value.Id? && os.value.id != ""
  }

  function Inject(d: Device, ids: Ids): Device {
    Device(if Truthy(ids.device) then d.item.(os := ids.device.value) else d.item,
           map c | c in d.components ::
             if c in ids.components && ids.components[c] != []
             then Restore(d.components[c], ids.components[c]) else d.components[c],
           if d.storages.Some? && ids.storages.Some? && ids.storages.value != []
           then Some(RestoreStorages(d.storages.value, ids.storages.value, ids.parts)) else d.storages)
  }

  // Nothing but the os_uuid keys is taken out, and all of them are.
  ghost predicate AllStripped(items: seq<Item>, stripped: seq<Item>) {
    |stripped| == |items| && forall k :: 0 <= k < |items| ==> stripped[k] == Item(items[k].fields, Absent)
  }

  lemma StrippedExactly(d: Device)
    ensures var s := StripDevice(d);
            && s.item == Item(d.item.fields, Absent)
            && s.components.Keys == d.components.Keys
            && (forall c :: c in d.components ==> AllStripped(d.components[c], s.components[c]))
            && (s.storages.Some? <==> d.storages.Some?)
            && (d.storages.Some? ==>
                  && |s.storages.value| == |d.storages.value|
                  && forall j :: 0 <= j < |d.storages.value| ==>
                       var before, after := d.storages.value[j], s.storages.value[j];
                       && after.item == Item(before.item.fields, Absent)
                       && (after.parts.Some? <==> before.parts.Some?)
                       && (before.parts.Some? ==> AllStripped(before.parts.value, after.parts.value)))
  {
  }

  // The loops of the extraction.
  method ExtractItems(items: seq<Item>) returns (stripped: seq<Item>, ids: seq<Os>)
    ensures stripped == StripAll(items) && ids == IdsOf(items)
  {
    stripped, ids := [], [];
    for k := 0 to |items|
      invariant stripped == StripAll(items[..k]) && ids == IdsOf(items[..k])
    {
      ids := ids + [Popped(items[k].os)];
      stripped := stripped + [Strip(items[k])];
    }
    assert items[..|items|] == items;
  }

  method ExtractStorages(storages: seq<Storage>) returns (stripped: seq<Storage>, ids: seq<Os>, parts: seq<seq<Os>>)
    ensures stripped == StripStorages(storages) && ids == StorageIds(storages) && parts == PartLists(storages)
  {
    stripped, ids, parts := [], [], [];
    for j := 0 to |storages|
      invariant stripped == StripStorages(storages[..j]) && ids == StorageIds(storages[..j])
      invariant parts == PartLists(storages[..j])
    {
      var s := storages[j];
      assert storages[..j + 1][..j] == storages[..j];
      ids := ids + [Popped(s.item.os)];
      var left := None;
      if s.parts.Some? {
        var items, own := ExtractItems(s.parts.value);
        left := Some(items);
        parts := parts + [own];
      }
      stripped := stripped + [Storage(Strip(s.item), left)];
    }
    assert storages[..|storages|] == storages;
  }

  // ---------------------------------------------------------------------------------------------
  // When the round trip gives the description back
  // ---------------------------------------------------------------------------------------------

  ghost predicate RoundTrips(d: Device) {
    Inject(StripDevice(d), Extract(d)) == d
  }

  ghost predicate AllCarry(items: seq<Item>) {
    forall k :: 0 <= k < |items| ==> items[k].os != Absent
  }

  // Every item carries the key, and the device has either no key or a proper value.
  ghost predicate Carries(d: Device) {
    && (d.item.os == Absent || Truthy(Some(d.item.os)))
    && (forall c :: c in d.components ==> AllCarry(d.components[c]))
    && (d.storages.Some? ==> StoragesCarry(d.storages.value))
  }

  ghost predicate StoragesCarry(storages: seq<Storage>) {
    forall j :: 0 <= j < |storages| ==>
      storages[j].item.os != Absent && (storages[j].parts.Some? ==> AllCarry(storages[j].parts.value))
  }

  // A storage without a partition list is followed by no storage with partitions.
  ghost predicate PartitionsFirst(storages: seq<Storage>) {
    forall i, j :: 0 <= i < j < |storages| && storages[j].parts.Some? && storages[j].parts.value != []
      ==> storages[i].parts.Some?
  }

  lemma RestoreStripped(items: seq<Item>)
    requires AllCarry(items)
    ensures Restore(StripAll(items), IdsOf(items)) == items
  {
  }

  // Partition list j belongs to storage j as long as every storage so far has one.
  lemma {:induction false} ListOf(storages: seq<Storage>, j: nat)
    requires j < |storages| && forall i :: 0 <= i <= j ==> storages[i].parts.Some?
    ensures j < |PartLists(storages)| && PartLists(storages)[j] == IdsOf(storages[j].parts.value)
    ensures j == |storages| - 1 ==> |PartLists(storages)| == |storages|
  {
    var before := storages[..|storages| - 1];
    if j < |storages| - 1 {
      ListOf(before, j);
    } else if j > 0 {
      ListOf(before, j - 1);
    }
  }

  ghost predicate StoragesRoundTrip(storages: seq<Storage>) {
    RestoreStorages(StripStorages(storages), StorageIds(storages), PartLists(storages)) == storages
  }

  lemma PrefixRoundTrips(storages: seq<Storage>)
    requires StoragesCarry(storages) && PartitionsFirst(storages)
    ensures StoragesRoundTrip(storages)
  {
    var restored := RestoreStorages(StripStorages(storages), StorageIds(storages), PartLists(storages));
    forall j | 0 <= j < |storages| ensures restored[j] == storages[j] {
      if storages[j].parts.Some? && storages[j].parts.value != [] {
        ListOf(storages, j);
        RestoreStripped(storages[j].parts.value);
      } else if storages[j].parts.Some? {
        assert restored[j].parts.value == [];
      }
    }
  }

  lemma CarryingRoundTrips(d: Device)
    requires Carries(d) && (d.storages.Some? ==> PartitionsFirst(d.storages.value))
    ensures RoundTrips(d)
  {
    forall c | c in d.components ensures Restore(StripAll(d.components[c]), IdsOf(d.components[c])) == d.components[c] {
      RestoreStripped(d.components[c]);
    }
    if d.storages.Some? {
      PrefixRoundTrips(d.storages.value);
    }
  }

  // What comes back carries the key, because a missing one is restored as null.
  lemma RestoredCarry(items: seq<Item>)
    requires Restore(StripAll(items), IdsOf(items)) == items
    ensures AllCarry(items)
  {
    forall k | 0 <= k < |items| ensures items[k].os != Absent {
      assert Restore(StripAll(items), IdsOf(items))[k].os == Popped(items[k].os);
    }
  }

  lemma RestoredStoragesCarry(storages: seq<Storage>)
    requires PartitionsFirst(storages) && StoragesRoundTrip(storages)
    ensures StoragesCarry(storages)
  {
    var restored := RestoreStorages(StripStorages(storages), StorageIds(storages), PartLists(storages));
    forall j | 0 <= j < |storages|
      ensures storages[j].item.os != Absent && (storages[j].parts.Some? ==> AllCarry(storages[j].parts.value))
    {
      assert restored[j].item.os == Popped(storages[j].item.os);
      if storages[j].parts.Some? && storages[j].parts.value != [] {
        ListOf(storages, j);
        assert restored[j].parts == storages[j].parts;
        RestoredCarry(storages[j].parts.value);
      }
    }
  }

  // Main result: with the partitions first, a description comes back exactly when every item of it
  // carries the key and the device has either no key or a proper value.
  lemma RoundTripsIffCarries(d: Device)
    requires d.storages.Some? ==> PartitionsFirst(d.storages.value)
    ensures RoundTrips(d) <==> Carries(d)
  {
    if Carries(d) {
      CarryingRoundTrips(d);
    }
    if RoundTrips(d) {
      forall c | c in d.components ensures AllCarry(d.components[c]) {
        if d.components[c] != [] {
          ComponentRestored(d, c);
          RestoredCarry(d.components[c]);
        }
      }
      if d.storages.Some? && d.storages.value != [] {
        RestoredStoragesCarry(d.storages.value);
      }
    }
  }

  lemma ComponentRestored(d: Device, c: Component)
    requires RoundTrips(d) && c in d.components && d.components[c] != []
    ensures Restore(StripAll(d.components[c]), IdsOf(d.components[c])) == d.components[c]
  {
    assert Inject(StripDevice(d), Extract(d)).components[c] == d.components[c];
  }

  // --- The condition on the storages is exact, shape by shape ---------------------------------------

  ghost predicate SameShape(a: seq<Storage>, b: seq<Storage>) {
    && |a| == |b|
    && forall j :: 0 <= j < |a| ==>
         && (a[j].parts.Some? <==> b[j].parts.Some?)
         && (a[j].parts.Some? ==> |a[j].parts.value| == |b[j].parts.value|)
  }

  ghost predicate ShapeRoundTrips(storages: seq<Storage>) {
    forall t :: SameShape(storages, t) && StoragesCarry(t) ==> StoragesRoundTrip(t)
  }

  // Main result: the ids of every description of a given shape come back exactly when, in that shape,
  // no storage without a partition list precedes one with partitions.
  lemma ShapeRoundTripsIff(storages: seq<Storage>)
    ensures ShapeRoundTrips(storages) <==> PartitionsFirst(storages)
  {
    if PartitionsFirst(storages) {
      forall t | SameShape(storages, t) && StoragesCarry(t) ensures StoragesRoundTrip(t) {
        PrefixRoundTrips(t);
      }
    } else {
      var i, j :| 0 <= i < j < |storages| && storages[i].parts.None?
                  && storages[j].parts.Some? && storages[j].parts.value != [];
      MarkIsLost(storages, i, j);
      assert SameShape(storages, Marked(storages, j)) && StoragesCarry(Marked(storages, j));
    }
  }

  lemma MarkIsLost(storages: seq<Storage>, i: nat, j: nat)
    requires i < j < |storages| && storages[i].parts.None?
    requires storages[j].parts.Some? && storages[j].parts.value != []
    ensures !StoragesRoundTrip(Marked(storages, j))
  {
    var t := Marked(storages, j);
    FewerLists(t, i, j + 1);
    ListsWithoutMark(t, j + 1);
    var first := RestoreStorages(StripStorages(t), StorageIds(t), PartLists(t))[j].parts.value[0];
    assert first.os != Id("marked") by {
      if j < |PartLists(t)| {
        assert Id("marked") !in PartLists(t)[j];
      }
    }
    assert t[j].parts.value[0].os == Id("marked");
  }

  // Every id is "plain" except that of the first partition of storage j.
  function Marked(storages: seq<Storage>, j: nat): seq<Storage> {
    seq(|storages|, n requires 0 <= n < |storages| =>
      Storage(Item("", Id("plain")),
              if storages[n].parts.None? then None
              else Some(seq(|storages[n].parts.value|,
                            k => Item("", if n == j && k == 0 then Id("marked") else Id("plain"))))))
  }

  // With a gap at i, fewer than n of the first n storages have a list.
  lemma {:induction false} FewerLists(t: seq<Storage>, i: nat, n: nat)
    requires i < n <= |t| && t[i].parts.None?
    ensures |PartLists(t[..n])| < n
  {
    assert t[..n][..n - 1] == t[..n - 1];
    if i < n - 1 {
      FewerLists(t, i, n - 1);
    } else {
      AtMostOneEach(t[..n - 1]);
    }
  }

  lemma {:induction false} AtMostOneEach(t: seq<Storage>)
    ensures |PartLists(t)| <= |t|
  {
    if t != [] {
      AtMostOneEach(t[..|t| - 1]);
    }
  }

  // The lists after those of the first n storages belong to later storages.
  lemma {:induction false} ListsWithoutMark(t: seq<Storage>, n: nat)
    requires n <= |t|
    requires forall m :: n <= m < |t| && t[m].parts.Some? ==>
               forall k :: 0 <= k < |t[m].parts.value| ==> t[m].parts.value[k].os == Id("plain")
    ensures |PartLists(t[..n])| <= |PartLists(t)|
    ensures forall m :: |PartLists(t[..n])| <= m < |PartLists(t)| ==> Id("marked") !in PartLists(t)[m]
  {
    if n == |t| {
      assert t[..n] == t;
    } else {
      assert t[..|t| - 1][..n] == t[..n];
      ListsWithoutMark(t[..|t| - 1], n);
    }
  }
}
