/** The household's lists as writes change them, with each group's cached device count, from
    `src/lib/household-state.ts`. */
module HouseholdState {
  import opened Picking
  import opened Wrappers

  datatype Group = Group(id: nat, name: string, deviceCount: nat)

  datatype Device = Device(mac: nat, groupId: Option<nat>, isAssigned: bool, name: string)

  datatype Lists = Lists(groups: seq<Group>, devices: seq<Device>)

  /** The parts of a write's answer the lists take. */
  datatype Result = Result(removedGroupId: Option<nat>, device: Option<Device>, group: Option<Group>)

  function FindDevice(devices: seq<Device>, mac: nat): Option<Device> {
    if devices == [] then None else if devices[0].mac == mac then Some(devices[0]) else FindDevice(devices[1..], mac)
  }

  /** `group` in place of the first with its id, or at the end. */
  function UpsertGroup(groups: seq<Group>, group: Group): seq<Group> {
    if groups == [] then [group]
    else if groups[0].id == group.id then [group] + groups[1..]
    else [groups[0]] + UpsertGroup(groups[1..], group)
  }

  function UpsertDevice(devices: seq<Device>, device: Device): seq<Device> {
    if devices == [] then [device]
    else if devices[0].mac == device.mac then [device] + devices[1..]
    else [devices[0]] + UpsertDevice(devices[1..], device)
  }

  function Shifted(group: Group, from: Option<nat>, to: Option<nat>): Group {
    var less := if from == Some(group.id) then (if group.deviceCount > 0 then group.deviceCount - 1 else 0) else group.deviceCount;
    group.(deviceCount := if to == Some(group.id) then less + 1 else less)
  }

  function ShiftAll(groups: seq<Group>, from: Option<nat>, to: Option<nat>): seq<Group> {
    if groups == [] then [] else [Shifted(groups[0], from, to)] + ShiftAll(groups[1..], from, to)
  }

  function ShiftDeviceCount(groups: seq<Group>, from: Option<nat>, to: Option<nat>): seq<Group> {
    if from == to then groups else ShiftAll(groups, from, to)
  }

  function Placed(device: Device, groupId: Option<nat>): Device {
    device.(groupId := groupId, isAssigned := groupId.Some?)
  }

  function Place(devices: seq<Device>, mac: nat, groupId: Option<nat>): seq<Device> {
    if devices == [] then []
    else [if devices[0].mac == mac then Placed(devices[0], groupId) else devices[0]] + Place(devices[1..], mac, groupId)
  }

  function GroupOf(device: Option<Device>): Option<nat> {
    if device.Some? then device.value.groupId else None
  }

  function AssignDeviceLocally(s: Lists, mac: nat, groupId: Option<nat>): Lists {
    Lists(ShiftDeviceCount(s.groups, GroupOf(FindDevice(s.devices, mac)), groupId), Place(s.devices, mac, groupId))
  }

  function Without(devices: seq<Device>, mac: nat): seq<Device> {
    if devices == [] then []
    else if devices[0].mac == mac then Without(devices[1..], mac)
    else [devices[0]] + Without(devices[1..], mac)
  }

  function RemoveDeviceLocally(s: Lists, mac: nat): Lists {
    var current := FindDevice(s.devices, mac);
    if current.None? then s
    else Lists(ShiftDeviceCount(s.groups, current.value.groupId, None), Without(s.devices, mac))
  }

  function OtherGroups(groups: seq<Group>, id: nat): seq<Group> {
    if groups == [] then []
    else if groups[0].id == id then OtherGroups(groups[1..], id)
    else [groups[0]] + OtherGroups(groups[1..], id)
  }

  function Released(devices: seq<Device>, id: nat): seq<Device> {
    if devices == [] then []
    else [if devices[0].groupId == Some(id) then Placed(devices[0], None) else devices[0]] + Released(devices[1..], id)
  }

  function RemoveGroupLocally(s: Lists, id: nat): Lists {
    Lists(OtherGroups(s.groups, id), Released(s.devices, id))
  }

  function TakeDevice(s: Lists, device: Device): Lists {
    Lists(ShiftDeviceCount(s.groups, GroupOf(FindDevice(s.devices, device.mac)), device.groupId), UpsertDevice(s.devices, device))
  }

  function ApplyMutationResult(s: Lists, result: Result): Lists {
    var next := if result.removedGroupId.Some? then RemoveGroupLocally(s, result.removedGroupId.value) else s;
    var taken := if result.device.Some? then TakeDevice(next, result.device.value) else next;
    if result.group.Some? then taken.(groups := UpsertGroup(taken.groups, result.group.value)) else taken
  }

  // The count agrees with the list.

  function Points(groupId: Option<nat>, id: nat): nat {
    if groupId == Some(id) then 1 else 0
  }

  /** How many devices point at the group. */
  function Pointing(devices: seq<Device>, id: nat): nat {
    if devices == [] then 0 else Points(devices[0].groupId, id) + Pointing(devices[1..], id)
  }

  ghost predicate Agrees(s: Lists) {
    forall k :: 0 <= k < |s.groups| ==> s.groups[k].deviceCount == Pointing(s.devices, s.groups[k].id)
  }

  ghost predicate UniqueMacs(devices: seq<Device>) {
    forall i, j :: 0 <= i < j < |devices| ==> devices[i].mac != devices[j].mac
  }

  ghost predicate Sound(s: Lists) {
    UniqueMacs(s.devices) && Agrees(s)
  }

  lemma {:induction false} FindDeviceIs(devices: seq<Device>, mac: nat)
    ensures FindDevice(devices, mac).Some? ==> FindDevice(devices, mac).value in devices && FindDevice(devices, mac).value.mac == mac
    ensures FindDevice(devices, mac).None? <==> forall k :: 0 <= k < |devices| ==> devices[k].mac != mac
  {
    if devices != [] {
      FindDeviceIs(devices[1..], mac);
      assert devices == [devices[0]] + devices[1..];
      forall k | 0 < k < |devices| ensures devices[k] == devices[1..][k - 1] {}
    }
  }

  lemma {:induction false} SomeonePoints(devices: seq<Device>, d: Device, id: nat)
    requires d in devices && d.groupId == Some(id)
    ensures Pointing(devices, id) >= 1
  {
    if d != devices[0] {
      assert devices == [devices[0]] + devices[1..];
      SomeonePoints(devices[1..], d, id);
    }
  }

  lemma {:induction false} ShiftAllAt(groups: seq<Group>, from: Option<nat>, to: Option<nat>)
    ensures |ShiftAll(groups, from, to)| == |groups|
    ensures forall k :: 0 <= k < |groups| ==> ShiftAll(groups, from, to)[k] == Shifted(groups[k], from, to)
  {
    if groups != [] { ShiftAllAt(groups[1..], from, to); }
  }

  /** What a shift makes of the counts: one less where the device was, one more where it is. */
  lemma ShiftAt(groups: seq<Group>, from: Option<nat>, to: Option<nat>)
    requires forall k :: 0 <= k < |groups| && from == Some(groups[k].id) ==> groups[k].deviceCount >= 1
    ensures |ShiftDeviceCount(groups, from, to)| == |groups|
    ensures forall k :: 0 <= k < |groups| ==>
              ShiftDeviceCount(groups, from, to)[k] ==
              groups[k].(deviceCount := groups[k].deviceCount + Points(to, groups[k].id) - Points(from, groups[k].id))
  {
    ShiftAllAt(groups, from, to);
  }

  /** The clamp at zero never fires: a group some device points at counts at least that one. */
  lemma ClampNeverFires(s: Lists, mac: nat, k: nat)
    requires Sound(s) && k < |s.groups| && GroupOf(FindDevice(s.devices, mac)) == Some(s.groups[k].id)
    ensures s.groups[k].deviceCount >= 1
  {
    FindDeviceIs(s.devices, mac);
    SomeonePoints(s.devices, FindDevice(s.devices, mac).value, s.groups[k].id);
  }

  /** A shift that follows what the devices do keeps the counts right. */
  lemma ShiftAgrees(s: Lists, mac: nat, to: Option<nat>, devices: seq<Device>)
    requires Sound(s)
    requires forall id :: Pointing(devices, id) == Pointing(s.devices, id) + Points(to, id) - Points(GroupOf(FindDevice(s.devices, mac)), id)
    ensures Agrees(Lists(ShiftDeviceCount(s.groups, GroupOf(FindDevice(s.devices, mac)), to), devices))
  {
    var from := GroupOf(FindDevice(s.devices, mac));
    forall k | 0 <= k < |s.groups| && from == Some(s.groups[k].id) ensures s.groups[k].deviceCount >= 1 { ClampNeverFires(s, mac, k); }
    ShiftAt(s.groups, from, to);
  }

  // What each change does to the devices.

  lemma UniqueTail(devices: seq<Device>)
    requires UniqueMacs(devices) && devices != []
    ensures UniqueMacs(devices[1..]) && FindDevice(devices[1..], devices[0].mac).None?
  {
    FindDeviceIs(devices[1..], devices[0].mac);
    forall k | 0 <= k < |devices[1..]| ensures devices[1..][k].mac != devices[0].mac { assert devices[1..][k] == devices[k + 1]; }
  }

  lemma {:induction false} PlaceCounts(devices: seq<Device>, mac: nat, groupId: Option<nat>, id: nat)
    requires UniqueMacs(devices)
    ensures Pointing(Place(devices, mac, groupId), id) ==
            if FindDevice(devices, mac).None? then Pointing(devices, id)
            else Pointing(devices, id) + Points(groupId, id) - Points(GroupOf(FindDevice(devices, mac)), id)
  {
    if devices != [] {
      UniqueTail(devices);
      PlaceCounts(devices[1..], mac, groupId, id);
    }
  }

  lemma {:induction false} PlaceAt(devices: seq<Device>, mac: nat, groupId: Option<nat>)
    ensures |Place(devices, mac, groupId)| == |devices|
    ensures forall k :: 0 <= k < |devices| ==>
              Place(devices, mac, groupId)[k] == if devices[k].mac == mac then Placed(devices[k], groupId) else devices[k]
  {
    if devices != [] { PlaceAt(devices[1..], mac, groupId); }
  }

  lemma {:induction false} WithoutAre(devices: seq<Device>, mac: nat)
    ensures forall d :: d in Without(devices, mac) <==> d in devices && d.mac != mac
    ensures FindDevice(devices, mac).None? ==> Without(devices, mac) == devices
  {
    if devices != [] {
      WithoutAre(devices[1..], mac);
      assert devices == [devices[0]] + devices[1..];
    }
  }

  lemma {:induction false} WithoutUnique(devices: seq<Device>, mac: nat)
    requires UniqueMacs(devices)
    ensures UniqueMacs(Without(devices, mac))
  {
    if devices != [] {
      UniqueTail(devices);
      WithoutUnique(devices[1..], mac);
      var rest := Without(devices[1..], mac);
      WithoutAre(devices[1..], mac);
      FindDeviceIs(devices[1..], devices[0].mac);
      forall k | 0 <= k < |rest| ensures rest[k].mac != devices[0].mac {
        assert rest[k] in rest;
        assert rest[k] in devices[1..];
      }
    }
  }

  lemma {:induction false} WithoutCounts(devices: seq<Device>, mac: nat, id: nat)
    requires UniqueMacs(devices)
    ensures Pointing(Without(devices, mac), id) == Pointing(devices, id) - Points(GroupOf(FindDevice(devices, mac)), id)
  {
    if devices != [] {
      UniqueTail(devices);
      if devices[0].mac == mac { WithoutAre(devices[1..], mac); } else { WithoutCounts(devices[1..], mac, id); }
    }
  }

  lemma {:induction false} UpsertCounts(devices: seq<Device>, d: Device, id: nat)
    requires UniqueMacs(devices)
    ensures Pointing(UpsertDevice(devices, d), id) ==
            Pointing(devices, id) + Points(d.groupId, id) - Points(GroupOf(FindDevice(devices, d.mac)), id)
    ensures UniqueMacs(UpsertDevice(devices, d)) && forall e :: e in UpsertDevice(devices, d) ==> e == d || e in devices
  {
    if devices != [] {
      UniqueTail(devices);
      assert devices == [devices[0]] + devices[1..];
      if devices[0].mac != d.mac {
        FindDeviceIs(devices[1..], devices[0].mac);
        UpsertCounts(devices[1..], d, id);
        var rest := UpsertDevice(devices[1..], d);
        forall k | 0 <= k < |rest| ensures rest[k].mac != devices[0].mac {
          assert rest[k] in rest;
        }
      }
    }
  }

  lemma {:induction false} ReleasedCounts(devices: seq<Device>, gone: nat, id: nat)
    ensures Pointing(Released(devices, gone), id) == if id == gone then 0 else Pointing(devices, id)
    ensures |Released(devices, gone)| == |devices| && forall k :: 0 <= k < |devices| ==> Released(devices, gone)[k].mac == devices[k].mac
  {
    if devices != [] { ReleasedCounts(devices[1..], gone, id); }
  }

  lemma {:induction false} OtherGroupsAre(groups: seq<Group>, id: nat)
    ensures forall k :: 0 <= k < |OtherGroups(groups, id)| ==> OtherGroups(groups, id)[k] in groups && OtherGroups(groups, id)[k].id != id
  {
    if groups != [] {
      OtherGroupsAre(groups[1..], id);
      assert groups == [groups[0]] + groups[1..];
    }
  }

  // Every change keeps the counts right.

  ghost predicate HasGroup(groups: seq<Group>, id: nat) {
    exists k :: 0 <= k < |groups| && groups[k].id == id
  }

  /** Assigning keeps the counts right exactly when the device is known, or no listed group is to gain it: an
      unknown device is counted in its group without being there. */
  lemma AssignKeeps(s: Lists, mac: nat, groupId: Option<nat>)
    requires Sound(s)
    ensures UniqueMacs(AssignDeviceLocally(s, mac, groupId).devices)
    ensures Agrees(AssignDeviceLocally(s, mac, groupId)) <==>
              FindDevice(s.devices, mac).Some? || groupId.None? || !HasGroup(s.groups, groupId.value)
  {
    var devices := Place(s.devices, mac, groupId);
    PlaceAt(s.devices, mac, groupId);
    forall id ensures Pointing(devices, id) == if FindDevice(s.devices, mac).None? then Pointing(s.devices, id)
        else Pointing(s.devices, id) + Points(groupId, id) - Points(GroupOf(FindDevice(s.devices, mac)), id) {
      PlaceCounts(s.devices, mac, groupId, id);
    }
    if FindDevice(s.devices, mac).Some? {
      ShiftAgrees(s, mac, groupId, devices);
    } else {
      ShiftAt(s.groups, None, groupId);
      if groupId.Some? && HasGroup(s.groups, groupId.value) {
        var k :| 0 <= k < |s.groups| && s.groups[k].id == groupId.value;
        var after := AssignDeviceLocally(s, mac, groupId);
        assert after.groups[k].deviceCount == s.groups[k].deviceCount + 1;
        assert after.groups[k].id == s.groups[k].id;
      }
    }
  }

  lemma RemoveKeeps(s: Lists, mac: nat)
    requires Sound(s)
    ensures Sound(RemoveDeviceLocally(s, mac))
  {
    WithoutUnique(s.devices, mac);
    forall id ensures Pointing(Without(s.devices, mac), id) == Pointing(s.devices, id) + Points(None, id) - Points(GroupOf(FindDevice(s.devices, mac)), id) {
      WithoutCounts(s.devices, mac, id);
    }
    ShiftAgrees(s, mac, None, Without(s.devices, mac));
  }

  lemma RemoveGroupKeeps(s: Lists, id: nat)
    requires Sound(s)
    ensures Sound(RemoveGroupLocally(s, id))
  {
    OtherGroupsAre(s.groups, id);
    var after := RemoveGroupLocally(s, id);
    ReleasedCounts(s.devices, id, 0);
    forall k | 0 <= k < |after.groups| ensures after.groups[k].deviceCount == Pointing(after.devices, after.groups[k].id) {
      ReleasedCounts(s.devices, id, after.groups[k].id);
      var j :| 0 <= j < |s.groups| && s.groups[j] == after.groups[k];
    }
  }

  lemma TakeKeeps(s: Lists, device: Device)
    requires Sound(s)
    ensures Sound(TakeDevice(s, device))
  {
    UpsertCounts(s.devices, device, 0);
    forall id ensures Pointing(UpsertDevice(s.devices, device), id) ==
        Pointing(s.devices, id) + Points(device.groupId, id) - Points(GroupOf(FindDevice(s.devices, device.mac)), id) {
      UpsertCounts(s.devices, device, id);
    }
    ShiftAgrees(s, device.mac, device.groupId, UpsertDevice(s.devices, device));
  }

  lemma {:induction false} UpsertGroupAgrees(groups: seq<Group>, devices: seq<Device>, group: Group)
    requires Agrees(Lists(groups, devices))
    ensures Agrees(Lists(UpsertGroup(groups, group), devices)) <==> group.deviceCount == Pointing(devices, group.id)
  {
    var after := UpsertGroup(groups, group);
    if groups == [] || groups[0].id == group.id {
      assert after[0] == group;
      if groups != [] { forall k | 0 < k < |after| ensures after[k] == groups[k] {} }
    } else {
      var rest := groups[1..];
      forall k | 0 <= k < |rest| ensures rest[k].deviceCount == Pointing(devices, rest[k].id) { assert rest[k] == groups[k + 1]; }
      UpsertGroupAgrees(rest, devices, group);
      assert after[0] == groups[0] && after[1..] == UpsertGroup(rest, group);
      if Agrees(Lists(after, devices)) {
        forall k | 0 <= k < |after[1..]| ensures after[1..][k].deviceCount == Pointing(devices, after[1..][k].id) { assert after[1..][k] == after[k + 1]; }
      }
      if Agrees(Lists(after[1..], devices)) {
        forall k | 0 <= k < |after| ensures after[k].deviceCount == Pointing(devices, after[k].id) {
          if k > 0 { assert after[k] == after[1..][k - 1]; }
        }
      }
    }
  }

  /** Applying an answer keeps the counts right exactly when any group it brings counts the devices the lists
      then have. */
  lemma ApplyKeeps(s: Lists, result: Result)
    requires Sound(s)
    ensures
      var after := ApplyMutationResult(s, result);
      && UniqueMacs(after.devices)
      && (Agrees(after) <==> (result.group.Some? ==> result.group.value.deviceCount == Pointing(after.devices, result.group.value.id)))
  {
    var next := if result.removedGroupId.Some? then RemoveGroupLocally(s, result.removedGroupId.value) else s;
    if result.removedGroupId.Some? { RemoveGroupKeeps(s, result.removedGroupId.value); }
    var taken := if result.device.Some? then TakeDevice(next, result.device.value) else next;
    if result.device.Some? { TakeKeeps(next, result.device.value); }
    if result.group.Some? { UpsertGroupAgrees(taken.groups, taken.devices, result.group.value); }
  }

  // What the lists hold after each change, index by index.

  ghost predicate FirstAt<T(!new)>(all: seq<T>, same: T -> bool, k: nat) {
    k < |all| && same(all[k]) && forall j :: 0 <= j < k ==> !same(all[j])
  }

  /** `item` stands for the first that is the same one, or last where none is. */
  ghost predicate Stands<T(!new)>(before: seq<T>, after: seq<T>, same: T -> bool, item: T) {
    || (exists k: nat :: FirstAt(before, same, k) && after == before[k := item])
    || ((forall k :: 0 <= k < |before| ==> !same(before[k])) && after == before + [item])
  }

  /** The group of the first device with the address, and none for an address not listed. */
  ghost predicate StandsIn(devices: seq<Device>, mac: nat, from: Option<nat>) {
    || (exists k: nat :: FirstAt(devices, (d: Device) => d.mac == mac, k) && devices[k].groupId == from)
    || ((forall k :: 0 <= k < |devices| ==> devices[k].mac != mac) && from == None)
  }

  /** Every group in its place with its name, counting one less where a device left and one more where it went. */
  ghost predicate Moved(before: seq<Group>, after: seq<Group>, from: Option<nat>, to: Option<nat>) {
    && |after| == |before|
    && forall k :: 0 <= k < |before| ==>
        && after[k].id == before[k].id && after[k].name == before[k].name
        && after[k].deviceCount ==
            var count := before[k].deviceCount;
            if from == to then count
            else if to == Some(before[k].id) then count + 1
            else if from == Some(before[k].id) && count > 0 then count - 1
            else count
  }

  ghost predicate GroupGone(before: Lists, after: Lists, id: nat) {
    && AreThose(before.groups, after.groups, (g: Group) => g.id != id)
    && |after.devices| == |before.devices|
    && forall k :: 0 <= k < |before.devices| ==>
        var d := before.devices[k];
        after.devices[k] == if d.groupId == Some(id) then Device(d.mac, None, false, d.name) else d
  }

  ghost predicate DeviceTaken(before: Lists, after: Lists, device: Device) {
    && (exists from :: StandsIn(before.devices, device.mac, from) && Moved(before.groups, after.groups, from, device.groupId))
    && Stands(before.devices, after.devices, (d: Device) => d.mac == device.mac, device)
  }

  lemma {:induction false} OtherGroupsPicked(groups: seq<Group>, id: nat)
    ensures AreThose(groups, OtherGroups(groups, id), (g: Group) => g.id != id)
  {
    var keep := (g: Group) => g.id != id;
    if groups == [] {
      assert Picked(groups, [], keep, []);
    } else {
      OtherGroupsPicked(groups[1..], id);
      var at :| Picked(groups[1..], OtherGroups(groups[1..], id), keep, at);
      PickedMore(groups, OtherGroups(groups[1..], id), keep, at);
    }
  }

  lemma {:induction false} WithoutPicked(devices: seq<Device>, mac: nat)
    ensures AreThose(devices, Without(devices, mac), (d: Device) => d.mac != mac)
  {
    var keep := (d: Device) => d.mac != mac;
    if devices == [] {
      assert Picked(devices, [], keep, []);
    } else {
      WithoutPicked(devices[1..], mac);
      var at :| Picked(devices[1..], Without(devices[1..], mac), keep, at);
      PickedMore(devices, Without(devices[1..], mac), keep, at);
    }
  }

  lemma {:induction false} ReleasedAt(devices: seq<Device>, id: nat)
    ensures |Released(devices, id)| == |devices|
    ensures forall k :: 0 <= k < |devices| ==>
              Released(devices, id)[k] ==
              if devices[k].groupId == Some(id) then Device(devices[k].mac, None, false, devices[k].name) else devices[k]
  {
    if devices != [] { ReleasedAt(devices[1..], id); }
  }

  lemma StandsLater<T(!new)>(before: seq<T>, after: seq<T>, same: T -> bool, item: T)
    requires before != [] && !same(before[0]) && Stands(before[1..], after, same, item)
    ensures Stands(before, [before[0]] + after, same, item)
  {
    if k: nat :| FirstAt(before[1..], same, k) && after == before[1..][k := item] {
      assert FirstAt(before, same, k + 1);
      assert [before[0]] + after == before[k + 1 := item];
    } else {
      forall k | 0 <= k < |before| ensures !same(before[k]) {
        if k > 0 { assert before[1..][k - 1] == before[k]; }
      }
      assert [before[0]] + after == before + [item];
    }
  }

  lemma {:induction false} UpsertGroupStands(groups: seq<Group>, group: Group)
    ensures Stands(groups, UpsertGroup(groups, group), (g: Group) => g.id == group.id, group)
  {
    var same := (g: Group) => g.id == group.id;
    if groups == [] {
      assert UpsertGroup(groups, group) == groups + [group];
    } else if same(groups[0]) {
      assert FirstAt(groups, same, 0) && UpsertGroup(groups, group) == groups[0 := group];
    } else {
      UpsertGroupStands(groups[1..], group);
      StandsLater(groups, UpsertGroup(groups[1..], group), same, group);
    }
  }

  lemma {:induction false} UpsertDeviceStands(devices: seq<Device>, device: Device)
    ensures Stands(devices, UpsertDevice(devices, device), (d: Device) => d.mac == device.mac, device)
  {
    var same := (d: Device) => d.mac == device.mac;
    if devices == [] {
      assert UpsertDevice(devices, device) == devices + [device];
    } else if same(devices[0]) {
      assert FirstAt(devices, same, 0) && UpsertDevice(devices, device) == devices[0 := device];
    } else {
      UpsertDeviceStands(devices[1..], device);
      StandsLater(devices, UpsertDevice(devices[1..], device), same, device);
    }
  }

  lemma {:induction false} FindDeviceStandsIn(devices: seq<Device>, mac: nat)
    ensures StandsIn(devices, mac, GroupOf(FindDevice(devices, mac)))
  {
    var same := (d: Device) => d.mac == mac;
    if devices != [] {
      if devices[0].mac == mac {
        assert FirstAt(devices, same, 0);
      } else {
        FindDeviceStandsIn(devices[1..], mac);
        if k: nat :| FirstAt(devices[1..], same, k) && devices[1..][k].groupId == GroupOf(FindDevice(devices[1..], mac)) {
          assert FirstAt(devices, same, k + 1) && devices[k + 1] == devices[1..][k];
        } else {
          forall k | 0 <= k < |devices| ensures devices[k].mac != mac {
            if k > 0 { assert devices[1..][k - 1] == devices[k]; }
          }
        }
      }
    }
  }

  lemma ShiftMoves(groups: seq<Group>, from: Option<nat>, to: Option<nat>)
    ensures Moved(groups, ShiftDeviceCount(groups, from, to), from, to)
  {
    ShiftAllAt(groups, from, to);
  }

  /** Assigning leaves every device in its place: the one with the address in its new group, marked assigned
      when there is one, and every other as it was. The groups stay too, with the counts moved. */
  lemma AssignLeaves(s: Lists, mac: nat, groupId: Option<nat>)
    ensures
      var after := AssignDeviceLocally(s, mac, groupId);
      && (exists from :: StandsIn(s.devices, mac, from) && Moved(s.groups, after.groups, from, groupId))
      && |after.devices| == |s.devices|
      && forall k :: 0 <= k < |s.devices| ==>
          var d := s.devices[k];
          after.devices[k] == if d.mac == mac then Device(mac, groupId, groupId != None, d.name) else d
  {
    var from := GroupOf(FindDevice(s.devices, mac));
    FindDeviceStandsIn(s.devices, mac);
    ShiftMoves(s.groups, from, groupId);
    PlaceAt(s.devices, mac, groupId);
  }

  /** Removing a device leaves every other in its order, and takes one off the group it was in; an address not
      listed changes nothing. */
  lemma RemoveLeaves(s: Lists, mac: nat)
    ensures
      var after := RemoveDeviceLocally(s, mac);
      && AreThose(s.devices, after.devices, (d: Device) => d.mac != mac)
      && exists from :: StandsIn(s.devices, mac, from) && Moved(s.groups, after.groups, from, None)
  {
    var from := GroupOf(FindDevice(s.devices, mac));
    FindDeviceStandsIn(s.devices, mac);
    ShiftMoves(s.groups, from, None);
    WithoutPicked(s.devices, mac);
    WithoutAre(s.devices, mac);
  }

  /** Deleting a group leaves every other group in its order as it was, and every device in its place: the
      group's own are in no group and not assigned, every other is as it was. */
  lemma RemoveGroupLeaves(s: Lists, id: nat)
    ensures GroupGone(s, RemoveGroupLocally(s, id), id)
  {
    OtherGroupsPicked(s.groups, id);
    ReleasedAt(s.devices, id);
  }

  /** An answer's removed group goes first, then its device is taken with the counts, then its group as it is;
      a part the answer lacks changes nothing. */
  lemma ApplyLeaves(s: Lists, result: Result)
    ensures exists next, taken :: Applied(s, result, next, taken, ApplyMutationResult(s, result))
  {
    var next := if result.removedGroupId.Some? then RemoveGroupLocally(s, result.removedGroupId.value) else s;
    var taken := if result.device.Some? then TakeDevice(next, result.device.value) else next;
    if result.removedGroupId.Some? { RemoveGroupLeaves(s, result.removedGroupId.value); }
    if result.device.Some? {
      var d := result.device.value;
      FindDeviceStandsIn(next.devices, d.mac);
      ShiftMoves(next.groups, GroupOf(FindDevice(next.devices, d.mac)), d.groupId);
      UpsertDeviceStands(next.devices, d);
    }
    if result.group.Some? { UpsertGroupStands(taken.groups, result.group.value); }
    assert Applied(s, result, next, taken, ApplyMutationResult(s, result));
  }

  ghost predicate Applied(s: Lists, result: Result, next: Lists, taken: Lists, after: Lists) {
    && (if result.removedGroupId.Some? then GroupGone(s, next, result.removedGroupId.value) else next == s)
    && (if result.device.Some? then DeviceTaken(next, taken, result.device.value) else taken == next)
    && (if result.group.Some?
        then after.devices == taken.devices && Stands(taken.groups, after.groups, (g: Group) => g.id == result.group.value.id, result.group.value)
        else after == taken)
  }

  // Whole runs, and what the store relies on.

  datatype Op = Assign(mac: nat, groupId: Option<nat>) | Remove(mac: nat) | RemoveGroup(id: nat) | Apply(result: Result)

  function Do(s: Lists, op: Op): Lists {
    match op
    case Assign(mac, groupId) => AssignDeviceLocally(s, mac, groupId)
    case Remove(mac) => RemoveDeviceLocally(s, mac)
    case RemoveGroup(id) => RemoveGroupLocally(s, id)
    case Apply(result) => ApplyMutationResult(s, result)
  }

  function DoAll(s: Lists, ops: seq<Op>): Lists {
    if ops == [] then s else Do(DoAll(s, ops[..|ops| - 1]), ops[|ops| - 1])
  }

  /** Known devices are assigned, and answers bring no group of their own. */
  ghost predicate Plain(s: Lists, ops: seq<Op>) {
    forall k :: 0 <= k < |ops| ==>
      && (ops[k].Assign? ==> FindDevice(DoAll(s, ops[..k]).devices, ops[k].mac).Some?)
      && (ops[k].Apply? ==> ops[k].result.group.None?)
  }

  /** After any sequence of changes each group's count is the number of devices that point at it. */
  lemma {:induction false} CountsStayRight(s: Lists, ops: seq<Op>)
    requires Sound(s) && Plain(s, ops)
    ensures Sound(DoAll(s, ops))
  {
    if ops != [] {
      var before := ops[..|ops| - 1];
      forall k | 0 <= k < |before| ensures before[k] == ops[k] && before[..k] == ops[..k] {}
      CountsStayRight(s, before);
      var now := DoAll(s, before);
      match ops[|ops| - 1]
      case Assign(mac, groupId) => AssignKeeps(now, mac, groupId);
      case Remove(mac) => RemoveKeeps(now, mac);
      case RemoveGroup(id) => RemoveGroupKeeps(now, id);
      case Apply(result) => ApplyKeeps(now, result);
    }
  }

  lemma {:induction false} PlaceThenUpsert(devices: seq<Device>, mac: nat, groupId: Option<nat>, d: Device)
    requires UniqueMacs(devices) && d.mac == mac
    ensures FindDevice(devices, mac).Some? ==> UpsertDevice(Place(devices, mac, groupId), d) == UpsertDevice(devices, d)
    ensures FindDevice(devices, mac).None? ==> Place(devices, mac, groupId) == devices
    ensures FindDevice(Place(devices, mac, groupId), mac) ==
            if FindDevice(devices, mac).Some? then Some(Placed(FindDevice(devices, mac).value, groupId)) else None
  {
    if devices != [] {
      UniqueTail(devices);
      PlaceThenUpsert(devices[1..], mac, groupId, d);
      assert Place(devices, mac, groupId)[1..] == Place(devices[1..], mac, groupId);
    }
  }

  /** Showing an assignment before the server answers changes nothing in the end: whatever device the answer
      brings, the lists come out as if it alone had been applied. */
  lemma ConfirmingIsEnough(s: Lists, groupId: Option<nat>, d: Device)
    requires Sound(s) && FindDevice(s.devices, d.mac).Some?
    ensures ApplyMutationResult(AssignDeviceLocally(s, d.mac, groupId), Result(None, Some(d), None)) ==
            ApplyMutationResult(s, Result(None, Some(d), None))
  {
    var from := GroupOf(FindDevice(s.devices, d.mac));
    PlaceThenUpsert(s.devices, d.mac, groupId, d);
    AssignKeeps(s, d.mac, groupId);
    var mid := AssignDeviceLocally(s, d.mac, groupId);
    ShiftTwice(s, mid, d.mac, groupId, d.groupId);
  }

  lemma ShiftTwice(s: Lists, mid: Lists, mac: nat, groupId: Option<nat>, to: Option<nat>)
    requires Sound(s) && mid == AssignDeviceLocally(s, mac, groupId) && Sound(mid)
    requires GroupOf(FindDevice(mid.devices, mac)) == groupId
    ensures ShiftDeviceCount(mid.groups, groupId, to) == ShiftDeviceCount(s.groups, GroupOf(FindDevice(s.devices, mac)), to)
  {
    var from := GroupOf(FindDevice(s.devices, mac));
    forall k | 0 <= k < |s.groups| && from == Some(s.groups[k].id) ensures s.groups[k].deviceCount >= 1 { ClampNeverFires(s, mac, k); }
    ShiftAt(s.groups, from, groupId);
    ShiftAt(s.groups, from, to);
    forall k | 0 <= k < |mid.groups| && groupId == Some(mid.groups[k].id) ensures mid.groups[k].deviceCount >= 1 { ClampNeverFires(mid, mac, k); }
    ShiftAt(mid.groups, groupId, to);
  }
}
