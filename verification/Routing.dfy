/**
 The routing table on the heap: sixteen buckets, each a linked list sorted by id. Every method
 is proved against the abstract table of `Forest` and the operations of `TableOps`.
 */
module Routing {
  import opened Devices
  import opened Forest
  import opened TableOps

  class RoutingData {
    var id: DeviceId
    var pid: int
    var deviceType: DeviceType
    var parentId: DeviceId
    var nextHopFd: int
    var next: RoutingData?

    constructor (id: DeviceId, pid: int, deviceType: DeviceType, parentId: DeviceId, nextHopFd: int)
      ensures this.id == id && Data() == Entry(pid, deviceType, parentId, nextHopFd)
    {
      this.id, this.pid, this.deviceType := id, pid, deviceType;
      this.parentId, this.nextHopFd, this.next := parentId, nextHopFd, null;
    }

    ghost function Data(): Entry
      reads this
    {
      Entry(pid, deviceType, parentId, nextHopFd)
    }
  }

  class RoutingTable {
    const buckets: array<RoutingData?>
    /** The node of each recorded id. */
    ghost var nodes: map<DeviceId, RoutingData>
    ghost var repr: set<RoutingData>

    /**
     Each bucket starts at its least id and each node links to the next greater id of its bucket:
     the lists are disjoint, acyclic, strictly sorted, hash-consistent and hold every recorded node.
     */
    ghost predicate Valid()
      reads this, buckets, repr
    {
      && buckets.Length == 16
      && (forall x | x in nodes :: nodes[x] in repr && nodes[x].id == x)
      && (forall b {:trigger buckets[b]} | 0 <= b < 16 :: IsLeast(b, -1, buckets[b]))
      && (forall x {:trigger nodes[x].next} | x in nodes :: IsLeast(Hash(x), x, nodes[x].next))
    }

    /** `r` is the node of the least id above `low` in bucket `b`, or null if there is none. */
    ghost predicate IsLeast(b: int, low: int, r: RoutingData?)
      reads this, repr
    {
      && (r != null ==> IsNode(r) && Hash(r.id) == b && low < r.id)
      && (forall y {:trigger Hash(y)} | y in nodes && Hash(y) == b && low < y :: r != null && r.id <= y)
    }

    /** `n` is the node recorded for its id. */
    ghost predicate IsNode(n: RoutingData)
      reads this, repr
    {
      n in repr && n.id in nodes && nodes[n.id] == n
    }

    /** The abstract table. */
    ghost function Entries(): Table
      requires forall x | x in nodes :: nodes[x] in repr
      reads this, repr
    {
      map x | x in nodes :: nodes[x].Data()
    }

    constructor ()
      ensures Valid() && Entries() == map[] && fresh(buckets)
    {
      buckets := new RoutingData?[16](_ => null);
      nodes, repr := map[], {};
    }

    method Find(id: DeviceId) returns (r: RoutingData?)
      requires Valid()
      ensures Valid() && Entries() == old(Entries())
      ensures r == null <==> id !in nodes
      ensures r != null ==> id in nodes && r == nodes[id]
    {
      r := buckets[Hash(id)];
      while r != null && r.id < id
        invariant r != null ==> IsNode(r) && Hash(r.id) == Hash(id)
        invariant id in nodes ==> r != null && r.id <= id
        decreases if r == null then 0 else 0x1_0000 - r.id
      {
        r := r.next;
      }
      if r != null && r.id == id {
        return;
      }
      r := null;
    }

    /** The next direct child in bucket order, from the beginning when `last` is null. */
    method FindDirect(parentId: DeviceId, last: RoutingData?) returns (r: RoutingData?)
      requires Valid() && (last != null ==> IsNode(last))
      ensures Valid() && Entries() == old(Entries())
      ensures r != null ==> IsNode(r)
      ensures NextChild(Entries(), parentId, if last == null then -1 else Key(last.id)) ==
              if r == null then None else Some(r.id)
    {
      ghost var k := if last == null then -1 else Key(last.id);
      ghost var t := Entries();
      r := last;
      if r != null {
        ScanStart(t, parentId, r.id);
        r := r.next;
      }
      var b := if r != null then Hash(r.id) else if last != null then Hash(last.id) + 1 else 0;
      while b < 16
        invariant 0 <= b <= 16
        invariant r != null ==> b < 16 && IsNode(r) && Hash(r.id) == b && Key(r.id) > k
        invariant r == null ==> k < b * 0x1_0000
        invariant NoneSkipped(t, parentId, k, b, if r == null then -1 else r.id)
      {
        if r == null {
          r := buckets[b];
        }
        while r != null && r.parentId != parentId
          invariant r != null ==> IsNode(r) && Hash(r.id) == b && Key(r.id) > k
          invariant NoneSkipped(t, parentId, k, b, if r == null then 0x1_0000 else r.id)
          decreases if r == null then 0 else 0x1_0000 - r.id
        {
          r := r.next;
        }
        if r != null {
          ScanFound(t, parentId, k, r.id);
          return;
        }
        b := b + 1;
      }
      NextChildUnique(t, parentId, k, None);
      r := null;
    }

    /** The next device of the walk over everything below `parentId`, with no stack and no marks. */
    method FindAll(parentId: DeviceId, last: RoutingData?) returns (r: RoutingData?)
      requires Valid() && Acyclic(Entries()) && (last != null ==> IsNode(last))
      ensures Valid() && Entries() == old(Entries())
      ensures r != null ==> IsNode(r)
      ensures Successor(Entries(), parentId, if last == null then None else Some(last.id)) ==
              if r == null then None else Some(r.id)
    {
      if last == null {
        r := FindDirect(parentId, null);
        return;
      }
      r := FindDirect(last.id, null);
      if r != null {
        return;
      }
      r := FindDirect(last.parentId, last);
      if r != null {
        return;
      }
      ghost var t := Entries();
      ghost var x := last.id;
      ghost var goal := After(t, parentId, x);
      var parent := Find(last.parentId);
      AfterUnfold(t, parentId, x);
      while parent != null && parent.id != parentId
        invariant Valid() && Entries() == t
        invariant parent != null ==> IsNode(parent)
        invariant x in t && t[x].parent in t ==> parent != null && parent.id == t[x].parent
        invariant x in t && t[x].parent !in t ==> parent == null
        invariant x in t
        invariant goal == if parent == null || parent.id == parentId then None else After(t, parentId, t[x].parent)
        decreases Depth(t, x)
      {
        ChildIsDeeper(t, x);
        x := parent.id;
        AfterUnfold(t, parentId, x);
        r := FindDirect(parent.parentId, parent);
        if r != null {
          return;
        }
        parent := Find(parent.parentId);
      }
      r := null;
    }

    /** `previous` is the node of the greatest id below `id` in the bucket of `id`, or null if there is none. */
    ghost predicate IsGreatest(id: DeviceId, previous: RoutingData?)
      reads this, repr
    {
      && (previous != null ==> IsNode(previous) && Hash(previous.id) == Hash(id) && previous.id < id)
      && (forall x {:trigger Hash(x)} | x in nodes && Hash(x) == Hash(id) && x < id ::
            previous != null && x <= previous.id)
    }

    /** The heap change made by linking the node of `id` after the node of `previous`, or first when that is -1. */
    twostate predicate Linked(previous: int, id: DeviceId)
      requires id in nodes
      reads this, buckets, repr, nodes[id]
    {
      var data := nodes[id];
      && old(Valid()) && old(allocated(data)) && data !in old(repr) && buckets.Length == 16
      && (previous == -1 || (0 <= previous < 0x1_0000 && previous in old(nodes)))
      && old(IsGreatest(id, if previous == -1 then null else nodes[previous]))
      && old(IsLeast(Hash(id), id, data.next)) && data.next == old(data.next)
      && repr == old(repr) + {data} && nodes == old(nodes)[id := data] && data.id == id
      && (forall n {:trigger n.id} | n in old(repr) :: n.id == old(n.id))
      && (forall n {:trigger n.next} | n in old(repr) ::
            n.next == if previous != -1 && n == old(nodes[previous]) then data else old(n.next))
      && (forall b | 0 <= b < 16 ::
            buckets[b] == if previous == -1 && b == Hash(id) then data else old(buckets[b]))
    }

    twostate lemma LinkedIsValid(change: (int, DeviceId))
      requires change.1 in nodes && Linked(change.0, change.1)
      ensures Valid()
    {
      var id := change.1;
      forall b | 0 <= b < 16 ensures IsLeast(b, -1, buckets[b]) {
        assert old(IsLeast(b, -1, buckets[b]));
      }
      forall x | x in nodes ensures nodes[x] in repr && IsLeast(Hash(x), x, nodes[x].next) {
        assert x != id ==> old(IsLeast(Hash(x), x, nodes[x].next));
      }
    }

    /** Links `data` between its neighbours, in place of a node with the same id. */
    method Link(previous: RoutingData?, data: RoutingData, following: RoutingData?)
      requires Valid() && data !in repr
      requires IsGreatest(data.id, previous) && IsLeast(Hash(data.id), data.id, following)
      modifies this, buckets, data`next, repr`next
      ensures Valid() && repr == old(repr) + {data}
      ensures nodes == old(nodes)[data.id := data]
    {
      data.next := following;
      label linked:
      if previous == null {
        buckets[Hash(data.id)] := data;
      } else {
        previous.next := data;
      }
      repr, nodes := repr + {data}, nodes[data.id := data];
      LinkedIsValid@linked((if previous == null then -1 else previous.id, data.id));
    }

    /** Inserts, or replaces, a node in its bucket, keeping the bucket sorted by id. */
    method InsertInBucket(data: RoutingData)
      requires Valid() && data !in repr
      modifies this, buckets, data`next, repr`next
      ensures Valid() && repr == old(repr) + {data}
      ensures nodes == old(nodes)[data.id := data]
    {
      var b := Hash(data.id);
      if buckets[b] == null {
        Link(null, data, null);
      } else {
        var previous: RoutingData? := null;
        var current: RoutingData := buckets[b];
        while current.next != null && current.id < data.id
          invariant IsNode(current) && Hash(current.id) == b
          invariant previous != null ==> IsNode(previous) && Hash(previous.id) == b && previous.id < data.id
          invariant forall x {:trigger Hash(x)} | x in nodes && Hash(x) == b ::
                      current.id <= x || (previous != null && x <= previous.id)
          invariant previous != null ==> previous.id < current.id
          decreases 0x1_0000 - current.id
        {
          previous := current;
          current := current.next;
        }
        if current.id == data.id {
          Link(previous, data, current.next);
        } else if current.id > data.id {
          Link(previous, data, current);
        } else {
          Link(current, data, current.next);
        }
      }
    }

    method InsertDirectPid(id: DeviceId, pid: int, deviceType: DeviceType, currentId: DeviceId, fd: int)
      requires Valid()
      modifies this, buckets, repr
      ensures Valid() && fresh(repr - old(repr)) && old(repr) <= repr
      ensures Entries() == Put(old(Entries()), id, pid, deviceType, currentId, fd)
    {
      var data := new RoutingData(id, pid, deviceType, currentId, fd);
      InsertInBucket(data);
    }

    /** Inserts under a recorded parent and takes its next hop; fails when the parent is not recorded. */
    method InsertIndirectPid(id: DeviceId, pid: int, deviceType: DeviceType, parentId: DeviceId) returns (ok: bool)
      requires Valid()
      modifies this, buckets, repr
      ensures Valid() && fresh(repr - old(repr)) && old(repr) <= repr
      ensures ok <==> parentId in old(nodes)
      ensures Entries() == if parentId in old(Entries())
                           then Put(old(Entries()), id, pid, deviceType, parentId, old(Entries())[parentId].hop)
                           else old(Entries())
    {
      var parent := Find(parentId);
      if parent == null {
        return false;
      }
      var data := new RoutingData(id, pid, deviceType, parentId, parent.nextHopFd);
      InsertInBucket(data);
      return true;
    }

    /** The heap change made by unlinking the node of `id` that follows the node of `previous`, or is first. */
    twostate predicate Unlinked(previous: int, id: DeviceId)
      reads this, buckets, repr
    {
      && old(Valid()) && buckets.Length == 16 && id in old(nodes)
      && (previous == -1 || (0 <= previous < 0x1_0000 && previous in old(nodes)))
      && old(IsGreatest(id, if previous == -1 then null else nodes[previous]))
      && repr == old(repr) && nodes == old(nodes) - {id}
      && (forall n {:trigger n.id} | n in repr :: n.id == old(n.id))
      && (forall n {:trigger n.next} | n in repr ::
            n.next == if previous != -1 && n == old(nodes[previous]) then old(nodes[id].next) else old(n.next))
      && (forall b | 0 <= b < 16 ::
            buckets[b] == if previous == -1 && b == Hash(id) then old(nodes[id].next) else old(buckets[b]))
    }

    twostate lemma UnlinkedIsValid(change: (int, DeviceId))
      requires Unlinked(change.0, change.1)
      ensures Valid()
    {
      var id := change.1;
      assert old(IsLeast(Hash(id), id, nodes[id].next));
      forall b | 0 <= b < 16 ensures IsLeast(b, -1, buckets[b]) {
        assert old(IsLeast(b, -1, buckets[b]));
      }
      forall x | x in nodes ensures nodes[x] in repr && IsLeast(Hash(x), x, nodes[x].next) {
        assert old(IsLeast(Hash(x), x, nodes[x].next));
      }
    }

    method RemoveFromBucket(id: DeviceId)
      requires Valid()
      modifies this, buckets, repr`next
      ensures Valid() && repr == old(repr) && nodes == old(nodes) - {id}
      ensures Entries() == old(Entries()) - {id}
    {
      var current := buckets[Hash(id)];
      var previous: RoutingData? := null;
      while current != null && current.id < id
        invariant current != null ==> IsNode(current) && Hash(current.id) == Hash(id)
        invariant previous != null ==> IsNode(previous) && Hash(previous.id) == Hash(id) && previous.id < id
        invariant previous == null ==> current == buckets[Hash(id)]
        invariant IsLeast(Hash(id), if previous == null then -1 else previous.id, current)
        decreases if current == null then 0 else 0x1_0000 - current.id
      {
        previous := current;
        current := current.next;
      }
      if current != null && current.id == id {
        label found:
        if previous == null {
          buckets[Hash(id)] := current.next;
        } else {
          previous.next := current.next;
        }
        nodes := nodes - {id};
        UnlinkedIsValid@found((if previous == null then -1 else previous.id, id));
      } else {
        assert id !in nodes;
      }
    }

    /** Removes everything below `id`, one direct child after the other, always the first that is left. */
    method RemoveBelow(id: DeviceId)
      requires Valid() && Acyclic(Entries()) && id in Entries()
      modifies this, buckets, repr`next
      ensures Valid() && repr == old(repr)
      ensures nodes.Keys <= old(nodes.Keys) && forall x | x in nodes :: nodes[x] == old(nodes)[x]
      ensures PartlyRemoved(old(Entries()), Entries(), id) && NextChild(Entries(), id, -1) == None
      decreases Height(Entries(), id), 0
    {
      ghost var t := Entries();
      var current := FindDirect(id, null);
      while current != null
        invariant Valid() && repr == old(repr)
        invariant nodes.Keys <= old(nodes.Keys) && forall x | x in nodes :: nodes[x] == old(nodes)[x]
        invariant PartlyRemoved(t, Entries(), id)
        invariant current != null ==> IsNode(current)
        invariant NextChild(Entries(), id, -1) == if current == null then None else Some(current.id)
        decreases |Entries()|
      {
        PartlyRemovedStep(t, Entries(), id, current.id);
        Remove(current.id, current.parentId);
        current := FindDirect(id, null);
      }
    }

    /** Removes `id` and, recursively, everything below it, provided its recorded parent is `parentId`. */
    method Remove(id: DeviceId, parentId: DeviceId)
      requires Valid() && Acyclic(Entries())
      modifies this, buckets, repr`next
      ensures Valid() && repr == old(repr)
      ensures nodes.Keys <= old(nodes.Keys) && forall x | x in nodes :: nodes[x] == old(nodes)[x]
      ensures Entries() == TableOps.Remove(old(Entries()), id, parentId)
      decreases Height(Entries(), id), 1
    {
      var data := Find(id);
      if data == null || data.parentId != parentId {
        return;
      }
      ghost var t := Entries();
      RemoveBelow(id);
      PartlyRemovedEnd(t, Entries(), id);
      RemoveFromBucket(id);
    }

    /** Whether no direct child of `id` is non-empty: the search stops at the first one that is. */
    method ChildrenAreEmpty(id: DeviceId) returns (empty: bool)
      requires Valid()
      ensures Valid() && Entries() == old(Entries())
      ensures empty <==> !HasNonEmptyChild(Entries(), id)
    {
      ghost var t := Entries();
      var child := FindDirect(id, null);
      ghost var k := -1;
      while child != null
        invariant Valid() && Entries() == t
        invariant child != null ==> IsNode(child)
        invariant NextChild(t, id, k) == if child == null then None else Some(child.id)
        invariant forall c: DeviceId | NonEmpty(t, c) && t[c].parent == id :: Key(c) > k
        decreases if child == null then 0 else 0x10_0000 - Key(child.id)
      {
        if !IsEmpty(child.deviceType) {
          assert NonEmpty(t, child.id) && t[child.id].parent == id;
          return false;
        }
        forall c: DeviceId | NonEmpty(t, c) && t[c].parent == id ensures Key(c) > Key(child.id) {
          assert IsChildAfter(t, id, k, c);
          KeyInjective(c, child.id);
        }
        k := Key(child.id);
        child := FindDirect(id, child);
      }
      assert forall c: DeviceId | NonEmpty(t, c) && t[c].parent == id :: IsChildAfter(t, id, k, c);
      return true;
    }

    /** Overwrites the type of one node in place. */
    method SetType(n: RoutingData, ty: DeviceType)
      requires Valid() && IsNode(n)
      modifies n`deviceType
      ensures Valid() && Entries() == WithType(old(Entries()), n.id, ty)
    {
      n.deviceType := ty;
    }

    /** Empties the types of `device` and its ancestors where nothing below is left, up to the first empty one. */
    method UpdateTypeToEmpty(device: RoutingData?)
      requires Valid() && Acyclic(Entries()) && (device != null ==> IsNode(device))
      modifies repr`deviceType
      ensures Valid()
      ensures Entries() == if device == null then old(Entries()) else EmptyUp(old(Entries()), device.id)
    {
      ghost var goal := if device == null then Entries() else EmptyUp(Entries(), device.id);
      var current := device;
      while current != null
        invariant Valid() && Acyclic(Entries()) && (current != null ==> IsNode(current))
        invariant goal == if current == null then Entries() else EmptyUp(Entries(), current.id)
        decreases if current == null then 0 else 1, if current == null then 0 else Depth(Entries(), current.id)
      {
        if IsEmpty(current.deviceType) {
          return;
        }
        ghost var t := Entries();
        var empty := ChildrenAreEmpty(current.id);
        if empty {
          SetType(current, if IsHub(current.deviceType) then HUB_DEVICE else TIMER_DEVICE);
        }
        SameShape(t, Entries());
        ChildIsDeeper(t, current.id);
        current := Find(current.parentId);
      }
    }

    /** Gives the leaf type of `device` to its empty ancestors, up to the first non-empty one. */
    method UpdateTypeToNotEmpty(device: RoutingData)
      requires Valid() && IsNode(device)
      modifies repr`deviceType
      ensures Valid()
      ensures IsEmpty(old(device.deviceType)) ==> Entries() == old(Entries())
      ensures !IsEmpty(old(device.deviceType)) ==>
                Entries() == FillUp(old(Entries()), device.parentId, ChildType(old(device.deviceType)))
    {
      if IsEmpty(device.deviceType) {
        return;
      }
      var childType := ChildType(device.deviceType);
      ghost var goal := FillUp(Entries(), device.parentId, childType);
      var parent := Find(device.parentId);
      ghost var p := device.parentId;
      while parent != null
        invariant Valid() && goal == FillUp(Entries(), p, childType)
        invariant parent == null <==> p !in nodes
        invariant parent != null ==> IsNode(parent) && parent.id == p
        decreases EmptyEntries(Entries())
      {
        if !IsEmpty(parent.deviceType) {
          break;
        }
        FilledTypeBits(parent.deviceType, childType);
        assert p in EmptyEntries(Entries());
        SetType(parent, FilledType(parent.deviceType, childType));
        p := parent.parentId;
        parent := Find(parent.parentId);
      }
    }

    /** The next entry of the whole table in bucket order, whether or not its parent still exists. */
    method FindUnreachable(last: RoutingData?) returns (r: RoutingData?)
      requires Valid() && (last != null ==> IsNode(last))
      ensures Valid() && Entries() == old(Entries())
      ensures r != null ==> IsNode(r)
      ensures NextEntry(Entries(), if last == null then -1 else Key(last.id)) == if r == null then None else Some(r.id)
    {
      ghost var k := if last == null then -1 else Key(last.id);
      ghost var t := Entries();
      r := last;
      if r != null {
        EntryScanStart(t, r.id);
        r := r.next;
      }
      var b := if r != null then Hash(r.id) else if last != null then Hash(last.id) + 1 else 0;
      while b < 16
        invariant 0 <= b <= 16
        invariant r != null ==> b < 16 && IsNode(r) && Hash(r.id) == b && Key(r.id) > k
        invariant r == null ==> k < b * 0x1_0000
        invariant NoEntrySkipped(t, k, b, if r == null then -1 else r.id)
      {
        if r == null {
          r := buckets[b];
        }
        if r != null {
          EntryScanFound(t, k, r.id);
          return;
        }
        b := b + 1;
      }
      NextEntryUnique(t, k, None);
      r := null;
    }

    /**
     Removes every direct child of `parentId` with its branch: the next child is found first and the
     current one removed after, so the walk never follows a removed node.
     */
    method RemoveChildren(parentId: DeviceId) returns (removed: seq<DeviceId>)
      requires Valid() && Acyclic(Entries())
      modifies this, buckets, repr`next
      ensures Valid() && repr == old(repr)
      ensures removed == Children(old(Entries()), parentId)
      ensures Entries() == map x | x in old(Entries()) && !Below(old(Entries()), x, parentId) :: old(Entries())[x]
    {
      ghost var t := Entries();
      ghost var k := -1;
      removed := [];
      BranchesFromStart(t, parentId);
      var device := FindDirect(parentId, null);
      while device != null
        invariant Valid() && repr == old(repr) && -1 <= k
        invariant Entries() == WithoutBranches(t, parentId, k)
        invariant device != null ==> IsNode(device)
        invariant NextChild(t, parentId, k) == if device == null then None else Some(device.id)
        invariant Children(t, parentId) == removed + ChildrenFrom(t, parentId, k)
        decreases 0x10_0000 - k
      {
        var deviceId := device.id;
        WithoutBranchesStep(t, parentId, k, deviceId);
        ChildrenStep(t, parentId, k, removed);
        device := FindDirect(parentId, device);
        Remove(deviceId, parentId);
        removed := removed + [deviceId];
        k := Key(deviceId);
      }
      ChildrenStep(t, parentId, k, removed);
      BranchesToEnd(t, parentId, k);
    }
  }
}
