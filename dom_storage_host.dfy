/** The renderer-facing side of DOM storage: a table from connection id to
    the (namespace, area) pair the connection opened, and the forwarding of
    length, key, item, set, remove and clear requests to that area, with
    change notifications to the storage context.

    The storage context, its namespaces and the areas are outside this file
    (dom_storage_context.cc, dom_storage_namespace.cc, dom_storage_area.cc).
    Here an area is a key/value map; what the host asks of a namespace or
    tells the context is recorded in two logs. */
module DomStorageHost {
  import opened Wrappers

  /** The C++ `int` of connection and namespace ids. */
  type int32 = x: int | -0x8000_0000 <= x < 0x8000_0000

  type String16 = string
  type Origin = string
  type PageUrl = string

  /** The area a connection refers to: one per (namespace, origin). */
  datatype AreaId = AreaId(namespaceId: int32, origin: Origin)

  /** NamespaceAndArea: what connections_ stores per connection id. */
  datatype Connection = Connection(namespaceId: int32, origin: Origin)
  {
    function Area(): AreaId { AreaId(namespaceId, origin) }
  }

  type AreaValues = map<String16, String16>

  /** DomStorageNamespace::PurgeOption. */
  datatype PurgeOption = PURGE_UNOPENED | PURGE_AGGRESSIVE

  /** Calls the host makes on a namespace. */
  datatype NamespaceCall =
    | OpenArea(area: AreaId)
    | CloseArea(area: AreaId)
    | Purge(namespaceId: int32, option: PurgeOption)

  /** Calls the host makes on the context (DomStorageContext::Notify*). */
  datatype Notification =
    | ItemSet(area: AreaId, key: String16, newValue: String16, oldValue: Option<String16>, pageUrl: PageUrl)
    | ItemRemoved(area: AreaId, key: String16, removedValue: String16, pageUrl: PageUrl)
    | AreaCleared(area: AreaId, pageUrl: PageUrl)

  /** The number of areas a namespace keeps in memory before ExtractAreaValues
      asks it to purge. The constant is declared outside this file; the value
      here is a placeholder and no proof depends on it. */
  const kMaxInMemoryAreas: nat := 100

  /** The CloseArea calls for the connections `order` lists, in that order. */
  function CloseCalls(order: seq<int32>, connections: map<int32, Connection>): (calls: seq<NamespaceCall>)
    requires forall i :: 0 <= i < |order| ==> order[i] in connections
    ensures |calls| == |order|
    ensures forall i :: 0 <= i < |order| ==> calls[i] == CloseArea(connections[order[i]].Area())
  {
    if order == [] then []
    else CloseCalls(order[..|order| - 1], connections) + [CloseArea(connections[order[|order| - 1]].Area())]
  }

  class Host {
    /** connections_. */
    var connections: map<int32, Connection>
    /** The namespace ids the context knows (GetStorageNamespace is non-null). */
    var namespaces: set<int32>
    /** The contents of every area; an area never written is empty. */
    var areas: map<AreaId, AreaValues>
    var namespaceCalls: seq<NamespaceCall>
    var notifications: seq<Notification>

    /** The contents of area `a`. */
    function Values(a: AreaId): AreaValues
      reads this
    {
      if a in areas then areas[a] else map[]
    }

    /** DomStorageHost::DomStorageHost: no connection is open yet. */
    constructor (namespaces: set<int32>, areas: map<AreaId, AreaValues>)
      ensures this.connections == map[] && this.namespaces == namespaces && this.areas == areas
      ensures namespaceCalls == [] && notifications == []
    {
      this.connections := map[];
      this.namespaces := namespaces;
      this.areas := areas;
      namespaceCalls := [];
      notifications := [];
    }

    /** DomStorageHost::~DomStorageHost: every open connection's area is
        closed with its namespace, in the table's iteration order, then the
        table is cleared. */
    method Destroy()
      modifies this`connections, this`namespaceCalls
      ensures connections == map[]
      ensures exists order: seq<int32> ::
                multiset(order) == multiset(old(connections).Keys) &&
                (forall i :: 0 <= i < |order| ==> order[i] in old(connections)) &&
                namespaceCalls == old(namespaceCalls) + CloseCalls(order, old(connections))
    {
      var remaining := connections.Keys;
      ghost var order: seq<int32> := [];
      while remaining != {}
        invariant remaining <= connections.Keys
        invariant connections == old(connections)
        invariant multiset(order) + multiset(remaining) == multiset(connections.Keys)
        invariant forall i :: 0 <= i < |order| ==> order[i] in connections
        invariant namespaceCalls == old(namespaceCalls) + CloseCalls(order, connections)
        decreases remaining
      {
        var id :| id in remaining;
        namespaceCalls := namespaceCalls + [CloseArea(connections[id].Area())];
        order := order + [id];
        remaining := remaining - {id};
      }
      connections := map[];
    }

    /** DomStorageHost::OpenStorageArea. */
    method OpenStorageArea(connectionId: int32, namespaceId: int32, origin: Origin) returns (ok: bool)
      modifies this`connections, this`namespaceCalls
      ensures ok <==> connectionId !in old(connections) && namespaceId in namespaces
      ensures ok ==> connections == old(connections)[connectionId := Connection(namespaceId, origin)]
      ensures ok ==> namespaceCalls == old(namespaceCalls) + [OpenArea(AreaId(namespaceId, origin))]
      ensures !ok ==> connections == old(connections) && namespaceCalls == old(namespaceCalls)
    {
      if connectionId in connections {
        return false;
      }
      if namespaceId !in namespaces {
        return false;
      }
      namespaceCalls := namespaceCalls + [OpenArea(AreaId(namespaceId, origin))];
      connections := connections[connectionId := Connection(namespaceId, origin)];
      return true;
    }

    /** DomStorageHost::CloseStorageArea. */
    method CloseStorageArea(connectionId: int32)
      modifies this`connections, this`namespaceCalls
      ensures connections == old(connections) - {connectionId}
      ensures connectionId in old(connections) ==>
                namespaceCalls == old(namespaceCalls) + [CloseArea(old(connections)[connectionId].Area())]
      ensures connectionId !in old(connections) ==> namespaceCalls == old(namespaceCalls)
    {
      if connectionId !in connections {
        return;
      }
      namespaceCalls := namespaceCalls + [CloseArea(connections[connectionId].Area())];
      connections := connections - {connectionId};
    }

    /** DomStorageHost::ExtractAreaValues. `isLoadedInMemory` is the area's
        DomStorageArea::IsLoadedInMemory; `inMemoryCount` and
        `countAfterPurge` are the namespace's CountInMemoryAreas before and
        after the PURGE_UNOPENED purge. */
    method ExtractAreaValues(connectionId: int32, isLoadedInMemory: bool, inMemoryCount: nat, countAfterPurge: nat)
      returns (ok: bool, values: AreaValues)
      modifies this`namespaceCalls
      ensures ok <==> connectionId in connections
      ensures !ok ==> values == map[] && namespaceCalls == old(namespaceCalls)
      ensures ok ==> values == Values(connections[connectionId].Area())
      ensures ok && !isLoadedInMemory && inMemoryCount > kMaxInMemoryAreas ==>
                var ns := connections[connectionId].namespaceId;
                namespaceCalls == old(namespaceCalls) + [Purge(ns, PURGE_UNOPENED)] +
                                  (if countAfterPurge > kMaxInMemoryAreas then [Purge(ns, PURGE_AGGRESSIVE)] else [])
      ensures ok && (isLoadedInMemory || inMemoryCount <= kMaxInMemoryAreas) ==>
                namespaceCalls == old(namespaceCalls)
    {
      values := map[];
      if connectionId !in connections {
        return false, values;
      }
      var conn := connections[connectionId];
      if !isLoadedInMemory {
        if inMemoryCount > kMaxInMemoryAreas {
          namespaceCalls := namespaceCalls + [Purge(conn.namespaceId, PURGE_UNOPENED)];
          if countAfterPurge > kMaxInMemoryAreas {
            namespaceCalls := namespaceCalls + [Purge(conn.namespaceId, PURGE_AGGRESSIVE)];
          }
        }
      }
      values := Values(conn.Area());
      return true, values;
    }

    /** DomStorageHost::GetAreaLength. */
    method GetAreaLength(connectionId: int32) returns (length: nat)
      ensures connectionId !in connections ==> length == 0
      ensures connectionId in connections ==> length == |Values(connections[connectionId].Area())|
    {
      if connectionId !in connections {
        return 0;
      }
      return |Values(connections[connectionId].Area())|;
    }

    /** DomStorageHost::GetAreaKey. `keyAt` is DomStorageArea::Key on the
        area's contents. */
    method GetAreaKey(connectionId: int32, index: nat, keyAt: (AreaValues, nat) -> Option<String16>)
      returns (key: Option<String16>)
      ensures connectionId !in connections ==> key == None
      ensures connectionId in connections ==> key == keyAt(Values(connections[connectionId].Area()), index)
    {
      if connectionId !in connections {
        return None;
      }
      return keyAt(Values(connections[connectionId].Area()), index);
    }

    /** DomStorageHost::GetAreaItem. */
    method GetAreaItem(connectionId: int32, key: String16) returns (item: Option<String16>)
      ensures item.Some? <==> connectionId in connections && key in Values(connections[connectionId].Area())
      ensures item.Some? ==> item.value == Values(connections[connectionId].Area())[key]
    {
      if connectionId !in connections {
        return None;
      }
      var values := Values(connections[connectionId].Area());
      if key !in values {
        return None;
      }
      return Some(values[key]);
    }

    /** DomStorageHost::SetAreaItem. `accepted` is the area's decision to
        take the write (it refuses one that would exceed its quota). */
    method SetAreaItem(connectionId: int32, key: String16, value: String16, pageUrl: PageUrl, accepted: bool)
      returns (ok: bool, oldValue: Option<String16>)
      modifies this`areas, this`notifications
      ensures ok <==> connectionId in old(connections) && accepted
      ensures connectionId in connections ==>
                var a := connections[connectionId].Area();
                var before := old(Values(a));
                oldValue == (if key in before then Some(before[key]) else None)
      ensures !ok ==> areas == old(areas) && notifications == old(notifications)
      ensures ok ==>
                var a := connections[connectionId].Area();
                areas == old(areas)[a := old(Values(a))[key := value]] &&
                notifications == old(notifications) +
                  (if oldValue == Some(value) then [] else [ItemSet(a, key, value, oldValue, pageUrl)])
    {
      if connectionId !in connections {
        return false, None;
      }
      var a := connections[connectionId].Area();
      var values := Values(a);
      oldValue := if key in values then Some(values[key]) else None;
      if !accepted {
        return false, oldValue;
      }
      areas := areas[a := values[key := value]];
      if oldValue.None? || oldValue.value != value {
        notifications := notifications + [ItemSet(a, key, value, oldValue, pageUrl)];
      }
      return true, oldValue;
    }

    /** DomStorageHost::RemoveAreaItem: the area refuses to remove a key it
        does not hold. */
    method RemoveAreaItem(connectionId: int32, key: String16, pageUrl: PageUrl)
      returns (ok: bool, oldValue: String16)
      modifies this`areas, this`notifications
      ensures ok <==> connectionId in old(connections) && key in old(Values(connections[connectionId].Area()))
      ensures !ok ==> areas == old(areas) && notifications == old(notifications)
      ensures ok ==>
                var a := connections[connectionId].Area();
                oldValue == old(Values(a))[key] &&
                areas == old(areas)[a := old(Values(a)) - {key}] &&
                notifications == old(notifications) + [ItemRemoved(a, key, oldValue, pageUrl)]
    {
      if connectionId !in connections {
        return false, "";
      }
      var a := connections[connectionId].Area();
      var values := Values(a);
      if key !in values {
        return false, "";
      }
      oldValue := values[key];
      areas := areas[a := values - {key}];
      notifications := notifications + [ItemRemoved(a, key, oldValue, pageUrl)];
      return true, oldValue;
    }

    /** DomStorageHost::ClearArea: the area refuses to clear when it is
        already empty. */
    method ClearArea(connectionId: int32, pageUrl: PageUrl) returns (ok: bool)
      modifies this`areas, this`notifications
      ensures ok <==> connectionId in old(connections) && old(Values(connections[connectionId].Area())) != map[]
      ensures !ok ==> areas == old(areas) && notifications == old(notifications)
      ensures ok ==>
                var a := connections[connectionId].Area();
                areas == old(areas)[a := map[]] &&
                notifications == old(notifications) + [AreaCleared(a, pageUrl)]
    {
      if connectionId !in connections {
        return false;
      }
      var a := connections[connectionId].Area();
      if Values(a) == map[] {
        return false;
      }
      areas := areas[a := map[]];
      notifications := notifications + [AreaCleared(a, pageUrl)];
      return true;
    }

    /** DomStorageHost::HasAreaOpen: a scan of the connection table. */
    method HasAreaOpen(namespaceId: int32, origin: Origin) returns (found: bool)
      ensures found <==> exists id :: id in connections && connections[id] == Connection(namespaceId, origin)
    {
      var remaining := connections.Keys;
      while remaining != {}
        invariant remaining <= connections.Keys
        invariant forall id :: id in connections && id !in remaining ==> connections[id] != Connection(namespaceId, origin)
        decreases remaining
      {
        var id :| id in remaining;
        if connections[id].namespaceId == namespaceId && connections[id].origin == origin {
          return true;
        }
        remaining := remaining - {id};
      }
      return false;
    }
  }
}
