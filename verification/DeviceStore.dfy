/** The mobile device store: each user's list of registered devices. */
module DeviceStore {

  datatype User = User(name: string)

  datatype Token = Token(text: string)

  datatype Device = Device(user: User, token: Token, details: string, registeredAt: int, lastActiveAt: int)

  datatype Shelf = Shelf(devices: seq<Device>)

  type Store = map<User, Shelf>

  // ----- what the store means -----

  /** The store refines a plain map from tokens to registrations: each token occurs at most once across all
      lists, and under the user named in its record. */
  ghost predicate Unique(store: Store) {
    && (forall u, device :: u in store && device in store[u].devices ==> device.user == u)
    && (forall u :: u in store ==> DistinctTokens(store[u].devices))
    && OneOwner(store)
  }

  ghost predicate OneOwner(store: Store) {
    forall u, v, a, b :: Lists(store, u, a) && Lists(store, v, b) && a.token == b.token ==> u == v
  }

  ghost predicate Lists(store: Store, u: User, device: Device) {
    u in store && device in store[u].devices
  }

  ghost predicate DistinctTokens(devices: seq<Device>) {
    forall i, j :: 0 <= i < j < |devices| ==> devices[i].token != devices[j].token
  }

  ghost predicate Stored(store: Store, device: Device) {
    exists u :: Lists(store, u, device)
  }

  ghost predicate Refines(store: Store, registry: map<Token, Device>) {
    && Unique(store)
    && (forall token :: token in registry ==> registry[token].token == token)
    && forall device :: Stored(store, device) <==> Records(registry, device)
  }

  ghost predicate Records(registry: map<Token, Device>, device: Device) {
    device.token in registry && registry[device.token] == device
  }

  // ----- registering -----

  function Without(devices: seq<Device>, token: Token): (rest: seq<Device>)
    ensures forall device :: device in rest <==> device in devices && device.token != token
    ensures |rest| <= |devices|
    ensures |rest| == |devices| ==> rest == devices
  {
    if devices == [] then []
    else (if devices[0].token != token then [devices[0]] else []) + Without(devices[1..], token)
  }

  lemma {:induction false} WithoutDistinct(devices: seq<Device>, token: Token)
    requires DistinctTokens(devices)
    ensures DistinctTokens(Without(devices, token))
  {
    if devices != [] {
      WithoutDistinct(devices[1..], token);
      var rest := Without(devices[1..], token);
      forall j | 0 <= j < |rest| ensures rest[j].token != devices[0].token {
        assert rest[j] in devices[1..];
      }
    }
  }

  /** The first position of a token, or the length of the list. */
  function IndexOf(devices: seq<Device>, token: Token): (i: nat)
    ensures i <= |devices|
    ensures i < |devices| ==> devices[i].token == token
    ensures forall j :: 0 <= j < i ==> devices[j].token != token
  {
    if devices == [] || devices[0].token == token then 0 else 1 + IndexOf(devices[1..], token)
  }

  function DevicesOf(store: Store, user: User): seq<Device> {
    if user in store then store[user].devices else []
  }

  /** The record that a registration leaves: a device that its user already has keeps its first time. */
  function Registered(store: Store, device: Device, now: int): Device {
    var existing := DevicesOf(store, device.user);
    var i := IndexOf(existing, device.token);
    device.(registeredAt := if i < |existing| then existing[i].registeredAt else now, lastActiveAt := now)
  }

  function Place(existing: seq<Device>, device: Device): seq<Device> {
    var i := IndexOf(existing, device.token);
    if i < |existing| then existing[i := device] else existing + [device]
  }

  function Register(store: Store, device: Device, now: int): Store {
    var others := map u | u in store :: if u == device.user then store[u] else Shelf(Without(store[u].devices, device.token));
    others[device.user := Shelf(Place(DevicesOf(store, device.user), Registered(store, device, now)))]
  }

  /** Taking a token away everywhere. */
  function Unregister(store: Store, token: Token): Store {
    map u | u in store :: Shelf(Without(store[u].devices, token))
  }

  // ----- refinement -----

  lemma PlaceMembers(existing: seq<Device>, device: Device, other: Device)
    requires DistinctTokens(existing)
    ensures other in Place(existing, device) <==> other == device || (other in existing && other.token != device.token)
    ensures DistinctTokens(Place(existing, device))
  {
    var i := IndexOf(existing, device.token);
    var placed := Place(existing, device);
    assert i < |existing| ==> placed[i] == device;
    assert i == |existing| ==> placed[|existing|] == device;
    if other in existing && other.token != device.token {
      var j :| 0 <= j < |existing| && existing[j] == other;
      assert placed[j] == other;
    }
  }

  lemma RegisterMembers(store: Store, device: Device, now: int, u: User, other: Device)
    requires Unique(store)
    requires u in Register(store, device, now)
    ensures other in Register(store, device, now)[u].devices <==>
              (u == device.user && other == Registered(store, device, now)) ||
              (u in store && other in store[u].devices && other.token != device.token)
    ensures DistinctTokens(Register(store, device, now)[u].devices)
  {
    if u == device.user {
      PlaceMembers(DevicesOf(store, u), Registered(store, device, now), other);
    } else {
      WithoutDistinct(store[u].devices, device.token);
    }
  }

  /** Registering a device maps its token to the new record and leaves every other token alone. */
  lemma RegisterRefines(store: Store, registry: map<Token, Device>, device: Device, now: int)
    requires Refines(store, registry)
    ensures Refines(Register(store, device, now), registry[device.token := Registered(store, device, now)])
    ensures Registered(store, device, now).registeredAt ==
            if device.token in registry && registry[device.token].user == device.user
            then registry[device.token].registeredAt else now
  {
    hide Unique, Register, Registered, Stored;
    RegisteredTime(store, registry, device, now);
    RegisterUnique(store, device, now);
    RegisteredToken(store, device, now);
    var record := Registered(store, device, now);
    var next, after := Register(store, device, now), registry[device.token := record];
    forall other ensures Stored(next, other) <==> Records(after, other) {
      RegisterStored(store, device, now, other);
    }
  }

  lemma RegisteredToken(store: Store, device: Device, now: int)
    ensures Registered(store, device, now).token == device.token
  {
  }

  lemma RegisterStored(store: Store, device: Device, now: int, other: Device)
    requires Unique(store)
    ensures Stored(Register(store, device, now), other) <==>
              other == Registered(store, device, now) || (Stored(store, other) && other.token != device.token)
  {
    hide Unique, Register, Registered;
    var next := Register(store, device, now);
    RegisterUsers(store, device, now);
    if Stored(next, other) {
      var u :| Lists(next, u, other);
      RegisterMembers(store, device, now, u, other);
      assert other == Registered(store, device, now) || Lists(store, u, other);
    }
    RegisterMembers(store, device, now, device.user, other);
    if other == Registered(store, device, now) {
      assert Lists(next, device.user, other);
    }
    if Stored(store, other) && other.token != device.token {
      var u :| Lists(store, u, other);
      RegisterMembers(store, device, now, u, other);
      assert Lists(next, u, other);
    }
  }

  lemma RegisterUsers(store: Store, device: Device, now: int)
    ensures Register(store, device, now).Keys == store.Keys + {device.user}
  {
    hide Registered, Place, Without;
  }

  lemma RegisterUnique(store: Store, device: Device, now: int)
    requires Unique(store)
    ensures Unique(Register(store, device, now))
  {
    hide Register, DistinctTokens;
    var next := Register(store, device, now);
    RegisterUsers(store, device, now);
    forall u, a | u in next && a in next[u].devices ensures a.user == u {
      RegisterMembers(store, device, now, u, a);
    }
    forall u | u in next ensures DistinctTokens(next[u].devices) {
      RegisterMembers(store, device, now, u, device);
    }
    forall u, v, a, b | Lists(next, u, a) && Lists(next, v, b) && a.token == b.token ensures u == v {
      RegisterOneOwner(store, device, now, u, v, a, b);
    }
  }

  lemma RegisterOneOwner(store: Store, device: Device, now: int, u: User, v: User, a: Device, b: Device)
    requires Unique(store)
    requires Lists(Register(store, device, now), u, a) && Lists(Register(store, device, now), v, b)
    requires a.token == b.token
    ensures u == v
  {
    hide Register, DistinctTokens, Registered;
    RegisterMembers(store, device, now, u, a);
    RegisterMembers(store, device, now, v, b);
    RegisteredToken(store, device, now);
    if a.token != device.token {
      assert Lists(store, u, a) && Lists(store, v, b);
    }
  }

  lemma RegisteredTime(store: Store, registry: map<Token, Device>, device: Device, now: int)
    requires Refines(store, registry)
    ensures Registered(store, device, now).registeredAt ==
            if device.token in registry && registry[device.token].user == device.user
            then registry[device.token].registeredAt else now
  {
    hide DistinctTokens, OneOwner;
    var existing := DevicesOf(store, device.user);
    var i := IndexOf(existing, device.token);
    if i < |existing| {
      assert existing[i] in existing;
      assert Lists(store, device.user, existing[i]);
      assert Stored(store, existing[i]) && Records(registry, existing[i]);
    } else {
      assert device.token in registry ==> Records(registry, registry[device.token]);
      forall u, other | Lists(store, u, other) && other.user == device.user ensures other.token != device.token {
        assert other in existing;
      }
    }
  }

  /** Unregistering a token removes it from the map and leaves every other token alone. */
  lemma UnregisterRefines(store: Store, registry: map<Token, Device>, token: Token)
    requires Refines(store, registry)
    ensures Refines(Unregister(store, token), registry - {token})
  {
    hide Unique, Unregister, Stored;
    var next, after := Unregister(store, token), registry - {token};
    UnregisterUnique(store, token);
    forall other ensures Stored(next, other) <==> Records(after, other) {
      UnregisterStored(store, token, other);
    }
  }

  lemma UnregisterStored(store: Store, token: Token, other: Device)
    ensures Stored(Unregister(store, token), other) <==> Stored(store, other) && other.token != token
  {
    var next := Unregister(store, token);
    if Stored(store, other) && other.token != token {
      var u :| Lists(store, u, other);
      assert Lists(next, u, other);
    }
    if Stored(next, other) {
      var u :| Lists(next, u, other);
      assert Lists(store, u, other);
    }
  }

  lemma UnregisterUnique(store: Store, token: Token)
    requires Unique(store)
    ensures Unique(Unregister(store, token))
  {
    hide DistinctTokens;
    var next := Unregister(store, token);
    forall u | u in next ensures DistinctTokens(next[u].devices) {
      WithoutDistinct(store[u].devices, token);
    }
    forall u, v, a, b | Lists(next, u, a) && Lists(next, v, b) && a.token == b.token ensures u == v {
      assert Lists(store, u, a) && Lists(store, v, b);
    }
  }

  // ----- any sequence of calls -----

  datatype Call = Add(device: Device, now: int) | Remove(token: Token)

  function Apply(store: Store, call: Call): Store {
    match call
    case Add(device, now) => Register(store, device, now)
    case Remove(token) => Unregister(store, token)
  }

  /** The same call on a plain map from tokens to registrations. */
  function ApplyToRegistry(registry: map<Token, Device>, call: Call): map<Token, Device> {
    match call
    case Add(device, now) =>
      var first := if device.token in registry && registry[device.token].user == device.user
                   then registry[device.token].registeredAt else now;
      registry[device.token := device.(registeredAt := first, lastActiveAt := now)]
    case Remove(token) => registry - {token}
  }

  function AfterCalls(calls: seq<Call>): Store {
    if calls == [] then map[] else Apply(AfterCalls(calls[..|calls| - 1]), calls[|calls| - 1])
  }

  function RegistryAfter(calls: seq<Call>): map<Token, Device> {
    if calls == [] then map[] else ApplyToRegistry(RegistryAfter(calls[..|calls| - 1]), calls[|calls| - 1])
  }

  /** Over any sequence of calls the store refines the plain map. */
  lemma {:induction false} StoreRefinesRegistry(calls: seq<Call>)
    ensures Refines(AfterCalls(calls), RegistryAfter(calls))
  {
    if calls != [] {
      var store, registry := AfterCalls(calls[..|calls| - 1]), RegistryAfter(calls[..|calls| - 1]);
      StoreRefinesRegistry(calls[..|calls| - 1]);
      match calls[|calls| - 1] {
        case Add(device, now) => RegisterRefines(store, registry, device, now);
        case Remove(token) => UnregisterRefines(store, registry, token);
      }
    }
  }

  // ----- the service -----

  /** In a list without repeated tokens, cutting out the first match leaves no other. */
  lemma {:induction false} SpliceIsWithout(devices: seq<Device>, token: Token)
    requires DistinctTokens(devices)
    ensures Without(devices, token) == Cut(devices, IndexOf(devices, token))
  {
    if devices != [] {
      hide Cut;
      var rest := devices[1..];
      assert DistinctTokens(rest);
      if devices[0].token == token {
        NoneRemoved(rest, token);
        CutFirst(devices);
      } else {
        SpliceIsWithout(rest, token);
        CutTail(devices, IndexOf(rest, token));
      }
    }
  }

  lemma CutFirst(devices: seq<Device>)
    requires devices != []
    ensures Cut(devices, 0) == devices[1..]
  {
  }

  lemma CutTail(devices: seq<Device>, i: nat)
    requires devices != []
    ensures Cut(devices, i + 1) == [devices[0]] + Cut(devices[1..], i)
  {
  }

  /** The list without its element at a position, if it has one there. */
  function Cut(devices: seq<Device>, i: nat): seq<Device> {
    if i < |devices| then devices[..i] + devices[i + 1..] else devices
  }

  class DeviceService {
    var deviceStore: Store

    ghost predicate Valid()
      reads this
    {
      Unique(deviceStore)
    }

    constructor ()
      ensures Valid() && deviceStore == AfterCalls([])
    {
      deviceStore := map[];
    }

    method RegisterDevice(device: Device, now: int) returns (registered: Device)
      requires Valid()
      modifies this
      ensures deviceStore == Apply(old(deviceStore), Add(device, now)) && Valid()
      ensures registered == Registered(old(deviceStore), device, now)
    {
      hide Unique, Registered, Place, Register, Cleaned;
      RegisterUnique(deviceStore, device, now);
      var existing := DevicesOf(deviceStore, device.user);
      registered := Registered(deviceStore, device, now);
      ghost var before := deviceStore;
      RemoveFromOthers(device);
      RegisterByParts(before, device, now);
      deviceStore := deviceStore[device.user := Shelf(Place(existing, registered))];
    }

    /** Takes the token away from every other user. */
    method RemoveFromOthers(device: Device)
      modifies this
      ensures deviceStore == Cleaned(old(deviceStore), device, old(deviceStore).Keys)
    {
      hide Cleaned, Without;
      ghost var before := deviceStore;
      CleanedNone(before, device);
      var users := deviceStore.Keys;
      ghost var cleaned: set<User> := {};
      while users != {}
        invariant users !! cleaned && users + cleaned == before.Keys
        invariant deviceStore == Cleaned(before, device, cleaned)
        decreases |users|
      {
        var u :| u in users;
        CleanedOneMore(before, device, cleaned, u);
        if u != device.user {
          var filtered := Without(deviceStore[u].devices, device.token);
          if |filtered| != |deviceStore[u].devices| {
            deviceStore := deviceStore[u := Shelf(filtered)];
          }
        }
        users, cleaned := users - {u}, cleaned + {u};
      }
    }

    /** Stops at the first user whose list has the token, which removes it everywhere. */
    method UnregisterDevice(token: Token) returns (found: bool)
      requires Valid()
      modifies this
      ensures deviceStore == Apply(old(deviceStore), Remove(token)) && Valid()
      ensures found <==> exists device :: Stored(old(deviceStore), device) && device.token == token
    {
      hide Unique, Unregister, IndexOf, Stored, Cut;
      UnregisterUnique(deviceStore, token);
      var users := deviceStore.Keys;
      while users != {}
        invariant users <= deviceStore.Keys && deviceStore == old(deviceStore)
        invariant forall u :: u in deviceStore && u !in users ==> NotListed(deviceStore, u, token)
        decreases |users|
      {
        var u :| u in users;
        var devices := deviceStore[u].devices;
        var i := IndexOf(devices, token);
        FoundOrNot(deviceStore, u, token);
        if i < |devices| {
          RemovedOnce(deviceStore, u, token);
          deviceStore := deviceStore[u := Shelf(Cut(devices, i))];
          return true;
        }
        users := users - {u};
      }
      NothingToRemove(deviceStore, token);
      found := false;
    }
  }

  /** The store after the users in `done` were looked at. */
  ghost function Cleaned(store: Store, device: Device, done: set<User>): Store {
    map u | u in store :: if u == device.user || u !in done then store[u] else Shelf(Without(store[u].devices, device.token))
  }

  lemma CleanedNone(store: Store, device: Device)
    ensures Cleaned(store, device, {}) == store
  {
  }

  lemma CleanedOneMore(store: Store, device: Device, done: set<User>, u: User)
    requires u in store && u !in done
    ensures var now := Cleaned(store, device, done);
            && u in now && now[u] == store[u]
            && Cleaned(store, device, done + {u}) ==
               if u == device.user then now else now[u := Shelf(Without(now[u].devices, device.token))]
    ensures Shelf(store[u].devices) == store[u]
  {
  }

  lemma RegisterByParts(store: Store, device: Device, now: int)
    ensures Register(store, device, now) ==
            Cleaned(store, device, store.Keys)[device.user := Shelf(Place(DevicesOf(store, device.user), Registered(store, device, now)))]
  {
    hide Place, Registered, DevicesOf;
  }

  ghost predicate NotListed(store: Store, u: User, token: Token)
    requires u in store
  {
    forall device :: device in store[u].devices ==> device.token != token
  }

  lemma FoundOrNot(store: Store, u: User, token: Token)
    requires u in store
    ensures var devices := store[u].devices;
            if IndexOf(devices, token) < |devices|
            then exists device :: Stored(store, device) && device.token == token
            else NotListed(store, u, token)
  {
    var devices := store[u].devices;
    if IndexOf(devices, token) < |devices| {
      var device := devices[IndexOf(devices, token)];
      assert Lists(store, u, device);
      assert Stored(store, device);
    }
  }

  lemma RemovedOnce(store: Store, u: User, token: Token)
    requires Unique(store) && u in store && IndexOf(store[u].devices, token) < |store[u].devices|
    ensures store[u := Shelf(Cut(store[u].devices, IndexOf(store[u].devices, token)))] == Unregister(store, token)
  {
    hide Cut, IndexOf, Unique, Without;
    OwnDistinct(store, u);
    SpliceIsWithout(store[u].devices, token);
    AtIndex(store[u].devices, token);
    var device := store[u].devices[IndexOf(store[u].devices, token)];
    forall v | v in store && v != u ensures Without(store[v].devices, token) == store[v].devices {
      ListedNowhereElse(store, u, device, v);
      NoneRemoved(store[v].devices, token);
    }
  }

  lemma OwnDistinct(store: Store, u: User)
    requires Unique(store) && u in store
    ensures DistinctTokens(store[u].devices)
  {
  }

  lemma ListedNowhereElse(store: Store, u: User, device: Device, v: User)
    requires Unique(store) && u in store && device in store[u].devices && v in store && v != u
    ensures forall other :: other in store[v].devices ==> other.token != device.token
  {
    hide DistinctTokens;
    forall other | other in store[v].devices ensures other.token != device.token {
      assert Lists(store, v, other) && Lists(store, u, device);
    }
  }

  lemma AtIndex(devices: seq<Device>, token: Token)
    requires IndexOf(devices, token) < |devices|
    ensures devices[IndexOf(devices, token)] in devices && devices[IndexOf(devices, token)].token == token
  {
  }

  lemma NothingToRemove(store: Store, token: Token)
    requires forall u :: u in store ==> NotListed(store, u, token)
    ensures Unregister(store, token) == store
    ensures forall device :: Stored(store, device) ==> device.token != token
  {
    forall u | u in store ensures Without(store[u].devices, token) == store[u].devices {
      NoneRemoved(store[u].devices, token);
    }
    forall device | Stored(store, device) ensures device.token != token {
      var u :| Lists(store, u, device);
      assert NotListed(store, u, token);
    }
  }

  lemma {:induction false} NoneRemoved(devices: seq<Device>, token: Token)
    requires forall device :: device in devices ==> device.token != token
    ensures Without(devices, token) == devices
  {
    if devices != [] {
      NoneRemoved(devices[1..], token);
      assert devices == [devices[0]] + devices[1..];
    }
  }
}
