/** The public operations of the library: creating a cell (`pulse`),
    writing it (`setPulseValue`), reading it (`getPulseValue`) and
    attaching a binding to it (the mount of `usePulse`). The process-wide
    singletons of the source (the key registry, the two storage namespaces
    and the broadcast channel) are passed in explicitly. */
module Index {
  import opened Types
  import Json
  import opened Utils
  import opened Broadcast

  /** `pulse`: makes a cell with the fresh id `id`. A keyed cell registers
      its key, then adopts the value stored under it when that value is
      truthy and otherwise seeds the storage with the default. The cell is
      then published as it stands. Creation fails on a key already in use
      (before any storage access) and on a stored text that does not
      parse (the key stays registered, nothing is published). */
  method CreatePulse(params: PulseParams, id: int, registry: KeyRegistry,
                     storage: Storage, channel: Channel)
    returns (r: Result<Pulse>)
    requires channel.Valid()
    modifies registry, storage, channel, channel.Members(), channel.Cells()
    ensures channel.Valid() && channel.listeners == old(channel.listeners)
    // Without a key: no registration, no storage access, always a cell.
    ensures !KeyGiven(params.key) ==>
      r.Success? && r.value.value == params.defaultValue
      && registry.keys == old(registry.keys) && unchanged(storage)
    // A key already in use: refused, and nothing else happens.
    ensures KeyGiven(params.key) && params.key.value in old(registry.keys) ==>
      r == Failure(DuplicateKey(params.key.value))
      && registry.keys == old(registry.keys) && unchanged(storage)
    // A fresh key: registered, then the stored entry decides.
    ensures KeyGiven(params.key) && params.key.value !in old(registry.keys) ==>
      var kind := KindOrLocal(params.storageType);
      var stored := ReadEntry(old(storage.Namespace(kind)), params.key.value);
      registry.keys == old(registry.keys) + {params.key.value}
      && (stored.Failure? ==> r == Failure(stored.error) && unchanged(storage))
      && (stored.Success? && Truthy(stored.value) ==>
            r.Success? && r.value.value == stored.value && unchanged(storage))
      && (stored.Success? && !Truthy(stored.value) ==>
            r.Success? && r.value.value == params.defaultValue
            && storage.Namespace(kind)
               == old(storage.Namespace(kind))[params.key.value := Json.Encode(params.defaultValue)]
            && storage.Namespace(OtherKind(kind)) == old(storage.Namespace(OtherKind(kind))))
    // A failed creation publishes nothing and reaches no binding.
    ensures r.Failure? ==>
      channel.log == old(channel.log)
      && forall b :: b in channel.listeners ==> unchanged(b, b.cell)
    // A created cell: its fields, storage agreeing with it, one publish.
    ensures r.Success? ==>
      var p := r.value;
      fresh(p) && p.id == id && p.key == params.key
      && p.storageType == Some(KindOrLocal(params.storageType))
      && p.defaultValue == params.defaultValue
      && (KeyGiven(p.key) ==>
            ReadEntry(storage.Namespace(KindOrLocal(params.storageType)), p.key.value) == Success(p.value))
      && channel.log == old(channel.log) + [p.AsEnvelope()]
      && channel.Fanout(p.AsEnvelope())
  {
    var kind := KindOrLocal(params.storageType);
    var p := new Pulse(id, params.key, Some(kind), params.defaultValue, params.defaultValue);
    if KeyGiven(params.key) {
      var key := params.key.value;
      var checked := registry.CheckKey(key);
      if checked.Failure? {
        return Failure(checked.error);
      }
      var stored := storage.Get(key, p.storageType);
      if stored.Failure? {
        return Failure(stored.error);
      }
      if Truthy(stored.value) {
        p.value := stored.value;
      } else {
        storage.Set(key, params.defaultValue, p.storageType);
        ReadAfterWrite(old(storage.Namespace(kind)), key, params.defaultValue);
      }
    }
    channel.Publish(p.AsEnvelope());
    return Success(p);
  }

  /** `setPulseValue`: a keyed cell's value goes to storage under the cell's
      own kind; then one envelope with the cell's fields and the new value
      is published. The cell itself is returned, and only the subscribers
      of its id assign its value. */
  method SetPulseValue(p: Pulse, v: Value, storage: Storage, channel: Channel)
    returns (r: Pulse)
    requires channel.Valid()
    modifies storage, channel, channel.Members(), channel.Cells()
    ensures r == p
    ensures KeyGiven(p.key) ==>
      var kind := KindOrLocal(p.storageType);
      storage.Namespace(kind) == old(storage.Namespace(kind))[p.key.value := Json.Encode(v)]
      && storage.Namespace(OtherKind(kind)) == old(storage.Namespace(OtherKind(kind)))
      && ReadEntry(storage.Namespace(kind), p.key.value) == Success(v)
    ensures !KeyGiven(p.key) ==> unchanged(storage)
    ensures channel.Valid() && channel.listeners == old(channel.listeners)
    ensures channel.log == old(channel.log) + [Envelope(p.id, p.key, p.storageType, p.defaultValue, v)]
    ensures channel.Fanout(Envelope(p.id, p.key, p.storageType, p.defaultValue, v))
    // Every subscriber of the cell's id, the writer's own binding included,
    // now shows `v`.
    ensures forall b :: b in channel.listeners && b.cell.id == p.id ==> b.snapshot == v && b.cell.value == v
    ensures p !in old(channel.Cells()) ==> p.value == old(p.value)
  {
    if KeyGiven(p.key) {
      storage.Set(p.key.value, v, p.storageType);
      ReadAfterWrite(old(storage.Namespace(KindOrLocal(p.storageType))), p.key.value, v);
    }
    var e := Envelope(p.id, p.key, p.storageType, p.defaultValue, v);
    channel.Publish(e);
    return p;
  }

  /** `getPulseValue`: a keyed cell is read from storage under its own
      kind; an unkeyed cell answers with the value it holds. */
  method GetPulseValue(p: Pulse, storage: Storage) returns (r: Result<Value>)
    ensures KeyGiven(p.key) ==>
      r == ReadEntry(storage.Namespace(KindOrLocal(p.storageType)), p.key.value)
    ensures !KeyGiven(p.key) ==> r == Success(p.value)
  {
    if KeyGiven(p.key) {
      r := storage.Get(p.key.value, p.storageType);
    } else {
      r := Success(p.value);
    }
  }

  /** The mount of `usePulse`: a new binding of `cell`, with the default
      value as its snapshot and an idle callback, joins the channel. */
  method Attach(cell: Pulse, callback: Option<Callback>, channel: Channel) returns (b: Binding)
    requires channel.Valid()
    modifies channel
    ensures fresh(b) && b.cell == cell && b.callback == callback
    ensures b.snapshot == cell.defaultValue && b.Run() == Idle
    ensures channel.Valid() && channel.listeners == old(channel.listeners) + [b]
    ensures channel.log == old(channel.log)
  {
    b := new Binding(cell, callback);
    channel.Subscribe(b);
  }

  /** A keyed cell written with `SetPulseValue` and read back with
      `GetPulseValue` gives the written value. */
  method SetThenGet(p: Pulse, v: Value, storage: Storage, channel: Channel) returns (r: Result<Value>)
    requires channel.Valid() && KeyGiven(p.key)
    modifies storage, channel, channel.Members(), channel.Cells()
    ensures r == Success(v)
  {
    var _ := SetPulseValue(p, v, storage, channel);
    r := GetPulseValue(p, storage);
  }

  /** An unkeyed cell that no binding is attached to keeps answering with
      its old value after a write: only subscribers assign a cell's value. */
  method SetThenGetUnbound(p: Pulse, v: Value, storage: Storage, channel: Channel)
    returns (r: Result<Value>)
    requires channel.Valid() && !KeyGiven(p.key) && p !in channel.Cells()
    modifies storage, channel, channel.Members(), channel.Cells()
    ensures r == Success(old(p.value))
  {
    var _ := SetPulseValue(p, v, storage, channel);
    r := GetPulseValue(p, storage);
  }

  /** A keyed value outlives the process: a new process (empty registry)
      that creates a cell with the same key and kind adopts the written
      value, unless that value is falsy, in which case it starts again
      from its default. */
  method SetThenRecreate(p: Pulse, v: Value, params: PulseParams, id: int,
                         storage: Storage, channel: Channel)
    returns (q: Result<Pulse>)
    requires channel.Valid() && KeyGiven(p.key)
    requires params.key == p.key && KindOrLocal(params.storageType) == KindOrLocal(p.storageType)
    modifies storage, channel, channel.Members(), channel.Cells()
    ensures q.Success?
    ensures Truthy(v) ==> q.value.value == v
    ensures !Truthy(v) ==> q.value.value == params.defaultValue
  {
    var _ := SetPulseValue(p, v, storage, channel);
    var registry := new KeyRegistry();
    q := CreatePulse(params, id, registry, storage, channel);
  }

  /** A detached binding is out of reach: a later write to its cell leaves
      its snapshot and its run state as they were. */
  method DetachThenSet(b: Binding, v: Value, storage: Storage, channel: Channel)
    requires channel.Valid()
    modifies storage, channel, channel.Members(), channel.Cells()
    ensures b.snapshot == old(b.snapshot) && b.Run() == old(b.Run())
  {
    channel.Unsubscribe(b);
    var _ := SetPulseValue(b.cell, v, storage, channel);
  }
}
