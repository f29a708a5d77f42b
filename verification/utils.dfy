/** The process-wide key registry (`keyCache`, `checkKey`) and the storage
    adapter over the two browser namespaces (`persistantStorageSet`,
    `persistantStorageGet`). */
module Utils {
  import opened Types
  import Json

  // ----- Key registry --------------------------------------------------

  /** The names a plain JavaScript object `{}` answers for without ever
      having been given them: the properties it inherits from
      Object.prototype. */
  const InheritedNames: set<string> := {
    "constructor", "hasOwnProperty", "isPrototypeOf", "propertyIsEnumerable",
    "toLocaleString", "toString", "valueOf", "__proto__",
    "__defineGetter__", "__defineSetter__", "__lookupGetter__", "__lookupSetter__"
  }

  /** `checkKey` as written, on the registered keys `keys`: the lookup
      `keyCache[key]` on a plain object is truthy for every registered key
      and also for every inherited name. Gives the outcome and the keys
      registered afterwards. */
  function CheckKeyAsWritten(keys: set<string>, key: string): (r: (Result<bool>, set<string>))
    ensures r.0.Failure? <==> key != "" && (key in keys || key in InheritedNames)
    ensures r.0.Failure? ==> r.0.error == DuplicateKey(key) && r.1 == keys
    ensures r.0.Success? ==> r.0.value
    ensures r.0.Success? && key == "" ==> r.1 == keys
    ensures r.0.Success? && key != "" ==> r.1 == keys + {key}
  {
    if key == "" then (Success(true), keys)
    else if key in keys || key in InheritedNames then (Failure(DuplicateKey(key)), keys)
    else (Success(true), keys + {key})
  }

  /** As written, a cell keyed with an inherited name such as "toString" is
      refused as a duplicate whatever the registry holds, the very first
      such cell included, although no cell has used that key. */
  lemma InheritedKeyRefusedAsWritten(keys: set<string>, key: string)
    requires key in InheritedNames
    ensures CheckKeyAsWritten(keys, key) == (Failure(DuplicateKey(key)), keys)
    ensures CheckKeyAsWritten({}, key) == (Failure(DuplicateKey(key)), {})
  {
  }

  /** `keyCache`: the durable keys in use by some cell of this process. */
  class KeyRegistry {
    var keys: set<string>

    constructor ()
      ensures keys == {}
    {
      keys := {};
    }

    /** `checkKey`: registers a non-empty key that no cell uses yet, and
        refuses one that some cell uses, leaving the registry as it was. */
    method CheckKey(key: string) returns (r: Result<bool>)
      modifies this
      ensures key == "" ==> r == Success(true) && keys == old(keys)
      ensures key != "" && key in old(keys) ==> r == Failure(DuplicateKey(key)) && keys == old(keys)
      ensures key != "" && key !in old(keys) ==> r == Success(true) && keys == old(keys) + {key}
    {
      if key == "" {
        return Success(true);
      }
      if key in keys {
        return Failure(DuplicateKey(key));
      } else {
        keys := keys + {key};
        return Success(true);
      }
    }
  }

  // ----- Storage adapter -----------------------------------------------

  /** What `persistantStorageGet` makes of the entry for `key` in one
      namespace: a missing or empty entry reads as null; any other entry
      is decoded, and a text that does not decode is an error. */
  function ReadEntry(ns: map<string, string>, key: string): (r: Result<Value>)
    ensures key !in ns || ns[key] == "" ==> r == Success(Null)
    ensures key in ns && ns[key] != "" ==> (r.Success? <==> Json.Decode(ns[key]).Some?)
    ensures key in ns && ns[key] != "" && r.Success? ==> Json.Encode(r.value) == ns[key]
    ensures r.Failure? ==> key in ns && r.error == ParseError(ns[key])
  {
    if key !in ns || ns[key] == "" then Success(Null)
    else match Json.Decode(ns[key])
      case Some(v) => Json.EncodeDecode(ns[key], v); Success(v)
      case None => Failure(ParseError(ns[key]))
  }

  /** A value written under `key` is read back unchanged. */
  lemma ReadAfterWrite(ns: map<string, string>, key: string, v: Value)
    ensures ReadEntry(ns[key := Json.Encode(v)], key) == Success(v)
  {
    Json.DecodeEncode(v);
  }

  /** `localStorage` and `sessionStorage`: two independent namespaces from
      keys to the texts stored under them. */
  class Storage {
    var local: map<string, string>
    var session: map<string, string>

    constructor (local: map<string, string>, session: map<string, string>)
      ensures this.local == local && this.session == session
    {
      this.local := local;
      this.session := session;
    }

    function Namespace(kind: StorageKind): map<string, string>
      reads this
    {
      match kind
      case Local => local
      case Session => session
    }

    /** `persistantStorageSet`: stores the encoding of `v` under `key` in
        the chosen namespace (Local when none is given) and touches
        nothing else. */
    method Set(key: string, v: Value, kind: Option<StorageKind>)
      modifies this
      ensures Namespace(KindOrLocal(kind)) == old(Namespace(KindOrLocal(kind)))[key := Json.Encode(v)]
      ensures Namespace(OtherKind(KindOrLocal(kind))) == old(Namespace(OtherKind(KindOrLocal(kind))))
    {
      var storageType := KindOrLocal(kind);
      if storageType == Session {
        session := session[key := Json.Encode(v)];
      } else if storageType == Local {
        local := local[key := Json.Encode(v)];
      }
    }

    /** `persistantStorageGet`: reads `key` from the chosen namespace
        (Local when none is given) only. */
    method Get(key: string, kind: Option<StorageKind>) returns (r: Result<Value>)
      ensures r == ReadEntry(Namespace(KindOrLocal(kind)), key)
    {
      var text: Option<string> := None;
      var storageType := KindOrLocal(kind);
      if storageType == Session {
        if key in session {
          text := Some(session[key]);
        }
      } else if storageType == Local {
        if key in local {
          text := Some(local[key]);
        }
      }
      if text.Some? && text.value != "" {
        match Json.Decode(text.value)
        case Some(v) => r := Success(v);
        case None => r := Failure(ParseError(text.value));
      } else {
        r := Success(Null);
      }
    }
  }
}
