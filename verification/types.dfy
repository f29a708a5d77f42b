/** The records and enums of the library: storage kinds, the values a cell
    holds, creation parameters, the cell itself and the envelope the
    broadcast channel carries. */
module Types {

  datatype Option<+T> = None | Some(value: T) {
    function GetOr(default: T): T {
      match this
      case Some(v) => v
      case None => default
    }
  }

  /** The two ways an operation of the library fails by throwing. */
  datatype Error =
    | DuplicateKey(key: string)   // checkKey: "Key: ... already used by another pulse state"
    | ParseError(text: string)    // JSON.parse on a stored entry that is not valid JSON

  datatype Result<+T> = Success(value: T) | Failure(error: Error)

  /** `StorageEnum`: the two storage namespaces and their numeric codes. */
  datatype StorageKind = Local | Session {
    function Code(): (c: int)
      ensures c == 1 <==> this == Local
      ensures c == 2 <==> this == Session
    {
      match this
      case Local => 1
      case Session => 2
    }
  }

  /** The optional `storageType` argument, falling back to Local when it is
      omitted (the default parameter of the storage functions and the `??`
      of creation). */
  function KindOrLocal(kind: Option<StorageKind>): StorageKind {
    kind.GetOr(Local)
  }

  /** The other namespace than `kind`. */
  function OtherKind(kind: StorageKind): (k: StorageKind)
    ensures k != kind
  {
    if kind == Local then Session else Local
  }

  /** `Number.MAX_SAFE_INTEGER`, 2^53 - 1: every integer of magnitude at
      most this is held exactly by a JavaScript number. */
  const MaxSafeInteger: int := 0x1F_FFFF_FFFF_FFFF

  /** The integers of magnitude at most 2^53 - 1, all of which a
      JavaScript number holds exactly. */
  type SafeInteger = n: int | -MaxSafeInteger <= n <= MaxSafeInteger

  /** A value a cell can hold: the JSON scalars, with numbers restricted to
      the integers of magnitude at most 2^53 - 1. */
  datatype Value = Null | Bool(b: bool) | Num(n: SafeInteger) | Str(s: string)

  /** JavaScript truthiness, as in `if (value)`: null, false, 0 and the
      empty string are falsy, everything else is truthy. */
  predicate Truthy(v: Value)
    ensures Truthy(v) <==> v !in {Null, Bool(false), Num(0), Str("")}
  {
    match v
    case Null => false
    case Bool(b) => b
    case Num(n) => n != 0
    case Str(s) => s != ""
  }

  /** `if (key)` on an optional key: present and not the empty string. */
  predicate KeyGiven(key: Option<string>) {
    key.Some? && key.value != ""
  }

  /** `PulseParams`: what creation is given. */
  datatype PulseParams = PulseParams(
    defaultValue: Value,
    key: Option<string>,
    storageType: Option<StorageKind>)

  /** What `pulseObserver.next` carries: the fields of a cell at the time of
      publishing, with the value being published. */
  datatype Envelope = Envelope(
    id: int,
    key: Option<string>,
    storageType: Option<StorageKind>,
    defaultValue: Value,
    value: Value)

  /** `Pulse`: a state cell. Only `value` is ever updated after creation. */
  class Pulse {
    const id: int
    const key: Option<string>
    const storageType: Option<StorageKind>
    const defaultValue: Value
    var value: Value

    constructor (id: int, key: Option<string>, storageType: Option<StorageKind>,
                 defaultValue: Value, value: Value)
      ensures this.id == id && this.key == key && this.storageType == storageType
      ensures this.defaultValue == defaultValue && this.value == value
    {
      this.id := id;
      this.key := key;
      this.storageType := storageType;
      this.defaultValue := defaultValue;
      this.value := value;
    }

    /** The cell published as it stands. */
    function AsEnvelope(): Envelope
      reads this
    {
      Envelope(id, key, storageType, defaultValue, value)
    }
  }
}
