/** Values that flow through one run of the etcd module: the parameters it is
    given, what the etcd v2 store holds at a key, what a read of that key
    returns, the `results` dictionary it reports, the single mutating store
    call it may issue, and how the run ends. */
module EtcdTypes {

  datatype Option<+T> = None | Some(value: T)

  /** The module's `state` parameter. */
  datatype State = Present | Absent | Directory

  /** The parameters that reach the decision: `key`, `value` (no default),
      `override`, `recursive`, and whether the run is in check mode. */
  datatype Params = Params(
    state: State,
    key: string,
    value: Option<string>,
    override: bool,
    recursive: bool,
    checkMode: bool)

  /** One entry of a directory listing as the client library hands it back:
      a raw node record with its full key. */
  datatype Child = Child(key: string, dir: bool, value: Option<string>)

  /** What the store holds at a key: a leaf with its value, or a directory
      with the listing of its immediate children. */
  datatype Node = Leaf(value: string) | Dir(children: seq<Child>)
  {
    /** The record's child list; a leaf has none. */
    function Children(): (cs: seq<Child>)
      ensures Leaf? ==> cs == []
    {
      match this
      case Leaf(_) => []
      case Dir(cs) => cs
    }
  }

  /** The answer of `client.read(key)` when the key exists: the key the
      store echoes and the node found there. */
  datatype Record = Record(key: string, node: Node)

  /** The `data` dictionary: `value` only for a leaf, `children` only when the
      record lists at least one child, keyed by each child's key. */
  datatype Data = Data(
    key: string,
    dir: bool,
    value: Option<string>,
    children: Option<map<string, Child>>)

  /** The `results` dictionary handed to `exit_json`; `value` and `data` are
      `None` when the dictionary has no such entry. */
  datatype Results = Results(
    changed: bool,
    key: string,
    dir: bool,
    value: Option<string>,
    data: Option<Data>)

  /** The mutating store calls the module can issue. */
  datatype Call =
    | WriteLeaf(key: string, value: string)   // client.write(key, value)
    | WriteDir(key: string)                   // client.write(key, None, dir=True)
    | Delete(key: string)                     // client.delete(key)
  {
    function Key(): string
    {
      match this
      case WriteLeaf(k, _) => k
      case WriteDir(k) => k
      case Delete(k) => k
    }
  }

  /** How the environment answers the mutating call: it succeeds, it raises
      the `ConnectionError` the module catches, or it raises anything else. */
  datatype Fault = NoFault | ConnectionFault | OtherFault

  /** Why a run ends with an uncaught Python exception. */
  datatype CrashReason =
    | MissingChildren      // data['children'] on a directory without children: KeyError
    | MissingRecord        // data['dir'] with data = None: TypeError
    | UncaughtStoreError   // a store call raised and nothing caught it

  /** How a run ends: `exit_json(**results)`, `fail_json(msg=...)`, or an
      uncaught exception. */
  datatype Outcome =
    | Exit(results: Results)
    | Fail(msg: string)
    | Crash(reason: CrashReason)

  /** The decision of one run: the store call issued (at most one), and the
      outcome once that call has answered. */
  datatype Decision = Decision(call: Option<Call>, outcome: Outcome)
}
