/** The etcd client as `main()` uses it: the store's nodes by key, the two
    reads, the three mutating calls, and `main()` itself as one run against
    the store. */
module Store {
  import opened EtcdTypes
  import opened Observation
  import opened Reconcile
  import opened ReconcileProperties

  /** `client.get(key).value`, with `None` when the key is not found;
      `dirValue` is what the client library reports for a directory. */
  function GetValue(nodes: map<string, Node>, key: string, dirValue: Option<string>): (v: Option<string>)
    ensures key !in nodes ==> v.None?
    ensures key in nodes && nodes[key].Leaf? ==> v == Some(nodes[key].value)
    ensures key in nodes && nodes[key].Dir? ==> v == dirValue
  {
    if key !in nodes then None
    else match nodes[key]
      case Leaf(v) => Some(v)
      case Dir(_) => dirValue
  }

  /** `client.read(key)`, with `None` when the key is not found. */
  function ReadRecord(nodes: map<string, Node>, key: string): (r: Option<Record>)
    ensures r.Some? <==> key in nodes
    ensures r.Some? ==> r.value.key == key && r.value.node == nodes[key]
  {
    if key in nodes then Some(Record(key, nodes[key])) else None
  }

  /** The store after the decided call: a call that raised leaves it as it
      was. */
  function Effect(nodes: map<string, Node>, call: Option<Call>, fault: Fault): (after: map<string, Node>)
    ensures call.None? || !fault.NoFault? ==> after == nodes
    // nothing but the called key changes
    ensures forall k :: k in nodes && (call.None? || k != call.value.Key()) ==> k in after && after[k] == nodes[k]
    ensures forall k :: k in after && (call.None? || k != call.value.Key()) ==> k in nodes
  {
    if call.None? || !fault.NoFault? then nodes
    else match call.value
      case WriteLeaf(k, v) => nodes[k := Leaf(v)]
      case WriteDir(k) => nodes[k := Dir([])]
      case Delete(k) => nodes - {k}
  }

  /** One run of `main()` against the store, as a value. */
  function RunOn(p: Params, nodes: map<string, Node>, dirValue: Option<string>, fault: Fault): Decision
  {
    Run(p, GetValue(nodes, p.key, dirValue), ReadRecord(nodes, p.key), fault)
  }

  /** With the client library reporting no value for a directory, both reads
      of one store agree. */
  lemma StoreReadsAgree(nodes: map<string, Node>, key: string)
    ensures ReadsAgree(GetValue(nodes, key, None), ReadRecord(nodes, key))
  {
  }

  /** After a successful real run, running again with the same parameters
      against the updated store changes nothing and calls nothing, whatever
      the client library reports for a directory. */
  lemma Idempotent(p: Params, nodes: map<string, Node>, dirValue: Option<string>, fault: Fault, fault2: Fault)
    requires !p.checkMode
    requires RunOn(p, nodes, dirValue, fault).outcome.Exit?
    ensures var after := Effect(nodes, RunOn(p, nodes, dirValue, fault).call, fault);
      var again := RunOn(p, after, dirValue, fault2);
      again.call.None? && again.outcome.Exit? && !again.outcome.results.changed
  {
  }

  /** A run that does not exit normally leaves the store as it was. */
  lemma FailureLeavesStore(p: Params, nodes: map<string, Node>, dirValue: Option<string>, fault: Fault)
    requires !RunOn(p, nodes, dirValue, fault).outcome.Exit?
    ensures Effect(nodes, RunOn(p, nodes, dirValue, fault).call, fault) == nodes
  {
  }

  /** Check mode leaves the store as it was. */
  lemma CheckModeLeavesStore(p: Params, nodes: map<string, Node>, dirValue: Option<string>, fault: Fault)
    requires p.checkMode
    ensures Effect(nodes, RunOn(p, nodes, dirValue, fault).call, fault) == nodes
  {
  }

  /** An `absent` request on an empty directory deletes nothing: with no
      value reported for a directory it is a no-op, and otherwise the
      lookup of the missing `children` entry raises. */
  lemma EmptyDirectoryNotDeleted(p: Params, nodes: map<string, Node>, dirValue: Option<string>, fault: Fault)
    requires !p.checkMode && p.state == Absent
    requires p.key in nodes && nodes[p.key] == Dir([])
    ensures var d := RunOn(p, nodes, dirValue, fault);
      && d.call.None?
      && (dirValue.None? ==> d.outcome.Exit? && !d.outcome.results.changed)
      && (dirValue.Some? ==> d.outcome == Crash(MissingChildren))
  {
  }

  class Client {
    /** The store's nodes, by key. */
    var nodes: map<string, Node>
    /** What `get(key).value` reports for a directory node. */
    const dirValue: Option<string>

    constructor (nodes: map<string, Node>, dirValue: Option<string>)
      ensures this.nodes == nodes && this.dirValue == dirValue
    {
      this.nodes := nodes;
      this.dirValue := dirValue;
    }

    /** Issues one mutating call; it takes effect unless it raises. */
    method Perform(call: Call, fault: Fault)
      modifies this
      ensures nodes == Effect(old(nodes), Some(call), fault)
    {
      if fault.NoFault? {
        match call
        case WriteLeaf(k, v) => nodes := nodes[k := Leaf(v)];
        case WriteDir(k) => nodes := nodes[k := Dir([])];
        case Delete(k) => nodes := nodes - {k};
      }
    }

    /** One run of the module: read the key twice, build `results`, decide,
        and issue at most one mutating call. */
    method Execute(p: Params, fault: Fault) returns (d: Decision)
      modifies this
      ensures d == RunOn(p, old(nodes), dirValue, fault)
      ensures nodes == Effect(old(nodes), d.call, fault)
      ensures p.checkMode ==> nodes == old(nodes)
      ensures !d.outcome.Exit? ==> nodes == old(nodes)
    {
      var prev := GetValue(nodes, p.key, dirValue);
      var rec := ReadRecord(nodes, p.key);
      var results := Observe(p.key, rec);
      d := Decide(p, prev, results, fault);
      if d.call.Some? {
        Perform(d.call.value, fault);
      }
    }
  }
}
