/** The decision part of `main()`: check mode, then the `directory`,
    `present` and `absent` branches. `prev` is what `client.get(key).value`
    returned (`None` when the key was not found) and `obs` is the `results`
    dictionary built from the separate `client.read(key)`; nothing requires
    the two reads to agree. `fault` is how the store answers the one
    mutating call, if the branch issues one. */
module Reconcile {
  import opened EtcdTypes
  import opened Observation

  function NonDirectoryMsg(key: string): string
  {
    "A non-directory key already exists at " + key
  }

  function MissingValueMsg(key: string): string
  {
    "Key " + key + " does not exist and new value not provided."
  }

  const ConnectMsg: string := "Cannot connect to target."

  function AlreadySetMsg(key: string, prev: string): string
  {
    "The Key '" + key + "' is already set with '" + prev + "', exiting..."
  }

  /** Issues `call`; the branch then reports a change, or turns a connection
      error into a failure when `catchConnection` holds, or crashes. */
  function Issue(call: Call, fault: Fault, catchConnection: bool, done: Results): (d: Decision)
    ensures d.call == Some(call)
    ensures d.outcome.Exit? <==> fault.NoFault?
    ensures d.outcome.Fail? <==> fault.ConnectionFault? && catchConnection
  {
    var outcome :=
      match fault
      case NoFault => Exit(done)
      case ConnectionFault => if catchConnection then Fail(ConnectMsg) else Crash(UncaughtStoreError)
      case OtherFault => Crash(UncaughtStoreError);
    Decision(Some(call), outcome)
  }

  /** What check mode reports as `changed`. */
  predicate CheckModeChanged(p: Params, prev: Option<string>): (r: bool)
    ensures r <==>
      (p.state == Absent && prev.Some?) || (p.state == Present && p.value.Some? && prev != p.value)
  {
    if p.state == Present && p.value.None? && prev.Some? then false
    else (p.state == Absent && prev.Some?) || (p.state == Present && prev != p.value)
  }

  function Decide(p: Params, prev: Option<string>, obs: Results, fault: Fault): (d: Decision)
    requires !obs.changed  // `results` starts with changed=False
    // at most one store call, always on the requested key
    ensures d.call.Some? ==> d.call.value.Key() == p.key
    // check mode never calls the store and never fails
    ensures p.checkMode ==> d.call.None? && d.outcome.Exit?
    // each call is one the requested state asks for
    ensures d.call.Some? && d.call.value.WriteLeaf? ==>
      p.state == Present && p.value == Some(d.call.value.value)
    ensures d.call.Some? && d.call.value.WriteDir? ==> p.state == Directory && prev.None? && !obs.dir
    ensures d.call.Some? && d.call.value.Delete? ==> p.state == Absent && prev.Some?
    // a failure decided by the module itself comes before any call; after a
    // call, only a caught connection error fails
    ensures d.outcome.Fail? && d.call.Some? ==> fault.ConnectionFault?
    // a real run reports a change exactly when it mutated the store
    ensures !p.checkMode && d.outcome.Exit? ==>
      (d.outcome.results.changed <==> d.call.Some?)
    ensures d.call.Some? ==> (d.outcome.Exit? <==> fault.NoFault?)
    // the reported dictionary is the observed one with `changed` (and `dir`) set
    ensures d.outcome.Exit? ==>
      d.outcome.results.(changed := obs.changed, dir := obs.dir) == obs
  {
    if p.checkMode then
      Decision(None, Exit(obs.(changed := CheckModeChanged(p, prev))))
    else
      match p.state
      case Directory =>
        if prev.None? && !obs.dir then
          Issue(WriteDir(p.key), fault, false, obs.(changed := true, dir := true))
        else if obs.dir then
          Decision(None, Exit(obs))
        else
          Decision(None, Fail(NonDirectoryMsg(p.key)))
      case Present =>
        if prev.None? then
          if p.value.None? then
            Decision(None, Fail(MissingValueMsg(p.key)))
          else
            Issue(WriteLeaf(p.key, p.value.value), fault, true, obs.(changed := true))
        else if prev == p.value || p.value.None? then
          Decision(None, Exit(obs.(changed := false)))
        else if p.override then
          Issue(WriteLeaf(p.key, p.value.value), fault, false, obs.(changed := true))
        else
          Decision(None, Fail(AlreadySetMsg(p.key, prev.value)))
      case Absent =>
        if prev.None? then
          Decision(None, Exit(obs.(changed := false)))
        else if obs.data.None? then
          Decision(None, Crash(MissingRecord))
        else if obs.data.value.dir then
          // `data['children'] is None` never holds: the entry is either
          // missing (KeyError) or a dictionary, so no delete is issued
          if obs.data.value.children.None? then
            Decision(None, Crash(MissingChildren))
          else
            Decision(None, Exit(obs))
        else
          Issue(Delete(p.key), fault, true, obs.(changed := true))
  }

  /** The decision taken from the two reads, with `results` normalised from
      the second one. */
  function Run(p: Params, prev: Option<string>, rec: Option<Record>, fault: Fault): Decision
  {
    Decide(p, prev, Normalise(p.key, rec), fault)
  }
}

/** What each branch of `main()` does, stated over the two reads. */
module ReconcileProperties {
  import opened EtcdTypes
  import opened Observation
  import opened Reconcile

  predicate IsDir(rec: Option<Record>)
  {
    rec.Some? && rec.value.node.Dir?
  }

  /** The two reads saw the same node, and `get` reports no value for a
      directory (the client library's behaviour on directories, which the
      module itself does not show). */
  predicate ReadsAgree(prev: Option<string>, rec: Option<Record>)
  {
    match rec
    case None => prev.None?
    case Some(Record(_, Leaf(v))) => prev == Some(v)
    case Some(Record(_, Dir(_))) => prev.None?
  }

  /** Check mode never calls the store, always exits, and reports `changed`
      by the table of the check-mode block. */
  lemma CheckModePrediction(p: Params, prev: Option<string>, rec: Option<Record>, fault: Fault)
    requires p.checkMode
    ensures var d := Run(p, prev, rec, fault);
      && d.call.None?
      && d.outcome.Exit?
      && d.outcome.results == Normalise(p.key, rec).(changed := d.outcome.results.changed)
      && (p.state == Present && p.value.None? && prev.Some? ==> !d.outcome.results.changed)
      && (p.state == Present && p.value.Some? && prev != p.value ==> d.outcome.results.changed)
      && (p.state == Present && prev == p.value ==> !d.outcome.results.changed)
      && (p.state == Absent ==> (d.outcome.results.changed <==> prev.Some?))
      && (p.state == Directory ==> !d.outcome.results.changed)
  {
  }

  /** The `recursive` option is read nowhere in the decision. */
  lemma RecursiveIgnored(p: Params, prev: Option<string>, rec: Option<Record>, fault: Fault)
    ensures Run(p.(recursive := true), prev, rec, fault) == Run(p.(recursive := false), prev, rec, fault)
  {
  }

  /** Check mode does not predict failure: a `present` request without a
      value on a missing key exits unchanged in check mode, while the real
      run fails without writing. */
  lemma CheckModeMissesMissingValue(p: Params, rec: Option<Record>, fault: Fault)
    requires p.state == Present && p.value.None?
    ensures var d := Run(p.(checkMode := true), None, rec, fault);
      d.call.None? && d.outcome.Exit? && !d.outcome.results.changed
    ensures Run(p.(checkMode := false), None, rec, fault) == Decision(None, Fail(MissingValueMsg(p.key)))
  {
  }

  /** Check mode reports no change for a `directory` request on a missing
      key, while the real run creates the directory. */
  lemma CheckModeMissesDirectoryCreation(p: Params)
    requires p.state == Directory
    ensures var d := Run(p.(checkMode := true), None, None, NoFault);
      d.outcome.Exit? && !d.outcome.results.changed
    ensures var d := Run(p.(checkMode := false), None, None, NoFault);
      d.call == Some(WriteDir(p.key)) && d.outcome.Exit? && d.outcome.results.changed
  {
  }

  /** Outside the `directory` state, and when the two reads agree, check
      mode reports exactly the `changed` of a real run that succeeds. */
  lemma CheckModeMatchesSuccessfulRun(p: Params, prev: Option<string>, rec: Option<Record>)
    requires p.state != Directory
    requires ReadsAgree(prev, rec)
    requires Run(p.(checkMode := false), prev, rec, NoFault).outcome.Exit?
    ensures Run(p.(checkMode := true), prev, rec, NoFault).outcome.results.changed
      == Run(p.(checkMode := false), prev, rec, NoFault).outcome.results.changed
  {
  }

  /** The `directory` state: create when nothing is there, accept an existing
      directory, refuse a leaf. */
  lemma DirectoryState(p: Params, prev: Option<string>, rec: Option<Record>, fault: Fault)
    requires !p.checkMode && p.state == Directory
    ensures var d := Run(p, prev, rec, fault);
      && (prev.None? && !IsDir(rec) ==>
            d.call == Some(WriteDir(p.key))
            && (fault.NoFault? ==> d.outcome.Exit? && d.outcome.results.changed && d.outcome.results.dir)
            && (!fault.NoFault? ==> d.outcome == Crash(UncaughtStoreError)))
      && (IsDir(rec) ==> d == Decision(None, Exit(Normalise(p.key, rec))))
      && (prev.Some? && !IsDir(rec) ==> d == Decision(None, Fail(NonDirectoryMsg(p.key))))
  {
  }

  /** `present` on a key whose `get` found nothing: fail without a value,
      otherwise write it once. */
  lemma PresentMissingKey(p: Params, rec: Option<Record>, fault: Fault)
    requires !p.checkMode && p.state == Present
    ensures var d := Run(p, None, rec, fault);
      && (p.value.None? ==> d == Decision(None, Fail(MissingValueMsg(p.key))))
      && (p.value.Some? ==>
            && d.call == Some(WriteLeaf(p.key, p.value.value))
            && (fault.NoFault? ==> d.outcome.Exit? && d.outcome.results.changed)
            && (fault.ConnectionFault? ==> d.outcome == Fail(ConnectMsg))
            && (fault.OtherFault? ==> d.outcome.Crash?))
  {
  }

  /** `present` with the value already there, or with no value requested:
      nothing is written and nothing changes. */
  lemma PresentUnchanged(p: Params, prev: Option<string>, rec: Option<Record>, fault: Fault)
    requires !p.checkMode && p.state == Present
    requires prev.Some? && (prev == p.value || p.value.None?)
    ensures Run(p, prev, rec, fault) == Decision(None, Exit(Normalise(p.key, rec)))
  {
  }

  /** An existing value that differs from the requested one is replaced only
      with `override`; without it the run fails naming the key and the
      existing value, and writes nothing. */
  lemma NoSilentOverwrite(p: Params, prev: Option<string>, rec: Option<Record>, fault: Fault)
    requires !p.checkMode && p.state == Present
    requires prev.Some? && p.value.Some? && prev != p.value
    ensures var d := Run(p, prev, rec, fault);
      && (!p.override ==> d == Decision(None, Fail(AlreadySetMsg(p.key, prev.value))))
      && (p.override ==>
            && d.call == Some(WriteLeaf(p.key, p.value.value))
            && (d.outcome.Exit? <==> fault.NoFault?)
            && (d.outcome.Exit? ==> d.outcome.results.changed)
            && (!fault.NoFault? ==> d.outcome == Crash(UncaughtStoreError)))
  {
  }

  /** The `absent` state: nothing to do without a value, one delete for a
      leaf, and never a delete for a directory. */
  lemma AbsentState(p: Params, prev: Option<string>, rec: Option<Record>, fault: Fault)
    requires !p.checkMode && p.state == Absent
    ensures var d := Run(p, prev, rec, fault);
      && (prev.None? ==> d == Decision(None, Exit(Normalise(p.key, rec))))
      && (prev.Some? && rec.None? ==> d == Decision(None, Crash(MissingRecord)))
      && (prev.Some? && rec.Some? && rec.value.node.Leaf? ==>
            && d.call == Some(Delete(p.key))
            && (fault.NoFault? ==> d.outcome.Exit? && d.outcome.results.changed)
            && (fault.ConnectionFault? ==> d.outcome == Fail(ConnectMsg))
            && (fault.OtherFault? ==> d.outcome.Crash?))
      && (IsDir(rec) ==> d.call.None? && (d.outcome.Exit? ==> !d.outcome.results.changed))
      && (prev.Some? && IsDir(rec) && rec.value.node.children == [] ==>
            d.outcome == Crash(MissingChildren))
  {
  }
}
