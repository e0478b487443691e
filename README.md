# etcd key reconciliation, modelled in Dafny

The `etcd` Ansible module makes one key of an etcd v2 store match a requested
state: `present` (a leaf holding `value`), `directory`, or `absent`. One run
of its `main()` reads the key twice, first with `client.get(key)` for the
previous value and then with `client.read(key)` for the full record. It builds
the `results` and `data` dictionaries from those reads. It then either
predicts `changed` (check mode) or takes one of the `directory`, `present`
and `absent` branches. A branch issues at most one `write` or `delete` and
ends in `exit_json`, `fail_json` or an uncaught exception.

The model has five modules in four files:

- `EtcdTypes` (etcd_types.dfy) holds the parameters, store nodes, read
  records, the `results`/`data` dictionaries, store calls, call faults and
  run outcomes.
- `Observation` (observation.dfy) turns the `read` record into `results` and
  `data`. The child dictionary is filled by a loop (`IndexChildren`), which
  is proved against the specification function `ChildIndex`.
- `Reconcile` and `ReconcileProperties` (reconcile.dfy) hold `Decide`, the
  pure branching of `main()` after the reads. The lemmas state each branch
  of the decision table.
- `Store` (store.dfy) holds the `Client` class with the store's nodes as a
  `map<string, Node>` field. `Client.Execute` is `main()` as a method: it
  reads, observes, decides, and applies at most one mutating call
  (`Client.Perform`). Store-level lemmas cover idempotence and cases where
  the store stays untouched.

The two reads are separate inputs to the decision, and nothing forces them
to agree. The client library's `get(...).value` on a directory is not
visible in this repository. The store model takes it as a parameter
(`Client.dirValue`). Idempotence holds for every value of it. Lemmas that
need the reads to agree say so with the explicit premise `ReadsAgree`, which
includes "a directory reports no value".

Behaviour of the code that the model keeps as it is:

- Check mode only predicts `changed` (lines 300-306). It never reports
  the failures a real run can end in.
- Check mode reports no change for a `directory` request, even when the
  real run creates the directory (lines 309-313).
- A `present` request on a directory is decided from the previous value
  that `get` reports. When the directory reports no value and a value is
  given, the value is written. When it reports a value, the run is a
  no-op, fails with the "already set" message, or overwrites only with
  `override`.
- The `recursive` option is documented as recursively deleting a
  directory (lines 115-119), but it never affects the run.
- `absent` on a directory never deletes anything. Lines 353 and 358 test
  `data['children'] is None`, but that entry is either missing (so the
  lookup raises) or a dictionary.

## Model

| member | source | states |
|---|---|---|
| `Observation.ChildIndexKeys` | library/etcd.py:290-293 | the children dictionary has exactly the keys of the listed children |
| `Observation.ChildIndexLastWins` | library/etcd.py:290-293 | each key maps to the last listed child carrying that key |
| `Observation.ChildIndexSound` | library/etcd.py:290-293 | every entry of the children dictionary is a listed child filed under its own key |
| `Observation.IndexChildren` | library/etcd.py:290-293 | the loop over the child list builds exactly the dictionary `ChildIndex` describes |
| `Observation.Normalise` | library/etcd.py:264-297 | `changed` starts false; `dir` is true iff the record exists and is a directory; `value` is set iff the record is a leaf and then is its value; `data` exists iff the record exists and echoes its key, kind and value; `data.children` exists iff the child list is non-empty, is keyed by the children's keys, and is `ChildIndex` of the list, which files each listed child under its key, the last one winning |
| `Observation.Observe` | library/etcd.py:264-297 | building `results` and `data` field by field, with the children loop, yields `Normalise` of the record |
| `Reconcile.Issue` | library/etcd.py:326-330 | a branch that issues a call exits iff the call succeeds, and fails (rather than crashes) iff a connection error is raised where the branch catches it |
| `Reconcile.Decide` | library/etcd.py:299-371 | at most one call, on the requested key; check mode calls nothing and always exits; a leaf write only for `present` with that value, a directory write only for `directory` with no previous value and no directory, a delete only for `absent` with a previous value; a failure after a call only comes from a connection error; a real run reports `changed` iff it issued a call that succeeded; the reported dictionary differs from the observed one only in `changed` and `dir` |
| `Reconcile.CheckModeChanged` | library/etcd.py:301-305 | check mode reports a change iff the request is `absent` with a previous value, or `present` with a value that differs from the previous one |
| `ReconcileProperties.RecursiveIgnored` | library/etcd.py:347-369 | the `recursive` flag never changes the decision, so no recursive delete is ever issued |
| `ReconcileProperties.CheckModePrediction` | library/etcd.py:300-306 | check mode calls nothing, exits, and reports `changed` false for `present` without a value over an existing value, true for `present` with a value differing from the previous one, false when equal, true for `absent` iff a previous value exists, false for every `directory` request |
| `ReconcileProperties.CheckModeMissesMissingValue` | library/etcd.py:300-324 | `present` without a value on a key with no previous value exits unchanged in check mode while the real run fails with the missing-value message and writes nothing |
| `ReconcileProperties.CheckModeMissesDirectoryCreation` | library/etcd.py:300-313 | for `directory` on a missing key check mode reports no change while the real run writes the directory and reports a change |
| `ReconcileProperties.CheckModeMatchesSuccessfulRun` | library/etcd.py:300-369 | outside `directory`, when both reads agree and the real run exits, check mode reports the real run's `changed` |
| `ReconcileProperties.DirectoryState` | library/etcd.py:309-318 | no previous value and no directory: one directory write, then `changed` and `dir` on success and a crash otherwise; a directory: exit unchanged with no call; a previous value and no directory: fail with the non-directory message and no call |
| `ReconcileProperties.PresentMissingKey` | library/etcd.py:322-330 | no previous value and no value given: fail with the missing-value message and no call; a value given: exactly one write of it, `changed` on success, "Cannot connect to target." on a connection error, a crash on any other error |
| `ReconcileProperties.PresentUnchanged` | library/etcd.py:331-335 | a previous value equal to the requested one, or no value requested: exit with the observed dictionary, unchanged, and no call |
| `ReconcileProperties.NoSilentOverwrite` | library/etcd.py:336-342 | a differing previous value without `override`: fail with the message naming key and previous value, no write; with `override`: exactly one write of the new value, `changed` iff it succeeds, a crash on any error |
| `ReconcileProperties.AbsentState` | library/etcd.py:347-369 | no previous value: exit unchanged with no call; a previous value but no record: crash; a leaf: exactly one delete, `changed` on success, "Cannot connect to target." on a connection error; a directory: never a call and never `changed`; an empty directory with a previous value: crash on the missing `children` entry |
| `Store.GetValue` | library/etcd.py:268-274 | a key not found gives `None`; a leaf gives `Some` of its value; a directory gives whatever the client library reports for one |
| `Store.ReadRecord` | library/etcd.py:277-297 | a record exists iff the key is in the store, and then echoes the requested key and the node stored there |
| `Store.Effect` | library/etcd.py:309-369 | a call that is absent or raises leaves the store as it was; no key other than the called one changes |
| `Store.StoreReadsAgree` | library/etcd.py:268-278 | when a directory reports no value, the `get` and `read` of one store agree |
| `Store.Idempotent` | library/etcd.py:309-369 | after a successful real run, running again with the same parameters on the updated store issues no call, exits, and reports no change, whatever a directory reports as its value |
| `Store.FailureLeavesStore` | library/etcd.py:309-369 | a run that fails or crashes leaves the store as it was |
| `Store.CheckModeLeavesStore` | library/etcd.py:299-306 | a check-mode run leaves the store as it was |
| `Store.EmptyDirectoryNotDeleted` | library/etcd.py:347-362 | `absent` on an empty directory issues no delete: a no-op when a directory reports no value, a crash on the missing `children` entry otherwise |
| `Store.Client.Perform` | library/etcd.py:309-369 | the store after a write or delete is `Effect` of the store before it |
| `Store.Client.Execute` | library/etcd.py:264-371 | one run returns the decision taken from the two reads of the store as it was; the store afterwards is that decision's effect; it is unchanged in check mode and whenever the run does not exit normally |

## Left out

- Ansible plumbing is not modelled: the argument spec and parameter parsing, the documentation strings, and how `exit_json`/`fail_json` report. The last two are modelled only as terminal outcomes.
- The check that the python etcd library can be imported and the `/v2` API-version guard are left out, as environment and parameter validation.
- Connection setup is left out as network transport: protocol, host, port, TLS material, credentials, redirects and read timeout.
- Reads never fail in the model. A `get` or `read` that raises something other than "key not found" ends the real run with an uncaught exception; that case is not modelled.
- Store calls are abstract. A leaf write sets the key to that leaf, even over a directory. A directory write sets an empty directory. A delete removes the key.
- A call that raises is taken to leave the store unchanged.
- Parent directories created implicitly by etcd are not modelled, and directory listings are not kept consistent with the other nodes.
- Exceptions come in two kinds: the `ConnectionError` that the module catches, and everything else. Whether the client library ever raises that Ansible `ConnectionError` is not visible here.
- The directory deletes at lines 355 and 360 can never be reached, and the `prev_value is nonsense` branch at line 344 is dead. None of these has a counterpart in the model.
- A child in a directory listing keeps only its key, kind and value, not the other fields of the raw node record.
- `value` is a string. The key echoed by `read` is taken to be the requested key.
- The race between the two reads is captured only by treating them as independent inputs.
