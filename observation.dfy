/** The first part of `main()`: turning the answer of `client.read(key)` into
    the `data` dictionary and the initial `results` dictionary. */
module Observation {
  import opened EtcdTypes

  /** The children dictionary as the loop leaves it: each child stored under
      its own key, a later child replacing an earlier one with the same key. */
  function ChildIndex(cs: seq<Child>): map<string, Child>
  {
    if cs == [] then map[]
    else ChildIndex(cs[..|cs| - 1])[cs[|cs| - 1].key := cs[|cs| - 1]]
  }

  /** The dictionary's keys are exactly the keys of the listed children. */
  lemma {:induction false} ChildIndexKeys(cs: seq<Child>)
    ensures ChildIndex(cs).Keys == set c | c in cs :: c.key
  {
    if cs != [] {
      var init := cs[..|cs| - 1];
      ChildIndexKeys(init);
      assert cs == init + [cs[|cs| - 1]];
      assert (set c | c in cs :: c.key) == (set c | c in init :: c.key) + {cs[|cs| - 1].key};
    }
  }

  /** Each entry is the last listed child with that key. */
  lemma {:induction false} ChildIndexLastWins(cs: seq<Child>, i: nat)
    requires i < |cs|
    requires forall j :: i < j < |cs| ==> cs[j].key != cs[i].key
    ensures cs[i].key in ChildIndex(cs) && ChildIndex(cs)[cs[i].key] == cs[i]
  {
    if i < |cs| - 1 {
      var init := cs[..|cs| - 1];
      ChildIndexLastWins(init, i);
    }
  }

  /** Every entry is a listed child filed under its own key. */
  lemma {:induction false} ChildIndexSound(cs: seq<Child>, k: string)
    requires k in ChildIndex(cs)
    ensures ChildIndex(cs)[k] in cs && ChildIndex(cs)[k].key == k
  {
    var init := cs[..|cs| - 1];
    if k != cs[|cs| - 1].key {
      ChildIndexSound(init, k);
    }
  }

  /** The loop that fills `data['children']`, one child at a time. */
  method IndexChildren(cs: seq<Child>) returns (m: map<string, Child>)
    ensures m == ChildIndex(cs)
  {
    m := map[];
    for i := 0 to |cs|
      invariant m == ChildIndex(cs[..i])
    {
      assert cs[..i + 1][..i] == cs[..i];
      m := m[cs[i].key := cs[i]];
    }
    assert cs[..|cs|] == cs;
  }

  /** The `results` dictionary right after both reads: `changed` false, the
      requested key, and what the read found. */
  function Normalise(key: string, rec: Option<Record>): (r: Results)
    ensures !r.changed && r.key == key
    ensures r.dir <==> rec.Some? && rec.value.node.Dir?
    ensures r.value.Some? <==> rec.Some? && rec.value.node.Leaf?
    ensures r.value.Some? ==> r.value.value == rec.value.node.value
    ensures r.data.Some? <==> rec.Some?
    ensures r.data.Some? ==>
      && r.data.value.key == rec.value.key
      && r.data.value.dir == r.dir
      && r.data.value.value == r.value
      && (r.data.value.children.Some? <==> rec.value.node.Children() != [])
      && (r.data.value.children.Some? ==>
            && r.data.value.children.value.Keys == (set c | c in rec.value.node.Children() :: c.key)
            && r.data.value.children.value == ChildIndex(rec.value.node.Children()))
  {
    match rec
    case None => Results(false, key, false, None, None)
    case Some(Record(k, node)) =>
      var cs := node.Children();
      ChildIndexKeys(cs);
      var children := if cs != [] then Some(ChildIndex(cs)) else None;
      match node
      case Dir(_) => Results(false, key, true, None, Some(Data(k, true, None, children)))
      case Leaf(v) => Results(false, key, false, Some(v), Some(Data(k, false, Some(v), children)))
  }

  /** Builds `results` and `data` field by field, as `main()` does after the
      two reads. */
  method Observe(key: string, rec: Option<Record>) returns (results: Results)
    ensures results == Normalise(key, rec)
  {
    results := Results(changed := false, key := key, dir := false, value := None, data := None);
    if rec.Some? {
      var record := rec.value;
      var data := Data(key := record.key, dir := false, value := None, children := None);
      if record.node.Dir? {
        data := data.(dir := true);
        results := results.(dir := true);
      } else {
        data := data.(value := Some(record.node.value));
        results := results.(value := Some(record.node.value));
      }
      var cs := record.node.Children();
      if cs != [] {
        var children := IndexChildren(cs);
        data := data.(children := Some(children));
      }
      results := results.(data := Some(data));
    }
  }
}
