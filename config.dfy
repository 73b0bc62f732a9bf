/** The interface configuration records the core reads (`InterfaceConfig`) and the
    `{item.id: item for item in interfaces}` registry built from them. */
module Config {
  import opened Wrappers
  import opened Seqs

  /** One configured data interface. `columnsMap` is `{}` when the configuration gives none. */
  datatype InterfaceConfig = InterfaceConfig(
    id: string,
    sourceDomain: string,
    freq: string,
    scope: string,
    availRule: string,
    columnsMap: map<string, string>,
    bootstrapSource: Option<string>)

  /** `interfaces_map.get(id)`: a configuration with that id, if any (the last one: see
      `LookupIsLast`). */
  function Lookup(cfgs: seq<InterfaceConfig>, id: string): (r: Option<InterfaceConfig>)
    ensures r.Some? <==> id in IdsOf(cfgs)
    ensures r.Some? ==> r.value.id == id && r.value in cfgs
    decreases |cfgs|
  {
    if cfgs == [] then None
    else if cfgs[|cfgs| - 1].id == id then Some(cfgs[|cfgs| - 1])
    else Lookup(cfgs[..|cfgs| - 1], id)
  }

  /** The ids of the configurations, in order. */
  function IdsOf(cfgs: seq<InterfaceConfig>): (r: seq<string>)
    ensures |r| == |cfgs| && forall k :: 0 <= k < |cfgs| ==> r[k] == cfgs[k].id
    decreases |cfgs|
  {
    if cfgs == [] then [] else IdsOf(cfgs[..|cfgs| - 1]) + [cfgs[|cfgs| - 1].id]
  }

  /** The dict comprehension keeps the last configuration listed under an id. */
  lemma {:induction false} LookupIsLast(cfgs: seq<InterfaceConfig>, id: string, k: nat)
    requires k < |cfgs| && cfgs[k].id == id
    requires forall j :: k < j < |cfgs| ==> cfgs[j].id != id
    ensures Lookup(cfgs, id) == Some(cfgs[k])
    decreases |cfgs|
  {
    if k < |cfgs| - 1 {
      LookupIsLast(cfgs[..|cfgs| - 1], id, k);
    }
  }

  /** `interfaces_map.values()`: one configuration per distinct id, in order of the id's first
      appearance, each being the configuration `Lookup` returns for it. */
  function Values(cfgs: seq<InterfaceConfig>): (r: seq<InterfaceConfig>)
  {
    var ids := AppendNew([], IdsOf(cfgs));
    seq(|ids|, k requires 0 <= k < |ids| => Lookup(cfgs, ids[k]).value)
  }

  /** Every registered id contributes exactly one value, the configuration `Lookup` finds for
      it, and nothing else is a value. */
  lemma ValuesSpec(cfgs: seq<InterfaceConfig>)
    ensures NoDup(IdsOf(Values(cfgs)))
    ensures forall c :: c in Values(cfgs) <==> Lookup(cfgs, c.id) == Some(c)
  {
    var ids := AppendNew([], IdsOf(cfgs));
    AppendNewNoDup([], IdsOf(cfgs));
    ValuesIds(cfgs);
    var vs := Values(cfgs);
    forall c: InterfaceConfig | Lookup(cfgs, c.id) == Some(c) ensures c in vs {
      var j := IndexOf(ids, c.id);
      assert vs[j] == c;
    }
  }

  /** The values are listed in the order of their ids' first appearance. */
  lemma ValuesIds(cfgs: seq<InterfaceConfig>)
    ensures var ids := AppendNew([], IdsOf(cfgs));
            && IdsOf(Values(cfgs)) == ids
            && forall c :: c in ids <==> c in IdsOf(cfgs)
  {
    var ids := AppendNew([], IdsOf(cfgs));
    var vs := Values(cfgs);
    assert IdsOf(vs) == ids;
  }
}
