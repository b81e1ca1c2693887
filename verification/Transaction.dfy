/**
 A bbolt write transaction on one shard: buckets changed in place by the loops that
 maintain indexes, labels and unique entries. Each loop is tied to the function of the
 buckets that the run proofs reason about.
 */
module Transaction {
  import opened Types
  import opened Keys
  import opened Store
  import opened Leader

  // ---- one key more ---------------------------------------------------------------------------------

  lemma PropKeysStep(r: Render, done: set<Str>, p: Str, id: NodeID, props: Props)
    ensures PropKeys(r, done + {p}, id, props) ==
              PropKeys(r, done, id, props) + (if p in props then {PropKey(r, p, props[p], id)} else {})
  {
  }

  lemma CompKeyIn(r: Render, composite: map<Str, seq<Str>>, c: Str, id: NodeID, props: Props)
    requires c in composite && HasAll(composite[c], props)
    ensures CompKey(r, composite[c], props, id) in CompKeys(r, composite, id, props)
  {
  }

  lemma CompKeysStep(r: Render, composite: map<Str, seq<Str>>, todo: set<Str>, c: Str, id: NodeID, props: Props)
    requires c in composite && c in todo
    ensures CompKeys(r, composite - (todo - {c}), id, props)
            == CompKeys(r, composite - todo, id, props) + (if HasAll(composite[c], props) then
                                                           {CompKey(r, composite[c], props, id)} else {})
  {
    var a, b := composite - todo, composite - (todo - {c});
    forall k | k in CompKeys(r, a, id, props) ensures k in CompKeys(r, b, id, props) {
      var x :| x in a && HasAll(a[x], props) && k == CompKey(r, a[x], props, id);
      CompKeyIn(r, b, x, id, props);
    }
    if HasAll(composite[c], props) {
      CompKeyIn(r, b, c, id, props);
    }
    forall k | k in CompKeys(r, b, id, props)
      ensures k in CompKeys(r, a, id, props) ||
              (HasAll(composite[c], props) && k == CompKey(r, composite[c], props, id))
    {
      var x :| x in b && HasAll(b[x], props) && k == CompKey(r, b[x], props, id);
      if x != c {
        CompKeyIn(r, a, x, id, props);
      }
    }
  }

  lemma PutMore(s: set<Str>, a: set<Str>, b: set<Str>)
    ensures s + (a + b) == (s + a) + b && s - (a + b) == (s - a) - b && s + {} == s && s - {} == s
  {
  }

  lemma PropLoopStep(r: Render, s: set<Str>, indexed: set<Str>, todo: set<Str>, p: Str, id: NodeID, props: Props)
    requires p in todo && todo <= indexed
    ensures var one := if p in props then {PropKey(r, p, props[p], id)} else {};
            && s + PropKeys(r, indexed - (todo - {p}), id, props) == (s + PropKeys(r, indexed - todo, id, props)) + one
            && s - PropKeys(r, indexed - (todo - {p}), id, props) == (s - PropKeys(r, indexed - todo, id, props)) - one
  {
    PropKeysStep(r, indexed - todo, p, id, props);
    assert indexed - (todo - {p}) == (indexed - todo) + {p};
    PutMore(s, PropKeys(r, indexed - todo, id, props), if p in props then {PropKey(r, p, props[p], id)} else {});
  }

  lemma LabelKeysStep(names: seq<Str>, j: nat, id: NodeID)
    requires j < |names|
    ensures LabelKeys(names[..j + 1], id) == LabelKeys(names[..j], id) + {IndexKey(names[j], id)}
  {
    assert names[..j + 1] == names[..j] + [names[j]];
  }

  /** The unique keys of one label under some of the constraints. */
  ghost function KeysUnder(r: Render, unique: map<Str, Constraint>, l: Str, props: Props): set<Str> {
    set k | k in unique && unique[k].name == l && unique[k].prop in props :: KeyOf(r, unique[k], props)
  }

  lemma KeysUnderStep(r: Render, unique: map<Str, Constraint>, todo: set<Str>, k: Str, l: Str, props: Props)
    requires k in unique && k in todo
    ensures KeysUnder(r, unique - (todo - {k}), l, props)
            == KeysUnder(r, unique - todo, l, props) + (if unique[k].name == l &&
                                                        unique[k].prop in props then {KeyOf(r, unique[k], props)}
                                                          else {})
  {
    var a, b := unique - todo, unique - (todo - {k});
    forall x ensures x in KeysUnder(r, b, l, props) <==>
        x in KeysUnder(r, a, l, props) ||
            (unique[k].name == l && unique[k].prop in props && x == KeyOf(r, unique[k], props))
    {
      if x in KeysUnder(r, a, l, props) {
        var y :| y in a && a[y].name == l && a[y].prop in props && x == KeyOf(r, a[y], props);
        assert y in b && b[y] == a[y];
      }
      if unique[k].name == l && unique[k].prop in props && x == KeyOf(r, unique[k], props) {
        assert k in b && b[k] == unique[k];
      }
      if x in KeysUnder(r, b, l, props) {
        var y :| y in b && b[y].name == l && b[y].prop in props && x == KeyOf(r, b[y], props);
        if y != k {
          assert y in a && a[y] == b[y];
        }
      }
    }
  }

  lemma UniqueKeysStep(r: Render, reg: Registry, names: seq<Str>, j: nat, props: Props)
    requires j < |names|
    ensures UniqueKeys(r, reg, names[..j + 1], props) ==
              UniqueKeys(r, reg, names[..j], props) + KeysUnder(r, reg.unique, names[j], props)
  {
    assert names[..j + 1] == names[..j] + [names[j]];
    forall x ensures x in UniqueKeys(r, reg, names[..j + 1], props) <==>
        x in UniqueKeys(r, reg, names[..j], props) || x in KeysUnder(r, reg.unique, names[j], props)
    {
      if x in UniqueKeys(r, reg, names[..j + 1], props) {
        var c :| c in Bearing(reg, names[..j + 1], props) && x == KeyOf(r, c, props);
        var k :| k in reg.unique && reg.unique[k] == c && c.name in names[..j + 1] && c.prop in props;
        if c.name in names[..j] {
          assert c in Bearing(reg, names[..j], props);
        }
      }
      if x in UniqueKeys(r, reg, names[..j], props) {
        var c :| c in Bearing(reg, names[..j], props) && x == KeyOf(r, c, props);
        assert c in Bearing(reg, names[..j + 1], props);
      }
      if x in KeysUnder(r, reg.unique, names[j], props) {
        var k :| k in reg.unique && reg.unique[k].name == names[j] && reg.unique[k].prop in props &&
            x == KeyOf(r, reg.unique[k], props);
        assert reg.unique[k] in Bearing(reg, names[..j + 1], props);
      }
    }
  }

  // ---- reading loops -----------------------------------------------------------------------------------

  lemma RenderedStep(r: Render, def: seq<Str>, props: Props, j: nat)
    requires HasAll(def, props) && j < |def|
    ensures HasAll(def[..j], props) && HasAll(def[..j + 1], props)
    ensures Rendered(r, def[..j + 1], props) == Rendered(r, def[..j], props) + [r(props[def[j]])]
  {
    assert forall p :: p in def[..j + 1] ==> p in def;
    assert forall p :: p in def[..j] ==> p in def;
    var a, b := Rendered(r, def[..j + 1], props), Rendered(r, def[..j], props) + [r(props[def[j]])];
    assert |a| == |b| && forall i :: 0 <= i < |a| ==> a[i] == b[i];
  }

  lemma FieldsStep(fs: seq<Str>, f: Str)
    ensures Fields(fs + [f]) == Fields(fs) + f + [NUL]
  {
    FieldsConcat(fs, [f]);
    assert Fields([f]) == f + [NUL];
  }

  method WriteNames(def: seq<Str>) returns (buf: Str)
    ensures buf == Fields(def)
  {
    buf := [];
    for j := 0 to |def|
      invariant buf == Fields(def[..j])
    {
      assert def[..j + 1] == def[..j] + [def[j]];
      FieldsStep(def[..j], def[j]);
      buf := buf + def[j] + [NUL];
    }
    assert def[..|def|] == def;
  }

  lemma ValuesStep(r: Render, def: seq<Str>, props: Props, j: nat)
    requires j < |def| && HasAll(def[..j], props) && def[j] in props
    ensures HasAll(def[..j + 1], props)
    ensures Fields(Rendered(r, def[..j + 1], props)) == Fields(Rendered(r, def[..j], props)) + r(props[def[j]]) + [NUL]
  {
    var upto := def[..j + 1];
    assert upto == def[..j] + [def[j]];
    assert HasAll(upto, props);
    RenderedStep(r, upto, props, j);
    assert upto[..j] == def[..j] && upto[..j + 1] == upto;
    FieldsStep(Rendered(r, def[..j], props), r(props[def[j]]));
  }

  method WriteValues(r: Render, def: seq<Str>, props: Props) returns (buf: Option<Str>)
    ensures buf.Some? <==> HasAll(def, props)
    ensures buf.Some? ==> buf.value == Fields(Rendered(r, def, props))
  {
    var out: Str := [];
    for j := 0 to |def|
      invariant HasAll(def[..j], props) && out == Fields(Rendered(r, def[..j], props))
    {
      if def[j] !in props {
        return None;
      }
      ValuesStep(r, def, props, j);
      out := out + r(props[def[j]]) + [NUL];
    }
    assert def[..|def|] == def;
    return Some(out);
  }

  /** buildCompositeKey: names, then values, then the ID; None as soon as a property is missing. */
  method BuildCompositeKey(r: Render, def: seq<Str>, props: Props, id: NodeID) returns (key: Option<Str>)
    ensures key.Some? <==> HasAll(def, props)
    ensures key.Some? ==> key.value == CompKey(r, def, props, id)
  {
    var names := WriteNames(def);
    var values := WriteValues(r, def, props);
    key := if values.Some? then Some(names + values.value + EncodeID(id)) else None;
  }

  /** Every unique key of a node: labels outside, constraints inside, in whatever order the registry yields them. */
  method EnumerateUniqueKeys(r: Render, reg: Registry, names: seq<Str>, props: Props) returns (keys: seq<Str>)
    ensures forall k :: k in keys <==> k in UniqueKeys(r, reg, names, props)
  {
    keys := [];
    for j := 0 to |names|
      invariant forall k :: k in keys <==> k in UniqueKeys(r, reg, names[..j], props)
    {
      var more := KeysOfLabel(r, reg, names[j], props);
      UniqueKeysStep(r, reg, names, j, props);
      keys := keys + more;
    }
    assert names[..|names|] == names;
  }

  method KeysOfLabel(r: Render, reg: Registry, l: Str, props: Props) returns (keys: seq<Str>)
    ensures forall k :: k in keys <==> k in KeysUnder(r, reg.unique, l, props)
  {
    keys := [];
    var todo := reg.unique.Keys;
    while todo != {}
      invariant todo <= reg.unique.Keys
      invariant forall k :: k in keys <==> k in KeysUnder(r, reg.unique - todo, l, props)
      decreases |todo|
    {
      var k :| k in todo;
      var c := reg.unique[k];
      KeysUnderStep(r, reg.unique, todo, k, l, props);
      if c.name == l && c.prop in props {
        keys := keys + [UniqueKey(l, c.prop, r(props[c.prop]))];
      }
      todo := todo - {k};
    }
    assert reg.unique - todo == reg.unique;
  }

  /** AddLabel's loop over the requested labels. */
  method MissingLabels(existing: seq<Str>, names: seq<Str>) returns (added: seq<Str>)
    ensures added == NewLabels(existing, names)
  {
    added := [];
    for j := 0 to |names|
      invariant added == NewLabels(existing, names[..j])
    {
      assert names[..j + 1][..j] == names[..j];
      if names[j] !in existing {
        added := added + [names[j]];
      }
    }
    assert names[..|names|] == names;
  }

  /** RemoveLabel's loop over the labels held. */
  method RemainingLabels(existing: seq<Str>, names: seq<Str>) returns (kept: seq<Str>)
    ensures kept == KeptLabels(existing, names)
  {
    kept := [];
    for j := 0 to |existing|
      invariant kept == KeptLabels(existing[..j], names)
    {
      assert existing[..j + 1][..j] == existing[..j];
      if existing[j] !in names {
        kept := kept + [existing[j]];
      }
    }
    assert existing[..|existing|] == existing;
  }

  ghost function OwnedBy(keys: seq<Str>, id: NodeID): map<Str, NodeID> {
    map k | k in keys :: id
  }

  lemma OwnedStep(was: map<Str, NodeID>, keys: seq<Str>, j: nat, id: NodeID)
    requires j < |keys|
    ensures was + OwnedBy(keys[..j + 1], id) == (was + OwnedBy(keys[..j], id))[keys[j] := id]
  {
    assert keys[..j + 1] == keys[..j] + [keys[j]];
  }

  lemma OwnedAll(r: Render, reg: Registry, names: seq<Str>, props: Props, keys: seq<Str>, id: NodeID)
    requires forall k :: k in keys <==> k in UniqueKeys(r, reg, names, props)
    ensures OwnedBy(keys, id) == map k | k in UniqueKeys(r, reg, names, props) :: id
  {
  }

  // ---- the transaction ----------------------------------------------------------------------------------

  class Tx {
    var sh: Shard

    constructor (sh: Shard)
      ensures this.sh == sh
    {
      this.sh := sh;
    }

    /** indexNodeProps. */
    method IndexNodeProps(r: Render, reg: Registry, id: NodeID, props: Props)
      modifies this
      ensures sh == Index(r, reg, old(sh), id, props)
    {
      if props != map[] {
        IndexEachProp(r, reg, id, props);
        IndexNodeComposite(r, reg, id, props);
      }
    }

    method IndexEachProp(r: Render, reg: Registry, id: NodeID, props: Props)
      modifies this
      ensures sh == old(sh).(propIdx := old(sh).propIdx + PropKeys(r, reg.indexed, id, props))
    {
      var todo := reg.indexed;
      while todo != {}
        invariant todo <= reg.indexed
        invariant sh == old(sh).(propIdx := old(sh).propIdx + PropKeys(r, reg.indexed - todo, id, props))
        decreases |todo|
      {
        var p :| p in todo;
        PropLoopStep(r, old(sh).propIdx, reg.indexed, todo, p, id, props);
        var one := if p in props then {IndexKey(PropText(p, r(props[p])), id)} else {};
        sh := sh.(propIdx := sh.propIdx + one);
        todo := todo - {p};
      }
      assert reg.indexed - todo == reg.indexed;
    }

    method IndexNodeComposite(r: Render, reg: Registry, id: NodeID, props: Props)
      modifies this
      ensures sh == old(sh).(compIdx := old(sh).compIdx + CompKeys(r, reg.composite, id, props))
    {
      var todo := reg.composite.Keys;
      while todo != {}
        invariant todo <= reg.composite.Keys
        invariant sh == old(sh).(compIdx := old(sh).compIdx + CompKeys(r, reg.composite - todo, id, props))
        decreases |todo|
      {
        var c :| c in todo;
        CompKeysStep(r, reg.composite, todo, c, id, props);
        var key := BuildCompositeKey(r, reg.composite[c], props, id);
        PutMore(old(sh).compIdx, CompKeys(r, reg.composite - todo, id, props), if key.Some? then {key.value} else {});
        if key.Some? {
          sh := sh.(compIdx := sh.compIdx + {key.value});
        }
        todo := todo - {c};
      }
      assert reg.composite - todo == reg.composite;
    }

    /** unindexNodeProps. */
    method UnindexNodeProps(r: Render, reg: Registry, id: NodeID, props: Props)
      modifies this
      ensures sh == Unindex(r, reg, old(sh), id, props)
    {
      if props != map[] {
        UnindexEachProp(r, reg, id, props);
        UnindexNodeComposite(r, reg, id, props);
      }
    }

    method UnindexEachProp(r: Render, reg: Registry, id: NodeID, props: Props)
      modifies this
      ensures sh == old(sh).(propIdx := old(sh).propIdx - PropKeys(r, reg.indexed, id, props))
    {
      var todo := reg.indexed;
      while todo != {}
        invariant todo <= reg.indexed
        invariant sh == old(sh).(propIdx := old(sh).propIdx - PropKeys(r, reg.indexed - todo, id, props))
        decreases |todo|
      {
        var p :| p in todo;
        PropLoopStep(r, old(sh).propIdx, reg.indexed, todo, p, id, props);
        var one := if p in props then {IndexKey(PropText(p, r(props[p])), id)} else {};
        sh := sh.(propIdx := sh.propIdx - one);
        todo := todo - {p};
      }
      assert reg.indexed - todo == reg.indexed;
    }

    method UnindexNodeComposite(r: Render, reg: Registry, id: NodeID, props: Props)
      modifies this
      ensures sh == old(sh).(compIdx := old(sh).compIdx - CompKeys(r, reg.composite, id, props))
    {
      var todo := reg.composite.Keys;
      while todo != {}
        invariant todo <= reg.composite.Keys
        invariant sh == old(sh).(compIdx := old(sh).compIdx - CompKeys(r, reg.composite - todo, id, props))
        decreases |todo|
      {
        var c :| c in todo;
        CompKeysStep(r, reg.composite, todo, c, id, props);
        var key := BuildCompositeKey(r, reg.composite[c], props, id);
        PutMore(old(sh).compIdx, CompKeys(r, reg.composite - todo, id, props), if key.Some? then {key.value} else {});
        if key.Some? {
          sh := sh.(compIdx := sh.compIdx - {key.value});
        }
        todo := todo - {c};
      }
      assert reg.composite - todo == reg.composite;
    }

    method IndexLabels(names: seq<Str>, id: NodeID)
      modifies this
      ensures sh == old(sh).(labelIdx := old(sh).labelIdx + LabelKeys(names, id))
    {
      for j := 0 to |names|
        invariant sh == old(sh).(labelIdx := old(sh).labelIdx + LabelKeys(names[..j], id))
      {
        LabelKeysStep(names, j, id);
        sh := sh.(labelIdx := sh.labelIdx + {IndexKey(names[j], id)});
      }
      assert names[..|names|] == names;
    }

    method UnindexLabels(names: seq<Str>, id: NodeID)
      modifies this
      ensures sh == old(sh).(labelIdx := old(sh).labelIdx - LabelKeys(names, id))
    {
      for j := 0 to |names|
        invariant sh == old(sh).(labelIdx := old(sh).labelIdx - LabelKeys(names[..j], id))
      {
        LabelKeysStep(names, j, id);
        sh := sh.(labelIdx := sh.labelIdx - {IndexKey(names[j], id)});
      }
      assert names[..|names|] == names;
    }

    /** checkUniqueConstraintsInTx: stop at the first key another node holds. */
    method CheckUnique(r: Render, reg: Registry, names: seq<Str>, props: Props, exclude: NodeID) returns (bad: bool)
      ensures bad <==> Violates(r, reg, sh, names, props, exclude)
    {
      var keys := EnumerateUniqueKeys(r, reg, names, props);
      for j := 0 to |keys|
        invariant forall i :: 0 <= i < j ==> !(keys[i] in sh.uniqIdx && sh.uniqIdx[keys[i]] != exclude)
      {
        if keys[j] in sh.uniqIdx && sh.uniqIdx[keys[j]] != exclude {
          assert keys[j] in keys;
          return true;
        }
      }
      return false;
    }

    /** indexUniqueConstraints. */
    method PutUnique(r: Render, reg: Registry, id: NodeID, names: seq<Str>, props: Props)
      modifies this
      ensures sh == IndexUnique(r, reg, old(sh), id, names, props)
    {
      var keys := EnumerateUniqueKeys(r, reg, names, props);
      ghost var was := sh.uniqIdx;
      for j := 0 to |keys|
        invariant sh == old(sh).(uniqIdx := was + OwnedBy(keys[..j], id))
      {
        OwnedStep(was, keys, j, id);
        sh := sh.(uniqIdx := sh.uniqIdx[keys[j] := id]);
      }
      assert keys[..|keys|] == keys;
      OwnedAll(r, reg, names, props, keys, id);
    }

    /** unindexUniqueConstraints: entries of other owners stay. */
    method DropUniqueKeys(r: Render, reg: Registry, id: NodeID, names: seq<Str>, props: Props)
      modifies this
      ensures sh == UnindexUnique(r, reg, old(sh), id, names, props)
    {
      var keys := EnumerateUniqueKeys(r, reg, names, props);
      ghost var was := sh.uniqIdx;
      for j := 0 to |keys|
        invariant sh == old(sh).(uniqIdx := sh.uniqIdx)
        invariant forall k :: k in sh.uniqIdx <==> k in was && !(k in keys[..j] && was[k] == id)
        invariant forall k :: k in sh.uniqIdx ==> sh.uniqIdx[k] == was[k]
      {
        assert keys[..j + 1] == keys[..j] + [keys[j]];
        if keys[j] in sh.uniqIdx && sh.uniqIdx[keys[j]] == id {
          sh := sh.(uniqIdx := sh.uniqIdx - {keys[j]});
        }
      }
      assert keys[..|keys|] == keys;
      assert sh.uniqIdx == UnindexUnique(r, reg, old(sh), id, names, props).uniqIdx;
    }

    // ---- edges ------------------------------------------------------------------------------------------

    /** Edge record, outgoing entry, type index. */
    method PutOutgoing(e: Edge)
      modifies this
      ensures sh.(edgeCount := sh.edgeCount + 1) == PutEdge(old(sh), e)
    {
      sh := sh.(edges := sh.edges[e.id := e]);
      sh := sh.(adjOut := sh.adjOut[(e.from, e.id) := AdjVal(e.to, e.lbl)]);
      sh := sh.(edgeType := sh.edgeType + {IndexKey(e.lbl, e.id)});
    }

    method PutIncomingEntry(e: Edge)
      modifies this
      ensures sh == PutIncoming(old(sh), e)
    {
      sh := sh.(adjIn := sh.adjIn[(e.to, e.id) := AdjVal(e.from, e.lbl)]);
    }

    method DeleteOutgoing(e: Edge)
      modifies this
      ensures sh.(edgeCount := sh.edgeCount - 1) == DropEdge(old(sh), e.id, e.from, e.lbl)
    {
      sh := sh.(edges := sh.edges - {e.id});
      sh := sh.(adjOut := sh.adjOut - {(e.from, e.id)});
      sh := sh.(edgeType := sh.edgeType - {IndexKey(e.lbl, e.id)});
    }

    method DeleteIncomingEntry(e: Edge)
      modifies this
      ensures sh == DropIncoming(old(sh), e.id, e.to)
    {
      sh := sh.(adjIn := sh.adjIn - {(e.to, e.id)});
    }
  }
}
