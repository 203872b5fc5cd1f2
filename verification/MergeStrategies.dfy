/** The additive merge that every commit applies
    (gigaevo/database/merge_strategies.py). */
module MergeStrategies {
  import opened Prelude
  import opened Programs

  /** The merge of two dictionaries as a map: shared keys go to the newer side,
      and a tie goes to the stored side. */
  function MergedDict<V>(current: map<string, V>, incoming: map<string, V>, preferIncoming: bool): map<string, V> {
    if preferIncoming then current + incoming else incoming + current
  }

  /** The loop of _merge_dict_by_prog_ts. */
  method MergeDictByProgTs<V>(current: map<string, V>, incoming: map<string, V>, currentTs: nat, incomingTs: nat)
    returns (merged: map<string, V>)
    ensures merged == MergedDict(current, incoming, incomingTs > currentTs)
  {
    merged := current;
    if incomingTs > currentTs {
      merged := merged + incoming;
    } else {
      var todo := incoming.Keys;
      while todo != {}
        invariant todo <= incoming.Keys
        invariant merged == (incoming - todo) + current
        decreases todo
      {
        var k :| k in todo;
        if k !in merged {
          merged := merged[k := incoming[k]];
        }
        assert (incoming - (todo - {k})) == (incoming - todo)[k := incoming[k]];
        todo := todo - {k};
      }
      assert incoming - todo == incoming;
    }
  }

  /** The incoming children the stored program does not have yet. */
  function NewChildren(seen: set<Id>, incoming: seq<Id>): (added: seq<Id>)
    ensures forall c :: c in added <==> c in incoming && c !in seen
  {
    if incoming == [] then []
    else
      var front, c := NewChildren(seen, incoming[..|incoming| - 1]), incoming[|incoming| - 1];
      if c in seen then front else front + [c]
  }

  function MergeLineage(current: Lineage, incoming: Lineage): Lineage {
    current.(children := current.children + NewChildren(Elements(current.children), incoming.children))
  }

  /** A child that is not stored yet comes over as often as it is listed. */
  lemma {:induction false} NewChildrenCount(seen: set<Id>, incoming: seq<Id>, c: Id)
    ensures multiset(NewChildren(seen, incoming))[c] == if c in seen then 0 else multiset(incoming)[c]
  {
    if incoming != [] {
      var front, last := incoming[..|incoming| - 1], incoming[|incoming| - 1];
      NewChildrenCount(seen, front, c);
      assert incoming == front + [last];
    }
  }

  lemma {:induction false} NewChildrenSplit(seen: set<Id>, a: seq<Id>, b: seq<Id>)
    ensures NewChildren(seen, a + b) == NewChildren(seen, a) + NewChildren(seen, b)
  {
    if b == [] {
      assert a + b == a;
    } else {
      var front, c := b[..|b| - 1], b[|b| - 1];
      var last := if c in seen then [] else [c];
      NewChildrenSplit(seen, a, front);
      assert b == front + [c] && a + b == (a + front) + [c];
      NewChildrenLast(seen, front, c);
      NewChildrenLast(seen, a + front, c);
      Associates(NewChildren(seen, a), NewChildren(seen, front), last);
    }
  }

  lemma NewChildrenLast(seen: set<Id>, front: seq<Id>, c: Id)
    ensures NewChildren(seen, front + [c]) == NewChildren(seen, front) + if c in seen then [] else [c]
  {
    assert (front + [c])[..|front|] == front;
  }

  /** No child outside `seen` is listed twice. */
  ghost predicate NewOnce(seen: set<Id>, children: seq<Id>) {
    forall i, j :: 0 <= i < j < |children| && children[i] == children[j] ==> children[i] in seen
  }

  lemma NewOnceLast(seen: set<Id>, front: seq<Id>, c: Id)
    ensures NewOnce(seen, front + [c]) <==> NewOnce(seen, front) && (c in front ==> c in seen)
  {
    var all := front + [c];
    assert all[|front|] == c;
    if NewOnce(seen, all) {
      forall i, j | 0 <= i < j < |front| && front[i] == front[j] ensures front[i] in seen {
        assert all[i] == all[j];
      }
      if i :| 0 <= i < |front| && front[i] == c {
        assert all[i] == all[|front|];
      }
    }
  }

  lemma ConcatDistinct(a: seq<Id>, b: seq<Id>)
    ensures Distinct(a + b) <==> Distinct(a) && Distinct(b) && forall c :: c in b ==> c !in a
  {
    var s, n := a + b, |a|;
    if Distinct(s) {
      forall i, j | 0 <= i < j < n ensures a[i] != a[j] {
        assert s[i] != s[j];
      }
      forall i, j | 0 <= i < j < |b| ensures b[i] != b[j] {
        assert s[n + i] != s[n + j];
      }
      forall c | c in b ensures c !in a {
        var j :| 0 <= j < |b| && b[j] == c;
        assert s[n + j] == c;
        forall i | 0 <= i < n ensures a[i] != c { assert s[i] != s[n + j]; }
      }
    }
    if Distinct(a) && Distinct(b) && forall c :: c in b ==> c !in a {
      forall i, j | 0 <= i < j < |s| ensures s[i] != s[j] {
        if i < n <= j {
          assert s[i] in a && s[j] in b;
        } else if n <= i {
          assert s[i] == b[i - n] && s[j] == b[j - n];
        }
      }
    }
  }

  lemma DistinctLast(front: seq<Id>, c: Id)
    ensures Distinct(front + [c]) <==> Distinct(front) && c !in front
  {
    ConcatDistinct(front, [c]);
  }

  lemma {:induction false} NewChildrenDistinctIff(seen: set<Id>, children: seq<Id>)
    ensures Distinct(NewChildren(seen, children)) <==> NewOnce(seen, children)
  {
    if children != [] {
      var front, c := children[..|children| - 1], children[|children| - 1];
      NewChildrenDistinctIff(seen, front);
      assert children == front + [c];
      NewOnceLast(seen, front, c);
      DistinctLast(NewChildren(seen, front), c);
    }
  }

  /** The children of a merged lineage are the union of both sides with the
      stored ones first.
      They are free of repetitions exactly when the stored ones are and no new one is
      listed twice: the source checks new children only against the stored ones, not
      against each other. */
  lemma MergeLineageIsStableUnion(current: Lineage, incoming: Lineage)
    ensures current.children <= MergeLineage(current, incoming).children
    ensures Elements(MergeLineage(current, incoming).children)
            == Elements(current.children) + Elements(incoming.children)
    ensures Distinct(MergeLineage(current, incoming).children)
      <==> Distinct(current.children) && NewOnce(Elements(current.children), incoming.children)
  {
    var added := NewChildren(Elements(current.children), incoming.children);
    NewChildrenDistinctIff(Elements(current.children), incoming.children);
    ConcatDistinct(current.children, added);
  }

  /** After the stored children come the new ones, in the order and number in which they
      are listed: each prefix of the incoming list gives a prefix of the result, with the
      right counts. */
  lemma MergeLineageKeepsOrder(current: Lineage, incoming: Lineage, n: nat, c: Id)
    requires n <= |incoming.children|
    ensures var part := MergeLineage(current, incoming.(children := incoming.children[..n])).children;
      && part <= MergeLineage(current, incoming).children
      && multiset(part)[c] == multiset(current.children)[c]
           + if c in current.children then 0 else multiset(incoming.children[..n])[c]
  {
    var seen, all := Elements(current.children), incoming.children;
    var first, added := NewChildren(seen, all[..n]), NewChildren(seen, all);
    NewChildrenSplit(seen, all[..n], all[n..]);
    assert all[..n] + all[n..] == all && first <= added;
    NewChildrenCount(seen, all[..n], c);
    assert c in seen <==> c in current.children;
    assert multiset(current.children + first)[c] == multiset(current.children)[c] + multiset(first)[c];
  }

  predicate Newer(incoming: Program, current: Program) {
    incoming.atomicCounter > current.atomicCounter
  }

  predicate NamesClash(current: Program, incoming: Program) {
    current.name.Some? && incoming.name.Some? && current.name != incoming.name
  }

  /** merge_programs for a program that is already stored. */
  function MergePrograms(current: Program, incoming: Program): Result<Program> {
    if current.id != incoming.id then Err("id mismatch")
    else if NamesClash(current, incoming) then Err("name mismatch")
    else
      var state := MergeStates(current.state, incoming.state);
      if state.Err? then Err(state.message)
      else
        var newer := Newer(incoming, current);
        Ok(current.(
           state := state.value,
           metadata := MergedDict(current.metadata, incoming.metadata, newer),
           metrics := MergedDict(current.metrics, incoming.metrics, newer),
           stageResults := MergedDict(current.stageResults, incoming.stageResults, newer),
           lineage := MergeLineage(current.lineage, incoming.lineage),
           code := if newer then incoming.code else current.code,
           name := if current.name.Some? then current.name else incoming.name))
  }

  /** `small` holds nothing that `big` has lost: no key of the three maps, no child,
      no immutable. */
  ghost predicate Retains(small: Program, big: Program) {
    && small.id == big.id
    && small.createdAt == big.createdAt
    && small.iteration == big.iteration
    && (small.name.Some? ==> big.name == small.name)
    && small.metadata.Keys <= big.metadata.Keys
    && small.metrics.Keys <= big.metrics.Keys
    && small.stageResults.Keys <= big.stageResults.Keys
    && small.lineage.children <= big.lineage.children
    && small.lineage.(children := []) == big.lineage.(children := [])
  }

  ghost predicate Submap<V>(small: map<string, V>, big: map<string, V>) {
    forall k :: k in small ==> k in big && big[k] == small[k]
  }

  /** Every stored value and the code survive unchanged; new keys may appear. */
  ghost predicate KeepsValues(before: Program, after: Program) {
    && Submap(before.metadata, after.metadata)
    && Submap(before.metrics, after.metrics)
    && Submap(before.stageResults, after.stageResults)
    && before.code == after.code
  }

  /** The three maps of a merge: all keys of both sides; a shared key keeps the stored
      value unless the incoming program is newer. */
  ghost predicate MergedMap<V>(current: map<string, V>, incoming: map<string, V>, newer: bool, m: map<string, V>) {
    && m.Keys == current.Keys + incoming.Keys
    && (forall k :: k in incoming && (newer || k !in current) ==> m[k] == incoming[k])
    && (forall k :: k in current && !(newer && k in incoming) ==> m[k] == current[k])
  }

  /** Field by field, what merging an incoming program into a stored one has to give. */
  ghost predicate MergedFrom(current: Program, incoming: Program, m: Program) {
    var newer := incoming.atomicCounter > current.atomicCounter;
    && m.id == current.id && m.createdAt == current.createdAt && m.iteration == current.iteration
    && m.name == (if current.name.Some? then current.name else incoming.name)
    && m.code == (if newer then incoming.code else current.code)
    && m.state == (if Advances(current.state, incoming.state) then incoming.state else current.state)
    && MergedMap(current.metadata, incoming.metadata, newer, m.metadata)
    && MergedMap(current.metrics, incoming.metrics, newer, m.metrics)
    && MergedMap(current.stageResults, incoming.stageResults, newer, m.stageResults)
    && m.lineage.(children := []) == current.lineage.(children := [])
    && current.lineage.children <= m.lineage.children
    && forall c :: c in m.lineage.children <==> c in current.lineage.children || c in incoming.lineage.children
  }

  lemma RetainsTransitive(a: Program, b: Program, c: Program)
    requires Retains(a, b) && Retains(b, c)
    ensures Retains(a, c)
  {
    assert a.lineage.children == c.lineage.children[..|a.lineage.children|];
  }

  /** One merge fails exactly on different ids or clashing names. */
  lemma MergeFailsIff(current: Program, incoming: Program)
    ensures MergePrograms(current, incoming).Err? <==> current.id != incoming.id || NamesClash(current, incoming)
  {
    MergeStatesTotal(current.state, incoming.state);
  }

  lemma MergedFromPrograms(current: Program, incoming: Program)
    requires MergePrograms(current, incoming).Ok?
    ensures MergedFrom(current, incoming, MergePrograms(current, incoming).value)
  {
    MergeGoesForward(current.state, incoming.state);
    MergeGoesForward(incoming.state, current.state);
    MergeLineageIsStableUnion(current.lineage, incoming.lineage);
    var m := MergePrograms(current, incoming).value;
    forall c ensures c in m.lineage.children <==> c in current.lineage.children || c in incoming.lineage.children {
      assert c in m.lineage.children <==> c in Elements(m.lineage.children);
    }
  }

  /** One merge drops nothing from the stored side and takes every key and child
      of the incoming side, and its state if that is a legal move; an incoming copy that is
      not newer changes no stored value. */
  lemma MergeAdditive(current: Program, incoming: Program)
    requires MergePrograms(current, incoming).Ok?
    ensures var m := MergePrograms(current, incoming).value;
      && MergedFrom(current, incoming, m)
      && (IsValidTransition(current.state, incoming.state) ==> m.state == incoming.state)
      && Retains(current, m)
      && m.atomicCounter == current.atomicCounter
      && incoming.metadata.Keys <= m.metadata.Keys
      && incoming.metrics.Keys <= m.metrics.Keys
      && incoming.stageResults.Keys <= m.stageResults.Keys
      && Elements(incoming.lineage.children) <= Elements(m.lineage.children)
      && (!Newer(incoming, current) ==> KeepsValues(current, m))
      && (Newer(incoming, current) ==> Submap(incoming.metadata, m.metadata) && Submap(incoming.metrics, m.metrics)
                                       && Submap(incoming.stageResults, m.stageResults) && m.code == incoming.code)
  {
    MergeGoesForward(current.state, incoming.state);
    MergedFromPrograms(current, incoming);
    MergeLineageIsStableUnion(current.lineage, incoming.lineage);
  }

  ghost predicate Agree<V>(a: map<string, V>, b: map<string, V>) {
    forall k :: k in a && k in b ==> a[k] == b[k]
  }

  ghost predicate SameContent(a: Program, b: Program) {
    && a.metadata == b.metadata && a.metrics == b.metrics && a.stageResults == b.stageResults
    && a.code == b.code
  }

  lemma MergedDictCommutesIff<V>(a: map<string, V>, b: map<string, V>, p: bool, q: bool)
    ensures p != q ==> MergedDict(a, b, p) == MergedDict(b, a, q)
    ensures p == q ==> (MergedDict(a, b, p) == MergedDict(b, a, q) <==> Agree(a, b))
  {
    if p == q && Agree(a, b) {
      assert a + b == b + a;
    } else if p == q {
      var k :| k in a && k in b && a[k] != b[k];
      assert (a + b)[k] != (b + a)[k];
    }
  }

  /** Swapping the two arguments gives the same maps and code, and always the same
      state and children, exactly when the counters differ or the two copies do
      not contradict each other. */
  lemma MergeOrderIndependentIff(a: Program, b: Program)
    requires MergePrograms(a, b).Ok?
    ensures MergePrograms(b, a).Ok?
    ensures MergePrograms(a, b).value.state == MergePrograms(b, a).value.state
    ensures Elements(MergePrograms(a, b).value.lineage.children) == Elements(MergePrograms(b, a).value.lineage.children)
    ensures SameContent(MergePrograms(a, b).value, MergePrograms(b, a).value)
      <==> a.atomicCounter != b.atomicCounter
           || (Agree(a.metadata, b.metadata) && Agree(a.metrics, b.metrics)
               && Agree(a.stageResults, b.stageResults) && a.code == b.code)
  {
    MergeFailsIff(a, b);
    MergeFailsIff(b, a);
    MergeStatesTotal(a.state, b.state);
    MergeLineageIsStableUnion(a.lineage, b.lineage);
    MergeLineageIsStableUnion(b.lineage, a.lineage);
    MergedDictCommutesIff(a.metadata, b.metadata, Newer(b, a), Newer(a, b));
    MergedDictCommutesIff(a.metrics, b.metrics, Newer(b, a), Newer(a, b));
    MergedDictCommutesIff(a.stageResults, b.stageResults, Newer(b, a), Newer(a, b));
  }
}
