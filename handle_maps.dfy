/**
  The maps `VertexHandleManager` (src/View/VertexHandleManager.cpp) keeps
  for each handle class: from a handle position to the list of owners of
  the handle there (brushes for vertex handles, edges for edge handles,
  faces for face handles). The operations on one such pair of maps are
  shared by the three handle classes, so they are stated once here over an
  owner type `O`.

  The handles registered in a map are tracked by a ghost multiset of its
  (position, owner) pairs (`Registers`); the manager's counters are the
  sizes of these multisets (`Consistent`).
*/
module HandleMaps {

  /** A handle position (`Vec3`); coordinates are reals. */
  datatype Vec3 = Vec3(x: real, y: real, z: real)

  /** A map from handle positions to the owners of the handles there. */
  type HandleMap<O> = map<Vec3, seq<O>>

  /**
    The owners at `p`, or no owner when `p` is not a key: what
    `map[p]` yields in the source, which inserts an empty list on access.
  */
  function Get<O>(m: HandleMap<O>, p: Vec3): seq<O>
  {
    if p in m then m[p] else []
  }

  /** The (position, owner) pairs of the owners `s` at position `p`. */
  ghost function Pairs<O>(p: Vec3, s: seq<O>): multiset<(Vec3, O)>
  {
    if s == [] then multiset{} else Pairs(p, s[..|s| - 1]) + multiset{(p, s[|s| - 1])}
  }

  /** The owners of the handles in `hs` whose position is `p`, in order. */
  function OwnersAt<O>(hs: seq<(Vec3, O)>, p: Vec3): (r: seq<O>)
    ensures |r| <= |hs|
  {
    if hs == [] then []
    else
      var last := hs[|hs| - 1];
      OwnersAt(hs[..|hs| - 1], p) + (if last.0 == p then [last.1] else [])
  }

  // ---------------------------------------------------------------------
  // The registered handles of a map
  // ---------------------------------------------------------------------

  /**
    `e` is the multiset of the (position, owner) pairs registered in `m`:
    each pair occurs as often as the owner is listed at the position.
  */
  ghost predicate Registers<O(!new)>(m: HandleMap<O>, e: multiset<(Vec3, O)>)
  {
    forall p, o {:trigger Count(e, p, o)} :: Count(e, p, o) == multiset(Get(m, p))[o]
  }

  /**
    How often the pair `(p, o)` occurs in `e`. `Registers` is stated with
    it rather than with `e[(p, o)]`, so that its quantifier is used only
    where a proof names a count.
  */
  ghost function Count<O>(e: multiset<(Vec3, O)>, p: Vec3, o: O): nat
  {
    e[(p, o)]
  }

  /**
    The invariant the manager keeps for one handle class: no position is
    both selected and unselected, `selEntries` and `unselEntries` are the
    registered handles, the selected counter counts the selected handles
    and the total counter all of them.
  */
  ghost predicate Consistent<O(!new)>(sel: HandleMap<O>, unsel: HandleMap<O>,
                                      selEntries: multiset<(Vec3, O)>, unselEntries: multiset<(Vec3, O)>,
                                      selectedCount: nat, totalCount: nat)
  {
    && sel.Keys !! unsel.Keys
    && Registers(sel, selEntries) && Registers(unsel, unselEntries)
    && selectedCount == |selEntries|
    && totalCount == |selEntries| + |unselEntries|
  }

  lemma {:induction false} PairsCount<O>(p: Vec3, s: seq<O>, q: Vec3, o: O)
    ensures Pairs(p, s)[(q, o)] == if q == p then multiset(s)[o] else 0
  {
    if s != [] {
      var init := s[..|s| - 1];
      PairsCount(p, init, q, o);
      assert s == init + [s[|s| - 1]];
    }
  }

  lemma {:induction false} PairsSize<O>(p: Vec3, s: seq<O>)
    ensures |Pairs(p, s)| == |s|
  {
    if s != [] {
      PairsSize(p, s[..|s| - 1]);
    }
  }

  lemma PairsSingle<O>(p: Vec3, o: O)
    ensures Pairs(p, [o]) == multiset{(p, o)}
  {
    assert [o][..0] == [];
  }

  /** The registered multiset is determined by the map. */
  lemma RegistersUnique<O(!new)>(m: HandleMap<O>, e1: multiset<(Vec3, O)>, e2: multiset<(Vec3, O)>)
    requires Registers(m, e1) && Registers(m, e2)
    ensures e1 == e2
  {
    forall x: (Vec3, O) ensures e1[x] == e2[x] {
      assert Count(e1, x.0, x.1) == multiset(Get(m, x.0))[x.1];
      assert Count(e2, x.0, x.1) == multiset(Get(m, x.0))[x.1];
    }
  }

  /** The empty map registers nothing. */
  lemma RegistersNothing<O(!new)>(e: multiset<(Vec3, O)>)
    requires Registers(map[], e)
    ensures e == multiset{}
  {
    forall x: (Vec3, O) ensures e[x] == 0 {
      assert Count(e, x.0, x.1) == multiset(Get(map[], x.0))[x.1];
    }
  }

  /** A handle is registered exactly when its owner is listed at its position. */
  lemma RegistersMember<O(!new)>(m: HandleMap<O>, e: multiset<(Vec3, O)>, p: Vec3, o: O)
    requires Registers(m, e)
    ensures (p, o) in e <==> o in Get(m, p)
  {
    assert Count(e, p, o) == multiset(Get(m, p))[o];
  }

  /** The number of owners listed in `m`, summed over its positions. */
  ghost function Listed<O>(m: HandleMap<O>): nat
    decreases |m.Keys|
  {
    if m.Keys == {} then 0
    else
      var p := SomeKey(m);
      assert (m - {p}).Keys < m.Keys;
      |m[p]| + Listed(m - {p})
  }

  /** Some position of a non-empty map. */
  ghost function SomeKey<O>(m: HandleMap<O>): (p: Vec3)
    requires m.Keys != {}
    ensures p in m
  {
    var p :| p in m; p
  }

  /** The registered pairs of a map are as many as the owners it lists. */
  lemma {:induction false} ListedCounts<O(!new)>(m: HandleMap<O>, e: multiset<(Vec3, O)>)
    requires Registers(m, e)
    ensures |e| == Listed(m)
    decreases |m.Keys|
  {
    if m.Keys == {} {
      assert m == map[];
      RegistersNothing(e);
    } else {
      var p := SomeKey(m);
      var rest := m - {p};
      assert rest.Keys < m.Keys;
      RegistersRemoveAt(m, e, rest, p);
      ListedCounts(rest, e - Pairs(p, Get(m, p)));
      PairsSize(p, Get(m, p));
    }
  }

  /**
    What the invariant of one handle class says of its counters: the
    selected counter is the number of owners listed in the selected map, the
    total counter that number plus the number listed in the unselected map,
    so the selected counter never exceeds the total.
  */
  lemma CountersAreListed<O(!new)>(sel: HandleMap<O>, unsel: HandleMap<O>,
                                   selEntries: multiset<(Vec3, O)>, unselEntries: multiset<(Vec3, O)>,
                                   selectedCount: nat, totalCount: nat)
    requires Consistent(sel, unsel, selEntries, unselEntries, selectedCount, totalCount)
    ensures selectedCount == Listed(sel)
    ensures totalCount == Listed(sel) + Listed(unsel)
    ensures selectedCount <= totalCount
  {
    ListedCounts(sel, selEntries);
    ListedCounts(unsel, unselEntries);
  }

  /** Appending owners `s` at `k`, and changing nothing else, registers their pairs. */
  lemma RegistersAppendAt<O(!new)>(m: HandleMap<O>, e: multiset<(Vec3, O)>, m': HandleMap<O>, k: Vec3, s: seq<O>)
    requires Registers(m, e)
    requires Get(m', k) == Get(m, k) + s
    requires forall q :: q != k ==> Get(m', q) == Get(m, q)
    ensures Registers(m', e + Pairs(k, s))
  {
    forall q, o ensures (e + Pairs(k, s))[(q, o)] == multiset(Get(m', q))[o] {
      PairsCount(k, s, q, o);
      assert Count(e, q, o) == multiset(Get(m, q))[o];
    }
  }

  /** Emptying position `k`, and changing nothing else, unregisters its pairs. */
  lemma RegistersRemoveAt<O(!new)>(m: HandleMap<O>, e: multiset<(Vec3, O)>, m': HandleMap<O>, k: Vec3)
    requires Registers(m, e)
    requires Get(m', k) == []
    requires forall q :: q != k ==> Get(m', q) == Get(m, q)
    ensures Registers(m', e - Pairs(k, Get(m, k)))
    ensures (e - Pairs(k, Get(m, k))) + Pairs(k, Get(m, k)) == e
  {
    RemovedCounts(m, e, m', k);
    TakeAndPutBack(e, Pairs(k, Get(m, k)));
  }

  /** The counts of `RegistersRemoveAt`, position by position. */
  lemma RemovedCounts<O(!new)>(m: HandleMap<O>, e: multiset<(Vec3, O)>, m': HandleMap<O>, k: Vec3)
    requires Registers(m, e)
    requires Get(m', k) == []
    requires forall q :: q != k ==> Get(m', q) == Get(m, q)
    ensures Registers(m', e - Pairs(k, Get(m, k)))
    ensures Pairs(k, Get(m, k)) <= e
  {
    var gone := Pairs(k, Get(m, k));
    forall q, o ensures (e - gone)[(q, o)] == multiset(Get(m', q))[o] && gone[(q, o)] <= e[(q, o)] {
      PairsCount(k, Get(m, k), q, o);
      assert Count(e, q, o) == multiset(Get(m, q))[o];
    }
    forall x: (Vec3, O) ensures gone[x] <= e[x] {
      assert gone[(x.0, x.1)] <= e[(x.0, x.1)];
    }
  }

  /** What is taken out of a multiset that contains it can be put back. */
  lemma TakeAndPutBack<T>(e: multiset<T>, gone: multiset<T>)
    requires gone <= e
    ensures (e - gone) + gone == e
  {
  }

  /** Removing one listing of `o` at `k`, and changing nothing else, unregisters one pair. */
  lemma RegistersRemoveOne<O(!new)>(m: HandleMap<O>, e: multiset<(Vec3, O)>, m': HandleMap<O>, k: Vec3, o: O)
    requires Registers(m, e)
    requires o in Get(m, k)
    requires multiset(Get(m', k)) == multiset(Get(m, k)) - multiset{o}
    requires forall q :: q != k ==> Get(m', q) == Get(m, q)
    ensures (k, o) in e
    ensures Registers(m', e - multiset{(k, o)})
  {
    assert Count(e, k, o) == multiset(Get(m, k))[o];
    forall q, o' ensures (e - multiset{(k, o)})[(q, o')] == multiset(Get(m', q))[o'] {
      assert Count(e, q, o') == multiset(Get(m, q))[o'];
    }
  }

  // ---------------------------------------------------------------------
  // removeHandle and moveHandle
  // ---------------------------------------------------------------------

  /**
    `removeHandle(position, owner, map)`: removes one listing of `owner` at
    `position` and reports whether there was one; no other position is
    affected and no position is added.
  */
  method RemoveHandle<O(==)>(p: Vec3, o: O, m: HandleMap<O>) returns (m': HandleMap<O>, found: bool)
    ensures found <==> o in Get(m, p)
    ensures found ==> multiset(Get(m', p)) == multiset(Get(m, p)) - multiset{o}
    ensures !found ==> m' == m
    ensures m'.Keys <= m.Keys
    ensures forall q :: q != p ==> Get(m', q) == Get(m, q)
  {
    m', found := m, false;
    if p in m {
      var owners := m[p];
      var i := 0;
      while i < |owners| && owners[i] != o
        invariant 0 <= i <= |owners|
        invariant o !in owners[..i]
      {
        i := i + 1;
      }
      if i < |owners| {
        found := true;
        var rest := owners[..i] + owners[i + 1..];
        assert owners == owners[..i] + [o] + owners[i + 1..];
        if rest == [] {
          m' := m - {p};
        } else {
          m' := m[p := rest];
        }
      } else {
        assert owners[..i] == owners;
      }
    }
  }

  /**
    `moveHandle(position, from, to)`: the owners at `position` leave `from`
    and are appended to the owners at `position` in `to`; the result is how
    many moved. Nothing else changes.
  */
  method MoveHandle<O>(p: Vec3, from: HandleMap<O>, to: HandleMap<O>)
    returns (from': HandleMap<O>, to': HandleMap<O>, count: nat)
    ensures count == |Get(from, p)|
    ensures from'.Keys == from.Keys - {p}
    ensures to'.Keys == to.Keys + (if p in from then {p} else {})
    ensures Get(from', p) == [] && Get(to', p) == Get(to, p) + Get(from, p)
    ensures forall q :: q != p ==> Get(from', q) == Get(from, q) && Get(to', q) == Get(to, q)
    ensures p !in from ==> from' == from && to' == to
  {
    if p !in from {
      return from, to, 0;
    }
    var moved := from[p];
    from' := from - {p};
    to' := to[p := Get(to, p) + moved];
    count := |moved|;
  }

  // ---------------------------------------------------------------------
  // The loops of addBrush, removeBrush and deselectAll*Handles
  // ---------------------------------------------------------------------

  /**
    The outcome of registering the handles `hs`: an owner whose position is
    already selected joins the selected list there, every other owner joins
    the unselected list at its position, and the selected positions stay
    the same.
  */
  ghost predicate HandlesAdded<O>(sel: HandleMap<O>, unsel: HandleMap<O>, hs: seq<(Vec3, O)>,
                                 sel': HandleMap<O>, unsel': HandleMap<O>)
  {
    sel'.Keys == sel.Keys && forall p :: AddedAt(sel, unsel, hs, sel', unsel', p)
  }

  /** `HandlesAdded` at one position `p`. */
  ghost predicate AddedAt<O>(sel: HandleMap<O>, unsel: HandleMap<O>, hs: seq<(Vec3, O)>,
                            sel': HandleMap<O>, unsel': HandleMap<O>, p: Vec3)
  {
    && (p in sel ==> Get(sel', p) == Get(sel, p) + OwnersAt(hs, p) && Get(unsel', p) == Get(unsel, p))
    && (p !in sel ==> Get(unsel', p) == Get(unsel, p) + OwnersAt(hs, p))
    && (p in unsel' <==> p in unsel || (p !in sel && OwnersAt(hs, p) != []))
  }

  /**
    The loop of `addBrush` over one handle class and the update of the total
    that follows it: every handle is registered once more, `selectedCount`
    grows by one for each owner added to a selected position, and
    `totalCount` by the number of handles.
  */
  method AddHandles<O(!new)>(hs: seq<(Vec3, O)>, sel: HandleMap<O>, unsel: HandleMap<O>,
                             selectedCount: nat, totalCount: nat,
                             ghost selEntries: multiset<(Vec3, O)>, ghost unselEntries: multiset<(Vec3, O)>)
    returns (sel': HandleMap<O>, unsel': HandleMap<O>, selectedCount': nat, totalCount': nat,
             ghost selEntries': multiset<(Vec3, O)>, ghost unselEntries': multiset<(Vec3, O)>)
    requires Consistent(sel, unsel, selEntries, unselEntries, selectedCount, totalCount)
    ensures Consistent(sel', unsel', selEntries', unselEntries', selectedCount', totalCount')
    ensures HandlesAdded(sel, unsel, hs, sel', unsel')
    ensures selEntries' + unselEntries' == selEntries + unselEntries + multiset(hs)
    ensures selEntries' == selEntries + multiset(AtPositions(hs, sel.Keys))
    ensures selectedCount' == selectedCount + |AtPositions(hs, sel.Keys)|
    ensures totalCount' == totalCount + |hs|
  {
    sel', unsel', selectedCount' := sel, unsel, selectedCount;
    selEntries', unselEntries' := selEntries, unselEntries;
    for i := 0 to |hs|
      invariant HandlesAdded(sel, unsel, hs[..i], sel', unsel')
      invariant Registers(sel', selEntries') && Registers(unsel', unselEntries')
      invariant selEntries' + unselEntries' == selEntries + unselEntries + multiset(hs[..i])
      invariant selectedCount' + |selEntries| == selectedCount + |selEntries'|
      invariant selEntries' == selEntries + multiset(AtPositions(hs[..i], sel.Keys))
    {
      sel', unsel', selectedCount', selEntries', unselEntries' :=
        AddNextHandle(hs, i, sel, unsel, selectedCount, selEntries, unselEntries,
                      sel', unsel', selectedCount', selEntries', unselEntries');
    }
    assert hs[..|hs|] == hs;
    HandlesAddedDisjoint(sel, unsel, hs, sel', unsel');
    CardSum(selEntries, unselEntries, multiset(hs), selEntries', unselEntries');
    CardGrow(selEntries, AtPositions(hs, sel.Keys), selEntries');
    totalCount' := totalCount + |hs|;
  }

  /** One round of the loop of `addBrush`: the invariant of `AddHandles` moves from `hs[..i]` to `hs[..i + 1]`. */
  method AddNextHandle<O(!new)>(hs: seq<(Vec3, O)>, i: nat, ghost sel0: HandleMap<O>, ghost unsel0: HandleMap<O>,
                                ghost selectedCount0: nat,
                                ghost selEntries0: multiset<(Vec3, O)>, ghost unselEntries0: multiset<(Vec3, O)>,
                                sel: HandleMap<O>, unsel: HandleMap<O>, selectedCount: nat,
                                ghost selEntries: multiset<(Vec3, O)>, ghost unselEntries: multiset<(Vec3, O)>)
    returns (sel': HandleMap<O>, unsel': HandleMap<O>, selectedCount': nat,
             ghost selEntries': multiset<(Vec3, O)>, ghost unselEntries': multiset<(Vec3, O)>)
    requires i < |hs|
    requires HandlesAdded(sel0, unsel0, hs[..i], sel, unsel)
    requires Registers(sel, selEntries) && Registers(unsel, unselEntries)
    requires selEntries + unselEntries == selEntries0 + unselEntries0 + multiset(hs[..i])
    requires selectedCount + |selEntries0| == selectedCount0 + |selEntries|
    requires selEntries == selEntries0 + multiset(AtPositions(hs[..i], sel0.Keys))
    ensures HandlesAdded(sel0, unsel0, hs[..i + 1], sel', unsel')
    ensures Registers(sel', selEntries') && Registers(unsel', unselEntries')
    ensures selEntries' + unselEntries' == selEntries0 + unselEntries0 + multiset(hs[..i + 1])
    ensures selectedCount' + |selEntries0| == selectedCount0 + |selEntries'|
    ensures selEntries' == selEntries0 + multiset(AtPositions(hs[..i + 1], sel0.Keys))
  {
    assert hs[..i + 1] == hs[..i] + [hs[i]];
    sel', unsel', selectedCount', selEntries', unselEntries' :=
      AddHandle(hs[i], sel, unsel, selectedCount, selEntries, unselEntries, sel0, unsel0, hs[..i]);
    AddedStep(selEntries + unselEntries, selEntries0 + unselEntries0, multiset(hs[..i]), selEntries' + unselEntries', hs[i]);
    SelectedStep(selEntries0, selEntries, selEntries', hs[..i], hs[i], sel0.Keys);
  }

  /** A multiset grown by the elements of a sequence grows by its length. */
  lemma CardGrow<T>(e: multiset<T>, s: seq<T>, e': multiset<T>)
    requires e' == e + multiset(s)
    ensures |e'| == |e| + |s|
  {
  }

  /** Sizes add up when multisets do. */
  lemma CardSum<T>(a: multiset<T>, b: multiset<T>, c: multiset<T>, a': multiset<T>, b': multiset<T>)
    requires a' + b' == a + b + c
    ensures |a'| + |b'| == |a| + |b| + |c|
  {
    assert |a' + b'| == |a'| + |b'|;
    assert |a + b + c| == |a + b| + |c|;
  }

  /** Registering handles keeps the selected and the unselected positions apart. */
  lemma HandlesAddedDisjoint<O>(sel: HandleMap<O>, unsel: HandleMap<O>, hs: seq<(Vec3, O)>,
                                sel': HandleMap<O>, unsel': HandleMap<O>)
    requires HandlesAdded(sel, unsel, hs, sel', unsel') && sel.Keys !! unsel.Keys
    ensures sel'.Keys !! unsel'.Keys
  {
    forall p | p in sel' ensures p !in unsel' {
      assert AddedAt(sel, unsel, hs, sel', unsel', p);
    }
  }

  /** The handles of `hs` whose position is one of `keys`, in order. */
  function AtPositions<O(!new)>(hs: seq<(Vec3, O)>, keys: set<Vec3>): (r: seq<(Vec3, O)>)
    ensures |r| <= |hs|
  {
    if hs == [] then []
    else
      var last := hs[|hs| - 1];
      AtPositions(hs[..|hs| - 1], keys) + (if last.0 in keys then [last] else [])
  }

  /** The handles at `keys` are exactly the handles of `hs` whose position is one of `keys`. */
  lemma {:induction false} AtPositionsMembers<O(!new)>(hs: seq<(Vec3, O)>, keys: set<Vec3>)
    ensures forall h :: h in AtPositions(hs, keys) <==> h in hs && h.0 in keys
  {
    if hs != [] {
      var init := hs[..|hs| - 1];
      assert hs == init + [hs[|hs| - 1]];
      AtPositionsMembers(init, keys);
    }
  }

  /**
    The body of the loop of `addBrush`: the owner joins the selected list at
    its position when that position is selected, otherwise the unselected
    one. `base` and `done` are the maps before the loop and the handles
    already added.
  */
  method AddHandle<O(!new)>(h: (Vec3, O), sel: HandleMap<O>, unsel: HandleMap<O>, selectedCount: nat,
                            ghost selEntries: multiset<(Vec3, O)>, ghost unselEntries: multiset<(Vec3, O)>,
                            ghost baseSel: HandleMap<O>, ghost baseUnsel: HandleMap<O>, ghost done: seq<(Vec3, O)>)
    returns (sel': HandleMap<O>, unsel': HandleMap<O>, selectedCount': nat,
             ghost selEntries': multiset<(Vec3, O)>, ghost unselEntries': multiset<(Vec3, O)>)
    requires Registers(sel, selEntries) && Registers(unsel, unselEntries)
    requires HandlesAdded(baseSel, baseUnsel, done, sel, unsel)
    ensures HandlesAdded(baseSel, baseUnsel, done + [h], sel', unsel')
    ensures Registers(sel', selEntries') && Registers(unsel', unselEntries')
    ensures selEntries' + unselEntries' == selEntries + unselEntries + multiset{h}
    ensures selectedCount' + |selEntries| == selectedCount + |selEntries'|
    ensures selectedCount' == selectedCount + (if h.0 in sel then 1 else 0)
    ensures selEntries' == selEntries + (if h.0 in baseSel then multiset{h} else multiset{})
  {
    PairsSingle(h.0, h.1);
    sel', unsel', selectedCount', selEntries', unselEntries' := sel, unsel, selectedCount, selEntries, unselEntries;
    if h.0 in sel {
      sel' := sel[h.0 := Get(sel, h.0) + [h.1]];
      RegistersAppendAt(sel, selEntries, sel', h.0, [h.1]);
      HandlesAddedToSelected(baseSel, baseUnsel, done, sel, unsel, h);
      selEntries' := selEntries + multiset{h};
      selectedCount' := selectedCount + 1;
    } else {
      unsel' := unsel[h.0 := Get(unsel, h.0) + [h.1]];
      RegistersAppendAt(unsel, unselEntries, unsel', h.0, [h.1]);
      HandlesAddedToUnselected(baseSel, baseUnsel, done, sel, unsel, h);
      unselEntries' := unselEntries + multiset{h};
    }
  }

  /** The selected registrations after one handle more of the loop of `addBrush`. */
  lemma SelectedStep<O(!new)>(e0: multiset<(Vec3, O)>, e: multiset<(Vec3, O)>, e': multiset<(Vec3, O)>,
                              done: seq<(Vec3, O)>, h: (Vec3, O), keys: set<Vec3>)
    requires e == e0 + multiset(AtPositions(done, keys))
    requires e' == e + (if h.0 in keys then multiset{h} else multiset{})
    ensures e' == e0 + multiset(AtPositions(done + [h], keys))
  {
    AtPositionsSnoc(done, h, keys);
  }

  /** One handle more: it is kept exactly when its position is a key. */
  lemma AtPositionsSnoc<O(!new)>(hs: seq<(Vec3, O)>, h: (Vec3, O), keys: set<Vec3>)
    ensures AtPositions(hs + [h], keys) == AtPositions(hs, keys) + (if h.0 in keys then [h] else [])
  {
    assert (hs + [h])[..|hs|] == hs;
  }

  /** The handles at `keys` of two lists, one after the other. */
  lemma {:induction false} AtPositionsAppend<O(!new)>(a: seq<(Vec3, O)>, b: seq<(Vec3, O)>, keys: set<Vec3>)
    ensures AtPositions(a + b, keys) == AtPositions(a, keys) + AtPositions(b, keys)
    decreases |b|
  {
    if b == [] {
      assert a + b == a;
    } else {
      var init := b[..|b| - 1];
      var last := b[|b| - 1];
      assert b == init + [last];
      assert a + b == (a + init) + [last];
      AtPositionsAppend(a, init, keys);
      AtPositionsSnoc(a + init, last, keys);
      AtPositionsSnoc(init, last, keys);
    }
  }

  /** `OwnersAt` lists each owner as often as the handle at `p` of that owner occurs in `hs`. */
  lemma {:induction false} OwnersAtCounts<O>(hs: seq<(Vec3, O)>, p: Vec3, o: O)
    ensures multiset(OwnersAt(hs, p))[o] == multiset(hs)[(p, o)]
  {
    if hs != [] {
      var init := hs[..|hs| - 1];
      assert hs == init + [hs[|hs| - 1]];
      OwnersAtCounts(init, p, o);
    }
  }

  lemma OwnersAtSnoc<O>(hs: seq<(Vec3, O)>, h: (Vec3, O), p: Vec3)
    ensures OwnersAt(hs + [h], p) == OwnersAt(hs, p) + (if h.0 == p then [h.1] else [])
  {
    assert (hs + [h])[..|hs|] == hs;
  }

  /** One handle more, at a selected position. */
  lemma HandlesAddedToSelected<O>(sel: HandleMap<O>, unsel: HandleMap<O>, hs: seq<(Vec3, O)>,
                                  sel': HandleMap<O>, unsel': HandleMap<O>, h: (Vec3, O))
    requires HandlesAdded(sel, unsel, hs, sel', unsel') && h.0 in sel'
    ensures HandlesAdded(sel, unsel, hs + [h], sel'[h.0 := Get(sel', h.0) + [h.1]], unsel')
  {
    var next := sel'[h.0 := Get(sel', h.0) + [h.1]];
    forall p ensures AddedAt(sel, unsel, hs + [h], next, unsel', p) {
      assert AddedAt(sel, unsel, hs, sel', unsel', p);
      OwnersAtSnoc(hs, h, p);
    }
  }

  /** One handle more, at a position that is not selected. */
  lemma HandlesAddedToUnselected<O>(sel: HandleMap<O>, unsel: HandleMap<O>, hs: seq<(Vec3, O)>,
                                    sel': HandleMap<O>, unsel': HandleMap<O>, h: (Vec3, O))
    requires HandlesAdded(sel, unsel, hs, sel', unsel') && h.0 !in sel'
    ensures HandlesAdded(sel, unsel, hs + [h], sel', unsel'[h.0 := Get(unsel', h.0) + [h.1]])
  {
    var next := unsel'[h.0 := Get(unsel', h.0) + [h.1]];
    forall p ensures AddedAt(sel, unsel, hs + [h], sel', next, p) {
      assert AddedAt(sel, unsel, hs, sel', unsel', p);
      OwnersAtSnoc(hs, h, p);
    }
  }

  /** The multiset bookkeeping of one step of `AddHandles`. */
  lemma AddedStep<T>(before: multiset<T>, base: multiset<T>, done: multiset<T>, after: multiset<T>, x: T)
    requires before == base + done && after == before + multiset{x}
    ensures after == base + (done + multiset{x})
  {
    assert base + (done + multiset{x}) == (base + done) + multiset{x};
  }

  /**
    The loop of `removeBrush` over one handle class and the update of the
    total that follows it: each handle is removed from the selected map when
    it is registered there, otherwise from the unselected map;
    `selectedCount` drops by one for each selected one and `totalCount` by
    the number of handles, which cannot underflow.
  */
  method RemoveHandles<O(==,!new)>(hs: seq<(Vec3, O)>, sel: HandleMap<O>, unsel: HandleMap<O>,
                                   selectedCount: nat, totalCount: nat,
                                   ghost selEntries: multiset<(Vec3, O)>, ghost unselEntries: multiset<(Vec3, O)>)
    returns (sel': HandleMap<O>, unsel': HandleMap<O>, selectedCount': nat, totalCount': nat,
             ghost selEntries': multiset<(Vec3, O)>, ghost unselEntries': multiset<(Vec3, O)>)
    requires Consistent(sel, unsel, selEntries, unselEntries, selectedCount, totalCount)
    requires multiset(hs) <= selEntries + unselEntries
    ensures Consistent(sel', unsel', selEntries', unselEntries', selectedCount', totalCount')
    ensures selEntries' == selEntries - multiset(hs)
    ensures selEntries' + unselEntries' + multiset(hs) == selEntries + unselEntries
    ensures totalCount' == totalCount - |hs|
    ensures sel'.Keys <= sel.Keys && unsel'.Keys <= unsel.Keys
  {
    sel', unsel', selectedCount', selEntries', unselEntries' :=
      RemoveEachHandle(hs, sel, unsel, selectedCount, selEntries, unselEntries);
    CardSum(selEntries', unselEntries', multiset(hs), selEntries, unselEntries);
    assert totalCount >= |hs|;
    totalCount' := totalCount - |hs|;
  }

  /** The loop of `RemoveHandles`. */
  method RemoveEachHandle<O(==,!new)>(hs: seq<(Vec3, O)>, sel: HandleMap<O>, unsel: HandleMap<O>, selectedCount: nat,
                                      ghost selEntries: multiset<(Vec3, O)>, ghost unselEntries: multiset<(Vec3, O)>)
    returns (sel': HandleMap<O>, unsel': HandleMap<O>, selectedCount': nat,
             ghost selEntries': multiset<(Vec3, O)>, ghost unselEntries': multiset<(Vec3, O)>)
    requires Registers(sel, selEntries) && Registers(unsel, unselEntries)
    requires selectedCount == |selEntries|
    requires multiset(hs) <= selEntries + unselEntries
    ensures Registers(sel', selEntries') && Registers(unsel', unselEntries')
    ensures selEntries' == selEntries - multiset(hs)
    ensures selEntries' + unselEntries' + multiset(hs) == selEntries + unselEntries
    ensures selectedCount' == |selEntries'|
    ensures sel'.Keys <= sel.Keys && unsel'.Keys <= unsel.Keys
  {
    sel', unsel', selectedCount' := sel, unsel, selectedCount;
    selEntries', unselEntries' := selEntries, unselEntries;
    for i := 0 to |hs|
      invariant Registers(sel', selEntries') && Registers(unsel', unselEntries')
      invariant selEntries' == selEntries - multiset(hs[..i])
      invariant selEntries' + unselEntries' + multiset(hs[..i]) == selEntries + unselEntries
      invariant selectedCount' == |selEntries'|
      invariant sel'.Keys <= sel.Keys && unsel'.Keys <= unsel.Keys
    {
      sel', unsel', selectedCount', selEntries', unselEntries' :=
        RemoveNextHandle(hs, i, sel, unsel, selEntries, unselEntries, sel', unsel', selectedCount', selEntries', unselEntries');
    }
    assert hs[..|hs|] == hs;
  }

  /** One iteration of the loop of `RemoveEachHandle`: handle `hs[i]` is removed. */
  method RemoveNextHandle<O(==,!new)>(hs: seq<(Vec3, O)>, i: nat, ghost sel0: HandleMap<O>, ghost unsel0: HandleMap<O>,
                                      ghost selEntries0: multiset<(Vec3, O)>, ghost unselEntries0: multiset<(Vec3, O)>,
                                      sel: HandleMap<O>, unsel: HandleMap<O>, selectedCount: nat,
                                      ghost selEntries: multiset<(Vec3, O)>, ghost unselEntries: multiset<(Vec3, O)>)
    returns (sel': HandleMap<O>, unsel': HandleMap<O>, selectedCount': nat,
             ghost selEntries': multiset<(Vec3, O)>, ghost unselEntries': multiset<(Vec3, O)>)
    requires i < |hs| && multiset(hs) <= selEntries0 + unselEntries0
    requires Registers(sel, selEntries) && Registers(unsel, unselEntries)
    requires selEntries == selEntries0 - multiset(hs[..i])
    requires selEntries + unselEntries + multiset(hs[..i]) == selEntries0 + unselEntries0
    requires selectedCount == |selEntries|
    requires sel.Keys <= sel0.Keys && unsel.Keys <= unsel0.Keys
    ensures Registers(sel', selEntries') && Registers(unsel', unselEntries')
    ensures selEntries' == selEntries0 - multiset(hs[..i + 1])
    ensures selEntries' + unselEntries' + multiset(hs[..i + 1]) == selEntries0 + unselEntries0
    ensures selectedCount' == |selEntries'|
    ensures sel'.Keys <= sel0.Keys && unsel'.Keys <= unsel0.Keys
  {
    var h := hs[i];
    PrefixStep(hs, i);
    StillRegistered(selEntries, unselEntries, multiset(hs[..i]), selEntries0 + unselEntries0, h);
    sel', unsel', selectedCount', selEntries', unselEntries' :=
      RemoveOwnedHandle(h, sel, unsel, selectedCount, selEntries, unselEntries);
    RemoveStep(selEntries0, multiset(hs[..i]), selEntries, unselEntries, selEntries0 + unselEntries0, h,
               selEntries', unselEntries');
  }

  /** The first `i + 1` handles are the first `i` and one more, all among `hs`. */
  lemma PrefixStep<T>(hs: seq<T>, i: nat)
    requires i < |hs|
    ensures hs[..i + 1] == hs[..i] + [hs[i]]
    ensures multiset(hs[..i]) + multiset{hs[i]} <= multiset(hs)
  {
    assert hs[..i + 1] == hs[..i] + [hs[i]];
    assert hs == hs[..i + 1] + hs[i + 1..];
  }

  /**
    The body of the loop of `removeBrush`: a handle registered as selected
    is removed from the selected map, and the selected count drops; any
    other is removed from the unselected map.
  */
  method RemoveOwnedHandle<O(==,!new)>(h: (Vec3, O), sel: HandleMap<O>, unsel: HandleMap<O>, selectedCount: nat,
                                       ghost selEntries: multiset<(Vec3, O)>, ghost unselEntries: multiset<(Vec3, O)>)
    returns (sel': HandleMap<O>, unsel': HandleMap<O>, selectedCount': nat,
             ghost selEntries': multiset<(Vec3, O)>, ghost unselEntries': multiset<(Vec3, O)>)
    requires Registers(sel, selEntries) && Registers(unsel, unselEntries)
    requires selectedCount == |selEntries|
    requires h in selEntries + unselEntries
    ensures Registers(sel', selEntries') && Registers(unsel', unselEntries')
    ensures h in selEntries ==> selEntries' == selEntries - multiset{h} && unselEntries' == unselEntries
    ensures h !in selEntries ==> selEntries' == selEntries && unselEntries' == unselEntries - multiset{h}
    ensures selectedCount' == |selEntries'|
    ensures sel'.Keys <= sel.Keys && unsel'.Keys <= unsel.Keys
  {
    selEntries', unselEntries' := selEntries, unselEntries;
    var found;
    sel', found := RemoveHandle(h.0, h.1, sel);
    unsel' := unsel;
    RegistersMember(sel, selEntries, h.0, h.1);
    if found {
      RegistersRemoveOne(sel, selEntries, sel', h.0, h.1);
      selEntries' := selEntries - multiset{h};
      assert selectedCount > 0;
      selectedCount' := selectedCount - 1;
      assert selEntries' + multiset{h} == selEntries;
    } else {
      selectedCount' := selectedCount;
      RegistersMember(unsel, unselEntries, h.0, h.1);
      var removed;
      unsel', removed := RemoveHandle(h.0, h.1, unsel);
      RegistersRemoveOne(unsel, unselEntries, unsel', h.0, h.1);
      unselEntries' := unselEntries - multiset{h};
    }
  }

  /** A handle still to be removed is registered in one of the two maps. */
  lemma StillRegistered<T>(s: multiset<T>, u: multiset<T>, done: multiset<T>, total: multiset<T>, x: T)
    requires s + u + done == total && done + multiset{x} <= total
    ensures x in s + u
  {
    assert total[x] == s[x] + u[x] + done[x];
    assert (done + multiset{x})[x] == done[x] + 1;
  }

  /** The multiset bookkeeping of one step of `RemoveHandles`. */
  lemma RemoveStep<T>(all: multiset<T>, done: multiset<T>, s: multiset<T>, u: multiset<T>,
                      total: multiset<T>, x: T, s': multiset<T>, u': multiset<T>)
    requires s == all - done && s + u + done == total
    requires x in s ==> s' == s - multiset{x} && u' == u
    requires x !in s ==> s' == s && u' == u - multiset{x} && x in u
    ensures s' == all - (done + multiset{x})
    ensures s' + u' + (done + multiset{x}) == total
  {
    RemainingSelected(all, done, s, x, s');
    if x in s {
      TotalAfterRemoval(s, u, done, total, x, s', u');
    } else {
      TotalAfterRemoval(u, s, done, total, x, u', s');
      assert s' + u' == u' + s';
    }
  }

  lemma RemainingSelected<T>(all: multiset<T>, done: multiset<T>, s: multiset<T>, x: T, s': multiset<T>)
    requires s == all - done
    requires x in s ==> s' == s - multiset{x}
    requires x !in s ==> s' == s
    ensures s' == all - (done + multiset{x})
  {
    forall y ensures s'[y] == (all - (done + multiset{x}))[y] {
    }
  }

  lemma TotalAfterRemoval<T>(a: multiset<T>, b: multiset<T>, done: multiset<T>, total: multiset<T>,
                             x: T, a': multiset<T>, b': multiset<T>)
    requires a + b + done == total && x in a && a' == a - multiset{x} && b' == b
    ensures a' + b' + (done + multiset{x}) == total
  {
    assert a == a' + multiset{x};
  }

  /**
    The loop of `deselectAll*Handles`: every selected owner list is appended
    to the unselected list at the same position, so no owner is lost.
  */
  method AppendAll<O(!new)>(sel: HandleMap<O>, unsel: HandleMap<O>,
                            ghost selEntries: multiset<(Vec3, O)>, ghost unselEntries: multiset<(Vec3, O)>)
    returns (unsel': HandleMap<O>, ghost unselEntries': multiset<(Vec3, O)>)
    requires Registers(sel, selEntries) && Registers(unsel, unselEntries)
    ensures forall p :: Get(unsel', p) == Get(unsel, p) + Get(sel, p)
    ensures unsel'.Keys == unsel.Keys + sel.Keys
    ensures Registers(unsel', unselEntries')
    ensures unselEntries' == unselEntries + selEntries
  {
    unsel', unselEntries' := unsel, unselEntries;
    var rest := sel;
    ghost var restEntries := selEntries;
    while rest != map[]
      invariant Appending(sel, unsel, selEntries, unselEntries, unsel', unselEntries', rest, restEntries)
      decreases rest.Keys
    {
      var p :| p in rest;
      AppendingStep(sel, unsel, selEntries, unselEntries, unsel', unselEntries', rest, restEntries, p);
      unsel', unselEntries' := unsel'[p := Get(unsel', p) + rest[p]], unselEntries' + Pairs(p, rest[p]);
      rest, restEntries := rest - {p}, restEntries - Pairs(p, rest[p]);
    }
    RegistersNothing(restEntries);
  }

  /**
    The state of the `AppendAll` loop: `rest` holds the selected positions
    not yet visited, and `acc` is the unselected map with the visited
    positions' owners appended.
  */
  ghost predicate Appending<O(!new)>(sel: HandleMap<O>, unsel: HandleMap<O>,
                                     selEntries: multiset<(Vec3, O)>, unselEntries: multiset<(Vec3, O)>,
                                     acc: HandleMap<O>, accEntries: multiset<(Vec3, O)>,
                                     rest: HandleMap<O>, restEntries: multiset<(Vec3, O)>)
  {
    && AppendingMaps(sel, unsel, acc, rest)
    && Registers(acc, accEntries) && Registers(rest, restEntries)
    && accEntries + restEntries == unselEntries + selEntries
  }

  ghost predicate AppendingMaps<O>(sel: HandleMap<O>, unsel: HandleMap<O>, acc: HandleMap<O>, rest: HandleMap<O>)
  {
    && rest.Keys <= sel.Keys && (forall q :: q in rest ==> rest[q] == sel[q])
    && (forall q :: Get(acc, q) == Get(unsel, q) + (if q in sel && q !in rest then sel[q] else []))
    && acc.Keys == unsel.Keys + (sel.Keys - rest.Keys)
  }

  lemma AppendingStep<O(!new)>(sel: HandleMap<O>, unsel: HandleMap<O>,
                               selEntries: multiset<(Vec3, O)>, unselEntries: multiset<(Vec3, O)>,
                               acc: HandleMap<O>, accEntries: multiset<(Vec3, O)>,
                               rest: HandleMap<O>, restEntries: multiset<(Vec3, O)>, p: Vec3)
    requires Appending(sel, unsel, selEntries, unselEntries, acc, accEntries, rest, restEntries)
    requires p in rest
    ensures Appending(sel, unsel, selEntries, unselEntries,
                      acc[p := Get(acc, p) + rest[p]], accEntries + Pairs(p, rest[p]),
                      rest - {p}, restEntries - Pairs(p, rest[p]))
  {
    AppendingMapsStep(sel, unsel, acc, rest, p);
    AppendingEntriesStep(acc, accEntries, rest, restEntries, unselEntries + selEntries, p);
  }

  lemma AppendingMapsStep<O>(sel: HandleMap<O>, unsel: HandleMap<O>, acc: HandleMap<O>, rest: HandleMap<O>, p: Vec3)
    requires AppendingMaps(sel, unsel, acc, rest) && p in rest
    ensures AppendingMaps(sel, unsel, acc[p := Get(acc, p) + rest[p]], rest - {p})
  {
    var acc' := acc[p := Get(acc, p) + rest[p]];
    forall q ensures Get(acc', q) == Get(unsel, q) + (if q in sel && q !in rest - {p} then sel[q] else []) {
      if q == p {
        assert Get(unsel, q) + [] == Get(unsel, q);
      }
    }
  }

  lemma AppendingEntriesStep<O(!new)>(acc: HandleMap<O>, accEntries: multiset<(Vec3, O)>,
                                      rest: HandleMap<O>, restEntries: multiset<(Vec3, O)>,
                                      total: multiset<(Vec3, O)>, p: Vec3)
    requires Registers(acc, accEntries) && Registers(rest, restEntries)
    requires accEntries + restEntries == total && p in rest
    ensures Registers(acc[p := Get(acc, p) + rest[p]], accEntries + Pairs(p, rest[p]))
    ensures Registers(rest - {p}, restEntries - Pairs(p, rest[p]))
    ensures (accEntries + Pairs(p, rest[p])) + (restEntries - Pairs(p, rest[p])) == total
  {
    var moved := rest[p];
    RegistersAppendAt(acc, accEntries, acc[p := Get(acc, p) + moved], p, moved);
    RegistersRemoveAt(rest, restEntries, rest - {p}, p);
    MoveBetween(accEntries, restEntries, restEntries - Pairs(p, moved), Pairs(p, moved), total);
  }

  /** Moving `moved` from one multiset to another keeps their sum. */
  lemma MoveBetween<T>(a: multiset<T>, r: multiset<T>, r': multiset<T>, moved: multiset<T>, total: multiset<T>)
    requires r' + moved == r && a + r == total
    ensures (a + moved) + r' == total
  {
    assert (a + moved) + r' == a + (r' + moved);
  }

  // ---------------------------------------------------------------------
  // Selecting and deselecting the handles at a position
  // ---------------------------------------------------------------------

  /**
    Position `q` after the handles there moved from `from` to `to`: nothing
    is left in `from`, and the owners are appended to those in `to`.
  */
  ghost predicate MovedAt<O>(from: HandleMap<O>, to: HandleMap<O>, from': HandleMap<O>, to': HandleMap<O>, q: Vec3)
  {
    && q !in from' && Get(from', q) == []
    && Get(to', q) == Get(to, q) + Get(from, q)
    && (q in to' <==> q in to || q in from)
  }

  /** Position `q` is the same in both maps before and after. */
  ghost predicate UnchangedAt<O>(from: HandleMap<O>, to: HandleMap<O>, from': HandleMap<O>, to': HandleMap<O>, q: Vec3)
  {
    && Get(from', q) == Get(from, q) && (q in from' <==> q in from)
    && Get(to', q) == Get(to, q) && (q in to' <==> q in to)
  }

  /** The registered pairs follow the owners `moveHandle` moves. */
  lemma MoveRegisters<O(!new)>(p: Vec3, from: HandleMap<O>, fromEntries: multiset<(Vec3, O)>,
                               to: HandleMap<O>, toEntries: multiset<(Vec3, O)>,
                               from': HandleMap<O>, to': HandleMap<O>)
    requires Registers(from, fromEntries) && Registers(to, toEntries)
    requires Get(from', p) == [] && Get(to', p) == Get(to, p) + Get(from, p)
    requires forall q :: q != p ==> Get(from', q) == Get(from, q) && Get(to', q) == Get(to, q)
    ensures Registers(from', fromEntries - Pairs(p, Get(from, p)))
    ensures Registers(to', toEntries + Pairs(p, Get(from, p)))
    ensures |fromEntries - Pairs(p, Get(from, p))| + |Get(from, p)| == |fromEntries|
    ensures |Pairs(p, Get(from, p))| == |Get(from, p)|
  {
    RegistersRemoveAt(from, fromEntries, from', p);
    RegistersAppendAt(to, toEntries, to', p, Get(from, p));
    PairsSize(p, Get(from, p));
  }

  /**
    `select*Handle(position)`: the unselected handles at `position` become
    selected, and the selected counter grows by how many moved; no other
    position changes.
  */
  method SelectHandle<O(!new)>(p: Vec3, sel: HandleMap<O>, unsel: HandleMap<O>,
                               selectedCount: nat, totalCount: nat,
                               ghost selEntries: multiset<(Vec3, O)>, ghost unselEntries: multiset<(Vec3, O)>)
    returns (sel': HandleMap<O>, unsel': HandleMap<O>, selectedCount': nat,
             ghost selEntries': multiset<(Vec3, O)>, ghost unselEntries': multiset<(Vec3, O)>, count: nat)
    requires Consistent(sel, unsel, selEntries, unselEntries, selectedCount, totalCount)
    ensures Consistent(sel', unsel', selEntries', unselEntries', selectedCount', totalCount)
    ensures count == |Get(unsel, p)| && selectedCount' == selectedCount + count
    ensures MovedAt(unsel, sel, unsel', sel', p)
    ensures forall q :: q != p ==> UnchangedAt(unsel, sel, unsel', sel', q)
    ensures selEntries' + unselEntries' == selEntries + unselEntries
  {
    unsel', sel', count := MoveHandle(p, unsel, sel);
    SelectConsistent(p, sel, unsel, selEntries, unselEntries, selectedCount, totalCount, sel', unsel');
    ghost var moved := Pairs(p, Get(unsel, p));
    selEntries', unselEntries' := selEntries + moved, unselEntries - moved;
    selectedCount' := selectedCount;
    if count > 0 {
      selectedCount' := selectedCount + count;
    }
  }

  /** The invariant after `moveHandle` from the unselected to the selected map. */
  lemma SelectConsistent<O(!new)>(p: Vec3, sel: HandleMap<O>, unsel: HandleMap<O>,
                                  selEntries: multiset<(Vec3, O)>, unselEntries: multiset<(Vec3, O)>,
                                  selectedCount: nat, totalCount: nat, sel': HandleMap<O>, unsel': HandleMap<O>)
    requires Consistent(sel, unsel, selEntries, unselEntries, selectedCount, totalCount)
    requires unsel'.Keys == unsel.Keys - {p} && sel'.Keys == sel.Keys + (if p in unsel then {p} else {})
    requires Get(unsel', p) == [] && Get(sel', p) == Get(sel, p) + Get(unsel, p)
    requires forall q :: q != p ==> Get(unsel', q) == Get(unsel, q) && Get(sel', q) == Get(sel, q)
    ensures var moved := Pairs(p, Get(unsel, p));
      && Consistent(sel', unsel', selEntries + moved, unselEntries - moved,
                    selectedCount + |Get(unsel, p)|, totalCount)
      && (selEntries + moved) + (unselEntries - moved) == selEntries + unselEntries
  {
    MoveRegisters(p, unsel, unselEntries, sel, selEntries, unsel', sel');
    MovedBack(unselEntries, Pairs(p, Get(unsel, p)), selEntries);
  }

  /** The invariant after `moveHandle` from the selected to the unselected map. */
  lemma DeselectConsistent<O(!new)>(p: Vec3, sel: HandleMap<O>, unsel: HandleMap<O>,
                                    selEntries: multiset<(Vec3, O)>, unselEntries: multiset<(Vec3, O)>,
                                    selectedCount: nat, totalCount: nat, sel': HandleMap<O>, unsel': HandleMap<O>)
    requires Consistent(sel, unsel, selEntries, unselEntries, selectedCount, totalCount)
    requires sel'.Keys == sel.Keys - {p} && unsel'.Keys == unsel.Keys + (if p in sel then {p} else {})
    requires Get(sel', p) == [] && Get(unsel', p) == Get(unsel, p) + Get(sel, p)
    requires forall q :: q != p ==> Get(sel', q) == Get(sel, q) && Get(unsel', q) == Get(unsel, q)
    ensures |Get(sel, p)| <= selectedCount
    ensures var moved := Pairs(p, Get(sel, p));
      && Consistent(sel', unsel', selEntries - moved, unselEntries + moved,
                    selectedCount - |Get(sel, p)|, totalCount)
      && (selEntries - moved) + (unselEntries + moved) == selEntries + unselEntries
  {
    MoveRegisters(p, sel, selEntries, unsel, unselEntries, sel', unsel');
    MovedBack(selEntries, Pairs(p, Get(sel, p)), unselEntries);
    var moved := Pairs(p, Get(sel, p));
    assert (selEntries - moved) + (unselEntries + moved) == (unselEntries + moved) + (selEntries - moved);
  }

  /**
    `deselect*Handle(position)`: the selected handles at `position` become
    unselected, and the selected counter, which is at least their number,
    drops by how many moved; no other position changes.
  */
  method DeselectHandle<O(!new)>(p: Vec3, sel: HandleMap<O>, unsel: HandleMap<O>,
                                 selectedCount: nat, totalCount: nat,
                                 ghost selEntries: multiset<(Vec3, O)>, ghost unselEntries: multiset<(Vec3, O)>)
    returns (sel': HandleMap<O>, unsel': HandleMap<O>, selectedCount': nat,
             ghost selEntries': multiset<(Vec3, O)>, ghost unselEntries': multiset<(Vec3, O)>, count: nat)
    requires Consistent(sel, unsel, selEntries, unselEntries, selectedCount, totalCount)
    ensures Consistent(sel', unsel', selEntries', unselEntries', selectedCount', totalCount)
    ensures count == |Get(sel, p)| && selectedCount' + count == selectedCount
    ensures MovedAt(sel, unsel, sel', unsel', p)
    ensures forall q :: q != p ==> UnchangedAt(sel, unsel, sel', unsel', q)
    ensures selEntries' + unselEntries' == selEntries + unselEntries
  {
    sel', unsel', count := MoveHandle(p, sel, unsel);
    DeselectConsistent(p, sel, unsel, selEntries, unselEntries, selectedCount, totalCount, sel', unsel');
    ghost var moved := Pairs(p, Get(sel, p));
    selEntries', unselEntries' := selEntries - moved, unselEntries + moved;
    selectedCount' := selectedCount;
    if count > 0 {
      assert selectedCount >= count;
      selectedCount' := selectedCount - count;
    }
  }

  /** Moving `moved` out of `from` and into `to` keeps the union. */
  lemma MovedBack<T>(from: multiset<T>, moved: multiset<T>, to: multiset<T>)
    requires (from - moved) + moved == from
    ensures (to + moved) + (from - moved) == to + from
  {
    assert (to + moved) + (from - moved) == to + ((from - moved) + moved);
  }

  /** The loop invariant of selecting the handles at several positions, at one position `q`. */
  lemma MoveStepAt<O>(from: HandleMap<O>, to: HandleMap<O>, from0: HandleMap<O>, to0: HandleMap<O>,
                      from': HandleMap<O>, to': HandleMap<O>, p: Vec3, q: Vec3, wasDone: bool)
    requires wasDone ==> MovedAt(from, to, from0, to0, q)
    requires !wasDone ==> UnchangedAt(from, to, from0, to0, q)
    requires q == p ==> MovedAt(from0, to0, from', to', q)
    requires q != p ==> UnchangedAt(from0, to0, from', to', q)
    ensures wasDone || q == p ==> MovedAt(from, to, from', to', q)
    ensures !(wasDone || q == p) ==> UnchangedAt(from, to, from', to', q)
  {
  }

  /**
    `selectEdgeHandles` and `selectFaceHandles`: the handles at each listed
    position are selected in turn; the other positions are left alone.
    `moved` is the number of handles selected.
  */
  method SelectHandlesAt<O(!new)>(ps: seq<Vec3>, sel: HandleMap<O>, unsel: HandleMap<O>,
                                  selectedCount: nat, totalCount: nat,
                                  ghost selEntries: multiset<(Vec3, O)>, ghost unselEntries: multiset<(Vec3, O)>)
    returns (sel': HandleMap<O>, unsel': HandleMap<O>, selectedCount': nat,
             ghost selEntries': multiset<(Vec3, O)>, ghost unselEntries': multiset<(Vec3, O)>, moved: nat)
    requires Consistent(sel, unsel, selEntries, unselEntries, selectedCount, totalCount)
    ensures Consistent(sel', unsel', selEntries', unselEntries', selectedCount', totalCount)
    ensures forall q :: q in ps ==> MovedAt(unsel, sel, unsel', sel', q)
    ensures forall q :: q !in ps ==> UnchangedAt(unsel, sel, unsel', sel', q)
    ensures selectedCount' == selectedCount + moved
  {
    sel', unsel', selectedCount', selEntries', unselEntries', moved := sel, unsel, selectedCount, selEntries, unselEntries, 0;
    for i := 0 to |ps|
      invariant Consistent(sel', unsel', selEntries', unselEntries', selectedCount', totalCount)
      invariant forall q :: q in ps[..i] ==> MovedAt(unsel, sel, unsel', sel', q)
      invariant forall q :: q !in ps[..i] ==> UnchangedAt(unsel, sel, unsel', sel', q)
      invariant selectedCount' == selectedCount + moved
    {
      ghost var sel0, unsel0 := sel', unsel';
      var count;
      sel', unsel', selectedCount', selEntries', unselEntries', count :=
        SelectHandle(ps[i], sel', unsel', selectedCount', totalCount, selEntries', unselEntries');
      moved := moved + count;
      assert ps[..i + 1] == ps[..i] + [ps[i]];
      forall q ensures (q in ps[..i + 1] ==> MovedAt(unsel, sel, unsel', sel', q))
                    && (q !in ps[..i + 1] ==> UnchangedAt(unsel, sel, unsel', sel', q)) {
        MoveStepAt(unsel, sel, unsel0, sel0, unsel', sel', ps[i], q, q in ps[..i]);
      }
    }
    assert ps[..|ps|] == ps;
  }

  /**
    `selectVertexHandles`: the handles at each position of the set are
    selected in turn; the other positions are left alone. `moved` is the
    number of handles selected.
  */
  method SelectHandlesIn<O(!new)>(ps: set<Vec3>, sel: HandleMap<O>, unsel: HandleMap<O>,
                                  selectedCount: nat, totalCount: nat,
                                  ghost selEntries: multiset<(Vec3, O)>, ghost unselEntries: multiset<(Vec3, O)>)
    returns (sel': HandleMap<O>, unsel': HandleMap<O>, selectedCount': nat,
             ghost selEntries': multiset<(Vec3, O)>, ghost unselEntries': multiset<(Vec3, O)>, moved: nat)
    requires Consistent(sel, unsel, selEntries, unselEntries, selectedCount, totalCount)
    ensures Consistent(sel', unsel', selEntries', unselEntries', selectedCount', totalCount)
    ensures forall q :: q in ps ==> MovedAt(unsel, sel, unsel', sel', q)
    ensures forall q :: q !in ps ==> UnchangedAt(unsel, sel, unsel', sel', q)
    ensures selectedCount' == selectedCount + moved
  {
    sel', unsel', selectedCount', selEntries', unselEntries', moved := sel, unsel, selectedCount, selEntries, unselEntries, 0;
    var rest := ps;
    while rest != {}
      invariant rest <= ps
      invariant Consistent(sel', unsel', selEntries', unselEntries', selectedCount', totalCount)
      invariant forall q :: q in ps - rest ==> MovedAt(unsel, sel, unsel', sel', q)
      invariant forall q :: q !in ps - rest ==> UnchangedAt(unsel, sel, unsel', sel', q)
      invariant selectedCount' == selectedCount + moved
      decreases rest
    {
      var p :| p in rest;
      ghost var sel0, unsel0 := sel', unsel';
      var count;
      sel', unsel', selectedCount', selEntries', unselEntries', count :=
        SelectHandle(p, sel', unsel', selectedCount', totalCount, selEntries', unselEntries');
      moved := moved + count;
      forall q ensures (q in ps - (rest - {p}) ==> MovedAt(unsel, sel, unsel', sel', q))
                    && (q !in ps - (rest - {p}) ==> UnchangedAt(unsel, sel, unsel', sel', q)) {
        MoveStepAt(unsel, sel, unsel0, sel0, unsel', sel', p, q, q in ps - rest);
      }
      rest := rest - {p};
    }
  }

  /**
    `deselectAll*Handles`: the selected map is emptied and the selected
    counter reset; every selected owner list is appended to the unselected
    list at the same position, so no owner is lost.
  */
  method DeselectAll<O(!new)>(sel: HandleMap<O>, unsel: HandleMap<O>, selectedCount: nat, totalCount: nat,
                              ghost selEntries: multiset<(Vec3, O)>, ghost unselEntries: multiset<(Vec3, O)>)
    returns (sel': HandleMap<O>, unsel': HandleMap<O>, selectedCount': nat,
             ghost selEntries': multiset<(Vec3, O)>, ghost unselEntries': multiset<(Vec3, O)>)
    requires Consistent(sel, unsel, selEntries, unselEntries, selectedCount, totalCount)
    ensures Consistent(sel', unsel', selEntries', unselEntries', selectedCount', totalCount)
    ensures sel' == map[] && selectedCount' == 0
    ensures forall p :: Get(unsel', p) == Get(unsel, p) + Get(sel, p)
    ensures unsel'.Keys == unsel.Keys + sel.Keys
    ensures unselEntries' == unselEntries + selEntries
  {
    unsel', unselEntries' := AppendAll(sel, unsel, selEntries, unselEntries);
    sel', selEntries' := map[], multiset{};
    selectedCount' := 0;
  }

  // ---------------------------------------------------------------------
  // Looking up the owners at a position
  // ---------------------------------------------------------------------

  /**
    `brushes`, `edges` and `faces`: the selected list at `p` if `p` is
    selected, else the unselected list if there is one, else no owner.
  */
  function Lookup<O>(sel: HandleMap<O>, unsel: HandleMap<O>, p: Vec3): (r: seq<O>)
    ensures p in sel ==> r == sel[p]
    ensures sel.Keys !! unsel.Keys ==> r == Get(sel, p) + Get(unsel, p)
  {
    if p in sel then sel[p]
    else if p in unsel then unsel[p]
    else []
  }

  /** The owners found at `p` are exactly the handles registered at `p`, counted. */
  lemma LookupCounts<O(!new)>(sel: HandleMap<O>, unsel: HandleMap<O>,
                              selEntries: multiset<(Vec3, O)>, unselEntries: multiset<(Vec3, O)>, p: Vec3)
    ensures sel.Keys !! unsel.Keys && Registers(sel, selEntries) && Registers(unsel, unselEntries) ==>
      forall o :: multiset(Lookup(sel, unsel, p))[o] == (selEntries + unselEntries)[(p, o)]
  {
    if sel.Keys !! unsel.Keys && Registers(sel, selEntries) && Registers(unsel, unselEntries) {
      forall o ensures multiset(Lookup(sel, unsel, p))[o] == (selEntries + unselEntries)[(p, o)] {
        assert Count(selEntries, p, o) == multiset(Get(sel, p))[o];
        assert Count(unselEntries, p, o) == multiset(Get(unsel, p))[o];
      }
    }
  }
}
