/** The tree of field maps that the linked chains in the arena stand for, how the operations of the store change it, and
    that the parser's stack of pointers into the arena is the machine on trees (core/FieldMap.cpp:9-84,
    core/Parser.cpp:97-126). */
module HeapTrees {
  import opened Orders
  import opened FixTags
  import opened Scanner
  import opened GroupTree
  import opened FieldStore

  // ----- The tree below a map -----

  ghost function Tree(s: Shape, i: nat): MapV
    decreases |s.maps| - i, 4, 0
  {
    if i >= |s.maps| then EMPTY_MAP else MapV(TreeFields(s, i, s.maps[i].list))
  }

  ghost function TreeFields(s: Shape, i: nat, list: seq<FieldRec>): (fields: seq<FieldV>)
    requires i < |s.maps|
    ensures |fields| == |list|
    ensures forall k :: 0 <= k < |list| ==> fields[k] == TreeField(s, i, list[k])
    decreases |s.maps| - i, 3, |list|
  {
    if list == [] then [] else [TreeField(s, i, list[0])] + TreeFields(s, i, list[1..])
  }

  ghost function TreeField(s: Shape, i: nat, f: FieldRec): FieldV
    requires i < |s.maps|
    decreases |s.maps| - i, 2, 0
  {
    FieldV(f.tag, f.offset, f.length, TreeChain(s, i, s.Chain(i, f.tag)))
  }

  ghost function TreeChain(s: Shape, i: nat, c: seq<nat>): (groups: seq<MapV>)
    requires i < |s.maps|
    ensures |groups| == |c|
    decreases |s.maps| - i, 1, |c|
  {
    if c == [] then [] else [if i < c[0] then Tree(s, c[0]) else EMPTY_MAP] + TreeChain(s, i, c[1..])
  }

  lemma {:induction false} TreeChainAppend(s: Shape, i: nat, c: seq<nat>, d: nat)
    requires i < |s.maps| && i < d
    ensures TreeChain(s, i, c + [d]) == TreeChain(s, i, c) + [Tree(s, d)]
    decreases |c|
  {
    if c == [] {
      assert ([] + [d])[1..] == [];
    } else {
      assert (c + [d])[1..] == c[1..] + [d];
      TreeChainAppend(s, i, c[1..], d);
    }
  }

  lemma {:induction false} TreeChainSame(s: Shape, s': Shape, i: nat, c: seq<nat>)
    requires i < |s.maps| && i < |s'.maps|
    requires forall j :: 0 <= j < |c| ==> Tree(s', c[j]) == Tree(s, c[j])
    ensures TreeChain(s', i, c) == TreeChain(s, i, c)
    decreases |c|
  {
    if c != [] {
      assert forall j :: 0 <= j < |c[1..]| ==> c[1..][j] == c[j + 1];
      TreeChainSame(s, s', i, c[1..]);
    }
  }

  lemma {:induction false} FindSame(fields: seq<FieldV>, list: seq<FieldRec>, tag: Tag)
    requires |fields| == |list| && forall k :: 0 <= k < |list| ==> fields[k].tag == list[k].tag
    ensures FindField(fields, tag) == FindRec(list, tag)
    decreases |list|
  {
    if list != [] {
      FindSame(fields[1..], list[1..], tag);
    }
  }

  lemma FindInTree(s: Shape, i: nat, tag: Tag)
    requires i < |s.maps|
    ensures FindField(Tree(s, i).fields, tag) == FindRec(s.maps[i].list, tag)
  {
    FindSame(TreeFields(s, i, s.maps[i].list), s.maps[i].list, tag);
  }

  // ----- Ancestors -----

  /** a is x or a map that x hangs on, directly or indirectly. */
  ghost predicate Above(s: Shape, a: nat, x: nat)
    decreases x
  {
    a == x || (1 <= x < |s.places| && s.places[x].owner < x && Above(s, a, s.places[x].owner))
  }

  lemma OwnerIsBefore(s: Shape, p: nat)
    requires Ok(s) && 1 <= p < |s.maps|
    ensures s.places[p].owner < p
    ensures var c := s.Chain(s.places[p].owner, s.places[p].tag); s.places[p].pos < |c| && c[s.places[p].pos] == p
  {
    assert PlaceOk(s, p);
    assert ChainOk(s, s.places[p].owner, s.places[p].tag)
           && LinkOk(s, s.places[p].owner, s.places[p].tag, s.places[p].pos);
  }

  lemma {:induction false} AboveIsBefore(s: Shape, a: nat, x: nat)
    requires Above(s, a, x)
    ensures a <= x
    decreases x
  {
    if a != x {
      AboveIsBefore(s, a, s.places[x].owner);
    }
  }

  lemma {:induction false} OwnerIsAbove(s: Shape, d: nat, x: nat)
    requires Ok(s) && 1 <= d < |s.maps| && x < |s.maps| && Above(s, d, x)
    ensures Above(s, s.places[d].owner, x)
    decreases x
  {
    if d == x {
      OwnerIsBefore(s, d);
    } else {
      OwnerIsAbove(s, d, s.places[x].owner);
    }
  }

  /** Of the maps on which one hangs, no two have the same owner. */
  lemma {:induction false} OnlyOneChildIsAbove(s: Shape, c: nat, d: nat, x: nat)
    requires Ok(s) && 1 <= c < |s.maps| && 1 <= d < |s.maps| && x < |s.maps|
    requires Above(s, c, x) && Above(s, d, x) && s.places[c].owner == s.places[d].owner
    ensures c == d
    decreases x
  {
    OwnerIsBefore(s, c);
    OwnerIsBefore(s, d);
    if c == x && d != x {
      AboveIsBefore(s, d, s.places[x].owner);
    } else if c != x && d == x {
      AboveIsBefore(s, c, s.places[x].owner);
    } else if c != x {
      OnlyOneChildIsAbove(s, c, d, s.places[x].owner);
    }
  }

  lemma OnChain(s: Shape, i: nat, tag: Tag, j: nat)
    requires Ok(s) && j < |s.Chain(i, tag)|
    ensures var d := s.Chain(i, tag)[j]; i < d < |s.maps| && s.places[d] == Place(i, tag, j)
  {
    assert ChainOk(s, i, tag) && LinkOk(s, i, tag, j);
  }

  // ----- What a change to one map leaves alone -----

  /** Only the fields of map x and its chains have changed, and maps may have been added. */
  ghost predicate ChangedAt(s: Shape, s': Shape, x: nat) {
    && Ok(s) && Ok(s') && x < |s.maps| <= |s'.maps|
    && (forall i :: 0 <= i < |s.maps| ==> s'.places[i] == s.places[i])
    && (forall i :: 0 <= i < |s.maps| && i != x ==> s'.maps[i].list == s.maps[i].list)
    && (forall i: nat, tag: Tag :: i < |s.maps| && i != x ==> s'.Chain(i, tag) == s.Chain(i, tag))
  }

  /** The tree below a map changes only if the change happens below it. */
  lemma {:induction false} TreeStays(s: Shape, s': Shape, x: nat, i: nat)
    requires ChangedAt(s, s', x) && i < |s.maps| && !Above(s, i, x)
    ensures Tree(s', i) == Tree(s, i)
    decreases |s.maps| - i
  {
    var list := s.maps[i].list;
    forall k | 0 <= k < |list|
      ensures TreeField(s', i, list[k]) == TreeField(s, i, list[k])
    {
      var c := s.Chain(i, list[k].tag);
      forall j | 0 <= j < |c|
        ensures Tree(s', c[j]) == Tree(s, c[j])
      {
        OnChain(s, i, list[k].tag, j);
        if Above(s, c[j], x) {
          OwnerIsAbove(s, c[j], x);
        }
        TreeStays(s, s', x, c[j]);
      }
      TreeChainSame(s, s', i, c);
    }
    assert TreeFields(s', i, list) == TreeFields(s, i, list);
  }

  // ----- Setting and adding, on trees -----

  lemma ChildrenStay(s: Shape, s': Shape, x: nat, c: seq<nat>)
    requires ChangedAt(s, s', x) && forall j :: 0 <= j < |c| ==> x < c[j] < |s.maps|
    ensures TreeChain(s', x, c) == TreeChain(s, x, c)
  {
    forall j | 0 <= j < |c|
      ensures Tree(s', c[j]) == Tree(s, c[j])
    {
      if Above(s, c[j], x) {
        AboveIsBefore(s, c[j], x);
      }
      TreeStays(s, s', x, c[j]);
    }
    TreeChainSame(s, s', x, c);
  }

  lemma ChainStays(s: Shape, s': Shape, x: nat, tag: Tag)
    requires ChangedAt(s, s', x)
    ensures TreeChain(s', x, s.Chain(x, tag)) == TreeChain(s, x, s.Chain(x, tag))
  {
    forall j | 0 <= j < |s.Chain(x, tag)|
      ensures x < s.Chain(x, tag)[j] < |s.maps|
    {
      OnChain(s, x, tag, j);
    }
    ChildrenStay(s, s', x, s.Chain(x, tag));
  }

  lemma NoFieldNoChain(s: Shape, i: nat, tag: Tag)
    requires Ok(s) && i < |s.maps| && FindRec(s.maps[i].list, tag).None?
    ensures s.Chain(i, tag) == []
  {
    assert ChainOk(s, i, tag);
  }

  lemma SetChanges(s: Shape, x: nat, t: Token)
    requires Ok(s) && x < |s.maps| && HasRoom(s, x, t.tag)
    ensures ChangedAt(s, SetShape(s, x, t.tag, t.offset, t.length), x)
  {
    SetKeepsOk(s, x, t.tag, t.offset, t.length);
  }

  /** Setting a field in a map of the store is putting it into the tree. */
  lemma TreeAfterSet(s: Shape, x: nat, t: Token)
    requires Ok(s) && x < |s.maps| && HasRoom(s, x, t.tag)
    ensures Tree(SetShape(s, x, t.tag, t.offset, t.length), x) == Put(Tree(s, x), t)
  {
    var s', put := SetShape(s, x, t.tag, t.offset, t.length), Put(Tree(s, x), t);
    var list, list', k := s.maps[x].list, s'.maps[x].list, FindRec(s.maps[x].list, t.tag);
    SetChanges(s, x, t);
    FindInTree(s, x, t.tag);
    assert |list'| == |put.fields|;
    forall j | 0 <= j < |list'|
      ensures TreeField(s', x, list'[j]) == put.fields[j]
    {
      ChainStays(s, s', x, list'[j].tag);
      if j == |list| {
        NoFieldNoChain(s, x, t.tag);
      } else {
        assert TreeField(s', x, list[j]) == Tree(s, x).fields[j];
      }
    }
    assert TreeFields(s', x, list') == put.fields;
  }

  lemma AddChanges(s: Shape, x: nat, tag: Tag)
    requires Ok(s) && x < |s.maps| && HasRoom(s, x, tag)
    ensures ChangedAt(s, AddShape(s, x, tag), x)
  {
    AddKeepsOk(s, x, tag);
    forall i: nat | i < |s.maps|
      ensures i != x ==> AddShape(s, x, tag).maps[i].list == s.maps[i].list
    {
      AddedLists(s, x, tag, i);
    }
  }

  /** The chain of the field on which an instance is added. */
  lemma ChainAfterAdd(s: Shape, x: nat, tag: Tag)
    requires Ok(s) && x < |s.maps| && HasRoom(s, x, tag)
    ensures var s' := AddShape(s, x, tag);
      && TreeChain(s', x, s'.Chain(x, tag)) == TreeChain(s, x, s.Chain(x, tag)) + [EMPTY_MAP]
      && Tree(s', |s.maps|) == EMPTY_MAP
  {
    var s', fm := AddShape(s, x, tag), |s.maps|;
    AddChanges(s, x, tag);
    assert s'.maps[fm].list == [];
    assert Tree(s', fm) == EMPTY_MAP;
    TreeChainAppend(s', x, s.Chain(x, tag), fm);
    ChainStays(s, s', x, tag);
  }

  /** Adding an instance in the store is adding an empty one to the tree. */
  lemma TreeAfterAdd(s: Shape, x: nat, tag: Tag)
    requires Ok(s) && x < |s.maps| && HasRoom(s, x, tag)
    ensures Tree(AddShape(s, x, tag), x) == AddGroup(Tree(s, x), tag, EMPTY_MAP)
  {
    var s', added := AddShape(s, x, tag), AddGroup(Tree(s, x), tag, EMPTY_MAP);
    AddChanges(s, x, tag);
    AddedLists(s, x, tag, x);
    FindInTree(s, x, tag);
    var list, list' := s.maps[x].list, s'.maps[x].list;
    assert |list'| == |added.fields|;
    forall j | 0 <= j < |list'|
      ensures TreeField(s', x, list'[j]) == added.fields[j]
    {
      AddedField(s, x, tag, j);
    }
    assert TreeFields(s', x, list') == added.fields;
  }

  lemma AddedField(s: Shape, x: nat, tag: Tag, j: nat)
    requires Ok(s) && x < |s.maps| && HasRoom(s, x, tag) && j < |AddRec(s.maps[x].list, tag, |s.maps|)|
    ensures var added := AddGroup(Tree(s, x), tag, EMPTY_MAP);
      && j < |added.fields|
      && TreeField(AddShape(s, x, tag), x, AddRec(s.maps[x].list, tag, |s.maps|)[j]) == added.fields[j]
  {
    var s', list := AddShape(s, x, tag), s.maps[x].list;
    var f := AddRec(list, tag, |s.maps|)[j];
    FindInTree(s, x, tag);
    if f.tag == tag {
      ChainAfterAdd(s, x, tag);
      if j == |list| {
        NoFieldNoChain(s, x, tag);
        assert TreeChain(s, x, []) + [EMPTY_MAP] == [EMPTY_MAP];
      } else {
        assert MapOk(s, x) && j == FindRec(list, tag).value;
      }
    } else {
      AddChanges(s, x, tag);
      ChainStays(s, s', x, f.tag);
    }
  }

  // ----- A change below the last instance of a chain -----

  /** The map with the last instance on a field replaced. */
  function WithLast(m: MapV, tag: Tag, child: MapV): MapV {
    var i := FindField(m.fields, tag);
    if i.None? || m.fields[i.value].groups == [] then m
    else
      var f := m.fields[i.value];
      MapV(m.fields[i.value := f.(groups := f.groups[..|f.groups| - 1] + [child])])
  }

  lemma {:induction false} FindUpdated(fields: seq<FieldV>, i: nat, f: FieldV)
    requires i < |fields| && FindField(fields, f.tag) == Some(i)
    ensures FindField(fields[i := f], f.tag) == Some(i)
    decreases |fields|
  {
    if i > 0 {
      assert fields[i := f][1..] == fields[1..][i - 1 := f];
      FindUpdated(fields[1..], i - 1, f);
    }
  }

  lemma AddThenReplace(m: MapV, tag: Tag, a: MapV, b: MapV)
    ensures WithLast(AddGroup(m, tag, a), tag, b) == AddGroup(m, tag, b)
  {
    var i := FindField(m.fields, tag);
    if i.Some? {
      var f := m.fields[i.value];
      FindUpdated(m.fields, i.value, f.(groups := f.groups + [a]));
      assert (f.groups + [a])[..|f.groups|] == f.groups;
    } else {
      NotFound(m.fields, tag);
      var f, g := FieldV(tag, 0, 0, [a]), FieldV(tag, 0, 0, [b]);
      FindLast(m.fields, f);
      assert [a][..0] + [b] == [b];
      assert (m.fields + [f])[|m.fields| := g] == m.fields + [g];
    }
  }

  /** A change below the last instance on a field shows in the tree of the owner in this instance only. */
  lemma TreeAroundChange(s: Shape, s': Shape, x: nat, c: nat)
    requires ChangedAt(s, s', x) && 1 <= c < |s.maps| && Above(s, c, x)
    requires var pl := s.places[c]; pl.pos == |s.Chain(pl.owner, pl.tag)| - 1
    ensures var pl := s.places[c];
      pl.owner < c && Tree(s', pl.owner) == WithLast(Tree(s, pl.owner), pl.tag, Tree(s', c))
  {
    var p, tag := s.places[c].owner, s.places[c].tag;
    OwnerIsBefore(s, c);
    AboveIsBefore(s, c, x);
    assert ChainOk(s, p, tag);
    var list, whole := s.maps[p].list, WithLast(Tree(s, p), tag, Tree(s', c));
    FindInTree(s, p, tag);
    forall k | 0 <= k < |list|
      ensures TreeField(s', p, list[k]) == whole.fields[k]
    {
      FieldAroundChange(s, s', x, c, k);
    }
    assert TreeFields(s', p, list) == whole.fields;
  }

  lemma FieldAroundChange(s: Shape, s': Shape, x: nat, c: nat, k: nat)
    requires ChangedAt(s, s', x) && 1 <= c < |s.maps| && Above(s, c, x) && s.places[c].owner < |s.maps|
    requires var pl := s.places[c]; pl.pos == |s.Chain(pl.owner, pl.tag)| - 1
    requires k < |s.maps[s.places[c].owner].list|
    ensures var pl, list := s.places[c], s.maps[s.places[c].owner].list;
      TreeField(s', pl.owner, list[k]) == WithLast(Tree(s, pl.owner), pl.tag, Tree(s', c)).fields[k]
  {
    var p, tag := s.places[c].owner, s.places[c].tag;
    var list := s.maps[p].list;
    OwnerIsBefore(s, c);
    AboveIsBefore(s, c, x);
    FindInTree(s, p, tag);
    assert ChainOk(s, p, tag);
    if list[k].tag == tag {
      assert MapOk(s, p) && k == FindRec(list, tag).value;
      LastOfChainChanged(s, s', x, c);
    } else {
      OtherChainStays(s, s', x, c, list[k].tag);
    }
  }

  lemma SiblingStays(s: Shape, s': Shape, x: nat, c: nat, d: nat)
    requires ChangedAt(s, s', x) && 1 <= c < |s.maps| && Above(s, c, x)
    requires 1 <= d < |s.maps| && d != c && s.places[d].owner == s.places[c].owner
    ensures Tree(s', d) == Tree(s, d)
  {
    if Above(s, d, x) {
      OnlyOneChildIsAbove(s, c, d, x);
    }
    TreeStays(s, s', x, d);
  }

  lemma OtherChainStays(s: Shape, s': Shape, x: nat, c: nat, tag: Tag)
    requires ChangedAt(s, s', x) && 1 <= c < |s.maps| && Above(s, c, x) && tag != s.places[c].tag
    requires s.places[c].owner < |s.maps|
    ensures var p := s.places[c].owner; TreeChain(s', p, s.Chain(p, tag)) == TreeChain(s, p, s.Chain(p, tag))
  {
    var p := s.places[c].owner;
    forall j | 0 <= j < |s.Chain(p, tag)|
      ensures Tree(s', s.Chain(p, tag)[j]) == Tree(s, s.Chain(p, tag)[j])
    {
      OnChain(s, p, tag, j);
      SiblingStays(s, s', x, c, s.Chain(p, tag)[j]);
    }
    TreeChainSame(s, s', p, s.Chain(p, tag));
  }

  lemma LastOfChainChanged(s: Shape, s': Shape, x: nat, c: nat)
    requires ChangedAt(s, s', x) && 1 <= c < |s.maps| && Above(s, c, x)
    requires var pl := s.places[c]; pl.pos == |s.Chain(pl.owner, pl.tag)| - 1 && pl.owner < |s.maps|
    ensures var p, chain := s.places[c].owner, s.Chain(s.places[c].owner, s.places[c].tag);
      var before := TreeChain(s, p, chain);
      chain != [] && TreeChain(s', p, chain) == before[..|before| - 1] + [Tree(s', c)]
  {
    var p, tag := s.places[c].owner, s.places[c].tag;
    var chain := s.Chain(p, tag);
    OwnerIsBefore(s, c);
    var front := chain[..|chain| - 1];
    assert chain == front + [c];
    forall j | 0 <= j < |front|
      ensures Tree(s', front[j]) == Tree(s, front[j])
    {
      OnChain(s, p, tag, j);
      SiblingStays(s, s', x, c, chain[j]);
    }
    TreeChainSame(s, s', p, front);
    TreeChainAppend(s, p, front, c);
    TreeChainAppend(s', p, front, c);
  }

  // ----- The parser's pointers -----

  /** The parser's pointer to the current map and its stack of pointers to the maps above it stand for the machine on
      trees: each map hangs as the last instance on the one below it on the stack, and the lowest is the root. */
  ghost predicate Represents(s: Shape, stack: seq<nat>, current: nat, m: Machine)
    decreases |stack|
  {
    && |stack| == |m.stack| && current < |s.maps| && Tree(s, current) == m.current
    && if stack == [] then current == 0 else IsLast(s, current, stack[|stack| - 1], m.stack[|m.stack| - 1].tag)
                                             && Represents(s, stack[..|stack| - 1], stack[|stack| - 1], Popped(m))
  }

  ghost predicate IsLast(s: Shape, c: nat, owner: nat, tag: Tag) {
    1 <= c < |s.places| && s.Chain(owner, tag) != [] && s.places[c] == Place(owner, tag, |s.Chain(owner, tag)| - 1)
  }

  lemma StartRepresented()
    ensures Represents(INITIAL, [], 0, START)
  {
    assert Tree(INITIAL, 0) == EMPTY_MAP;
  }

  /** The machine's root is the tree below the root map. */
  lemma {:induction false} RootRepresented(s: Shape, stack: seq<nat>, current: nat, m: Machine)
    requires Represents(s, stack, current, m)
    ensures Root(m) == Tree(s, 0)
    decreases |stack|
  {
    if stack != [] {
      RootRepresented(s, stack[..|stack| - 1], stack[|stack| - 1], Popped(m));
    }
  }

  /** A change to a map below the current one, or to itself, shows in the current map and nowhere else on the stack. */
  lemma {:induction false} StackAfterChange(s: Shape, s': Shape, x: nat, stack: seq<nat>, current: nat, m: Machine,
                                            m': Machine)
    requires ChangedAt(s, s', x) && Represents(s, stack, current, m) && Above(s, current, x)
    requires m'.stack == m.stack && m'.current == Tree(s', current)
    ensures Represents(s', stack, current, m')
    decreases |stack|
  {
    if stack != [] {
      var p, top := stack[|stack| - 1], m.stack[|m.stack| - 1];
      assert IsLast(s, current, p, top.tag);
      TreeAroundChange(s, s', x, current);
      AddThenReplace(top.map_, top.tag, m.current, m'.current);
      OwnerIsAbove(s, current, x);
      AboveIsBefore(s, current, x);
      StackAfterChange(s, s', x, stack[..|stack| - 1], p, Popped(m), Popped(m'));
    }
  }

  /** Storing a field in the current map. */
  lemma SetRepresented(s: Shape, stack: seq<nat>, current: nat, m: Machine, t: Token)
    requires Ok(s) && Represents(s, stack, current, m) && HasRoom(s, current, t.tag)
    ensures Represents(SetShape(s, current, t.tag, t.offset, t.length), stack, current,
                       m.(current := Put(m.current, t)))
  {
    SetChanges(s, current, t);
    TreeAfterSet(s, current, t);
    StackAfterChange(s, SetShape(s, current, t.tag, t.offset, t.length), current, stack, current, m,
                     m.(current := Put(m.current, t)));
  }

  /** Adding an instance to the current map and moving into it. */
  lemma OpenRepresented(s: Shape, stack: seq<nat>, current: nat, m: Machine, tag: Tag)
    requires Ok(s) && Represents(s, stack, current, m) && HasRoom(s, current, tag)
    ensures Represents(AddShape(s, current, tag), stack + [current], |s.maps|, OpenGroup(m, tag))
  {
    var s', below := AddShape(s, current, tag), Machine(m.stack, AddGroup(m.current, tag, EMPTY_MAP), m.defs);
    AddChanges(s, current, tag);
    TreeAfterAdd(s, current, tag);
    ChainAfterAdd(s, current, tag);
    StackAfterChange(s, s', current, stack, current, m, below);
    var inside := OpenGroup(m, tag);
    assert inside.stack[..|inside.stack| - 1] == m.stack;
    assert Popped(inside) == below;
    assert (stack + [current])[..|stack|] == stack;
  }

  /** Going back to the parent. */
  lemma PopRepresented(s: Shape, stack: seq<nat>, current: nat, m: Machine)
    requires Represents(s, stack, current, m) && stack != []
    ensures Represents(s, stack[..|stack| - 1], stack[|stack| - 1], Popped(m))
  {
  }

  /** Looking a field up in the store finds what it is in the tree, with as many instances as its chain has. */
  lemma FieldRepresented(s: Shape, i: nat, tag: Tag)
    requires i < |s.maps|
    ensures var k, k' := FindRec(s.maps[i].list, tag), FindField(Tree(s, i).fields, tag);
      && k' == k
      && (k.Some? ==>
            var f, f' := s.maps[i].list[k.value], Tree(s, i).fields[k.value];
            f'.tag == f.tag && f'.offset == f.offset && f'.length == f.length && |f'.groups| == |s.Chain(i, tag)|)
  {
    FindInTree(s, i, tag);
  }
}
