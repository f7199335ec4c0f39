/** The category tree the site header builds from the flat category list
    (src/components/header.tsx). Tree nodes are shared by id: the builder
    first makes one node per id, then links each category under the node of
    its parent, so the forest is represented by the node of every id and the
    ordered list of child ids of every node. */
module CategoryTree {
  import opened Types

  datatype Forest = Forest(
    top: seq<Id>,
    nodes: map<Id, Category>,
    children: map<Id, seq<Id>>)

  /** `new Map(categories.map(c => [c.id, ...]))`: one entry per id, the
      last category with a given id wins. */
  function CategoryMap(cats: seq<Category>): (m: map<Id, Category>)
    ensures forall i :: 0 <= i < |cats| ==> cats[i].id in m
    ensures forall id :: id in m ==> m[id].id == id
  {
    MapOfFirstIds(cats, |cats|);
    MapOfFirst(cats, |cats|)
  }

  /** The map built from the first `n` categories. */
  function MapOfFirst(cats: seq<Category>, n: nat): map<Id, Category>
    requires n <= |cats|
  {
    if n == 0 then map[] else MapOfFirst(cats, n - 1)[cats[n - 1].id := cats[n - 1]]
  }

  /** Each of the first `n` categories has an entry, and each entry is
      filed under its own id. */
  lemma {:induction false} MapOfFirstIds(cats: seq<Category>, n: nat)
    requires n <= |cats|
    ensures forall i :: 0 <= i < n ==> cats[i].id in MapOfFirst(cats, n)
    ensures forall id :: id in MapOfFirst(cats, n) ==> MapOfFirst(cats, n)[id].id == id
  {
    if n > 0 {
      MapOfFirstIds(cats, n - 1);
    }
  }

  /** The map has exactly the ids of the list as keys. */
  lemma CategoryMapKeys(cats: seq<Category>)
    ensures CategoryMap(cats).Keys == set i | 0 <= i < |cats| :: cats[i].id
  {
    MapOfFirstKeys(cats, |cats|);
  }

  lemma {:induction false} MapOfFirstKeys(cats: seq<Category>, n: nat)
    requires n <= |cats|
    ensures MapOfFirst(cats, n).Keys == set i | 0 <= i < n :: cats[i].id
  {
    if n > 0 {
      MapOfFirstKeys(cats, n - 1);
      assert (set i | 0 <= i < n :: cats[i].id) == (set i | 0 <= i < n - 1 :: cats[i].id) + {cats[n - 1].id};
    }
  }

  /** Every category in the map comes from the list. */
  lemma CategoryMapFrom(cats: seq<Category>, id: Id)
    requires id in CategoryMap(cats)
    ensures CategoryMap(cats)[id] in cats
  {
    MapOfFirstFrom(cats, |cats|, id);
  }

  lemma {:induction false} MapOfFirstFrom(cats: seq<Category>, n: nat, id: Id)
    requires n <= |cats| && id in MapOfFirst(cats, n)
    ensures MapOfFirst(cats, n)[id] in cats[..n]
  {
    if n > 0 && id != cats[n - 1].id {
      MapOfFirstFrom(cats, n - 1, id);
      assert cats[..n - 1] <= cats[..n];
    }
  }

  /** The map holds the last category with each id. */
  lemma CategoryMapLastWins(cats: seq<Category>, i: int)
    requires 0 <= i < |cats|
    requires forall j :: i < j < |cats| ==> cats[j].id != cats[i].id
    ensures CategoryMap(cats)[cats[i].id] == cats[i]
  {
    MapOfFirstLastWins(cats, |cats|, i);
  }

  lemma {:induction false} MapOfFirstLastWins(cats: seq<Category>, n: nat, i: int)
    requires 0 <= i < n <= |cats|
    requires forall j :: i < j < n ==> cats[j].id != cats[i].id
    ensures cats[i].id in MapOfFirst(cats, n) && MapOfFirst(cats, n)[cats[i].id] == cats[i]
  {
    if i < n - 1 {
      MapOfFirstLastWins(cats, n - 1, i);
    }
  }

  /** A category hangs under its parent when `parentId` is a non-empty string
      naming a category in the list. */
  predicate Resolves(c: Category, ids: set<Id>) {
    Truthy(c.parentId) && c.parentId.value in ids
  }

  /** Where a category goes: under its parent, or at the top (`None`). */
  function Placement(c: Category, ids: set<Id>): (slot: Option<Id>)
    ensures slot.Some? <==> Resolves(c, ids)
    ensures slot.Some? ==> slot.value in ids && slot == c.parentId
  {
    if Resolves(c, ids) then Some(c.parentId.value) else None
  }

  /** The ids placed in `slot`, in list order. */
  function Placed(cats: seq<Category>, ids: set<Id>, slot: Option<Id>): (r: seq<Id>)
    ensures |r| <= |cats|
  {
    PlacedOfFirst(cats, |cats|, ids, slot)
  }

  /** The ids of the first `n` categories placed in `slot`. */
  function PlacedOfFirst(cats: seq<Category>, n: nat, ids: set<Id>, slot: Option<Id>): (r: seq<Id>)
    requires n <= |cats|
    ensures |r| <= n
  {
    if n == 0 then []
    else
      PlacedOfFirst(cats, n - 1, ids, slot)
      + if Placement(cats[n - 1], ids) == slot then [cats[n - 1].id] else []
  }

  /** The children of every node after the first `n` categories are linked. */
  function ChildrenOfFirst(cats: seq<Category>, n: nat, ids: set<Id>): (m: map<Id, seq<Id>>)
    requires n <= |cats|
    ensures m.Keys == ids
  {
    map p | p in ids :: PlacedOfFirst(cats, n, ids, Some(p))
  }

  /** Linking the next category appends it to its parent's children, if its
      parent resolves, and changes no other node. */
  lemma ChildrenStep(cats: seq<Category>, n: nat, ids: set<Id>)
    requires n < |cats|
    ensures var before := ChildrenOfFirst(cats, n, ids);
      ChildrenOfFirst(cats, n + 1, ids) ==
        if Resolves(cats[n], ids)
        then before[cats[n].parentId.value := before[cats[n].parentId.value] + [cats[n].id]]
        else before
  {
    var before := ChildrenOfFirst(cats, n, ids);
    var after := ChildrenOfFirst(cats, n + 1, ids);
    if Resolves(cats[n], ids) {
      var p := cats[n].parentId.value;
      var expected := before[p := before[p] + [cats[n].id]];
      assert after.Keys == expected.Keys;
      forall q | q in ids
        ensures after[q] == expected[q]
      {
      }
      assert after == expected;
    } else {
      forall q | q in ids
        ensures after[q] == before[q]
      {
        assert PlacedOfFirst(cats, n + 1, ids, Some(q)) == PlacedOfFirst(cats, n, ids, Some(q)) + [];
      }
      assert after == before;
    }
  }

  /** `nestedCategories`. A missing list (still loading) gives no tree;
      otherwise every id gets a node with no children, and then each
      category is appended to its parent's children or to the top level. */
  method BuildNestedCategories(categories: Option<seq<Category>>) returns (f: Forest)
    ensures categories.None? ==> f == Forest([], map[], map[])
    ensures categories.Some? ==>
      var cats := categories.value;
      && f.nodes == CategoryMap(cats)
      && f.top == Placed(cats, f.nodes.Keys, None)
      && f.children == map p | p in f.nodes.Keys :: Placed(cats, f.nodes.Keys, Some(p))
  {
    if categories.None? {
      return Forest([], map[], map[]);
    }
    var cats := categories.value;
    var nodes, children := NewNodes(cats);
    var top;
    top, children := LinkNodes(cats, nodes, children);
    f := Forest(top, nodes, children);
  }

  /** The first pass: one node per id, with no children yet. */
  method NewNodes(cats: seq<Category>) returns (nodes: map<Id, Category>, children: map<Id, seq<Id>>)
    ensures nodes == CategoryMap(cats)
    ensures children == ChildrenOfFirst(cats, 0, nodes.Keys)
  {
    nodes := map[];
    children := map[];
    var i := 0;
    while i < |cats|
      invariant 0 <= i <= |cats|
      invariant nodes == MapOfFirst(cats, i)
      invariant children == NoChildren(nodes.Keys)
    {
      NoChildrenAdd(nodes.Keys, cats[i].id);
      MapStep(cats, i);
      nodes := nodes[cats[i].id := cats[i]];
      children := children[cats[i].id := []];
      i := i + 1;
    }
    NoChildrenAtStart(cats, nodes.Keys);
  }

  lemma MapStep(cats: seq<Category>, i: nat)
    requires i < |cats|
    ensures MapOfFirst(cats, i + 1) == MapOfFirst(cats, i)[cats[i].id := cats[i]]
  {
  }

  /** Every node with an empty list of children. */
  function NoChildren(ids: set<Id>): (m: map<Id, seq<Id>>)
    ensures m.Keys == ids
    ensures forall p :: p in m ==> m[p] == []
  {
    map p | p in ids :: []
  }

  lemma NoChildrenAdd(ids: set<Id>, id: Id)
    ensures NoChildren(ids)[id := []] == NoChildren(ids + {id})
  {
  }

  /** Before the second pass no category is linked yet. */
  lemma NoChildrenAtStart(cats: seq<Category>, ids: set<Id>)
    ensures ChildrenOfFirst(cats, 0, ids) == NoChildren(ids)
  {
  }



  /** The second pass: each category goes under the node of its parent when
      the parent id is truthy and has a node, and to the top level otherwise. */
  method LinkNodes(cats: seq<Category>, nodes: map<Id, Category>, empty: map<Id, seq<Id>>)
    returns (top: seq<Id>, children: map<Id, seq<Id>>)
    requires empty == ChildrenOfFirst(cats, 0, nodes.Keys)
    ensures top == Placed(cats, nodes.Keys, None)
    ensures children == ChildrenOfFirst(cats, |cats|, nodes.Keys)
  {
    var ids := nodes.Keys;
    children := empty;
    top := [];
    var i := 0;
    while i < |cats|
      invariant 0 <= i <= |cats|
      invariant top == PlacedOfFirst(cats, i, ids, None)
      invariant children == ChildrenOfFirst(cats, i, ids)
    {
      var cat := cats[i];
      ChildrenStep(cats, i, ids);
      if Truthy(cat.parentId) && cat.parentId.value in nodes {
        var p := cat.parentId.value;
        children := children[p := children[p] + [cat.id]];
        assert PlacedOfFirst(cats, i + 1, ids, None) == PlacedOfFirst(cats, i, ids, None) + [];
      } else {
        top := top + [cat.id];
      }
      i := i + 1;
    }
  }

  /** An id is placed in `slot` exactly when some category with that id
      belongs there. */
  lemma PlacedMember(cats: seq<Category>, ids: set<Id>, slot: Option<Id>, id: Id)
    ensures id in Placed(cats, ids, slot) <==>
      exists i :: 0 <= i < |cats| && cats[i].id == id && Placement(cats[i], ids) == slot
  {
    PlacedOfFirstMember(cats, |cats|, ids, slot, id);
  }

  lemma {:induction false} PlacedOfFirstMember(cats: seq<Category>, n: nat, ids: set<Id>, slot: Option<Id>, id: Id)
    requires n <= |cats|
    ensures id in PlacedOfFirst(cats, n, ids, slot) <==>
      exists i :: 0 <= i < n && cats[i].id == id && Placement(cats[i], ids) == slot
  {
    if n > 0 {
      PlacedOfFirstMember(cats, n - 1, ids, slot, id);
    }
  }

  /** Placing keeps the order of the list. */
  lemma PlacedConcat(a: seq<Category>, b: seq<Category>, ids: set<Id>, slot: Option<Id>)
    ensures Placed(a + b, ids, slot) == Placed(a, ids, slot) + Placed(b, ids, slot)
  {
    PlacedOfFirstConcat(a, b, |b|, ids, slot);
  }

  lemma {:induction false} PlacedOfFirstConcat(a: seq<Category>, b: seq<Category>, k: nat, ids: set<Id>, slot: Option<Id>)
    requires k <= |b|
    ensures PlacedOfFirst(a + b, |a| + k, ids, slot) == Placed(a, ids, slot) + PlacedOfFirst(b, k, ids, slot)
  {
    if k == 0 {
      PlacedOfFirstPrefix(a, b, |a|, ids, slot);
    } else {
      PlacedOfFirstConcat(a, b, k - 1, ids, slot);
      assert (a + b)[|a| + k - 1] == b[k - 1];
    }
  }

  /** The first `n` categories of `a + b` are those of `a` when `n <= |a|`. */
  lemma {:induction false} PlacedOfFirstPrefix(a: seq<Category>, b: seq<Category>, n: nat, ids: set<Id>, slot: Option<Id>)
    requires n <= |a|
    ensures PlacedOfFirst(a + b, n, ids, slot) == PlacedOfFirst(a, n, ids, slot)
  {
    if n > 0 {
      PlacedOfFirstPrefix(a, b, n - 1, ids, slot);
      assert (a + b)[n - 1] == a[n - 1];
    }
  }

  /** Every category of the list shows up in the tree: at the top when its
      parent id is absent, empty or unknown, and otherwise under that parent,
      which is itself a node of the tree. */
  lemma EveryCategoryPlaced(cats: seq<Category>, i: int)
    requires 0 <= i < |cats|
    ensures var ids := CategoryMap(cats).Keys;
      if Resolves(cats[i], ids)
      then cats[i].parentId.value in ids && cats[i].id in Placed(cats, ids, cats[i].parentId)
      else cats[i].id in Placed(cats, ids, None)
  {
    var ids := CategoryMap(cats).Keys;
    PlacedMember(cats, ids, Placement(cats[i], ids), cats[i].id);
  }

  /** With distinct ids, a category shows up nowhere else. */
  lemma PlacedOnce(cats: seq<Category>, i: int, slot: Option<Id>)
    requires 0 <= i < |cats|
    requires forall j, k :: 0 <= j < k < |cats| ==> cats[j].id != cats[k].id
    requires slot != Placement(cats[i], CategoryMap(cats).Keys)
    ensures cats[i].id !in Placed(cats, CategoryMap(cats).Keys, slot)
  {
    PlacedMember(cats, CategoryMap(cats).Keys, slot, cats[i].id);
  }

  /** Some category among the first `n` has the id and is placed in `slot`. */
  predicate PlacedAmong(cats: seq<Category>, n: nat, ids: set<Id>, slot: Option<Id>, id: Id)
    requires n <= |cats|
  {
    exists j :: 0 <= j < n && cats[j].id == id && Placement(cats[j], ids) == slot
  }

  /** Adding the `n`-th category adds one to the count of its id when it is
      placed in `slot`, and leaves every other count as it was. */
  lemma PlacedOfFirstStep(cats: seq<Category>, n: nat, ids: set<Id>, slot: Option<Id>, id: Id)
    requires 0 < n <= |cats|
    ensures multiset(PlacedOfFirst(cats, n, ids, slot))[id]
         == multiset(PlacedOfFirst(cats, n - 1, ids, slot))[id]
            + if cats[n - 1].id == id && Placement(cats[n - 1], ids) == slot then 1 else 0
  {
    var prev := PlacedOfFirst(cats, n - 1, ids, slot);
    var step := if Placement(cats[n - 1], ids) == slot then [cats[n - 1].id] else [];
    assert multiset(prev + step) == multiset(prev) + multiset(step);
  }

  /** With distinct ids, no category before the `n`-th shares its id. */
  lemma FirstWithId(cats: seq<Category>, n: nat, ids: set<Id>, slot: Option<Id>)
    requires 0 < n <= |cats|
    requires forall j, k :: 0 <= j < k < |cats| ==> cats[j].id != cats[k].id
    ensures !PlacedAmong(cats, n - 1, ids, slot, cats[n - 1].id)
  {
    forall j | 0 <= j < n - 1
      ensures cats[j].id != cats[n - 1].id
    {
    }
  }

  /** A match among the first `n` that is not the `n`-th category is a
      match among the first `n - 1`. */
  lemma PlacedAmongEarlier(cats: seq<Category>, n: nat, ids: set<Id>, slot: Option<Id>, id: Id)
    requires 0 < n <= |cats|
    requires !(cats[n - 1].id == id && Placement(cats[n - 1], ids) == slot)
    ensures PlacedAmong(cats, n, ids, slot, id) <==> PlacedAmong(cats, n - 1, ids, slot, id)
  {
    if PlacedAmong(cats, n, ids, slot, id) {
      var j :| 0 <= j < n && cats[j].id == id && Placement(cats[j], ids) == slot;
      assert j < n - 1;
    }
  }

  /** With distinct ids, an id occurs in a slot's list once when its
      category is placed there among the first `n`, and otherwise not at
      all. */
  lemma {:induction false} PlacedOfFirstCount(cats: seq<Category>, n: nat, ids: set<Id>, slot: Option<Id>, id: Id)
    requires n <= |cats|
    requires forall j, k :: 0 <= j < k < |cats| ==> cats[j].id != cats[k].id
    ensures multiset(PlacedOfFirst(cats, n, ids, slot))[id] == if PlacedAmong(cats, n, ids, slot, id) then 1 else 0
  {
    if n > 0 {
      PlacedOfFirstCount(cats, n - 1, ids, slot, id);
      PlacedOfFirstStep(cats, n, ids, slot, id);
      if cats[n - 1].id == id && Placement(cats[n - 1], ids) == slot {
        FirstWithId(cats, n, ids, slot);
        assert PlacedAmong(cats, n, ids, slot, id);
      } else {
        PlacedAmongEarlier(cats, n, ids, slot, id);
      }
    }
  }

  /** With distinct ids, a category shows up exactly once in its own slot;
      with `PlacedOnce`, exactly once in the whole tree. */
  lemma PlacedExactlyOnce(cats: seq<Category>, i: int)
    requires 0 <= i < |cats|
    requires forall j, k :: 0 <= j < k < |cats| ==> cats[j].id != cats[k].id
    ensures var ids := CategoryMap(cats).Keys;
      multiset(Placed(cats, ids, Placement(cats[i], ids)))[cats[i].id] == 1
  {
    var ids := CategoryMap(cats).Keys;
    PlacedOfFirstCount(cats, |cats|, ids, Placement(cats[i], ids), cats[i].id);
  }

  /** A category naming itself as parent becomes its own child and so is
      missing from the top level: the header never shows it. */
  lemma SelfParentHidden(cats: seq<Category>, i: int)
    requires 0 <= i < |cats|
    requires forall j, k :: 0 <= j < k < |cats| ==> cats[j].id != cats[k].id
    requires cats[i].id != "" && cats[i].parentId == Some(cats[i].id)
    ensures var ids := CategoryMap(cats).Keys;
      cats[i].id in Placed(cats, ids, Some(cats[i].id)) && cats[i].id !in Placed(cats, ids, None)
  {
    EveryCategoryPlaced(cats, i);
    PlacedOnce(cats, i, None);
  }

  /** Two categories naming each other as parent are both missing from the
      top level. */
  lemma TwoCycleHidden(cats: seq<Category>, i: int, j: int)
    requires 0 <= i < |cats| && 0 <= j < |cats|
    requires forall a, b :: 0 <= a < b < |cats| ==> cats[a].id != cats[b].id
    requires cats[i].id != "" && cats[j].id != ""
    requires cats[i].parentId == Some(cats[j].id) && cats[j].parentId == Some(cats[i].id)
    ensures var top := Placed(cats, CategoryMap(cats).Keys, None);
      cats[i].id !in top && cats[j].id !in top
  {
    PlacedOnce(cats, i, None);
    PlacedOnce(cats, j, None);
  }

  /** The top level holds exactly the categories whose parent does not
      resolve. */
  lemma TopLevelIff(cats: seq<Category>, id: Id)
    ensures var ids := CategoryMap(cats).Keys;
      id in Placed(cats, ids, None) <==>
        exists i :: 0 <= i < |cats| && cats[i].id == id && !Resolves(cats[i], ids)
  {
    PlacedMember(cats, CategoryMap(cats).Keys, None, id);
  }
}
