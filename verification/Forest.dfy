/**
 The five trees of a thread master: threads by deadline in the cached trees read, write, timer and
 child, children by pid in a plain tree.
 */
module Forest {
  import opened SortedSeq
  import opened SchedModel
  import opened RbTree
  import opened RbWalk
  import opened RbShape

  /** What sound trees hold: threads by deadline, and children by pid. */
  datatype Contents = Broken | Index(held: map<Queue, seq<nat>>, pids: seq<nat>)

  const NO_TREES: map<Queue, seq<nat>> := map[OnRead := [], OnWrite := [], OnTimer := [], OnChild := []]

  ghost predicate Keyed(held: map<Queue, seq<nat>>) { forall k :: k in held <==> IsTree(k) }

  ghost function Erased(held: map<Queue, seq<nat>>, k: Queue, t: nat): map<Queue, seq<nat>> {
    if k in held then held[k := Remove(held[k], t)] else held
  }

  ghost function Inserted(held: map<Queue, seq<nat>>, less: Less, k: Queue, t: nat): map<Queue, seq<nat>> {
    if k in held then held[k := Insert(less, held[k], t)] else held
  }

  ghost predicate Transferable(held: map<Queue, seq<nat>>, t: nat, from: Queue, to: Queue, less: Less)
  {
    && t != 0 && (from in held ==> t in held[from])
    && (to in held ==> var base := Erased(held, from, t)[to]; t !in base && StrictWeak(less) && SortedBy(less, base))
  }

  /** Different trees, all empty. */
  ghost predicate Empty(roots: map<Queue, RbRoot>)
    reads roots.Values
  {
    && (forall k :: k in roots ==> roots[k].CachedValid() && roots[k].Seq() == [])
    && (forall j, k :: j in roots && k in roots && j != k ==> roots[j] != roots[k])
  }

  class Trees {
    const trees: map<Queue, RbRoot>
    const childPid: RbRoot
    ghost var held: map<Queue, seq<nat>>
    ghost var pids: seq<nat>

    /** The trees are sound, do not overlap, and hold what the ghost fields say. */
    ghost predicate Valid()
      reads this, trees.Values, childPid
    {
      && (forall k :: k in trees <==> IsTree(k)) && (forall k :: k in held <==> IsTree(k))
      && (forall k :: k in trees ==> trees[k].CachedValid() && trees[k].Seq() == held[k] && trees[k] != childPid)
      && (forall j, k :: j in trees && k in trees && j != k ==> trees[j] != trees[k])
      && childPid.Valid() && childPid.Seq() == pids
    }

    ghost function Contents(): (c: Contents)
      reads this, trees.Values, childPid
      ensures c.Index? ==> Keyed(c.held)
    {
      if Valid() then Index(held, pids) else Broken
    }

    constructor (roots: map<Queue, RbRoot>, pid: RbRoot)
      requires forall k :: k in roots <==> IsTree(k)
      requires Empty(roots) && pid !in roots.Values
      requires pid.Valid() && pid.Seq() == []
      ensures Contents() == Index(NO_TREES, []) && trees == roots && childPid == pid
    {
      trees, childPid, held, pids := roots, pid, NO_TREES, [];
    }

    /** `rb_first_cached` */
    function FirstOf(k: Queue): nat
      requires k in trees
      reads trees.Values
    {
      trees[k].leftmost
    }

    lemma FirstOfIsFirst(k: Queue)
      requires Contents().Index? && IsTree(k)
      ensures k in trees
      ensures var q := Contents().held[k]; FirstOf(k) == First(q) && (FirstOf(k) == 0 <==> q == [])
    {
      trees[k].SeqFacts();
    }

    /** `rb_next` */
    method NextOf(k: Queue, t: nat) returns (n: nat)
      requires Contents().Index? && IsTree(k) && t in Contents().held[k]
      ensures Contents() == old(Contents()) && n == NextIn(Contents().held[k], t)
    {
      trees[k].SeqFacts();
      n := trees[k].Neighbour(t, Right);
    }

    method Add(k: Queue, t: nat, less: Less)
      requires Contents().Index? && IsTree(k) && t != 0 && t !in Contents().held[k]
      requires StrictWeak(less) && SortedBy(less, Contents().held[k])
      modifies this, trees[k]
      ensures var c := old(Contents()); Contents() == c.(held := c.held[k := Insert(less, c.held[k], t)])
    {
      var _ := trees[k].AddCached(t, less);
      held := held[k := Insert(less, held[k], t)];
      assert Valid();
    }

    method Erase(k: Queue, t: nat)
      requires Contents().Index? && IsTree(k) && t in Contents().held[k]
      modifies this, trees[k]
      ensures var c := old(Contents()); Contents() == c.(held := c.held[k := Remove(c.held[k], t)])
    {
      var _ := trees[k].EraseCached(t);
      held := held[k := Remove(held[k], t)];
      assert Valid();
    }

    /** Off one tree and onto another, so far as `from` and `to` are trees. */
    method Transfer(t: nat, from: Queue, to: Queue, less: Less)
      requires Contents().Index? && Transferable(Contents().held, t, from, to, less)
      modifies this, trees.Values
      ensures var c := old(Contents()); Contents() == c.(held := Inserted(Erased(c.held, from, t), less, to, t))
    {
      if IsTree(from) {
        Erase(from, t);
      }
      if IsTree(to) {
        Add(to, t, less);
      }
    }

    method Move(k: Queue, t: nat, less: Less)
      requires Contents().Index? && IsTree(k) && t in Contents().held[k]
      requires StrictWeak(less) && SortedBy(less, Remove(Contents().held[k], t))
      modifies this, trees[k]
      ensures var c := old(Contents()); Contents() == c.(held := c.held[k := Resort(less, c.held[k], t)])
    {
      trees[k].MoveCached(t, less);
      held := held[k := Resort(less, held[k], t)];
      assert Valid();
    }

    method AddPid(t: nat, less: Less)
      requires Contents().Index? && t != 0 && t !in Contents().pids && StrictWeak(less)
        && SortedBy(less, Contents().pids)
      modifies this, childPid
      ensures var c := old(Contents()); Contents() == c.(pids := Insert(less, c.pids, t))
    {
      childPid.Add(t, less);
      pids := Insert(less, pids, t);
      assert Valid();
    }

    method ErasePid(t: nat)
      requires Contents().Index? && t in Contents().pids
      modifies this, childPid
      ensures var c := old(Contents()); Contents() == c.(pids := Remove(c.pids, t))
    {
      childPid.Erase(t);
      pids := Remove(pids, t);
      assert Valid();
    }

    /** `m->child_pid = RB_ROOT` */
    method ClearPids()
      requires Contents().Index?
      modifies this, childPid
      ensures Contents() == old(Contents()).(pids := [])
    {
      childPid.Reset();
      pids := [];
      assert Valid();
    }

    /** The postorder walk of `thread_destroy_rb`. */
    method Destroy(k: Queue) returns (visited: seq<nat>)
      requires Contents().Index? && IsTree(k)
      modifies this, trees[k]
      ensures var c := old(Contents());
        && Contents() == c.(held := c.held[k := []])
        && NoRepeat(visited) && forall x :: x in visited <==> x in c.held[k]
    {
      trees[k].PostorderOnce();
      visited := trees[k].DestroyAll();
      held := held[k := []];
      assert Valid();
    }

    method FindPid(cmp: nat -> int) returns (t: nat)
      requires Contents().Index? && Descending(cmp, Contents().pids)
      ensures Contents() == old(Contents())
      ensures t == 0 ==> forall x :: x in Contents().pids ==> cmp(x) != 0
      ensures t != 0 ==> t in Contents().pids && cmp(t) == 0
    {
      t := childPid.Find(cmp);
    }
  }

  method AddRoot(roots: map<Queue, RbRoot>, k: Queue) returns (more: map<Queue, RbRoot>)
    requires Empty(roots) && k !in roots
    ensures Empty(more) && more.Keys == roots.Keys + {k} && fresh(more.Values - roots.Values)
  {
    var r := new RbRoot();
    more := roots[k := r];
    assert forall j :: j in roots ==> roots[j] in roots.Values;
  }

  /** `RB_ROOT_CACHED` for each of `ks`. */
  method MakeRoots(ks: seq<Queue>) returns (roots: map<Queue, RbRoot>)
    requires forall i, j :: 0 <= i < j < |ks| ==> ks[i] != ks[j]
    ensures Empty(roots) && (forall k :: k in roots <==> k in ks) && fresh(roots.Values)
  {
    roots := map[];
    for i := 0 to |ks|
      invariant Empty(roots) && (forall k :: k in roots <==> k in ks[..i]) && fresh(roots.Values)
    {
      assert ks[..i + 1] == ks[..i] + [ks[i]];
      roots := AddRoot(roots, ks[i]);
    }
    assert ks[..|ks|] == ks;
  }

  method MakeTrees() returns (f: Trees)
    ensures f.Contents() == Index(NO_TREES, [])
    ensures fresh(f) && fresh(f.trees.Values) && fresh(f.childPid)
  {
    var roots := MakeRoots([OnRead, OnWrite, OnTimer, OnChild]);
    var pid := new RbRoot();
    f := new Trees(roots, pid);
  }
}
