// Trees of nodes, each of which records all nodes below it: hanging a tree below a node of another,
// and taking one off, as gfx3d_node_add_child and gfx3d_node_remove_child do
// (libs/calynda_gfx3d/gfx3d_scene.c:43-62).

module NodeTrees {
  import opened Wrappers

  // A node `m`, the nodes below it, and the sets of nodes of the trees that these head: together
  // they make up `all`, and no two of them share any.
  predicate Joins<T>(m: T, kids: seq<T>, below: seq<set<T>>, all: set<T>) {
    && |kids| == |below| && m in all
    && (forall i :: 0 <= i < |kids| ==> kids[i] in below[i] && m !in below[i] && below[i] <= all)
    && (forall i, j :: 0 <= i < j < |kids| ==> below[i] !! below[j])
    && (forall n {:trigger InSome(n, below)} :: n in all && n != m ==> InSome(n, below))
  }

  predicate InSome<T>(n: T, below: seq<set<T>>) {
    exists i :: 0 <= i < |below| && n in below[i]
  }

  // A node is in one of the trees below.
  lemma InOne<T>(m: T, kids: seq<T>, below: seq<set<T>>, all: set<T>, n: T) returns (p: nat)
    requires Joins(m, kids, below, all) && n in all && n != m
    ensures p < |below| && n in below[p] && forall k :: 0 <= k < |below| && k != p ==> n !in below[k]
  {
    assert InSome(n, below);
    p :| p < |below| && n in below[p];
    forall k | 0 <= k < |below| && k != p
      ensures n !in below[k]
    {
      assert if k < p then below[k] !! below[p] else below[p] !! below[k];
    }
  }

  lemma Apart<T>(m: T, kids: seq<T>, below: seq<set<T>>, all: set<T>, p: nat)
    requires Joins(m, kids, below, all) && p < |below|
    ensures forall k :: 0 <= k < |below| && k != p ==> below[k] !! below[p]
  {
    forall k | 0 <= k < |below| && k != p
      ensures below[k] !! below[p]
    {
      assert if k < p then below[k] !! below[p] else below[p] !! below[k];
    }
  }

  lemma JoinsMore<T>(m: T, kids: seq<T>, below: seq<set<T>>, all: set<T>, child: T, added: set<T>)
    requires Joins(m, kids, below, all) && child in added && all !! added
    ensures Joins(m, kids + [child], below + [added], all + added)
  {
    var more := below + [added];
    forall n | n in all + added && n != m
      ensures InSome(n, more)
    {
      if n in added {
        assert n in more[|below|];
      } else {
        assert InSome(n, below);
        var i :| 0 <= i < |below| && n in below[i];
        assert n in more[i];
      }
    }
    hide InSome;
  }

  lemma JoinsGrown<T>(m: T, kids: seq<T>, below: seq<set<T>>, all: set<T>, p: nat, added: set<T>)
    requires Joins(m, kids, below, all) && p < |kids| && all !! added
    ensures Joins(m, kids, below[p := below[p] + added], all + added)
  {
    var more := below[p := below[p] + added];
    forall n | n in all + added && n != m
      ensures InSome(n, more)
    {
      if n in added {
        assert n in more[p];
      } else {
        assert InSome(n, below);
        var i :| 0 <= i < |below| && n in below[i];
        assert n in more[i];
      }
    }
    hide InSome;
  }

  // The last element moves into the gap.
  function WithoutAt<T>(s: seq<T>, i: nat): (r: seq<T>)
    requires i < |s|
    ensures |r| == |s| - 1 && forall k :: 0 <= k < |r| ==> r[k] == if k == i then s[|s| - 1] else s[k]
  {
    s[i := s[|s| - 1]][..|s| - 1]
  }

  lemma JoinsLess<T>(m: T, kids: seq<T>, below: seq<set<T>>, all: set<T>, p: nat)
    requires Joins(m, kids, below, all) && p < |kids|
    ensures Joins(m, WithoutAt(kids, p), WithoutAt(below, p), all - below[p])
  {
    var less := WithoutAt(below, p);
    forall n | n in all - below[p] && n != m
      ensures InSome(n, less)
    {
      assert InSome(n, below);
      var i :| 0 <= i < |below| && n in below[i];
      assert n in less[if i == |less| then p else i];
    }
    hide WithoutAt, InSome;
    Apart(m, kids, below, all, p);
    StillApart(m, kids, below, all, p);
  }

  lemma StillApart<T>(m: T, kids: seq<T>, below: seq<set<T>>, all: set<T>, p: nat)
    requires Joins(m, kids, below, all) && p < |below|
    ensures var less := WithoutAt(below, p); forall i, j :: 0 <= i < j < |less| ==> less[i] !! less[j]
  {
    hide WithoutAt, InSome;
    var less := WithoutAt(below, p);
    forall i, j | 0 <= i < j < |less|
      ensures less[i] !! less[j]
    {
      if i == p {
        assert below[j] !! below[|less|];
      } else if j == p {
        assert below[i] !! below[|less|];
      } else {
        assert below[i] !! below[j];
      }
    }
  }

  lemma JoinsShrunk<T>(m: T, kids: seq<T>, below: seq<set<T>>, all: set<T>, p: nat, gone: set<T>)
    requires Joins(m, kids, below, all) && p < |kids| && gone <= below[p] && kids[p] !in gone
    ensures Joins(m, kids, below[p := below[p] - gone], all - gone)
  {
    var less := below[p := below[p] - gone];
    forall n | n in all - gone && n != m
      ensures InSome(n, less)
    {
      assert InSome(n, below);
      var i :| 0 <= i < |below| && n in below[i];
      assert n in less[i];
    }
    hide InSome;
    forall i | 0 <= i < |below| && i != p
      ensures below[i] !! gone
    {
      assert if i < p then below[i] !! below[p] else below[p] !! below[i];
    }
  }

  // ---- The shape of a tree ----

  // The children, nodes and parents of some nodes at one time.
  datatype Shape<T(==)> = Shape(kids: map<T, seq<T>>, nodes: map<T, set<T>>, parents: map<T, Option<T>>)

  predicate Known<T>(s: Shape<T>, n: T) {
    n in s.kids && n in s.nodes && n in s.parents
  }

  // What the trees below `m` hold.
  function Holdings<T>(s: Shape<T>, m: T): (b: seq<set<T>>)
    requires m in s.kids && forall i :: 0 <= i < |s.kids[m]| ==> s.kids[m][i] in s.nodes
    ensures |b| == |s.kids[m]| && forall i :: 0 <= i < |b| ==> b[i] == s.nodes[s.kids[m][i]]
  {
    seq(|s.kids[m]|, i requires 0 <= i < |s.kids[m]| => s.nodes[s.kids[m][i]])
  }

  // The nodes below `m` form a tree.
  predicate IsTree<T>(s: Shape<T>, m: T)
    decreases if m in s.nodes then s.nodes[m] else {}
  {
    && Known(s, m)
    && (forall i :: 0 <= i < |s.kids[m]| ==> Known(s, s.kids[m][i]) && s.parents[s.kids[m][i]] == Some(m))
    && Joins(m, s.kids[m], Holdings(s, m), s.nodes[m])
    && forall i :: 0 <= i < |s.kids[m]| ==> Holdings(s, m)[i] < s.nodes[m] && IsTree(s, s.kids[m][i])
  }

  // The tree with the nodes `b` hangs below `m`.
  predicate Hangs<T>(s: Shape<T>, m: T, c: T, b: set<T>) {
    IsTree(s, c) && s.nodes[c] == b && s.parents[c] == Some(m)
  }

  lemma TreeFrom<T>(s: Shape<T>, m: T, kids: seq<T>, below: seq<set<T>>)
    requires Known(s, m) && s.kids[m] == kids && Joins(m, kids, below, s.nodes[m])
    requires forall i :: 0 <= i < |kids| ==> Hangs(s, m, kids[i], below[i])
    ensures IsTree(s, m)
  {
    assert forall i :: 0 <= i < |kids| ==> Hangs(s, m, kids[i], below[i]) && Known(s, kids[i]);
    assert Holdings(s, m) == below;
  }

  // The nodes below a node of a tree are nodes of the tree, and form one.
  lemma {:induction false} Within<T>(s: Shape<T>, m: T, n: T)
    requires IsTree(s, m) && n in s.nodes[m]
    ensures IsTree(s, n) && s.nodes[n] <= s.nodes[m] && (n != m ==> m !in s.nodes[n])
    decreases s.nodes[m]
  {
    if n != m {
      var p := InOne(m, s.kids[m], Holdings(s, m), s.nodes[m], n);
      Within(s, s.kids[m][p], n);
    }
  }

  predicate Stays<T>(s: Shape<T>, t: Shape<T>, n: T) {
    Known(s, n) && Known(t, n) && t.kids[n] == s.kids[n] && t.nodes[n] == s.nodes[n]
  }

  // A tree whose nodes are as they were is still one, whatever it hangs below.
  lemma {:induction false} StillTree<T>(s: Shape<T>, t: Shape<T>, m: T)
    requires IsTree(s, m) && forall n :: n in s.nodes[m] ==> Stays(s, t, n) && (n != m ==> t.parents[n] == s.parents[n])
    ensures IsTree(t, m)
    decreases s.nodes[m]
  {
    var cs := s.kids[m];
    assert Stays(s, t, m);
    forall k | 0 <= k < |cs|
      ensures Hangs(t, m, cs[k], Holdings(s, m)[k])
    {
      assert cs[k] in Holdings(s, m)[k];
      StillTree(s, t, cs[k]);
    }
    TreeFrom(t, m, cs, Holdings(s, m));
  }

  // A node before and after `child` is hung below `parent`.
  predicate TakesIn<T>(s: Shape<T>, t: Shape<T>, parent: T, child: T, n: T)
    requires child in s.nodes
  {
    && Known(s, n) && Known(t, n)
    && t.kids[n] == (if n == parent then s.kids[n] + [child] else s.kids[n])
    && t.nodes[n] == (if parent in s.nodes[n] then s.nodes[n] + s.nodes[child] else s.nodes[n])
    && t.parents[n] == s.parents[n]
  }

  lemma {:induction false} TakenIn<T>(s: Shape<T>, t: Shape<T>, parent: T, child: T, m: T)
    requires IsTree(s, m) && child in s.nodes && Hangs(t, parent, child, s.nodes[child]) && child in s.nodes[child]
    requires s.nodes[m] !! s.nodes[child] && forall n :: n in s.nodes[m] ==> TakesIn(s, t, parent, child, n)
    ensures IsTree(t, m)
    decreases s.nodes[m]
  {
    var cs, below, added := s.kids[m], Holdings(s, m), s.nodes[child];
    forall k | 0 <= k < |cs|
      ensures Hangs(t, m, cs[k], if parent in below[k] then below[k] + added else below[k])
    {
      assert cs[k] in below[k];
      TakenIn(s, t, parent, child, cs[k]);
      assert TakesIn(s, t, parent, child, cs[k]);
    }
    TakenInHere(s, t, parent, child, m);
  }

  // One level of it.
  lemma TakenInHere<T>(s: Shape<T>, t: Shape<T>, parent: T, child: T, m: T)
    requires IsTree(s, m) && child in s.nodes && Hangs(t, parent, child, s.nodes[child]) && child in s.nodes[child]
    requires s.nodes[m] !! s.nodes[child] && TakesIn(s, t, parent, child, m)
    requires var below, added := Holdings(s, m), s.nodes[child];
      forall k :: 0 <= k < |below| ==> Hangs(t, m, s.kids[m][k], if parent in below[k] then below[k] + added else below[k])
    ensures IsTree(t, m)
  {
    var cs, below, added := s.kids[m], Holdings(s, m), s.nodes[child];
    Level(s, m);
    hide IsTree, Holdings, Hangs;
    assert Known(t, m);
    if parent == m {
      JoinsMore(m, cs, below, s.nodes[m], child, added);
      hide Joins;
      TreeFrom(t, m, cs + [child], below + [added]);
    } else if parent in s.nodes[m] {
      TakenInAbove(s, t, parent, added, m, below);
    } else {
      hide Joins;
      TreeFrom(t, m, cs, below);
    }
  }

  lemma Kid<T>(s: Shape<T>, m: T, k: nat)
    requires IsTree(s, m) && k < |s.kids[m]|
    ensures var c := s.kids[m][k];
      IsTree(s, c) && s.parents[c] == Some(m) && s.nodes[c] == Holdings(s, m)[k] && s.nodes[c] <= s.nodes[m]
  {
  }

  // One level of a tree.
  lemma Level<T>(s: Shape<T>, m: T)
    requires IsTree(s, m)
    ensures Joins(m, s.kids[m], Holdings(s, m), s.nodes[m]) && m in s.nodes[m]
    ensures forall k :: 0 <= k < |s.kids[m]| ==>
      s.kids[m][k] in Holdings(s, m)[k] && m !in Holdings(s, m)[k] && Holdings(s, m)[k] <= s.nodes[m]
  {
  }

  lemma TakenInAbove<T>(s: Shape<T>, t: Shape<T>, parent: T, added: set<T>, m: T, below: seq<set<T>>)
    requires Known(s, m) && Known(t, m) && t.kids[m] == s.kids[m] && t.nodes[m] == s.nodes[m] + added
    requires Joins(m, s.kids[m], below, s.nodes[m]) && parent in s.nodes[m] && parent != m && s.nodes[m] !! added
    requires |below| == |s.kids[m]|
    requires forall k :: 0 <= k < |below| ==> Hangs(t, m, s.kids[m][k], if parent in below[k] then below[k] + added else below[k])
    ensures IsTree(t, m)
  {
    var cs := s.kids[m];
    hide IsTree, Hangs, Joins;
    var p := InOne(m, cs, below, s.nodes[m], parent);
    JoinsGrown(m, cs, below, s.nodes[m], p, added);
    var more := below[p := below[p] + added];
    forall k | 0 <= k < |cs|
      ensures Hangs(t, m, cs[k], more[k])
    {
      assert parent in below[k] <==> k == p;
    }
    TreeFrom(t, m, cs, more);
  }

  // A node before and after the i-th child of `parent`, with the nodes `gone`, is taken off.
  predicate GivesUp<T>(s: Shape<T>, t: Shape<T>, parent: T, i: nat, gone: set<T>, n: T) {
    && Known(s, n) && Known(t, n)
    && (if n == parent then i < |s.kids[n]| && t.kids[n] == WithoutAt(s.kids[n], i) else t.kids[n] == s.kids[n])
    && t.nodes[n] == (if parent in s.nodes[n] then s.nodes[n] - gone else s.nodes[n])
    && t.parents[n] == s.parents[n]
  }

  // In a tree apart from both nothing changes.
  lemma Elsewhere<T>(s: Shape<T>, t: Shape<T>, parent: T, i: nat, gone: set<T>, m: T, above: T)
    requires IsTree(s, m) && s.parents[m] == Some(above) && parent !in s.nodes[m] && forall n :: n in s.nodes[m] ==> GivesUp(s, t, parent, i, gone, n)
    ensures Hangs(t, above, m, s.nodes[m])
  {
    forall n | n in s.nodes[m]
      ensures Stays(s, t, n) && t.parents[n] == s.parents[n]
    {
      Within(s, m, n);
      assert GivesUp(s, t, parent, i, gone, n);
    }
    assert m in s.nodes[m];
    StillTree(s, t, m);
  }

  lemma Beside<T>(s: Shape<T>, t: Shape<T>, parent: T, i: nat, gone: set<T>, m: T, k: nat)
    requires IsTree(s, m) && k < |s.kids[m]| && parent !in Holdings(s, m)[k] && Holdings(s, m)[k] !! gone
    requires forall n :: n in s.nodes[m] && n !in gone ==> GivesUp(s, t, parent, i, gone, n)
    ensures Hangs(t, m, s.kids[m][k], Holdings(s, m)[k])
  {
    Kid(s, m, k);
    hide *;
    Elsewhere(s, t, parent, i, gone, s.kids[m][k], m);
  }

  // The tree it is taken off, from `parent` ...
  lemma PrunedHere<T>(s: Shape<T>, t: Shape<T>, i: nat, m: T)
    requires IsTree(s, m) && i < |s.kids[m]|
    requires forall n :: n in s.nodes[m] && n !in Holdings(s, m)[i] ==> GivesUp(s, t, m, i, Holdings(s, m)[i], n)
    ensures IsTree(t, m) && t.nodes[m] == s.nodes[m] - Holdings(s, m)[i]
  {
    var cs, below := s.kids[m], Holdings(s, m);
    Level(s, m);
    Apart(m, cs, below, s.nodes[m], i);
    JoinsLess(m, cs, below, s.nodes[m], i);
    assert GivesUp(s, t, m, i, below[i], m);
    assert Known(t, m) && t.kids[m] == WithoutAt(cs, i) && t.nodes[m] == s.nodes[m] - below[i];
    hide *;
    forall k | 0 <= k < |cs| && k != i
      ensures Hangs(t, m, cs[k], below[k])
    {
      Beside(s, t, m, i, below[i], m, k);
    }
    TreeFrom(t, m, WithoutAt(cs, i), WithoutAt(below, i));
  }

  // ... upwards.
  lemma {:induction false} Pruned<T>(s: Shape<T>, t: Shape<T>, parent: T, i: nat, gone: set<T>, m: T)
    requires IsTree(s, m) && parent in s.nodes[m] && IsTree(s, parent) && i < |s.kids[parent]| && gone == Holdings(s, parent)[i]
    requires forall n :: n in s.nodes[m] && n !in gone ==> GivesUp(s, t, parent, i, gone, n)
    ensures IsTree(t, m) && t.nodes[m] == s.nodes[m] - gone
    decreases s.nodes[m]
  {
    if parent == m {
      PrunedHere(s, t, i, m);
    } else {
      var p := InOne(m, s.kids[m], Holdings(s, m), s.nodes[m], parent);
      InTree(s, s.kids[m][p], parent, i);
      Pruned(s, t, parent, i, gone, s.kids[m][p]);
      PrunedAbove(s, t, parent, i, gone, m, p);
    }
  }

  // A child of a node in a tree, with all below it, is in the tree and not at its top.
  lemma InTree<T>(s: Shape<T>, m: T, parent: T, i: nat)
    requires IsTree(s, m) && parent in s.nodes[m] && IsTree(s, parent) && i < |s.kids[parent]|
    ensures Holdings(s, parent)[i] <= s.nodes[m] && m !in Holdings(s, parent)[i]
  {
    Within(s, m, parent);
  }

  lemma PrunedAbove<T>(s: Shape<T>, t: Shape<T>, parent: T, i: nat, gone: set<T>, m: T, p: nat)
    requires IsTree(s, m) && parent != m && p < |s.kids[m]| && parent in Holdings(s, m)[p]
    requires gone <= Holdings(s, m)[p] && s.kids[m][p] !in gone
    requires IsTree(t, s.kids[m][p]) && t.nodes[s.kids[m][p]] == Holdings(s, m)[p] - gone
    requires forall n :: n in s.nodes[m] && n !in gone ==> GivesUp(s, t, parent, i, gone, n)
    ensures IsTree(t, m) && t.nodes[m] == s.nodes[m] - gone
  {
    var cs, below := s.kids[m], Holdings(s, m);
    Level(s, m);
    JoinsShrunk(m, cs, below, s.nodes[m], p, gone);
    GivesUpAt(s, t, parent, i, gone, m, p);
    PrunedBeside(s, t, parent, i, gone, m, p);
    hide *;
    TreeFromMost(t, m, cs, below, p, below[p] - gone);
  }

  lemma TreeFromMost<T>(t: Shape<T>, m: T, kids: seq<T>, below: seq<set<T>>, p: nat, b: set<T>)
    requires Known(t, m) && t.kids[m] == kids && p < |kids| == |below| && Joins(m, kids, below[p := b], t.nodes[m])
    requires Hangs(t, m, kids[p], b) && forall k :: 0 <= k < |kids| && k != p ==> Hangs(t, m, kids[k], below[k])
    ensures IsTree(t, m)
  {
    hide IsTree, Hangs, Joins;
    TreeFrom(t, m, kids, below[p := b]);
  }

  lemma PrunedBeside<T>(s: Shape<T>, t: Shape<T>, parent: T, i: nat, gone: set<T>, m: T, p: nat)
    requires IsTree(s, m) && p < |s.kids[m]| && parent in Holdings(s, m)[p] && gone <= Holdings(s, m)[p]
    requires forall n :: n in s.nodes[m] && n !in gone ==> GivesUp(s, t, parent, i, gone, n)
    ensures forall k :: 0 <= k < |s.kids[m]| && k != p ==> Hangs(t, m, s.kids[m][k], Holdings(s, m)[k])
  {
    Level(s, m);
    ApartFrom(parent, gone, m, s.kids[m], Holdings(s, m), s.nodes[m], p);
    hide *;
    forall k | 0 <= k < |s.kids[m]| && k != p
      ensures Hangs(t, m, s.kids[m][k], Holdings(s, m)[k])
    {
      Beside(s, t, parent, i, gone, m, k);
    }
  }

  lemma ApartFrom<T>(n: T, gone: set<T>, m: T, kids: seq<T>, below: seq<set<T>>, all: set<T>, p: nat)
    requires Joins(m, kids, below, all) && p < |below| && n in below[p] && gone <= below[p]
    ensures forall k :: 0 <= k < |below| && k != p ==> n !in below[k] && below[k] !! gone
  {
    Apart(m, kids, below, all, p);
    hide Joins;
  }

  lemma GivesUpAt<T>(s: Shape<T>, t: Shape<T>, parent: T, i: nat, gone: set<T>, m: T, p: nat)
    requires IsTree(s, m) && parent != m && p < |s.kids[m]| && parent in Holdings(s, m)[p] && m !in gone && s.kids[m][p] !in gone
    requires IsTree(t, s.kids[m][p]) && t.nodes[s.kids[m][p]] == Holdings(s, m)[p] - gone
    requires forall n :: n in s.nodes[m] && n !in gone ==> GivesUp(s, t, parent, i, gone, n)
    ensures Known(t, m) && t.kids[m] == s.kids[m] && t.nodes[m] == s.nodes[m] - gone
    ensures Hangs(t, m, s.kids[m][p], Holdings(s, m)[p] - gone)
  {
    Level(s, m);
    hide Joins;
    assert GivesUp(s, t, parent, i, gone, m) && GivesUp(s, t, parent, i, gone, s.kids[m][p]);
  }
}
