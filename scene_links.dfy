/** The first-child / next-sibling encoding of the scene hierarchy, on
    sequences: what a child chain is, what `set_parent` does to the three link
    arrays, and what it does to the chains. The invalid id 0 ends a chain. */
module SceneLinks {
  import opened Storage

  /** `c` is the chain that starts at `start` and follows `next` links up to
      the invalid id (which it does not contain). */
  ghost predicate IsChain(next: seq<nat>, start: nat, c: seq<nat>)
    decreases |c|
  {
    if start == 0 then c == []
    else start < |next| && |c| > 0 && c[0] == start && IsChain(next, next[start], c[1..])
  }

  /** `c` is the walk along `next` links from `start` that ends at its first
      visit of `target`. This is exactly what the predecessor search of
      `set_parent` needs in order to stop. */
  ghost predicate IsPathTo(next: seq<nat>, start: nat, target: nat, c: seq<nat>) {
    && |c| > 0 && c[0] == start && c[|c| - 1] == target
    && (forall j :: 0 <= j < |c| ==> c[j] < |next|)
    && (forall j :: 0 <= j < |c| - 1 ==> c[j] != target && next[c[j]] == c[j + 1])
  }

  /** The parent, first-child and next-sibling link arrays of a store. */
  datatype Links = Links(parent: seq<nat>, firstChild: seq<nat>, sibling: seq<nat>) {
    predicate Valid() {
      && |parent| == |firstChild| == |sibling|
      && (forall i :: 0 <= i < |parent| ==> parent[i] < |parent|)
      && (forall i :: 0 <= i < |firstChild| ==> firstChild[i] < |parent|)
      && (forall i :: 0 <= i < |sibling| ==> sibling[i] < |parent|)
    }
  }

  /** Removing `n` from its old parent's chain: `c` is the walk from that
      parent's first child to `n`. If `n` is the first child, the parent's
      first-child link skips it; otherwise its predecessor's sibling link does. */
  function Detach(l: Links, n: nat, c: seq<nat>): (r: Links)
    requires l.Valid() && n < |l.parent| && c != []
    requires forall j :: 0 <= j < |c| ==> c[j] < |l.parent|
    ensures r.Valid() && r.parent == l.parent
  {
    var op := l.parent[n];
    if op == 0 then l
    else if |c| == 1 then l.(firstChild := l.firstChild[op := l.sibling[n]])
    else l.(sibling := l.sibling[c[|c| - 2] := l.sibling[n]])
  }

  /** Pushing `n` onto the front of `p`'s child chain. */
  function Attach(l: Links, n: nat, p: nat): (r: Links)
    requires l.Valid() && n < |l.parent| && p < |l.parent|
    ensures r.Valid()
  {
    Links(l.parent[n := p], l.firstChild[p := n], l.sibling[n := l.firstChild[p]])
  }

  /** The effect of `set_parent(n, p)` on the link arrays. */
  function SetParentSpec(l: Links, n: nat, p: nat, c: seq<nat>): (r: Links)
    requires l.Valid() && n < |l.parent| && p < |l.parent|
    requires n != p && n != 0 && l.parent[n] != 0 ==> IsPathTo(l.sibling, l.firstChild[l.parent[n]], n, c)
    ensures r.Valid()
    ensures n == p || n == 0 ==> r == l
    ensures n != p && n != 0 ==> r.parent == l.parent[n := p] && r.firstChild[p] == n
  {
    if n == p || n == 0 then l
    else if l.parent[n] == 0 then Attach(l, n, p)
    else Attach(Detach(l, n, c), n, p)
  }

  // ---------------------------------------------------------------------------
  // Facts about chains.
  // ---------------------------------------------------------------------------

  /** A chain is determined by its start. */
  lemma {:induction false} ChainUnique(next: seq<nat>, s: nat, a: seq<nat>, b: seq<nat>)
    requires IsChain(next, s, a) && IsChain(next, s, b)
    ensures a == b
    decreases |a|
  {
    if s != 0 {
      ChainUnique(next, next[s], a[1..], b[1..]);
      assert a == [s] + a[1..] && b == [s] + b[1..];
    }
  }

  lemma ChainsFromEqualStarts(next: seq<nat>, x: nat, y: nat, p: seq<nat>, q: seq<nat>)
    requires IsChain(next, x, p) && IsChain(next, y, q)
    ensures x == y ==> p == q
  {
    if x == y {
      ChainUnique(next, x, p, q);
    }
  }

  /** Every suffix of a chain is the chain of its first element. */
  lemma {:induction false} ChainSuffix(next: seq<nat>, s: nat, a: seq<nat>, i: nat)
    requires IsChain(next, s, a) && i <= |a|
    ensures IsChain(next, if i < |a| then a[i] else 0, a[i..])
    ensures i == 0 ==> IsChain(next, s, a[i..])
    ensures i > 0 ==> a[i - 1] < |next| && IsChain(next, next[a[i - 1]], a[i..])
    ensures i < |a| ==> a[i] != 0 && a[i] < |next|
    decreases i
  {
    if i > 0 {
      assert a[1..][i - 1..] == a[i..];
      if i > 1 {
        assert a[1..][i - 2] == a[i - 1];
      }
      ChainSuffix(next, next[s], a[1..], i - 1);
    }
  }

  /** A chain reaches the invalid id, so it never visits a node twice. */
  lemma ChainDistinct(next: seq<nat>, s: nat, a: seq<nat>)
    requires IsChain(next, s, a)
    ensures Distinct(a)
    ensures forall j :: 0 <= j < |a| ==> a[j] != 0 && a[j] < |next|
  {
    forall i, j | 0 <= i < j < |a| ensures a[i] != a[j] {
      ChainSuffix(next, s, a, i);
      ChainSuffix(next, s, a, j);
      ChainsFromEqualStarts(next, a[i], a[j], a[i..], a[j..]);
    }
    forall j | 0 <= j < |a| ensures a[j] != 0 && a[j] < |next| {
      ChainSuffix(next, s, a, j);
    }
  }

  /** A chain depends only on the links of its own nodes. */
  lemma {:induction false} ChainFrame(next: seq<nat>, next': seq<nat>, s: nat, a: seq<nat>)
    requires IsChain(next, s, a)
    requires forall j :: 0 <= j < |a| && a[j] < |next| ==> a[j] < |next'| && next'[a[j]] == next[a[j]]
    ensures IsChain(next', s, a)
    decreases |a|
  {
    if s != 0 {
      ChainFrame(next, next', next[s], a[1..]);
    }
  }

  /** A walk of non-invalid nodes followed by the chain of its last node's
      successor is a chain. */
  lemma {:induction false} ChainFromWalk(next: seq<nat>, a: seq<nat>, b: seq<nat>)
    requires a != []
    requires forall j :: 0 <= j < |a| ==> a[j] != 0 && a[j] < |next|
    requires forall j :: 0 <= j < |a| - 1 ==> next[a[j]] == a[j + 1]
    requires IsChain(next, next[a[|a| - 1]], b)
    ensures IsChain(next, a[0], a + b)
    decreases |a|
  {
    if |a| > 1 {
      ChainFromWalk(next, a[1..], b);
      assert (a + b)[1..] == a[1..] + b;
    } else {
      assert (a + b)[1..] == b;
    }
  }

  /** A chain that passes through `n` splits into the walk to `n` and the
      chain after it. */
  lemma ChainSplitAt(next: seq<nat>, s: nat, f: seq<nat>, k: nat)
    requires IsChain(next, s, f) && k < |f|
    ensures IsPathTo(next, s, f[k], f[..k + 1])
    ensures IsChain(next, next[f[k]], f[k + 1..])
  {
    ChainDistinct(next, s, f);
    ChainSuffix(next, s, f, k + 1);
    var c := f[..k + 1];
    forall j | 0 <= j < |c| - 1 ensures c[j] != f[k] && next[c[j]] == c[j + 1] {
      ChainSuffix(next, s, f, j + 1);
      assert f[j + 1..][0] == f[j + 1];
    }
    assert c[0] == s;
  }

  /** The walk to a node and the chain after it make up a chain. */
  lemma WalkThenChain(next: seq<nat>, s: nat, n: nat, c: seq<nat>, rest: seq<nat>)
    requires n != 0 && IsPathTo(next, s, n, c) && IsChain(next, next[n], rest)
    requires forall j :: 0 <= j < |c| ==> c[j] != 0
    ensures IsChain(next, s, c + rest)
    ensures Distinct(c + rest)
  {
    ChainFromWalk(next, c, rest);
    ChainDistinct(next, s, c + rest);
  }

  // ---------------------------------------------------------------------------
  // What set_parent does to the chains.
  // ---------------------------------------------------------------------------

  /** Detaching leaves the old parent's chain with `n` taken out and every
      other element in its old order. */
  lemma DetachRemoves(l: Links, n: nat, c: seq<nat>, rest: seq<nat>)
    requires l.Valid() && 0 < n < |l.parent| && l.parent[n] != 0
    requires IsPathTo(l.sibling, l.firstChild[l.parent[n]], n, c)
    requires forall j :: 0 <= j < |c| ==> c[j] != 0
    requires IsChain(l.sibling, l.sibling[n], rest)
    ensures var l1 := Detach(l, n, c);
      IsChain(l1.sibling, l1.firstChild[l.parent[n]], c[..|c| - 1] + rest)
    ensures var l1 := Detach(l, n, c); n !in c[..|c| - 1] + rest
  {
    var op := l.parent[n];
    var l1 := Detach(l, n, c);
    var m := |c|;
    WalkThenChain(l.sibling, l.firstChild[op], n, c, rest);
    assert c + rest == c[..m - 1] + [n] + rest;
    forall j | 0 <= j < |rest| ensures rest[j] != n && (m >= 2 ==> rest[j] != c[m - 2]) {
      assert (c + rest)[m + j] == rest[j] && (c + rest)[m - 1] == n;
      if m >= 2 {
        assert (c + rest)[m - 2] == c[m - 2];
      }
    }
    ChainFrame(l.sibling, l1.sibling, l.sibling[n], rest);
    if m >= 2 {
      var a := c[..m - 1];
      forall j | 0 <= j < |a| - 1 ensures l1.sibling[a[j]] == a[j + 1] {
        assert (c + rest)[j] == a[j] && (c + rest)[m - 2] == c[m - 2];
        assert a[j] != c[m - 2];
      }
      ChainFromWalk(l1.sibling, a, rest);
    } else {
      assert c[..m - 1] + rest == rest;
    }
  }

  /** Moving `n` to a different parent `p` puts it in front of `p`'s old chain. */
  lemma AttachToNewParent(l: Links, n: nat, p: nat, c: seq<nat>, d: seq<nat>)
    requires l.Valid() && 0 < n < |l.parent| && p < |l.parent| && n != p && l.parent[n] != p
    requires l.parent[n] != 0 ==> IsPathTo(l.sibling, l.firstChild[l.parent[n]], n, c)
    requires IsChain(l.sibling, l.firstChild[p], d) && n !in d
    requires l.parent[n] != 0 ==> forall x :: x in d ==> x !in c
    ensures IsChain(SetParentSpec(l, n, p, c).sibling, SetParentSpec(l, n, p, c).firstChild[p], [n] + d)
  {
    var l1 := if l.parent[n] == 0 then l else Detach(l, n, c);
    var r := SetParentSpec(l, n, p, c);
    assert r == Attach(l1, n, p);
    assert l1.firstChild[p] == l.firstChild[p];
    ChainDistinct(l.sibling, l.firstChild[p], d);
    if l.parent[n] != 0 && |c| >= 2 {
      assert c[|c| - 2] in c;
    }
    ChainFrame(l.sibling, r.sibling, l.firstChild[p], d);
    assert ([n] + d)[1..] == d;
  }

  /** Re-parenting `n` under its own parent moves it to the front of the chain. */
  lemma AttachToSameParent(l: Links, n: nat, c: seq<nat>, rest: seq<nat>)
    requires l.Valid() && 0 < n < |l.parent| && l.parent[n] != 0 && l.parent[n] != n
    requires IsPathTo(l.sibling, l.firstChild[l.parent[n]], n, c)
    requires forall j :: 0 <= j < |c| ==> c[j] != 0
    requires IsChain(l.sibling, l.sibling[n], rest)
    ensures var r := SetParentSpec(l, n, l.parent[n], c);
      IsChain(r.sibling, r.firstChild[l.parent[n]], [n] + c[..|c| - 1] + rest)
  {
    var p := l.parent[n];
    var l1 := Detach(l, n, c);
    var r := SetParentSpec(l, n, p, c);
    var e := c[..|c| - 1] + rest;
    DetachRemoves(l, n, c, rest);
    ChainDistinct(l1.sibling, l1.firstChild[p], e);
    ChainFrame(l1.sibling, r.sibling, l1.firstChild[p], e);
    assert ([n] + e)[1..] == e;
    assert [n] + c[..|c| - 1] + rest == [n] + e;
  }

  /** The chain of any node other than the two parents involved is untouched,
      provided it shares no node with the old parent's chain. */
  lemma SetParentKeepsOtherChains(l: Links, n: nat, p: nat, c: seq<nat>, q: nat, e: seq<nat>)
    requires l.Valid() && 0 < n < |l.parent| && p < |l.parent| && n != p && q < |l.parent|
    requires l.parent[n] != 0 ==> IsPathTo(l.sibling, l.firstChild[l.parent[n]], n, c)
    requires q != p && q != l.parent[n]
    requires IsChain(l.sibling, l.firstChild[q], e) && n !in e
    requires l.parent[n] != 0 ==> forall x :: x in e ==> x !in c
    ensures IsChain(SetParentSpec(l, n, p, c).sibling, SetParentSpec(l, n, p, c).firstChild[q], e)
  {
    var r := SetParentSpec(l, n, p, c);
    ChainDistinct(l.sibling, l.firstChild[q], e);
    if l.parent[n] != 0 && |c| >= 2 {
      assert c[|c| - 2] in c;
    }
    ChainFrame(l.sibling, r.sibling, l.firstChild[q], e);
  }

  // ---------------------------------------------------------------------------
  // Subtrees, for the propagation of global transforms.
  // ---------------------------------------------------------------------------

  /** A witness for the subtree below a node: the node and the subtrees of its
      children in chain order. */
  datatype Tree = Node(id: nat, kids: seq<Tree>)

  function Ids(ts: seq<Tree>): (r: seq<nat>)
    ensures |r| == |ts| && forall i :: 0 <= i < |ts| ==> r[i] == ts[i].id
  {
    seq(|ts|, i requires 0 <= i < |ts| => ts[i].id)
  }

  /** Preorder listing of a subtree. */
  function Flatten(t: Tree): seq<nat>
    decreases t, 1
  {
    [t.id] + FlattenAll(t.kids)
  }

  function FlattenAll(ts: seq<Tree>): seq<nat>
    decreases ts, 0
  {
    if ts == [] then [] else Flatten(ts[0]) + FlattenAll(ts[1..])
  }

  /** The nodes strictly below the root of `t`. */
  function Descendants(t: Tree): seq<nat> {
    FlattenAll(t.kids)
  }

  /** `t` describes the links: each node's children are exactly its child chain. */
  ghost predicate Spans(firstChild: seq<nat>, sibling: seq<nat>, t: Tree)
    decreases t
  {
    && t.id < |firstChild|
    && IsChain(sibling, firstChild[t.id], Ids(t.kids))
    && forall i :: 0 <= i < |t.kids| ==> Spans(firstChild, sibling, t.kids[i])
  }

  lemma {:induction false} FlattenAllAppend(a: seq<Tree>, b: seq<Tree>)
    ensures FlattenAll(a + b) == FlattenAll(a) + FlattenAll(b)
    decreases |a|
  {
    if a != [] {
      assert (a + b)[1..] == a[1..] + b;
      FlattenAllAppend(a[1..], b);
    } else {
      assert a + b == b;
    }
  }

  /** Processing the `k`-th child subtree extends the listing of the first `k`. */
  lemma FlattenAllStep(ts: seq<Tree>, k: nat)
    requires k < |ts|
    ensures FlattenAll(ts[..k + 1]) == FlattenAll(ts[..k]) + Flatten(ts[k])
  {
    assert ts[..k + 1] == ts[..k] + [ts[k]];
    FlattenAllAppend(ts[..k], [ts[k]]);
    assert FlattenAll([ts[k]]) == Flatten(ts[k]) + FlattenAll([]);
  }

  /** The listing of all children splits at any child. */
  lemma FlattenAllSplit(ts: seq<Tree>, k: nat)
    requires k < |ts|
    ensures FlattenAll(ts) == FlattenAll(ts[..k]) + Flatten(ts[k]) + FlattenAll(ts[k + 1..])
  {
    assert ts == ts[..k + 1] + ts[k + 1..];
    FlattenAllAppend(ts[..k + 1], ts[k + 1..]);
    FlattenAllStep(ts, k);
  }

  lemma DistinctConcat<T>(a: seq<T>, b: seq<T>)
    requires Distinct(a + b)
    ensures Distinct(a) && Distinct(b)
    ensures forall x :: x in a ==> x !in b
  {
    forall i, j | 0 <= i < j < |a| ensures a[i] != a[j] {
      assert (a + b)[i] == a[i] && (a + b)[j] == a[j];
    }
    forall i, j | 0 <= i < j < |b| ensures b[i] != b[j] {
      assert (a + b)[|a| + i] == b[i] && (a + b)[|a| + j] == b[j];
    }
    forall i, j | 0 <= i < |a| && 0 <= j < |b| ensures a[i] != b[j] {
      assert (a + b)[i] == a[i] && (a + b)[|a| + j] == b[j];
    }
  }

  /** Every node of a spanning witness indexes the link arrays, and every
      node below the root is a valid id. */
  lemma {:induction false} SpansBounds(firstChild: seq<nat>, sibling: seq<nat>, t: Tree)
    requires Spans(firstChild, sibling, t) && |sibling| == |firstChild|
    ensures forall x :: x in Flatten(t) ==> x < |firstChild|
    ensures forall x :: x in Descendants(t) ==> x != 0
    decreases t
  {
    ChainDistinct(sibling, firstChild[t.id], Ids(t.kids));
    SpansBoundsAll(firstChild, sibling, t.kids);
  }

  lemma {:induction false} SpansBoundsAll(firstChild: seq<nat>, sibling: seq<nat>, ts: seq<Tree>)
    requires forall i :: 0 <= i < |ts| ==> Spans(firstChild, sibling, ts[i]) && ts[i].id != 0
    requires |sibling| == |firstChild|
    ensures forall x :: x in FlattenAll(ts) ==> x < |firstChild| && x != 0
    decreases ts
  {
    if ts != [] {
      var t := ts[0];
      SpansBounds(firstChild, sibling, t);
      SpansBoundsAll(firstChild, sibling, ts[1..]);
      forall x | x in Flatten(t) ensures x != 0 {
        if x != t.id {
          assert x in Descendants(t);
        }
      }
    }
  }

  /** What the descendant walk of `set_global_transform` relies on about the
      `k`-th child subtree of a tree without repeated nodes. */
  lemma KidSubtree(t: Tree, k: nat)
    requires Distinct(Flatten(t)) && k < |t.kids|
    ensures Distinct(Flatten(t.kids[k]))
    ensures t.kids[k].id !in FlattenAll(t.kids[..k]) && t.kids[k].id !in Descendants(t.kids[k])
    ensures forall x :: x in FlattenAll(t.kids[..k]) ==> x !in Descendants(t.kids[k])
    ensures FlattenAll(t.kids[..k + 1]) == FlattenAll(t.kids[..k]) + [t.kids[k].id] + Descendants(t.kids[k])
  {
    var kids := t.kids;
    var sub := kids[k];
    FlattenAllSplit(kids, k);
    DistinctConcat([t.id], FlattenAll(kids));
    DistinctConcat(FlattenAll(kids[..k]) + Flatten(sub), FlattenAll(kids[k + 1..]));
    DistinctConcat(FlattenAll(kids[..k]), Flatten(sub));
    DistinctConcat([sub.id], Descendants(sub));
    FlattenAllStep(kids, k);
    assert Flatten(sub) == [sub.id] + Descendants(sub);
  }

  /** The root of a tree without repeated nodes is not one of its descendants. */
  lemma RootNotDescendant(t: Tree)
    requires Distinct(Flatten(t))
    ensures t.id !in Descendants(t)
  {
    DistinctConcat([t.id], Descendants(t));
  }
}
