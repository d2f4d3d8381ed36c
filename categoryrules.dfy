/**
 * The category hierarchy as values. A Category object is a key; its
 * parentCategory field is the ParentMap entry and its subcategories set
 * the ChildMap entry. Object identity is key equality.
 *
 * The parent chain is followed step by step (Walk); `a` is an ancestor of
 * `x` when some positive number of steps leads from `x` to `a`. A ghost
 * rank that strictly decreases from child to parent witnesses that every
 * chain is finite, and is what the loops over the chain terminate by.
 */
module CategoryRules {
  import opened Wrappers

  const NAME_NULL := "Category name cannot be null"
  const DESCRIPTION_NULL := "Category description cannot be null"
  const SUBCATEGORY_NULL := "Subcategory cannot be null"
  const OWN_SUBCATEGORY := "Category cannot be its own subcategory"
  const CIRCULAR := "Cannot create circular category hierarchy"
  const PATH_SEPARATOR := " > "

  type ParentMap = map<int, Option<int>>
  type ChildMap = map<int, set<int>>

  /** The two link fields of every category. */
  datatype Links = Links(parent: ParentMap, subcategories: ChildMap)

  /** The reply of a link mutator and the links it leaves. */
  datatype TreeStep = TreeStep(outcome: Outcome, links: Links)

  /** The category reached from x after n parentCategory steps, or None once the chain has ended. */
  function Walk(parent: ParentMap, x: int, n: nat): Option<int>
    decreases n
  {
    if n == 0 then Some(x)
    else if x in parent && parent[x].Some? then Walk(parent, parent[x].value, n - 1)
    else None
  }

  /** a lies strictly above x on x's parent chain. */
  ghost predicate IsAncestor(parent: ParentMap, a: int, x: int) {
    exists n: nat :: 0 < n && Walk(parent, x, n) == Some(a)
  }

  /** No category is its own ancestor. */
  ghost predicate Acyclic(parent: ParentMap) {
    forall x :: x in parent ==> !IsAncestor(parent, x, x)
  }

  /** Every link points at a known category whose rank is smaller. */
  ghost predicate Ranked(parent: ParentMap, rank: map<int, nat>) {
    rank.Keys == parent.Keys
    && forall k :: k in parent && parent[k].Some? ==> parent[k].value in parent && rank[parent[k].value] < rank[k]
  }

  /** The subcategories sets are exactly the inverse of the parent links. */
  ghost predicate Consistent(l: Links) {
    l.subcategories.Keys == l.parent.Keys
    && (forall p :: p in l.subcategories ==> l.subcategories[p] <= l.parent.Keys)
    && (forall p, c :: p in l.subcategories && c in l.parent ==> (c in l.subcategories[p] <==> l.parent[c] == Some(p)))
  }

  /** A category and everything below it on the parent links. */
  ghost function Subtree(parent: ParentMap, k: int): (s: set<int>)
    ensures s <= parent.Keys
    ensures k in parent ==> k in s
  {
    set x | x in parent && (x == k || IsAncestor(parent, k, x))
  }

  /** Java's `+` on a String that may be null: null becomes "null". */
  function JavaText(s: Option<string>): (t: string)
    ensures s.Some? ==> t == s.value
  {
    if s.Some? then s.value else "null"
  }

  // ---- the parent chain ----

  /** Walking m steps and then n more is walking m + n steps. */
  lemma {:induction false} WalkAdd(parent: ParentMap, x: int, m: nat, n: nat)
    ensures Walk(parent, x, m + n) == if Walk(parent, x, m).Some? then Walk(parent, Walk(parent, x, m).value, n) else None
    decreases m
  {
    if m > 0 && x in parent && parent[x].Some? {
      WalkAdd(parent, parent[x].value, m - 1, n);
    }
  }

  /** Each step up the chain lowers the rank by at least one. */
  lemma {:induction false} WalkRank(parent: ParentMap, rank: map<int, nat>, x: int, n: nat)
    requires Ranked(parent, rank) && x in parent
    ensures Walk(parent, x, n).Some? ==> Walk(parent, x, n).value in parent && rank[Walk(parent, x, n).value] + n <= rank[x]
    decreases n
  {
    if n > 0 && parent[x].Some? {
      WalkRank(parent, rank, parent[x].value, n - 1);
    }
  }

  lemma AncestorRankLess(parent: ParentMap, rank: map<int, nat>, a: int, x: int)
    requires Ranked(parent, rank) && x in parent && IsAncestor(parent, a, x)
    ensures a in parent && rank[a] < rank[x]
  {
    var n: nat :| 0 < n && Walk(parent, x, n) == Some(a);
    WalkRank(parent, rank, x, n);
  }

  /** A ranked parent relation has no cycle. */
  lemma RankedIsAcyclic(parent: ParentMap, rank: map<int, nat>)
    requires Ranked(parent, rank)
    ensures Acyclic(parent)
  {
    forall x | x in parent && IsAncestor(parent, x, x)
      ensures false
    {
      AncestorRankLess(parent, rank, x, x);
    }
  }

  /** The ancestors of x are its parent and the parent's ancestors. */
  lemma AncestorStep(parent: ParentMap, a: int, x: int)
    requires x in parent && parent[x].Some?
    ensures IsAncestor(parent, a, x) <==> a == parent[x].value || IsAncestor(parent, a, parent[x].value)
  {
    var q := parent[x].value;
    if IsAncestor(parent, a, x) {
      var n: nat :| 0 < n && Walk(parent, x, n) == Some(a);
      if n > 1 {
        assert Walk(parent, q, n - 1) == Some(a);
      }
    }
    if a == q {
      assert Walk(parent, x, 1) == Some(a);
    } else if IsAncestor(parent, a, q) {
      var n: nat :| 0 < n && Walk(parent, q, n) == Some(a);
      assert Walk(parent, x, n + 1) == Some(a);
    }
  }

  /** A category has an ancestor exactly when it has a parent. */
  lemma RootIffNoAncestor(parent: ParentMap, x: int)
    ensures (forall a :: !IsAncestor(parent, a, x)) <==> (x !in parent || parent[x].None?)
  {
    if x in parent && parent[x].Some? {
      assert Walk(parent, x, 1) == parent[x];
      assert IsAncestor(parent, parent[x].value, x);
    }
  }

  /** Once the chain has ended it stays ended. */
  lemma NoneStaysNone(parent: ParentMap, x: int, m: nat, n: nat)
    requires Walk(parent, x, m).None? && m <= n
    ensures Walk(parent, x, n).None?
  {
    WalkAdd(parent, x, m, n - m);
  }

  /** x's chain has exactly d links: d steps reach a category, one more does not. */
  ghost predicate ChainLength(parent: ParentMap, x: int, d: nat) {
    Walk(parent, x, d).Some? && Walk(parent, x, d + 1).None?
  }

  /** The chain length is unique, 0 for a root, and one more than the parent's otherwise. */
  lemma ChainLengthFacts(parent: ParentMap, x: int, d: nat, e: nat)
    requires x in parent && ChainLength(parent, x, d)
    ensures ChainLength(parent, x, e) ==> d == e
    ensures d == 0 <==> parent[x].None?
    ensures parent[x].Some? ==> ChainLength(parent, parent[x].value, d - 1)
  {
    if ChainLength(parent, x, e) && d != e {
      if d < e {
        NoneStaysNone(parent, x, d + 1, e);
      } else {
        NoneStaysNone(parent, x, e + 1, d);
      }
    }
    assert d > 0 ==> Walk(parent, x, d) == if parent[x].Some? then Walk(parent, parent[x].value, d - 1) else None;
    assert Walk(parent, x, d + 1) == if parent[x].Some? then Walk(parent, parent[x].value, d) else None;
  }

  /** A category with no subcategories is nobody's ancestor. */
  lemma LeafIsNoAncestor(l: Links, rank: map<int, nat>, k: int, x: int)
    requires Ranked(l.parent, rank) && Consistent(l) && k in l.subcategories && l.subcategories[k] == {} && x in l.parent
    ensures !IsAncestor(l.parent, k, x)
  {
    if IsAncestor(l.parent, k, x) {
      var n: nat :| 0 < n && Walk(l.parent, x, n) == Some(k);
      WalkAdd(l.parent, x, n - 1, 1);
    }
  }

  // ---- addSubcategory and removeSubcategory ----

  /** addSubcategory's three checks, in source order. */
  ghost function AttachCheck(parent: ParentMap, p: int, c: Option<int>): (r: Outcome)
    ensures r.Pass? <==> c.Some? && c.value != p && !IsAncestor(parent, c.value, p)
    ensures c.None? ==> r == Fail(IllegalArgument(SUBCATEGORY_NULL))
    ensures c == Some(p) ==> r == Fail(IllegalArgument(OWN_SUBCATEGORY))
    ensures c.Some? && c.value != p && IsAncestor(parent, c.value, p) ==> r == Fail(IllegalArgument(CIRCULAR))
  {
    if c.None? then Fail(IllegalArgument(SUBCATEGORY_NULL))
    else if c.value == p then Fail(IllegalArgument(OWN_SUBCATEGORY))
    else if IsAncestor(parent, c.value, p) then Fail(IllegalArgument(CIRCULAR))
    else Pass
  }

  /** The subcategories set of p, empty for an unknown key. */
  function ChildrenOf(subs: ChildMap, p: int): set<int> {
    if p in subs then subs[p] else {}
  }

  /**
   * addSubcategory exactly as written: c is added to p's set and c's parent
   * becomes p, but c stays in the set of the category it was attached to
   * before.
   */
  ghost function AddSubcategoryAsWritten(l: Links, p: int, c: Option<int>): (s: TreeStep)
    ensures s.outcome == AttachCheck(l.parent, p, c)
    ensures s.outcome.Fail? ==> s.links == l
    ensures s.outcome.Pass? ==> s.links.parent == l.parent[c.value := Some(p)]
                                && s.links.subcategories == l.subcategories[p := ChildrenOf(l.subcategories, p) + {c.value}]
  {
    var check := AttachCheck(l.parent, p, c);
    if check.Fail? then TreeStep(check, l)
    else TreeStep(Pass, Links(l.parent[c.value := Some(p)], l.subcategories[p := ChildrenOf(l.subcategories, p) + {c.value}]))
  }

  /** c taken out of the set of its current parent, if it has one. */
  function Detach(l: Links, c: int): (subs: ChildMap)
    ensures subs.Keys == l.subcategories.Keys
    ensures forall q :: q in subs ==> subs[q] == if c in l.parent && l.parent[c] == Some(q) then l.subcategories[q] - {c} else l.subcategories[q]
  {
    if c in l.parent && l.parent[c].Some? && l.parent[c].value in l.subcategories
    then l.subcategories[l.parent[c].value := l.subcategories[l.parent[c].value] - {c}]
    else l.subcategories
  }

  /**
   * addSubcategory as intended: a category moved under p also leaves the
   * set of its previous parent, so the sets stay the inverse of the links.
   */
  ghost function AddSubcategory(l: Links, p: int, c: Option<int>): (s: TreeStep)
    ensures s.outcome == AttachCheck(l.parent, p, c)
    ensures s.outcome.Fail? ==> s.links == l
    ensures s.outcome.Pass? ==> s.links.parent == l.parent[c.value := Some(p)] && c.value in ChildrenOf(s.links.subcategories, p)
  {
    var check := AttachCheck(l.parent, p, c);
    if check.Fail? then TreeStep(check, l)
    else
      var subs := Detach(l, c.value);
      TreeStep(Pass, Links(l.parent[c.value := Some(p)], subs[p := ChildrenOf(subs, p) + {c.value}]))
  }

  /** removeSubcategory: only a member of p's set is detached; anything else is a no-op. */
  function RemoveSubcategory(l: Links, p: int, c: Option<int>): (r: Links)
    ensures c.None? || p !in l.subcategories || c.value !in l.subcategories[p] ==> r == l
    ensures c.Some? && p in l.subcategories && c.value in l.subcategories[p] ==>
              r.parent == l.parent[c.value := None] && r.subcategories == l.subcategories[p := l.subcategories[p] - {c.value}]
  {
    if c.Some? && p in l.subcategories && c.value in l.subcategories[p]
    then Links(l.parent[c.value := None], l.subcategories[p := l.subcategories[p] - {c.value}])
    else l
  }

  /** The ranks after c's subtree is hung below p: the moved categories are lifted above p. */
  ghost function Rerank(parent: ParentMap, rank: map<int, nat>, p: int, c: int): map<int, nat>
    requires p in rank
  {
    map x | x in rank :: if x == c || IsAncestor(parent, c, x) then rank[x] + rank[p] + 1 else rank[x]
  }

  /** A successful addSubcategory keeps the parent relation ranked, hence acyclic. */
  lemma AttachKeepsRanked(parent: ParentMap, rank: map<int, nat>, p: int, c: int)
    requires Ranked(parent, rank) && p in parent && c in parent
    requires c != p && !IsAncestor(parent, c, p)
    ensures Ranked(parent[c := Some(p)], Rerank(parent, rank, p, c))
  {
    var np := parent[c := Some(p)];
    var nr := Rerank(parent, rank, p, c);
    forall x | x in np && np[x].Some?
      ensures np[x].value in np && nr[np[x].value] < nr[x]
    {
      if x != c {
        AncestorStep(parent, c, x);
      }
    }
  }

  lemma AttachKeepsConsistent(l: Links, p: int, c: int)
    requires Consistent(l) && p in l.parent && c in l.parent
    ensures var subs := Detach(l, c);
            Consistent(Links(l.parent[c := Some(p)], subs[p := ChildrenOf(subs, p) + {c}]))
  {
  }

  /** The corrected addSubcategory keeps the sets the inverse of the links, whatever its outcome. */
  lemma AddSubcategoryKeepsConsistent(l: Links, p: int, c: int)
    requires Consistent(l) && p in l.parent && c in l.parent
    ensures Consistent(AddSubcategory(l, p, Some(c)).links)
  {
    AttachKeepsConsistent(l, p, c);
  }

  /** The tree invariant: ranked links, and sets that invert them. */
  ghost predicate TreeValid(l: Links, rank: map<int, nat>) {
    Ranked(l.parent, rank) && Consistent(l)
  }

  /** The links a passing addSubcategory leaves. */
  function Attach(l: Links, p: int, c: int): (r: Links)
    ensures AttachCheck(l.parent, p, Some(c)).Pass? ==> r == AddSubcategory(l, p, Some(c)).links
    ensures c in l.parent ==> r.parent.Keys == l.parent.Keys
  {
    var subs := Detach(l, c);
    Links(l.parent[c := Some(p)], subs[p := ChildrenOf(subs, p) + {c}])
  }

  /** A passing addSubcategory keeps the tree invariant, with the moved subtree re-ranked. */
  lemma AttachKeepsTreeValid(l: Links, rank: map<int, nat>, p: int, c: int)
    requires TreeValid(l, rank) && p in l.parent && c in l.parent && AttachCheck(l.parent, p, Some(c)).Pass?
    ensures TreeValid(Attach(l, p, c), Rerank(l.parent, rank, p, c))
  {
    AttachKeepsRanked(l.parent, rank, p, c);
    AttachKeepsConsistent(l, p, c);
  }

  /** The ranks a passing attach leaves valid, handed out without their definition. */
  lemma AttachedRanks(l: Links, rank: map<int, nat>, p: int, c: int) returns (r: map<int, nat>)
    requires TreeValid(l, rank) && p in l.parent && c in l.parent && AttachCheck(l.parent, p, Some(c)).Pass?
    ensures TreeValid(Attach(l, p, c), r)
  {
    AttachKeepsTreeValid(l, rank, p, c);
    r := Rerank(l.parent, rank, p, c);
  }

  /** A new category joins the tree as a root with no subcategories. */
  lemma InsertRootKeepsTreeValid(l: Links, rank: map<int, nat>, key: int)
    requires TreeValid(l, rank) && key !in l.parent
    ensures TreeValid(Links(l.parent[key := None], l.subcategories[key := {}]), rank[key := 0])
  {
  }

  /**
   * A root with no subcategories attached under another category: the
   * checks pass, and only its link and the new parent's set change.
   */
  lemma AttachFreshLeaf(l: Links, rank: map<int, nat>, p: int, c: int)
    requires TreeValid(l, rank) && p in l.parent && c in l.parent && c != p
    requires l.parent[c].None? && l.subcategories[c] == {}
    ensures AttachCheck(l.parent, p, Some(c)).Pass?
    ensures AddSubcategory(l, p, Some(c)).links == Links(l.parent[c := Some(p)], l.subcategories[p := l.subcategories[p] + {c}])
  {
    LeafIsNoAncestor(l, rank, c, p);
  }

  /** The later of two writes to one key wins. */
  lemma UpdateTwice(m: ParentMap, k: int, a: Option<int>, b: Option<int>)
    ensures m[k := a][k := b] == m[k := b]
  {
  }

  lemma RemoveKeepsInvariants(l: Links, rank: map<int, nat>, p: int, c: Option<int>)
    requires Ranked(l.parent, rank) && Consistent(l) && p in l.parent
    ensures Ranked(RemoveSubcategory(l, p, c).parent, rank) && Consistent(RemoveSubcategory(l, p, c))
  {
  }

  /** Attaching a root category and removing it again restores the links. */
  lemma AttachThenRemoveRoundTrip(l: Links, p: int, c: int)
    requires Consistent(l) && p in l.parent && c in l.parent && AttachCheck(l.parent, p, Some(c)).Pass?
    requires l.parent[c].None?
    ensures RemoveSubcategory(AddSubcategory(l, p, Some(c)).links, p, Some(c)) == l
  {
    var a := AddSubcategory(l, p, Some(c)).links;
    assert a.parent[c := None] == l.parent;
    assert a.subcategories[p := a.subcategories[p] - {c}] == l.subcategories;
  }

  /** Removing a subcategory and attaching it again restores the links. */
  lemma RemoveThenAttachRoundTrip(l: Links, p: int, c: int)
    requires Consistent(l) && p in l.parent && c in l.parent && AttachCheck(l.parent, p, Some(c)).Pass?
    requires l.parent[c] == Some(p)
    ensures AddSubcategory(RemoveSubcategory(l, p, Some(c)), p, Some(c)).links == l
  {
    assert c in l.subcategories[p];
    var rm := RemoveSubcategory(l, p, Some(c));
    assert rm.subcategories == l.subcategories[p := l.subcategories[p] - {c}];
    assert !IsAncestor(rm.parent, c, p) by {
      if IsAncestor(rm.parent, c, p) {
        var n: nat :| 0 < n && Walk(rm.parent, p, n) == Some(c);
        WalkFrame(l.parent, c, p, n);
      }
    }
    var b := AddSubcategory(rm, p, Some(c)).links;
    assert b.parent == l.parent;
    assert Detach(rm, c) == rm.subcategories;
    assert ChildrenOf(rm.subcategories, p) + {c} == l.subcategories[p];
    assert b.subcategories == l.subcategories;
  }

  /** Cutting c off changes no chain that never reaches c. */
  lemma {:induction false} WalkFrame(parent: ParentMap, c: int, x: int, n: nat)
    requires forall j: nat :: 0 < j < n ==> Walk(parent, x, j) != Some(c)
    requires x != c
    ensures Walk(parent[c := None], x, n) == Walk(parent, x, n)
    decreases n
  {
    if n > 0 && x in parent && parent[x].Some? {
      var q := parent[x].value;
      forall j: nat | 0 < j < n - 1
        ensures Walk(parent, q, j) != Some(c)
      {
        assert Walk(parent, x, j + 1) == Walk(parent, q, j);
      }
      if n > 1 {
        assert Walk(parent, x, 1) == Some(q);
        WalkFrame(parent, c, q, n - 1);
      }
    }
  }

  // ---- deactivate ----

  /**
   * The recursive deactivate, followed only for termination: on category k
   * it returns within `depth` nested calls when every subcategory's call
   * returns within depth - 1.
   */
  ghost predicate DeactivateReturns(subs: ChildMap, k: int, depth: nat)
    decreases depth
  {
    depth > 0 && forall c :: c in ChildrenOf(subs, k) ==> DeactivateReturns(subs, c, depth - 1)
  }

  /** In a consistent, ranked tree the subtree of a subcategory is strictly smaller. */
  lemma SubtreeShrinks(l: Links, rank: map<int, nat>, k: int, c: int)
    requires Ranked(l.parent, rank) && Consistent(l) && k in l.parent && c in l.subcategories[k]
    ensures Subtree(l.parent, c) < Subtree(l.parent, k)
  {
    forall x | x in Subtree(l.parent, c)
      ensures x in Subtree(l.parent, k)
    {
      if x != c {
        var n: nat :| 0 < n && Walk(l.parent, x, n) == Some(c);
        WalkAdd(l.parent, x, n, 1);
      } else {
        assert Walk(l.parent, c, 1) == Some(k);
      }
    }
    if k in Subtree(l.parent, c) {
      AncestorRankLess(l.parent, rank, c, k);
    }
  }

  /** Below k, every category is in the subtree of one of k's subcategories. */
  lemma SubtreeUnfold(l: Links, rank: map<int, nat>, k: int, x: int)
    requires Ranked(l.parent, rank) && Consistent(l) && k in l.parent
    requires x in Subtree(l.parent, k) && x != k
    ensures exists c :: c in l.subcategories[k] && x in Subtree(l.parent, c)
  {
    var n: nat :| 0 < n && Walk(l.parent, x, n) == Some(k);
    WalkAdd(l.parent, x, n - 1, 1);
    var c := Walk(l.parent, x, n - 1).value;
    WalkRank(l.parent, rank, x, n - 1);
    assert c in l.subcategories[k];
    assert x in Subtree(l.parent, c);
  }

  /** A set holding k and the subtree of each of k's subcategories holds k's whole subtree. */
  lemma SubtreeCovered(l: Links, rank: map<int, nat>, k: int, covered: set<int>)
    requires Ranked(l.parent, rank) && Consistent(l) && k in l.parent && k in covered
    requires forall c :: c in l.subcategories[k] ==> Subtree(l.parent, c) <= covered
    ensures Subtree(l.parent, k) <= covered
  {
    forall x | x in Subtree(l.parent, k) && x != k
      ensures x in covered
    {
      SubtreeUnfold(l, rank, k, x);
    }
  }

  /** With consistent sets, deactivate on any category returns. */
  lemma {:induction false} DeactivateReturnsInConsistentTree(l: Links, rank: map<int, nat>, k: int)
    requires Ranked(l.parent, rank) && Consistent(l) && k in l.parent
    ensures DeactivateReturns(l.subcategories, k, |Subtree(l.parent, k)|)
    decreases |Subtree(l.parent, k)|
  {
    forall c | c in ChildrenOf(l.subcategories, k)
      ensures DeactivateReturns(l.subcategories, c, |Subtree(l.parent, k)| - 1)
    {
      SubtreeShrinks(l, rank, k, c);
      StrictSubsetSmaller(Subtree(l.parent, c), Subtree(l.parent, k));
      DeactivateReturnsInConsistentTree(l, rank, c);
      DeactivateReturnsMonotone(l.subcategories, c, |Subtree(l.parent, c)|, |Subtree(l.parent, k)| - 1);
    }
  }

  lemma StrictSubsetSmaller(a: set<int>, b: set<int>)
    requires a < b
    ensures |a| < |b|
  {
    assert b == a + (b - a);
    assert b - a != {};
  }

  lemma {:induction false} DeactivateReturnsMonotone(subs: ChildMap, k: int, d: nat, e: nat)
    requires DeactivateReturns(subs, k, d) && d <= e
    ensures DeactivateReturns(subs, k, e)
    decreases d
  {
    forall c | c in ChildrenOf(subs, k)
      ensures DeactivateReturns(subs, c, e - 1)
    {
      DeactivateReturnsMonotone(subs, c, d - 1, e - 1);
    }
  }

  // ---- the stale set, as written ----

  /** Three root categories 1, 2 and 3. */
  function ThreeRoots(): Links {
    Links(map[1 := None, 2 := None, 3 := None], map[1 := {}, 2 := {}, 3 := {}])
  }

  /** 1.addSubcategory(2) on three roots: 2 hangs below 1. */
  lemma FirstAttach()
    ensures AddSubcategoryAsWritten(ThreeRoots(), 1, Some(2))
            == TreeStep(Pass, Links(map[1 := None, 2 := Some(1), 3 := None], map[1 := {2}, 2 := {}, 3 := {}]))
  {
    var l := ThreeRoots();
    RootIffNoAncestor(l.parent, 1);
    assert AttachCheck(l.parent, 1, Some(2)) == Pass;
    assert l.parent[2 := Some(1)] == map[1 := None, 2 := Some(1), 3 := None];
    assert ChildrenOf(l.subcategories, 1) + {2} == {2};
  }

  /** Then 3.addSubcategory(2): 2 moves below 3 but stays in 1's set. */
  lemma SecondAttach()
    ensures AddSubcategoryAsWritten(Links(map[1 := None, 2 := Some(1), 3 := None], map[1 := {2}, 2 := {}, 3 := {}]), 3, Some(2))
            == TreeStep(Pass, Links(map[1 := None, 2 := Some(3), 3 := None], map[1 := {2}, 2 := {}, 3 := {2}]))
  {
    var l := Links(map[1 := None, 2 := Some(1), 3 := None], map[1 := {2}, 2 := {}, 3 := {}]);
    RootIffNoAncestor(l.parent, 3);
    assert AttachCheck(l.parent, 3, Some(2)) == Pass;
    assert l.parent[2 := Some(3)] == map[1 := None, 2 := Some(3), 3 := None];
    assert ChildrenOf(l.subcategories, 3) + {2} == {2};
  }

  /** Then 2.addSubcategory(1): accepted, since 1 is no longer above 2. */
  lemma ThirdAttach()
    ensures AddSubcategoryAsWritten(Links(map[1 := None, 2 := Some(3), 3 := None], map[1 := {2}, 2 := {}, 3 := {2}]), 2, Some(1))
            == TreeStep(Pass, Links(map[1 := Some(2), 2 := Some(3), 3 := None], map[1 := {2}, 2 := {1}, 3 := {2}]))
  {
    var l := Links(map[1 := None, 2 := Some(3), 3 := None], map[1 := {2}, 2 := {}, 3 := {2}]);
    AncestorStep(l.parent, 1, 2);
    RootIffNoAncestor(l.parent, 3);
    assert AttachCheck(l.parent, 2, Some(1)) == Pass;
    assert l.parent[1 := Some(2)] == map[1 := Some(2), 2 := Some(3), 3 := None];
    assert ChildrenOf(l.subcategories, 2) + {1} == {1};
  }

  /**
   * As written: 1.addSubcategory(2), then 3.addSubcategory(2), then
   * 2.addSubcategory(1) all succeed, since 1 is no ancestor of 2 any more;
   * 2 is still in 1's set, so 1 and 2 are each other's subcategories and
   * deactivate on either recurses without end.
   */
  lemma StaleSubcategoryMakesCycle()
    ensures var s1 := AddSubcategoryAsWritten(ThreeRoots(), 1, Some(2));
            var s2 := AddSubcategoryAsWritten(s1.links, 3, Some(2));
            var s3 := AddSubcategoryAsWritten(s2.links, 2, Some(1));
            s1.outcome.Pass? && s2.outcome.Pass? && s3.outcome.Pass?
            && 2 in s3.links.subcategories[1] && 1 in s3.links.subcategories[2]
            && !Consistent(s3.links)
            && forall depth: nat :: !DeactivateReturns(s3.links.subcategories, 1, depth)
  {
    FirstAttach();
    SecondAttach();
    ThirdAttach();
    var l3 := Links(map[1 := Some(2), 2 := Some(3), 3 := None], map[1 := {2}, 2 := {1}, 3 := {2}]);
    assert l3.parent[2] != Some(1);
    forall depth: nat
      ensures !DeactivateReturns(l3.subcategories, 1, depth)
    {
      CycleNeverReturns(l3.subcategories, depth);
    }
  }

  lemma ThreeRootsConsistent()
    ensures Consistent(ThreeRoots())
  {
  }

  /** Corrected, 1.addSubcategory(2) on three roots gives the same links as written. */
  lemma CorrectedFirstAttach()
    ensures AddSubcategory(ThreeRoots(), 1, Some(2))
            == TreeStep(Pass, Links(map[1 := None, 2 := Some(1), 3 := None], map[1 := {2}, 2 := {}, 3 := {}]))
  {
    var l := ThreeRoots();
    FirstAttach();
    assert Detach(l, 2) == l.subcategories;
    assert l.subcategories[1 := {2}] == map[1 := {2}, 2 := {}, 3 := {}];
  }

  /** Corrected, 3.addSubcategory(2) also takes 2 out of 1's set. */
  lemma CorrectedSecondAttach()
    ensures AddSubcategory(Links(map[1 := None, 2 := Some(1), 3 := None], map[1 := {2}, 2 := {}, 3 := {}]), 3, Some(2))
            == TreeStep(Pass, Links(map[1 := None, 2 := Some(3), 3 := None], map[1 := {}, 2 := {}, 3 := {2}]))
  {
    var l := Links(map[1 := None, 2 := Some(1), 3 := None], map[1 := {2}, 2 := {}, 3 := {}]);
    SecondAttach();
    assert l.subcategories[1] - {2} == {};
    var subs := Detach(l, 2);
    assert subs == l.subcategories[1 := {}];
    assert ChildrenOf(subs, 3) + {2} == {2};
    assert subs[3 := {2}] == map[1 := {}, 2 := {}, 3 := {2}];
  }

  /** Corrected, 2.addSubcategory(1) then leaves 1 below 2 and 2 below 3, with matching sets. */
  lemma CorrectedThirdAttach()
    ensures AddSubcategory(Links(map[1 := None, 2 := Some(3), 3 := None], map[1 := {}, 2 := {}, 3 := {2}]), 2, Some(1))
            == TreeStep(Pass, Links(map[1 := Some(2), 2 := Some(3), 3 := None], map[1 := {}, 2 := {1}, 3 := {2}]))
  {
    var l := Links(map[1 := None, 2 := Some(3), 3 := None], map[1 := {}, 2 := {}, 3 := {2}]);
    ThirdAttach();
    assert AttachCheck(l.parent, 2, Some(1)) == Pass;
    assert Detach(l, 1) == l.subcategories;
    assert ChildrenOf(l.subcategories, 2) + {1} == {1};
    assert l.subcategories[2 := {1}] == map[1 := {}, 2 := {1}, 3 := {2}];
  }

  /** The same three calls with the corrected addSubcategory leave consistent sets. */
  lemma CorrectedAttachKeepsSetsConsistent()
    ensures var c1 := AddSubcategory(ThreeRoots(), 1, Some(2));
            var c2 := AddSubcategory(c1.links, 3, Some(2));
            var c3 := AddSubcategory(c2.links, 2, Some(1));
            c3.outcome.Pass? && Consistent(c3.links) && 2 !in c3.links.subcategories[1]
  {
    CorrectedFirstAttach();
    CorrectedSecondAttach();
    CorrectedThirdAttach();
    var l0 := ThreeRoots();
    var l1 := Links(map[1 := None, 2 := Some(1), 3 := None], map[1 := {2}, 2 := {}, 3 := {}]);
    var l2 := Links(map[1 := None, 2 := Some(3), 3 := None], map[1 := {}, 2 := {}, 3 := {2}]);
    ThreeRootsConsistent();
    AddSubcategoryKeepsConsistent(l0, 1, 2);
    AddSubcategoryKeepsConsistent(l1, 3, 2);
    AddSubcategoryKeepsConsistent(l2, 2, 1);
  }

  lemma {:induction false} CycleNeverReturns(subs: ChildMap, depth: nat)
    requires 2 in ChildrenOf(subs, 1) && 1 in ChildrenOf(subs, 2)
    ensures !DeactivateReturns(subs, 1, depth) && !DeactivateReturns(subs, 2, depth)
    decreases depth
  {
    if depth > 0 {
      CycleNeverReturns(subs, depth - 1);
    }
  }
}
