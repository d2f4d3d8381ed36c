/**
 * The Category objects of one session as a single arena: the fields of
 * every category, keyed by object. Each Category method updates the
 * arena in place; the parent-chain loops of isDescendantOf and
 * getDepthLevel, the recursive deactivate and the recursion of
 * getHierarchicalPath are kept, with the ghost rank of CategoryRules as
 * their termination measure.
 */
module Categories {
  import opened Wrappers
  import opened Words
  import opened CategoryRules

  class CategoryTree {
    var parent: ParentMap
    var subcategories: ChildMap
    var name: map<int, Word>
    var description: map<int, Word>
    var active: map<int, bool>
    /** The key the next constructed category receives. */
    var nextKey: int
    /** A rank that drops from child to parent along every link. */
    ghost var rank: map<int, nat>

    function Links(): Links
      reads this
    {
      CategoryRules.Links(parent, subcategories)
    }

    /**
     * Every link is ranked, so every parent chain ends; the subcategories
     * sets are the inverse of the links; all fields exist for every category.
     */
    ghost predicate Valid()
      reads this
    {
      TreeValid(Links(), rank)
      && name.Keys == parent.Keys && description.Keys == parent.Keys && active.Keys == parent.Keys
      && (forall k :: k in parent ==> k < nextKey)
    }

    constructor ()
      ensures Valid() && parent == map[] && nextKey == 0
    {
      parent := map[];
      subcategories := map[];
      name := map[];
      description := map[];
      active := map[];
      nextKey := 0;
      rank := map[];
    }

    /**
     * new Category(name, description, parent): the two null checks, then an
     * active category that is registered with its parent through
     * addSubcategory.
     */
    method NewCategory(n: Option<Word>, d: Option<Word>, p: Option<int>) returns (r: Result<int>)
      requires Valid() && (p.Some? ==> p.value in parent)
      modifies this
      ensures Valid()
      ensures r.Success? <==> n.Some? && d.Some?
      ensures n.None? ==> r == Failure(IllegalArgument(NAME_NULL))
      ensures n.Some? && d.None? ==> r == Failure(IllegalArgument(DESCRIPTION_NULL))
      ensures r.Failure? ==> parent == old(parent) && subcategories == old(subcategories) && name == old(name)
                             && description == old(description) && active == old(active)
      ensures r.Success? ==>
                r.value !in old(parent) && parent == old(parent)[r.value := p]
                && name == old(name)[r.value := n.value] && description == old(description)[r.value := d.value]
                && active == old(active)[r.value := true]
                && r.value in subcategories && subcategories[r.value] == {}
                && (p.Some? ==> subcategories[p.value] == old(subcategories)[p.value] + {r.value})
    {
      if n.None? {
        return Failure(IllegalArgument(NAME_NULL));
      }
      if d.None? {
        return Failure(IllegalArgument(DESCRIPTION_NULL));
      }
      var key := nextKey;
      InsertRootKeepsTreeValid(Links(), rank, key);
      InsertRoot(key, n.value, d.value);
      if p.Some? {
        AttachNewRoot(key, p.value);
        UpdateTwice(old(parent), key, None, p);
      }
      return Success(key);
    }

    /** The addSubcategory call of the constructor, on the new root it has just made. */
    method AttachNewRoot(key: int, p: int)
      requires Valid() && key in parent && p in parent && key != p
      requires parent[key].None? && subcategories[key] == {}
      modifies this
      ensures Valid()
      ensures parent == old(parent)[key := Some(p)] && subcategories == old(subcategories)[p := old(subcategories)[p] + {key}]
      ensures name == old(name) && description == old(description) && active == old(active) && nextKey == old(nextKey)
    {
      AttachFreshLeaf(Links(), rank, p, key);
      var attached := AddSubcategory(p, Some(key));
    }

    /** The fields of a new active root category under the next key. */
    method InsertRoot(key: int, n: Word, d: Word)
      requires key == nextKey
      modifies this
      ensures parent == old(parent)[key := None] && subcategories == old(subcategories)[key := {}]
      ensures name == old(name)[key := n] && description == old(description)[key := d] && active == old(active)[key := true]
      ensures nextKey == key + 1 && rank == old(rank)[key := 0]
    {
      nextKey := key + 1;
      parent := parent[key := None];
      subcategories := subcategories[key := {}];
      name := name[key := n];
      description := description[key := d];
      active := active[key := true];
      rank := rank[key := 0];
    }

    /**
     * addSubcategory, corrected: the checks in source order, then the child
     * leaves its previous parent's set, joins this one's, and is relinked.
     */
    method AddSubcategory(p: int, c: Option<int>) returns (r: Outcome)
      requires Valid() && p in parent && (c.Some? ==> c.value in parent)
      modifies this
      ensures Valid()
      ensures TreeStep(r, Links()) == CategoryRules.AddSubcategory(old(Links()), p, c)
      ensures name == old(name) && description == old(description) && active == old(active) && nextKey == old(nextKey)
    {
      if c.None? {
        return Fail(IllegalArgument(SUBCATEGORY_NULL));
      }
      if c.value == p {
        return Fail(IllegalArgument(OWN_SUBCATEGORY));
      }
      var circular := IsDescendantOf(p, c);
      if circular {
        return Fail(IllegalArgument(CIRCULAR));
      }
      Relink(p, c.value);
      return Pass;
    }

    /** The relinking of a passing addSubcategory. */
    method Relink(p: int, c: int)
      requires Valid() && p in parent && c in parent && AttachCheck(parent, p, Some(c)).Pass?
      modifies this
      ensures Valid() && Links() == Attach(old(Links()), p, c)
      ensures name == old(name) && description == old(description) && active == old(active) && nextKey == old(nextKey)
    {
      var after := Attach(Links(), p, c);
      ghost var ranks := AttachedRanks(Links(), rank, p, c);
      SetLinks(after, ranks);
    }

    /** The assignment of new links and ranks, every other field kept. */
    method SetLinks(l: Links, ghost ranks: map<int, nat>)
      modifies this
      ensures Links() == l && rank == ranks
      ensures name == old(name) && description == old(description) && active == old(active) && nextKey == old(nextKey)
    {
      parent := l.parent;
      subcategories := l.subcategories;
      rank := ranks;
    }

    /** removeSubcategory: detaches c only when it is in p's set. */
    method RemoveSubcategory(p: int, c: Option<int>)
      requires Valid() && p in parent
      modifies this
      ensures Valid()
      ensures Links() == CategoryRules.RemoveSubcategory(old(Links()), p, c)
      ensures name == old(name) && description == old(description) && active == old(active) && nextKey == old(nextKey)
    {
      RemoveKeepsInvariants(Links(), rank, p, c);
      if c.Some? && c.value in subcategories[p] {
        subcategories := subcategories[p := subcategories[p] - {c.value}];
        parent := parent[c.value := None];
      }
    }

    /** isDescendantOf: walks the parent chain from x's parent, comparing each category with a. */
    method IsDescendantOf(x: int, a: Option<int>) returns (r: bool)
      requires Valid() && x in parent
      ensures r <==> a.Some? && IsAncestor(parent, a.value, x)
    {
      if a.None? {
        return false;
      }
      var current := parent[x];
      ghost var steps: nat := 1;
      while current.Some?
        invariant steps >= 1 && current == Walk(parent, x, steps)
        invariant current.Some? ==> current.value in parent
        invariant forall j: nat :: 0 < j < steps ==> Walk(parent, x, j) != a
        decreases if current.Some? then rank[current.value] + 1 else 0
      {
        if current.value == a.value {
          return true;
        }
        WalkAdd(parent, x, steps, 1);
        current := parent[current.value];
        steps := steps + 1;
      }
      forall n: nat | steps <= n
        ensures Walk(parent, x, n).None?
      {
        NoneStaysNone(parent, x, steps, n);
      }
      return false;
    }

    /** getDepthLevel: counts the links up the parent chain. */
    method GetDepthLevel(x: int) returns (d: int)
      requires Valid() && x in parent
      ensures d >= 0 && ChainLength(parent, x, d)
      ensures d == 0 <==> parent[x].None?
    {
      d := 0;
      var current := parent[x];
      while current.Some?
        invariant d >= 0 && current == Walk(parent, x, d + 1) && Walk(parent, x, d).Some?
        invariant current.Some? ==> current.value in parent
        decreases if current.Some? then rank[current.value] + 1 else 0
      {
        WalkAdd(parent, x, d + 1, 1);
        d := d + 1;
        current := parent[current.value];
      }
      ChainLengthFacts(parent, x, d, d);
    }

    /** getHierarchicalPath: the name at a root, otherwise the parent's path, " > " and the name. */
    function GetHierarchicalPath(x: int): Option<string>
      requires Valid() && x in parent
      reads this
      decreases rank[x]
    {
      if parent[x].None? then name[x].GetWord()
      else Some(JavaText(GetHierarchicalPath(parent[x].value)) + PATH_SEPARATOR + JavaText(name[x].GetWord()))
    }

    /** The path of a category begins with the path of each of its ancestors, then the separator. */
    lemma PathExtendsAncestorPath(a: int, x: int)
      requires Valid() && x in parent && IsAncestor(parent, a, x)
      ensures a in parent && GetHierarchicalPath(x).Some?
      ensures JavaText(GetHierarchicalPath(a)) + PATH_SEPARATOR <= GetHierarchicalPath(x).value
      decreases rank[x]
    {
      AncestorStep(parent, a, x);
      var q := parent[x].value;
      var own := PATH_SEPARATOR + JavaText(name[x].GetWord());
      assert GetHierarchicalPath(x).value == JavaText(GetHierarchicalPath(q)) + own;
      if a != q {
        PathExtendsAncestorPath(a, q);
        var prefix := JavaText(GetHierarchicalPath(a)) + PATH_SEPARATOR;
        assert JavaText(GetHierarchicalPath(q)) == prefix + JavaText(GetHierarchicalPath(q))[|prefix|..];
      }
    }

    /** deactivate: this category, then each subcategory recursively; on return the whole subtree is inactive. */
    method Deactivate(k: int)
      requires Valid() && k in parent
      modifies this
      ensures Valid()
      ensures parent == old(parent) && subcategories == old(subcategories) && name == old(name)
              && description == old(description) && nextKey == old(nextKey) && rank == old(rank)
      ensures active.Keys == old(active).Keys
      ensures forall x :: x in active ==> active[x] == (x !in Subtree(parent, k) && old(active)[x])
      decreases |Subtree(parent, k)|, 1
    {
      active := active[k := false];
      DeactivateSubcategories(k);
    }

    /** The loop of deactivate over the subcategories of k, once k itself is inactive. */
    method DeactivateSubcategories(k: int)
      requires Valid() && k in parent && !active[k]
      modifies this
      ensures Valid()
      ensures parent == old(parent) && subcategories == old(subcategories) && name == old(name)
              && description == old(description) && nextKey == old(nextKey) && rank == old(rank)
      ensures active.Keys == old(active).Keys
      ensures forall x :: x in active ==> active[x] == (x !in Subtree(parent, k) && old(active)[x])
      decreases |Subtree(parent, k)|, 0
    {
      ghost var tree := parent;
      ghost var links := Links();
      assert k in subcategories;
      var todo := subcategories[k];
      ghost var children := todo;
      ghost var covered: set<int> := {k};
      ghost var done: set<int> := {};
      while todo != {}
        invariant todo <= children && done == children - todo
        invariant Links() == links && name == old(name)
        invariant description == old(description) && nextKey == old(nextKey) && rank == old(rank)
        invariant active.Keys == old(active).Keys
        invariant k in covered && covered <= Subtree(tree, k)
        invariant forall c :: c in done ==> Subtree(tree, c) <= covered
        invariant forall x :: x in active ==> active[x] == (x !in covered && old(active)[x])
        decreases |todo|
      {
        HasMember(todo);
        var c :| c in todo;
        SubtreeShrinks(links, rank, k, c);
        StrictSubsetSmaller(Subtree(tree, c), Subtree(tree, k));
        Deactivate(c);
        covered := covered + Subtree(tree, c);
        todo := todo - {c};
        done := done + {c};
      }
      SubtreeCovered(links, rank, k, covered);
    }

    /** activate: only this category. */
    method Activate(k: int)
      requires Valid() && k in parent
      modifies this
      ensures Valid()
      ensures active == old(active)[k := true]
      ensures parent == old(parent) && subcategories == old(subcategories) && name == old(name) && description == old(description)
              && nextKey == old(nextKey) && rank == old(rank)
    {
      active := active[k := true];
    }

    method ChangeName(k: int, n: Option<Word>) returns (r: Outcome)
      requires Valid() && k in parent
      modifies this
      ensures Valid()
      ensures r.Pass? <==> n.Some?
      ensures r.Fail? ==> r == Fail(IllegalArgument(NAME_NULL)) && name == old(name)
      ensures r.Pass? ==> name == old(name)[k := n.value]
      ensures parent == old(parent) && subcategories == old(subcategories) && description == old(description) && active == old(active)
              && nextKey == old(nextKey) && rank == old(rank)
    {
      if n.None? {
        return Fail(IllegalArgument(NAME_NULL));
      }
      name := name[k := n.value];
      return Pass;
    }

    method ChangeDescription(k: int, d: Option<Word>) returns (r: Outcome)
      requires Valid() && k in parent
      modifies this
      ensures Valid()
      ensures r.Pass? <==> d.Some?
      ensures r.Fail? ==> r == Fail(IllegalArgument(DESCRIPTION_NULL)) && description == old(description)
      ensures r.Pass? ==> description == old(description)[k := d.value]
      ensures parent == old(parent) && subcategories == old(subcategories) && name == old(name) && active == old(active)
              && nextKey == old(nextKey) && rank == old(rank)
    {
      if d.None? {
        return Fail(IllegalArgument(DESCRIPTION_NULL));
      }
      description := description[k := d.value];
      return Pass;
    }

    /** isRootCategory: no parent, so no ancestor at all. */
    function IsRootCategory(k: int): (r: bool)
      requires k in parent
      reads this
      ensures r <==> forall a :: !IsAncestor(parent, a, k)
    {
      RootIffNoAncestor(parent, k);
      parent[k].None?
    }

    /** hasSubcategories: some category links to this one. */
    function HasSubcategories(k: int): (r: bool)
      requires Valid() && k in parent
      reads this
      ensures r <==> exists c :: c in parent && parent[c] == Some(k)
    {
      if subcategories[k] == {} then false
      else
        HasMember(subcategories[k]);
        true
    }

    function IsActive(k: int): (r: bool)
      requires k in active
      reads this
      ensures r == active[k]
    {
      active[k]
    }
  }
}
