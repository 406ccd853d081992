/** Element trees as the XML library has them: mutable nodes, built by appending children to
    a parent in place. */
module XmlElements {
  import opened XmlModel

  class Element {
    const tag: string
    var text: string
    var kids: seq<Element>
    ghost var repr: set<Element>

    /** A tree: no element is below itself. */
    ghost predicate Valid()
      reads this, repr
      decreases repr
    {
      && this in repr
      && forall k | k in kids :: k in repr && k.repr < repr && this !in k.repr && k.Valid()
    }

    /** The tree as a value. */
    ghost function Tree(): Node
      requires Valid()
      reads this, repr
      decreases repr, 0, 0
    {
      assert this !in Below(kids);
      Node(tag, text, Trees(kids))
    }

    constructor (tag: string)
      ensures Valid() && repr == {this} && this.tag == tag && text == "" && Trees(kids) == []
    {
      this.tag := tag;
      text, kids, repr := "", [], {this};
    }

    /** A new last child. */
    method Append(child: Element)
      requires Valid() && child.Valid() && child.repr !! repr
      modifies this
      ensures Valid() && text == old(text) && repr == old(repr) + child.repr
      ensures Trees(kids) == old(Trees(kids)) + [old(child.Tree())]
    {
      ghost var before := kids;
      kids := kids + [child];
      repr := repr + child.repr;
      assert kids[..|kids| - 1] == before;
    }
  }

  ghost function Below(kids: seq<Element>): set<Element>
    reads kids
  {
    set k, o | k in kids && o in k.repr :: o
  }

  ghost function Trees(kids: seq<Element>): seq<Node>
    requires forall k | k in kids :: k.Valid()
    reads kids, set k, o | k in kids && o in k.repr :: o
    decreases Below(kids), 1, |kids|
  {
    if kids == [] then []
    else
      var init, last := kids[..|kids| - 1], kids[|kids| - 1];
      assert Below(init) <= Below(kids) && last.repr <= Below(kids);
      Trees(init) + [last.Tree()]
  }

  /** The element has got these children at its end, and is otherwise as it was. */
  twostate predicate Grown(e: Element, nodes: seq<Node>)
    requires old(e.Valid())
    reads e, e.repr
  {
    && e.Valid() && e.text == old(e.text) && fresh(e.repr - old(e.repr))
    && Trees(e.kids) == old(Trees(e.kids)) + nodes
  }
}
