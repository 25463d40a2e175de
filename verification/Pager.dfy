/** The pager, as far as an index b-tree needs it: numbered pages with decoded content, and
    allocation that prefers freed pages. */
module Pager {
  import opened IndexTree

  ghost predicate NodeFits(node: Node, pg: nat, usable: nat) {
    match node
    case Leaf(entries) => LeafFits(entries, BodyOffset(pg), usable)
    case Interior(children, divs) => |children| == |divs| + 1 && InteriorFits(divs, BodyOffset(pg), usable)
  }

  class WritePager {
    const usable: nat
    var pages: map<nat, Node>
    var free: seq<nat>
    var pageCount: nat

    /** Page 1 belongs to the schema, so index pages are numbered from 2; a free page is not in
        use, and is free once. */
    ghost predicate Valid()
      reads this
    {
      && usable >= 480
      && pageCount >= 1
      && (forall p :: p in pages ==> 2 <= p <= pageCount)
      && (forall i :: 0 <= i < |free| ==> 2 <= free[i] <= pageCount && free[i] !in pages)
      && forall i, j :: 0 <= i < j < |free| ==> free[i] != free[j]
    }

    constructor (usable: nat)
      requires usable >= 480
      ensures Valid() && this.usable == usable && pages == map[]
    {
      this.usable := usable;
      pages, free, pageCount := map[], [], 1;
    }

    method AllocatePage() returns (pg: nat)
      requires Valid()
      modifies this
      ensures Valid() && pg !in old(pages) && pages == old(pages)[pg := Leaf([])]
    {
      if |free| > 0 {
        pg := free[|free| - 1];
        free := free[..|free| - 1];
      } else {
        pageCount := pageCount + 1;
        pg := pageCount;
      }
      pages := pages[pg := Leaf([])];
    }

    method FreePage(pg: nat)
      requires Valid() && pg in pages
      modifies this
      ensures Valid() && pages == old(pages) - {pg}
    {
      pages := pages - {pg};
      free := free + [pg];
    }

    /** Write a page. The content must fit: serializing an over-full list is an error. */
    method WriteNode(pg: nat, node: Node)
      requires Valid() && pg in pages
      requires NodeFits(node, pg, usable)
      modifies this
      ensures Valid() && pages == old(pages)[pg := node]
    {
      pages := pages[pg := node];
    }
  }
}
