/** A document as the selector engine reads it: nodes numbered in the order in which they
    open (document order), each with its parent. Node 0 is the document itself.

    A numbering of a tree is in document order exactly when the parent of every node is an
    ancestor of the node before it, or that node itself. */
module Dom {
  datatype Doc = Doc(parent: seq<int>, element: seq<bool>)

  const NULL := -1

  // a is x or an ancestor of x.
  predicate Contains(parent: seq<int>, a: int, x: int)
    requires forall i :: 0 <= i < |parent| ==> -1 <= parent[i] < i
    requires x < |parent|
    decreases x
  {
    x >= 0 && (a == x || Contains(parent, a, parent[x]))
  }

  predicate Valid(d: Doc) {
    && |d.parent| == |d.element| > 0
    && d.parent[0] == NULL && !d.element[0]
    && (forall i :: 0 <= i < |d.parent| ==> -1 <= d.parent[i] < i)
    && (forall i :: 1 <= i < |d.parent| ==> d.parent[i] >= 0 && Contains(d.parent, d.parent[i], i - 1))
  }

  predicate IsNode(d: Doc, x: int) {
    0 <= x < |d.parent|
  }

  datatype Axis = Up | Back   // parentNode, previousSibling

  function Parent(d: Doc, x: int): int
    requires Valid(d) && IsNode(d, x)
  {
    d.parent[x]
  }

  // The last sibling of x numbered below j.
  function SiblingBelow(d: Doc, x: int, j: int): (y: int)
    requires Valid(d) && IsNode(d, x) && 0 <= j <= x
    ensures -1 <= y < j
    ensures y >= 0 ==> d.parent[y] == d.parent[x]
    ensures forall z :: y < z < j && z >= 0 ==> d.parent[z] != d.parent[x]
    decreases j
  {
    if j == 0 then NULL
    else if d.parent[j - 1] == d.parent[x] then j - 1
    else SiblingBelow(d, x, j - 1)
  }

  function PreviousSibling(d: Doc, x: int): int
    requires Valid(d) && IsNode(d, x)
  {
    SiblingBelow(d, x, x)
  }

  function Go(d: Doc, axis: Axis, x: int): (y: int)
    requires Valid(d) && IsNode(d, x)
    ensures -1 <= y < x
  {
    if axis == Up then Parent(d, x) else PreviousSibling(d, x)
  }

  // y is reached from x by one or more moves along the axis.
  predicate Along(d: Doc, axis: Axis, y: int, x: int)
    requires Valid(d) && IsNode(d, x)
    decreases x
  {
    var z := Go(d, axis, x);
    z != NULL && (y == z || Along(d, axis, y, z))
  }

  predicate Ancestor(d: Doc, a: int, x: int)
    requires Valid(d) && IsNode(d, x)
  {
    Along(d, Up, a, x)
  }

  predicate EarlierSibling(d: Doc, y: int, x: int)
    requires Valid(d) && IsNode(d, x)
  {
    0 <= y < x && d.parent[y] == d.parent[x]
  }

  lemma AlongBelow(d: Doc, axis: Axis, y: int, x: int)
    requires Valid(d) && IsNode(d, x) && Along(d, axis, y, x)
    ensures 0 <= y < x
    decreases x
  {
    var z := Go(d, axis, x);
    if y != z {
      AlongBelow(d, axis, y, z);
    }
  }

  lemma AlongTransitive(d: Doc, axis: Axis, z: int, y: int, x: int)
    requires Valid(d) && IsNode(d, x) && IsNode(d, y) && Along(d, axis, y, x) && Along(d, axis, z, y)
    ensures Along(d, axis, z, x)
    decreases x
  {
    var w := Go(d, axis, x);
    if y != w {
      AlongTransitive(d, axis, z, y, w);
    }
  }

  // Going back over siblings reaches exactly the earlier nodes with the same parent.
  lemma {:induction false} BackIsEarlierSibling(d: Doc, y: int, x: int)
    requires Valid(d) && IsNode(d, x)
    ensures Along(d, Back, y, x) <==> EarlierSibling(d, y, x)
    decreases x
  {
    var z := PreviousSibling(d, x);
    if z != NULL && y != z {
      BackIsEarlierSibling(d, y, z);
    }
  }
}
