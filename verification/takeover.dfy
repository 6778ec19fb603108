/**
 * Fullscreen takeover (`makeFullscreen`): choose the node to promote and hide
 * every other top-level child of the body.
 *
 * Element nodes are numbered by their position in document order, so a parent
 * always comes before its children; `parent` maps each node that has a parent
 * element to it (the root element has none).
 */
module Takeover {

  datatype Dom = Dom(size: nat, parent: map<nat, nat>, body: nat)

  /** Node numbers are the positions 0 .. size-1, and every parent precedes its child. */
  predicate WellFormed(d: Dom)
  {
    && d.body < d.size
    && forall n: nat :: n in d.parent ==> n < d.size && d.parent[n] < n
  }

  /** `a` is `n` or one of its ancestors. */
  ghost predicate AncestorOrSelf(d: Dom, a: nat, n: nat)
    requires WellFormed(d)
    decreases n
  {
    a == n || (n in d.parent && AncestorOrSelf(d, a, d.parent[n]))
  }

  /** Where the climb stops: a node with no parent element, or a direct child of the body. */
  predicate IsTop(d: Dom, n: nat)
  {
    n !in d.parent || d.parent[n] == d.body
  }

  predicate ChildOfBody(d: Dom, n: nat)
  {
    n in d.parent && d.parent[n] == d.body
  }

  lemma {:induction false} AncestorPrecedes(d: Dom, a: nat, n: nat)
    requires WellFormed(d) && AncestorOrSelf(d, a, n)
    ensures a <= n
    decreases n
  {
    if a != n {
      AncestorPrecedes(d, a, d.parent[n]);
    }
  }

  /** The parent of an ancestor is an ancestor too. */
  lemma {:induction false} ParentIsAncestor(d: Dom, a: nat, n: nat)
    requires WellFormed(d) && AncestorOrSelf(d, a, n) && a in d.parent
    ensures AncestorOrSelf(d, d.parent[a], n)
    decreases n
  {
    if a != n {
      ParentIsAncestor(d, a, d.parent[n]);
    }
  }

  /** The ancestors of a node form a chain: of two of them, the earlier is an ancestor of the later. */
  lemma {:induction false} AncestorsAreOrdered(d: Dom, a: nat, b: nat, n: nat)
    requires WellFormed(d) && AncestorOrSelf(d, a, n) && AncestorOrSelf(d, b, n) && a <= b
    ensures AncestorOrSelf(d, a, b)
    decreases n
  {
    if b != n {
      AncestorPrecedes(d, b, d.parent[n]);
      AncestorsAreOrdered(d, a, b, d.parent[n]);
    }
  }

  /** Climb from `wrapper` to the nearest ancestor-or-self that is a child of the body or has no parent. */
  method Climb(d: Dom, wrapper: nat) returns (root: nat)
    requires WellFormed(d)
    ensures AncestorOrSelf(d, root, wrapper) && IsTop(d, root)
    ensures forall a: nat :: AncestorOrSelf(d, a, wrapper) && AncestorOrSelf(d, root, a) && a != root ==> !IsTop(d, a)
  {
    root := wrapper;
    forall a: nat | AncestorOrSelf(d, a, wrapper)
      ensures a <= root
    {
      AncestorPrecedes(d, a, wrapper);
    }
    while root in d.parent && d.parent[root] != d.body
      invariant AncestorOrSelf(d, root, wrapper)
      invariant forall a: nat :: AncestorOrSelf(d, a, wrapper) && a > root ==> !IsTop(d, a)
      decreases root
    {
      forall a: nat | AncestorOrSelf(d, a, wrapper) && a > d.parent[root]
        ensures !IsTop(d, a)
      {
        if a < root {
          AncestorsAreOrdered(d, a, root, wrapper);
          AncestorPrecedes(d, a, d.parent[root]);
        }
      }
      ParentIsAncestor(d, root, wrapper);
      root := d.parent[root];
    }
    forall a: nat | AncestorOrSelf(d, a, wrapper) && AncestorOrSelf(d, root, a) && a != root
      ensures !IsTop(d, a)
    {
      AncestorPrecedes(d, root, a);
    }
  }

  /** The body's children other than `root`, found in document order as `querySelectorAll('body > *')` lists them. */
  method HideOthers(d: Dom, root: nat) returns (hidden: set<nat>)
    ensures forall n: nat :: n in hidden <==> ChildOfBody(d, n) && n != root && n < d.size
  {
    hidden := {};
    var i := 0;
    while i < d.size
      invariant i <= d.size
      invariant forall n: nat :: n in hidden <==> ChildOfBody(d, n) && n != root && n < i
    {
      if ChildOfBody(d, i) && i != root {
        hidden := hidden + {i};
      }
      i := i + 1;
    }
  }

  /**
   * `makeFullscreen`: when the wrapper is the body, a new container is appended as
   * its last child and promoted; otherwise the wrapper's topmost ancestor below the
   * body is promoted. Every other child of the body is hidden.
   */
  method Promote(d: Dom, wrapper: nat) returns (d': Dom, root: nat, hidden: set<nat>)
    requires WellFormed(d) && wrapper < d.size
    ensures WellFormed(d')
    ensures wrapper == d.body ==>
      && root == d.size && d'.size == d.size + 1 && d'.body == d.body
      && d'.parent == d.parent[root := d.body]
    ensures wrapper == d.body ==> forall n: nat :: ChildOfBody(d', n) && n != root ==> n < root
    ensures wrapper != d.body ==> d' == d && AncestorOrSelf(d, root, wrapper) && IsTop(d, root)
    ensures wrapper != d.body ==>
      forall a: nat :: AncestorOrSelf(d, a, wrapper) && AncestorOrSelf(d, root, a) && a != root ==> !IsTop(d, a)
    ensures forall n: nat :: n in hidden <==> ChildOfBody(d', n) && n != root
    ensures forall a: nat :: AncestorOrSelf(d', a, wrapper) ==> a !in hidden
  {
    if wrapper == d.body {
      root := d.size;
      d' := Dom(d.size + 1, d.parent[root := d.body], d.body);
      forall a: nat | AncestorOrSelf(d', a, wrapper)
        ensures !ChildOfBody(d', a)
      {
        AncestorPrecedes(d', a, wrapper);
      }
    } else {
      d' := d;
      root := Climb(d, wrapper);
      forall a: nat | AncestorOrSelf(d, a, wrapper) && a != root
        ensures !ChildOfBody(d, a)
      {
        if a < root {
          AncestorsAreOrdered(d, a, root, wrapper);
          if ChildOfBody(d, a) {
            AncestorPrecedes(d, a, d.parent[root]);
          }
        } else {
          AncestorsAreOrdered(d, root, a, wrapper);
        }
      }
    }
    hidden := HideOthers(d', root);
  }
}
