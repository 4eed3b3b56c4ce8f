/** ChildrenEditorServlet: a POST that deletes named children of a container
    and then brings the named children into the given order at the end of
    the child list, creating those that are missing. The child list follows
    the orderable child nodes of section 23 of JSR 283 (JCR 2.0). */
module ChildrenEditor {
  import opened Wrappers

  // ---------------------------------------------------------------------
  // Child lists

  predicate Distinct(s: seq<string>) {
    forall i, j :: 0 <= i < j < |s| ==> s[i] != s[j]
  }

  function Names(s: seq<string>): set<string> {
    set x | x in s
  }

  /** The list less the given names, the rest in their order. */
  function Without(s: seq<string>, names: set<string>): (r: seq<string>)
    ensures |r| <= |s|
  {
    if s == [] then []
    else (if s[0] in names then [] else [s[0]]) + Without(s[1..], names)
  }

  /** What is left is what the list held less the given names. */
  lemma {:induction false} WithoutMembers(s: seq<string>, names: set<string>)
    ensures forall x :: x in Without(s, names) <==> x in s && x !in names
    decreases |s|
  {
    if s != [] {
      WithoutMembers(s[1..], names);
      assert s == [s[0]] + s[1..];
    }
  }

  lemma {:induction false} WithoutAppend(a: seq<string>, b: seq<string>, names: set<string>)
    ensures Without(a + b, names) == Without(a, names) + Without(b, names)
    decreases |a|
  {
    if a == [] {
      assert a + b == b;
    } else {
      assert (a + b)[1..] == a[1..] + b;
      WithoutAppend(a[1..], b, names);
    }
  }

  /** Removing names the list does not hold changes nothing. */
  lemma {:induction false} WithoutAbsent(s: seq<string>, names: set<string>)
    requires forall x :: x in s ==> x !in names
    ensures Without(s, names) == s
    decreases |s|
  {
    if s != [] {
      WithoutAbsent(s[1..], names);
    }
  }

  lemma {:induction false} WithoutWithout(s: seq<string>, a: set<string>, b: set<string>)
    ensures Without(Without(s, a), b) == Without(s, a + b)
    decreases |s|
  {
    if s != [] {
      WithoutWithout(s[1..], a, b);
      var head := if s[0] in a then [] else [s[0]];
      WithoutAppend(head, Without(s[1..], a), b);
    }
  }

  lemma {:induction false} DistinctWithout(s: seq<string>, names: set<string>)
    requires Distinct(s)
    ensures Distinct(Without(s, names))
    decreases |s|
  {
    if s != [] {
      assert Distinct(s[1..]) by {
        forall i, j | 0 <= i < j < |s[1..]| ensures s[1..][i] != s[1..][j] {
          assert s[1..][i] == s[i + 1] && s[1..][j] == s[j + 1];
        }
      }
      DistinctWithout(s[1..], names);
      WithoutMembers(s[1..], names);
      assert s[0] !in s[1..] by {
        forall k | 0 <= k < |s[1..]| ensures s[1..][k] != s[0] {
          assert s[1..][k] == s[k + 1];
        }
      }
    }
  }

  /** The position of a name in a list that holds it. */
  function IndexOf(s: seq<string>, x: string): (i: nat)
    requires x in s
    ensures i < |s| && s[i] == x && x !in s[..i]
  {
    if s[0] == x then 0
    else
      var i := IndexOf(s[1..], x);
      assert s[..i + 1] == [s[0]] + s[1..][..i];
      i + 1
  }

  lemma IndexOfAfter(a: seq<string>, b: seq<string>, x: string)
    requires x !in a && |b| >= 1 && b[0] == x
    ensures IndexOf(a + b, x) == |a|
  {
    assert (a + b)[..|a|] == a;
    assert (a + b)[|a|] == x;
  }

  /** orderBefore(src, dest) on a list that holds src and, when given, dest:
      src moves to just before dest, or to the end when dest is null; a move
      before itself changes nothing. */
  function MoveBefore(s: seq<string>, src: string, dest: Option<string>): (r: seq<string>)
    requires src in s && (dest.Some? ==> dest.value in s)
  {
    match dest
    case None => Without(s, {src}) + [src]
    case Some(d) =>
      if d == src then s
      else
        var t := Without(s, {src});
        WithoutMembers(s, {src});
        InsertAt(t, IndexOf(t, d), src)
  }

  /** The list with x inserted at position i. */
  function InsertAt(t: seq<string>, i: nat, x: string): seq<string>
    requires i <= |t|
  {
    t[..i] + [x] + t[i..]
  }

  /** A move neither adds nor loses a name. */
  lemma MoveBeforeMembers(s: seq<string>, src: string, dest: Option<string>)
    requires src in s && (dest.Some? ==> dest.value in s)
    ensures forall x :: x in MoveBefore(s, src, dest) <==> x in s
  {
    var t := Without(s, {src});
    WithoutMembers(s, {src});
    if dest.Some? && dest.value != src {
      var i := IndexOf(t, dest.value);
      assert t == t[..i] + t[i..];
    }
  }

  lemma DistinctInsert(a: seq<string>, x: string, b: seq<string>)
    requires Distinct(a + b) && x !in a + b
    ensures Distinct(a + [x] + b)
  {
    var s := a + [x] + b;
    forall i, j | 0 <= i < j < |s| ensures s[i] != s[j] {
      if i < |a| && j > |a| {
        assert s[i] == (a + b)[i] && s[j] == (a + b)[j - 1];
      } else if i > |a| {
        assert s[i] == (a + b)[i - 1] && s[j] == (a + b)[j - 1];
      } else if j < |a| {
        assert s[i] == (a + b)[i] && s[j] == (a + b)[j];
      } else if i == |a| {
        assert s[j] == (a + b)[j - 1];
      } else {
        assert s[i] == (a + b)[i];
      }
    }
  }

  /** A move keeps the names distinct. */
  lemma MoveBeforeDistinct(s: seq<string>, src: string, dest: Option<string>)
    requires Distinct(s) && src in s && (dest.Some? ==> dest.value in s)
    ensures Distinct(MoveBefore(s, src, dest))
  {
    var t := Without(s, {src});
    DistinctWithout(s, {src});
    WithoutMembers(s, {src});
    if dest.None? {
      DistinctInsert(t, src, []);
      assert t + [] == t && t + [src] + [] == t + [src];
    } else if dest.value != src {
      var i := IndexOf(t, dest.value);
      assert t == t[..i] + t[i..];
      DistinctInsert(t[..i], src, t[i..]);
    }
  }

  /** A move changes the position of src alone: without src, the list is as
      it was. */
  lemma MoveBeforeKeepsOthers(s: seq<string>, src: string, dest: Option<string>, names: set<string>)
    requires src in s && (dest.Some? ==> dest.value in s) && src in names
    ensures Without(MoveBefore(s, src, dest), names) == Without(s, names)
  {
    var t := Without(s, {src});
    WithoutWithout(s, {src}, names);
    assert {src} + names == names;
    if dest.None? {
      WithoutAppend(t, [src], names);
    } else if dest.value != src {
      WithoutMembers(s, {src});
      InsertKeepsOthers(t, IndexOf(t, dest.value), src, names);
    }
  }

  lemma InsertKeepsOthers(t: seq<string>, i: nat, src: string, names: set<string>)
    requires i <= |t| && src in names
    ensures Without(InsertAt(t, i, src), names) == Without(t, names)
  {
    var front, back := t[..i], t[i..];
    assert t == front + back;
    assert [src][1..] == [];
    assert Without([src], names) == [];
    WithoutAppend(front + [src], back, names);
    WithoutAppend(front, [src], names);
    WithoutAppend(front, back, names);
  }

  // ---------------------------------------------------------------------
  // doPost, as functions

  /** One pass of the reorder loop at index i: create names[i] when it is
      missing (a RepositoryException, for a name the container refuses, ends
      the pass), then move it before names[i + 1], or to the end for the last
      index (a RepositoryException, because the container is not orderable or
      names[i + 1] is missing, leaves the list as it is). */
  function Step(s: seq<string>, names: seq<string>, i: nat, orderable: bool, invalidNames: set<string>): seq<string>
    requires i < |names|
  {
    var name := names[i];
    if name !in s && name in invalidNames then s
    else
      var created := Created(s, name);
      var dest := if i == |names| - 1 then None else Some(names[i + 1]);
      if orderable && (dest.None? || dest.value in created) then MoveBefore(created, name, dest) else created
  }

  /** The list with the name, appended when it was missing (addNode). */
  function Created(s: seq<string>, name: string): seq<string> {
    if name in s then s else s + [name]
  }

  lemma CreatedWithout(s: seq<string>, name: string)
    ensures name in Created(s, name)
    ensures Without(Created(s, name), {name}) == Without(s, {name})
  {
    if name !in s {
      WithoutAppend(s, [name], {name});
      assert [name][1..] == [];
    }
  }

  /** The list after the reorder loop has run from the last index down to i. */
  function OrderFrom(s: seq<string>, names: seq<string>, i: nat, orderable: bool, invalidNames: set<string>): seq<string>
    requires i <= |names|
    decreases |names| - i
  {
    if i == |names| then s else Step(OrderFrom(s, names, i + 1, orderable, invalidNames), names, i, orderable, invalidNames)
  }

  /** The child list after doPost. An absent or empty parameter skips its
      phase; a container that is not a node skips the reordering. */
  function AfterPost(children: seq<string>, deletedChildren: Option<seq<string>>, orderedChildren: Option<seq<string>>,
                     isNode: bool, orderable: bool, invalidNames: set<string>): seq<string>
  {
    var afterDelete := if deletedChildren.Some? && |deletedChildren.value| > 0
                       then Without(children, Names(deletedChildren.value)) else children;
    if orderedChildren.Some? && |orderedChildren.value| > 0 && isNode
    then OrderFrom(afterDelete, orderedChildren.value, 0, orderable, invalidNames)
    else afterDelete
  }

  // ---------------------------------------------------------------------
  // What doPost promises

  /** A pass keeps the names distinct. */
  lemma StepDistinct(s: seq<string>, names: seq<string>, i: nat, orderable: bool, invalidNames: set<string>)
    requires i < |names| && Distinct(s)
    ensures Distinct(Step(s, names, i, orderable, invalidNames))
  {
    var name := names[i];
    if name in s || name !in invalidNames {
      var created := Created(s, name);
      if name !in s {
        DistinctInsert(s, name, []);
        assert s + [] == s && s + [name] + [] == created;
      }
      var dest := if i == |names| - 1 then None else Some(names[i + 1]);
      if orderable && (dest.None? || dest.value in created) {
        MoveBeforeDistinct(created, name, dest);
      }
    }
  }

  lemma {:induction false} OrderFromDistinct(s: seq<string>, names: seq<string>, i: nat, orderable: bool, invalidNames: set<string>)
    requires i <= |names| && Distinct(s)
    ensures Distinct(OrderFrom(s, names, i, orderable, invalidNames))
    decreases |names| - i
  {
    if i < |names| {
      OrderFromDistinct(s, names, i + 1, orderable, invalidNames);
      StepDistinct(OrderFrom(s, names, i + 1, orderable, invalidNames), names, i, orderable, invalidNames);
    }
  }

  /** A pass adds names[i] when it is missing and allowed, adds nothing
      else, and takes nothing away. */
  lemma StepMembers(s: seq<string>, names: seq<string>, i: nat, orderable: bool, invalidNames: set<string>)
    requires i < |names|
    ensures var r := Step(s, names, i, orderable, invalidNames);
            && (forall x :: x in s ==> x in r)
            && (names[i] !in invalidNames ==> names[i] in r)
            && (forall x :: x in r ==> x in s || x == names[i])
  {
    var name := names[i];
    if name in s || name !in invalidNames {
      var created := Created(s, name);
      var dest := if i == |names| - 1 then None else Some(names[i + 1]);
      if orderable && (dest.None? || dest.value in created) {
        MoveBeforeMembers(created, name, dest);
      }
    }
  }

  /** After the reorder loop, every ordered name the container accepts
      exists, every child that was there still is, and nothing but the
      ordered names is added. */
  lemma {:induction false} OrderFromMembers(s: seq<string>, names: seq<string>, i: nat, orderable: bool, invalidNames: set<string>)
    requires i <= |names|
    ensures var r := OrderFrom(s, names, i, orderable, invalidNames);
            && (forall x :: x in s ==> x in r)
            && (forall j :: i <= j < |names| && names[j] !in invalidNames ==> names[j] in r)
            && (forall x :: x in r ==> x in s || x in names[i..])
    decreases |names| - i
  {
    if i < |names| {
      var before := OrderFrom(s, names, i + 1, orderable, invalidNames);
      OrderFromMembers(s, names, i + 1, orderable, invalidNames);
      StepMembers(before, names, i, orderable, invalidNames);
      assert names[i..] == [names[i]] + names[i + 1..];
    }
  }

  /** A pass changes nothing about the children outside the ordered names. */
  lemma StepKeepsOthers(s: seq<string>, names: seq<string>, i: nat, orderable: bool, invalidNames: set<string>,
                        keep: set<string>)
    requires i < |names| && names[i] in keep
    ensures Without(Step(s, names, i, orderable, invalidNames), keep) == Without(s, keep)
  {
    var name := names[i];
    if name in s || name !in invalidNames {
      var created := Created(s, name);
      if name !in s {
        WithoutAppend(s, [name], keep);
      }
      var dest := if i == |names| - 1 then None else Some(names[i + 1]);
      if orderable && (dest.None? || dest.value in created) {
        MoveBeforeKeepsOthers(created, name, dest, keep);
      }
    }
  }

  lemma {:induction false} OrderFromKeepsOthers(s: seq<string>, names: seq<string>, i: nat, orderable: bool,
                                                 invalidNames: set<string>, keep: set<string>)
    requires i <= |names| && Names(names) <= keep
    ensures Without(OrderFrom(s, names, i, orderable, invalidNames), keep) == Without(s, keep)
    decreases |names| - i
  {
    if i < |names| {
      OrderFromKeepsOthers(s, names, i + 1, orderable, invalidNames, keep);
      assert names[i] in Names(names);
      StepKeepsOthers(OrderFrom(s, names, i + 1, orderable, invalidNames), names, i, orderable, invalidNames, keep);
    }
  }

  /** The loop invariant of the reorder pass: with distinct names, an
      orderable container that accepts every name, after the passes from the
      last index down to i the names from i on stand at the end of the list,
      in their order, after the other children in theirs. */
  lemma {:induction false} OrderedSuffix(s: seq<string>, names: seq<string>, i: nat, invalidNames: set<string>)
    requires i <= |names| && Distinct(names)
    requires forall x :: x in names ==> x !in invalidNames
    ensures OrderFrom(s, names, i, true, invalidNames) == Without(s, Names(names[i..])) + names[i..]
    decreases |names| - i
  {
    if i == |names| {
      WithoutAbsent(s, Names(names[i..]));
      assert names[i..] == [];
    } else {
      OrderedSuffix(s, names, i + 1, invalidNames);
      var x := names[i];
      var rest := names[i + 1..];
      var later := Names(rest);
      assert names[i..] == [x] + rest;
      assert Names(names[i..]) == later + {x};
      assert x !in rest by {
        forall k | 0 <= k < |rest| ensures rest[k] != x {
          assert rest[k] == names[i + 1 + k];
        }
      }
      RemoveBeforeSuffix(s, later, rest, x);
      WithoutMembers(s, later + {x});
      StepOnSuffix(Without(s, later) + rest, names, i, invalidNames, Without(s, later + {x}));
    }
  }

  /** Taking x out of the list the earlier passes left. */
  lemma RemoveBeforeSuffix(s: seq<string>, later: set<string>, rest: seq<string>, x: string)
    requires x !in rest
    ensures Without(Without(s, later) + rest, {x}) == Without(s, later + {x}) + rest
  {
    WithoutAppend(Without(s, later), rest, {x});
    WithoutWithout(s, later, {x});
    WithoutAbsent(rest, {x});
  }

  /** The pass at i on a list that, names[i] aside, is w followed by the
      names after i, none of which w holds, puts names[i] just before them. */
  lemma StepOnSuffix(t: seq<string>, names: seq<string>, i: nat, invalidNames: set<string>, w: seq<string>)
    requires i < |names| && names[i] !in invalidNames && names[i] !in names[i + 1..]
    requires Without(t, {names[i]}) == w + names[i + 1..]
    requires forall y :: y in names[i + 1..] ==> y !in w
    ensures Step(t, names, i, true, invalidNames) == w + names[i..]
  {
    var x, rest := names[i], names[i + 1..];
    var created := Created(t, x);
    CreatedWithout(t, x);
    assert names[i..] == [x] + rest;
    if i == |names| - 1 {
      StepLast(t, names, i, invalidNames);
      assert rest == [];
    } else {
      WithoutMembers(created, {x});
      assert rest[0] == names[i + 1] && rest[0] in created;
      StepInner(t, names, i, invalidNames);
      MoveBeforeFront(created, x, w, rest);
    }
  }

  /** The last pass, for a name the container accepts: to the end. */
  lemma StepLast(t: seq<string>, names: seq<string>, i: nat, invalidNames: set<string>)
    requires i == |names| - 1 && names[i] !in invalidNames
    ensures Step(t, names, i, true, invalidNames) == Without(Created(t, names[i]), {names[i]}) + [names[i]]
  {
  }

  /** Any other pass, for a name the container accepts and a next name that
      exists: before the next name. */
  lemma StepInner(t: seq<string>, names: seq<string>, i: nat, invalidNames: set<string>)
    requires i < |names| - 1 && names[i] !in invalidNames && names[i + 1] in Created(t, names[i])
    ensures Step(t, names, i, true, invalidNames) == MoveBefore(Created(t, names[i]), names[i], Some(names[i + 1]))
  {
  }

  /** Moving x before the first of the names that end the list, x aside. */
  lemma MoveBeforeFront(created: seq<string>, x: string, w: seq<string>, rest: seq<string>)
    requires x in created && |rest| >= 1 && rest[0] in created && rest[0] != x && rest[0] !in w
    requires Without(created, {x}) == w + rest
    ensures MoveBefore(created, x, Some(rest[0])) == w + ([x] + rest)
  {
    var t := Without(created, {x});
    IndexOfAfter(w, rest, rest[0]);
    assert MoveBefore(created, x, Some(rest[0])) == InsertAt(t, |w|, x);
    InsertAtBoundary(w, rest, x);
  }

  lemma InsertAtBoundary(w: seq<string>, rest: seq<string>, x: string)
    ensures InsertAt(w + rest, |w|, x) == w + ([x] + rest)
  {
    assert (w + rest)[..|w|] == w;
    assert (w + rest)[|w|..] == rest;
  }

  /** doPost on a POST that names distinct children to order, all of which
      the orderable container accepts: the deleted children are gone, unless
      ordered, and the ordered ones end the list in the given order, after the
      remaining children in their old order. */
  lemma PostOrdersChildren(children: seq<string>, deleted: seq<string>, ordered: seq<string>, invalidNames: set<string>)
    requires |ordered| > 0 && Distinct(ordered)
    requires forall x :: x in ordered ==> x !in invalidNames
    ensures AfterPost(children, Some(deleted), Some(ordered), true, true, invalidNames)
            == Without(children, Names(deleted) + Names(ordered)) + ordered
  {
    var afterDelete := if |deleted| > 0 then Without(children, Names(deleted)) else children;
    assert afterDelete == Without(children, Names(deleted)) by {
      if |deleted| == 0 {
        WithoutAbsent(children, Names(deleted));
      }
    }
    OrderedSuffix(afterDelete, ordered, 0, invalidNames);
    assert ordered[0..] == ordered;
    WithoutWithout(children, Names(deleted), Names(ordered));
  }

  /** Whatever fails, the children named in neither list keep their relative
      order, and no other child appears or disappears. */
  lemma PostKeepsOthers(children: seq<string>, deleted: Option<seq<string>>, ordered: Option<seq<string>>,
                        isNode: bool, orderable: bool, invalidNames: set<string>)
    ensures var keep := Names(deleted.GetOr([])) + Names(ordered.GetOr([]));
            Without(AfterPost(children, deleted, ordered, isNode, orderable, invalidNames), keep) == Without(children, keep)
  {
    var keep := Names(deleted.GetOr([])) + Names(ordered.GetOr([]));
    var afterDelete := if deleted.Some? && |deleted.value| > 0 then Without(children, Names(deleted.value)) else children;
    assert Without(afterDelete, keep) == Without(children, keep) by {
      if deleted.Some? && |deleted.value| > 0 {
        WithoutWithout(children, Names(deleted.value), keep);
        assert Names(deleted.value) + keep == keep;
      }
    }
    if ordered.Some? && |ordered.value| > 0 && isNode {
      OrderFromKeepsOthers(afterDelete, ordered.value, 0, orderable, invalidNames, keep);
    }
  }

  /** Whatever fails, every child not deleted is still there, and every
      ordered name the container accepts exists afterwards, a deleted one
      too; without a node to reorder, the deletions are all that happens. */
  lemma PostMembers(children: seq<string>, deleted: Option<seq<string>>, ordered: Option<seq<string>>,
                    isNode: bool, orderable: bool, invalidNames: set<string>)
    ensures var r := AfterPost(children, deleted, ordered, isNode, orderable, invalidNames);
            && (forall x :: x in children && x !in deleted.GetOr([]) ==> x in r)
            && (isNode ==> forall x :: x in ordered.GetOr([]) && x !in invalidNames ==> x in r)
            && (!isNode ==> r == Without(children, Names(deleted.GetOr([]))))
  {
    var afterDelete := if deleted.Some? && |deleted.value| > 0 then Without(children, Names(deleted.value)) else children;
    WithoutMembers(children, Names(deleted.GetOr([])));
    if !isNode && (deleted.None? || |deleted.value| == 0) {
      WithoutAbsent(children, Names(deleted.GetOr([])));
    }
    if ordered.Some? && |ordered.value| > 0 && isNode {
      OrderFromMembers(afterDelete, ordered.value, 0, orderable, invalidNames);
      forall x | x in ordered.value && x !in invalidNames
        ensures x in OrderFrom(afterDelete, ordered.value, 0, orderable, invalidNames)
      {
        var j :| 0 <= j < |ordered.value| && ordered.value[j] == x;
      }
    }
  }

  // ---------------------------------------------------------------------
  // The container

  /** The container node: its children's names in order, whether it is a
      JCR node, whether its child nodes are orderable, and the names it
      refuses to create a child under. */
  class Container {
    var children: seq<string>
    const isNode: bool
    const orderable: bool
    const invalidNames: set<string>

    /** Child names are unique. */
    predicate Valid()
      reads this
    {
      Distinct(children)
    }

    constructor (children: seq<string>, isNode: bool, orderable: bool, invalidNames: set<string>)
      requires Distinct(children)
      ensures Valid()
      ensures this.children == children && this.isNode == isNode
      ensures this.orderable == orderable && this.invalidNames == invalidNames
    {
      this.children := children;
      this.isNode := isNode;
      this.orderable := orderable;
      this.invalidNames := invalidNames;
    }

    function HasNode(name: string): bool
      reads this
    {
      name in children
    }

    /** Deleting the child of that name. */
    method Delete(name: string)
      requires Valid()
      modifies this
      ensures Valid()
      ensures children == Without(old(children), {name})
    {
      DistinctWithout(children, {name});
      children := Without(children, {name});
    }

    /** addNode: appends a new child, or fails (a RepositoryException) when
        the name is refused or taken. */
    method AddNode(name: string) returns (ok: bool)
      requires Valid()
      modifies this
      ensures Valid()
      ensures ok <==> name !in invalidNames && name !in old(children)
      ensures children == if ok then old(children) + [name] else old(children)
    {
      if name in invalidNames || name in children {
        return false;
      }
      DistinctInsert(children, name, []);
      assert children + [] == children && children + [name] + [] == children + [name];
      children := children + [name];
      return true;
    }

    /** orderBefore: fails (a RepositoryException) when the children are not
        orderable or either name is not a child. */
    method OrderBefore(src: string, dest: Option<string>) returns (ok: bool)
      requires Valid()
      modifies this
      ensures Valid()
      ensures ok <==> orderable && src in old(children) && (dest.None? || dest.value in old(children))
      ensures children == if ok then MoveBefore(old(children), src, dest) else old(children)
    {
      if !orderable || src !in children || (dest.Some? && dest.value !in children) {
        return false;
      }
      MoveBeforeDistinct(children, src, dest);
      children := MoveBefore(children, src, dest);
      return true;
    }
  }

  // ---------------------------------------------------------------------
  // The servlet

  /** doPost: the delete loop, then the reorder loop from the last index
      down. */
  method DoPost(container: Container, deletedChildren: Option<seq<string>>, orderedChildren: Option<seq<string>>)
    requires container.Valid()
    modifies container
    ensures container.Valid()
    ensures container.children == AfterPost(old(container.children), deletedChildren, orderedChildren,
                                            container.isNode, container.orderable, container.invalidNames)
  {
    if deletedChildren.Some? && |deletedChildren.value| > 0 {
      DeleteChildren(container, deletedChildren.value);
    }
    if orderedChildren.Some? && |orderedChildren.value| > 0 {
      if container.isNode {
        OrderChildren(container, orderedChildren.value);
      }
    }
  }

  /** Deleting one more name from what the loop has left. */
  lemma DeleteOne(children: seq<string>, done: seq<string>, name: string)
    ensures Without(Without(children, Names(done)), {name}) == Without(children, Names(done + [name]))
  {
    WithoutWithout(children, Names(done), {name});
    assert Names(done + [name]) == Names(done) + {name};
  }

  method DeleteChildren(container: Container, names: seq<string>)
    requires container.Valid()
    modifies container
    ensures container.Valid()
    ensures container.children == Without(old(container.children), Names(names))
  {
    var k := 0;
    WithoutAbsent(container.children, Names(names[..0]));
    while k < |names|
      invariant 0 <= k <= |names|
      invariant container.Valid()
      invariant container.children == Without(old(container.children), Names(names[..k]))
    {
      var childName := names[k];
      assert names[..k + 1] == names[..k] + [childName];
      DeleteOne(old(container.children), names[..k], childName);
      if container.HasNode(childName) {
        container.Delete(childName);
      } else {
        WithoutAbsent(container.children, {childName});
      }
      k := k + 1;
    }
    assert names[..k] == names;
  }

  method OrderChildren(container: Container, names: seq<string>)
    requires container.Valid()
    modifies container
    ensures container.Valid()
    ensures container.children == OrderFrom(old(container.children), names, 0, container.orderable, container.invalidNames)
  {
    var i := |names|;
    while i > 0
      invariant 0 <= i <= |names|
      invariant container.Valid()
      invariant container.children == OrderFrom(old(container.children), names, i, container.orderable, container.invalidNames)
    {
      i := i - 1;
      OrderStep(container, names, i);
    }
  }

  /** One pass of the reorder loop; a RepositoryException ends the pass. */
  method OrderStep(container: Container, names: seq<string>, i: nat)
    requires i < |names| && container.Valid()
    modifies container
    ensures container.Valid()
    ensures container.children == Step(old(container.children), names, i, container.orderable, container.invalidNames)
  {
    var name := names[i];
    if !container.HasNode(name) {
      var added := container.AddNode(name);
      if !added {
        return;
      }
    }
    var ordered;
    if i == |names| - 1 {
      ordered := container.OrderBefore(name, None);
    } else {
      ordered := container.OrderBefore(name, Some(names[i + 1]));
    }
  }
}
