/** What the threads of `_format_for_output` look like: the level of each
    entry, the entry of its parent before it, the chain of parents up to a
    top-level comment, and the order of siblings. */
module CommentShape {
  import opened PyStr
  import opened CommentThread

  /** An entry shows a comment of the listing under the comment's id, with
      the comment's `who` and `when`. */
  predicate Shows(doc: seq<Comment>, e: Entry)
  {
    e.comment in doc && e.id == e.comment.id && e.who == e.comment.who && e.when == e.comment.when
  }

  /** Every entry shows a comment of the listing. */
  predicate Shown(doc: seq<Comment>, es: seq<Entry>)
  {
    forall p :: 0 <= p < |es| ==> Shows(doc, es[p])
  }

  /** An entry before the one at `p`, one level up, is the entry of the
      comment it replies to. */
  ghost predicate ParentBefore(es: seq<Entry>, p: nat)
    requires p < |es| && es[p].comment.parent.Some?
  {
    exists q :: 0 <= q < p && es[q].id == es[p].comment.parent.value && es[q].level + 1 == es[p].level
  }

  /** Entries at `level` or deeper: those at `level` reply to `top` (are
      top-level for `None`); every deeper entry replies to an entry before
      it, one level up. */
  ghost predicate Nested(es: seq<Entry>, top: Option<Str>, level: nat)
  {
    forall p :: 0 <= p < |es| ==>
      (es[p].level == level && es[p].comment.parent == top)
      || (es[p].level > level && es[p].comment.parent.Some? && ParentBefore(es, p))
  }

  /** Nested entries, one run after the other, are nested. */
  lemma NestedAppend(a: seq<Entry>, b: seq<Entry>, top: Option<Str>, level: nat)
    requires Nested(a, top, level) && Nested(b, top, level)
    ensures Nested(a + b, top, level)
  {
    var ab := a + b;
    forall p | 0 <= p < |ab| && !(ab[p].level == level && ab[p].comment.parent == top)
      ensures ab[p].level > level && ab[p].comment.parent.Some? && ParentBefore(ab, p)
    {
      if p < |a| {
        assert ab[p] == a[p];
        var q :| 0 <= q < p && a[q].id == a[p].comment.parent.value && a[q].level + 1 == a[p].level;
        assert ab[q] == a[q];
      } else {
        assert ab[p] == b[p - |a|];
        var q :| 0 <= q < p - |a| && b[q].id == b[p - |a|].comment.parent.value && b[q].level + 1 == b[p - |a|].level;
        assert ab[q + |a|] == b[q];
      }
    }
  }

  /** An entry followed by entries nested under it is nested. */
  lemma NestedCons(e: Entry, rest: seq<Entry>, top: Option<Str>, level: nat)
    requires e.level == level && e.comment.parent == top
    requires Nested(rest, Some(e.id), level + 1)
    ensures Nested([e] + rest, top, level)
  {
    var es := [e] + rest;
    forall p | 0 < p < |es|
      ensures es[p].level > level && es[p].comment.parent.Some? && ParentBefore(es, p)
    {
      assert es[p] == rest[p - 1];
      if rest[p - 1].level == level + 1 {
        assert es[0] == e;
      } else {
        var q :| 0 <= q < p - 1 && rest[q].id == rest[p - 1].comment.parent.value && rest[q].level + 1 == rest[p - 1].level;
        assert es[q + 1] == rest[q];
      }
    }
  }

  /** Shown entries, one run after the other, are shown. */
  lemma ShownAppend(doc: seq<Comment>, a: seq<Entry>, b: seq<Entry>)
    requires Shown(doc, a) && Shown(doc, b)
    ensures Shown(doc, a + b)
  {
    forall p | 0 <= p < |a + b| ensures Shows(doc, (a + b)[p]) {
      if p >= |a| {
        assert (a + b)[p] == b[p - |a|];
      }
    }
  }

  /** The thread of a comment: its entry at its level, then entries nested
      under it. */
  lemma {:induction false} SubtreeNested(doc: seq<Comment>, i: nat, level: nat, fuel: nat)
    requires i < |doc|
    ensures Nested(Subtree(doc, i, level, fuel), doc[i].parent, level)
    ensures Shown(doc, Subtree(doc, i, level, fuel))
    decreases fuel, 0
  {
    if fuel > 0 {
      var kids := Reverse(Children(doc, i));
      ChildrenReplies(doc, i);
      assert forall k :: 0 <= k < |kids| ==> kids[k] == Children(doc, i)[|kids| - 1 - k];
      ForestNested(doc, kids, Some(doc[i].id), level + 1, fuel - 1);
      var e := EntryOf(doc, i, level);
      var rest := Forest(doc, kids, level + 1, fuel - 1);
      NestedCons(e, rest, doc[i].parent, level);
      ShownAppend(doc, [e], rest);
    }
  }

  /** The threads of comments replying to `top`: nested under `top`. */
  lemma {:induction false} ForestNested(doc: seq<Comment>, ps: seq<nat>, top: Option<Str>, level: nat, fuel: nat)
    requires forall k :: 0 <= k < |ps| ==> ps[k] < |doc| && doc[ps[k]].parent == top
    ensures Nested(Forest(doc, ps, level, fuel), top, level)
    ensures Shown(doc, Forest(doc, ps, level, fuel))
    decreases fuel, |ps|
  {
    if ps != [] {
      SubtreeNested(doc, ps[0], level, fuel);
      ForestNested(doc, ps[1..], top, level, fuel);
      NestedAppend(Subtree(doc, ps[0], level, fuel), Forest(doc, ps[1..], level, fuel), top, level);
      ShownAppend(doc, Subtree(doc, ps[0], level, fuel), Forest(doc, ps[1..], level, fuel));
    }
  }

  /** Every entry of the dict shows a comment of the listing; the entries
      at level 0 are exactly the top-level comments, and every other entry
      comes after the entry of the comment it replies to, one level up. */
  lemma ThreadShape(doc: seq<Comment>)
    ensures Shown(doc, Thread(doc))
    ensures Nested(Thread(doc), None, 0)
  {
    SelectSound(doc, None, 0);
    ForestNested(doc, Roots(doc), None, 0, |doc|);
  }

  // ---------------------------------------------------------------------
  // Reachability

  /** The comment is top-level, or replies to a comment of the listing
      that reaches a top-level comment, through at most `n` replies. */
  ghost predicate Reaches(doc: seq<Comment>, c: Comment, n: nat)
    decreases n
  {
    c.parent.None?
    || (n > 0 && exists j :: 0 <= j < |doc| && doc[j].id == c.parent.value && Reaches(doc, doc[j], n - 1))
  }

  /** In a run nested from the top, each entry's comment reaches a
      top-level comment in as many replies as its level. */
  lemma {:induction false} NestedReaches(doc: seq<Comment>, es: seq<Entry>, p: nat)
    requires Nested(es, None, 0) && Shown(doc, es) && p < |es|
    ensures Reaches(doc, es[p].comment, es[p].level)
    decreases p
  {
    if es[p].comment.parent.Some? {
      var q :| 0 <= q < p && es[q].id == es[p].comment.parent.value && es[q].level + 1 == es[p].level;
      NestedReaches(doc, es, q);
      assert Shows(doc, es[q]);
      var j :| 0 <= j < |doc| && doc[j] == es[q].comment;
      assert doc[j].id == es[p].comment.parent.value;
    }
  }

  /** Every comment in the dict reaches a top-level comment through its
      parents; one that never does is left out. */
  lemma ThreadReaches(doc: seq<Comment>, c: Comment)
    ensures forall p :: 0 <= p < |Thread(doc)| ==> Reaches(doc, Thread(doc)[p].comment, Thread(doc)[p].level)
    ensures (forall n :: !Reaches(doc, c, n)) ==> forall p :: 0 <= p < |Thread(doc)| ==> Thread(doc)[p].comment != c
  {
    ThreadShape(doc);
    forall p | 0 <= p < |Thread(doc)| ensures Reaches(doc, Thread(doc)[p].comment, Thread(doc)[p].level) {
      NestedReaches(doc, Thread(doc), p);
    }
  }

  // ---------------------------------------------------------------------
  // Order of siblings

  /** The entries at one level, in order. */
  function AtLevel(es: seq<Entry>, level: nat): (r: seq<Entry>)
    ensures |r| <= |es|
    ensures forall k :: 0 <= k < |r| ==> r[k].level == level
  {
    if es == [] then []
    else (if es[0].level == level then [es[0]] else []) + AtLevel(es[1..], level)
  }

  /** The entries of the comments at the given positions at one level, in
      order. */
  function Entries(doc: seq<Comment>, ps: seq<nat>, level: nat): (r: seq<Entry>)
    requires forall k :: 0 <= k < |ps| ==> ps[k] < |doc|
    ensures |r| == |ps|
    ensures forall k :: 0 <= k < |ps| ==> r[k] == EntryOf(doc, ps[k], level)
  {
    if ps == [] then [] else [EntryOf(doc, ps[0], level)] + Entries(doc, ps[1..], level)
  }

  /** Picking a level distributes over runs. */
  lemma {:induction false} AtLevelAppend(a: seq<Entry>, b: seq<Entry>, level: nat)
    ensures AtLevel(a + b, level) == AtLevel(a, level) + AtLevel(b, level)
    decreases |a|
  {
    if a == [] {
      ConcatEmpty(b);
      ConcatEmpty(AtLevel(b, level));
    } else {
      assert (a + b)[0] == a[0];
      assert (a + b)[1..] == a[1..] + b;
      AtLevelAppend(a[1..], b, level);
      ConcatAssoc(if a[0].level == level then [a[0]] else [], AtLevel(a[1..], level), AtLevel(b, level));
    }
  }

  /** Every entry lies deeper than `level`. */
  predicate Below(es: seq<Entry>, level: nat)
  {
    forall p :: 0 <= p < |es| ==> es[p].level > level
  }

  /** A run whose entries all lie below a level has nothing at that
      level. */
  lemma {:induction false} AtLevelBelow(es: seq<Entry>, level: nat)
    requires Below(es, level)
    ensures AtLevel(es, level) == []
    decreases |es|
  {
    if es != [] {
      assert forall p :: 0 <= p < |es[1..]| ==> es[1..][p] == es[p + 1];
      AtLevelBelow(es[1..], level);
    }
  }

  /** A comment with depth left: its entry, then the threads of its
      replies, all deeper. */
  lemma SubtreeDeeper(doc: seq<Comment>, i: nat, level: nat, fuel: nat)
    requires i < |doc|
    ensures Subtree(doc, i, level, fuel + 1)
            == [EntryOf(doc, i, level)] + Forest(doc, Reverse(Children(doc, i)), level + 1, fuel)
    ensures Below(Forest(doc, Reverse(Children(doc, i)), level + 1, fuel), level)
  {
    var kids := Reverse(Children(doc, i));
    ChildrenReplies(doc, i);
    assert forall k :: 0 <= k < |kids| ==> kids[k] == Children(doc, i)[|kids| - 1 - k];
    ForestNested(doc, kids, Some(doc[i].id), level + 1, fuel);
  }

  /** The threads of comments, with depth left, hold at their own level
      exactly those comments, in the given order. */
  lemma {:induction false} ForestTop(doc: seq<Comment>, ps: seq<nat>, level: nat, fuel: nat)
    requires fuel > 0
    requires forall k :: 0 <= k < |ps| ==> ps[k] < |doc|
    ensures AtLevel(Forest(doc, ps, level, fuel), level) == Entries(doc, ps, level)
    decreases |ps|
  {
    if ps != [] {
      var e := EntryOf(doc, ps[0], level);
      var deeper := Forest(doc, Reverse(Children(doc, ps[0])), level + 1, fuel - 1);
      var rest := Forest(doc, ps[1..], level, fuel);
      SubtreeDeeper(doc, ps[0], level, fuel - 1);
      AtLevelBelow(deeper, level);
      AtLevelAppend([e], deeper, level);
      ConcatEmpty([e]);
      AtLevelAppend([e] + deeper, rest, level);
      ForestTop(doc, ps[1..], level, fuel);
    }
  }

  /** The replies of a comment with depth left come right below it in
      reverse document order: each one is put at the front of the worklist
      in turn. */
  lemma SiblingOrder(doc: seq<Comment>, i: nat, level: nat, fuel: nat)
    requires i < |doc| && fuel > 1
    ensures RepliesOf(doc, i, Children(doc, i))
    ensures AtLevel(Subtree(doc, i, level, fuel), level + 1) == Entries(doc, Reverse(Children(doc, i)), level + 1)
  {
    var e := EntryOf(doc, i, level);
    var kids := Reverse(Children(doc, i));
    ChildrenReplies(doc, i);
    SubtreeDeeper(doc, i, level, fuel - 1);
    AtLevelAppend([e], Forest(doc, kids, level + 1, fuel - 1), level + 1);
    ForestTop(doc, kids, level + 1, fuel - 1);
    ConcatEmpty(Entries(doc, kids, level + 1));
  }

  /** The top-level comments come at level 0 in document order. */
  lemma RootOrder(doc: seq<Comment>)
    ensures forall k :: 0 <= k < |Roots(doc)| ==> Roots(doc)[k] < |doc|
    ensures |doc| > 0 ==> AtLevel(Thread(doc), 0) == Entries(doc, Roots(doc), 0)
  {
    SelectSound(doc, None, 0);
    if |doc| > 0 {
      ForestTop(doc, Roots(doc), 0, |doc|);
    }
  }
}
