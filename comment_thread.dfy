/** `_format_for_output` of osc2/cli/comment/comment.py: the comments of
    a listing flattened into an ordered dict for display.  The top-level
    comments start a worklist at level 0; each comment taken from the
    front of the worklist gets its entry, and its replies are put one by
    one at the front of the worklist, one level deeper.  Comments are
    identified by their position in the listing. */
module CommentThread {
  import opened PyStr

  /** A `<comment>` element: its `id`, its `parent` attribute when it has
      one, its `who` and `when` attributes and its text. */
  datatype Comment = Comment(id: Str, parent: Option<Str>, who: Option<Str>, when: Option<Str>, text: Str)

  /** An item of the ordered dict: the key, the comment's `id`, and the
      value's `who`, `when`, `comment` and `level`. */
  datatype Entry = Entry(id: Str, who: Option<Str>, when: Option<Str>, comment: Comment, level: nat)

  /** A worklist item: a comment, by its position in the listing, with its
      level. */
  datatype Item = Item(index: nat, level: nat)

  /** No two comments of the listing share an id. */
  predicate UniqueIds(doc: seq<Comment>)
  {
    forall i, j :: 0 <= i < j < |doc| ==> doc[i].id != doc[j].id
  }

  /** The comments from position `from` on whose `parent` attribute is
      `parent` (absent for `None`), in document order: the queries
      `./comment[not(@parent)]` and `./comment[@parent=id]`. */
  function Select(doc: seq<Comment>, parent: Option<Str>, from: nat): seq<nat>
    requires from <= |doc|
    decreases |doc| - from
  {
    if from == |doc| then []
    else if doc[from].parent == parent then [from] + Select(doc, parent, from + 1)
    else Select(doc, parent, from + 1)
  }

  /** Only comments from `from` on with that `parent` are selected, in
      increasing position. */
  lemma {:induction false} SelectSound(doc: seq<Comment>, parent: Option<Str>, from: nat)
    requires from <= |doc|
    ensures forall k :: 0 <= k < |Select(doc, parent, from)| ==>
              from <= Select(doc, parent, from)[k] < |doc| && doc[Select(doc, parent, from)[k]].parent == parent
    ensures forall k, l :: 0 <= k < l < |Select(doc, parent, from)| ==> Select(doc, parent, from)[k] < Select(doc, parent, from)[l]
    decreases |doc| - from
  {
    if from < |doc| {
      SelectSound(doc, parent, from + 1);
    }
  }

  /** Every comment from `from` on with that `parent` is selected. */
  lemma {:induction false} SelectComplete(doc: seq<Comment>, parent: Option<Str>, from: nat, i: nat)
    requires from <= i < |doc| && doc[i].parent == parent
    ensures i in Select(doc, parent, from)
    decreases |doc| - from
  {
    if from < i {
      SelectComplete(doc, parent, from + 1, i);
    }
  }

  /** The top-level comments, in document order. */
  function Roots(doc: seq<Comment>): seq<nat>
  {
    Select(doc, None, 0)
  }

  /** The replies to the comment at `i`, in document order. */
  function Children(doc: seq<Comment>, i: nat): seq<nat>
    requires i < |doc|
  {
    Select(doc, Some(doc[i].id), 0)
  }

  /** Replies to the comment at `c`, in document order. */
  predicate RepliesOf(doc: seq<Comment>, c: nat, sibs: seq<nat>)
    requires c < |doc|
  {
    (forall k :: 0 <= k < |sibs| ==> sibs[k] < |doc| && doc[sibs[k]].parent == Some(doc[c].id))
    && (forall k, l :: 0 <= k < l < |sibs| ==> sibs[k] < sibs[l])
  }

  /** The replies to a comment are what `RepliesOf` says. */
  lemma ChildrenReplies(doc: seq<Comment>, i: nat)
    requires i < |doc|
    ensures RepliesOf(doc, i, Children(doc, i))
  {
    SelectSound(doc, Some(doc[i].id), 0);
  }

  /** A sequence backwards. */
  function Reverse<T>(s: seq<T>): seq<T>
  {
    seq(|s|, k requires 0 <= k < |s| => s[|s| - 1 - k])
  }

  /** The entry of the comment at `i` at a given level. */
  function EntryOf(doc: seq<Comment>, i: nat, level: nat): Entry
    requires i < |doc|
  {
    Entry(doc[i].id, doc[i].who, doc[i].when, doc[i], level)
  }

  /** The entry of a comment followed by the threads of its replies, the
      later replies first; `fuel` bounds the depth. */
  function Subtree(doc: seq<Comment>, i: nat, level: nat, fuel: nat): seq<Entry>
    decreases fuel, 0
  {
    if fuel == 0 || i >= |doc| then []
    else [EntryOf(doc, i, level)] + Forest(doc, Reverse(Children(doc, i)), level + 1, fuel - 1)
  }

  /** The threads of the given comments, one after the other. */
  function Forest(doc: seq<Comment>, ps: seq<nat>, level: nat, fuel: nat): seq<Entry>
    decreases fuel, |ps|
  {
    if ps == [] then []
    else Subtree(doc, ps[0], level, fuel) + Forest(doc, ps[1..], level, fuel)
  }

  /** The threads of the top-level comments in document order; a listing
      of `n` comments is at most `n` levels deep once ids are unique. */
  function Thread(doc: seq<Comment>): seq<Entry>
  {
    Forest(doc, Roots(doc), 0, |doc|)
  }

  /** The depth left below `level`. */
  function Fuel(doc: seq<Comment>, level: nat): nat
  {
    if level < |doc| then |doc| - level else 0
  }

  /** The entries still to come from a worklist. */
  function Pending(doc: seq<Comment>, items: seq<Item>): seq<Entry>
    decreases |items|
  {
    if items == [] then []
    else Subtree(doc, items[0].index, items[0].level, Fuel(doc, items[0].level)) + Pending(doc, items[1..])
  }

  /** Comments at one level as worklist items. */
  function Items(ps: seq<nat>, level: nat): seq<Item>
  {
    seq(|ps|, k requires 0 <= k < |ps| => Item(ps[k], level))
  }

  /** `d[e.id] = e` on an ordered dict: an existing key keeps its place and
      takes the new value, a new key goes last. */
  function Put(d: seq<Entry>, e: Entry): (r: seq<Entry>)
    ensures (forall p :: 0 <= p < |d| ==> d[p].id != e.id) ==> r == d + [e]
    ensures forall p :: 0 <= p < |d| && d[p].id == e.id && (forall q :: 0 <= q < p ==> d[q].id != e.id) ==>
              r == d[p := e]
    decreases |d|
  {
    if d == [] then [e]
    else if d[0].id == e.id then [e] + d[1..]
    else [d[0]] + Put(d[1..], e)
  }

  // ---------------------------------------------------------------------
  // The worklist against the threads

  /** The entries of a worklist's parts come one part after the other. */
  lemma {:induction false} PendingAppend(doc: seq<Comment>, a: seq<Item>, b: seq<Item>)
    ensures Pending(doc, a + b) == Pending(doc, a) + Pending(doc, b)
    decreases |a|
  {
    if a == [] {
      ConcatEmpty(b);
      ConcatEmpty(Pending(doc, b));
    } else {
      assert (a + b)[0] == a[0];
      assert (a + b)[1..] == a[1..] + b;
      PendingAppend(doc, a[1..], b);
      ConcatAssoc(Subtree(doc, a[0].index, a[0].level, Fuel(doc, a[0].level)), Pending(doc, a[1..]), Pending(doc, b));
    }
  }

  /** Comments at one level as worklist items yield their threads. */
  lemma {:induction false} PendingItems(doc: seq<Comment>, ps: seq<nat>, level: nat)
    ensures Pending(doc, Items(ps, level)) == Forest(doc, ps, level, Fuel(doc, level))
    decreases |ps|
  {
    if ps != [] {
      assert Items(ps, level)[1..] == Items(ps[1..], level);
      PendingItems(doc, ps[1..], level);
    }
  }

  /** An element in front of a part, followed by a rest, is the element in
      front of the part and the rest. */
  lemma Regroup<T>(x: seq<T>, s: seq<T>, r: seq<T>, e: T, f: seq<T>, q: seq<T>)
    requires x == s + r && s == [e] + f && q == f + r
    ensures x == [e] + q
  {
    ConcatAssoc([e], f, r);
  }

  /** The front item's thread comes before those of the rest. */
  lemma PendingCons(doc: seq<Comment>, c: Item, rest: seq<Item>)
    ensures Pending(doc, [c] + rest) == Subtree(doc, c.index, c.level, Fuel(doc, c.level)) + Pending(doc, rest)
  {
    assert ([c] + rest)[1..] == rest;
  }

  /** A comment with depth left: its entry, then the threads of its
      replies, the later replies first. */
  lemma SubtreeUnfold(doc: seq<Comment>, i: nat, level: nat, kids: seq<nat>)
    requires i < |doc| && level < |doc|
    requires kids == Reverse(Children(doc, i))
    ensures Subtree(doc, i, level, Fuel(doc, level))
            == [EntryOf(doc, i, level)] + Forest(doc, kids, level + 1, Fuel(doc, level + 1))
  {
    assert Fuel(doc, level) == Fuel(doc, level + 1) + 1;
  }

  /** Taking the front item of the worklist: its entry comes first, then
      the threads of its replies, the later replies first, then the rest. */
  lemma PendingPop(doc: seq<Comment>, c: Item, rest: seq<Item>, kids: seq<nat>)
    requires c.index < |doc| && c.level < |doc|
    requires kids == Reverse(Children(doc, c.index))
    ensures Pending(doc, [c] + rest)
            == [EntryOf(doc, c.index, c.level)] + Pending(doc, Items(kids, c.level + 1) + rest)
  {
    var front := Items(kids, c.level + 1);
    PendingCons(doc, c, rest);
    SubtreeUnfold(doc, c.index, c.level, kids);
    PendingItems(doc, kids, c.level + 1);
    PendingAppend(doc, front, rest);
    Regroup(Pending(doc, [c] + rest), Subtree(doc, c.index, c.level, Fuel(doc, c.level)), Pending(doc, rest),
            EntryOf(doc, c.index, c.level), Pending(doc, front), Pending(doc, front + rest));
  }

  /** The replies pushed one by one to the front of the worklist end up
      there in reverse order. */
  lemma PushReply(kids: seq<nat>, k: nat, level: nat, rest: seq<Item>)
    requires k < |kids|
    ensures [Item(kids[k], level)] + (Items(Reverse(kids[..k]), level) + rest)
            == Items(Reverse(kids[..k + 1]), level) + rest
  {
    assert kids[..k + 1][..k] == kids[..k];
    assert Items(Reverse(kids[..k + 1]), level) == [Item(kids[k], level)] + Items(Reverse(kids[..k]), level);
  }

  // ---------------------------------------------------------------------
  // Termination and uniqueness of the worklist

  /** The comment at `x` is top-level, or the comment it replies to has
      been visited. */
  ghost predicate ParentIn(doc: seq<Comment>, x: nat, visited: set<nat>)
    requires x < |doc|
  {
    doc[x].parent.None? || exists k :: k in visited && k < |doc| && doc[k].id == doc[x].parent.value
  }

  /** Worklist items in the listing and unvisited, no deeper than the
      number of visited comments, each top-level or replying to a visited
      comment. */
  ghost predicate Waiting(doc: seq<Comment>, visited: set<nat>, items: seq<Item>)
  {
    forall a :: 0 <= a < |items| ==>
      items[a].index < |doc| && items[a].index !in visited
      && items[a].level <= |visited| && ParentIn(doc, items[a].index, visited)
  }

  /** No comment waits twice. */
  predicate Distinct(items: seq<Item>)
  {
    forall a, b :: 0 <= a < b < |items| ==> items[a].index != items[b].index
  }

  /** No comment waits in both worklists. */
  predicate Disjoint(items: seq<Item>, others: seq<Item>)
  {
    forall a, b :: 0 <= a < |items| && 0 <= b < |others| ==> items[a].index != others[b].index
  }

  /** The visited comments and the worklist: each visited comment is
      top-level or replies to a visited comment, and the worklist is
      waiting and holds each comment once. */
  ghost predicate Frontier(doc: seq<Comment>, visited: set<nat>, items: seq<Item>)
  {
    UniqueIds(doc)
    && (forall x :: x in visited ==> x < |doc| && ParentIn(doc, x, visited))
    && Waiting(doc, visited, items)
    && Distinct(items)
  }

  /** A set of positions below `n` has at most `n` elements. */
  lemma {:induction false} RangeCard(s: set<nat>, n: nat)
    requires forall x :: x in s ==> x < n
    ensures |s| <= n
    decreases n
  {
    if n > 0 {
      RangeCard(s - {n - 1}, n - 1);
    } else {
      assert s == {};
    }
  }

  /** A reply to the comment at `c` can only be waiting or visited once `c`
      is visited. */
  lemma ReplyNotSeen(doc: seq<Comment>, visited: set<nat>, c: nat, x: nat)
    requires UniqueIds(doc) && c < |doc| && x < |doc| && c !in visited
    requires doc[x].parent == Some(doc[c].id)
    ensures !ParentIn(doc, x, visited)
  {
    forall k | k in visited && k < |doc| ensures doc[k].id != doc[x].parent.value {
      assert k != c;
    }
  }

  /** Visiting more comments keeps a parent visited. */
  lemma ParentInGrows(doc: seq<Comment>, x: nat, visited: set<nat>, c: nat)
    requires x < |doc| && ParentIn(doc, x, visited)
    ensures ParentIn(doc, x, visited + {c})
  {
  }

  /** The front item is shallower than the listing is long. */
  lemma FrontLevel(doc: seq<Comment>, visited: set<nat>, items: seq<Item>)
    requires Frontier(doc, visited, items) && items != []
    ensures items[0].level < |doc|
  {
    RangeCard(visited + {items[0].index}, |doc|);
  }

  /** Two waiting worklists, one after the other, are waiting. */
  lemma WaitingAppend(doc: seq<Comment>, visited: set<nat>, a: seq<Item>, b: seq<Item>)
    requires Waiting(doc, visited, a) && Waiting(doc, visited, b)
    ensures Waiting(doc, visited, a + b)
  {
    forall k | 0 <= k < |a + b|
      ensures (a + b)[k].index < |doc| && (a + b)[k].index !in visited
      ensures (a + b)[k].level <= |visited| && ParentIn(doc, (a + b)[k].index, visited)
    {
      if k >= |a| {
        assert (a + b)[k] == b[k - |a|];
      }
    }
  }

  /** Two worklists without repeats and without a shared comment make one
      without repeats. */
  lemma DistinctAppend(a: seq<Item>, b: seq<Item>)
    requires Distinct(a) && Distinct(b) && Disjoint(a, b)
    ensures Distinct(a + b)
  {
    forall i, j | 0 <= i < j < |a + b| ensures (a + b)[i].index != (a + b)[j].index {
      if j < |a| {
      } else if i < |a| {
        assert (a + b)[j] == b[j - |a|];
      } else {
        assert (a + b)[i] == b[i - |a|] && (a + b)[j] == b[j - |a|];
      }
    }
  }

  /** Replies in document order, pushed in reverse, hold each comment
      once. */
  lemma RepliesDistinct(sibs: seq<nat>, level: nat)
    requires forall k, l :: 0 <= k < l < |sibs| ==> sibs[k] < sibs[l]
    ensures Distinct(Items(Reverse(sibs), level))
  {
    var items := Items(Reverse(sibs), level);
    forall a, b | 0 <= a < b < |items| ensures items[a].index != items[b].index {
      assert items[a].index == sibs[|sibs| - 1 - a] && items[b].index == sibs[|sibs| - 1 - b];
    }
  }

  /** The replies of the front comment wait once it is visited, and are
      not waiting already. */
  lemma RepliesWaiting(doc: seq<Comment>, visited: set<nat>, items: seq<Item>, sibs: seq<nat>)
    requires Frontier(doc, visited, items) && items != []
    requires items[0].index < |doc| && RepliesOf(doc, items[0].index, sibs)
    ensures Waiting(doc, visited + {items[0].index}, Items(Reverse(sibs), items[0].level + 1))
    ensures Disjoint(Items(Reverse(sibs), items[0].level + 1), items[1..])
  {
    var c := items[0].index;
    var kids := Items(Reverse(sibs), items[0].level + 1);
    assert ParentIn(doc, c, visited);
    assert |visited + {c}| == |visited| + 1;
    forall a | 0 <= a < |kids|
      ensures kids[a].index < |doc| && kids[a].index !in visited + {c}
      ensures kids[a].level <= |visited + {c}| && ParentIn(doc, kids[a].index, visited + {c})
      ensures forall b :: 0 <= b < |items[1..]| ==> kids[a].index != items[1..][b].index
    {
      var x := sibs[|sibs| - 1 - a];
      assert kids[a] == Item(x, items[0].level + 1);
      ReplyNotSeen(doc, visited, c, x);
      assert doc[c].id == doc[x].parent.value;
      forall b | 0 <= b < |items[1..]| ensures items[1..][b].index != x {
        assert items[1..][b] == items[b + 1];
        assert ParentIn(doc, items[b + 1].index, visited);
      }
    }
  }

  /** The rest of the worklist still waits once the front comment is
      visited. */
  lemma RestWaiting(doc: seq<Comment>, visited: set<nat>, items: seq<Item>)
    requires Frontier(doc, visited, items) && items != []
    ensures Waiting(doc, visited + {items[0].index}, items[1..])
    ensures Distinct(items[1..])
  {
    var v' := visited + {items[0].index};
    forall a | 0 <= a < |items[1..]|
      ensures items[1..][a].index < |doc| && items[1..][a].index !in v'
      ensures items[1..][a].level <= |v'| && ParentIn(doc, items[1..][a].index, v')
    {
      assert items[1..][a] == items[a + 1];
      ParentInGrows(doc, items[a + 1].index, visited, items[0].index);
    }
  }

  /** Taking the front item keeps the visited comments' parents visited. */
  lemma VisitedPop(doc: seq<Comment>, visited: set<nat>, items: seq<Item>)
    requires Frontier(doc, visited, items) && items != []
    ensures forall x :: x in visited + {items[0].index} ==> x < |doc| && ParentIn(doc, x, visited + {items[0].index})
  {
    forall x | x in visited + {items[0].index} ensures x < |doc| && ParentIn(doc, x, visited + {items[0].index}) {
      ParentInGrows(doc, x, visited, items[0].index);
    }
  }

  /** Taking the front item and pushing its replies keeps the frontier. */
  lemma FrontierPop(doc: seq<Comment>, visited: set<nat>, items: seq<Item>, sibs: seq<nat>)
    requires Frontier(doc, visited, items) && items != []
    requires items[0].index < |doc| && RepliesOf(doc, items[0].index, sibs)
    ensures Frontier(doc, visited + {items[0].index}, Items(Reverse(sibs), items[0].level + 1) + items[1..])
  {
    var v' := visited + {items[0].index};
    var kids := Items(Reverse(sibs), items[0].level + 1);
    VisitedPop(doc, visited, items);
    RepliesWaiting(doc, visited, items, sibs);
    RestWaiting(doc, visited, items);
    RepliesDistinct(sibs, items[0].level + 1);
    WaitingAppend(doc, v', kids, items[1..]);
    DistinctAppend(kids, items[1..]);
  }

  /** The keys of the dict are the ids of the visited comments, each once. */
  ghost predicate Keys(doc: seq<Comment>, visited: set<nat>, out: seq<Entry>)
  {
    (forall p :: 0 <= p < |out| ==> exists x :: x in visited && x < |doc| && out[p].id == doc[x].id)
    && (forall p, q :: 0 <= p < q < |out| ==> out[p].id != out[q].id)
  }

  /** The entry of an unvisited comment goes last under a new key. */
  lemma KeysPut(doc: seq<Comment>, visited: set<nat>, out: seq<Entry>, c: nat, level: nat)
    requires UniqueIds(doc) && Keys(doc, visited, out) && c < |doc| && c !in visited
    ensures Put(out, EntryOf(doc, c, level)) == out + [EntryOf(doc, c, level)]
    ensures Keys(doc, visited + {c}, out + [EntryOf(doc, c, level)])
  {
    forall p | 0 <= p < |out| ensures out[p].id != doc[c].id {
      var x :| x in visited && x < |doc| && out[p].id == doc[x].id;
      assert x != c;
    }
    var out' := out + [EntryOf(doc, c, level)];
    forall p | 0 <= p < |out'| ensures exists x :: x in visited + {c} && x < |doc| && out'[p].id == doc[x].id {
      if p == |out| {
        assert out'[p].id == doc[c].id;
      } else {
        assert out'[p] == out[p];
        var x :| x in visited && x < |doc| && out[p].id == doc[x].id;
        assert x in visited + {c};
      }
    }
  }

  /** One round of the loop: the front comment's entry goes last in the
      dict under a new key, and its replies wait in front of the rest. */
  lemma Advance(doc: seq<Comment>, visited: set<nat>, out: seq<Entry>, items: seq<Item>, sibs: seq<nat>)
    requires Frontier(doc, visited, items) && Keys(doc, visited, out) && items != []
    requires items[0].index < |doc| && sibs == Children(doc, items[0].index)
    ensures items[0].level < |doc|
    ensures Put(out, EntryOf(doc, items[0].index, items[0].level)) == out + [EntryOf(doc, items[0].index, items[0].level)]
    ensures Frontier(doc, visited + {items[0].index}, Items(Reverse(sibs), items[0].level + 1) + items[1..])
    ensures Keys(doc, visited + {items[0].index}, out + [EntryOf(doc, items[0].index, items[0].level)])
  {
    FrontLevel(doc, visited, items);
    ChildrenReplies(doc, items[0].index);
    FrontierPop(doc, visited, items, sibs);
    KeysPut(doc, visited, out, items[0].index, items[0].level);
  }

  /** One round of the loop moves the front comment's entry from the
      entries still to come to the end of the dict. */
  lemma Shrink(doc: seq<Comment>, out: seq<Entry>, items: seq<Item>, kids: seq<nat>)
    requires items != [] && items[0].index < |doc| && items[0].level < |doc|
    requires kids == Reverse(Children(doc, items[0].index))
    ensures out + Pending(doc, items)
            == (out + [EntryOf(doc, items[0].index, items[0].level)]) + Pending(doc, Items(kids, items[0].level + 1) + items[1..])
    ensures |Pending(doc, Items(kids, items[0].level + 1) + items[1..])| < |Pending(doc, items)|
  {
    assert items == [items[0]] + items[1..];
    PendingPop(doc, items[0], items[1..], kids);
    ConcatAssoc(out, [EntryOf(doc, items[0].index, items[0].level)], Pending(doc, Items(kids, items[0].level + 1) + items[1..]));
  }

  /** A whole round of the loop keeps its invariants, and the entries
      still to come get fewer. */
  lemma Step(doc: seq<Comment>, visited: set<nat>, out: seq<Entry>, items: seq<Item>, sibs: seq<nat>,
             out': seq<Entry>, items': seq<Item>)
    requires Frontier(doc, visited, items) && Keys(doc, visited, out) && items != []
    requires Thread(doc) == out + Pending(doc, items)
    requires items[0].index < |doc| && sibs == Children(doc, items[0].index)
    requires out' == Put(out, EntryOf(doc, items[0].index, items[0].level))
    requires items' == Items(Reverse(sibs), items[0].level + 1) + items[1..]
    ensures Frontier(doc, visited + {items[0].index}, items')
    ensures Keys(doc, visited + {items[0].index}, out')
    ensures Thread(doc) == out' + Pending(doc, items')
    ensures |Pending(doc, items')| < |Pending(doc, items)|
  {
    Advance(doc, visited, out, items, sibs);
    Shrink(doc, out, items, Reverse(sibs));
  }

  /** The top-level comments start the worklist at level 0, before any
      entry. */
  lemma Start(doc: seq<Comment>)
    requires UniqueIds(doc)
    ensures Frontier(doc, {}, Items(Roots(doc), 0))
    ensures Keys(doc, {}, [])
    ensures Thread(doc) == [] + Pending(doc, Items(Roots(doc), 0))
  {
    var roots := Roots(doc);
    SelectSound(doc, None, 0);
    var items := Items(roots, 0);
    forall a, b | 0 <= a < b < |items| ensures items[a].index != items[b].index {
      assert items[a].index == roots[a] && items[b].index == roots[b];
    }
    PendingItems(doc, roots, 0);
    ConcatEmpty(Pending(doc, Items(roots, 0)));
  }

  /** `comments[:0] = [(child, level + 1)]` for each reply in turn: the
      replies end up in front of the worklist, the last reply first. */
  method PushReplies(comments: seq<Item>, children: seq<nat>, level: nat) returns (r: seq<Item>)
    ensures r == Items(Reverse(children), level) + comments
  {
    r := comments;
    var k := 0;
    while k < |children|
      invariant 0 <= k <= |children|
      invariant r == Items(Reverse(children[..k]), level) + comments
    {
      PushReply(children, k, level, comments);
      r := [Item(children[k], level)] + r;
      k := k + 1;
    }
    assert children[..k] == children;
  }

  /** `_format_for_output(result)`: the ordered dict of the listing's
      comments laid out as `Thread` says, no id twice. */
  method FormatForOutput(doc: seq<Comment>) returns (out: seq<Entry>)
    requires UniqueIds(doc)
    ensures out == Thread(doc)
    ensures forall p, q :: 0 <= p < q < |out| ==> out[p].id != out[q].id
  {
    out := [];
    var roots := Roots(doc);
    var comments := Items(roots, 0);
    ghost var visited: set<nat> := {};
    Start(doc);
    while comments != []
      invariant Frontier(doc, visited, comments)
      invariant Keys(doc, visited, out)
      invariant Thread(doc) == out + Pending(doc, comments)
      decreases |Pending(doc, comments)|
    {
      var comment := comments[0];
      var children := Children(doc, comment.index);
      ghost var items, before := comments, out;
      comments := comments[1..];
      out := Put(out, EntryOf(doc, comment.index, comment.level));
      comments := PushReplies(comments, children, comment.level + 1);
      Step(doc, visited, before, items, children, out, comments);
      visited := visited + {comment.index};
    }
    ConcatEmpty(out);
  }
}
