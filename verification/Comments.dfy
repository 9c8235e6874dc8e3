/**
  The discussion tree on a full node: every comment's children field counts all
  its descendants (comment_evaluator and delete_comment_evaluator in
  libraries/chain/wls_evaluator.cpp, retally_comment_children in
  libraries/chain/database.cpp).
 */
module Comments {
  import opened Options

  const ROOT_POST_PARENT: string := ""
  const MAX_COMMENT_DEPTH: nat := 0xffff

  datatype Key = Key(author: string, permlink: string)

  /** A comment as far as the tree is concerned; open means its cashout is still to come. */
  datatype Comment = Comment(
    parentAuthor: string,
    parentPermlink: string,
    depth: nat,
    root: Key,
    children: nat,
    open: bool,
    netRshares: int)

  type Tree = map<Key, Comment>

  ghost function ParentOf(c: Comment): Option<Key>
  {
    if c.parentAuthor == ROOT_POST_PARENT then None else Some(Key(c.parentAuthor, c.parentPermlink))
  }

  /** Every reply's parent is present, one level up, under the same root post. */
  ghost predicate Linked(m: Tree)
  {
    forall k {:trigger Fits(m, k)} :: k in m ==> Fits(m, k)
  }

  ghost predicate Fits(m: Tree, k: Key)
    requires k in m
  {
    match ParentOf(m[k])
    case None => m[k].depth == 0 && m[k].root == k
    case Some(p) => p in m && m[p].depth + 1 == m[k].depth <= MAX_COMMENT_DEPTH && m[k].root == m[p].root
  }

  /** x is a direct or indirect reply to k. */
  ghost predicate Below(m: Tree, x: Key, k: Key)
    requires Linked(m) && x in m
    decreases m[x].depth
  {
    assert Fits(m, x);
    match ParentOf(m[x])
    case None => false
    case Some(p) => p == k || Below(m, p, k)
  }

  /** k is x itself or one of the comments x replies to. */
  ghost predicate OnPath(m: Tree, x: Option<Key>, k: Key)
    requires Linked(m) && (x.Some? ==> x.value in m)
  {
    x.Some? && (x.value == k || Below(m, x.value, k))
  }

  ghost function Descendants(m: Tree, k: Key): set<Key>
    requires Linked(m)
  {
    set x | x in m && Below(m, x, k)
  }

  ghost predicate Counted(m: Tree)
    requires Linked(m)
  {
    forall k :: k in m ==> m[k].children == |Descendants(m, k)|
  }

  lemma {:induction false} BelowIsDeeper(m: Tree, x: Key, k: Key)
    requires Linked(m) && x in m && Below(m, x, k)
    ensures k in m && m[k].depth < m[x].depth && m[k].root == m[x].root
    decreases m[x].depth
  {
    assert Fits(m, x);
    var p := ParentOf(m[x]).value;
    if p != k {
      BelowIsDeeper(m, p, k);
    }
  }

  /** The root post a comment names exists, is a root, and every comment of the tree is below it. */
  lemma {:induction false} RootExists(m: Tree, k: Key)
    requires Linked(m) && k in m
    ensures m[k].root in m && ParentOf(m[m[k].root]) == None
    ensures m[k].root == k || Below(m, k, m[k].root)
    decreases m[k].depth
  {
    assert Fits(m, k);
    if ParentOf(m[k]).Some? {
      RootExists(m, ParentOf(m[k]).value);
    }
  }

  /** The ancestors of a comment are the same in any tree that extends this one. */
  lemma {:induction false} BelowSame(m: Tree, n: Tree, x: Key, k: Key)
    requires Linked(m) && Linked(n) && x in m
    requires forall y :: y in m ==> y in n && ParentOf(n[y]) == ParentOf(m[y])
    ensures Below(m, x, k) == Below(n, x, k)
    decreases m[x].depth
  {
    assert Fits(m, x) && Fits(n, x);
    if ParentOf(m[x]).Some? {
      BelowSame(m, n, ParentOf(m[x]).value, k);
    }
  }

  lemma SamePath(m: Tree, n: Tree, x: Option<Key>, k: Key)
    requires Linked(m) && Linked(n) && (x.Some? ==> x.value in m)
    requires forall y :: y in m ==> y in n && ParentOf(n[y]) == ParentOf(m[y])
    ensures OnPath(m, x, k) == OnPath(n, x, k)
  {
    if x.Some? {
      BelowSame(m, n, x.value, k);
    }
  }

  /** Only the counts differ. */
  ghost predicate SameLinks(m: Tree, n: Tree)
  {
    m.Keys == n.Keys && forall k :: k in m ==> n[k] == m[k].(children := n[k].children)
  }

  lemma SameDescendants(m: Tree, n: Tree, k: Key)
    requires Linked(m) && SameLinks(m, n)
    ensures Linked(n) && Descendants(n, k) == Descendants(m, k)
  {
    LinkedSame(m, n);
    forall x | x in m
      ensures Below(m, x, k) == Below(n, x, k)
    {
      BelowSame(m, n, x, k);
    }
  }

  lemma LinkedSame(m: Tree, n: Tree)
    requires Linked(m) && SameLinks(m, n)
    ensures Linked(n)
  {
    forall k | k in n
      ensures Fits(n, k)
    {
      assert Fits(m, k);
    }
  }

  /** A new reply is below what it replies to and below nothing else; nothing is below it. */
  lemma GrownDescendants(m: Tree, key: Key, c: Comment, k: Key)
    requires Linked(m) && key !in m && Linked(m[key := c])
    requires ParentOf(c).Some? ==> ParentOf(c).value in m
    ensures Descendants(m[key := c], k)
      == Descendants(m, k) + (if OnPath(m, ParentOf(c), k) then {key} else {})
    ensures k == key ==> Descendants(m[key := c], k) == {}
  {
    var n := m[key := c];
    forall x | x in m
      ensures Below(m, x, k) == Below(n, x, k)
    {
      BelowSame(m, n, x, k);
    }
    if ParentOf(c).Some? {
      BelowSame(m, n, ParentOf(c).value, k);
    }
    assert Below(n, key, k) == OnPath(m, ParentOf(c), k);
    if k == key {
      forall x | x in m
        ensures !Below(m, x, key)
      {
        if Below(m, x, key) {
          BelowIsDeeper(m, x, key);
        }
      }
    }
  }

  /** Taking a leaf away is the reverse. */
  lemma LeafRemoved(m: Tree, key: Key)
    requires Linked(m) && key in m && Descendants(m, key) == {}
    ensures Linked(m - {key})
  {
    forall k | k in m && k != key
      ensures Fits(m - {key}, k)
    {
      assert Fits(m, k);
      assert k !in Descendants(m, key);
    }
  }

  /** One step up the path. */
  lemma PathStep(m: Tree, x: Key, k: Key)
    requires Linked(m) && x in m
    ensures Fits(m, x)
    ensures OnPath(m, Some(x), k) <==> k == x || OnPath(m, ParentOf(m[x]), k)
    ensures !OnPath(m, ParentOf(m[x]), x)
  {
    assert Fits(m, x);
    if Below(m, x, x) {
      BelowIsDeeper(m, x, x);
    }
  }

  /** From m to n the comments on the path of start changed their counts, and nothing else did. */
  ghost predicate Shifted(m: Tree, n: Tree, start: Option<Key>, change: int)
    requires Linked(m) && (start.Some? ==> start.value in m)
  {
    SameLinks(m, n)
    && forall k :: k in m ==> n[k].children == m[k].children + (if OnPath(m, start, k) then change else 0)
  }

  /** The walk from start has come as far as current. */
  ghost predicate Walked(m: Tree, n: Tree, start: Option<Key>, current: Option<Key>, change: int)
    requires Linked(m) && (start.Some? ==> start.value in m) && (current.Some? ==> current.value in m)
  {
    SameLinks(m, n)
    && forall k :: k in m ==>
         n[k].children + (if OnPath(m, current, k) then change else 0)
         == m[k].children + (if OnPath(m, start, k) then change else 0)
  }

  /** Every comment but key is as it was, except for the counts on the path of start. */
  ghost predicate Around(m: Tree, n: Tree, start: Option<Key>, change: int, key: Key)
    requires Linked(m)
  {
    (start.Some? ==> start.value in m)
    && forall k :: k in m && k != key ==>
         k in n && n[k] == m[k].(children := n[k].children)
         && n[k].children == m[k].children + (if OnPath(m, start, k) then change else 0)
  }

  lemma PostAround(m: Tree, key: Key, c: Comment, n: Tree)
    requires Linked(m) && key !in m && Linked(m[key := c]) && (ParentOf(c).Some? ==> ParentOf(c).value in m)
    requires Shifted(m[key := c], n, ParentOf(c), 1)
    ensures Around(m, n, ParentOf(c), 1, key) && n[key] == c
  {
    hide Linked, Below;
    PathStep(m[key := c], key, key);
    forall k | k in m
      ensures OnPath(m, ParentOf(c), k) == OnPath(m[key := c], ParentOf(c), k)
    {
      SamePath(m, m[key := c], ParentOf(c), k);
    }
  }

  lemma DeleteAround(m: Tree, key: Key, n: Tree)
    requires Linked(m) && key in m && (ParentOf(m[key]).Some? ==> ParentOf(m[key]).value in m)
    requires Shifted(m, n, ParentOf(m[key]), -1)
    ensures Around(m, n - {key}, ParentOf(m[key]), -1, key)
  {
    hide Linked, Below, OnPath;
  }

  /** Everything on the path has a count to take from. */
  ghost predicate Takeable(m: Tree, start: Option<Key>)
    requires Linked(m) && (start.Some? ==> start.value in m)
  {
    forall k :: k in m && OnPath(m, start, k) ==> m[k].children > 0
  }

  lemma WalkStart(m: Tree, start: Option<Key>, change: int)
    requires Linked(m) && (start.Some? ==> start.value in m)
    ensures Walked(m, m, start, start, change)
  {
  }

  lemma WalkStep(m: Tree, n: Tree, start: Option<Key>, key: Key, change: int)
    requires Linked(m) && (start.Some? ==> start.value in m) && key in m
    requires Walked(m, n, start, Some(key), change)
    requires change == 1 || (change == -1 && Takeable(m, start))
    ensures key in n && n[key].children + change >= 0 && ParentOf(n[key]) == ParentOf(m[key])
    ensures n.Keys == m.Keys
    ensures ParentOf(m[key]).Some? ==>
      ParentOf(m[key]).value in m && m[ParentOf(m[key]).value].depth < m[key].depth
    ensures Walked(m, n[key := n[key].(children := n[key].children + change)], start, ParentOf(m[key]), change)
  {
    hide Below, Linked, OnPath;
    PathStep(m, key, key);
    var after := n[key := n[key].(children := n[key].children + change)];
    forall k | k in m
      ensures after[k].children + (if OnPath(m, ParentOf(m[key]), k) then change else 0)
        == m[k].children + (if OnPath(m, start, k) then change else 0)
    {
      PathStep(m, key, k);
    }
  }

  lemma WalkEnd(m: Tree, n: Tree, start: Option<Key>, change: int)
    requires Linked(m) && (start.Some? ==> start.value in m)
    requires Walked(m, n, start, None, change)
    ensures Linked(n) && Shifted(m, n, start, change)
  {
    LinkedSame(m, n);
  }

  lemma ParentPresent(m: Tree, k: Key)
    requires Linked(m) && k in m
    ensures ParentOf(m[k]).Some? ==> ParentOf(m[k]).value in m
  {
    assert Fits(m, k);
  }

  /** A root post, or a reply one level below a comment that is there. */
  ghost predicate Placed(m: Tree, key: Key, c: Comment)
  {
    match ParentOf(c)
    case None => c.depth == 0 && c.root == key
    case Some(p) => p in m && m[p].depth + 1 == c.depth <= MAX_COMMENT_DEPTH && c.root == m[p].root
  }

  lemma GrownLinked(m: Tree, key: Key, c: Comment)
    requires Linked(m) && key !in m && Placed(m, key, c)
    ensures Linked(m[key := c])
  {
    var n := m[key := c];
    forall k | k in n
      ensures Fits(n, k)
    {
      assert k in m ==> Fits(m, k);
    }
  }

  /** Posting keeps the counts right. */
  lemma PostKeepsCounts(m: Tree, key: Key, c: Comment, n: Tree)
    requires Linked(m) && Counted(m) && key !in m && Linked(m[key := c]) && c.children == 0
    requires ParentOf(c).Some? ==> ParentOf(c).value in m
    requires Shifted(m[key := c], n, ParentOf(c), 1)
    ensures Linked(n) && Counted(n) && n.Keys == m.Keys + {key}
    ensures n[key].children == 0 && ParentOf(n[key]) == ParentOf(c)
  {
    LinkedSame(m[key := c], n);
    forall k | k in n
      ensures n[k].children == |Descendants(n, k)| && (k == key ==> n[k].children == 0)
    {
      PostCount(m, key, c, n, k);
    }
  }

  lemma PostCount(m: Tree, key: Key, c: Comment, n: Tree, k: Key)
    requires Linked(m) && Counted(m) && key !in m && Linked(m[key := c]) && c.children == 0
    requires ParentOf(c).Some? ==> ParentOf(c).value in m
    requires Shifted(m[key := c], n, ParentOf(c), 1) && Linked(n) && k in n
    ensures n[k].children == |Descendants(n, k)|
    ensures k == key ==> n[k].children == 0
  {
    hide Below, Linked;
    var grown := m[key := c];
    GrownDescendants(m, key, c, k);
    SameDescendants(grown, n, k);
    SamePath(m, grown, ParentOf(c), k);
    if k == key {
      PathStep(grown, key, key);
    }
    assert key !in Descendants(m, k);
  }

  /** Every comment a leaf replies to counts it. */
  lemma LeafIsCounted(m: Tree, key: Key)
    requires Linked(m) && Counted(m) && key in m
    ensures ParentOf(m[key]).Some? ==> ParentOf(m[key]).value in m - {key}
    ensures Takeable(m, ParentOf(m[key]))
    ensures m[key].children == 0 <==> forall k :: k in m ==> !Below(m, k, key)
  {
    assert Fits(m, key);
    forall k | k in m && OnPath(m, ParentOf(m[key]), k)
      ensures m[k].children > 0
    {
      assert key in Descendants(m, k);
    }
    assert forall k :: k in m ==> (k in Descendants(m, key) <==> Below(m, k, key));
  }

  /** Deleting a leaf keeps the counts right. */
  lemma DeleteKeepsCounts(m: Tree, key: Key, n: Tree)
    requires Linked(m) && Counted(m) && key in m && m[key].children == 0
    requires ParentOf(m[key]).Some? ==> ParentOf(m[key]).value in m - {key}
    requires Shifted(m, n, ParentOf(m[key]), -1)
    ensures Linked(n - {key}) && Counted(n - {key})
  {
    assert Descendants(m, key) == {};
    LeafRemoved(m, key);
    assert SameLinks(m - {key}, n - {key});
    LinkedSame(m - {key}, n - {key});
    forall k | k in n - {key}
      ensures (n - {key})[k].children == |Descendants(n - {key}, k)|
    {
      DeleteCount(m, key, n, k);
    }
  }

  lemma DeletedAt(m: Tree, n: Tree, key: Key, k: Key)
    requires Linked(m) && Counted(m) && key in m && k in m && (ParentOf(m[key]).Some? ==> ParentOf(m[key]).value in m)
    requires Shifted(m, n, ParentOf(m[key]), -1)
    ensures k in n && n[k].children == |Descendants(m, k)| - (if OnPath(m, ParentOf(m[key]), k) then 1 else 0)
  {
    hide Below, Linked, Descendants, OnPath;
  }

  lemma DeleteCount(m: Tree, key: Key, n: Tree, k: Key)
    requires Linked(m) && Counted(m) && key in m && Linked(m - {key}) && k in m && k != key
    requires ParentOf(m[key]).Some? ==> ParentOf(m[key]).value in m - {key}
    requires Shifted(m, n, ParentOf(m[key]), -1) && SameLinks(m - {key}, n - {key}) && Linked(n - {key})
    ensures n[k].children == |Descendants(n - {key}, k)|
  {
    hide Below, Linked, Descendants, OnPath, SameLinks, Counted, Shifted;
    var c, less := m[key], m - {key};
    assert m == less[key := c];
    DeletedAt(m, n, key, k);
    GrownDescendants(less, key, c, k);
    SameDescendants(less, n - {key}, k);
    SamePath(less, m, ParentOf(c), k);
    DescendantsPresent(less, k);
    assert key !in Descendants(less, k);
  }

  lemma SettleKeepsCounts(m: Tree, key: Key, c: Comment)
    requires Linked(m) && Counted(m) && key in m
    requires c == m[key].(netRshares := c.netRshares, open := c.open)
    ensures Linked(m[key := c]) && Counted(m[key := c])
  {
    var n := m[key := c];
    assert forall y :: y in m ==> ParentOf(n[y]) == ParentOf(m[y]);
    forall k | k in n
      ensures Fits(n, k)
    {
      assert Fits(m, k);
    }
    forall k | k in n
      ensures n[k].children == |Descendants(n, k)|
    {
      forall x | x in m
        ensures Below(m, x, k) == Below(n, x, k)
      {
        BelowSame(m, n, x, k);
      }
      assert Descendants(n, k) == Descendants(m, k);
    }
  }

  /** The recount has seen the comments in done. */
  ghost predicate Recounted(m: Tree, n: Tree, done: set<Key>)
    requires Linked(m)
  {
    SameLinks(m, n) && forall k :: k in m ==> n[k].children == |Descendants(m, k) * done|
  }

  lemma RecountStep(m: Tree, n: Tree, after: Tree, done: set<Key>, x: Key)
    requires Linked(m) && Linked(n) && x in m && x !in done && Recounted(m, n, done)
    requires x in n && (ParentOf(n[x]).Some? ==> ParentOf(n[x]).value in n)
    requires Shifted(n, after, ParentOf(n[x]), 1)
    ensures Recounted(m, after, done + {x}) && after.Keys == m.Keys
  {
    forall k | k in m
      ensures after[k].children == |Descendants(m, k) * (done + {x})|
    {
      RecountOne(m, n, after, done, x, k);
    }
  }

  lemma RecountOne(m: Tree, n: Tree, after: Tree, done: set<Key>, x: Key, k: Key)
    requires Linked(m) && Linked(n) && x in m && x !in done && Recounted(m, n, done) && k in m
    requires x in n && (ParentOf(n[x]).Some? ==> ParentOf(n[x]).value in n)
    requires Shifted(n, after, ParentOf(n[x]), 1)
    ensures after[k].children == |Descendants(m, k) * (done + {x})|
  {
    hide Below, Linked, Descendants, OnPath;
    SameDescendants(m, n, k);
    PathFromBelow(n, x, k);
    MeetOneMore(Descendants(m, k), done, x);
  }

  lemma PathFromBelow(m: Tree, x: Key, k: Key)
    requires Linked(m) && x in m
    ensures ParentOf(m[x]).Some? ==> ParentOf(m[x]).value in m
    ensures x in Descendants(m, k) <==> OnPath(m, ParentOf(m[x]), k)
  {
    assert Fits(m, x);
  }

  lemma OneLess(keys: set<Key>, rest: set<Key>, x: Key)
    requires x in rest && rest <= keys
    ensures keys - (rest - {x}) == (keys - rest) + {x} && rest - {x} < rest
  {
  }

  lemma MeetOneMore(s: set<Key>, done: set<Key>, x: Key)
    requires x !in done
    ensures |s * (done + {x})| == |s * done| + (if x in s then 1 else 0)
  {
    assert s * (done + {x}) == s * done + (if x in s then {x} else {});
  }

  lemma RecountStart(m: Tree, n: Tree)
    requires Linked(m) && n == map k | k in m :: m[k].(children := 0)
    ensures Linked(n) && Recounted(m, n, {})
  {
    hide Below, Descendants;
    LinkedSame(m, n);
    assert forall k :: k in m ==> Descendants(m, k) * {} == {};
  }

  lemma RecountEnd(m: Tree, n: Tree)
    requires Linked(m) && Recounted(m, n, m.Keys)
    ensures Linked(n) && Counted(n) && SameLinks(m, n)
    ensures Counted(m) ==> n == m
  {
    hide Below, Linked, Descendants;
    LinkedSame(m, n);
    forall k | k in m
      ensures n[k].children == |Descendants(n, k)| == |Descendants(m, k)|
    {
      DescendantsPresent(m, k);
      SameDescendants(m, n, k);
    }
    if Counted(m) {
      assert forall k :: k in m ==> n[k] == m[k];
    }
  }

  lemma DescendantsPresent(m: Tree, k: Key)
    requires Linked(m)
    ensures Descendants(m, k) * m.Keys == Descendants(m, k)
  {
  }

  /** All that an edit's parent must share with the comment's own: the author, and the length of the permlink. */
  ghost predicate SameLength(c: Comment, parentAuthor: string, parentPermlink: string)
  {
    c.parentAuthor == parentAuthor && |c.parentPermlink| == |parentPermlink|
  }

  ghost function ParentNamed(author: string, permlink: string): Option<Key>
  {
    if author == ROOT_POST_PARENT then None else Some(Key(author, permlink))
  }

  /** When a post or an edit is accepted. */
  ghost predicate CanPost(accounts: set<string>, m: Tree, author: string, permlink: string,
                          parentAuthor: string, parentPermlink: string, otherwise: bool)
  {
    var key, parent := Key(author, permlink), ParentNamed(parentAuthor, parentPermlink);
    && author in accounts && otherwise
    && (parent.Some? ==> parent.value in m && m[parent.value].depth < MAX_COMMENT_DEPTH)
    && (key in m ==> SameLength(m[key], parentAuthor, parentPermlink))
  }

  /** The comment that a first post creates. */
  ghost function NewComment(m: Tree, author: string, permlink: string, parentAuthor: string,
                            parentPermlink: string): Comment
    requires var parent := ParentNamed(parentAuthor, parentPermlink); parent.Some? ==> parent.value in m
  {
    var parent := ParentNamed(parentAuthor, parentPermlink);
    if parent.None? then Comment("", parentPermlink, 0, Key(author, permlink), 0, true, 0)
    else Comment(parentAuthor, parentPermlink, m[parent.value].depth + 1, m[parent.value].root, 0, true, 0)
  }

  /**
    Two posts, a reply to the first, and an edit of the reply that names the
    second as its parent: the edit is accepted, and the reply stays where it was.
   */
  method EditUnderAnotherParent() returns (d: Discussions, edited: bool)
    ensures d.Valid() && d.comments.Keys == {Key("ann", "a"), Key("ann", "b"), Key("ann", "c")}
    ensures CanPost(d.accounts, d.comments, "ann", "c", "ann", "b", true) && edited
    ensures ParentOf(d.comments[Key("ann", "c")]) == Some(Key("ann", "a")) != Some(Key("ann", "b"))
    ensures d.comments[Key("ann", "a")].children == 1 && d.comments[Key("ann", "b")].children == 0
  {
    hide Linked, Counted;
    d := new Discussions({"ann"});
    var first := d.PostComment("ann", "a", "", "news", true);
    var second := d.PostComment("ann", "b", "", "news", true);
    var reply := d.PostComment("ann", "c", "ann", "a", true);
    edited := d.PostComment("ann", "c", "ann", "b", true);
  }

  datatype Action =
    | Post(author: string, permlink: string, parentAuthor: string, parentPermlink: string, otherwise: bool)
    | Delete(author: string, permlink: string)
    | Vote(key: Key, netRshares: int)
    | Cashout(key: Key)

  class Discussions {
    var accounts: set<string>
    var comments: Tree

    ghost predicate Valid()
      reads this
    {
      Linked(comments) && Counted(comments)
    }

    constructor (accounts: set<string>)
      ensures Valid() && this.accounts == accounts && comments == map[]
    {
      this.accounts, comments := accounts, map[];
    }

    /**
      The ancestor walk shared by posting, deleting and recounting: every
      comment on the path gains or loses one; depth makes the walk end.
     */
    method AdjustAncestors(start: Option<Key>, change: int)
      requires Linked(comments) && (start.Some? ==> start.value in comments)
      requires change == 1 || (change == -1 && Takeable(comments, start))
      modifies this`comments
      ensures Linked(comments) && Shifted(old(comments), comments, start, change)
    {
      hide Linked, Below, OnPath, Walked, Takeable, SameLinks, Shifted;
      ghost var m := comments;
      var current := start;
      WalkStart(m, start, change);
      while current.Some?
        invariant current.Some? ==> current.value in m && current.value in comments
        invariant Walked(m, comments, start, current, change)
        decreases if current.Some? then m[current.value].depth + 1 else 0
      {
        var key := current.value;
        ghost var n := comments;
        WalkStep(m, n, start, key, change);
        comments := comments[key := comments[key].(children := comments[key].children + change)];
        var c := comments[key];
        current := if c.parentAuthor == ROOT_POST_PARENT then None else Some(Key(c.parentAuthor, c.parentPermlink));
      }
      WalkEnd(m, comments, start, change);
    }

    /** A comment takes its place, and everything above it counts it. */
    method AddComment(key: Key, c: Comment)
      requires Valid() && key !in comments && c.children == 0 && Placed(comments, key, c)
      modifies this`comments
      ensures Valid() && comments.Keys == old(comments).Keys + {key} && comments[key] == c
      ensures Around(old(comments), comments, ParentOf(c), 1, key)
    {
      ghost var m := comments;
      GrownLinked(m, key, c);
      hide Linked, Counted, Shifted, Below, OnPath, Takeable, Around;
      comments := comments[key := c];
      AdjustAncestors(if c.parentAuthor == ROOT_POST_PARENT then None else Some(Key(c.parentAuthor, c.parentPermlink)),
        1);
      PostKeepsCounts(m, key, c, comments);
      PostAround(m, key, c, comments);
    }

    /**
      comment_evaluator: a new comment under an existing parent, or an edit that
      keeps its place. Only the counts on the way up to the root change.
     */
    method PostComment(author: string, permlink: string, parentAuthor: string, parentPermlink: string, otherwise: bool)
      returns (ok: bool)
      requires Valid()
      modifies this`comments
      ensures Valid()
      ensures ok <==> CanPost(accounts, old(comments), author, permlink, parentAuthor, parentPermlink, otherwise)
      ensures !ok || Key(author, permlink) in old(comments) ==> comments == old(comments)
      ensures ok && Key(author, permlink) !in old(comments) ==>
        && comments.Keys == old(comments).Keys + {Key(author, permlink)}
        && comments[Key(author, permlink)] == NewComment(old(comments), author, permlink, parentAuthor, parentPermlink)
        && Around(old(comments), comments, ParentNamed(parentAuthor, parentPermlink), 1, Key(author, permlink))
    {
      hide Linked, Counted, Around;
      var key := Key(author, permlink);
      if author !in accounts || !otherwise {
        return false;
      }
      var parent := if parentAuthor == ROOT_POST_PARENT then None else Some(Key(parentAuthor, parentPermlink));
      if parent.Some? {
        if parent.value !in comments || comments[parent.value].depth >= MAX_COMMENT_DEPTH {
          return false;
        }
      }
      if key !in comments {
        var c := Comment("", parentPermlink, 0, key, 0, true, 0);
        if parent.Some? {
          var above := comments[parent.value];
          c := Comment(parentAuthor, parentPermlink, above.depth + 1, above.root, 0, true, 0);
        }
        AddComment(key, c);
      } else {
        var c := comments[key];
        var strcmpEqual := |c.parentPermlink| == |parentPermlink| || c.parentPermlink == parentPermlink;
        if c.parentAuthor != parentAuthor || !strcmpEqual {
          return false;
        }
      }
      ok := true;
    }

    /** delete_comment_evaluator: only an unpaid leaf without net support goes. */
    method DeleteComment(author: string, permlink: string) returns (ok: bool)
      requires Valid()
      modifies this`comments
      ensures Valid()
      ensures ok <==> Key(author, permlink) in old(comments)
                      && (forall k :: k in old(comments) ==> !Below(old(comments), k, Key(author, permlink)))
                      && old(comments)[Key(author, permlink)].open
                      && old(comments)[Key(author, permlink)].netRshares <= 0
      ensures !ok ==> comments == old(comments)
      ensures ok ==>
        && comments.Keys == old(comments).Keys - {Key(author, permlink)}
        && Around(old(comments), comments, ParentOf(old(comments)[Key(author, permlink)]), -1, Key(author, permlink))
    {
      var key := Key(author, permlink);
      if key !in comments {
        return false;
      }
      var c := comments[key];
      ghost var m := comments;
      hide Linked, Counted, Below, OnPath, Takeable, Around;
      LeafIsCounted(m, key);
      if c.children != 0 || !c.open || c.netRshares > 0 {
        return false;
      }
      AdjustAncestors(if c.parentAuthor == ROOT_POST_PARENT then None else Some(Key(c.parentAuthor, c.parentPermlink)),
        -1);
      DeleteKeepsCounts(m, key, comments);
      DeleteAround(m, key, comments);
      comments := comments - {key};
      ok := true;
    }

    /** Votes and payouts leave the tree alone. */
    method Settle(key: Key, netRshares: int, open: bool) returns (ok: bool)
      requires Valid()
      modifies this`comments
      ensures Valid() && ok == (key in old(comments))
      ensures comments == if ok
        then old(comments)[key := old(comments)[key].(netRshares := netRshares, open := open)] else old(comments)
    {
      if key !in comments {
        return false;
      }
      hide Linked, Counted;
      SettleKeepsCounts(comments, key, comments[key].(netRshares := netRshares, open := open));
      comments := comments[key := comments[key].(netRshares := netRshares, open := open)];
      ok := true;
    }

    /** retally_comment_children: a fresh count over all comments, in any order. */
    method RetallyChildren()
      requires Linked(comments)
      modifies this`comments
      ensures SameLinks(old(comments), comments) && Valid()
      ensures old(Valid()) ==> comments == old(comments)
    {
      hide Linked, Below, OnPath, Recounted, Takeable, Descendants, Counted, Shifted, SameLinks, Fits;
      ghost var m := comments;
      comments := map k | k in comments :: comments[k].(children := 0);
      RecountStart(m, comments);
      RecountFrom(m, comments.Keys);
      RecountEnd(m, comments);
    }

    method RecountFrom(ghost m: Tree, keys: set<Key>)
      requires Linked(m) && Linked(comments) && comments.Keys == m.Keys == keys && Recounted(m, comments, {})
      modifies this`comments
      ensures Recounted(m, comments, keys)
    {
      hide Linked, Below, OnPath, Recounted, Takeable, Descendants, Counted, Shifted, SameLinks, Fits;
      var rest := keys;
      assert keys - rest == {};
      while rest != {}
        invariant rest <= keys && comments.Keys == keys && Linked(comments)
        invariant Recounted(m, comments, keys - rest)
        decreases rest
      {
        ghost var n, done := comments, keys - rest;
        var x :| x in rest;
        OneLess(keys, rest, x);
        rest := rest - {x};
        ParentPresent(comments, x);
        var c := comments[x];
        AdjustAncestors(if c.parentAuthor == ROOT_POST_PARENT
          then None else Some(Key(c.parentAuthor, c.parentPermlink)),
          1);
        RecountStep(m, n, comments, done, x);
      }
      assert keys - rest == keys;
    }

    /** After any run of posts, edits, deletes, votes and payouts the counts are right. */
    method Run(actions: seq<Action>)
      requires Valid()
      modifies this`comments
      ensures Valid()
      ensures forall k :: k in comments ==> comments[k].root in comments && ParentOf(comments[comments[k].root]) == None
    {
      for i := 0 to |actions|
        invariant Valid()
      {
        match actions[i]
        case Post(author, permlink, parentAuthor, parentPermlink, otherwise) =>
          var _ := PostComment(author, permlink, parentAuthor, parentPermlink, otherwise);
        case Delete(author, permlink) =>
          var _ := DeleteComment(author, permlink);
        case Vote(key, netRshares) =>
          if key in comments {
            var _ := Settle(key, netRshares, comments[key].open);
          }
        case Cashout(key) =>
          if key in comments {
            var net := comments[key].netRshares;
            var _ := Settle(key, if net > 0 then 0 else net, false);
          }
      }
      forall k | k in comments
        ensures comments[k].root in comments && ParentOf(comments[comments[k].root]) == None
      {
        RootExists(comments, k);
      }
    }
  }
}
