/** A topic page and its comment tree (`Post` and `Comment` in scraper.py).

    The parsed markup is abstracted to `Node`: an element's tag, the fields a
    comment reads from it, and the elements the replies selector looks at,
    in document order. The last step of the selectors of `Post.comments`
    and `Comment.replies` is `article`, so they keep only the `article`
    elements among those (`Articles`). `Comment(elt)` asserts that
    its element is an `article`; through the selectors that assertion always
    holds, so only a caller handing it some other element sees it fail.
    Reading `replies` recursively to the bottom builds the whole tree, which
    `Tree` models; each comment owns its ordered replies.
 */
module Comments {
  import opened Wrappers
  import Text

  const ArticleTag: string := "article"

  /** A parsed element as the comment code sees it. */
  datatype Node = Node(
    tag: string,
    text: string,       // comment text
    author: string,     // author link text
    ctime: string,      // `datetime` of the time element
    votesText: string,  // vote counter text, e.g. "15 votes"
    below: seq<Node>)   // the children of the children of the replies container

  /** A comment and, recursively, its replies. */
  datatype Comment = Comment(
    text: string,
    author: string,
    ctime: string,
    votesText: string,
    replies: seq<Comment>)

  /** A fetched topic page: the vote counter text and the children of the
      children of the comments container, in document order. */
  datatype TopicPage = TopicPage(votesText: string, below: seq<Node>)

  /** The last selector step `article`: the `article` elements, in order. */
  function Articles(ns: seq<Node>): (r: seq<Node>)
    ensures |r| <= |ns|
    ensures forall i :: 0 <= i < |r| ==> r[i].tag == ArticleTag
  {
    if ns == [] then []
    else (if ns[0].tag == ArticleTag then [ns[0]] else []) + Articles(ns[1..])
  }

  /** The comment read from an `article` element, with its replies read all
      the way down. */
  function Tree(n: Node): (c: Comment)
    ensures |c.replies| == |Articles(n.below)|
    decreases n, 1
  {
    Comment(n.text, n.author, n.ctime, n.votesText, Replies(n.below))
  }

  /** The trees of the `article` elements among `ns`, in order. */
  function Replies(ns: seq<Node>): (r: seq<Comment>)
    ensures |r| == |Articles(ns)|
    decreases ns, 0
  {
    if ns == [] then []
    else (if ns[0].tag == ArticleTag then [Tree(ns[0])] else []) + Replies(ns[1..])
  }

  /** `Comment(elt)`: the constructor's `assert` on the tag. */
  function MakeComment(n: Node): (r: Result<Comment>)
    ensures r.Ok? <==> n.tag == ArticleTag
    ensures r.Err? ==> r.error == AssertionError
    ensures r.Ok? ==> r.value == Tree(n)
  {
    if n.tag != ArticleTag then Err(AssertionError) else Ok(Tree(n))
  }

  /** `[Comment(elt) for elt in elts]`, in order. */
  function CommentsOf(elts: seq<Node>): (r: Result<seq<Comment>>)
    ensures r.Ok? <==> forall i :: 0 <= i < |elts| ==> elts[i].tag == ArticleTag
    ensures r.Err? ==> r.error == AssertionError
    ensures r.Ok? ==> |r.value| == |elts|
    ensures r.Ok? ==> forall i :: 0 <= i < |elts| ==> MakeComment(elts[i]) == Ok(r.value[i])
  {
    if elts == [] then Ok([])
    else
      match MakeComment(elts[0])
      case Err(e) => Err(e)
      case Ok(c) =>
        match CommentsOf(elts[1..])
        case Err(e) => Err(e)
        case Ok(cs) => Ok([c] + cs)
  }

  /** `Post.comments`: a comment per selected `article`, in document order.
      The selector keeps only `article`s, so the constructor never fails. */
  function PostComments(p: TopicPage): (r: Result<seq<Comment>>)
    ensures r.Ok?
    ensures |r.value| == |Articles(p.below)|
    ensures forall i :: 0 <= i < |r.value| ==> r.value[i] == Tree(Articles(p.below)[i])
  {
    CommentsOf(Articles(p.below))
  }

  /** `Post.votes`: the whole counter text as an integer. */
  function PostVotes(p: TopicPage): (r: Result<int>)
    ensures r.Ok? <==> Text.IsDecimal(Text.Strip(Text.IntBlanks, p.votesText))
    ensures r.Ok? ==> r.value >= 0
  {
    Text.PyInt(p.votesText)
  }

  /** `Comment.votes`: the first word of the counter text as an integer. */
  function CommentVotes(c: Comment): (r: Result<int>)
    ensures r == Err(IndexError) <==> Text.AllBlank(Text.StrBlanks, c.votesText)
    ensures r.Ok? <==> var words := Text.Split(c.votesText); words != [] && Text.IsDecimal(words[0])
    ensures r.Err? && !Text.AllBlank(Text.StrBlanks, c.votesText) ==> r.error == ValueError
    ensures r.Ok? ==> r.value >= 0
  {
    Text.LeadingInt(c.votesText)
  }

  /** The element a comment was read from. */
  function Unwrap(c: Comment): (n: Node)
    ensures n.tag == ArticleTag
    decreases c, 1
  {
    Node(ArticleTag, c.text, c.author, c.ctime, c.votesText, UnwrapAll(c.replies))
  }

  function UnwrapAll(cs: seq<Comment>): (ns: seq<Node>)
    ensures |ns| == |cs|
    decreases cs, 0
  {
    if cs == [] then [] else [Unwrap(cs[0])] + UnwrapAll(cs[1..])
  }

  /** `n` with every element the selectors skip removed, at every depth. */
  function Prune(n: Node): Node
    decreases n, 1
  {
    n.(below := PruneAll(n.below))
  }

  function PruneAll(ns: seq<Node>): seq<Node>
    decreases ns, 0
  {
    if ns == [] then []
    else (if ns[0].tag == ArticleTag then [Prune(ns[0])] else []) + PruneAll(ns[1..])
  }

  /** Every element of the subtree is an `article`. */
  predicate AllArticles(n: Node)
    decreases n
  {
    n.tag == ArticleTag && forall i :: 0 <= i < |n.below| ==> AllArticles(n.below[i])
  }

  // ----- Lemmas -----

  /** The selector keeps every `article` and nothing else. */
  lemma {:induction false} ArticlesAreTheArticles(ns: seq<Node>)
    ensures forall x :: x in Articles(ns) <==> x in ns && x.tag == ArticleTag
  {
    if ns != [] {
      var tail := ns[1..];
      ArticlesAreTheArticles(tail);
      assert ns == [ns[0]] + tail;
      if ns[0].tag == ArticleTag {
        assert Articles(ns) == [ns[0]] + Articles(tail);
      } else {
        assert Articles(ns) == Articles(tail);
      }
    }
  }

  /** The selector keeps the document order: selecting from two runs of
      elements one after the other is selecting from each in turn. */
  lemma {:induction false} ArticlesAppend(a: seq<Node>, b: seq<Node>)
    ensures Articles(a + b) == Articles(a) + Articles(b)
  {
    if a != [] {
      ArticlesAppend(a[1..], b);
      assert (a + b)[1..] == a[1..] + b;
      if a[0].tag == ArticleTag {
        assert Articles(a + b) == [a[0]] + Articles(a[1..] + b);
      } else {
        assert Articles(a + b) == Articles(a[1..] + b);
      }
    } else {
      assert a + b == b;
    }
  }

  /** The `i`-th reply is the tree of the `i`-th selected `article`. */
  lemma {:induction false} RepliesFollowSelection(ns: seq<Node>)
    ensures forall i :: 0 <= i < |Replies(ns)| ==> Replies(ns)[i] == Tree(Articles(ns)[i])
  {
    if ns != [] {
      var tail := ns[1..];
      RepliesFollowSelection(tail);
      if ns[0].tag == ArticleTag {
        var x := ns[0];
        assert Articles(ns) == [x] + Articles(tail);
        assert Replies(ns) == [Tree(x)] + Replies(tail);
        forall i | 0 <= i < |Replies(ns)|
          ensures Replies(ns)[i] == Tree(Articles(ns)[i])
        {
          if i > 0 {
            assert Replies(ns)[i] == Replies(tail)[i - 1];
            assert Articles(ns)[i] == Articles(tail)[i - 1];
          }
        }
      } else {
        assert Articles(ns) == Articles(tail);
        assert Replies(ns) == Replies(tail);
      }
    }
  }

  /** What the code's `replies` computes for an element is exactly the
      replies of its tree, and it never fails. */
  lemma RepliesAsRead(n: Node)
    ensures CommentsOf(Articles(n.below)) == Ok(Tree(n).replies)
  {
    var r := CommentsOf(Articles(n.below));
    RepliesFollowSelection(n.below);
    assert r.value == Tree(n).replies;
  }

  /** Only an element handed to the constructor directly can fail it; the
      selectors of `Post.comments` and `Comment.replies` cannot. */
  lemma SelectedNeverFails(ns: seq<Node>)
    ensures CommentsOf(Articles(ns)).Ok?
  {
  }

  /** Reading back the element of any comment tree gives that tree. */
  lemma {:induction false} TreeUnwrap(c: Comment)
    ensures Tree(Unwrap(c)) == c
    decreases c, 1
  {
    RepliesUnwrapAll(c.replies);
  }

  lemma {:induction false} RepliesUnwrapAll(cs: seq<Comment>)
    ensures Replies(UnwrapAll(cs)) == cs
    decreases cs, 0
  {
    if cs != [] {
      var ns := UnwrapAll(cs);
      TreeUnwrap(cs[0]);
      RepliesUnwrapAll(cs[1..]);
      assert ns[0] == Unwrap(cs[0]);
      assert ns[1..] == UnwrapAll(cs[1..]);
      assert [cs[0]] + cs[1..] == cs;
    }
  }

  /** The constructor accepts the element of any comment tree. */
  lemma MakeCommentUnwrap(c: Comment)
    ensures MakeComment(Unwrap(c)) == Ok(c)
  {
    TreeUnwrap(c);
  }

  /** The tree read from an `article` keeps every text, author, time,
      counter and selected reply, in order, and drops exactly the elements
      the selectors skip. */
  lemma {:induction false} UnwrapTree(n: Node)
    requires n.tag == ArticleTag
    ensures Unwrap(Tree(n)) == Prune(n)
    decreases n, 1
  {
    UnwrapReplies(n.below);
  }

  lemma {:induction false} UnwrapReplies(ns: seq<Node>)
    ensures UnwrapAll(Replies(ns)) == PruneAll(ns)
    decreases ns, 0
  {
    if ns != [] {
      UnwrapReplies(ns[1..]);
      var cs := Replies(ns);
      if ns[0].tag == ArticleTag {
        UnwrapTree(ns[0]);
        assert cs[0] == Tree(ns[0]);
        assert cs[1..] == Replies(ns[1..]);
        assert UnwrapAll(cs) == [Unwrap(cs[0])] + UnwrapAll(cs[1..]);
      } else {
        assert cs == Replies(ns[1..]);
        assert PruneAll(ns) == PruneAll(ns[1..]);
      }
    }
  }

  /** An element tree made only of `article`s loses nothing to the selectors. */
  lemma {:induction false} PruneAllArticles(n: Node)
    requires AllArticles(n)
    ensures Prune(n) == n
    decreases n, 1
  {
    PruneAllOfArticles(n.below);
  }

  lemma {:induction false} PruneAllOfArticles(ns: seq<Node>)
    requires forall i :: 0 <= i < |ns| ==> AllArticles(ns[i])
    ensures PruneAll(ns) == ns
    decreases ns, 0
  {
    if ns != [] {
      PruneAllArticles(ns[0]);
      PruneAllOfArticles(ns[1..]);
      assert [ns[0]] + ns[1..] == ns;
    }
  }

  /** A replies container holding a non-`article` next to an `article`: the
      reply list has the `article` alone, while the constructor called
      directly on the other element fails. */
  lemma MixedRepliesContainer(t: string, other: Node, reply: Node)
    requires other.tag != ArticleTag && reply.tag == ArticleTag
    ensures var top := Node(ArticleTag, t, "a", "t", "1 vote", [other, reply]);
      && Tree(top).replies == [Tree(reply)]
      && MakeComment(other) == Err(AssertionError)
  {
    var below := [other, reply];
    assert below[1..] == [reply];
    assert Replies([reply]) == [Tree(reply)] + Replies([]);
    assert Replies(below) == Replies([reply]);
  }

  /** A three-deep chain of replies: the deepest comment's text comes out of
      `comments[0].replies[0].replies[0]` unchanged. */
  lemma DeepReplyChain(t1: string, t2: string, t3: string)
    ensures var leaf := Node(ArticleTag, t3, "c", "t", "1 vote", []);
      var mid := Node(ArticleTag, t2, "b", "t", "1 vote", [leaf]);
      var top := Node(ArticleTag, t1, "a", "t", "1 vote", [mid]);
      var post := PostComments(TopicPage("1", [top]));
      && |post.value| == 1
      && |post.value[0].replies| == 1
      && |post.value[0].replies[0].replies| == 1
      && post.value[0].replies[0].replies[0].text == t3
  {
    var leaf := Node(ArticleTag, t3, "c", "t", "1 vote", []);
    var mid := Node(ArticleTag, t2, "b", "t", "1 vote", [leaf]);
    var top := Node(ArticleTag, t1, "a", "t", "1 vote", [mid]);
    assert Articles([top]) == [top];
    assert Replies([leaf]) == [Tree(leaf)] + Replies([]);
    assert Replies([mid]) == [Tree(mid)] + Replies([]);
  }
}
