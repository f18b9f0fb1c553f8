# tildes-scraper, modelled in Dafny

The scraper reads a discussion site: the list of its groups, the topic
listing of a group page by page, and a topic page with its tree of comments.
Almost all of `scraper.py` is HTTP requests and XPath lookups. The logic
around them is modelled here, with the network and the markup replaced by
abstract inputs:

- `listing.dfy` (module `Listing`): the listing walker `GroupIter`. Its state
  is the buffered page (the page's topic articles in document order), how many
  of them the page iterator has handed out, and the cursor `last_id`.
  `Next` is one `__next__` call. Fetching the next page is a parameter
  `fetch` from the cursor to a page. The first page, fetched by the
  constructor without an `after` parameter, is a separate input `first`.
  `ListedArticles` is an independent reference definition of the topics in
  walk order: the rest of the buffered page, then each page fetched with the
  id of the previous page's last topic, up to the first empty page.
  `RunFollowsListing` proves that any number of calls return exactly a prefix
  of that listing.
- `site.dfy` (module `Site`): `Website.groups`. The group names are the anchor
  texts minus their first character. The list is kept on the instance and is
  reused only when it is non-empty.
- `comments.dfy` (module `Comments`): `Post.comments`, `Comment.replies`, and
  the two `votes` accessors. The selectors of `comments` and `replies` end in
  the step `article`, so they return only the `article` elements among the
  children of the containers' children (`Articles`). A comment can only be
  made from an `article` element, so the constructor's `assert` fails only
  when a caller hands it some other element directly. The tree built by
  reading `replies` all the way down is the recursive `Comment` datatype
  (`Tree`).
- `text.dfy` (module `Text`): the string rules behind the vote counters.
  These are Python's `str.split()` and `int()` on ASCII text. `str.split()`
  treats tab, LF, VT, FF, CR, the information separators 0x1C-0x1F and space
  as whitespace. `int()` strips only the C whitespace around a numeral, which
  excludes the information separators; that is the only stripping modelled.
- `wrappers.dfy` (module `Wrappers`): `Option`, plus `Result` carrying one of
  the Python exceptions the code raises (`AssertionError`, `ValueError`,
  `IndexError`).

Behaviours of the code worth knowing:

- The walker has no sticky end state. Every call after the end runs
  `next_page` again with the same cursor. On an unchanged site that ends the
  iteration again (`Listing.ExhaustedStaysExhausted`), but it is a new
  request each time.
- An empty first page is refetched with `?after=None`: `None` is the cursor
  value passed to `fetch` (`Listing.EmptyFirstPage`).
- `Comment.votes` reads the first whitespace-separated word of the counter.
  `Post.votes` applies `int` to the whole text, so a text like `"15 votes"` is
  a `ValueError` there (`Text.WholeTextRejectsLabel`). The listing walker
  returns the vote text unparsed.

## Model

| member | source | states |
|---|---|---|
| `Listing.TopicId` | scraper.py:46-47 | the id is accepted exactly when the raw `id` attribute starts with `topic-`; then `"topic-" + id` is the raw attribute, otherwise the result is an `AssertionError` |
| `Listing.TopicIdRoundTrip` | scraper.py:46-47 | putting the prefix in front of any id gives a raw attribute that reads back as that id |
| `Listing.Start` | scraper.py:27-34 | a new walker buffers the first page with nothing handed out, so the whole page is still to come and `page_len` is its size; there is no cursor yet |
| `Listing.PageLen` | scraper.py:63-65 | `page_len` counts the articles of the buffered page, those handed out and those still to come |
| `Listing.Next` | scraper.py:39-61 | a page fetch happens exactly when the buffered page is used up, once per call, and uses the current cursor. The topic returned is the next article in document order, with its prefix removed, and its id becomes the cursor. The iteration ends exactly when the refetched page is empty. A bad id is reported before the cursor changes. `page_len` stays the same within a page and is the new page's size after a fetch |
| `Listing.NextFollowsListing` | scraper.py:39-61 | one call against the reference listing: an end means nothing is left; a bad id is the next listed article's; a returned topic is the next listed article, and the listing then continues from the new state |
| `Listing.RunFollowsListing` | scraper.py:39-61 | `n` calls return the summaries of a prefix of the reference listing, in order. A run still going has returned `n` topics. A run that ended has returned the whole listing. A run that crashed stopped at the first listed article without the `topic-` prefix |
| `Listing.WalkFromStart` | scraper.py:26-61 | from a new walker, the reference listing opens with the whole first page, and `n` calls follow it as `RunFollowsListing` states: `n` topics while running, all of them at the end, a stop at the first bad id |
| `Listing.CursorIsLastId` | scraper.py:47-59 | after a call returns a topic, the next page fetch, if the following call makes one, uses that topic's id as the `after` cursor |
| `Listing.ExhaustedStaysExhausted` | scraper.py:40-44 | after the end, the next call fetches again with the same cursor and ends again |
| `Listing.EmptyFirstPage` | scraper.py:57-61 | an empty first page is refetched with the cursor `None`; if that page is empty too, the iteration ends with no topic |
| `Listing.PageLenCountsWholePage` | scraper.py:63-65 | handing out articles within a page fetches nothing and leaves `page_len` at the size of the whole buffered page |
| `Listing.TwoPageWalk` | scraper.py:39-61 | for pages A,B and C,D, where B's id leads to C,D, the walk yields A,B,C,D and ends; page two is fetched once, after B |
| `Site.NewWebsite` | scraper.py:9-10 | a new instance has nothing cached, so its first `groups` read fetches the index and returns its names |
| `Site.DropFirst` | scraper.py:20 | a non-empty anchor text is its first character followed by the name; an empty text gives an empty name |
| `Site.GroupNames` | scraper.py:20 | one name per anchor, in order, each being the anchor text without its first character |
| `Site.Groups` | scraper.py:12-21 | the index is fetched exactly when no non-empty list is cached. A cached list is returned unchanged. A fetch stores its result, even an empty one, and returns one name per anchor, each being the anchor minus its first character |
| `Site.NonEmptyIsMemoised` | scraper.py:14-15 | after a non-empty result, the next read returns the same list without fetching, whatever the index shows by then |
| `Site.EmptyIsRecomputed` | scraper.py:14-21 | after an empty result, the next read fetches again and returns the names of the current index |
| `Site.GroupNamesStripSigil` | scraper.py:20 | for anchors written `~name`, the names come back exactly |
| `Comments.Articles` | scraper.py:103 | the selector's last step returns only `article` elements, never more than it was given |
| `Comments.ArticlesAreTheArticles` | scraper.py:103 | the selector's last step keeps every `article` element and nothing else |
| `Comments.ArticlesAppend` | scraper.py:128 | the selection keeps document order: selecting from two runs of elements is selecting from each in turn |
| `Comments.Tree` | scraper.py:105-108 | the comment read from an element has one reply per `article` under its replies container; what those replies are is stated by `RepliesAsRead`, `RepliesFollowSelection` and `UnwrapTree` |
| `Comments.Replies` | scraper.py:126-128 | the replies read from a container's elements are one per selected `article`; `RepliesFollowSelection` states that the `i`-th is the tree of the `i`-th `article` |
| `Comments.MakeComment` | scraper.py:105-108 | the constructor succeeds exactly on an `article` element, giving that element's tree; on any other element it is an `AssertionError` |
| `Comments.CommentsOf` | scraper.py:103 | a list of elements becomes a list of comments exactly when every element is an `article`; the result keeps the number and order of the elements, and each entry is the constructor's result for its element |
| `Comments.SelectedNeverFails` | scraper.py:103-107 | building comments from what the `article` selector returns never fails |
| `Comments.PostComments` | scraper.py:101-103 | `Post.comments` always succeeds, with one comment per selected `article`, in document order, each being that element's tree |
| `Comments.RepliesAsRead` | scraper.py:126-128 | reading `replies` of an element gives exactly the replies of its tree, and never fails |
| `Comments.RepliesFollowSelection` | scraper.py:126-128 | the `i`-th reply is the tree of the `i`-th `article` under the replies container |
| `Comments.PostVotes` | scraper.py:92-94 | `Post.votes` succeeds exactly when the whole text, stripped of C whitespace, is a numeral, and the value is non-negative |
| `Comments.CommentVotes` | scraper.py:122-124 | `Comment.votes` is an `IndexError` exactly when the counter text is blank, succeeds exactly when the first word is a numeral, is a `ValueError` otherwise, and a value it returns is non-negative |
| `Comments.TreeUnwrap` | scraper.py:105-128 | every comment tree is read back unchanged from the element tree it describes |
| `Comments.MakeCommentUnwrap` | scraper.py:105-108 | the constructor accepts the element of any comment tree and gives back that tree |
| `Comments.UnwrapTree` | scraper.py:105-128 | the tree read from an `article` keeps every text, author, time, counter and selected reply, in order, and drops exactly the elements the selectors skip |
| `Comments.PruneAllArticles` | scraper.py:126-128 | an element tree made only of `article`s loses nothing to the selectors, so it and its comment tree correspond one to one |
| `Comments.MixedRepliesContainer` | scraper.py:105-128 | a replies container holding a non-`article` next to an `article` gives one reply, the `article`'s; the constructor called directly on the other element fails |
| `Comments.DeepReplyChain` | scraper.py:101-128 | the text of the deepest comment of a three-level reply chain comes out of `comments[0].replies[0].replies[0]` unchanged |
| `Text.Split` | scraper.py:124 | `str.split()` gives words that are non-empty and contain no whitespace |
| `Text.SplitBlank` | scraper.py:124 | the split is empty exactly when the text is all whitespace |
| `Text.SplitJoinWords` | scraper.py:124 | splitting words joined by single spaces gives back the words |
| `Text.PyInt` | scraper.py:94 | `int(text)` succeeds exactly when the text stripped of C whitespace is a non-empty run of digits, with a non-negative value; otherwise it is a `ValueError` |
| `Text.PyIntOfShowNat` | scraper.py:94 | `int` reads back the numeral of any number, with any number of leading zeros and with or without C whitespace around it |
| `Text.NumeralIsPadded` | scraper.py:94 | every numeral is some leading zeros followed by the canonical numeral of its value, so the lemma above covers every numeral |
| `Text.PyIntReadsNumeral` | scraper.py:94 | a value `int` returns is the number whose numeral, behind leading zeros, is the stripped text |
| `Text.LeadingIntReadsNumeral` | scraper.py:124 | a value the first-word rule returns is the number whose numeral, behind leading zeros, is the first word |
| `Text.LeadingInt` | scraper.py:124 | `int(text.split()[0])` is an `IndexError` exactly when the text is blank, succeeds exactly when the first word is a numeral, is a `ValueError` otherwise, and a value it returns is non-negative |
| `Text.LeadingIntOfLabel` | scraper.py:124 | the numeral of any `n`, with any number of leading zeros, after any whitespace and followed by nothing or by whitespace and anything, reads back as `n` |
| `Text.SeparatorIsNotIntSpace` | scraper.py:94-124 | an information separator before a numeral makes `int` on the whole text fail, while the first-word rule skips it |
| `Text.VotesLabelExample` | scraper.py:124 | `"15 votes"` gives 15 |
| `Text.VoteLabelExample` | scraper.py:124 | `"1 vote"` gives 1 |
| `Text.WholeTextRejectsLabel` | scraper.py:94 | `int("15 votes")` is a `ValueError` |

## Left out

- HTTP requests and URL construction (scraper.py:17, 32, 59, 73) are network I/O. Fetching a listing page is the parameter `fetch`, keyed by the cursor. The first listing page, the group index and the topic page are given as inputs.
- The lxml parsing and the XPath selectors are a foreign library. Articles, anchors and comment elements are records holding the attribute and text values the code reads. The last `article` step of the comment selectors is modelled (`Comments.Articles`); the rest of each path is folded into the inputs. A missing element or attribute (an `IndexError` or `KeyError` at a `[0]` or `attrib[...]`) is not modelled.
- The single-lookup accessors (`Post.text`, `title`, `author`, `ctime`, `tags`; `Comment.text`, `author`, `ctime`) are not modelled. They are plain fields of the records. Whitespace handling of `text_content()` is not modelled.
- `Website.get_group` and `GroupIter.__iter__` only construct or return the walker.
- The `assert` statements (scraper.py:46, 107) are taken as enabled. Under `python -O` they are removed: a raw id without the `topic-` prefix then loses its first six characters and becomes the id and the cursor anyway (`Listing.TopicId` would not fail), and `Comment(elt)` wraps any element (`Comments.MakeComment` would not fail).
- Text.PyInt: accepts only ASCII digits after stripping ASCII C whitespace. Python's signs, underscores, non-ASCII digits and non-ASCII whitespace are not modelled.
- Text.Split: splits on ASCII whitespace only; Python also splits on non-ASCII whitespace.
- Site.DropFirst: lxml gives `None` for an empty anchor text, and `None[1:]` is a `TypeError`. The model treats the text as a string, and the empty string gives an empty name.
- Site.Groups: Python returns the cached list object itself, so a caller that changes the returned list changes the cache. The model returns values, and a cached list can only be replaced by a new fetch.
- Comments.PostVotes: lxml gives `None` for an empty counter element, and `int(None)` is a `TypeError`. The model reads the empty text and gives a `ValueError`.
- Comments.CommentVotes: lxml gives `None` for an empty counter element, and `None.split()` is an `AttributeError`. The model reads the empty text and gives an `IndexError`.
- Comments.Tree: builds the whole reply tree at once. Python builds the replies lazily, on each `replies` read. Through the selectors neither can fail, so only the time at which the elements are read differs.
