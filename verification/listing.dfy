/** The listing walker (`GroupIter` in scraper.py): a forward-only iterator
    over the topics of a group listing that pages forward with an `after`
    cursor holding the id of the last topic it returned.

    The network and the markup are abstracted away. A listing page is the
    sequence of its topic `article` elements in document order, each reduced
    to the attributes the walker reads. Fetching the next page is a function
    `fetch` from the cursor to that sequence; the first page, which the
    constructor fetches without an `after` parameter, is given directly.
 */
module Listing {
  import opened Wrappers

  /** The prefix every topic element's `id` attribute must carry. */
  const TopicPrefix: string := "topic-"

  /** One topic `article` element of a listing page. */
  datatype Article = Article(
    rawId: string,   // the `id` attribute, e.g. "topic-1a2b"
    title: string,   // text of the title link
    votes: string,   // text of the vote counter, kept as text
    ctime: string,   // `datetime` attribute of the time element
    author: string)  // `data-topic-posted-by` attribute

  /** The record `__next__` returns for a topic. */
  datatype Summary = Summary(title: string, id: string, votes: string, ctime: string, author: string)

  /** The `after` cursor: `None` until the first topic has been returned. */
  type Cursor = Option<string>

  /** The iterator's state: the buffered page, how many of its articles the
      page iterator has handed out (`pos >= |page|` means it is exhausted), and
      `last_id`. */
  datatype Walker = Walker(page: seq<Article>, pos: nat, lastId: Cursor)

  /** What one `__next__` call does. */
  datatype Event =
    | Yield(item: Summary)  // a topic is returned
    | Exhausted             // StopIteration: the refetched page was empty
    | BadId(raw: string)    // AssertionError: the id lacks the topic prefix

  /** The outcome of one call: the event, the state afterwards, and the
      cursor of the page fetch the call made, if it made one. */
  datatype Step = Step(event: Event, next: Walker, fetched: Option<Cursor>)

  predicate HasTopicPrefix(raw: string) {
    |TopicPrefix| <= |raw| && raw[..|TopicPrefix|] == TopicPrefix
  }

  /** Python's `raw[6:]`: the text after the prefix, empty when too short. */
  function AfterPrefix(raw: string): string {
    if |raw| <= |TopicPrefix| then [] else raw[|TopicPrefix|..]
  }

  /** The topic id of a raw `id` attribute, or the failed `assert`. */
  function TopicId(raw: string): (r: Result<string>)
    ensures r.Ok? <==> HasTopicPrefix(raw)
    ensures r.Ok? ==> TopicPrefix + r.value == raw
    ensures r.Err? ==> r.error == AssertionError
  {
    if HasTopicPrefix(raw) then Ok(AfterPrefix(raw)) else Err(AssertionError)
  }

  function Summarize(a: Article, id: string): Summary {
    Summary(a.title, id, a.votes, a.ctime, a.author)
  }

  /** The articles of the buffered page the page iterator has not handed out. */
  function Remaining(w: Walker): seq<Article> {
    if w.pos < |w.page| then w.page[w.pos..] else []
  }

  /** The walker right after the constructor fetched the first page: the
      whole first page is still to come, and there is no cursor yet. */
  function Start(first: seq<Article>): (w: Walker)
    ensures w.page == first && w.pos == 0
    ensures Remaining(w) == first
    ensures PageLen(w) == |first|
    ensures w.lastId == None
  {
    Walker(first, 0, None)
  }

  /** `page_len`: the number of articles on the buffered page, both those
      already handed out and those still to come. */
  function PageLen(w: Walker): (r: nat)
    ensures w.pos <= |w.page| ==> r == w.pos + |Remaining(w)|
    ensures r >= |Remaining(w)|
  {
    |w.page|
  }

  /** Hand out `w.page[w.pos]` (which the caller checked exists): check the id
      prefix and, on success, record the id as the new cursor. */
  function Consume(w: Walker, fetched: Option<Cursor>): (r: Step)
    requires w.pos < |w.page|
  {
    var art := w.page[w.pos];
    var w' := w.(pos := w.pos + 1);
    match TopicId(art.rawId)
    case Ok(id) => Step(Yield(Summarize(art, id)), w'.(lastId := Some(id)), fetched)
    case Err(_) => Step(BadId(art.rawId), w', fetched)
  }

  /** One `__next__` call. */
  function Next(fetch: Cursor -> seq<Article>, w: Walker): (r: Step)
    // next_page runs exactly when the buffered page is used up, once, with the cursor
    ensures r.fetched == (if w.pos < |w.page| then None else Some(w.lastId))
    // the article handed out is the next one in document order on the (new) page
    ensures w.pos < |w.page| ==> r.next.page == w.page && r.next.pos == w.pos + 1
    ensures w.pos >= |w.page| ==> r.next.page == fetch(w.lastId)
    ensures w.pos >= |w.page| && r.next.page != [] ==> r.next.pos == 1
    ensures |r.next.page| == if w.pos < |w.page| then |w.page| else |fetch(w.lastId)|
    // iteration ends only on an empty refetched page
    ensures r.event.Exhausted? <==> w.pos >= |w.page| && fetch(w.lastId) == []
    ensures r.event.Exhausted? ==> r.next == Walker([], 0, w.lastId)
    // a returned topic is the article just handed out, with its prefix removed,
    // and its id becomes the cursor
    ensures r.event.Yield? ==>
      && 1 <= r.next.pos <= |r.next.page|
      && var art := r.next.page[r.next.pos - 1];
      && TopicPrefix + r.event.item.id == art.rawId
      && r.event.item == Summarize(art, r.event.item.id)
      && r.next.lastId == Some(r.event.item.id)
    // a bad id is reported before the cursor is touched
    ensures r.event.BadId? ==>
      && 1 <= r.next.pos <= |r.next.page|
      && r.event.raw == r.next.page[r.next.pos - 1].rawId
      && !HasTopicPrefix(r.event.raw)
      && r.next.lastId == w.lastId
  {
    if w.pos < |w.page| then Consume(w, None)
    else
      var refetched := Walker(fetch(w.lastId), 0, w.lastId);
      if refetched.page == [] then Step(Exhausted, refetched, Some(w.lastId))
      else Consume(refetched, Some(w.lastId))
  }

  /** How a run of calls ended. */
  datatype Halt = Running | Ended | Crashed(raw: string)

  /** The topics returned by up to `n` calls, the page fetches made, how the
      run ended and the final state. */
  datatype Trace = Trace(items: seq<Summary>, fetches: seq<Cursor>, halt: Halt, last: Walker)

  /** Call `__next__` up to `n` times, stopping at the first exception. */
  function Run(fetch: Cursor -> seq<Article>, w: Walker, n: nat): Trace
    decreases n, 0
  {
    if n == 0 then Trace([], [], Running, w) else Resume(fetch, Next(fetch, w), n - 1)
  }

  /** The rest of a run after a call that made step `s`, with up to `m`
      calls still to make. */
  function Resume(fetch: Cursor -> seq<Article>, s: Step, m: nat): Trace
    decreases m, 1
  {
    var f := if s.fetched.Some? then [s.fetched.value] else [];
    match s.event
    case Exhausted => Trace([], f, Ended, s.next)
    case BadId(raw) => Trace([], f, Crashed(raw), s.next)
    case Yield(item) =>
      var t := Run(fetch, s.next, m);
      t.(items := [item] + t.items, fetches := f + t.fetches)
  }

  /** The cursor in force once every article of the buffered page is out:
      the id of the page's last article, or the current cursor when nothing
      is left on the page. */
  function CursorAfterPage(w: Walker): Cursor {
    if w.pos < |w.page| then Some(AfterPrefix(w.page[|w.page| - 1].rawId)) else w.lastId
  }

  /** The articles of up to `k` pages fetched one after another, starting
      with `cursor`: each next page is fetched with the id of the previous
      page's last article, and the chain stops at the first empty page. */
  function FetchedAfter(fetch: Cursor -> seq<Article>, cursor: Cursor, k: nat): seq<Article>
    decreases k
  {
    if k == 0 then []
    else
      var p := fetch(cursor);
      if p == [] then [] else p + FetchedAfter(fetch, Some(AfterPrefix(p[|p| - 1].rawId)), k - 1)
  }

  /** Reference listing: the articles still to come from state `w`, allowing
      `k` more page fetches. The rest of the buffered page comes first, then
      the pages fetched from the cursor in force once that rest is out. */
  function ListedArticles(fetch: Cursor -> seq<Article>, w: Walker, k: nat): seq<Article> {
    Remaining(w) + FetchedAfter(fetch, CursorAfterPage(w), k)
  }

  /** The summary `__next__` makes of an article with a well-formed id. */
  function Expected(a: Article): Summary {
    Summarize(a, AfterPrefix(a.rawId))
  }

  // ----- Lemmas -----

  /** The topic id is the raw id with its prefix removed, and putting the
      prefix back in front of any id gives a raw id that reads back as it. */
  lemma TopicIdRoundTrip(id: string)
    ensures TopicId(TopicPrefix + id) == Ok(id)
  {
  }

  /** Handing out the next article of the buffered page removes it from the
      front of the reference listing. */
  lemma ListingPeel(fetch: Cursor -> seq<Article>, w: Walker, k: nat)
    requires w.pos < |w.page|
    ensures var a := w.page[w.pos];
      ListedArticles(fetch, w, k)
        == [a] + ListedArticles(fetch, Walker(w.page, w.pos + 1, Some(AfterPrefix(a.rawId))), k)
  {
    var a := w.page[w.pos];
    var w' := Walker(w.page, w.pos + 1, Some(AfterPrefix(a.rawId)));
    assert w.page[w.pos..] == [a] + w.page[w.pos + 1..];
    assert Remaining(w) == [a] + Remaining(w');
    assert CursorAfterPage(w') == CursorAfterPage(w);
  }

  /** Step `s` agrees with the reference listing `v`: an end means nothing
      is left, a bad id is the next listed article's, and a returned topic is
      the next listed article, after which the listing continues from the new
      state with `k` fetches allowed. */
  predicate StepFollows(fetch: Cursor -> seq<Article>, s: Step, v: seq<Article>, k: nat) {
    && (s.event.Exhausted? ==> v == [])
    && (s.event.BadId? ==> v != [] && v[0].rawId == s.event.raw && !HasTopicPrefix(s.event.raw))
    && (s.event.Yield? ==>
          && v != [] && HasTopicPrefix(v[0].rawId)
          && s.event.item == Expected(v[0])
          && v[1..] == ListedArticles(fetch, s.next, k))
  }

  /** Handing out an article of the buffered page agrees with the listing. */
  lemma ConsumeFollows(fetch: Cursor -> seq<Article>, w: Walker, k: nat, fetched: Option<Cursor>)
    requires w.pos < |w.page|
    ensures StepFollows(fetch, Consume(w, fetched), ListedArticles(fetch, w, k), k)
  {
    var a := w.page[w.pos];
    var w' := Walker(w.page, w.pos + 1, Some(AfterPrefix(a.rawId)));
    var v := ListedArticles(fetch, w, k);
    ListingPeel(fetch, w, k);
    assert v[0] == a && v[1..] == ListedArticles(fetch, w', k);
    var s := Consume(w, fetched);
    if HasTopicPrefix(a.rawId) {
      assert s == Step(Yield(Expected(a)), w', fetched);
    } else {
      assert s.event == BadId(a.rawId);
    }
  }

  /** Once the buffered page is used up, the listing is whatever the page
      fetched with the current cursor starts, or nothing if that page is empty. */
  lemma UsedUpListing(fetch: Cursor -> seq<Article>, w: Walker, k: nat)
    requires w.pos >= |w.page| && k >= 1
    ensures var p := fetch(w.lastId);
      ListedArticles(fetch, w, k) == if p == [] then [] else ListedArticles(fetch, Walker(p, 0, w.lastId), k - 1)
  {
    var p := fetch(w.lastId);
    assert Remaining(w) == [] && CursorAfterPage(w) == w.lastId;
    if p != [] {
      var refetched := Walker(p, 0, w.lastId);
      assert Remaining(refetched) == p;
      assert CursorAfterPage(refetched) == Some(AfterPrefix(p[|p| - 1].rawId));
    }
  }

  /** A call with articles left on the buffered page hands out the next
      listed article and fetches nothing. */
  lemma NextOnPageFollows(fetch: Cursor -> seq<Article>, w: Walker, k: nat)
    requires w.pos < |w.page|
    ensures StepFollows(fetch, Next(fetch, w), ListedArticles(fetch, w, k), k)
  {
    ConsumeFollows(fetch, w, k, None);
    assert Next(fetch, w) == Consume(w, None);
  }

  /** A call on a used-up page fetches the next page and goes on with one
      fetch fewer. */
  lemma NextRefetchFollows(fetch: Cursor -> seq<Article>, w: Walker, k: nat)
    requires w.pos >= |w.page| && k >= 1 && fetch(w.lastId) != []
    ensures StepFollows(fetch, Next(fetch, w), ListedArticles(fetch, w, k), k - 1)
  {
    var refetched := Walker(fetch(w.lastId), 0, w.lastId);
    var s := Consume(refetched, Some(w.lastId));
    var v := ListedArticles(fetch, refetched, k - 1);
    assert ListedArticles(fetch, w, k) == v by {
      UsedUpListing(fetch, w, k);
    }
    assert Next(fetch, w) == s by {
      NextRefetches(fetch, w);
    }
    ConsumeFollows(fetch, refetched, k - 1, Some(w.lastId));
    StepFollowsSame(fetch, Next(fetch, w), s, ListedArticles(fetch, w, k), v, k - 1);
  }

  /** On a used-up page, a call hands out the first article of the page
      fetched with the current cursor. */
  lemma NextRefetches(fetch: Cursor -> seq<Article>, w: Walker)
    requires w.pos >= |w.page| && fetch(w.lastId) != []
    ensures Next(fetch, w) == Consume(Walker(fetch(w.lastId), 0, w.lastId), Some(w.lastId))
  {
  }

  /** A call on a used-up page whose next page is empty ends the iteration,
      and nothing is left of the listing. */
  lemma NextEndFollows(fetch: Cursor -> seq<Article>, w: Walker, k: nat)
    requires w.pos >= |w.page| && k >= 1 && fetch(w.lastId) == []
    ensures StepFollows(fetch, Next(fetch, w), ListedArticles(fetch, w, k), k - 1)
  {
    UsedUpListing(fetch, w, k);
    assert Next(fetch, w).event.Exhausted?;
  }

  /** Carries `StepFollows` across equal arguments. It only lets the caller
      name the step and the listing by their values without the solver
      unfolding both sides again. */
  lemma StepFollowsSame(fetch: Cursor -> seq<Article>, s: Step, s': Step, v: seq<Article>, v': seq<Article>, k: nat)
    requires s == s' && v == v' && StepFollows(fetch, s', v', k)
    ensures StepFollows(fetch, s, v, k)
  {
  }

  /** One call against the reference listing (one fetch fewer allowed
      afterwards when the call fetched). */
  lemma NextFollowsListing(fetch: Cursor -> seq<Article>, w: Walker, k: nat)
    requires k >= 1
    ensures var s := Next(fetch, w);
      StepFollows(fetch, s, ListedArticles(fetch, w, k), if s.fetched.Some? then k - 1 else k)
  {
    if w.pos < |w.page| {
      NextOnPageFollows(fetch, w, k);
    } else if fetch(w.lastId) != [] {
      NextRefetchFollows(fetch, w, k);
    } else {
      NextEndFollows(fetch, w, k);
    }
  }

  /** `t`, the trace of `n` calls, returned the summaries of a prefix of the
      listing `v`: all `n` topics if it is still going, the whole listing if it
      ended, and up to the first article with a malformed id if it crashed. */
  predicate FollowsListing(t: Trace, v: seq<Article>, n: nat) {
    && |t.items| <= |v|
    && (forall i :: 0 <= i < |t.items| ==>
          HasTopicPrefix(v[i].rawId) && t.items[i] == Expected(v[i]))
    && (t.halt == Running ==> |t.items| == n)
    && (t.halt == Ended ==> |t.items| == |v|)
    && (t.halt.Crashed? ==>
          |t.items| < |v| && v[|t.items|].rawId == t.halt.raw && !HasTopicPrefix(t.halt.raw))
  }

  /** Returning the listing's first article extends a following trace. */
  lemma FollowsListingCons(t: Trace, v: seq<Article>, n: nat, fetches: seq<Cursor>)
    requires n >= 1 && v != [] && HasTopicPrefix(v[0].rawId)
    requires FollowsListing(t, v[1..], n - 1)
    ensures FollowsListing(t.(items := [Expected(v[0])] + t.items, fetches := fetches), v, n)
  {
  }

  /** The trace theorem: `n` calls return, in order, the summaries of a
      prefix of the reference listing. A run still going has returned `n`
      topics; a run that ended returned the whole listing; a run that crashed
      stopped exactly at the first listed article whose id lacks the prefix. */
  lemma {:induction false} RunFollowsListing(fetch: Cursor -> seq<Article>, w: Walker, n: nat, k: nat)
    requires n <= k
    ensures FollowsListing(Run(fetch, w, n), ListedArticles(fetch, w, k), n)
    decreases n, 0
  {
    if n > 0 {
      var s := Next(fetch, w);
      NextFollowsListing(fetch, w, k);
      ResumeFollows(fetch, s, ListedArticles(fetch, w, k), n, if s.fetched.Some? then k - 1 else k);
      assert Run(fetch, w, n) == Resume(fetch, s, n - 1);
    } else {
      assert Run(fetch, w, n) == Trace([], [], Running, w);
    }
  }

  /** The rest of a run after a step that agrees with the listing `v`
      follows `v`; `n` counts that step. */
  lemma {:induction false} ResumeFollows(fetch: Cursor -> seq<Article>, s: Step, v: seq<Article>, n: nat, k: nat)
    requires 1 <= n <= k + 1
    requires StepFollows(fetch, s, v, k)
    ensures FollowsListing(Resume(fetch, s, n - 1), v, n)
    decreases n - 1, 1
  {
    if s.event.Yield? {
      var t := Run(fetch, s.next, n - 1);
      var f := if s.fetched.Some? then [s.fetched.value] else [];
      RunFollowsListing(fetch, s.next, n - 1, k);
      assert FollowsListing(t, v[1..], n - 1);
      FollowsListingCons(t, v, n, f + t.fetches);
    }
  }

  /** Read from the start: the listing opens with the whole first page, and
      `n` calls follow it as the trace theorem says: the topics of the first
      page in order, then those of each page fetched with the id of the
      previous page's last topic. */
  lemma WalkFromStart(fetch: Cursor -> seq<Article>, first: seq<Article>, n: nat)
    ensures first <= ListedArticles(fetch, Start(first), n)
    ensures FollowsListing(Run(fetch, Start(first), n), ListedArticles(fetch, Start(first), n), n)
  {
    RunFollowsListing(fetch, Start(first), n, n);
  }

  /** After a call returns a topic, the page fetch that follows (if the
      page is used up) is keyed by that topic's id. */
  lemma CursorIsLastId(fetch: Cursor -> seq<Article>, w: Walker)
    requires Next(fetch, w).event.Yield?
    ensures var s := Next(fetch, w); var s2 := Next(fetch, s.next);
      s2.fetched.Some? ==> s2.fetched.value == Some(s.event.item.id)
  {
  }

  /** After the end, every further call refetches with the same cursor and
      ends again: the walker never resumes on a fixed site. */
  lemma ExhaustedStaysExhausted(fetch: Cursor -> seq<Article>, w: Walker)
    requires Next(fetch, w).event.Exhausted?
    ensures var s := Next(fetch, Next(fetch, w).next);
      s.event.Exhausted? && s.fetched == Some(w.lastId)
  {
  }

  /** An empty first page is refetched with the cursor `None`, and an empty
      answer to that ends the iteration before any topic. */
  lemma EmptyFirstPage(fetch: Cursor -> seq<Article>, n: nat)
    requires n > 0
    ensures Next(fetch, Start([])).fetched == Some(None)
    ensures fetch(None) == [] ==> Run(fetch, Start([]), n).items == []
    ensures fetch(None) == [] ==> Run(fetch, Start([]), n).halt == Ended
  {
  }

  /** Consuming a page never changes `page_len`: it counts the whole
      buffered page however many of its articles have been handed out. */
  lemma {:induction false} PageLenCountsWholePage(fetch: Cursor -> seq<Article>, w: Walker, n: nat)
    requires w.pos + n <= |w.page|
    ensures PageLen(Run(fetch, w, n).last) == PageLen(w)
    ensures Run(fetch, w, n).fetches == []
    decreases n
  {
    if n > 0 {
      var s := Next(fetch, w);
      if s.event.Yield? {
        PageLenCountsWholePage(fetch, s.next, n - 1);
      }
    }
  }

  /** Two pages A,B and C,D where the cursor of B leads to C,D and the cursor
      of D to an empty page: the walk returns A, B, C, D and fetches page two
      exactly once, after B. */
  lemma TwoPageWalk()
    ensures var a, b := Article("topic-a", "A", "1", "t", "u"), Article("topic-b", "B", "2", "t", "u");
      var c, d := Article("topic-c", "C", "3", "t", "u"), Article("topic-d", "D", "4", "t", "u");
      var fetch := (cur: Cursor) => if cur == Some("b") then [c, d] else [];
      var t := Run(fetch, Start([a, b]), 5);
      && t.items == [Expected(a), Expected(b), Expected(c), Expected(d)]
      && t.fetches == [Some("b"), Some("d")]
      && t.halt == Ended
  {
    var a, b := Article("topic-a", "A", "1", "t", "u"), Article("topic-b", "B", "2", "t", "u");
    var c, d := Article("topic-c", "C", "3", "t", "u"), Article("topic-d", "D", "4", "t", "u");
    var fetch := (cur: Cursor) => if cur == Some("b") then [c, d] else [];
    assert TopicId(a.rawId) == Ok("a") && TopicId(b.rawId) == Ok("b");
    assert TopicId(c.rawId) == Ok("c") && TopicId(d.rawId) == Ok("d");
    var w2 := Walker([a, b], 2, Some("b"));
    var w4 := Walker([c, d], 2, Some("d"));
    assert Run(fetch, w4, 1) == Trace([], [Some("d")], Ended, Walker([], 0, Some("d")));
    assert Run(fetch, w2, 3).items == [Expected(c), Expected(d)];
    assert Run(fetch, w2, 3).fetches == [Some("b"), Some("d")];
  }
}
