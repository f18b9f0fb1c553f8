/** The group lister (`Website.groups` in scraper.py): the names of the
    site's groups, read from the anchors of the group index and memoised on
    the instance.

    The index page is abstracted to the texts of its group-list anchors, in
    document order, as they would be read if the page were fetched now.
 */
module Site {
  import opened Wrappers

  /** The sigil the site puts in front of every group name. */
  const Sigil: char := '~'

  /** `_groups`: `None` before the first lookup, then the last list computed. */
  datatype Website = Website(cache: Option<seq<string>>)

  /** The result of reading `groups`: the names, the instance afterwards, and
      whether the index page was fetched. */
  datatype Lookup = Lookup(names: seq<string>, site: Website, fetched: bool)

  /** A fresh instance (`__init__`): nothing is cached, so the first read of
      `groups` fetches the index and returns its names. */
  function NewWebsite(): (w: Website)
    ensures !Cached(w)
    ensures forall anchors :: Groups(w, anchors).fetched && Groups(w, anchors).names == GroupNames(anchors)
  {
    Website(None)
  }

  /** Python's `text[1:]`: the text without its first character. */
  function DropFirst(text: string): (r: string)
    ensures text != [] ==> [text[0]] + r == text
    ensures text == [] ==> r == []
  {
    if text == [] then [] else text[1..]
  }

  /** The group names of the index anchors: each anchor text minus its first
      character, in document order. */
  function GroupNames(anchors: seq<string>): (r: seq<string>)
    ensures |r| == |anchors|
    ensures forall i :: 0 <= i < |r| ==> r[i] == DropFirst(anchors[i])
  {
    if anchors == [] then [] else [DropFirst(anchors[0])] + GroupNames(anchors[1..])
  }

  /** Whether `_groups` is truthy: set, and a non-empty list. */
  predicate Cached(w: Website) {
    w.cache.Some? && w.cache.value != []
  }

  /** Reading `groups` when the index page would show `anchors`. */
  function Groups(w: Website, anchors: seq<string>): (r: Lookup)
    // the page is fetched exactly when nothing truthy is cached
    ensures r.fetched <==> !Cached(w)
    ensures !r.fetched ==> r.names == w.cache.value && r.site == w
    // a fetch stores whatever it computed, even an empty list
    ensures r.fetched ==> r.site.cache == Some(r.names)
    ensures r.fetched ==> |r.names| == |anchors|
    ensures r.fetched ==> forall i :: 0 <= i < |anchors| && anchors[i] != [] ==>
              [anchors[i][0]] + r.names[i] == anchors[i]
  {
    if Cached(w) then Lookup(w.cache.value, w, false)
    else
      var names := GroupNames(anchors);
      Lookup(names, Website(Some(names)), true)
  }

  // ----- Lemmas -----

  /** Once `groups` has returned a non-empty list, every later read returns
      that same list without fetching, whatever the index would show then. */
  lemma NonEmptyIsMemoised(w: Website, anchors: seq<string>, later: seq<string>)
    requires Groups(w, anchors).names != []
    ensures var first := Groups(w, anchors);
      Groups(first.site, later) == Lookup(first.names, first.site, false)
  {
  }

  /** An empty list is stored but not trusted: the next read fetches again
      and returns the names of what the index shows then. */
  lemma EmptyIsRecomputed(w: Website, anchors: seq<string>, later: seq<string>)
    requires Groups(w, anchors).names == []
    ensures var second := Groups(Groups(w, anchors).site, later);
      second.fetched && second.names == GroupNames(later)
  {
  }

  /** Removing the sigil inverts adding it: anchors written `~name` give back
      exactly the names. */
  lemma {:induction false} GroupNamesStripSigil(names: seq<string>)
    ensures GroupNames(Sigils(names)) == names
  {
    if names != [] {
      GroupNamesStripSigil(names[1..]);
      assert Sigils(names)[1..] == Sigils(names[1..]);
    }
  }

  /** The anchor texts the site shows for `names`. */
  function Sigils(names: seq<string>): (r: seq<string>)
    ensures |r| == |names|
  {
    if names == [] then [] else [[Sigil] + names[0]] + Sigils(names[1..])
  }
}
