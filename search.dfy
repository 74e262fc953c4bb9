/**
 * Showing and hiding the competitions list: `searchCompetitions` matches a
 * query against each `.accordion-item`'s title and details, and
 * `filterByStatus` matches a status against the classes of its status badge.
 * Both only set each item's `style.display`.
 */
module Search {
  import opened Text

  /**
   * One `.accordion-item`: the text of its `h3` title and of its
   * `.competition-details`, the classes of its `.status-badge`, and its
   * `style.display`.
   */
  datatype Item = Item(title: string, details: string, badge: set<string>, display: string)

  function Shown(visible: bool): string {
    if visible then "block" else "none"
  }

  /** The query as it is matched: lower-cased, then trimmed; blank exactly when the query is. */
  function SearchTerm(query: string): (r: string)
    ensures r == [] <==> AllSpace(query)
  {
    var lowered := Lower(query);
    assert AllSpace(lowered) <==> AllSpace(query) by {
      forall k | 0 <= k < |query| ensures IsSpace(lowered[k]) <==> IsSpace(query[k]) {
      }
    }
    Trim(lowered)
  }

  /** The item's title or details contain the term, ignoring the case of ASCII letters. */
  predicate Matches(item: Item, term: string) {
    Contains(Lower(item.title), term) || Contains(Lower(item.details), term)
  }

  /** The items after a search for `term`: with a blank term every item is shown, otherwise the matching ones. */
  function ShownFor(s: seq<Item>, term: string): (r: seq<Item>)
    ensures |r| == |s|
  {
    seq(|s|, k requires 0 <= k < |s| => s[k].(display := Shown(term == [] || Matches(s[k], term))))
  }

  /** The items after a search for `query`. */
  function Searched(s: seq<Item>, query: string): (r: seq<Item>)
    ensures |r| == |s|
  {
    ShownFor(s, SearchTerm(query))
  }

  /** The items after filtering: "all" shows every item, any other status the items whose badge has it as a class. */
  function Filtered(s: seq<Item>, status: string): (r: seq<Item>)
    ensures |r| == |s|
  {
    seq(|s|, k requires 0 <= k < |s| => s[k].(display := Shown(status == "all" || status in s[k].badge)))
  }

  /** `searchCompetitions`: a blank term shows every item, any other term the matching ones. */
  method SearchCompetitions(items: array<Item>, query: string)
    modifies items
    ensures items[..] == Searched(old(items[..]), query)
  {
    var term := SearchTerm(query);
    if term == [] {
      ShowAll(items);
      return;
    }
    ShowMatching(items, term);
  }

  /** The first `forEach` of `searchCompetitions`: every item shown. */
  method ShowAll(items: array<Item>)
    modifies items
    ensures items[..] == ShownFor(old(items[..]), [])
  {
    for j := 0 to items.Length
      invariant forall k | 0 <= k < j :: items[k] == old(items[k]).(display := "block")
      invariant forall k | j <= k < items.Length :: items[k] == old(items[k])
    {
      items[j] := items[j].(display := "block");
    }
  }

  /** The second `forEach` of `searchCompetitions`: each item shown when its title or details contain `term`. */
  method ShowMatching(items: array<Item>, term: string)
    requires term != []
    modifies items
    ensures items[..] == ShownFor(old(items[..]), term)
  {
    for j := 0 to items.Length
      invariant forall k | 0 <= k < j :: items[k] == old(items[k]).(display := Shown(Matches(old(items[k]), term)))
      invariant forall k | j <= k < items.Length :: items[k] == old(items[k])
    {
      var title := Lower(items[j].title);
      var content := Lower(items[j].details);
      if Contains(title, term) || Contains(content, term) {
        items[j] := items[j].(display := "block");
      } else {
        items[j] := items[j].(display := "none");
      }
    }
  }

  /** `filterByStatus`. */
  method FilterByStatus(items: array<Item>, status: string)
    modifies items
    ensures items[..] == Filtered(old(items[..]), status)
  {
    for j := 0 to items.Length
      invariant forall k | 0 <= k < items.Length ::
        items[k] == if k < j then Filtered(old(items[..]), status)[k] else old(items[k])
    {
      if status == "all" || status in items[j].badge {
        items[j] := items[j].(display := "block");
      } else {
        items[j] := items[j].(display := "none");
      }
    }
  }

  // ---------------------------------------------------------------------------
  // Properties

  /** A blank query shows every item. */
  lemma BlankQueryShowsAll(s: seq<Item>, query: string)
    requires AllSpace(query)
    ensures forall k | 0 <= k < |s| :: Searched(s, query)[k].display == "block"
  {
  }

  /** With a non-blank query an item is shown exactly when its title or details contain the term. */
  lemma SearchShowsMatches(s: seq<Item>, query: string, k: nat)
    requires !AllSpace(query)
    requires k < |s|
    ensures Searched(s, query)[k].display == "block" <==> Matches(s[k], SearchTerm(query))
  {
  }

  /** The case of the query does not matter. */
  lemma SearchIgnoresQueryCase(s: seq<Item>, query: string)
    ensures Searched(s, Lower(query)) == Searched(s, query)
  {
    LowerIdempotent(query);
  }

  /** Lengthening the query never shows more: an item shown for a longer term is shown for any non-blank part of it. */
  lemma SearchNarrows(s: seq<Item>, shorter: string, longer: string, k: nat)
    requires k < |s|
    requires SearchTerm(shorter) != [] && Contains(SearchTerm(longer), SearchTerm(shorter))
    requires Searched(s, longer)[k].display == "block"
    ensures Searched(s, shorter)[k].display == "block"
  {
    var t1, t2 := SearchTerm(shorter), SearchTerm(longer);
    assert t2 != [];
    if Contains(Lower(s[k].title), t2) {
      ContainsTransitive(Lower(s[k].title), t2, t1);
    } else {
      ContainsTransitive(Lower(s[k].details), t2, t1);
    }
  }

  /** "all" shows every item. */
  lemma FilterAllShowsAll(s: seq<Item>)
    ensures forall k | 0 <= k < |s| :: Filtered(s, "all")[k].display == "block"
  {
  }

  /**
   * Searching sets every item's visibility afresh: a status filter applied
   * before is forgotten.
   */
  lemma SearchOverridesFilter(s: seq<Item>, status: string, query: string)
    ensures Searched(Filtered(s, status), query) == Searched(s, query)
  {
  }

  /** Neither operation changes anything about an item but its visibility. */
  lemma OnlyDisplayChanges(s: seq<Item>, status: string, query: string, k: nat)
    requires k < |s|
    ensures Searched(s, query)[k].(display := s[k].display) == s[k]
    ensures Filtered(s, status)[k].(display := s[k].display) == s[k]
  {
  }
}
