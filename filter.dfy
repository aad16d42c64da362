/**
 * The filter pass of the catalogue page: criteria built from the three input fields, the
 * per-card predicate, and the order-preserving selection over the fixed list of cards.
 */
module Filtering {
  import opened Wrappers
  import opened Text
  import opened Sequences

  /**
   * One car card as the page renders it: its `data-marca` and its `data-modelo` (either may
   * be absent) and the number parsed from its `data-precio`, `None` when that parse gives NaN.
   */
  datatype Card = Card(marca: Option<string>, modelo: Option<string>, precio: Option<int>)

  /** An upper price bound; `Unbounded` is JavaScript's `Infinity`. */
  datatype Ceiling = Finite(bound: int) | Unbounded

  /** The criteria of one filter pass: normalised query and inclusive price bounds. */
  datatype Criteria = Criteria(query: string, minPrice: int, maxPrice: Ceiling)

  /** JavaScript truthiness of a parsed number: NaN and 0 are falsy. */
  predicate Truthy(n: Option<int>) {
    n.Some? && n.value != 0
  }

  /** The query field lower-cased, then trimmed: never longer than the field. */
  function NormalizeQuery(raw: string): (r: string)
    ensures |r| <= |raw|
  {
    Trim(Lower(raw))
  }

  /** A normalised query has no upper-case letter and no white space at either end. */
  lemma NormalizedQueryShape(raw: string)
    ensures forall k :: 0 <= k < |NormalizeQuery(raw)| ==> !IsUpper(NormalizeQuery(raw)[k])
    ensures NormalizeQuery(raw) == [] ||
      (!IsSpace(NormalizeQuery(raw)[0]) && !IsSpace(NormalizeQuery(raw)[|NormalizeQuery(raw)| - 1]))
  {
    LowerNoUpper(raw);
    TrimNoUpper(Lower(raw));
    var _ := TrimSlice(Lower(raw));
  }

  /** Trimming a string without upper-case letters leaves none. */
  lemma TrimNoUpper(l: string)
    requires forall k :: 0 <= k < |l| ==> !IsUpper(l[k])
    ensures forall k :: 0 <= k < |Trim(l)| ==> !IsUpper(Trim(l)[k])
  {
    var r := Trim(l);
    var i := TrimSlice(l);
    forall k | 0 <= k < |r| ensures !IsUpper(r[k]) {
      assert r[k] == l[i + k];
    }
  }

  /** A query with no upper-case letter and no white space at either end is left as it is. */
  lemma NormalizedQueryFixed(q: string)
    requires forall k :: 0 <= k < |q| ==> !IsUpper(q[k])
    requires q == [] || (!IsSpace(q[0]) && !IsSpace(q[|q| - 1]))
    ensures NormalizeQuery(q) == q
  {
    LowerAt(q);
    assert Lower(q) == q;
    assert TrimStart(q) == q;
  }

  /** Normalising twice is normalising once. */
  lemma NormalizeIdempotent(raw: string)
    ensures NormalizeQuery(NormalizeQuery(raw)) == NormalizeQuery(raw)
  {
    NormalizedQueryShape(raw);
    NormalizedQueryFixed(NormalizeQuery(raw));
  }

  /** `parseFloat(min) || 0`: NaN and 0 both give the default 0. */
  function MinPrice(parsed: Option<int>): (r: int)
    ensures parsed.None? ==> r == 0
    ensures parsed.Some? ==> r == parsed.value
  {
    if Truthy(parsed) then parsed.value else 0
  }

  /** `parseFloat(max) || Infinity`: NaN and also 0 give no upper bound. */
  function MaxPrice(parsed: Option<int>): (r: Ceiling)
    ensures r == Unbounded <==> parsed.None? || parsed.value == 0
    ensures r.Finite? ==> r.bound == parsed.value
  {
    if Truthy(parsed) then Finite(parsed.value) else Unbounded
  }

  /**
   * The criteria of one pass, from the raw query text and the results of `parseFloat`
   * on the two price fields.
   */
  function CriteriaFromFields(queryText: string, minParsed: Option<int>, maxParsed: Option<int>): (r: Criteria)
    ensures r.query == NormalizeQuery(queryText)
    ensures r.minPrice == 0 <==> minParsed.None? || minParsed.value == 0
    ensures minParsed.Some? ==> r.minPrice == minParsed.value
    ensures r.maxPrice.Unbounded? <==> maxParsed.None? || maxParsed.value == 0
    ensures r.maxPrice.Finite? ==> maxParsed.Some? && r.maxPrice.bound == maxParsed.value
  {
    Criteria(NormalizeQuery(queryText), MinPrice(minParsed), MaxPrice(maxParsed))
  }

  /**
   * The lower-cased `data-marca`. A card without the attribute makes the callback throw
   * (see `RunFilter`), so the page never tests such a card; the empty text is a placeholder.
   */
  function BrandText(card: Card): (r: string)
    ensures card.marca.Some? ==> r == Lower(card.marca.value)
    ensures |r| == if card.marca.Some? then |card.marca.value| else 0
  {
    if card.marca.Some? then Lower(card.marca.value) else ""
  }

  /**
   * The lower-cased `data-modelo`, or the empty string when the attribute is absent or empty:
   * an absent modelo reads as the empty one.
   */
  function ModeloText(card: Card): (r: string)
    ensures card.modelo.None? ==> r == ""
    ensures card.modelo.Some? ==> r == Lower(card.modelo.value)
  {
    if card.modelo.Some? && card.modelo.value != "" then Lower(card.modelo.value) else ""
  }

  /**
   * The text test: empty query, or a substring of the lower-cased marca or modelo. The
   * empty query matches every card, and a query longer than both texts matches none.
   */
  predicate MatchesQuery(card: Card, query: string)
    ensures query == [] ==> MatchesQuery(card, query)
    ensures |query| > |BrandText(card)| && |query| > |ModeloText(card)| ==> !MatchesQuery(card, query)
  {
    query == "" || Contains(BrandText(card), query) || Contains(ModeloText(card), query)
  }

  /**
   * The price test, both bounds inclusive; a NaN price fails every comparison, and so does
   * every price when the minimum exceeds a finite maximum.
   */
  predicate InRange(card: Card, minPrice: int, maxPrice: Ceiling)
    ensures card.precio.None? ==> !InRange(card, minPrice, maxPrice)
    ensures maxPrice.Finite? && minPrice > maxPrice.bound ==> !InRange(card, minPrice, maxPrice)
    ensures card.precio.Some? && minPrice <= 0 <= card.precio.value && maxPrice.Unbounded? ==> InRange(card, minPrice, maxPrice)
  {
    card.precio.Some? && card.precio.value >= minPrice &&
    (maxPrice.Unbounded? || card.precio.value <= maxPrice.bound)
  }

  /** The callback given to `filter`: both tests must hold; with the empty query only the price decides. */
  predicate Keep(card: Card, c: Criteria)
    ensures Keep(card, c) ==> InRange(card, c.minPrice, c.maxPrice)
    ensures c.query == [] ==> (Keep(card, c) <==> InRange(card, c.minPrice, c.maxPrice))
  {
    MatchesQuery(card, c.query) && InRange(card, c.minPrice, c.maxPrice)
  }

  /** Every card carries `data-marca`. */
  predicate AllBranded(cards: seq<Card>) {
    forall i :: 0 <= i < |cards| ==> cards[i].marca.Some?
  }

  /**
   * The `filter` call as it runs: the callback reads `data-marca` first, so the first card
   * without one raises a TypeError and the call yields no array (`None`).
   */
  function RunFilter(cards: seq<Card>, c: Criteria): (r: Option<seq<Card>>)
    ensures cards != [] && cards[0].marca.None? ==> r.None?
    ensures r.Some? ==> |r.value| <= |cards|
  {
    if cards == [] then Some([])
    else if cards[0].marca.None? then None
    else match RunFilter(cards[1..], c) {
      case None => None
      case Some(rest) => Some((if Keep(cards[0], c) then [cards[0]] else []) + rest)
    }
  }

  /** The call throws iff some card lacks a brand, and otherwise returns `Filter`'s result. */
  lemma {:induction false} RunFilterSpec(cards: seq<Card>, c: Criteria)
    ensures RunFilter(cards, c) == if AllBranded(cards) then Some(Filter(cards, c)) else None
  {
    if cards != [] {
      RunFilterSpec(cards[1..], c);
      assert AllBranded(cards) <==> cards[0].marca.Some? && AllBranded(cards[1..]) by {
        assert forall i :: 1 <= i < |cards| ==> cards[i] == cards[1..][i - 1];
      }
    }
  }

  /** `todasLasTarjetas.filter(...)`: the cards that pass, in their original order. */
  function Filter(cards: seq<Card>, c: Criteria): (r: seq<Card>)
    ensures |r| <= |cards|
  {
    if cards == [] then [] else (if Keep(cards[0], c) then [cards[0]] else []) + Filter(cards[1..], c)
  }

  /** A card is in the result iff it is one of the cards and passes the callback. */
  lemma {:induction false} FilterKeeps(cards: seq<Card>, c: Criteria, x: Card)
    ensures x in Filter(cards, c) <==> x in cards && Keep(x, c)
  {
    if cards != [] {
      FilterKeeps(cards[1..], c, x);
      assert x in cards <==> x == cards[0] || x in cards[1..];
    }
  }

  /** The result is empty exactly when no card passes the callback. */
  lemma {:induction false} FilterEmptyIff(cards: seq<Card>, c: Criteria)
    ensures Filter(cards, c) == [] <==> forall x :: x in cards ==> !Keep(x, c)
  {
    var r := Filter(cards, c);
    if r != [] {
      FilterKeeps(cards, c, r[0]);
    }
    forall x | x in cards && Keep(x, c) ensures r != [] {
      FilterKeeps(cards, c, x);
    }
  }

  /** The result keeps the relative order of the cards and adds or repeats none. */
  lemma {:induction false} FilterIsSubsequence(cards: seq<Card>, c: Criteria)
    ensures IsSubsequence(Filter(cards, c), cards)
  {
    if cards != [] {
      FilterIsSubsequence(cards[1..], c);
      var rest := Filter(cards[1..], c);
      if Keep(cards[0], c) {
        assert Filter(cards, c) == [cards[0]] + rest;
        assert ([cards[0]] + rest)[1..] == rest;
      } else {
        assert Filter(cards, c) == rest;
        SubsequenceAfterSkip(rest, cards);
      }
    }
  }

  /** When the cards are distinct objects, so are the cards in the result. */
  lemma {:induction false} FilterDistinct(cards: seq<Card>, c: Criteria)
    requires Distinct(cards)
    ensures Distinct(Filter(cards, c))
  {
    if cards != [] {
      assert Distinct(cards[1..]);
      FilterDistinct(cards[1..], c);
      var rest := Filter(cards[1..], c);
      if Keep(cards[0], c) {
        assert cards[0] !in cards[1..];
        FilterKeeps(cards[1..], c, cards[0]);
        var r := [cards[0]] + rest;
        forall i, j | 0 <= i < j < |r| ensures r[i] != r[j] {
          if i == 0 {
            assert r[j] in rest;
          } else {
            assert r[i] == rest[i - 1] && r[j] == rest[j - 1];
          }
        }
      }
    }
  }

  /** Filtering the result again with the same criteria gives it back unchanged. */
  lemma {:induction false} FilterIdempotent(cards: seq<Card>, c: Criteria)
    ensures Filter(Filter(cards, c), c) == Filter(cards, c)
  {
    if cards != [] {
      var rest := Filter(cards[1..], c);
      FilterIdempotent(cards[1..], c);
      if Keep(cards[0], c) {
        var r := [cards[0]] + rest;
        assert r[0] == cards[0] && r[1..] == rest;
        assert Filter(r, c) == [cards[0]] + Filter(rest, c);
      } else {
        assert Filter(cards, c) == rest;
      }
    }
  }

  /**
   * Membership in the result, with the substring test spelled out by position: a card is
   * kept iff (the query is empty, or it occurs in the lower-cased marca or modelo) and its
   * price lies in [min, max].
   */
  lemma {:induction false} FilterMembership(cards: seq<Card>, c: Criteria, x: Card)
    ensures x in Filter(cards, c) <==>
      x in cards &&
      (c.query == [] ||
       (exists i :: OccursAt(BrandText(x), c.query, i)) ||
       (exists i :: OccursAt(ModeloText(x), c.query, i))) &&
      x.precio.Some? && c.minPrice <= x.precio.value &&
      (c.maxPrice.Unbounded? || x.precio.value <= c.maxPrice.bound)
  {
    ContainsAt(BrandText(x), c.query);
    ContainsAt(ModeloText(x), c.query);
    FilterKeeps(cards, c, x);
    assert Contains(BrandText(x), c.query) <==> exists i :: OccursAt(BrandText(x), c.query, i);
    assert Contains(ModeloText(x), c.query) <==> exists i :: OccursAt(ModeloText(x), c.query, i);
    assert MatchesQuery(x, c.query) <==> (c.query == [] ||
       (exists i :: OccursAt(BrandText(x), c.query, i)) ||
       (exists i :: OccursAt(ModeloText(x), c.query, i)));
    assert InRange(x, c.minPrice, c.maxPrice) <==> (x.precio.Some? && c.minPrice <= x.precio.value &&
      (c.maxPrice.Unbounded? || x.precio.value <= c.maxPrice.bound));
  }

  /** A card without `data-modelo` matches on its marca only: the missing modelo is no wildcard. */
  lemma MissingModeloNoWildcard(card: Card, query: string)
    requires card.modelo.None?
    ensures MatchesQuery(card, query) <==> query == [] || Contains(BrandText(card), query)
  {
    ContainsEmpty([], query);
  }

  /** An empty range (min above a finite max) selects nothing. */
  lemma {:induction false} EmptyRangeSelectsNothing(cards: seq<Card>, c: Criteria)
    requires c.maxPrice.Finite? && c.minPrice > c.maxPrice.bound
    ensures Filter(cards, c) == []
  {
    var r := Filter(cards, c);
    if r != [] {
      FilterKeeps(cards, c, r[0]);
    }
  }

  /** A card whose price is missing or NaN is never selected. */
  lemma {:induction false} MissingPriceNeverSelected(cards: seq<Card>, c: Criteria, x: Card)
    requires x.precio.None?
    ensures x !in Filter(cards, c)
  {
    FilterKeeps(cards, c, x);
  }

  /** Empty, unparsable or zero price fields give the defaults 0 and no upper bound. */
  lemma FieldDefaults(queryText: string, minParsed: Option<int>, maxParsed: Option<int>)
    requires minParsed.None? || minParsed == Some(0)
    requires maxParsed.None? || maxParsed == Some(0)
    ensures CriteriaFromFields(queryText, minParsed, maxParsed) == Criteria(NormalizeQuery(queryText), 0, Unbounded)
  {
  }

  /** A query field holding only white space normalises to the empty query. */
  lemma BlankQueryIsEmpty(queryText: string)
    requires AllSpace(queryText)
    ensures NormalizeQuery(queryText) == []
  {
    LowerAllSpace(queryText);
    TrimStartAllSpace(Lower(queryText));
  }

  /** With the empty query and the range [0, Infinity], every card with a valid non-negative price is kept. */
  lemma {:induction false} UnconstrainedKeepsAll(cards: seq<Card>)
    requires forall x :: x in cards ==> x.precio.Some? && x.precio.value >= 0
    ensures Filter(cards, Criteria([], 0, Unbounded)) == cards
  {
    if cards != [] {
      assert cards[0] in cards;
      assert forall x :: x in cards[1..] ==> x in cards;
      UnconstrainedKeepsAll(cards[1..]);
      assert cards == [cards[0]] + cards[1..];
    }
  }

  /**
   * With a blank query field and price fields that are empty (or zero), the result is the
   * whole list of cards in order, provided every card has a valid non-negative price.
   */
  lemma DefaultsKeepAll(cards: seq<Card>, queryText: string, minParsed: Option<int>, maxParsed: Option<int>)
    requires AllSpace(queryText)
    requires minParsed.None? || minParsed == Some(0)
    requires maxParsed.None? || maxParsed == Some(0)
    requires forall x :: x in cards ==> x.precio.Some? && x.precio.value >= 0
    ensures Filter(cards, CriteriaFromFields(queryText, minParsed, maxParsed)) == cards
  {
    BlankQueryIsEmpty(queryText);
    FieldDefaults(queryText, minParsed, maxParsed);
    UnconstrainedKeepsAll(cards);
  }

  /**
   * Queries that differ only in letter case and in surrounding white space give the same
   * criteria, hence the same result.
   */
  lemma QueryNormalization(cards: seq<Card>, q1: string, q2: string, pad1: string, pad2: string,
                           minParsed: Option<int>, maxParsed: Option<int>)
    requires AllSpace(pad1) && AllSpace(pad2)
    requires SameUpToCase(q1, q2)
    ensures CriteriaFromFields(pad1 + q1 + pad2, minParsed, maxParsed) == CriteriaFromFields(q2, minParsed, maxParsed)
    ensures Filter(cards, CriteriaFromFields(pad1 + q1 + pad2, minParsed, maxParsed)) ==
            Filter(cards, CriteriaFromFields(q2, minParsed, maxParsed))
  {
    LowerAppend(pad1 + q1, pad2);
    LowerAppend(pad1, q1);
    LowerSameUpToCase(q1, q2);
    LowerAllSpace(pad1);
    LowerAllSpace(pad2);
    TrimPadding(Lower(pad1), Lower(q2), Lower(pad2));
  }
}
