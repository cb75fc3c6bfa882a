/**
 * The shared food dictionary (the `foods_master` table) and the resolver
 * that maps free text onto it, as in `FoodSearch`:
 *
 *  - `SearchFood` tries three tiers in a fixed order and the first hit wins:
 *    an exact name match ignoring case, a substring of the alternative names
 *    ignoring case, and a bounded Levenshtein match over every entry;
 *  - `SaveFood` inserts an entry unless its name is already present,
 *    ignoring case;
 *  - `FoodsByCategory` and `AllCategories` are the two category queries.
 *
 * The table is a sequence of rows in storage order plus the next
 * AUTO_INCREMENT id. `ORDER BY` is modelled as code-point order (a binary
 * collation); `LOWER()` as ASCII lower-casing.
 */
module FoodSearch {
  import opened Wrappers
  import opened Text
  import opened Levenshtein

  /** One dictionary row. `altNames` is the comma-joined
      `alternative_names` column, which may be NULL. */
  datatype FoodEntry = FoodEntry(id: nat, name: string, emoji: string, category: string, altNames: Option<string>)

  /** The dictionary: rows in storage order and the next id to hand out. */
  datatype FoodDictionary = FoodDictionary(entries: seq<FoodEntry>, nextId: nat)

  /** The dictionary invariant: no two names equal ignoring case, distinct
      ids, every id below the next one to be handed out. */
  predicate Valid(d: FoodDictionary) {
    (forall i, j :: 0 <= i < j < |d.entries| ==> !SameName(d.entries[i].name, d.entries[j].name)) &&
    (forall i, j :: 0 <= i < j < |d.entries| ==> d.entries[i].id != d.entries[j].id) &&
    (forall i :: 0 <= i < |d.entries| ==> d.entries[i].id < d.nextId)
  }

  // ---------------------------------------------------------------------
  // Row lookups (`SELECT ... WHERE ... LIMIT 1`)
  // ---------------------------------------------------------------------

  /** The two `WHERE` conditions the resolver and `saveFood` probe with. */
  datatype Probe =
    | ByName(name: string)      // LOWER(food_name) = LOWER(name)
    | ByAlternate(term: string) // LOWER(alternative_names) LIKE LOWER('%term%')

  predicate Hits(p: Probe, e: FoodEntry) {
    match p
    case ByName(n) => SameName(e.name, n)
    case ByAlternate(t) => e.altNames.Some? && Contains(Lower(e.altNames.value), Lower(t))
  }

  predicate AnyHit(es: seq<FoodEntry>, p: Probe) {
    exists i :: 0 <= i < |es| && Hits(p, es[i])
  }

  /** Row `i` is the first row, in storage order, that the probe hits. */
  predicate IsFirstHit(es: seq<FoodEntry>, p: Probe, i: int) {
    0 <= i < |es| && Hits(p, es[i]) && forall j :: 0 <= j < i ==> !Hits(p, es[j])
  }

  /** The position of the row a `LIMIT 1` query returns, if any. */
  function FirstHit(es: seq<FoodEntry>, p: Probe): (r: Option<nat>)
    ensures r.None? <==> !AnyHit(es, p)
    ensures r.Some? ==> IsFirstHit(es, p, r.value)
  {
    if |es| == 0 then None
    else if Hits(p, es[0]) then Some(0)
    else
      match FirstHit(es[1..], p)
      case None => None
      case Some(k) => Some(k + 1)
  }

  // ---------------------------------------------------------------------
  // The fuzzy tier
  // ---------------------------------------------------------------------

  predicate Within(term: string, e: FoodEntry, tolerance: int) {
    Distance(term, e.name) <= tolerance
  }

  predicate AnyWithin(es: seq<FoodEntry>, term: string, tolerance: int) {
    exists i :: 0 <= i < |es| && Within(term, es[i], tolerance)
  }

  /** A row within tolerance together with its distance: one element of
      the resolver's list of close matches. */
  datatype Candidate = Candidate(distance: nat, food: FoodEntry)

  /** Every row scored by its distance to `term`, in storage order. */
  function Scored(es: seq<FoodEntry>, term: string): (r: seq<Candidate>)
    ensures |r| == |es|
    ensures forall i :: 0 <= i < |es| ==> r[i] == Candidate(Distance(term, es[i].name), es[i])
  {
    seq(|es|, i requires 0 <= i < |es| => Candidate(Distance(term, es[i].name), es[i]))
  }

  /** The candidates whose distance is within `tolerance`, in order. */
  function WithinTolerance(cs: seq<Candidate>, tolerance: int): (r: seq<Candidate>)
    ensures forall c :: c in r <==> c in cs && c.distance <= tolerance
  {
    if |cs| == 0 then []
    else
      var rest := WithinTolerance(cs[1..], tolerance);
      assert forall c :: c in cs <==> c == cs[0] || c in cs[1..];
      if cs[0].distance <= tolerance then [cs[0]] + rest else rest
  }

  /** `x` comes strictly before `y` once the candidates are ordered by name
      and then stably sorted by distance. */
  predicate Outranks(x: Candidate, y: Candidate) {
    x.distance < y.distance || (x.distance == y.distance && LexLess(x.food.name, y.food.name))
  }

  lemma OutranksTransitive(x: Candidate, y: Candidate, z: Candidate)
    requires Outranks(x, y) && Outranks(y, z)
    ensures Outranks(x, z)
  {
    if LexLess(x.food.name, y.food.name) && LexLess(y.food.name, z.food.name) {
      LexLessTransitive(x.food.name, y.food.name, z.food.name);
    }
  }

  /**
   * The first element after sorting by name and then stably by distance:
   * scanning in order, a candidate replaces the one kept so far only when
   * it outranks it, so among candidates equal in both distance and name
   * the earliest stays.
   */
  function Best(cs: seq<Candidate>): (r: Option<Candidate>)
    ensures r.None? <==> |cs| == 0
    ensures r.Some? ==> r.value in cs && forall c :: c in cs ==> !Outranks(c, r.value)
  {
    if |cs| == 0 then None
    else
      var prefix, last := cs[..|cs| - 1], cs[|cs| - 1];
      assert cs == prefix + [last];
      var best := Best(prefix);
      if best.None? || Outranks(last, best.value) then
        forall c | c in cs ensures !Outranks(c, last) {
          LexLessIrreflexive(last.food.name);
          if c != last && Outranks(c, last) {
            OutranksTransitive(c, last, best.value);
          }
        }
        Some(last)
      else
        best
  }

  /** `x` ranks strictly before `y` for `term`: a smaller distance, or the
      same distance and a smaller name. */
  predicate RanksBefore(term: string, x: FoodEntry, y: FoodEntry) {
    Distance(term, x.name) < Distance(term, y.name) ||
    (Distance(term, x.name) == Distance(term, y.name) && LexLess(x.name, y.name))
  }

  /** `e` is within tolerance and no row within tolerance ranks before it. */
  predicate IsClosest(es: seq<FoodEntry>, term: string, tolerance: int, e: FoodEntry) {
    e in es && Within(term, e, tolerance) &&
    forall x :: x in es && Within(term, x, tolerance) ==> !RanksBefore(term, x, e)
  }

  /** No candidate within tolerance means no row within tolerance. */
  lemma NoCandidateNoneWithin(es: seq<FoodEntry>, term: string, tolerance: int)
    requires |WithinTolerance(Scored(es, term), tolerance)| == 0
    ensures !AnyWithin(es, term, tolerance)
  {
    var scored := Scored(es, term);
    forall i | 0 <= i < |es|
      ensures !Within(term, es[i], tolerance)
    {
      assert scored[i] in scored;
    }
  }

  /** A row within tolerance whose candidate does not outrank `b` does
      not rank before `b`'s row. */
  lemma RowNotBefore(es: seq<FoodEntry>, term: string, tolerance: int, b: Candidate, i: int)
    requires 0 <= i < |es|
    requires b.distance == Distance(term, b.food.name)
    requires !Outranks(Scored(es, term)[i], b)
    ensures !RanksBefore(term, es[i], b.food)
  {
  }

  /** A candidate outranked by none within tolerance is outranked by no
      element within tolerance. */
  lemma NoneWithinOutranks(cs: seq<Candidate>, tolerance: int, b: Candidate, i: int)
    requires forall c :: c in WithinTolerance(cs, tolerance) ==> !Outranks(c, b)
    requires 0 <= i < |cs| && cs[i].distance <= tolerance
    ensures !Outranks(cs[i], b)
  {
    assert cs[i] in WithinTolerance(cs, tolerance);
  }

  /** The best candidate's row is the closest row. */
  lemma BestCandidateIsClosest(es: seq<FoodEntry>, term: string, tolerance: int, b: Candidate)
    requires var cs := WithinTolerance(Scored(es, term), tolerance);
      b in cs && forall c :: c in cs ==> !Outranks(c, b)
    ensures IsClosest(es, term, tolerance, b.food)
  {
    var scored := Scored(es, term);
    assert b in scored && b.distance <= tolerance;
    var k :| 0 <= k < |scored| && scored[k] == b;
    assert b.food == es[k] && b.distance == Distance(term, es[k].name);
    forall x | x in es && Within(term, x, tolerance)
      ensures !RanksBefore(term, x, b.food)
    {
      var i :| 0 <= i < |es| && es[i] == x;
      NoneWithinOutranks(scored, tolerance, b, i);
      RowNotBefore(es, term, tolerance, b, i);
    }
  }

  /** The fuzzy tier: the row of the best candidate, if any. */
  function Closest(es: seq<FoodEntry>, term: string, tolerance: int): (r: Option<FoodEntry>)
    ensures r.None? <==> !AnyWithin(es, term, tolerance)
    ensures r.Some? ==> IsClosest(es, term, tolerance, r.value)
  {
    match Best(WithinTolerance(Scored(es, term), tolerance))
    case None =>
      NoCandidateNoneWithin(es, term, tolerance);
      None
    case Some(b) =>
      BestCandidateIsClosest(es, term, tolerance, b);
      Some(b.food)
  }

  /** In a valid dictionary at most one row is closest: the fuzzy tier's
      answer does not depend on how ties would be broken. */
  lemma ClosestUnique(d: FoodDictionary, term: string, tolerance: int, x: FoodEntry, y: FoodEntry)
    requires Valid(d)
    requires IsClosest(d.entries, term, tolerance, x) && IsClosest(d.entries, term, tolerance, y)
    ensures x == y
  {
    if x != y {
      var i :| 0 <= i < |d.entries| && d.entries[i] == x;
      var j :| 0 <= j < |d.entries| && d.entries[j] == y;
      if i < j {
        assert !SameName(d.entries[i].name, d.entries[j].name);
      } else {
        assert !SameName(d.entries[j].name, d.entries[i].name);
      }
      LexLessTotal(x.name, y.name);
    }
  }

  // ---------------------------------------------------------------------
  // searchFood
  // ---------------------------------------------------------------------

  /** How a hit was found. The exact tier returns the row without a tag. */
  datatype MatchTag = AlternativeNames | FuzzyMatch

  /** A local hit: the row, its `matched_via` tag and its `confidence`
      field (present on fuzzy hits only). */
  datatype LocalMatch = LocalMatch(entry: FoodEntry, matchedVia: Option<MatchTag>, confidence: Option<string>)

  /** Search terms shorter than this, after trimming, are never looked up. */
  const MinTermLength: nat := 2

  /**
   * The three tiers of `searchFood` for an already trimmed term: the first
   * row whose name equals the term ignoring case; failing that, the first
   * row whose alternative names contain the term ignoring case; failing
   * that, the closest row within `tolerance` edits; failing that, nothing.
   */
  function Lookup(es: seq<FoodEntry>, term: string, tolerance: int): (r: Option<LocalMatch>)
    ensures r.None? <==>
      !AnyHit(es, ByName(term)) && !AnyHit(es, ByAlternate(term)) && !AnyWithin(es, term, tolerance)
    ensures r.Some? && r.value.matchedVia.None? ==>
      r.value.confidence.None? &&
      exists i :: IsFirstHit(es, ByName(term), i) && r.value.entry == es[i]
    ensures r.Some? && r.value.matchedVia == Some(AlternativeNames) ==>
      r.value.confidence.None? && !AnyHit(es, ByName(term)) &&
      exists i :: IsFirstHit(es, ByAlternate(term), i) && r.value.entry == es[i]
    ensures r.Some? && r.value.matchedVia == Some(FuzzyMatch) ==>
      r.value.confidence == Some("medium") &&
      !AnyHit(es, ByName(term)) && !AnyHit(es, ByAlternate(term)) &&
      IsClosest(es, term, tolerance, r.value.entry)
    ensures AnyHit(es, ByName(term)) ==> r.Some? && r.value.matchedVia.None?
    ensures !AnyHit(es, ByName(term)) && AnyHit(es, ByAlternate(term)) ==>
      r.Some? && r.value.matchedVia == Some(AlternativeNames)
  {
    match FirstHit(es, ByName(term))
    case Some(i) => Some(LocalMatch(es[i], None, None))
    case None =>
      match FirstHit(es, ByAlternate(term))
      case Some(i) => Some(LocalMatch(es[i], Some(AlternativeNames), None))
      case None =>
        match Closest(es, term, tolerance)
        case Some(e) => Some(LocalMatch(e, Some(FuzzyMatch), Some("medium")))
        case None => None
  }

  /**
   * `searchFood`: trim the input; a term shorter than two characters finds
   * nothing, any other term goes through the three tiers.
   */
  function SearchFood(d: FoodDictionary, foodName: string, tolerance: int): (r: Option<LocalMatch>)
    ensures |Trim(foodName)| < MinTermLength ==> r.None?
    ensures |Trim(foodName)| >= MinTermLength ==> r == Lookup(d.entries, Trim(foodName), tolerance)
  {
    var term := Trim(foodName);
    if |term| < MinTermLength then None else Lookup(d.entries, term, tolerance)
  }

  /** In a valid dictionary, any spelling of a row's name that differs only
      in case and surrounding whitespace finds exactly that row, untagged. */
  lemma SearchFindsAnyCasing(d: FoodDictionary, e: FoodEntry, query: string, tolerance: int)
    requires Valid(d) && e in d.entries
    requires |Trim(query)| >= MinTermLength && SameName(Trim(query), e.name)
    ensures SearchFood(d, query, tolerance) == Some(LocalMatch(e, None, None))
  {
    LookupFindsSameName(d, e, Trim(query), tolerance);
  }

  /** The exact tier finds the one row whose name equals the term ignoring
      case. */
  lemma LookupFindsSameName(d: FoodDictionary, e: FoodEntry, term: string, tolerance: int)
    requires Valid(d) && e in d.entries && SameName(term, e.name)
    ensures Lookup(d.entries, term, tolerance) == Some(LocalMatch(e, None, None))
  {
    var es := d.entries;
    var k :| 0 <= k < |es| && es[k] == e;
    assert Hits(ByName(term), es[k]);
    var r := Lookup(es, term, tolerance);
    var i :| IsFirstHit(es, ByName(term), i) && r.value.entry == es[i];
    if i < k {
      assert SameName(es[i].name, es[k].name);
    }
  }

  // ---------------------------------------------------------------------
  // saveFood
  // ---------------------------------------------------------------------

  /** `saveFood`'s answer: the new id, or `false` because the name exists. */
  datatype SaveResult = Saved(id: nat) | AlreadyExists

  /**
   * `saveFood`: refuse when a row with the same name ignoring case exists,
   * leaving the dictionary as it is; otherwise append one row with the next
   * id and exactly the given fields.
   */
  function SaveFood(d: FoodDictionary, name: string, emoji: string, category: string, altNames: Option<string>)
    : (r: (SaveResult, FoodDictionary))
    ensures r.0 == AlreadyExists <==> AnyHit(d.entries, ByName(name))
    ensures r.0 == AlreadyExists ==> r.1 == d
    ensures r.0.Saved? ==>
      r.1.entries == d.entries + [FoodEntry(r.0.id, name, emoji, category, altNames)] &&
      r.0.id == d.nextId < r.1.nextId
    ensures Valid(d) && r.0.Saved? ==> forall e :: e in d.entries ==> e.id != r.0.id
    ensures Valid(d) ==> Valid(r.1)
  {
    if FirstHit(d.entries, ByName(name)).Some? then
      (AlreadyExists, d)
    else
      var e := FoodEntry(d.nextId, name, emoji, category, altNames);
      var d' := FoodDictionary(d.entries + [e], d.nextId + 1);
      SaveKeepsValid(d, e, d');
      (Saved(d.nextId), d')
  }

  lemma SaveKeepsValid(d: FoodDictionary, e: FoodEntry, d': FoodDictionary)
    requires !AnyHit(d.entries, ByName(e.name)) && e.id == d.nextId
    requires d' == FoodDictionary(d.entries + [e], d.nextId + 1)
    ensures Valid(d) ==> Valid(d')
    ensures Valid(d) ==> forall x :: x in d.entries ==> x.id != e.id
  {
    var n := |d.entries|;
    forall i | 0 <= i < n
      ensures !SameName(d'.entries[i].name, e.name)
    {
      assert d'.entries[i] == d.entries[i];
      assert !Hits(ByName(e.name), d.entries[i]);
    }
  }

  // ---------------------------------------------------------------------
  // Category queries
  // ---------------------------------------------------------------------

  /** The columns the category query selects. */
  datatype FoodCard = FoodCard(name: string, emoji: string, category: string)

  function Card(e: FoodEntry): FoodCard {
    FoodCard(e.name, e.emoji, e.category)
  }

  /** The cards of the rows in `category`, in storage order. */
  function CardsIn(es: seq<FoodEntry>, category: string): (r: seq<FoodCard>)
    ensures forall c :: c in r <==> exists e :: e in es && e.category == category && Card(e) == c
  {
    if |es| == 0 then []
    else
      var rest := CardsIn(es[1..], category);
      assert forall e :: e in es <==> e == es[0] || e in es[1..];
      if es[0].category == category then [Card(es[0])] + rest else rest
  }

  predicate SortedByName(s: seq<FoodCard>) {
    forall i, j :: 0 <= i < j < |s| ==> !LexLess(s[j].name, s[i].name)
  }

  lemma PrependSorted(c: FoodCard, s: seq<FoodCard>)
    requires SortedByName(s)
    requires forall x :: x in s ==> !LexLess(x.name, c.name)
    ensures SortedByName([c] + s)
  {
    forall i, j | 0 <= i < j < |[c] + s|
      ensures !LexLess(([c] + s)[j].name, ([c] + s)[i].name)
    {
      if i > 0 {
        assert ([c] + s)[i] == s[i - 1] && ([c] + s)[j] == s[j - 1];
      } else {
        assert ([c] + s)[j] in s;
      }
    }
  }

  /** Every card of a sorted sequence sorts no earlier than its head. */
  lemma NoneBeforeHead(s: seq<FoodCard>)
    requires SortedByName(s) && |s| > 0
    ensures forall x :: x in s ==> !LexLess(x.name, s[0].name)
  {
    LexLessIrreflexive(s[0].name);
  }

  /** Insert `c` after every card whose name does not sort after it. */
  function InsertByName(c: FoodCard, s: seq<FoodCard>): (r: seq<FoodCard>)
    requires SortedByName(s)
    ensures SortedByName(r)
    ensures multiset(r) == multiset(s) + multiset{c}
  {
    if |s| == 0 then [c]
    else if LexLess(c.name, s[0].name) then
      NoneBeforeHead(s);
      forall x | x in s ensures !LexLess(x.name, c.name) {
        if LexLess(x.name, c.name) {
          LexLessTransitive(x.name, c.name, s[0].name);
        }
      }
      PrependSorted(c, s);
      [c] + s
    else
      var rest := InsertByName(c, s[1..]);
      assert s == [s[0]] + s[1..];
      forall x | x in rest ensures !LexLess(x.name, s[0].name) {
        assert x in multiset(rest);
        if x != c {
          assert x in s[1..];
        }
      }
      PrependSorted(s[0], rest);
      [s[0]] + rest
  }

  function SortByName(s: seq<FoodCard>): (r: seq<FoodCard>)
    ensures SortedByName(r)
    ensures multiset(r) == multiset(s)
  {
    if |s| == 0 then []
    else
      assert s == s[..|s| - 1] + [s[|s| - 1]];
      InsertByName(s[|s| - 1], SortByName(s[..|s| - 1]))
  }

  /** `getFoodsByCategory`: exactly the cards of the rows in `category`,
      each as often as it occurs, ordered by name. */
  function FoodsByCategory(d: FoodDictionary, category: string): (r: seq<FoodCard>)
    ensures SortedByName(r)
    ensures multiset(r) == multiset(CardsIn(d.entries, category))
    ensures forall c :: c in r <==> exists e :: e in d.entries && e.category == category && Card(e) == c
  {
    var cards := CardsIn(d.entries, category);
    var r := SortByName(cards);
    assert forall c :: c in r <==> c in multiset(r);
    assert forall c :: c in cards <==> c in multiset(cards);
    r
  }

  predicate StrictlyAscending(s: seq<string>) {
    forall i, j :: 0 <= i < j < |s| ==> LexLess(s[i], s[j])
  }

  lemma PrependAscending(c: string, s: seq<string>)
    requires StrictlyAscending(s)
    requires forall x :: x in s ==> LexLess(c, x)
    ensures StrictlyAscending([c] + s)
  {
    forall i, j | 0 <= i < j < |[c] + s|
      ensures LexLess(([c] + s)[i], ([c] + s)[j])
    {
      if i > 0 {
        assert ([c] + s)[i] == s[i - 1] && ([c] + s)[j] == s[j - 1];
      } else {
        assert ([c] + s)[j] in s;
      }
    }
  }

  /** Insert `c` into a strictly ascending list unless it is already there. */
  function InsertCategory(c: string, s: seq<string>): (r: seq<string>)
    requires StrictlyAscending(s)
    ensures StrictlyAscending(r)
    ensures forall x :: x in r <==> x == c || x in s
  {
    if |s| == 0 then [c]
    else if c == s[0] then s
    else if LexLess(c, s[0]) then
      forall x | x in s ensures LexLess(c, x) {
        if x != s[0] {
          LexLessTransitive(c, s[0], x);
        }
      }
      PrependAscending(c, s);
      [c] + s
    else
      LexLessTotal(c, s[0]);
      var rest := InsertCategory(c, s[1..]);
      assert s == [s[0]] + s[1..];
      PrependAscending(s[0], rest);
      [s[0]] + rest
  }

  /** The distinct categories of `es`, ascending. */
  function CategoriesOf(es: seq<FoodEntry>): (r: seq<string>)
    ensures StrictlyAscending(r)
    ensures forall c :: c in r <==> exists e :: e in es && e.category == c
  {
    if |es| == 0 then []
    else
      var prefix := es[..|es| - 1];
      assert forall e :: e in es <==> e == es[|es| - 1] || e in prefix;
      InsertCategory(es[|es| - 1].category, CategoriesOf(prefix))
  }

  /** `getAllCategories`: every category in use exactly once, ascending. */
  function AllCategories(d: FoodDictionary): (r: seq<string>)
    ensures StrictlyAscending(r)
    ensures forall c :: c in r <==> exists e :: e in d.entries && e.category == c
  {
    CategoriesOf(d.entries)
  }

  /** Strictly ascending lists hold no duplicates. */
  lemma AscendingDistinct(s: seq<string>, i: int, j: int)
    requires StrictlyAscending(s) && 0 <= i < j < |s|
    ensures s[i] != s[j]
  {
    LexLessIrreflexive(s[i]);
  }
}
