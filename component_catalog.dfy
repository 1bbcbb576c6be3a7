/** The student's component catalog: the search box, which keeps the
    components whose name or description contains the term, ignoring case,
    and the availability pill, which classes the available share of the
    total as High, Medium or Low. */
module ComponentCatalog {
  import opened Strings
  import opened Seqs
  import opened Records

  /** `comp.name.toLowerCase().includes(term.toLowerCase()) ||
      comp.description.toLowerCase().includes(term.toLowerCase())`. */
  function Matches(term: string): Component -> bool {
    (c: Component) => Contains(Lower(c.name), Lower(term)) || Contains(Lower(c.description), Lower(term))
  }

  /** `filteredComponents`. */
  function FilterComponents(cs: seq<Component>, term: string): (r: seq<Component>)
    ensures |r| <= |cs|
    ensures forall i :: 0 <= i < |r| ==> r[i] in cs && Matches(term)(r[i])
  {
    Filter(cs, Matches(term))
  }

  /** The search keeps exactly the components whose name or description
      contains the term, ignoring case, in catalog order. */
  lemma SearchMeaning(cs: seq<Component>, more: seq<Component>, term: string, c: Component)
    ensures c in FilterComponents(cs, term) <==>
      c in cs && (Contains(Lower(c.name), Lower(term)) || Contains(Lower(c.description), Lower(term)))
    ensures FilterComponents(cs + more, term) == FilterComponents(cs, term) + FilterComponents(more, term)
  {
    FilterMembership(cs, Matches(term), c);
    FilterConcat(cs, more, Matches(term));
  }

  /** An empty search box shows the whole catalog. */
  lemma EmptyTermKeepsAll(cs: seq<Component>)
    ensures FilterComponents(cs, "") == cs
  {
    forall i | 0 <= i < |cs| ensures Matches("")(cs[i]) {
      ContainsEmpty(Lower(cs[i].name));
    }
    FilterAll(cs, Matches(""));
  }

  /** The case of the term does not matter. */
  lemma SearchIgnoresCase(cs: seq<Component>, term: string)
    ensures FilterComponents(cs, Lower(term)) == FilterComponents(cs, term)
  {
    LowerIdempotent(term);
    FilterCongruent(cs, Matches(Lower(term)), Matches(term));
  }

  /** The text under an empty result: none when something matches,
      otherwise which of the two cases it is. */
  function EmptyNotice(cs: seq<Component>, term: string): (notice: string)
    ensures notice == "" <==> FilterComponents(cs, term) != []
    ensures notice == "No components available yet." <==> cs == []
    ensures FilterComponents(cs, term) == [] && cs != [] ==> notice == "No components match your search."
  {
    if FilterComponents(cs, term) != [] then ""
    else if cs == [] then "No components available yet."
    else "No components match your search."
  }

  const High: string := "High"
  const Medium: string := "Medium"
  const Low: string := "Low"

  /** `getAvailabilityStatus(available, total)`: `available / total * 100`
      compared with 50 and 20. For a positive total this is the share of the
      total that is available; a zero total gives Infinity when something is
      available and NaN otherwise, and NaN fails both comparisons. */
  function AvailabilityLevel(available: Number, total: Number): (level: string)
    ensures level in {High, Medium, Low}
    ensures available.Finite? && total.Finite? && total.n > 0 ==>
      var percentage := available.n as real / total.n as real * 100.0;
      (level == High <==> percentage > 50.0) &&
      (level == Medium <==> 20.0 < percentage <= 50.0) &&
      (level == Low <==> percentage <= 20.0)
    ensures total == Finite(0) ==> (level == High <==> available.Finite? && available.n > 0)
    ensures total == Finite(0) ==> (level == Low <==> !(available.Finite? && available.n > 0))
    ensures available.NaN? || total.NaN? ==> level == Low
  {
    match (available, total)
    case (Finite(a), Finite(t)) =>
      if t == 0 then
        if a > 0 then High else Low
      else
        PercentageCompare(a, t);
        if 100 * a > 50 * t then High
        else if 100 * a > 20 * t then Medium
        else Low
    case _ => Low
  }

  /** For a positive total, comparing the percentage with a bound is the
      same as comparing the cross-multiplied whole numbers. */
  lemma PercentageCompare(a: nat, t: nat)
    requires t > 0
    ensures a as real / t as real * 100.0 > 50.0 <==> 100 * a > 50 * t
    ensures a as real / t as real * 100.0 > 20.0 <==> 100 * a > 20 * t
  {
    ScaledShare(a, t);
    CompareScaled(a as real / t as real * 100.0, t as real, 50.0, (100 * a) as real, (50 * t) as real);
    CompareScaled(a as real / t as real * 100.0, t as real, 20.0, (100 * a) as real, (20 * t) as real);
  }

  /** The percentage times the total is a hundred times the available
      count. */
  lemma ScaledShare(a: nat, t: nat)
    requires t > 0
    ensures a as real / t as real * 100.0 * t as real == (100 * a) as real
  {
    var x, y := a as real, t as real;
    assert x / y * y == x;
    assert x / y * 100.0 * y == x / y * y * 100.0;
  }

  /** Multiplying both sides by the same positive number keeps a strict
      comparison. */
  lemma CompareScaled(p: real, y: real, b: real, scaled: real, scaledBound: real)
    requires y > 0.0 && p * y == scaled && b * y == scaledBound
    ensures p > b <==> scaled > scaledBound
  {
    if p > b {
      assert (p - b) * y > 0.0;
    } else {
      assert (b - p) * y >= 0.0;
    }
  }

  /** The order of the levels. */
  function Rank(level: string): nat {
    if level == High then 2 else if level == Medium then 1 else 0
  }

  /** With the total fixed, more available units never give a lower level. */
  lemma LevelMonotone(a1: nat, a2: nat, total: Number)
    requires a1 <= a2
    ensures Rank(AvailabilityLevel(Finite(a1), total)) <= Rank(AvailabilityLevel(Finite(a2), total))
  {
  }

  /** `getStatusColor` of the catalog. */
  function CatalogBadge(level: string): (badge: string)
    ensures badge == "bg-gray-100 text-gray-800" <==> level !in {High, Medium, Low}
  {
    if level == High then "bg-green-100 text-green-800"
    else if level == Medium then "bg-yellow-100 text-yellow-800"
    else if level == Low then "bg-red-100 text-red-800"
    else "bg-gray-100 text-gray-800"
  }

  /** The pill of a catalog card never falls to the default colour. */
  lemma CardBadgeNeverDefault(c: Component)
    ensures CatalogBadge(AvailabilityLevel(c.availableQuantity, c.totalQuantity)) != "bg-gray-100 text-gray-800"
  {
  }
}
