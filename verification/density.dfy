/** The CSS classes a grid square is drawn with (the colouring step of
    `updateGrid` in app/assets/scripts/components/map.js). */
module Density {
  import opened Values

  /** The density bucket of a square. */
  datatype DensityClass = Inactive | High | Medium | Low | NoDensity

  /** With a square selected every square is inactive; otherwise 10 or more
      footprints is high, 5 to 9 medium, 1 to 4 low and none adds no class. */
  function Classify(selected: Option<string>, count: nat): (d: DensityClass)
    ensures Truthy(selected) ==> d == Inactive
    ensures !Truthy(selected) ==>
      && (d == High <==> 10 <= count)
      && (d == Medium <==> 5 <= count <= 9)
      && (d == Low <==> 1 <= count <= 4)
      && (d == NoDensity <==> count == 0)
  {
    if Truthy(selected) then Inactive
    else if count >= 10 then High
    else if count >= 5 then Medium
    else if count > 0 then Low
    else NoDensity
  }

  /** The CSS class of a bucket; the empty bucket has none. */
  function ClassName(d: DensityClass): Option<string>
  {
    match d
    case Inactive => Some("gs-inactive")
    case High => Some("gs-density-high")
    case Medium => Some("gs-density-med")
    case Low => Some("gs-density-low")
    case NoDensity => None
  }

  /** The classes added to the square's path: 'gs', then at most one more. */
  function ClassList(selected: Option<string>, count: nat): (classes: seq<string>)
    ensures 1 <= |classes| <= 2 && classes[0] == "gs"
    ensures Truthy(selected) ==> classes == ["gs", "gs-inactive"]
    ensures |classes| == 1 <==> (!Truthy(selected) && count == 0)
    ensures |classes| == 2 ==> Some(classes[1]) == ClassName(Classify(selected, count))
  {
    ["gs"] + (match ClassName(Classify(selected, count)) case Some(c) => [c] case None => [])
  }

  /** Buckets ordered by density. */
  function Rank(d: DensityClass): nat
  {
    match d
    case NoDensity => 0
    case Low => 1
    case Medium => 2
    case High => 3
    case Inactive => 4
  }

  /** Without a selection, a square with more footprints is never in a lower bucket. */
  lemma ClassifyMonotone(selected: Option<string>, a: nat, b: nat)
    requires !Truthy(selected) && a <= b
    ensures Rank(Classify(selected, a)) <= Rank(Classify(selected, b))
  {
  }

  /** Different buckets are drawn with different classes. */
  lemma ClassNamesDistinct(d: DensityClass, e: DensityClass)
    requires d != e
    ensures ClassName(d) != ClassName(e)
  {
  }
}
