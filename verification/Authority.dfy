/** Source trust levels. */
module Authority {
  datatype AuthorityLevel = L0SourceOfTruth | L1Authoritative | L2Verified | L3Inferred

  /** Higher is more authoritative. */
  function Rank(a: AuthorityLevel): nat {
    match a
    case L3Inferred => 0
    case L2Verified => 1
    case L1Authoritative => 2
    case L0SourceOfTruth => 3
  }

  /** The levels from most to least trusted, spelled out. */
  predicate Outranks(a: AuthorityLevel, b: AuthorityLevel) {
    || (a.L0SourceOfTruth? && (b.L1Authoritative? || b.L2Verified? || b.L3Inferred?))
    || (a.L1Authoritative? && (b.L2Verified? || b.L3Inferred?))
    || (a.L2Verified? && b.L3Inferred?)
  }

  lemma RankOrder(a: AuthorityLevel, b: AuthorityLevel)
    ensures Outranks(a, b) <==> Rank(a) > Rank(b)
    ensures a == b <==> Rank(a) == Rank(b)
  {
  }
}
