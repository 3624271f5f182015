/** The append-position allocator shared by column and task creation: a new
    item goes 1000 past the last sibling, leaving room to drop items in
    between later without renumbering. */
module Positions {
  import opened Optional

  /** The spacing between appended siblings, and the first position. */
  const Gap := 1000

  /** The allocator as the handlers compute it from the `findFirst ... desc`
      answer: the last sibling's position plus the gap, or the gap alone. */
  function NextPosition(last: Option<int>): int
  {
    match last
    case None => Gap
    case Some(p) => p + Gap
  }

  /** Reference definition over the set of sibling positions: the first item
      sits at the gap, every later one exactly one gap above the highest. */
  ghost predicate AppendedAfter(pos: int, siblings: set<int>)
  {
    if siblings == {} then pos == Gap
    else pos - Gap in siblings && forall p :: p in siblings ==> p <= pos - Gap
  }

  /** Given a correct answer to the "highest sibling" query, the allocator
      meets the reference definition, so the new item sorts after every sibling. */
  lemma NextPositionAppends(last: Option<int>, siblings: set<int>)
    requires last.None? <==> siblings == {}
    requires last.Some? ==> last.value in siblings && forall p :: p in siblings ==> p <= last.value
    ensures AppendedAfter(NextPosition(last), siblings)
    ensures forall p :: p in siblings ==> p < NextPosition(last)
  {
  }

  /** Appending keeps sibling positions pairwise distinct: an item placed by
      the allocator collides with none of its siblings. */
  lemma AppendedIsFresh(pos: int, siblings: set<int>)
    requires AppendedAfter(pos, siblings)
    ensures pos !in siblings
    ensures forall p :: p in siblings ==> p < pos
  {
  }
}
