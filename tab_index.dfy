/** The active-tab index rules of the tab strip: the clamp applied by
    setActiveTab and the two navigation steps built on it. Indices are C++
    `unsigned` values, so they range over 0 .. U32_MAX. */
module TabIndex {
  import opened Basics

  /** The index setActiveTab stores when asked for `tab` while `count` tabs
      exist: a request one past the end selects the last tab, a request
      further out selects tab 0. With no tabs, a request for 0 would store
      `count - 1` computed in unsigned arithmetic; that case is excluded. */
  function ClampIndex(tab: nat, count: nat): (r: nat)
    requires count > 0 || tab > 0
    ensures count > 0 ==> r < count
    ensures count == 0 ==> r == 0
    ensures tab < count ==> r == tab
    ensures tab >= count && count > 0 ==> r == 0 || r == count - 1
  {
    if tab > count then 0
    else if tab == count then count - 1
    else tab
  }

  /** The asymmetric out-of-range policy, case by case. */
  lemma ClampIndexOutOfRange(tab: nat, count: nat)
    requires count > 0
    ensures tab == count ==> ClampIndex(tab, count) == count - 1
    ensures tab > count ==> ClampIndex(tab, count) == 0
  {
  }

  /** Clamping an index that is already in range changes nothing. */
  lemma ClampIndexIdempotent(tab: nat, count: nat)
    requires count > 0
    ensures ClampIndex(ClampIndex(tab, count), count) == ClampIndex(tab, count)
  {
  }

  /** The index getNext leaves: the pre-increment of the field, clamped. */
  function NextIndex(active: nat, count: nat): (r: nat)
    ensures count > 0 ==> r < count
    ensures active + 1 < count ==> r == active + 1
    ensures active + 1 == count ==> r == active
  {
    ClampIndex(active + 1, count)
  }

  /** The index getPrev leaves: the unsigned pre-decrement of the field
      (0 wraps to U32_MAX), clamped. */
  function PrevIndex(active: nat, count: nat): (r: nat)
    requires active == 0 || active < count
    ensures count > 0 ==> r < count
    ensures 0 < active ==> r == active - 1
    ensures active == 0 && count < U32_MAX ==> r == 0
  {
    ClampIndex(if active == 0 then U32_MAX else active - 1, count)
  }

  /** getNext moves one tab right and stays on the last tab; it never wraps. */
  lemma NextSaturates(active: nat, count: nat)
    requires active < count
    ensures NextIndex(active, count) == Min(active + 1, count - 1)
  {
  }

  /** getPrev moves one tab left and stays on tab 0; it never wraps, because
      the wrapped value U32_MAX lies beyond every tab count below it. */
  lemma PrevSaturates(active: nat, count: nat)
    requires active < count < U32_MAX
    ensures PrevIndex(active, count) == Max(active - 1, 0)
  {
  }

  /** The one tab count at which the unsigned wrap of getPrev is visible:
      with exactly U32_MAX tabs, stepping back from tab 0 selects the last. */
  lemma PrevAtFullCountSelectsLast()
    ensures PrevIndex(0, U32_MAX) == U32_MAX - 1
  {
  }

  /** Stepping right then left returns to the starting tab, except from the
      last tab, where the right step does not move. */
  lemma NextThenPrev(active: nat, count: nat)
    requires active < count < U32_MAX
    ensures active + 1 < count ==> PrevIndex(NextIndex(active, count), count) == active
    ensures active + 1 == count ==> PrevIndex(NextIndex(active, count), count) == Max(active - 1, 0)
  {
  }

  /** With three tabs, three getNext steps from tab 0 end on tab 2, not back
      on tab 0. */
  lemma ThreeStepsDoNotWrap()
    ensures NextIndex(NextIndex(NextIndex(0, 3), 3), 3) == 2
  {
  }
}
