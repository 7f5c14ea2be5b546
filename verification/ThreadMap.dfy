/** The search of thread_list_find in kern/thread.c: thread_list is sorted by thread number, and the
    search works on the closed interval from 0 to the number of threads, one past the live entries.

    nos[i] is the thread number that slot i of thread_list shows; slots from count on are unused and
    show whatever their stale index leads to. */
module ThreadMap {
  import opened Words

  const SLOTS: nat := 16

  /** The do-while loop, from the bounds low and high. */
  function Search(nos: seq<nat>, count: nat, no: nat, low: nat, high: nat): (r: nat)
    requires |nos| == SLOTS && count <= SLOTS && low <= high <= count && (low < high || high < SLOTS)
    ensures r <= count
    decreases high - low
  {
    var mid := (low + high) / 2;
    if nos[mid] == no then mid
    else if nos[mid] < no then
      if mid == count then mid
      else if mid + 1 < high then Search(nos, count, no, mid + 1, high)
      else mid + 1
    else
      if mid == 0 then 0
      else if low < mid - 1 then Search(nos, count, no, low, mid - 1)
      else low
  }

  /** thread_list_find. */
  function ListFind(nos: seq<nat>, count: nat, no: nat): (r: nat)
    requires |nos| == SLOTS && count <= SLOTS
    ensures r <= count
  {
    Search(nos, count, no, 0, count)
  }

  ghost predicate Sorted(nos: seq<nat>, count: nat)
    requires |nos| == SLOTS && count <= SLOTS
  {
    forall i, j :: 0 <= i < j < count ==> nos[i] < nos[j]
  }

  /** A number that is present lies between the bounds until it is found. */
  lemma {:induction false} SearchFindsPresent(nos: seq<nat>, count: nat, no: nat, low: nat, high: nat, p: nat)
    requires |nos| == SLOTS && count <= SLOTS && low <= high <= count && (low < high || high < SLOTS)
    requires Sorted(nos, count) && low <= p <= high && p < count && nos[p] == no
    ensures Search(nos, count, no, low, high) == p
    decreases high - low
  {
    var mid := (low + high) / 2;
    if mid < count {
      if nos[mid] < no && mid + 1 < high {
        SearchFindsPresent(nos, count, no, mid + 1, high, p);
      } else if nos[mid] > no && mid > 0 && low < mid - 1 {
        SearchFindsPresent(nos, count, no, low, mid - 1, p);
      }
    }
  }

  // ---------- The place to insert a new number ----------

  /** Whether the search from the bounds low and high on may be left with slot i uncompared: its interval has shrunk
      to that one slot, and the loop ends without looking at it. */
  predicate LeftOver(low: nat, high: nat, i: nat)
    decreases high - low
  {
    low < high &&
    var mid := (low + high) / 2;
    if i < mid then if mid > 0 && low < mid - 1 then LeftOver(low, mid - 1, i) else low + 1 == mid && i == low
    else if mid + 1 < high then LeftOver(mid + 1, high, i) else mid + 1 == high && i == high
  }

  /** The slots that a search among count threads can be left with uncompared. */
  function Unprobed(count: nat): set<nat> {
    set i | 0 <= i <= count && LeftOver(0, count, i)
  }

  /** no is not present, and r is its place. */
  ghost predicate BelongsAt(nos: seq<nat>, count: nat, no: nat, r: nat)
    requires |nos| == SLOTS && count <= SLOTS
  {
    r <= count && (forall i :: 0 <= i < r ==> nos[i] < no) && (forall i :: r <= i < count ==> nos[i] > no)
  }

  /** The search for a number that is not present, by its place r alone. */
  function RankSearch(low: nat, high: nat, r: nat): (found: nat)
    decreases high - low
  {
    var mid := (low + high) / 2;
    if low >= high then low
    else if mid < r then if mid + 1 < high then RankSearch(mid + 1, high, r) else high
    else if low + 1 < mid then RankSearch(low, mid - 1, r)
    else low
  }

  /** Where the search for a number that is not present ends depends on its place and the number of threads alone. */
  lemma {:induction false} SearchIsByRank(nos: seq<nat>, count: nat, no: nat, r: nat, low: nat, high: nat)
    requires |nos| == SLOTS && count <= SLOTS && low < high <= count && BelongsAt(nos, count, no, r)
    ensures Search(nos, count, no, low, high) == RankSearch(low, high, r)
    decreases high - low
  {
    var mid := (low + high) / 2;
    if mid < r {
      assert nos[mid] < no;
      if mid + 1 < high {
        SearchIsByRank(nos, count, no, r, mid + 1, high);
      }
    } else {
      assert nos[mid] > no;
      if low + 1 < mid {
        SearchIsByRank(nos, count, no, r, low, mid - 1);
      }
    }
  }

  lemma {:induction false} RankSearchIff(low: nat, high: nat, r: nat)
    requires low < high && low <= r <= high + 1
    ensures RankSearch(low, high, r) == r <==> !(r > 0 && LeftOver(low, high, r - 1))
    decreases high - low
  {
    var mid := (low + high) / 2;
    if mid < r {
      if mid + 1 < high {
        RankSearchIff(mid + 1, high, r);
      }
    } else if low + 1 < mid {
      RankSearchIff(low, mid - 1, r);
    }
  }

  /** For a number that is not present, and that belongs at place r, the search is the right insertion point
      exactly when it is not left with the slot before r uncompared; which slots these are depends on the number
      of threads alone. */
  lemma {:induction false} InsertionPointIff(nos: seq<nat>, count: nat, no: nat, r: nat)
    requires |nos| == SLOTS && count <= SLOTS && BelongsAt(nos, count, no, r)
    ensures ListFind(nos, count, no) == r <==> !(r > 0 && r - 1 in Unprobed(count))
  {
    if count > 0 {
      SearchIsByRank(nos, count, no, r, 0, count);
      RankSearchIff(0, count, r);
    }
  }

  /** The last live slot is always compared, so a number above all present ones goes where it belongs. */
  lemma {:induction false} LastIsProbed(low: nat, count: nat)
    requires low < count
    ensures !LeftOver(low, count, count - 1)
    decreases count - low
  {
    var mid := (low + count) / 2;
    if mid + 1 < count {
      LastIsProbed(mid + 1, count);
    }
  }

  lemma {:induction false} InsertionPointAtEnd(nos: seq<nat>, count: nat, no: nat)
    requires |nos| == SLOTS && count <= SLOTS
    requires forall i :: 0 <= i < count ==> nos[i] < no
    ensures ListFind(nos, count, no) == count
  {
    InsertionPointIff(nos, count, no, count);
    if count > 0 {
      LastIsProbed(0, count);
    }
  }

  /** Three threads leave slot 0 uncompared and thirteen threads six slots; so 15 belongs between 10 and 20, but
      is placed before 10. */
  lemma {:induction false} InsertionPointBetween()
    ensures Unprobed(3) == {0, 3} && Unprobed(13) == {1, 3, 5, 7, 9, 11, 13}
    ensures var nos := [10, 20, 30] + seq(13, _ => 10);
      Sorted(nos, 3) && ListFind(nos, 3, 15) == 0
  {
    var nos: seq<nat> := [10, 20, 30] + seq(13, _ => 10);
    assert nos[1] == 20;
    assert Search(nos, 3, 15, 0, 3) == 0;
  }

  // ---------- Lookup ----------

  /** A number below the last one is never looked for past the live entries. */
  lemma {:induction false} SearchStaysInside(nos: seq<nat>, count: nat, no: nat, low: nat, high: nat)
    requires |nos| == SLOTS && 0 < count <= SLOTS && low <= high <= count && (low < high || high < SLOTS)
    requires Sorted(nos, count) && low < count && no <= nos[count - 1]
    ensures Search(nos, count, no, low, high) < count
    decreases high - low
  {
    var mid := (low + high) / 2;
    if mid < count {
      if nos[mid] < no {
        assert mid < count - 1;
        if mid + 1 < high {
          SearchStaysInside(nos, count, no, mid + 1, high);
        }
      } else if nos[mid] > no && mid > 0 && low < mid - 1 {
        SearchStaysInside(nos, count, no, low, mid - 1);
      }
    }
  }

  /** thread_map_find: the slot of a number, if the slot that the search ends at shows it. */
  function MapFind(nos: seq<nat>, count: nat, no: nat): (r: Option<nat>)
    requires |nos| == SLOTS && count <= SLOTS && ListFind(nos, count, no) < SLOTS
  {
    var idx := ListFind(nos, count, no);
    if nos[idx] != no then None else Some(idx)
  }

  /** The search ends inside thread_list for every number unless all sixteen slots are live and the
      number is above all of them; then the entry read next lies past the list's end. */
  lemma {:induction false} SearchReadsInsideIff(nos: seq<nat>, count: nat, no: nat)
    requires |nos| == SLOTS && 0 < count <= SLOTS && Sorted(nos, count)
    ensures ListFind(nos, count, no) < SLOTS <==> count < SLOTS || no <= nos[SLOTS - 1]
  {
    if count == SLOTS {
      if no <= nos[SLOTS - 1] {
        SearchStaysInside(nos, count, no, 0, count);
      } else {
        InsertionPointAtEnd(nos, count, no);
      }
    }
  }

  /** Lookup is exact: every thread present is found in its own slot, and for every other number the
      answer is none. Unused slots hold index 0 and so show the first thread's number. */
  lemma {:induction false} LookupExact(nos: seq<nat>, count: nat, no: nat)
    requires |nos| == SLOTS && 0 < count <= SLOTS && Sorted(nos, count)
    requires forall i :: count <= i < SLOTS ==> nos[i] == nos[0]
    requires count < SLOTS || no <= nos[SLOTS - 1]
    ensures ListFind(nos, count, no) < SLOTS
    ensures forall p :: 0 <= p < count && nos[p] == no ==> MapFind(nos, count, no) == Some(p)
    ensures (forall p :: 0 <= p < count ==> nos[p] != no) ==> MapFind(nos, count, no) == None
  {
    SearchReadsInsideIff(nos, count, no);
    if p :| 0 <= p < count && nos[p] == no {
      SearchFindsPresent(nos, count, no, 0, count, p);
    }
  }
}
