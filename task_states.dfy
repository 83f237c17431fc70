/** The board's columns: the task states as received, sorted in place by
    `state_order` (a stable sort, as ECMAScript's `Array.prototype.sort` is),
    and the `state_name -> state_id` lookup built from the sorted list. */
module TaskStates {
  import opened Entities
  import opened Collections

  /** Non-decreasing `state_order` from left to right. */
  ghost predicate SortedByOrder(s: seq<TaskState>)
  {
    forall i, j :: 0 <= i < j < |s| ==> s[i].stateOrder <= s[j].stateOrder
  }

  /** Selects the states whose `state_order` is `k`. */
  function HasOrder(k: int): TaskState -> bool
  {
    (st: TaskState) => st.stateOrder == k
  }

  /** Places `x` behind every element of `s` except the trailing run whose
      order exceeds x's: the step of a stable insertion sort that inserts a
      later element into the already sorted earlier ones. */
  function Insert(x: TaskState, s: seq<TaskState>): seq<TaskState>
  {
    if s == [] || s[|s| - 1].stateOrder <= x.stateOrder then s + [x]
    else Insert(x, s[..|s| - 1]) + [s[|s| - 1]]
  }

  /** The states in the order the comparator `a.state_order - b.state_order`
      gives them under a stable sort. */
  function SortByOrder(s: seq<TaskState>): seq<TaskState>
  {
    if s == [] then [] else Insert(s[|s| - 1], SortByOrder(s[..|s| - 1]))
  }

  lemma {:induction false} InsertPermutation(x: TaskState, s: seq<TaskState>)
    ensures multiset(Insert(x, s)) == multiset(s) + multiset{x}
  {
    if s != [] && s[|s| - 1].stateOrder > x.stateOrder {
      var n := |s| - 1;
      assert s == s[..n] + [s[n]];
      InsertPermutation(x, s[..n]);
    }
  }

  /** The sorted states are a permutation of the received states. */
  lemma {:induction false} SortByOrderPermutation(s: seq<TaskState>)
    ensures multiset(SortByOrder(s)) == multiset(s)
  {
    if s != [] {
      var n := |s| - 1;
      assert s == s[..n] + [s[n]];
      SortByOrderPermutation(s[..n]);
      InsertPermutation(s[n], SortByOrder(s[..n]));
    }
  }

  /** Where `Insert` puts `x`: right after the last element not above it. */
  lemma {:induction false} InsertAt(x: TaskState, s: seq<TaskState>, j: int)
    requires 0 <= j <= |s|
    requires j == 0 || s[j - 1].stateOrder <= x.stateOrder
    requires forall k :: j <= k < |s| ==> s[k].stateOrder > x.stateOrder
    ensures Insert(x, s) == s[..j] + [x] + s[j..]
    decreases |s| - j
  {
    if j == |s| {
      assert s[..j] == s && s[j..] == [];
    } else {
      var n := |s| - 1;
      var front := s[..n];
      assert front[..j] == s[..j];
      if j > 0 { assert front[j - 1] == s[j - 1]; }
      forall k | j <= k < |front| ensures front[k].stateOrder > x.stateOrder {
        assert front[k] == s[k];
      }
      InsertAt(x, front, j);
      assert s[j..] == front[j..] + [s[n]];
    }
  }

  lemma {:induction false} InsertSorted(x: TaskState, s: seq<TaskState>)
    requires SortedByOrder(s)
    ensures SortedByOrder(Insert(x, s))
  {
    if s != [] && s[|s| - 1].stateOrder > x.stateOrder {
      var n := |s| - 1;
      var front := s[..n];
      InsertSorted(x, front);
      var r := Insert(x, front);
      InsertPermutation(x, front);
      forall k | 0 <= k < |r| ensures r[k].stateOrder <= s[n].stateOrder {
        assert r[k] in multiset(r);
        assert r[k] in multiset(front) + multiset{x};
        if r[k] != x {
          assert r[k] in front;
          var m :| 0 <= m < |front| && front[m] == r[k];
          assert front[m] == s[m];
        }
      }
    }
  }

  /** The sorted states are ordered by non-decreasing `state_order`. */
  lemma {:induction false} SortByOrderSorted(s: seq<TaskState>)
    ensures SortedByOrder(SortByOrder(s))
  {
    if s != [] {
      var n := |s| - 1;
      SortByOrderSorted(s[..n]);
      InsertSorted(s[n], SortByOrder(s[..n]));
    }
  }

  /** The filter step behind `InsertStable`: appending an element of larger
      order than `x` to both sides keeps the equation. */
  lemma AppendLarger(inserted: seq<TaskState>, front: seq<TaskState>, x: TaskState, last: TaskState, k: int)
    requires last.stateOrder > x.stateOrder
    requires Filter(inserted, HasOrder(k)) == Filter(front, HasOrder(k)) + (if x.stateOrder == k then [x] else [])
    ensures Filter(inserted + [last], HasOrder(k))
         == Filter(front + [last], HasOrder(k)) + (if x.stateOrder == k then [x] else [])
  {
    var p := HasOrder(k);
    FilterConcat(inserted, [last], p);
    FilterConcat(front, [last], p);
    FilterSingleton(last, p);
    if x.stateOrder == k {
      assert Filter([last], p) == [];
    } else {
      assert Filter(inserted, p) == Filter(front, p);
    }
  }

  lemma {:induction false} InsertStable(x: TaskState, s: seq<TaskState>, k: int)
    ensures Filter(Insert(x, s), HasOrder(k))
         == Filter(s, HasOrder(k)) + (if x.stateOrder == k then [x] else [])
  {
    var p := HasOrder(k);
    if s == [] || s[|s| - 1].stateOrder <= x.stateOrder {
      FilterConcat(s, [x], p);
      FilterSingleton(x, p);
    } else {
      var n := |s| - 1;
      var front := s[..n];
      assert s == front + [s[n]];
      InsertStable(x, front, k);
      AppendLarger(Insert(x, front), front, x, s[n], k);
    }
  }

  /** Stability: the states sharing one `state_order` keep their input order. */
  lemma {:induction false} SortByOrderStable(s: seq<TaskState>, k: int)
    ensures Filter(SortByOrder(s), HasOrder(k)) == Filter(s, HasOrder(k))
  {
    var p := HasOrder(k);
    if s != [] {
      var n := |s| - 1;
      var front := s[..n];
      var last := s[n];
      assert s == front + [last];
      assert SortByOrder(s) == Insert(last, SortByOrder(front));
      SortByOrderStable(front, k);
      InsertStable(last, SortByOrder(front), k);
      FilterConcat(front, [last], p);
      FilterSingleton(last, p);
    }
  }

  /** Sorting an already sorted list changes nothing, so sorting is idempotent. */
  lemma {:induction false} SortByOrderOfSorted(s: seq<TaskState>)
    requires SortedByOrder(s)
    ensures SortByOrder(s) == s
  {
    if s != [] {
      var n := |s| - 1;
      SortByOrderOfSorted(s[..n]);
      assert s == s[..n] + [s[n]];
      if n > 0 { assert s[..n][n - 1] == s[n - 1]; }
    }
  }

  lemma SortByOrderIdempotent(s: seq<TaskState>)
    ensures SortByOrder(SortByOrder(s)) == SortByOrder(s)
  {
    SortByOrderSorted(s);
    SortByOrderOfSorted(SortByOrder(s));
  }

  /** One pass of the insertion sort: moves `a[i]` left past the larger
      elements of the sorted prefix `a[..i]`, leaving the rest untouched. */
  method InsertIntoPrefix(a: array<TaskState>, i: int)
    requires 0 <= i < a.Length
    modifies a
    ensures a[..i + 1] == Insert(old(a[i]), old(a[..i]))
    ensures a[i + 1..] == old(a[i + 1..])
  {
    ghost var prefix := a[..i];
    var x := a[i];
    var j := i;
    while j > 0 && a[j - 1].stateOrder > x.stateOrder
      invariant 0 <= j <= i
      invariant forall k :: 0 <= k < j ==> a[k] == prefix[k]
      invariant forall k :: j < k <= i ==> a[k] == prefix[k - 1]
      invariant forall k :: j <= k < i ==> prefix[k].stateOrder > x.stateOrder
      invariant forall k :: i < k < a.Length ==> a[k] == old(a[k])
    {
      a[j] := a[j - 1];
      j := j - 1;
    }
    assert j == 0 || prefix[j - 1].stateOrder <= x.stateOrder;
    a[j] := x;
    ShiftedIsInsert(a[..i + 1], prefix, x, j);
    assert a[i + 1..] == old(a[i + 1..]);
  }

  /** The shape the insertion pass leaves behind: the prefix up to `j`, then
      `x`, then the rest of the prefix shifted right by one, is `Insert(x,
      prefix)` when `j` is where `Insert` places `x`. */
  lemma ShiftedIsInsert(r: seq<TaskState>, prefix: seq<TaskState>, x: TaskState, j: int)
    requires |r| == |prefix| + 1 && 0 <= j <= |prefix|
    requires j == 0 || prefix[j - 1].stateOrder <= x.stateOrder
    requires forall k :: j <= k < |prefix| ==> prefix[k].stateOrder > x.stateOrder
    requires forall k :: 0 <= k < j ==> r[k] == prefix[k]
    requires r[j] == x
    requires forall k :: j < k < |r| ==> r[k] == prefix[k - 1]
    ensures r == Insert(x, prefix)
  {
    InsertAt(x, prefix, j);
    var expected := prefix[..j] + [x] + prefix[j..];
    forall k | 0 <= k < |r| ensures r[k] == expected[k] {
      if k < j {
        assert expected[k] == prefix[k];
      } else if k > j {
        assert expected[k] == prefix[k - 1];
      }
    }
  }

  /** Sorting one more element of the input inserts it into the sorted
      earlier ones. */
  lemma SortByOrderStep(input: seq<TaskState>, i: int)
    requires 0 <= i < |input|
    ensures SortByOrder(input[..i + 1]) == Insert(input[i], SortByOrder(input[..i]))
  {
    assert input[..i + 1][..i] == input[..i];
  }

  /** `response.data.sort((a, b) => a.state_order - b.state_order)`: an
      insertion sort, in place, which is stable like the ECMAScript sort. */
  method SortStatesInPlace(a: array<TaskState>)
    modifies a
    ensures a[..] == SortByOrder(old(a[..]))
  {
    ghost var input := a[..];
    var i := 0;
    while i < a.Length
      invariant 0 <= i <= a.Length
      invariant a[..i] == SortByOrder(input[..i])
      invariant a[i..] == input[i..]
    {
      assert a[i] == input[i] && a[i + 1..] == input[i + 1..] by {
        assert a[i..][0] == a[i] && a[i..][1..] == a[i + 1..];
      }
      InsertIntoPrefix(a, i);
      SortByOrderStep(input, i);
      i := i + 1;
    }
    assert input[..a.Length] == input;
  }

  function StateNameOf(st: TaskState): string { st.stateName }

  function StateIdOf(st: TaskState): int { st.stateId }

  /** The object `mapping` after `mapping[state.state_name] = state.state_id`
      for every state, in list order. */
  function NameToId(states: seq<TaskState>): map<string, int>
  {
    LastWins(states, StateNameOf, StateIdOf)
  }

  /** Builds the `state_name -> state_id` lookup with a loop over the states.
      Every state's name is a key, no other key exists, and a repeated name
      maps to the id of its last state in list order. */
  method BuildNameToId(states: seq<TaskState>) returns (mapping: map<string, int>)
    ensures mapping == NameToId(states)
    ensures forall i :: 0 <= i < |states| ==> states[i].stateName in mapping
    ensures forall name :: name in mapping ==>
              exists i :: 0 <= i < |states| && states[i].stateName == name && mapping[name] == states[i].stateId
                          && forall j :: i < j < |states| ==> states[j].stateName != name
  {
    mapping := map[];
    var i := 0;
    while i < |states|
      invariant 0 <= i <= |states|
      invariant mapping == NameToId(states[..i])
    {
      assert states[..i + 1][..i] == states[..i];
      mapping := mapping[states[i].stateName := states[i].stateId];
      i := i + 1;
    }
    assert states[..i] == states;
    LastWinsSources(states, StateNameOf, StateIdOf);
  }

  /** The success handler of the task-state fetch: sorts the received array
      in place and builds the lookup from the sorted states. */
  method ReceiveTaskStates(data: array<TaskState>) returns (mapping: map<string, int>)
    modifies data
    ensures data[..] == SortByOrder(old(data[..]))
    ensures mapping == NameToId(data[..])
  {
    SortStatesInPlace(data);
    mapping := BuildNameToId(data[..]);
  }
}
