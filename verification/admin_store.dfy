/** The admin store's per-request bookkeeping (src/stores/adminStore.ts):
    computed substitute suggestions, the operators selected among them,
    and a "calculating" flag, each keyed by request id. The store's
    reactive records become immutable maps; each action returns the new
    state. */
module AdminStore {
  import opened Text
  import opened Models

  datatype AdminState = AdminState(
    suggestions: map<string, seq<ScenarioGroup>>,
    selected: map<string, seq<string>>,
    calculating: map<string, bool>)

  /** `setSuggestions`: overwrite the entry for `reqId` and nothing else. */
  function SetSuggestions(s: AdminState, reqId: string, results: seq<ScenarioGroup>): (r: AdminState)
    ensures reqId in r.suggestions && r.suggestions[reqId] == results
    ensures forall k :: k != reqId ==> (k in r.suggestions <==> k in s.suggestions)
    ensures forall k :: k != reqId && k in s.suggestions ==> r.suggestions[k] == s.suggestions[k]
    ensures r.selected == s.selected && r.calculating == s.calculating
  {
    s.(suggestions := s.suggestions[reqId := results])
  }

  /** The operator argument: one id or an array of ids. */
  datatype OperatorIds = One(id: string) | Many(ids: seq<string>)

  function IdList(o: OperatorIds): seq<string> {
    match o
    case One(id) => [id]
    case Many(ids) => ids
  }

  /** One step of the `forEach`: with `force` = Some(true) add `id` if
      absent, with Some(false) remove it if present, with None flip it
      (append when absent, remove the first occurrence when present). */
  function ToggleOne(list: seq<string>, id: string, force: Option<bool>): (r: seq<string>)
    ensures force == Some(true) ==> id in r && multiset(r) == multiset(list) + (if id in list then multiset{} else multiset{id})
    ensures force == Some(false) ==> multiset(r) == multiset(list) - multiset{id}
    ensures force == None ==> multiset(r) == if id in list then multiset(list) - multiset{id} else multiset(list) + multiset{id}
    ensures forall x :: x != id ==> (x in r <==> x in list)
    ensures NoDup(list) ==> NoDup(r)
    ensures id !in list && force != Some(false) ==> r == list + [id]
    ensures id in list && force != Some(true) ==> r == list[..IndexOf(list, id)] + list[IndexOf(list, id) + 1..]
    ensures (force == Some(true) && id in list) || (force == Some(false) && id !in list) ==> r == list
  {
    var index := IndexOf(list, id);
    if force.Some? then
      if force.value && index == -1 then list + [id]
      else if !force.value && index != -1 then RemoveKeepsRest(list, index); RemoveAt(list, IndexOf(list, id))
      else list
    else if index == -1 then list + [id]
    else RemoveKeepsRest(list, index); RemoveAt(list, index)
  }

  /** Removing the element at `i` keeps every other value's membership
      and leaves a duplicate-free list duplicate-free. */
  lemma RemoveKeepsRest(list: seq<string>, i: nat)
    requires i < |list|
    ensures forall x :: x != list[i] ==> (x in RemoveAt(list, i) <==> x in list)
    ensures NoDup(list) ==> NoDup(RemoveAt(list, i)) && list[i] !in RemoveAt(list, i)
  {
    var r := RemoveAt(list, i);
    forall x | x != list[i] ensures x in r <==> x in list {
      if x in r {
        var k :| 0 <= k < |r| && r[k] == x;
        RemoveAtIndex(list, i, k);
      }
      if x in list {
        var j :| 0 <= j < |list| && list[j] == x;
        RemoveAtIndex(list, i, if j < i then j else j - 1);
      }
    }
    if NoDup(list) {
      forall a, b | 0 <= a < b < |r| ensures r[a] != r[b] {
        RemoveAtIndex(list, i, a);
        RemoveAtIndex(list, i, b);
      }
      forall k | 0 <= k < |r| ensures r[k] != list[i] {
        RemoveAtIndex(list, i, k);
      }
    }
  }

  /** Where each element of `RemoveAt(s, i)` comes from. */
  lemma RemoveAtIndex(s: seq<string>, i: nat, k: nat)
    requires i < |s| && k < |s| - 1
    ensures RemoveAt(s, i)[k] == s[if k < i then k else k + 1]
  {
  }

  /** The whole `forEach`, ids visited in order. An id that is not visited
      keeps its membership, whatever the force and whatever duplicates the
      selection holds. */
  function ApplyToggles(list: seq<string>, ids: seq<string>, force: Option<bool>): (r: seq<string>)
    ensures forall x :: x !in ids ==> (x in r <==> x in list)
    decreases |ids|
  {
    if |ids| == 0 then list
    else
      assert forall x :: x in ids[1..] ==> x in ids;
      ApplyToggles(ToggleOne(list, ids[0], force), ids[1..], force)
  }

  /** A duplicate-free selection stays duplicate-free. */
  lemma {:induction false} ApplyTogglesNoDup(list: seq<string>, ids: seq<string>, force: Option<bool>)
    requires NoDup(list)
    ensures NoDup(ApplyToggles(list, ids, force))
    decreases |ids|
  {
    if |ids| > 0 {
      ApplyTogglesNoDup(ToggleOne(list, ids[0], force), ids[1..], force);
    }
  }

  /** Forcing selection: afterwards exactly the old selection and the given
      ids are selected. */
  lemma {:induction false} SelectAllMembership(list: seq<string>, ids: seq<string>, x: string)
    ensures x in ApplyToggles(list, ids, Some(true)) <==> x in list || x in ids
    decreases |ids|
  {
    if |ids| > 0 {
      SelectAllMembership(ToggleOne(list, ids[0], Some(true)), ids[1..], x);
      assert x in ids <==> x == ids[0] || x in ids[1..];
    }
  }

  /** Forcing deselection of a duplicate-free selection: afterwards exactly
      the old selection minus the given ids is selected. */
  lemma {:induction false} DeselectAllMembership(list: seq<string>, ids: seq<string>, x: string)
    requires NoDup(list)
    ensures x in ApplyToggles(list, ids, Some(false)) <==> x in list && x !in ids
    decreases |ids|
  {
    if |ids| > 0 {
      var next := ToggleOne(list, ids[0], Some(false));
      DeselectAllMembership(next, ids[1..], x);
      assert x in ids <==> x == ids[0] || x in ids[1..];
      if x == ids[0] && x in list {
        assert multiset(list)[x] == 1 by { NoDupCountOne(list, x); }
      }
    }
  }

  lemma NoDupCountOne(list: seq<string>, x: string)
    requires NoDup(list) && x in list
    ensures multiset(list)[x] == 1
  {
    var i :| 0 <= i < |list| && list[i] == x;
    RemoveKeepsRest(list, i);
    assert multiset(RemoveAt(list, i))[x] == 0;
  }

  /** One plain toggle flips exactly the given id's membership. */
  lemma ToggleOneFlips(list: seq<string>, id: string, x: string)
    requires NoDup(list)
    ensures x in ToggleOne(list, id, None) <==> (x in list) != (x == id)
  {
    if x == id && id in list {
      NoDupCountOne(list, id);
      assert multiset(ToggleOne(list, id, None))[id] == 0;
    }
  }

  /** Plain toggling of a duplicate-free selection: `x` ends up selected
      exactly when it started selected and was toggled an even number of
      times, or started unselected and was toggled an odd number of times. */
  lemma {:induction false} ToggleParity(list: seq<string>, ids: seq<string>, x: string)
    requires NoDup(list)
    ensures x in ApplyToggles(list, ids, None) <==> (x in list) != (multiset(ids)[x] % 2 == 1)
    decreases |ids|
  {
    if |ids| > 0 {
      var next := ToggleOne(list, ids[0], None);
      ToggleOneFlips(list, ids[0], x);
      ToggleParity(next, ids[1..], x);
      MultisetHead(ids, x);
      ParityStep(x in list, x in next, ids[0] == x, multiset(ids[1..])[x], multiset(ids)[x],
        x in ApplyToggles(next, ids[1..], None));
    }
  }

  /** The arithmetic of one step of `ToggleParity`. */
  lemma ParityStep(before: bool, after: bool, hit: bool, m: nat, n: nat, final: bool)
    requires after <==> before != hit
    requires n == (if hit then 1 else 0) + m
    requires final <==> after != (m % 2 == 1)
    ensures final <==> before != (n % 2 == 1)
  {
  }

  lemma MultisetHead(ids: seq<string>, x: string)
    requires |ids| > 0
    ensures multiset(ids)[x] == (if ids[0] == x then 1 else 0) + multiset(ids[1..])[x]
  {
    assert ids == [ids[0]] + ids[1..];
  }

  /** Toggling the same ids twice restores the selection's membership. */
  lemma ToggleTwiceRestores(list: seq<string>, ids: seq<string>, x: string)
    requires NoDup(list)
    ensures x in ApplyToggles(ApplyToggles(list, ids, None), ids, None) <==> x in list
  {
    ApplyTogglesNoDup(list, ids, None);
    ToggleParity(list, ids, x);
    ToggleParity(ApplyToggles(list, ids, None), ids, x);
  }

  /** A repeated id in one call cancels out; when it was not selected the
      list comes back exactly. */
  lemma DuplicateIdCancels(list: seq<string>, x: string)
    requires x !in list
    ensures ApplyToggles(list, [x, x], None) == list
  {
    var once := list + [x];
    assert ToggleOne(list, x, None) == once;
    var i := IndexOf(once, x);
    assert forall k :: 0 <= k < |list| ==> once[k] == list[k];
    assert i == |list|;
    assert once[..i] + once[i + 1..] == list;
    assert ToggleOne(once, x, None) == list;
    assert [x, x][1..] == [x];
    assert ApplyToggles(list, [x, x], None) == ApplyToggles(once, [x], None);
    assert ApplyToggles(once, [x], None) == ApplyToggles(list, [], None);
  }

  /** `toggleSelection`: the request gets a list (empty if it had none),
      the ids are toggled into it, and nothing else changes. */
  function ToggleSelection(s: AdminState, reqId: string, operatorIds: OperatorIds, val: Option<bool>): (r: AdminState)
    ensures reqId in r.selected
    ensures forall k :: k != reqId ==> (k in r.selected <==> k in s.selected)
    ensures forall k :: k != reqId && k in s.selected ==> r.selected[k] == s.selected[k]
    ensures r.suggestions == s.suggestions && r.calculating == s.calculating
    ensures reqId !in s.selected && val == Some(true) ==>
      forall x :: x in r.selected[reqId] <==> x in IdList(operatorIds)
  {
    var list := if reqId in s.selected then s.selected[reqId] else [];
    var updated := ApplyToggles(list, IdList(operatorIds), val);
    assert reqId !in s.selected && val == Some(true) ==> forall x :: x in updated <==> x in IdList(operatorIds) by {
      if reqId !in s.selected && val == Some(true) {
        forall x ensures x in updated <==> x in IdList(operatorIds) {
          SelectAllMembership(list, IdList(operatorIds), x);
        }
      }
    }
    s.(selected := s.selected[reqId := updated])
  }

  /** Selections stay duplicate-free under any toggle. */
  lemma ToggleSelectionNoDup(s: AdminState, reqId: string, operatorIds: OperatorIds, val: Option<bool>)
    requires forall k :: k in s.selected ==> NoDup(s.selected[k])
    ensures forall k :: (k in ToggleSelection(s, reqId, operatorIds, val).selected
      ==> NoDup(ToggleSelection(s, reqId, operatorIds, val).selected[k]))
  {
    var list := if reqId in s.selected then s.selected[reqId] else [];
    ApplyTogglesNoDup(list, IdList(operatorIds), val);
  }

  /** `clearSuggestions`: the suggestions and the selection for the request
      are deleted; its calculating flag is deleted only when it is true, so
      a false flag stays. Other requests are untouched. */
  function ClearSuggestions(s: AdminState, reqId: string): (r: AdminState)
    ensures reqId !in r.suggestions && reqId !in r.selected
    ensures reqId in r.calculating <==> reqId in s.calculating && !s.calculating[reqId]
    ensures reqId in r.calculating ==> r.calculating[reqId] == false
    ensures forall k :: k != reqId ==> (k in r.suggestions <==> k in s.suggestions)
    ensures forall k :: k != reqId ==> (k in r.selected <==> k in s.selected)
    ensures forall k :: k != reqId ==> (k in r.calculating <==> k in s.calculating)
    ensures forall k :: k != reqId && k in s.suggestions ==> r.suggestions[k] == s.suggestions[k]
    ensures forall k :: k != reqId && k in s.selected ==> r.selected[k] == s.selected[k]
    ensures forall k :: k != reqId && k in s.calculating ==> r.calculating[k] == s.calculating[k]
  {
    var suggestions := if reqId in s.suggestions then s.suggestions - {reqId} else s.suggestions;
    var selected := if reqId in s.selected then s.selected - {reqId} else s.selected;
    var calculating := if reqId in s.calculating && s.calculating[reqId] then s.calculating - {reqId} else s.calculating;
    AdminState(suggestions, selected, calculating)
  }

  /** Adding a fresh key and removing it again gives the map back. */
  lemma UpdateThenRemove<K, V>(m: map<K, V>, k: K, v: V)
    requires k !in m
    ensures m[k := v] - {k} == m
  {
  }

  /** Clearing undoes setting suggestions and selecting for a request that
      had no entries and no flag. */
  lemma ClearUndoesSetAndToggle(s: AdminState, reqId: string, results: seq<ScenarioGroup>, ids: OperatorIds, val: Option<bool>)
    requires reqId !in s.suggestions && reqId !in s.selected && reqId !in s.calculating
    ensures ClearSuggestions(ToggleSelection(SetSuggestions(s, reqId, results), reqId, ids, val), reqId) == s
  {
    var t := SetSuggestions(s, reqId, results);
    var u := ToggleSelection(t, reqId, ids, val);
    var r := ClearSuggestions(u, reqId);
    assert u.suggestions == s.suggestions[reqId := results];
    assert u.selected == s.selected[reqId := ApplyToggles([], IdList(ids), val)];
    UpdateThenRemove(s.suggestions, reqId, results);
    UpdateThenRemove(s.selected, reqId, ApplyToggles([], IdList(ids), val));
  }
}
