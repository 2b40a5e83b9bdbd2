/**
 * The multi-building selection list of the home page. The page keeps an
 * ordered list of building records and replaces it wholesale through five
 * updaters (toggle, remove one, remove all, raise height, reset height);
 * each updater is a pure function from the previous list to the next one.
 */
module BuildingSelection {

  /** Display name given to every newly selected building. */
  const PlaceholderName: string := "Здание"

  /** Amount, in meters, that one "increase height" press adds. */
  const HeightStep: int := 10

  /** One selected building: its current (rendered) height and the height it had when selected. */
  datatype Building = Building(
    id: string,
    height: int,
    originalHeight: int,
    name: string,
    address: string)

  /** `some(b => b.id === id)`: the list holds a record for `id`. */
  predicate IsSelected(s: seq<Building>, id: string)
  {
    exists i :: 0 <= i < |s| && s[i].id == id
  }

  /** No two records of the list share an id. */
  predicate UniqueIds(s: seq<Building>)
  {
    forall i, j :: 0 <= i < j < |s| ==> s[i].id != s[j].id
  }

  /** The record created when a building is first selected. */
  function NewRecord(id: string, height: int, address: string): (b: Building)
    ensures b.id == id && b.address == address && b.name == PlaceholderName
    ensures b.height == height && b.originalHeight == height
  {
    Building(id, height, height, PlaceholderName, address)
  }

  /**
   * `filter(b => b.id !== id)`: every record with `id` goes, every other
   * record stays, as often as it occurred before.
   */
  function Without(s: seq<Building>, id: string): (r: seq<Building>)
    ensures |r| <= |s|
    ensures !IsSelected(r, id)
    ensures forall b :: b in r ==> b in s
  {
    if s == [] then []
    else (if s[0].id == id then [] else [s[0]]) + Without(s[1..], id)
  }

  /**
   * Toggle selection of `id`: deselect it when the list holds it, otherwise
   * append a fresh record at the end.
   */
  function Toggle(s: seq<Building>, id: string, height: int, address: string): (r: seq<Building>)
    ensures IsSelected(r, id) <==> !IsSelected(s, id)
  {
    if IsSelected(s, id) then Without(s, id)
    else
      var r := s + [NewRecord(id, height, address)];
      assert r[|s|].id == id;
      r
  }

  /** Remove one building from the selection. */
  function Remove(s: seq<Building>, id: string): (r: seq<Building>)
    ensures !IsSelected(r, id)
  {
    Without(s, id)
  }

  /** Remove every building from the selection. */
  function RemoveAll(s: seq<Building>): (r: seq<Building>)
    ensures forall id :: !IsSelected(r, id)
  {
    []
  }

  /** Raise the height of the record(s) with `id` by one step; nothing else changes. */
  function IncreaseHeight(s: seq<Building>, id: string): (r: seq<Building>)
    ensures |r| == |s|
    ensures forall i :: 0 <= i < |s| ==>
      && r[i].id == s[i].id
      && r[i].originalHeight == s[i].originalHeight
      && r[i].name == s[i].name
      && r[i].address == s[i].address
      && r[i].height == s[i].height + (if s[i].id == id then HeightStep else 0)
  {
    if s == [] then []
    else
      var b := s[0];
      [if b.id == id then b.(height := b.height + HeightStep) else b] + IncreaseHeight(s[1..], id)
  }

  /** Put the record(s) with `id` back to the height they had when selected; nothing else changes. */
  function ResetHeight(s: seq<Building>, id: string): (r: seq<Building>)
    ensures |r| == |s|
    ensures forall i :: 0 <= i < |s| ==>
      && r[i].id == s[i].id
      && r[i].originalHeight == s[i].originalHeight
      && r[i].name == s[i].name
      && r[i].address == s[i].address
      && r[i].height == (if s[i].id == id then s[i].originalHeight else s[i].height)
  {
    if s == [] then []
    else
      var b := s[0];
      [if b.id == id then b.(height := b.originalHeight) else b] + ResetHeight(s[1..], id)
  }

  /** `n` presses of "increase height" for `id`. */
  function IncreaseHeightTimes(s: seq<Building>, id: string, n: nat): seq<Building>
  {
    if n == 0 then s else IncreaseHeight(IncreaseHeightTimes(s, id, n - 1), id)
  }

  /** One toggle request: the height and address a click delivers. */
  datatype Click = Click(height: int, address: string)

  /** Toggle `id` once per click, in order. */
  function ToggleEach(s: seq<Building>, id: string, clicks: seq<Click>): seq<Building>
    decreases |clicks|
  {
    if clicks == [] then s
    else ToggleEach(Toggle(s, id, clicks[0].height, clicks[0].address), id, clicks[1..])
  }

  // ---------------------------------------------------------------------
  // Toggle

  /** Selecting an absent id appends exactly one fresh record and keeps the earlier ones. */
  lemma ToggleAbsentAppends(s: seq<Building>, id: string, height: int, address: string)
    requires !IsSelected(s, id)
    ensures var r := Toggle(s, id, height, address);
      && |r| == |s| + 1
      && r[..|s|] == s
      && r[|s|].id == id
      && r[|s|].height == height && r[|s|].originalHeight == height
      && r[|s|].name == PlaceholderName && r[|s|].address == address
  {
    assert (s + [NewRecord(id, height, address)])[..|s|] == s;
  }

  /** Toggling a selected id removes all its records, keeps every other record and equals Remove. */
  lemma TogglePresentRemoves(s: seq<Building>, id: string, height: int, address: string)
    requires IsSelected(s, id)
    ensures var r := Toggle(s, id, height, address);
      && r == Remove(s, id)
      && |r| < |s|
      && forall b :: multiset(r)[b] == if b.id == id then 0 else multiset(s)[b]
  {
    var k :| 0 <= k < |s| && s[k].id == id;
    WithoutShrinks(s, id, k);
    WithoutCounts(s, id);
  }

  /** Toggling an absent id twice gives back the original list, whatever the two clicks carried. */
  lemma ToggleTwiceRestores(s: seq<Building>, id: string, h1: int, a1: string, h2: int, a2: string)
    requires !IsSelected(s, id)
    ensures Toggle(Toggle(s, id, h1, a1), id, h2, a2) == s
  {
    var b := NewRecord(id, h1, a1);
    WithoutConcat(s, [b], id);
    WithoutAbsent(s, id);
    assert Without([b], id) == [] by {
      assert [b] == [b] + [];
    }
  }

  /** Toggling keeps the ids of the list unique. */
  lemma ToggleKeepsUniqueIds(s: seq<Building>, id: string, height: int, address: string)
    requires UniqueIds(s)
    ensures UniqueIds(Toggle(s, id, height, address))
  {
    if IsSelected(s, id) {
      WithoutKeepsUniqueIds(s, id);
    } else {
      var r := Toggle(s, id, height, address);
      forall i, j | 0 <= i < j < |r| ensures r[i].id != r[j].id {
        if j == |s| {
          assert r[i] == s[i];
        }
      }
    }
  }

  /** After any sequence of toggles of one id, it is selected iff it was before XOR the count is odd. */
  lemma {:induction false} ToggleParity(s: seq<Building>, id: string, clicks: seq<Click>)
    ensures IsSelected(ToggleEach(s, id, clicks), id) <==> (IsSelected(s, id) != (|clicks| % 2 == 1))
    decreases |clicks|
  {
    if clicks != [] {
      var t := Toggle(s, id, clicks[0].height, clicks[0].address);
      ToggleParity(t, id, clicks[1..]);
      assert ToggleEach(s, id, clicks) == ToggleEach(t, id, clicks[1..]);
      assert IsSelected(t, id) <==> !IsSelected(s, id);
      assert |clicks[1..]| == |clicks| - 1;
    }
  }

  // ---------------------------------------------------------------------
  // Remove one / remove all

  /** The filter distributes over concatenation: what survives keeps its relative order. */
  lemma {:induction false} WithoutConcat(a: seq<Building>, b: seq<Building>, id: string)
    ensures Without(a + b, id) == Without(a, id) + Without(b, id)
  {
    if a == [] {
      assert a + b == b;
    } else {
      var ab := a + b;
      assert ab[0] == a[0];
      assert ab[1..] == a[1..] + b;
      WithoutConcat(a[1..], b, id);
      var head := if a[0].id == id then [] else [a[0]];
      assert Without(ab, id) == head + Without(a[1..] + b, id);
      assert Without(a, id) == head + Without(a[1..], id);
    }
  }

  /** Every record with `id` goes, every other record stays exactly as often as it occurred. */
  lemma {:induction false} WithoutCounts(s: seq<Building>, id: string)
    ensures forall b :: multiset(Without(s, id))[b] == if b.id == id then 0 else multiset(s)[b]
  {
    if s != [] {
      WithoutCounts(s[1..], id);
      assert s == [s[0]] + s[1..];
    }
  }

  /** Removing an id that is not selected changes nothing. */
  lemma {:induction false} WithoutAbsent(s: seq<Building>, id: string)
    requires !IsSelected(s, id)
    ensures Without(s, id) == s
  {
    if s != [] {
      assert !IsSelected(s[1..], id) by {
        forall i | 0 <= i < |s[1..]| ensures s[1..][i].id != id {
          assert s[1..][i] == s[i + 1];
        }
      }
      WithoutAbsent(s[1..], id);
    }
  }

  /** Removing an id that is selected makes the list strictly shorter. */
  lemma {:induction false} WithoutShrinks(s: seq<Building>, id: string, k: nat)
    requires k < |s| && s[k].id == id
    ensures |Without(s, id)| < |s|
  {
    if k > 0 {
      WithoutShrinks(s[1..], id, k - 1);
    }
  }

  /** Removing keeps ids unique. */
  lemma {:induction false} WithoutKeepsUniqueIds(s: seq<Building>, id: string)
    requires UniqueIds(s)
    ensures UniqueIds(Without(s, id))
  {
    if s != [] {
      var rest := Without(s[1..], id);
      WithoutKeepsUniqueIds(s[1..], id);
      if s[0].id != id {
        forall j | 0 <= j < |rest| ensures rest[j].id != s[0].id {
          assert rest[j] in rest;
          var i :| 0 <= i < |s[1..]| && s[1..][i] == rest[j];
          assert s[i + 1] == rest[j];
        }
      }
      assert Without(s, id) == (if s[0].id == id then [] else [s[0]]) + rest;
    }
  }

  /** With unique ids, the id at index `k` occurs neither before nor after `k`. */
  lemma UniqueElsewhereAbsent(s: seq<Building>, k: nat)
    requires UniqueIds(s) && k < |s|
    ensures !IsSelected(s[..k], s[k].id) && !IsSelected(s[k + 1..], s[k].id)
  {
    var pre, post := s[..k], s[k + 1..];
    forall i | 0 <= i < |pre| ensures pre[i].id != s[k].id {
      assert pre[i] == s[i];
    }
    forall i | 0 <= i < |post| ensures post[i].id != s[k].id {
      assert post[i] == s[k + 1 + i];
    }
  }

  /** Filtering out the id of the one record that has it cuts exactly that record out. */
  lemma WithoutCutsSingle(pre: seq<Building>, x: Building, post: seq<Building>)
    requires !IsSelected(pre, x.id) && !IsSelected(post, x.id)
    ensures Without(pre + [x] + post, x.id) == pre + post
  {
    var xs := [x] + post;
    assert Without([x], x.id) == [] by {
      assert [x][1..] == [];
    }
    WithoutConcat([x], post, x.id);
    WithoutAbsent(post, x.id);
    assert Without(xs, x.id) == post;
    WithoutConcat(pre, xs, x.id);
    WithoutAbsent(pre, x.id);
    assert pre + [x] + post == pre + xs;
  }

  /** With unique ids, removing the id at index `k` is exactly cutting out position `k`. */
  lemma RemoveUniqueCutsOut(s: seq<Building>, k: nat)
    requires UniqueIds(s) && k < |s|
    ensures Remove(s, s[k].id) == s[..k] + s[k + 1..]
  {
    UniqueElsewhereAbsent(s, k);
    WithoutCutsSingle(s[..k], s[k], s[k + 1..]);
    assert s[..k] + [s[k]] + s[k + 1..] == s;
  }

  /** Removing an absent id is a no-op. */
  lemma RemoveAbsentNoop(s: seq<Building>, id: string)
    requires !IsSelected(s, id)
    ensures Remove(s, id) == s
  {
    WithoutAbsent(s, id);
  }

  /** Removing twice is the same as removing once. */
  lemma RemoveIdempotent(s: seq<Building>, id: string)
    ensures Remove(Remove(s, id), id) == Remove(s, id)
  {
    WithoutAbsent(Remove(s, id), id);
  }

  /** After remove-all the list is empty, and raising or resetting any id keeps it empty. */
  lemma RemoveAllClears(s: seq<Building>, id: string)
    ensures RemoveAll(s) == []
    ensures IncreaseHeight(RemoveAll(s), id) == []
    ensures ResetHeight(RemoveAll(s), id) == []
  {
  }

  // ---------------------------------------------------------------------
  // Heights

  /** Raising or resetting an absent id changes nothing. */
  lemma HeightOpsAbsentNoop(s: seq<Building>, id: string)
    requires !IsSelected(s, id)
    ensures IncreaseHeight(s, id) == s
    ensures ResetHeight(s, id) == s
  {
    assert forall i :: 0 <= i < |s| ==> s[i].id != id;
  }

  /** Raising and resetting keep the set of selected ids and their uniqueness. */
  lemma HeightOpsKeepIds(s: seq<Building>, id: string, other: string)
    ensures IsSelected(IncreaseHeight(s, id), other) <==> IsSelected(s, other)
    ensures IsSelected(ResetHeight(s, id), other) <==> IsSelected(s, other)
    ensures UniqueIds(s) ==> UniqueIds(IncreaseHeight(s, id)) && UniqueIds(ResetHeight(s, id))
  {
    var inc, res := IncreaseHeight(s, id), ResetHeight(s, id);
    if IsSelected(s, other) {
      var i :| 0 <= i < |s| && s[i].id == other;
      assert inc[i].id == other && res[i].id == other;
    }
    if IsSelected(inc, other) {
      var i :| 0 <= i < |inc| && inc[i].id == other;
      assert s[i].id == other;
    }
    if IsSelected(res, other) {
      var i :| 0 <= i < |res| && res[i].id == other;
      assert s[i].id == other;
    }
  }

  /** Resetting twice is the same as resetting once. */
  lemma ResetIdempotent(s: seq<Building>, id: string)
    ensures ResetHeight(ResetHeight(s, id), id) == ResetHeight(s, id)
  {
    var r := ResetHeight(s, id);
    var rr := ResetHeight(r, id);
    assert forall i :: 0 <= i < |r| ==> rr[i] == r[i];
  }

  /** `n` raises add exactly `10 * n` to the matching records and touch nothing else. */
  lemma {:induction false} IncreaseHeightTimesAdds(s: seq<Building>, id: string, n: nat)
    ensures var r := IncreaseHeightTimes(s, id, n);
      && |r| == |s|
      && forall i :: 0 <= i < |s| ==>
        r[i] == if s[i].id == id then s[i].(height := s[i].height + HeightStep * n) else s[i]
  {
    if n > 0 {
      IncreaseHeightTimesAdds(s, id, n - 1);
      var p := IncreaseHeightTimes(s, id, n - 1);
      var r := IncreaseHeight(p, id);
      forall i | 0 <= i < |s|
        ensures r[i] == if s[i].id == id then s[i].(height := s[i].height + HeightStep * n) else s[i]
      {
      }
    }
  }

  /** However many times the height was raised, a reset gives what a reset without raises gives. */
  lemma ResetAfterIncreases(s: seq<Building>, id: string, n: nat)
    ensures ResetHeight(IncreaseHeightTimes(s, id, n), id) == ResetHeight(s, id)
  {
    IncreaseHeightTimesAdds(s, id, n);
    var a := ResetHeight(IncreaseHeightTimes(s, id, n), id);
    var b := ResetHeight(s, id);
    assert forall i :: 0 <= i < |s| ==> a[i] == b[i];
  }

  /** A freshly selected building, raised `n` times and reset, is back at the height it was selected with. */
  lemma SelectIncreaseResetRestores(s: seq<Building>, id: string, height: int, address: string, n: nat)
    requires !IsSelected(s, id)
    ensures var r := ResetHeight(IncreaseHeightTimes(Toggle(s, id, height, address), id, n), id);
      && |r| == |s| + 1
      && r[..|s|] == s
      && r[|s|] == NewRecord(id, height, address)
  {
    var t := Toggle(s, id, height, address);
    ToggleAbsentAppends(s, id, height, address);
    ResetAfterIncreases(t, id, n);
    var r := ResetHeight(t, id);
    assert forall i :: 0 <= i < |s| ==> s[i].id != id;
    assert r[..|s|] == s by {
      assert forall i :: 0 <= i < |s| ==> r[i] == t[i] == s[i];
    }
  }

  // ---------------------------------------------------------------------
  // Worked scenarios

  /** Select A at 20, raise twice (40), reset (20), toggle A again (empty). */
  lemma ScenarioRaiseAndReset()
    ensures var s1 := Toggle([], "A", 20, "addr");
      var s3 := IncreaseHeight(IncreaseHeight(s1, "A"), "A");
      var s4 := ResetHeight(s3, "A");
      && s1 == [Building("A", 20, 20, PlaceholderName, "addr")]
      && s3 == [Building("A", 40, 20, PlaceholderName, "addr")]
      && s4 == s1
      && Toggle(s4, "A", 0, "") == []
  {
    var s1 := Toggle([], "A", 20, "addr");
    assert s1[0].id == "A";
    ResetIdempotent(s1, "A");
    var s2 := IncreaseHeight(s1, "A");
    var s3 := IncreaseHeight(s2, "A");
    assert s3[0].height == 40;
    ToggleTwiceRestores([], "A", 20, "addr", 0, "");
  }

  /** Select A (20), select B (15), click A again: only B is left. */
  lemma ScenarioToggleOff()
    ensures Toggle(Toggle(Toggle([], "A", 20, "a"), "B", 15, "b"), "A", 20, "a")
      == [Building("B", 15, 15, PlaceholderName, "b")]
  {
    var a := NewRecord("A", 20, "a");
    var b := NewRecord("B", 15, "b");
    var s1 := Toggle([], "A", 20, "a");
    assert s1 == [a] by { assert !IsSelected([], "A"); }
    assert !IsSelected(s1, "B") by { assert s1[0].id != "B"; }
    var s2 := Toggle(s1, "B", 15, "b");
    assert s2 == [a, b];
    assert IsSelected(s2, "A") by { assert s2[0].id == "A"; }
    RemoveUniqueCutsOut(s2, 0);
  }
}
