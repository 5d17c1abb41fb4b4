/**
 * `TrackTable`: the row-selection map handed to the table, and the diff that
 * turns a new row selection into toggle calls on the parent's set of positions.
 */
module TrackTable {
  import opened Seqs
  import opened Types

  /** `row.index + 1`: rows are numbered from 1. */
  function TrackNumber(rowIndex: nat): (n: nat)
    ensures n >= 1 && n - 1 == rowIndex
  {
    rowIndex + 1
  }

  /** `rowSelection`: row `i` is selected exactly when its position is among the selected tracks. */
  function RowSelection(data: seq<DiscogsTrack>, selected: set<string>): (m: map<nat, bool>)
    ensures forall i: nat :: i in m <==> i < |data|
    ensures forall i: nat :: i < |data| ==> (m[i] <==> data[i].position in selected)
  {
    map i: nat | i < |data| :: data[i].position in selected
  }

  /** What the table calls on its parent. */
  datatype Call = ToggleTrack(position: string) | ToggleAll

  /** An entry of `Object.entries(newSelection)`: a row index and its flag. */
  type Entry = (nat, bool)

  predicate EntriesInRange(data: seq<DiscogsTrack>, entries: seq<Entry>) {
    forall k :: 0 <= k < |entries| ==> entries[k].0 < |data|
  }

  /** `newSelectedTracks`, as a set in insertion order. */
  function NewSelected(data: seq<DiscogsTrack>, entries: seq<Entry>): seq<string>
    requires EntriesInRange(data, entries)
    decreases |entries|
  {
    if entries == [] then []
    else
      var front := NewSelected(data, entries[..|entries| - 1]);
      var last := entries[|entries| - 1];
      var position := data[last.0].position;
      if last.1 && position !in front then front + [position] else front
  }

  function Toggles(positions: seq<string>): (r: seq<Call>)
    ensures |r| == |positions| && forall i :: 0 <= i < |r| ==> r[i] == ToggleTrack(positions[i])
  {
    seq(|positions|, i requires 0 <= i < |positions| => ToggleTrack(positions[i]))
  }

  function Added(newSelected: seq<string>, selected: seq<string>): seq<string> {
    Filter(newSelected, (p: string) => p !in selected)
  }

  function Removed(newSelected: seq<string>, selected: seq<string>): seq<string> {
    Filter(selected, (p: string) => p !in newSelected)
  }

  predicate CallsToggleAll(data: seq<DiscogsTrack>, newSelected: seq<string>) {
    |newSelected| == |data| || |newSelected| == 0
  }

  /** The calls `onRowSelectionChange` makes, in order. */
  function SelectionCalls(data: seq<DiscogsTrack>, selected: seq<string>, entries: seq<Entry>): seq<Call>
    requires EntriesInRange(data, entries)
  {
    var n := NewSelected(data, entries);
    Toggles(Added(n, selected)) + Toggles(Removed(n, selected))
      + (if CallsToggleAll(data, n) then [ToggleAll] else [])
  }

  /**
   * `onRowSelectionChange` with the parent's selection as a set in insertion
   * order: it collects the selected positions, then toggles the added ones and
   * the removed ones, then reports a select-all or clear-all.
   */
  method OnRowSelectionChange(data: seq<DiscogsTrack>, selected: seq<string>, entries: seq<Entry>)
    returns (calls: seq<Call>)
    requires EntriesInRange(data, entries)
    ensures calls == SelectionCalls(data, selected, entries)
  {
    var newSelected := SelectedPositions(data, entries);
    calls := ToggleMissing(newSelected, selected);
    var removed := ToggleMissing(selected, newSelected);
    calls := calls + removed;
    if |newSelected| == |data| || |newSelected| == 0 {
      calls := calls + [ToggleAll];
    }
  }

  /** The `forEach` over the entries that fills `newSelectedTracks`. */
  method SelectedPositions(data: seq<DiscogsTrack>, entries: seq<Entry>) returns (newSelected: seq<string>)
    requires EntriesInRange(data, entries)
    ensures newSelected == NewSelected(data, entries)
  {
    newSelected := [];
    for k := 0 to |entries|
      invariant newSelected == NewSelected(data, entries[..k])
    {
      assert entries[..k + 1][..k] == entries[..k];
      var index := entries[k].0;
      var position := data[index].position;
      if entries[k].1 && position !in newSelected {
        newSelected := newSelected + [position];
      }
    }
    assert entries[..|entries|] == entries;
  }

  /** A `forEach` over one set that toggles each position the other set lacks. */
  method ToggleMissing(positions: seq<string>, other: seq<string>) returns (calls: seq<Call>)
    ensures calls == Toggles(Filter(positions, (p: string) => p !in other))
  {
    var missing := (p: string) => p !in other;
    calls := [];
    for k := 0 to |positions|
      invariant calls == Toggles(Filter(positions[..k], missing))
    {
      var position := positions[k];
      assert positions[..k + 1] == positions[..k] + [position];
      ToggleStep(positions[..k], position, missing);
      if position !in other {
        calls := calls + [ToggleTrack(position)];
      }
    }
    assert positions[..|positions|] == positions;
  }

  /** One more position: it is toggled after the earlier ones when it passes the test. */
  lemma ToggleStep(prefix: seq<string>, x: string, f: string -> bool)
    ensures Toggles(Filter(prefix + [x], f)) == Toggles(Filter(prefix, f)) + (if f(x) then [ToggleTrack(x)] else [])
  {
    FilterAppend(prefix, [x], f);
    assert Filter([x], f) == if f(x) then [x] else [];
    TogglesAppend(Filter(prefix, f), Filter([x], f));
  }

  lemma TogglesAppend(a: seq<string>, b: seq<string>)
    ensures Toggles(a + b) == Toggles(a) + Toggles(b)
  {
  }

  // ---- What the calls do ----

  /** `newSelectedTracks` holds each position once. */
  lemma {:induction false} NewSelectedDistinct(data: seq<DiscogsTrack>, entries: seq<Entry>)
    requires EntriesInRange(data, entries)
    ensures Distinct(NewSelected(data, entries))
    decreases |entries|
  {
    if entries != [] {
      NewSelectedDistinct(data, entries[..|entries| - 1]);
    }
  }

  /** `newSelectedTracks` holds exactly the positions of the rows flagged true. */
  lemma {:induction false} NewSelectedMembers(data: seq<DiscogsTrack>, entries: seq<Entry>)
    requires EntriesInRange(data, entries)
    ensures forall p :: p in NewSelected(data, entries) <==>
      exists k :: 0 <= k < |entries| && entries[k].1 && data[entries[k].0].position == p
    decreases |entries|
  {
    if entries != [] {
      var front := entries[..|entries| - 1];
      NewSelectedMembers(data, front);
      var n := NewSelected(data, entries);
      var last := entries[|entries| - 1];
      forall p ensures p in n <==> exists k :: 0 <= k < |entries| && entries[k].1 && data[entries[k].0].position == p {
        if p in n && !(last.1 && p == data[last.0].position) {
          assert p in NewSelected(data, front);
          var k :| 0 <= k < |front| && front[k].1 && data[front[k].0].position == p;
          assert entries[k] == front[k];
        }
        if exists k :: 0 <= k < |entries| && entries[k].1 && data[entries[k].0].position == p {
          var k :| 0 <= k < |entries| && entries[k].1 && data[entries[k].0].position == p;
          if k < |front| {
            assert front[k] == entries[k];
          }
        }
      }
    }
  }

  function SetOf(s: seq<string>): (r: set<string>)
    ensures forall p :: p in r <==> p in s
  {
    set p | p in s
  }

  /** Flip the membership of every toggled position; `ToggleAll` is the parent's business. */
  function Apply(s: set<string>, calls: seq<Call>): set<string>
    decreases |calls|
  {
    if calls == [] then s
    else
      var rest := Apply(s, calls[1..]);
      match calls[0]
      case ToggleTrack(p) => if p in rest then rest - {p} else rest + {p}
      case ToggleAll => rest
  }

  lemma {:induction false} ApplyToggles(s: set<string>, positions: seq<string>)
    requires Distinct(positions)
    ensures Apply(s, Toggles(positions)) == (s - SetOf(positions)) + (SetOf(positions) - s)
    decreases |positions|
  {
    if positions != [] {
      var rest := positions[1..];
      assert Distinct(rest) by {
        forall i, j | 0 <= i < j < |rest| ensures rest[i] != rest[j] {
          assert rest[i] == positions[i + 1] && rest[j] == positions[j + 1];
        }
      }
      assert positions[0] !in rest by {
        forall k | 0 <= k < |rest| ensures rest[k] != positions[0] {
          assert rest[k] == positions[k + 1];
        }
      }
      assert Toggles(positions)[1..] == Toggles(rest);
      ApplyToggles(s, rest);
      assert SetOf(positions) == SetOf(rest) + {positions[0]};
    }
  }

  lemma {:induction false} ApplyAppend(s: set<string>, a: seq<Call>, b: seq<Call>)
    ensures Apply(s, a + b) == Apply(Apply(s, b), a)
    decreases |a|
  {
    if a == [] {
      assert a + b == b;
    } else {
      assert (a + b)[0] == a[0] && (a + b)[1..] == a[1..] + b;
      ApplyAppend(s, a[1..], b);
    }
  }

  /** The toggled positions: each in exactly one of the two selections, none twice. */
  lemma ChangedPositions(ns: seq<string>, selected: seq<string>)
    requires Distinct(ns) && Distinct(selected)
    ensures var both := Added(ns, selected) + Removed(ns, selected);
      && Distinct(both)
      && forall p :: p in both <==> (p in ns && p !in selected) || (p in selected && p !in ns)
  {
    var add := Added(ns, selected);
    var rem := Removed(ns, selected);
    FilterDistinct(ns, (p: string) => p !in selected);
    FilterDistinct(selected, (p: string) => p !in ns);
    var both := add + rem;
    forall i, j | 0 <= i < j < |both| ensures both[i] != both[j] {
      if i < |add| {
        assert both[i] == add[i];
        if j < |add| {
          assert both[j] == add[j];
        } else {
          assert both[j] == rem[j - |add|];
          assert both[j] in rem;
        }
      } else {
        assert both[i] == rem[i - |add|] && both[j] == rem[j - |add|];
      }
    }
  }

  /** A distinct list of positions gives distinct toggle calls, one per position. */
  lemma TogglesDistinct(ps: seq<string>)
    requires Distinct(ps)
    ensures Distinct(Toggles(ps))
    ensures forall p :: ToggleTrack(p) in Toggles(ps) <==> p in ps
    ensures ToggleAll !in Toggles(ps)
  {
    var t := Toggles(ps);
    forall p ensures ToggleTrack(p) in t <==> p in ps {
      if ToggleTrack(p) in t {
        var i :| 0 <= i < |t| && t[i] == ToggleTrack(p);
        assert ps[i] == p;
      }
      if p in ps {
        var i :| 0 <= i < |ps| && ps[i] == p;
        assert t[i] == ToggleTrack(p);
      }
    }
  }

  /** The calls are the toggles of the changed positions, then possibly `onToggleAll`. */
  lemma SelectionCallsShape(data: seq<DiscogsTrack>, selected: seq<string>, entries: seq<Entry>)
    requires EntriesInRange(data, entries)
    ensures var ns := NewSelected(data, entries);
      SelectionCalls(data, selected, entries)
      == Toggles(Added(ns, selected) + Removed(ns, selected)) + (if CallsToggleAll(data, ns) then [ToggleAll] else [])
  {
    var ns := NewSelected(data, entries);
    var add := Added(ns, selected);
    var rem := Removed(ns, selected);
    assert Toggles(add) + Toggles(rem) == Toggles(add + rem);
  }

  /**
   * Each position in exactly one of the old and new selections is toggled,
   * once, and no other position is; `onToggleAll` is called exactly when all
   * rows or none are selected.
   */
  lemma SelectionCallsSpec(data: seq<DiscogsTrack>, selected: seq<string>, entries: seq<Entry>)
    requires EntriesInRange(data, entries) && Distinct(selected)
    ensures var calls := SelectionCalls(data, selected, entries);
      var ns := NewSelected(data, entries);
      && (forall p :: ToggleTrack(p) in calls <==> (p in ns && p !in selected) || (p in selected && p !in ns))
      && Distinct(calls)
      && (ToggleAll in calls <==> |SetOf(ns)| == |data| || |SetOf(ns)| == 0)
  {
    var ns := NewSelected(data, entries);
    NewSelectedDistinct(data, entries);
    DistinctCardinality(ns);
    var both := Added(ns, selected) + Removed(ns, selected);
    ChangedPositions(ns, selected);
    TogglesDistinct(both);
    SelectionCallsShape(data, selected, entries);
    var t := Toggles(both);
    var calls := SelectionCalls(data, selected, entries);
    forall i, j | 0 <= i < j < |calls| ensures calls[i] != calls[j] {
      if j < |t| {
        assert calls[i] == t[i] && calls[j] == t[j];
      } else {
        assert calls[i] == t[i];
      }
    }
  }

  /** Flipping each toggled position of the old selection gives the new one. */
  lemma SelectionCallsApply(data: seq<DiscogsTrack>, selected: seq<string>, entries: seq<Entry>)
    requires EntriesInRange(data, entries) && Distinct(selected)
    ensures Apply(SetOf(selected), SelectionCalls(data, selected, entries)) == SetOf(NewSelected(data, entries))
  {
    var ns := NewSelected(data, entries);
    NewSelectedDistinct(data, entries);
    var both := Added(ns, selected) + Removed(ns, selected);
    ChangedPositions(ns, selected);
    SelectionCallsShape(data, selected, entries);
    var tail: seq<Call> := if CallsToggleAll(data, ns) then [ToggleAll] else [];
    var o := SetOf(selected);
    ApplyAppend(o, Toggles(both), tail);
    ApplyToggles(o, both);
  }

  /** The size of the set of a distinct sequence is its length. */
  lemma {:induction false} DistinctCardinality(s: seq<string>)
    requires Distinct(s)
    ensures |SetOf(s)| == |s|
    decreases |s|
  {
    if s != [] {
      var front := s[..|s| - 1];
      assert Distinct(front);
      DistinctCardinality(front);
      assert s[|s| - 1] !in front;
      assert SetOf(s) == SetOf(front) + {s[|s| - 1]} by {
        assert s == front + [s[|s| - 1]];
      }
    }
  }
}
