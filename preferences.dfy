/**
 * Geometry collection: every row publishes its message and frame through
 * `MessageFramePreferenceKey`, the list combines the rows' values with `reduce`,
 * and the overlay draws a highlighted copy for each collected entry of the selected message.
 */
module Preferences {
  import opened Optional
  import opened Geometry
  import opened Messages

  /** `MessageGeometryData`, with the anchor already resolved to a frame in the list's space. */
  datatype MessageGeometryData = MessageGeometryData(message: MessageModel, frame: Rect)

  /** The preference value being accumulated; it starts as `defaultValue`. */
  class PreferenceValue {
    var value: seq<MessageGeometryData>

    constructor ()
      ensures value == []
    {
      value := [];
    }

    /** `reduce`: appends the next batch in place, keeping every entry already collected. */
    method Reduce(next: seq<MessageGeometryData>)
      modifies this
      ensures value == old(value) + next
      ensures |value| == |old(value)| + |next| && value[..|old(value)|] == old(value)
    {
      value := value + next;
    }
  }

  /** The value after reducing `defaultValue` with each batch in turn. */
  function Collect(batches: seq<seq<MessageGeometryData>>): seq<MessageGeometryData>
  {
    if batches == [] then [] else Collect(batches[..|batches| - 1]) + batches[|batches| - 1]
  }

  /** The framework's combination of the batches: `reduce` on `defaultValue`, one batch after another. */
  method ReduceAll(batches: seq<seq<MessageGeometryData>>) returns (p: PreferenceValue)
    ensures fresh(p) && p.value == Collect(batches)
  {
    p := new PreferenceValue();
    var i := 0;
    while i < |batches|
      invariant 0 <= i <= |batches|
      invariant p.value == Collect(batches[..i])
    {
      assert batches[..i + 1][..i] == batches[..i];
      p.Reduce(batches[i]);
      i := i + 1;
    }
    assert batches[..i] == batches;
  }

  function TotalLength(batches: seq<seq<MessageGeometryData>>): nat
  {
    if batches == [] then 0 else TotalLength(batches[..|batches| - 1]) + |batches[|batches| - 1]|
  }

  /** Nothing is merged or dropped: the collected length is the sum of the batch lengths. */
  lemma {:induction false} CollectLength(batches: seq<seq<MessageGeometryData>>)
    ensures |Collect(batches)| == TotalLength(batches)
    decreases |batches|
  {
    if batches != [] {
      CollectLength(batches[..|batches| - 1]);
    }
  }

  /** Order is kept: what was collected from the first k batches stays a prefix of the whole. */
  lemma {:induction false} CollectKeepsPrefix(batches: seq<seq<MessageGeometryData>>, k: nat)
    requires k <= |batches|
    ensures |Collect(batches[..k])| <= |Collect(batches)|
    ensures Collect(batches)[..|Collect(batches[..k])|] == Collect(batches[..k])
    decreases |batches|
  {
    if k < |batches| {
      var init := batches[..|batches| - 1];
      assert init[..k] == batches[..k];
      CollectKeepsPrefix(init, k);
    } else {
      assert batches[..k] == batches;
    }
  }

  /** An entry is collected exactly when some batch reported it. */
  lemma {:induction false} CollectMembers(batches: seq<seq<MessageGeometryData>>, d: MessageGeometryData)
    ensures d in Collect(batches) <==> exists i :: 0 <= i < |batches| && d in batches[i]
    decreases |batches|
  {
    if batches != [] {
      var init := batches[..|batches| - 1];
      CollectMembers(init, d);
      if d in Collect(init) {
        var i :| 0 <= i < |init| && d in init[i];
        assert d in batches[i];
      }
    }
  }

  /** The batch a row publishes through `anchorPreference`: its own message and frame. */
  function RowReport(message: MessageModel, frame: Rect): seq<MessageGeometryData>
  {
    [MessageGeometryData(message, frame)]
  }

  /** The batches of the rows laid out, in list order. */
  function RowReports(ms: seq<MessageModel>, frames: seq<Rect>): (batches: seq<seq<MessageGeometryData>>)
    requires |frames| == |ms|
    ensures |batches| == |ms|
  {
    seq(|ms|, i requires 0 <= i < |ms| => RowReport(ms[i], frames[i]))
  }

  /** Rows paired with their frames. */
  function Pairs(ms: seq<MessageModel>, frames: seq<Rect>): (ps: seq<MessageGeometryData>)
    requires |frames| == |ms|
    ensures |ps| == |ms|
  {
    seq(|ms|, i requires 0 <= i < |ms| => MessageGeometryData(ms[i], frames[i]))
  }

  /** Collecting one report per row yields every row once, in list order. */
  lemma {:induction false} CollectRowReports(ms: seq<MessageModel>, frames: seq<Rect>)
    requires |frames| == |ms|
    ensures Collect(RowReports(ms, frames)) == Pairs(ms, frames)
    decreases |ms|
  {
    if ms != [] {
      var n := |ms| - 1;
      assert RowReports(ms, frames)[..n] == RowReports(ms[..n], frames[..n]);
      CollectRowReports(ms[..n], frames[..n]);
      assert Pairs(ms, frames) == Pairs(ms[..n], frames[..n]) + [MessageGeometryData(ms[n], frames[n])];
    }
  }

  predicate Shows(d: MessageGeometryData, selectedId: Option<int>) {
    selectedId == Some(d.message.id)
  }

  /** The entries for which the overlay draws a highlighted copy: those of the selected message. */
  function OverlayEntries(collected: seq<MessageGeometryData>, selectedId: Option<int>): (shown: seq<MessageGeometryData>)
    ensures |shown| <= |collected|
    ensures forall d :: d in shown ==> d in collected && Shows(d, selectedId)
    ensures forall d :: d in collected && Shows(d, selectedId) ==> d in shown
    ensures selectedId == None ==> shown == []
  {
    if collected == [] then []
    else (if Shows(collected[0], selectedId) then [collected[0]] else []) + OverlayEntries(collected[1..], selectedId)
  }

  /** No copy is drawn exactly when no collected entry belongs to the selected message. */
  lemma OverlayEmptyExactly(collected: seq<MessageGeometryData>, selectedId: Option<int>)
    ensures OverlayEntries(collected, selectedId) == [] <==> forall d :: d in collected ==> !Shows(d, selectedId)
  {
    var shown := OverlayEntries(collected, selectedId);
    if shown != [] {
      assert shown[0] in shown;
    }
  }

  /** The overlay of a concatenation is the concatenation of the overlays. */
  lemma {:induction false} OverlayEntriesAppend(a: seq<MessageGeometryData>, b: seq<MessageGeometryData>, selectedId: Option<int>)
    ensures OverlayEntries(a + b, selectedId) == OverlayEntries(a, selectedId) + OverlayEntries(b, selectedId)
    decreases |a|
  {
    if a == [] {
      assert a + b == b;
    } else {
      var head := if Shows(a[0], selectedId) then [a[0]] else [];
      assert (a + b)[0] == a[0] && (a + b)[1..] == a[1..] + b;
      OverlayEntriesAppend(a[1..], b, selectedId);
      calc {
        OverlayEntries(a + b, selectedId);
        head + OverlayEntries(a[1..] + b, selectedId);
        head + (OverlayEntries(a[1..], selectedId) + OverlayEntries(b, selectedId));
        (head + OverlayEntries(a[1..], selectedId)) + OverlayEntries(b, selectedId);
        OverlayEntries(a, selectedId) + OverlayEntries(b, selectedId);
      }
    }
  }

  /**
   * `reduce` does not deduplicate: a message reported in two batches is collected twice,
   * and the overlay draws one highlighted copy per report.
   */
  lemma DuplicateReportsAreKept(m: MessageModel, f1: Rect, f2: Rect)
    ensures Collect([RowReport(m, f1), RowReport(m, f2)]) == [MessageGeometryData(m, f1), MessageGeometryData(m, f2)]
    ensures |OverlayEntries(Collect([RowReport(m, f1), RowReport(m, f2)]), Some(m.id))| == 2
  {
    var bs := [RowReport(m, f1), RowReport(m, f2)];
    assert bs[..1] == [RowReport(m, f1)];
    assert [RowReport(m, f1)][..0] == [];
    assert Collect(bs[..1]) == [MessageGeometryData(m, f1)];
    OverlayEntriesAppend([MessageGeometryData(m, f1)], [MessageGeometryData(m, f2)], Some(m.id));
  }

  /** When only the entry at k belongs to the selected message, the overlay shows exactly that entry. */
  lemma {:induction false} OverlayOfSoleMatch(collected: seq<MessageGeometryData>, selectedId: Option<int>, k: nat)
    requires k < |collected| && Shows(collected[k], selectedId)
    requires forall i :: 0 <= i < |collected| && i != k ==> !Shows(collected[i], selectedId)
    ensures OverlayEntries(collected, selectedId) == [collected[k]]
    decreases k
  {
    if k == 0 {
      forall d | d in collected[1..] ensures !Shows(d, selectedId) {
        var i :| 0 <= i < |collected| - 1 && collected[1..][i] == d;
        assert collected[i + 1] == d;
      }
      OverlayEmptyExactly(collected[1..], selectedId);
    } else {
      OverlayOfSoleMatch(collected[1..], selectedId, k - 1);
    }
  }

  /**
   * With one report per row and unique ids, selecting a row's message draws exactly one
   * highlighted copy, at that row's frame; an id no row has draws none.
   */
  lemma SelectedRowOverlay(ms: seq<MessageModel>, frames: seq<Rect>, k: nat)
    requires |frames| == |ms| && k < |ms| && UniqueIds(Ids(ms))
    ensures OverlayEntries(Collect(RowReports(ms, frames)), Some(ms[k].id)) == [MessageGeometryData(ms[k], frames[k])]
  {
    CollectRowReports(ms, frames);
    var ps := Pairs(ms, frames);
    forall i | 0 <= i < |ps| && i != k ensures !Shows(ps[i], Some(ms[k].id)) {
      assert Ids(ms)[i] != Ids(ms)[k];
    }
    OverlayOfSoleMatch(ps, Some(ms[k].id), k);
  }

  /** An id that no row has draws no highlighted copy. */
  lemma UnknownIdNoOverlay(ms: seq<MessageModel>, frames: seq<Rect>, id: int)
    requires |frames| == |ms| && id !in Ids(ms)
    ensures OverlayEntries(Collect(RowReports(ms, frames)), Some(id)) == []
  {
    CollectRowReports(ms, frames);
    var ps := Pairs(ms, frames);
    forall d | d in ps ensures !Shows(d, Some(id)) {
      var i :| 0 <= i < |ps| && ps[i] == d;
      assert Ids(ms)[i] == d.message.id;
    }
    OverlayEmptyExactly(ps, Some(id));
  }
}
