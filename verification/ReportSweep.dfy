/** The report worker's round robin over tenants. */
module ReportSweep {
  import opened Wrappers
  import opened Arithmetic

  /** The tenant table in id order. */
  predicate Ascending(tenants: seq<nat>) {
    forall i, j :: 0 <= i < j < |tenants| ==> tenants[i] < tenants[j]
  }

  /** `loadTenantBatch`: the first tenants after the cursor. */
  function LoadBatch(tenants: seq<nat>, cursor: Option<nat>, batch: nat): seq<nat> {
    if tenants == [] || batch == 0 then []
    else if cursor.Some? && tenants[0] <= cursor.value then LoadBatch(tenants[1..], cursor, batch)
    else [tenants[0]] + LoadBatch(tenants[1..], cursor, batch - 1)
  }

  /** The tenants one cycle rebuilds: the next batch, or the first one again after the last tenant. */
  function Selected(tenants: seq<nat>, cursor: Option<nat>, batch: nat): seq<nat> {
    var next := LoadBatch(tenants, cursor, batch);
    if next == [] && cursor.Some? then LoadBatch(tenants, None, batch) else next
  }

  /** The watermark a cycle leaves behind. */
  function NextCursor(tenants: seq<nat>, cursor: Option<nat>, batch: nat): Option<nat> {
    var rebuilt := Selected(tenants, cursor, batch);
    if rebuilt == [] then None else Some(rebuilt[|rebuilt| - 1])
  }

  /** What `cycles` cycles in a row rebuild, in order. */
  function Rebuilt(tenants: seq<nat>, cursor: Option<nat>, batch: nat, cycles: nat): seq<nat>
    decreases cycles
  {
    if cycles == 0 then []
    else Selected(tenants, cursor, batch) + Rebuilt(tenants, NextCursor(tenants, cursor, batch), batch, cycles - 1)
  }

  class Worker {
    var cursor: Option<nat>

    constructor ()
      ensures cursor == None
    {
      cursor := None;
    }

    /** `executeCycle`, when every rebuild succeeds. */
    method ExecuteCycle(tenants: seq<nat>, batch: nat) returns (rebuilt: seq<nat>)
      modifies this
      ensures rebuilt == Selected(tenants, old(cursor), batch)
      ensures cursor == NextCursor(tenants, old(cursor), batch)
    {
      var selected := LoadBatch(tenants, cursor, batch);
      if selected == [] && cursor.Some? {
        selected := LoadBatch(tenants, None, batch);
      }
      rebuilt := [];
      var i := 0;
      while i < |selected|
        invariant 0 <= i <= |selected| && rebuilt == selected[..i]
      {
        rebuilt := rebuilt + [selected[i]];
        i := i + 1;
      }
      cursor := if selected == [] then None else Some(selected[|selected| - 1]);
    }
  }

  // ----- cursors as positions

  /** How many tenants the cursor has passed. */
  function Position(tenants: seq<nat>, cursor: Option<nat>): (p: nat)
    ensures p <= |tenants|
  {
    if tenants == [] || cursor.None? || tenants[0] > cursor.value then 0 else 1 + Position(tenants[1..], cursor)
  }

  lemma {:induction false} LoadFromPosition(tenants: seq<nat>, cursor: Option<nat>, batch: nat)
    requires Ascending(tenants)
    ensures var p := Position(tenants, cursor);
      LoadBatch(tenants, cursor, batch) == tenants[p..Min(p + batch, |tenants|)]
  {
    if tenants != [] && batch != 0 {
      if cursor.Some? && tenants[0] <= cursor.value {
        LoadFromPosition(tenants[1..], cursor, batch);
      } else {
        LoadAhead(tenants, cursor, batch);
      }
    }
  }

  /** With every tenant ahead of the cursor a batch is a prefix. */
  lemma {:induction false} LoadAhead(tenants: seq<nat>, cursor: Option<nat>, batch: nat)
    requires cursor.Some? ==> forall i :: 0 <= i < |tenants| ==> tenants[i] > cursor.value
    ensures LoadBatch(tenants, cursor, batch) == tenants[..Min(batch, |tenants|)]
  {
    if tenants != [] && batch != 0 {
      var rest := tenants[1..];
      LoadAhead(rest, cursor, batch - 1);
      var m := Min(batch, |tenants|);
      assert Min(batch - 1, |rest|) == m - 1;
      assert [tenants[0]] + rest[..m - 1] == tenants[..m];
    }
  }

  lemma {:induction false} PositionOf(tenants: seq<nat>, i: nat)
    requires Ascending(tenants) && i < |tenants|
    ensures Position(tenants, Some(tenants[i])) == i + 1
  {
    if i == 0 {
      if |tenants| > 1 {
        assert tenants[0] < tenants[1] == tenants[1..][0];
      }
    } else {
      assert tenants[0] < tenants[i];
      PositionOf(tenants[1..], i - 1);
    }
  }

  /** What the batch query returns, and where its last tenant leaves the cursor. */
  lemma BatchFrom(tenants: seq<nat>, cursor: Option<nat>, batch: nat)
    requires Ascending(tenants) && batch > 0 && Position(tenants, cursor) < |tenants|
    ensures var p := Position(tenants, cursor);
      var to := Min(p + batch, |tenants|);
      var rows := LoadBatch(tenants, cursor, batch);
      && rows == tenants[p..to] && rows != []
      && Position(tenants, Some(rows[|rows| - 1])) == to
  {
    hide LoadBatch, Position;
    LoadFromPosition(tenants, cursor, batch);
    PositionOf(tenants, Min(Position(tenants, cursor) + batch, |tenants|) - 1);
  }

  lemma NoCursor(tenants: seq<nat>, cursor: Option<nat>)
    ensures Position(tenants, None) == 0
    ensures tenants != [] && Position(tenants, cursor) == |tenants| ==> cursor.Some?
  {
  }

  /** One cycle in terms of positions: forward by a batch, or back to the start from the end. */
  lemma CycleMoves(tenants: seq<nat>, cursor: Option<nat>, batch: nat)
    requires Ascending(tenants) && tenants != [] && batch > 0
    ensures var p := Position(tenants, cursor);
      var from := if p == |tenants| then 0 else p;
      var to := Min(from + batch, |tenants|);
      && Selected(tenants, cursor, batch) == tenants[from..to]
      && Position(tenants, NextCursor(tenants, cursor, batch)) == to
  {
    hide LoadBatch, Position;
    NoCursor(tenants, cursor);
    if Position(tenants, cursor) == |tenants| {
      LoadFromPosition(tenants, cursor, batch);
      BatchFrom(tenants, None, batch);
    } else {
      BatchFrom(tenants, cursor, batch);
    }
  }

  /** Without tenants there is nothing to rebuild, and the next cycle starts from the beginning. */
  lemma NoTenants(cursor: Option<nat>, batch: nat)
    ensures Selected([], cursor, batch) == [] && NextCursor([], cursor, batch) == None
  {
  }

  // ----- the theorems

  lemma OneMore(tenants: seq<nat>, cursor: Option<nat>, batch: nat, cycles: nat)
    ensures Rebuilt(tenants, cursor, batch, cycles + 1)
         == Selected(tenants, cursor, batch) + Rebuilt(tenants, NextCursor(tenants, cursor, batch), batch, cycles)
  {
  }

  /**
   * The rest of a pass: from position p the next Rounds(n - p) cycles rebuild exactly the tenants from p on, each once
   * and in id order, and whatever follows starts from a cursor at the end.
   */
  lemma {:induction false} RestOfPass(tenants: seq<nat>, cursor: Option<nat>, batch: nat, more: nat)
    returns (last: Option<nat>)
    requires Ascending(tenants) && batch > 0 && Position(tenants, cursor) < |tenants|
    ensures Position(tenants, last) == |tenants|
    ensures var p := Position(tenants, cursor);
      Rebuilt(tenants, cursor, batch, Rounds(|tenants| - p, batch) + more)
      == tenants[p..] + Rebuilt(tenants, last, batch, more)
    decreases |tenants| - Position(tenants, cursor)
  {
    hide Position, Selected, NextCursor, Rebuilt;
    var n, p := |tenants|, Position(tenants, cursor);
    CycleMoves(tenants, cursor, batch);
    var next := NextCursor(tenants, cursor, batch);
    var left := Rounds(n - p, batch) - 1;
    OneMore(tenants, cursor, batch, left + more);
    if n - p <= batch {
      last := next;
    } else {
      last := RestOfPass(tenants, next, batch, more);
      assert tenants[p..] == tenants[p..p + batch] + tenants[p + batch..];
    }
  }

  /** A full pass from the start rebuilds each tenant exactly once, in id order, in ceil(n / batch) cycles. */
  lemma FullPass(tenants: seq<nat>, batch: nat)
    requires Ascending(tenants) && batch > 0
    ensures Rebuilt(tenants, None, batch, CeilDiv(|tenants|, batch)) == tenants
    ensures forall i, j :: 0 <= i < j < |tenants| ==> tenants[i] != tenants[j]
  {
    if tenants == [] {
      CeilingDivision(0, batch, 0);
    } else {
      assert Position(tenants, None) == 0;
      RoundsIsCeiling(|tenants|, batch);
      var last := RestOfPass(tenants, None, batch, 0);
      assert tenants[0..] == tenants;
    }
  }

  /** A tenant at or after the cursor is rebuilt when its batch comes up. */
  lemma {:induction false} InTurn(tenants: seq<nat>, cursor: Option<nat>, batch: nat, i: nat)
    requires Ascending(tenants) && batch > 0 && i < |tenants|
    requires Position(tenants, cursor) <= i || Position(tenants, cursor) == |tenants|
    ensures var from := if Position(tenants, cursor) == |tenants| then 0 else Position(tenants, cursor);
      tenants[i] in Rebuilt(tenants, cursor, batch, Rounds(i + 1 - from, batch))
    decreases i + 1 - (if Position(tenants, cursor) == |tenants| then 0 else Position(tenants, cursor))
  {
    hide Position, Selected, NextCursor, Rebuilt;
    var from := if Position(tenants, cursor) == |tenants| then 0 else Position(tenants, cursor);
    CycleMoves(tenants, cursor, batch);
    OneMore(tenants, cursor, batch, Rounds(i + 1 - from, batch) - 1);
    if i + 1 - from <= batch {
      assert Selected(tenants, cursor, batch)[i - from] == tenants[i];
    } else {
      InTurn(tenants, NextCursor(tenants, cursor, batch), batch, i);
    }
  }

  /** Fairness: from any cursor, every tenant is rebuilt within ceil(n / batch) + 1 consecutive cycles. */
  lemma EveryTenantIsRebuilt(tenants: seq<nat>, cursor: Option<nat>, batch: nat, i: nat)
    requires Ascending(tenants) && batch > 0 && i < |tenants|
    ensures tenants[i] in Rebuilt(tenants, cursor, batch, CeilDiv(|tenants|, batch) + 1)
  {
    hide Position, Selected, NextCursor, Rebuilt, Rounds;
    var n, p := |tenants|, Position(tenants, cursor);
    RoundsIsCeiling(n, batch);
    if p <= i || p == n {
      InTurn(tenants, cursor, batch, i);
      var turn := Rounds(if p == n then i + 1 else i + 1 - p, batch);
      RoundsMonotone(if p == n then i + 1 else i + 1 - p, n, batch);
      MoreCycles(tenants, cursor, batch, turn, CeilDiv(n, batch) + 1);
    } else {
      var last := RestOfPass(tenants, cursor, batch, Rounds(i + 1, batch));
      InTurn(tenants, last, batch, i);
      RoundsOfParts(n - p, i + 1, batch);
      RoundsMonotone(n - p + i + 1, n, batch);
      MoreCycles(tenants, cursor, batch, Rounds(n - p, batch) + Rounds(i + 1, batch), CeilDiv(n, batch) + 1);
    }
  }

  /** More cycles rebuild no less. */
  lemma {:induction false} MoreCycles(tenants: seq<nat>, cursor: Option<nat>, batch: nat, few: nat, many: nat)
    requires few <= many
    ensures forall t :: t in Rebuilt(tenants, cursor, batch, few) ==> t in Rebuilt(tenants, cursor, batch, many)
    decreases few
  {
    hide Selected, NextCursor;
    if few > 0 {
      MoreCycles(tenants, NextCursor(tenants, cursor, batch), batch, few - 1, many - 1);
    }
  }
}
