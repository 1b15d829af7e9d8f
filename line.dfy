/** `update_line`'s decision procedure for one line, as a fold over the line's
    cells in scan order (leading edge first).  The fold keeps the same
    compaction stack of `(piece, merged)` entries as the source and records,
    for every cell, the instruction the cell's tile receives, as an offset
    from the leading edge.  `MergePairs` is an independent, front-to-back
    reference definition of the same merge rule. */
module Line {
  import opened Grid

  /** One entry of the compaction stack: the tile that holds a slot, and
      whether that slot has already absorbed a tile during this move. */
  datatype Slot = Slot(piece: Piece, merged: bool)

  /** The instruction for one occupied cell, relative to the leading edge:
      `Slide(j)` is `MoveType::Move` to slot `j`, `Absorb(j, s)` is
      `MoveType::MoveDouble` into slot `j`, whose survivor is the tile `s`. */
  datatype LineMove = Slide(slot: nat) | Absorb(slot: nat, survivor: Entity)

  /** The state of the scan: the stack, one output per cell scanned so far,
      and the score gained on this line. */
  datatype LineScan = LineScan(stack: seq<Slot>, out: seq<Option<LineMove>>, gain: int)

  /** One iteration of `update_line`'s loop. */
  function Step(s: LineScan, cell: Option<Piece>): LineScan
  {
    match cell
    case None => s.(out := s.out + [None])
    case Some(p) =>
      var n := |s.stack|;
      if n > 0 && s.stack[n - 1].piece.value == p.value && !s.stack[n - 1].merged then
        var top := s.stack[n - 1];
        var doubled := top.piece.(value := top.piece.value * 2);
        LineScan(s.stack[..n - 1] + [Slot(doubled, true)],
                 s.out + [Some(Absorb(n - 1, top.piece.entity))],
                 s.gain + doubled.value)
      else
        LineScan(s.stack + [Slot(p, false)], s.out + [Some(Slide(n))], s.gain)
  }

  /** The whole scan of a line, starting from an empty stack. */
  function Scan(cells: seq<Option<Piece>>): (r: LineScan)
    ensures |r.out| == |cells| && |r.stack| <= |cells|
  {
    if cells == [] then LineScan([], [], 0)
    else Step(Scan(cells[..|cells| - 1]), cells[|cells| - 1])
  }

  // ---------------------------------------------------------------------
  // Sequences of values

  /** The values of the occupied cells, in scan order. */
  function Compact(cells: seq<Option<Piece>>): (vs: seq<int>)
    ensures |vs| <= |cells|
  {
    if cells == [] then []
    else
      var rest := Compact(cells[..|cells| - 1]);
      match cells[|cells| - 1]
      case None => rest
      case Some(p) => rest + [p.value]
  }

  /** The values held by the stack's slots, from the leading edge on. */
  function Values(stack: seq<Slot>): (vs: seq<int>)
    ensures |vs| == |stack|
  {
    if stack == [] then []
    else Values(stack[..|stack| - 1]) + [stack[|stack| - 1].piece.value]
  }

  function Sum(vs: seq<int>): int
  {
    if vs == [] then 0 else Sum(vs[..|vs| - 1]) + vs[|vs| - 1]
  }

  /** The sum of the values of the slots that absorbed a tile. */
  function MergedSum(stack: seq<Slot>): int
  {
    if stack == [] then 0
    else
      var last := stack[|stack| - 1];
      MergedSum(stack[..|stack| - 1]) + (if last.merged then last.piece.value else 0)
  }

  function Occupied(cells: seq<Option<Piece>>): nat
  {
    if cells == [] then 0
    else Occupied(cells[..|cells| - 1]) + (if cells[|cells| - 1].Some? then 1 else 0)
  }

  function Absorbs(out: seq<Option<LineMove>>): nat
  {
    if out == [] then 0
    else
      var o := out[|out| - 1];
      Absorbs(out[..|out| - 1]) + (if o.Some? && o.value.Absorb? then 1 else 0)
  }

  // ---------------------------------------------------------------------
  // The reference merge rule, read from the leading edge

  /** Equal neighbours merge pairwise from the leading edge; a merged value
      takes no further part, so three equal values give one merge and one
      single value. */
  function MergePairs(vs: seq<int>): (r: seq<int>)
    ensures |r| <= |vs|
    ensures |vs| > 0 ==> |r| > 0
  {
    if |vs| >= 2 && vs[0] == vs[1] then [2 * vs[0]] + MergePairs(vs[2..])
    else if vs == [] then []
    else [vs[0]] + MergePairs(vs[1..])
  }

  /** The points MergePairs earns: the sum of the values it creates. */
  function MergeGain(vs: seq<int>): int
  {
    if |vs| >= 2 && vs[0] == vs[1] then 2 * vs[0] + MergeGain(vs[2..])
    else if vs == [] then 0
    else MergeGain(vs[1..])
  }

  /** Whether MergePairs leaves the last value of `vs` unpaired, so that a
      following equal value would still merge with it. */
  predicate Open(vs: seq<int>)
  {
    if |vs| >= 2 && vs[0] == vs[1] then Open(vs[2..])
    else if vs == [] then false
    else |vs| == 1 || Open(vs[1..])
  }

  /** Appending one value to the input of MergePairs changes only the tail of
      its result: the value merges with the last result value exactly when
      that one is open and equal to it. */
  lemma {:induction false} MergePairsSnoc(vs: seq<int>, x: int)
    ensures var r := MergePairs(vs);
            var joins := Open(vs) && |r| > 0 && r[|r| - 1] == x;
            && MergePairs(vs + [x]) == (if joins then r[..|r| - 1] + [2 * x] else r + [x])
            && Open(vs + [x]) == !joins
            && MergeGain(vs + [x]) == MergeGain(vs) + (if joins then 2 * x else 0)
  {
    var w := vs + [x];
    if vs == [] {
      assert w == [x] && w[1..] == [];
    } else if |vs| == 1 {
      assert w == [vs[0], x] && w[2..] == [] && w[1..] == [x] && w[1..][1..] == [];
      assert MergePairs(vs) == [vs[0]] by { assert vs[1..] == []; }
      assert Open(vs);
    } else if vs[0] == vs[1] {
      MergePairsSnoc(vs[2..], x);
      SnocBehindHead(vs, 2, x);
    } else {
      MergePairsSnoc(vs[1..], x);
      SnocBehindHead(vs, 1, x);
    }
  }

  /** What appending `x` does to MergePairs of `vs`. */
  ghost predicate SnocRule(vs: seq<int>, x: int)
  {
    var r := MergePairs(vs);
    var joins := Open(vs) && |r| > 0 && r[|r| - 1] == x;
    && MergePairs(vs + [x]) == (if joins then r[..|r| - 1] + [2 * x] else r + [x])
    && Open(vs + [x]) == !joins
    && MergeGain(vs + [x]) == MergeGain(vs) + (if joins then 2 * x else 0)
  }

  /** The rule for `vs` follows from the rule for the rest after the head
      of `vs`: a merged pair (`h == 2`) or a single value (`h == 1`). */
  lemma SnocBehindHead(vs: seq<int>, h: nat, x: int)
    requires |vs| >= 2 && (h == 2 <==> vs[0] == vs[1]) && (h == 1 || h == 2)
    requires SnocRule(vs[h..], x)
    ensures SnocRule(vs, x)
  {
    var w := vs + [x];
    var head := if h == 2 then 2 * vs[0] else vs[0];
    var r' := MergePairs(vs[h..]);
    assert w[h..] == vs[h..] + [x];
    assert MergePairs(vs) == [head] + r';
    assert MergePairs(w) == [head] + MergePairs(vs[h..] + [x]);
    assert MergeGain(w) == (if h == 2 then head else 0) + MergeGain(vs[h..] + [x]);
    assert MergeGain(vs) == (if h == 2 then head else 0) + MergeGain(vs[h..]);
    assert Open(w) == Open(vs[h..] + [x]);
    assert Open(vs) == Open(vs[h..]);
    SnocUnderHead(head, r', x);
  }

  lemma SnocUnderHead(h: int, r: seq<int>, x: int)
    ensures r != [] ==> ([h] + r)[..|r|] + [2 * x] == [h] + (r[..|r| - 1] + [2 * x])
    ensures ([h] + r) + [x] == [h] + (r + [x])
  {
  }

  // ---------------------------------------------------------------------
  // The scan agrees with the reference

  /** The stack after scanning a line holds exactly MergePairs of the line's
      values, its top is still open to a merge exactly when MergePairs leaves
      the last value unpaired, and the score gained is MergeGain: the sum of
      the newly doubled values. */
  lemma {:induction false} ScanMatchesMergePairs(cells: seq<Option<Piece>>)
    ensures var s := Scan(cells);
            var vs := Compact(cells);
            && Values(s.stack) == MergePairs(vs)
            && (|s.stack| > 0 && !s.stack[|s.stack| - 1].merged) == Open(vs)
            && s.gain == MergeGain(vs)
  {
    if cells != [] {
      var init, c := cells[..|cells| - 1], cells[|cells| - 1];
      ScanMatchesMergePairs(init);
      assert Scan(cells) == Step(Scan(init), c);
      if c.Some? {
        assert Compact(cells) == Compact(init) + [c.value.value];
        StepAgrees(Scan(init), Compact(init), c.value);
      }
    }
  }

  /** The scan state `s` agrees with MergePairs on the values `vs`. */
  ghost predicate Agrees(s: LineScan, vs: seq<int>)
  {
    && Values(s.stack) == MergePairs(vs)
    && (|s.stack| > 0 && !s.stack[|s.stack| - 1].merged) == Open(vs)
    && s.gain == MergeGain(vs)
  }

  /** One more tile keeps the scan state in agreement with MergePairs. */
  lemma StepAgrees(s: LineScan, vs: seq<int>, p: Piece)
    requires Agrees(s, vs)
    ensures Agrees(Step(s, Some(p)), vs + [p.value])
  {
    var n := |s.stack|;
    if n > 0 && s.stack[n - 1].piece.value == p.value && !s.stack[n - 1].merged {
      MergeAgrees(s, vs, p);
    } else {
      PushAgrees(s, vs, p);
    }
  }

  /** The tile merges into the open top slot of equal value. */
  lemma MergeAgrees(s: LineScan, vs: seq<int>, p: Piece)
    requires Agrees(s, vs)
    requires |s.stack| > 0 && s.stack[|s.stack| - 1].piece.value == p.value && !s.stack[|s.stack| - 1].merged
    ensures Agrees(Step(s, Some(p)), vs + [p.value])
  {
    var n := |s.stack|;
    var top := s.stack[n - 1];
    var below := s.stack[..n - 1];
    var slot := Slot(top.piece.(value := top.piece.value * 2), true);
    ValuesSnoc(below, top);
    assert below + [top] == s.stack;
    var r := MergePairs(vs);
    assert r == Values(below) + [p.value];
    assert r[..|r| - 1] == Values(below);
    MergePairsSnoc(vs, p.value);
    assert Step(s, Some(p)).stack == below + [slot];
    ValuesSnoc(below, slot);
  }

  /** The tile opens a new slot on top of the stack. */
  lemma PushAgrees(s: LineScan, vs: seq<int>, p: Piece)
    requires Agrees(s, vs)
    requires !(|s.stack| > 0 && s.stack[|s.stack| - 1].piece.value == p.value && !s.stack[|s.stack| - 1].merged)
    ensures Agrees(Step(s, Some(p)), vs + [p.value])
  {
    var n := |s.stack|;
    if n > 0 {
      ValuesSnoc(s.stack[..n - 1], s.stack[n - 1]);
      assert s.stack[..n - 1] + [s.stack[n - 1]] == s.stack;
    }
    MergePairsSnoc(vs, p.value);
    assert Step(s, Some(p)).stack == s.stack + [Slot(p, false)];
    ValuesSnoc(s.stack, Slot(p, false));
  }

  lemma ValuesSnoc(stack: seq<Slot>, slot: Slot)
    ensures Values(stack + [slot]) == Values(stack) + [slot.piece.value]
  {
    assert (stack + [slot])[..|stack|] == stack;
  }

  // ---------------------------------------------------------------------
  // What the scan records about every cell

  /** Facts about a scan state `s` of the cells `cells`, kept by every step:
      every occupied cell, and no empty one, has an instruction; targets lie
      at or before the cell's own offset and inside the stack; a `Slide(j)`
      puts its tile in slot `j` (whose value is the tile's, doubled once if
      the slot has absorbed); an `Absorb(j, t)` names the tile `t` that holds
      slot `j`, which is then marked merged and holds twice the absorbed value;
      slides and absorbs each take strictly increasing slots in scan order;
      and every slot was opened by a slide. */
  ghost predicate Tracks(cells: seq<Option<Piece>>, s: LineScan)
  {
    && |s.out| == |cells| && |s.stack| <= |cells|
    && Covers(cells, s) && SlidesHold(cells, s) && AbsorbsHold(cells, s)
    && Increasing(s) && Opened(s)
  }

  ghost predicate Covers(cells: seq<Option<Piece>>, s: LineScan)
    requires |s.out| == |cells|
  {
    forall k | 0 <= k < |cells| ::
      && s.out[k].Some? == cells[k].Some?
      && (s.out[k].Some? ==> s.out[k].value.slot <= k && s.out[k].value.slot < |s.stack|)
  }

  ghost predicate SlidesHold(cells: seq<Option<Piece>>, s: LineScan)
    requires |s.out| == |cells| && Covers(cells, s)
  {
    forall k | 0 <= k < |cells| && s.out[k].Some? && s.out[k].value.Slide? ::
      var slot := s.stack[s.out[k].value.slot];
      && slot.piece.entity == cells[k].value.entity
      && slot.piece.value == (if slot.merged then 2 * cells[k].value.value else cells[k].value.value)
  }

  ghost predicate AbsorbsHold(cells: seq<Option<Piece>>, s: LineScan)
    requires |s.out| == |cells| && Covers(cells, s)
  {
    forall k | 0 <= k < |cells| && s.out[k].Some? && s.out[k].value.Absorb? ::
      var slot := s.stack[s.out[k].value.slot];
      && slot.merged
      && s.out[k].value.survivor == slot.piece.entity
      && slot.piece.value == 2 * cells[k].value.value
  }

  ghost predicate Increasing(s: LineScan)
  {
    forall k1, k2 | 0 <= k1 < k2 < |s.out| && s.out[k1].Some? && s.out[k2].Some? &&
      s.out[k1].value.Slide? == s.out[k2].value.Slide? ::
      s.out[k1].value.slot < s.out[k2].value.slot
  }

  ghost predicate Opened(s: LineScan)
  {
    forall j | 0 <= j < |s.stack| :: SlidInto(s.out, j)
  }

  /** Some cell's instruction is `Slide(j)`. */
  ghost predicate SlidInto(out: seq<Option<LineMove>>, j: nat)
  {
    exists k :: 0 <= k < |out| && out[k] == Some(Slide(j))
  }

  lemma StepTracks(cells: seq<Option<Piece>>, s: LineScan, c: Option<Piece>)
    requires Tracks(cells, s)
    ensures Tracks(cells + [c], Step(s, c))
  {
    var n := |s.stack|;
    if c.None? {
      StepEmpty(cells, s);
    } else if n > 0 && s.stack[n - 1].piece.value == c.value.value && !s.stack[n - 1].merged {
      StepMerge(cells, s, c.value);
    } else {
      StepPush(cells, s, c.value);
    }
  }

  lemma StepEmpty(cells: seq<Option<Piece>>, s: LineScan)
    requires Tracks(cells, s)
    ensures Tracks(cells + [None], Step(s, None))
  {
    var cells', s' := cells + [None], Step(s, None);
    var m := |cells|;
    assert forall k | 0 <= k < m :: cells'[k] == cells[k] && s'.out[k] == s.out[k];
    assert s'.stack == s.stack;
    assert Covers(cells', s');
    forall j | 0 <= j < |s'.stack|
      ensures SlidInto(s'.out, j)
    {
      assert SlidInto(s.out, j);
        var k :| 0 <= k < m && s.out[k] == Some(Slide(j));
      assert s'.out[k] == Some(Slide(j));
    }
    assert Opened(s');
  }

  lemma StepPush(cells: seq<Option<Piece>>, s: LineScan, p: Piece)
    requires Tracks(cells, s)
    requires !(|s.stack| > 0 && s.stack[|s.stack| - 1].piece.value == p.value && !s.stack[|s.stack| - 1].merged)
    ensures Tracks(cells + [Some(p)], Step(s, Some(p)))
  {
    var cells', s' := cells + [Some(p)], Step(s, Some(p));
    var n, m := |s.stack|, |cells|;
    assert forall k | 0 <= k < m :: cells'[k] == cells[k] && s'.out[k] == s.out[k];
    assert s'.out[m] == Some(Slide(n));
    assert s'.stack == s.stack + [Slot(p, false)];
    assert Covers(cells', s');
    assert SlidesHold(cells', s');
    assert AbsorbsHold(cells', s');
    assert Increasing(s');
    assert Opened(s') by {
      forall j | 0 <= j < n + 1
        ensures SlidInto(s'.out, j)
      {
        if j < n {
          assert SlidInto(s.out, j);
        var k :| 0 <= k < m && s.out[k] == Some(Slide(j));
          assert s'.out[k] == Some(Slide(j));
        } else {
          assert s'.out[m] == Some(Slide(j));
        }
      }
    }
  }

  lemma StepMerge(cells: seq<Option<Piece>>, s: LineScan, p: Piece)
    requires Tracks(cells, s)
    requires |s.stack| > 0 && s.stack[|s.stack| - 1].piece.value == p.value && !s.stack[|s.stack| - 1].merged
    ensures Tracks(cells + [Some(p)], Step(s, Some(p)))
  {
    var cells', s' := cells + [Some(p)], Step(s, Some(p));
    var n, m := |s.stack|, |cells|;
    var top := s.stack[n - 1];
    assert forall k | 0 <= k < m :: cells'[k] == cells[k] && s'.out[k] == s.out[k];
    assert s'.out[m] == Some(Absorb(n - 1, top.piece.entity));
    assert s'.stack == s.stack[..n - 1] + [Slot(top.piece.(value := top.piece.value * 2), true)];
    assert forall j | 0 <= j < n - 1 :: s'.stack[j] == s.stack[j];
    forall k | 0 <= k < m && s.out[k].Some? && s.out[k].value.Absorb?
      ensures s.out[k].value.slot < n - 1
    {
    }
    assert Covers(cells', s');
    assert SlidesHold(cells', s');
    assert AbsorbsHold(cells', s');
    assert Increasing(s');
    assert Opened(s') by {
      forall j | 0 <= j < n
        ensures SlidInto(s'.out, j)
      {
        assert SlidInto(s.out, j);
        var k :| 0 <= k < m && s.out[k] == Some(Slide(j));
        assert s'.out[k] == Some(Slide(j));
      }
    }
  }

  lemma {:induction false} ScanTracks(cells: seq<Option<Piece>>)
    ensures Tracks(cells, Scan(cells))
  {
    if cells != [] {
      var init := cells[..|cells| - 1];
      ScanTracks(init);
      StepTracks(init, Scan(init), cells[|cells| - 1]);
      assert init + [cells[|cells| - 1]] == cells;
    }
  }

  // ---------------------------------------------------------------------
  // Consequences, one property each

  /** Every occupied cell receives exactly one instruction and every empty
      cell none; the target slot is never further from the leading edge than
      the cell itself, so no tile moves backwards. */
  lemma ScanCoverage(cells: seq<Option<Piece>>, k: int)
    requires 0 <= k < |cells|
    ensures var o := Scan(cells).out[k];
            && (o.Some? <==> cells[k].Some?)
            && (o.Some? ==> o.value.slot <= k && o.value.slot < |Scan(cells).stack|)
  {
    ScanTracks(cells);
  }

  /** A tile absorbed into slot `j` names as survivor the tile that holds
      slot `j`; that slot is marked merged and holds twice the absorbed
      tile's value, and no other tile is absorbed into the same slot. */
  lemma ScanAbsorb(cells: seq<Option<Piece>>, k: int)
    requires 0 <= k < |cells|
    requires Scan(cells).out[k].Some? && Scan(cells).out[k].value.Absorb?
    ensures cells[k].Some? && Scan(cells).out[k].value.slot < |Scan(cells).stack|
    ensures var s := Scan(cells);
            var j := s.out[k].value.slot;
            && s.stack[j].merged
            && s.out[k].value.survivor == s.stack[j].piece.entity
            && s.stack[j].piece.value == 2 * cells[k].value.value
            && (forall k' | 0 <= k' < |cells| && k' != k && s.out[k'].Some? && s.out[k'].value.Absorb? ::
                  s.out[k'].value.slot != j)
  {
    ScanTracks(cells);
    var s := Scan(cells);
    forall k' | 0 <= k' < |cells| && k' != k && s.out[k'].Some? && s.out[k'].value.Absorb?
      ensures s.out[k'].value.slot != s.out[k].value.slot
    {
      if k' < k {
        assert s.out[k'].value.slot < s.out[k].value.slot;
      } else {
        assert s.out[k].value.slot < s.out[k'].value.slot;
      }
    }
  }

  /** The survivors are exactly the tiles that slid, in scan order: the
      `Slide` targets are strictly increasing along the scan, every slot of
      the final stack is the target of one of them, and the tile in each slot
      is the one that slid there, holding its value doubled once if the slot
      absorbed a tile. */
  lemma ScanSlides(cells: seq<Option<Piece>>)
    ensures var s := Scan(cells);
            forall k | 0 <= k < |cells| :: s.out[k].Some? == cells[k].Some? &&
              (s.out[k].Some? ==> s.out[k].value.slot < |s.stack|)
    ensures var s := Scan(cells);
            && (forall k1, k2 | 0 <= k1 < k2 < |cells| && s.out[k1].Some? && s.out[k1].value.Slide? &&
                  s.out[k2].Some? && s.out[k2].value.Slide? :: s.out[k1].value.slot < s.out[k2].value.slot)
            && (forall j | 0 <= j < |s.stack| :: SlidInto(s.out, j))
            && (forall k | 0 <= k < |cells| && s.out[k].Some? && s.out[k].value.Slide? ::
                  var slot := s.stack[s.out[k].value.slot];
                  && slot.piece.entity == cells[k].value.entity
                  && slot.piece.value == (if slot.merged then 2 * cells[k].value.value else cells[k].value.value))
  {
    ScanTracks(cells);
  }

  /** Compaction: the line keeps one slot per occupied cell minus one per
      merge, packed at offsets `0 .. |stack| - 1`. */
  lemma {:induction false} ScanCount(cells: seq<Option<Piece>>)
    ensures |Scan(cells).stack| + Absorbs(Scan(cells).out) == Occupied(cells)
  {
    if cells != [] {
      var init := cells[..|cells| - 1];
      ScanCount(init);
      var s := Scan(init);
      var o := Scan(cells).out;
      assert o[..|init|] == s.out;
    }
  }

  /** The score gained on a line is the sum of the values of the slots that
      absorbed a tile, that is, of the newly doubled values. */
  lemma {:induction false} ScanGain(cells: seq<Option<Piece>>)
    ensures Scan(cells).gain == MergedSum(Scan(cells).stack)
  {
    if cells != [] {
      var init, c := cells[..|cells| - 1], cells[|cells| - 1];
      ScanGain(init);
      assert Scan(cells) == Step(Scan(init), c);
      if c.Some? {
        var s := Scan(init);
        var n := |s.stack|;
        if n > 0 && s.stack[n - 1].piece.value == c.value.value && !s.stack[n - 1].merged {
          MergeGains(s, c.value);
        } else {
          PushGains(s, c.value);
        }
      }
    }
  }

  /** A merge adds the doubled value both to the gain and to the merged slots' sum. */
  lemma MergeGains(s: LineScan, p: Piece)
    requires s.gain == MergedSum(s.stack)
    requires |s.stack| > 0 && s.stack[|s.stack| - 1].piece.value == p.value && !s.stack[|s.stack| - 1].merged
    ensures Step(s, Some(p)).gain == MergedSum(Step(s, Some(p)).stack)
  {
    var n := |s.stack|;
    var below := s.stack[..n - 1];
    var st := Step(s, Some(p)).stack;
    assert st[..n - 1] == below;
    assert s.stack[..n - 1] == below;
    assert MergedSum(s.stack) == MergedSum(below);
  }

  /** A pushed tile opens an unmerged slot, which leaves both sums as they are. */
  lemma PushGains(s: LineScan, p: Piece)
    requires s.gain == MergedSum(s.stack)
    requires !(|s.stack| > 0 && s.stack[|s.stack| - 1].piece.value == p.value && !s.stack[|s.stack| - 1].merged)
    ensures Step(s, Some(p)).gain == MergedSum(Step(s, Some(p)).stack)
  {
    var st := Step(s, Some(p)).stack;
    assert st[..|s.stack|] == s.stack;
  }

  /** The line's total tile value is conserved by the scan. */
  lemma {:induction false} ScanConserves(cells: seq<Option<Piece>>)
    ensures Sum(Values(Scan(cells).stack)) == Sum(Compact(cells))
  {
    if cells != [] {
      var init, c := cells[..|cells| - 1], cells[|cells| - 1];
      ScanConserves(init);
      StepConserves(Scan(init), c);
      if c.Some? {
        assert Compact(cells) == Compact(init) + [c.value.value];
        SumSnoc(Compact(init), c.value.value);
      }
    }
  }

  lemma StepConserves(s: LineScan, c: Option<Piece>)
    ensures Sum(Values(Step(s, c).stack)) == Sum(Values(s.stack)) + (if c.Some? then c.value.value else 0)
  {
    var s' := Step(s, c);
    var n := |s.stack|;
    if c.Some? {
      var p := c.value;
      if n > 0 && s.stack[n - 1].piece.value == p.value && !s.stack[n - 1].merged {
        var top := s.stack[n - 1];
        var slot := Slot(top.piece.(value := top.piece.value * 2), true);
        assert s'.stack == s.stack[..n - 1] + [slot];
        assert s.stack[..n - 1] + [top] == s.stack;
        ValuesSnoc(s.stack[..n - 1], slot);
        ValuesSnoc(s.stack[..n - 1], top);
        SumSnoc(Values(s.stack[..n - 1]), slot.piece.value);
        SumSnoc(Values(s.stack[..n - 1]), top.piece.value);
      } else {
        assert s'.stack == s.stack + [Slot(p, false)];
        ValuesSnoc(s.stack, Slot(p, false));
        SumSnoc(Values(s.stack), p.value);
      }
    }
  }

  lemma SumSnoc(vs: seq<int>, x: int)
    ensures Sum(vs + [x]) == Sum(vs) + x
  {
    assert (vs + [x])[..|vs|] == vs;
  }

  // ---------------------------------------------------------------------
  // Worked examples of the merge rule

  /** No chain merges: `[2, 2, 2]` leaves `[4, 2]`, the second tile being
      absorbed by the first and the third sliding to offset 1; `[2, 2, 4]`
      leaves `[4, 4]`, the fresh 4 not merging with the 4 just made. */
  lemma MergeRuleExamples(a: Piece, b: Piece, c: Piece)
    requires a.value == 2 && b.value == 2
    ensures c.value == 2 ==>
              var s := Scan([Some(a), Some(b), Some(c)]);
              && Values(s.stack) == [4, 2]
              && s.out == [Some(Slide(0)), Some(Absorb(0, a.entity)), Some(Slide(1))]
              && s.gain == 4
    ensures c.value == 4 ==>
              var s := Scan([Some(a), Some(b), Some(c)]);
              && Values(s.stack) == [4, 4]
              && s.out == [Some(Slide(0)), Some(Absorb(0, a.entity)), Some(Slide(1))]
              && s.gain == 4
  {
    var cells := [Some(a), Some(b), Some(c)];
    assert cells[..2] == [Some(a), Some(b)];
    assert cells[..2][..1] == [Some(a)];
    var s1 := Scan([Some(a)]);
    assert s1 == LineScan([Slot(a, false)], [Some(Slide(0))], 0) by {
      assert [Some(a)][..0] == [];
      assert Scan([]) == LineScan([], [], 0);
      assert s1 == Step(LineScan([], [], 0), Some(a));
      assert [] + [Slot(a, false)] == [Slot(a, false)];
      assert [] + [Some(Slide(0))] == [Some(Slide(0))];
    }
    var s2 := Scan([Some(a), Some(b)]);
    var top := Slot(a.(value := 4), true);
    assert s2 == LineScan([top], [Some(Slide(0)), Some(Absorb(0, a.entity))], 4);
    var s := Scan(cells);
    assert s == LineScan([top, Slot(c, false)], s2.out + [Some(Slide(1))], 4);
    assert Values(s.stack) == [4, c.value] by {
      assert s.stack[..1] == [top];
      assert Values([top]) == [4] by { assert [top][..0] == []; }
    }
  }
}
