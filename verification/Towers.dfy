/**
 The shape of a skip list as numbers. `lv` lists the tower heights (`node_level`) in level-0 order,
 with the header at position 0. At level i the successor of position p is the next position whose
 tower reaches i, or |lv| at the end of the list.
 */
module Towers {

  function Next(lv: seq<nat>, p: nat, i: nat): (q: nat)
    requires p < |lv|
    ensures p < q <= |lv|
    ensures q < |lv| ==> i <= lv[q]
    ensures forall r :: p < r < q ==> lv[r] < i
    decreases |lv| - p
  {
    if p + 1 == |lv| || i <= lv[p + 1] then p + 1 else Next(lv, p + 1, i)
  }

  /** The last position before `pos` whose tower reaches level i: where `update[i]` points. */
  function Pred(lv: seq<nat>, pos: nat, i: nat): (p: nat)
    requires 0 < pos <= |lv| && i <= lv[0]
    ensures p < pos && i <= lv[p]
    ensures forall r :: p < r < pos ==> lv[r] < i
  {
    if i <= lv[pos - 1] then pos - 1 else Pred(lv, pos - 1, i)
  }

  /** The tallest tower behind the header, or 0: the value `skip_list_level` has to have. */
  function Top(lv: seq<nat>): (t: nat)
    ensures forall p :: 1 <= p < |lv| ==> lv[p] <= t
    ensures t == 0 || exists p :: 1 <= p < |lv| && lv[p] == t
  {
    if |lv| <= 1 then 0
    else
      var t := Top(lv[..|lv| - 1]);
      var last := lv[|lv| - 1];
      assert forall p :: 1 <= p < |lv| - 1 ==> lv[..|lv| - 1][p] == lv[p];
      if t < last then last else t
  }

  lemma NextUnique(lv: seq<nat>, p: nat, i: nat, q: nat)
    requires p < q <= |lv|
    requires q < |lv| ==> i <= lv[q]
    requires forall r :: p < r < q ==> lv[r] < i
    ensures Next(lv, p, i) == q
  {
    var n := Next(lv, p, i);
    assert !(n < q) && !(q < n);
  }

  lemma PredUnique(lv: seq<nat>, pos: nat, i: nat, p: nat)
    requires 0 < pos <= |lv| && i <= lv[0]
    requires p < pos && i <= lv[p]
    requires forall r :: p < r < pos ==> lv[r] < i
    ensures Pred(lv, pos, i) == p
  {
    var n := Pred(lv, pos, i);
    assert !(n < p) && !(p < n);
  }

  lemma TopUnique(lv: seq<nat>, t: nat)
    requires forall p :: 1 <= p < |lv| ==> lv[p] <= t
    requires t == 0 || exists p :: 1 <= p < |lv| && lv[p] == t
    ensures Top(lv) == t
  {
  }

  /** Above the tallest tower the header is the predecessor of every position. */
  lemma PredAboveTop(lv: seq<nat>, pos: nat, i: nat)
    requires 0 < pos <= |lv| && Top(lv) < i <= lv[0]
    ensures Pred(lv, pos, i) == 0
  {
  }

  /** Only the predecessor's successor lies at or behind `pos`. */
  lemma NextOfPred(lv: seq<nat>, pos: nat, i: nat)
    requires 0 < pos <= |lv| && i <= lv[0]
    ensures pos <= Next(lv, Pred(lv, pos, i), i)
  {
  }

  lemma NextOfOther(lv: seq<nat>, pos: nat, p: nat, i: nat)
    requires 0 < pos <= |lv| && i <= lv[0]
    requires p < pos && i <= lv[p] && p != Pred(lv, pos, i)
    ensures Next(lv, p, i) <= Pred(lv, pos, i)
  {
  }

  /** `lw` is `lv` with one more tower, of height h, spliced in at `pos`. */
  ghost predicate Inserted(lv: seq<nat>, pos: nat, h: nat, lw: seq<nat>) {
    && pos <= |lv| && |lw| == |lv| + 1
    && lw[pos] == h
    && (forall r {:trigger lw[r]} :: 0 <= r < pos ==> lw[r] == lv[r])
    && (forall r {:trigger lw[r]} :: pos < r < |lw| ==> lw[r] == lv[r - 1])
  }

  /** Where position q lands once something is spliced in at `pos`. */
  function Shift(pos: nat, q: nat): nat {
    if q < pos then q else q + 1
  }

  /** Splicing in at `pos` changes exactly the successor of `update[i]`, for the levels of the new tower. */
  lemma NextAfterInsert(lv: seq<nat>, pos: nat, h: nat, lw: seq<nat>, p: nat, i: nat)
    requires 0 < pos && Inserted(lv, pos, h, lw)
    requires p < |lv| && i <= lv[0] && i <= lv[p]
    ensures p == Pred(lv, pos, i) && i <= h ==> Next(lw, p, i) == pos
    ensures !(p == Pred(lv, pos, i) && i <= h) ==> Next(lw, Shift(pos, p), i) == Shift(pos, Next(lv, p, i))
  {
    NextOfPred(lv, pos, i);
    if p == Pred(lv, pos, i) && i <= h {
      NextUnique(lw, p, i, pos);
    } else {
      if p < pos && p != Pred(lv, pos, i) {
        NextOfOther(lv, pos, p, i);
      }
      NextShifted(lv, pos, h, lw, p, i);
    }
  }

  lemma NextShifted(lv: seq<nat>, pos: nat, h: nat, lw: seq<nat>, p: nat, i: nat)
    requires 0 < pos && Inserted(lv, pos, h, lw)
    requires p < |lv| && i <= lv[p]
    requires h < i || Next(lv, p, i) < pos || pos <= p
    ensures Next(lw, Shift(pos, p), i) == Shift(pos, Next(lv, p, i))
  {
    var q := Next(lv, p, i);
    forall r | Shift(pos, p) < r < Shift(pos, q) ensures lw[r] < i {
      if r < pos {
        assert lw[r] == lv[r];
      } else if r > pos {
        assert lw[r] == lv[r - 1];
      }
    }
    NextUnique(lw, Shift(pos, p), i, Shift(pos, q));
  }

  /** The new tower takes over the old successor of its predecessor. */
  lemma NextOfInserted(lv: seq<nat>, pos: nat, h: nat, lw: seq<nat>, i: nat)
    requires 0 < pos && Inserted(lv, pos, h, lw)
    requires i <= lv[0] && i <= h
    ensures Next(lw, pos, i) == Shift(pos, Next(lv, Pred(lv, pos, i), i))
  {
    NextOfPred(lv, pos, i);
    var q := Next(lv, Pred(lv, pos, i), i);
    forall r | pos < r < q + 1 ensures lw[r] < i {
      assert lw[r] == lv[r - 1];
    }
    NextUnique(lw, pos, i, q + 1);
  }

  lemma TopInserted(lv: seq<nat>, pos: nat, h: nat, lw: seq<nat>)
    requires 0 < pos && Inserted(lv, pos, h, lw)
    ensures Top(lw) == if Top(lv) < h then h else Top(lv)
  {
    var t := if Top(lv) < h then h else Top(lv);
    forall p | 1 <= p < |lw| ensures lw[p] <= t {
      assert lw[p] == if p < pos then lv[p] else if p == pos then h else lv[p - 1];
    }
    if Top(lv) < h {
      assert lw[pos] == t;
    } else if t != 0 {
      var p :| 1 <= p < |lv| && lv[p] == t;
      assert lw[Shift(pos, p)] == t;
    }
    TopUnique(lw, t);
  }

  /** The predecessor depends on nothing at or behind `pos`. */
  lemma PredOfInserted(lv: seq<nat>, pos: nat, h: nat, lw: seq<nat>, i: nat)
    requires 0 < pos && Inserted(lv, pos, h, lw) && i <= lv[0]
    ensures i <= lw[0] && Pred(lw, pos, i) == Pred(lv, pos, i)
  {
    assert lw[0] == lv[0];
    var p := Pred(lv, pos, i);
    assert lw[p] == lv[p];
    forall r | p < r < pos ensures lw[r] < i {
      assert lw[r] == lv[r];
    }
    PredUnique(lw, pos, i, p);
  }

  /** At level i the predecessor points at `pos` exactly when the tower there reaches level i. */
  lemma PredPointsAt(lv: seq<nat>, pos: nat, i: nat)
    requires 0 < pos < |lv| && i <= lv[0]
    ensures Next(lv, Pred(lv, pos, i), i) == pos <==> i <= lv[pos]
  {
    NextOfPred(lv, pos, i);
    if i <= lv[pos] {
      NextUnique(lv, Pred(lv, pos, i), i, pos);
    }
  }

  /** The header's pointer at level i is null exactly above the tallest tower. */
  lemma HeaderAtTop(lv: seq<nat>, i: nat)
    requires 0 < |lv| && 0 < i
    ensures Next(lv, 0, i) < |lv| <==> i <= Top(lv)
  {
    if i <= Top(lv) {
      var p :| 1 <= p < |lv| && lv[p] == Top(lv);
    }
  }

  /** With every tower at least 1 high, levels 0 and 1 have the same successors. */
  lemma LevelsZeroAndOneAgree(lv: seq<nat>, p: nat)
    requires p < |lv|
    requires forall r :: 0 <= r < |lv| ==> 1 <= lv[r]
    ensures Next(lv, p, 0) == Next(lv, p, 1) == p + 1
  {
  }
}
