/** rectangle.c: the rectangles of cells to be shown at the next update of the UI. */
module Rectangles {

  datatype Rect = Rect(x: int, y: int, w: int, h: int)

  predicate In(r: Rect, x: int, y: int) { r.x <= x < r.x + r.w && r.y <= y < r.y + r.h }

  ghost predicate Covers(rs: seq<Rect>, x: int, y: int) {
    exists i :: 0 <= i < |rs| && In(rs[i], x, y)
  }

  predicate Apart(r: Rect, s: Rect) {
    r.x + r.w <= s.x || s.x + s.w <= r.x || r.y + r.h <= s.y || s.y + s.h <= r.y
  }

  ghost predicate Disjoint(rs: seq<Rect>) {
    && (forall i :: 0 <= i < |rs| ==> rs[i].w > 0 && rs[i].h > 0)
    && (forall i, j :: 0 <= i < j < |rs| ==> Apart(rs[i], rs[j]))
  }

  // Rectangles that are apart share no cell, and rectangles that share no cell are apart
  lemma ApartSharesNoCell(r: Rect, s: Rect)
    requires r.w > 0 && r.h > 0 && s.w > 0 && s.h > 0
    ensures Apart(r, s) <==> forall x, y :: !(In(r, x, y) && In(s, x, y))
  {
    if !Apart(r, s) {
      var x := if r.x > s.x then r.x else s.x;
      var y := if r.y > s.y then r.y else s.y;
      assert In(r, x, y) && In(s, x, y);
    }
  }

  lemma CoversAppend(rs: seq<Rect>, ss: seq<Rect>, x: int, y: int)
    ensures Covers(rs + ss, x, y) <==> Covers(rs, x, y) || Covers(ss, x, y)
  {
    if Covers(rs, x, y) {
      var i :| 0 <= i < |rs| && In(rs[i], x, y);
      assert In((rs + ss)[i], x, y);
    }
    if Covers(ss, x, y) {
      var i :| 0 <= i < |ss| && In(ss[i], x, y);
      assert In((rs + ss)[|rs| + i], x, y);
    }
  }

  lemma CoversUpdate(rs: seq<Rect>, k: nat, r: Rect, x: int, y: int)
    requires k < |rs|
    ensures Covers(rs[k := r], x, y) <==> In(r, x, y) || exists i :: 0 <= i < |rs| && i != k && In(rs[i], x, y)
  {
    if In(r, x, y) { assert In(rs[k := r][k], x, y); }
    if i :| 0 <= i < |rs| && i != k && In(rs[i], x, y) { assert In(rs[k := r][i], x, y); }
    if Covers(rs[k := r], x, y) {
      var i :| 0 <= i < |rs| && In(rs[k := r][i], x, y);
      assert i == k || In(rs[i], x, y);
    }
  }

  // Those rectangles that did not grow on line y, and those that did
  function Retired(rs: seq<Rect>, y: int): (r: seq<Rect>)
    ensures forall i :: 0 <= i < |r| ==> r[i] in rs && r[i].y + r[i].h != y + 1
  {
    if rs == [] then []
    else if rs[|rs| - 1].y + rs[|rs| - 1].h == y + 1 then Retired(rs[..|rs| - 1], y)
    else Retired(rs[..|rs| - 1], y) + [rs[|rs| - 1]]
  }

  function Kept(rs: seq<Rect>, y: int): (r: seq<Rect>)
    ensures |r| <= |rs|
    ensures forall i :: 0 <= i < |r| ==> r[i] in rs && r[i].y + r[i].h == y + 1
  {
    if rs == [] then []
    else if rs[|rs| - 1].y + rs[|rs| - 1].h == y + 1 then Kept(rs[..|rs| - 1], y) + [rs[|rs| - 1]]
    else Kept(rs[..|rs| - 1], y)
  }

  // Every rectangle is either kept or retired
  lemma {:induction false} KeptAndRetired(rs: seq<Rect>, y: int)
    ensures multiset(Kept(rs, y)) + multiset(Retired(rs, y)) == multiset(rs)
    ensures forall i, j :: Covers(rs, i, j) <==> Covers(Kept(rs, y), i, j) || Covers(Retired(rs, y), i, j)
  {
    if rs != [] {
      var front, last := rs[..|rs| - 1], rs[|rs| - 1];
      assert rs == front + [last];
      KeptAndRetired(front, y);
      forall i, j ensures Covers(rs, i, j) <==> Covers(Kept(rs, y), i, j) || Covers(Retired(rs, y), i, j) {
        CoversAppend(front, [last], i, j);
        CoversAppend(Kept(front, y), [last], i, j);
        CoversAppend(Retired(front, y), [last], i, j);
      }
    }
  }

  function Max(a: int, b: int): int { if a > b then a else b }
  function Min(a: int, b: int): int { if a < b then a else b }

  // Do the stretches of length n from a and length m from b overlap or touch?
  predicate Touch(a: int, n: int, b: int, m: int) {
    (a <= b && b < a + n + 1) || (b < a && a < b + m + 1)
  }

  lemma RetireCovers(before: seq<Rect>, after: seq<Rect>, merged: bool, base: seq<Rect>, gone: seq<Rect>, r: Rect)
    requires if merged then forall i, j :: Covers(after, i, j) <==> Covers(before, i, j) || In(r, i, j)
             else after == before + [r]
    requires forall i, j :: Covers(before, i, j) <==> Covers(base, i, j) || Covers(gone, i, j)
    ensures forall i, j :: Covers(after, i, j) <==> Covers(base, i, j) || Covers(gone + [r], i, j)
  {
    forall i, j ensures Covers(after, i, j) <==> Covers(base, i, j) || Covers(gone + [r], i, j) {
      CoversAppend(gone, [r], i, j);
      CoversAppend(before, [r], i, j);
      assert Covers([r], i, j) <==> In(r, i, j) by { if In(r, i, j) { assert In([r][0], i, j); } }
    }
  }

  // Two rectangles of the same span that overlap or touch make one rectangle
  lemma MergeCovers(rs: seq<Rect>, z: nat, source: Rect, m: Rect)
    requires z < |rs|
    requires var r := rs[z];
             || (r.x == source.x == m.x && r.w == source.w == m.w && Touch(r.y, r.h, source.y, source.h)
                 && m.y == Min(r.y, source.y) && m.y + m.h == Max(r.y + r.h, source.y + source.h))
             || (r.y == source.y == m.y && r.h == source.h == m.h && Touch(r.x, r.w, source.x, source.w)
                 && m.x == Min(r.x, source.x) && m.x + m.w == Max(r.x + r.w, source.x + source.w))
    ensures forall i, j :: Covers(rs[z := m], i, j) <==> Covers(rs, i, j) || In(source, i, j)
  {
    forall i, j ensures Covers(rs[z := m], i, j) <==> Covers(rs, i, j) || In(source, i, j) {
      CoversUpdate(rs, z, m, i, j);
      assert In(m, i, j) <==> In(rs[z], i, j) || In(source, i, j);
    }
  }

  // An active rectangle grown by the line y below it
  lemma GrowCovers(rs: seq<Rect>, others: seq<Rect>, k: nat, x: int, y: int, w: int)
    requires k < |rs| && w > 0 && rs[k].x == x && rs[k].w == w && rs[k].y + rs[k].h == y && rs[k].h > 0
    requires forall i :: x <= i < x + w ==> !Covers(rs, i, y)
    ensures var after := rs[k := rs[k].(h := rs[k].h + 1)];
            && (forall i, j :: Covers(after, i, j) <==> Covers(rs, i, j) || (j == y && x <= i < x + w))
            && (Disjoint(others + rs) && (forall i :: x <= i < x + w ==> !Covers(others, i, y))
                ==> Disjoint(others + after))
  {
    var m := rs[k].(h := rs[k].h + 1);
    forall i, j ensures Covers(rs[k := m], i, j) <==> Covers(rs, i, j) || (j == y && x <= i < x + w) {
      CoversUpdate(rs, k, m, i, j);
      assert In(m, i, j) <==> In(rs[k], i, j) || (j == y && x <= i < x + w);
    }
    if Disjoint(others + rs) && forall i :: x <= i < x + w ==> !Covers(others, i, y) {
      var all, after := others + rs, others + rs[k := m];
      forall i | 0 <= i < |after| ensures after[i].w > 0 && after[i].h > 0 { assert all[i].w > 0 && all[i].h > 0; }
      forall i, j | 0 <= i < j < |after| ensures Apart(after[i], after[j]) {
        NotOnLine(others, rs, i, x, y, w);
        NotOnLine(others, rs, j, x, y, w);
        assert Apart(all[i], all[j]);
        assert i != |others| + k ==> after[i] == all[i];
        assert j != |others| + k ==> after[j] == all[j];
      }
    }
  }

  lemma NewCovers(rs: seq<Rect>, others: seq<Rect>, x: int, y: int, w: int)
    requires w > 0 && forall i :: x <= i < x + w ==> !Covers(rs, i, y)
    ensures var after := rs + [Rect(x, y, w, 1)];
            && (forall i, j :: Covers(after, i, j) <==> Covers(rs, i, j) || (j == y && x <= i < x + w))
            && (Disjoint(others + rs) && (forall i :: x <= i < x + w ==> !Covers(others, i, y))
                ==> Disjoint(others + after))
  {
    var r := Rect(x, y, w, 1);
    forall i, j ensures Covers(rs + [r], i, j) <==> Covers(rs, i, j) || (j == y && x <= i < x + w) {
      CoversAppend(rs, [r], i, j);
      assert Covers([r], i, j) <==> In(r, i, j) by { if In(r, i, j) { assert In([r][0], i, j); } }
    }
    if Disjoint(others + rs) && forall i :: x <= i < x + w ==> !Covers(others, i, y) {
      var all, after := others + rs, others + (rs + [r]);
      forall i | 0 <= i < |after| ensures after[i].w > 0 && after[i].h > 0 {
        assert i < |all| ==> after[i] == all[i] && all[i].w > 0 && all[i].h > 0;
      }
      forall i, j | 0 <= i < j < |after| ensures Apart(after[i], after[j]) {
        if j == |all| {
          NotOnLine(others, rs, i, x, y, w);
          assert after[i] == all[i] && after[j] == r;
        } else {
          assert Apart(all[i], all[j]) && after[i] == all[i] && after[j] == all[j];
        }
      }
    }
  }

  // A rectangle that covers none of the stretch of line y is apart from it
  lemma NotOnLine(others: seq<Rect>, rs: seq<Rect>, k: nat, x: int, y: int, w: int)
    requires k < |others + rs| && w > 0 && (others + rs)[k].w > 0 && (others + rs)[k].h > 0
    requires forall i :: x <= i < x + w ==> !Covers(rs, i, y) && !Covers(others, i, y)
    ensures Apart((others + rs)[k], Rect(x, y, w, 1))
  {
    var r := (others + rs)[k];
    var i := if r.x > x then r.x else x;
    assert k < |others| ==> (In(others[k], i, y) ==> Covers(others, i, y));
    assert k >= |others| ==> (In(rs[k - |others|], i, y) ==> Covers(rs, i, y));
  }

  class RectangleList {
    var active: seq<Rect>
    var inactive: seq<Rect>

    constructor ()
      ensures active == inactive == []
    {
      active, inactive := [], [];
    }

    // In the middle of line y: every active rectangle ends with that line or the one before
    ghost predicate Growing(y: int)
      reads this
    {
      forall i :: 0 <= i < |active| ==>
        active[i].w > 0 && active[i].h > 0 && (active[i].y + active[i].h == y || active[i].y + active[i].h == y + 1)
    }

    // rectangle_add, for a stretch of line y that is not covered yet
    method Add(y: int, x: int, w: int)
      requires Growing(y) && w > 0
      requires forall i :: x <= i < x + w ==> !Covers(active, i, y)
      modifies this`active
      ensures Growing(y)
      ensures forall i, j :: Covers(active, i, j) <==> old(Covers(active, i, j)) || (j == y && x <= i < x + w)
      ensures old(Disjoint(inactive + active)) && (forall i :: x <= i < x + w ==> !Covers(inactive, i, y))
              ==> Disjoint(inactive + active)
    {
      ghost var before := active;
      var i := 0;
      while i < |active|
        invariant i <= |active| && active == before
        invariant forall j :: 0 <= j < i ==> !(active[j].x == x && active[j].w == w)
      {
        if active[i].x == x && active[i].w == w {
          assert !Covers(active, x, y);
          active := active[i := active[i].(h := active[i].h + 1)];
          GrowCovers(before, inactive, i, x, y, w);
          return;
        }
        i := i + 1;
      }
      active := active + [Rect(x, y, w, 1)];
      NewCovers(before, inactive, x, y, w);
    }

    // compare_and_merge_rectangles
    method CompareAndMerge(source: Rect) returns (merged: bool)
      modifies this`inactive
      ensures !merged ==> inactive == old(inactive)
      ensures merged ==> forall i, j :: Covers(inactive, i, j) <==> old(Covers(inactive, i, j)) || In(source, i, j)
    {
      var z := 0;
      while z < |inactive|
        invariant z <= |inactive| && inactive == old(inactive)
      {
        var r := inactive[z];
        if r.x == source.x && r.w == source.w {
          if r.y == source.y && r.h == source.h {
            return true;
          }
          if Touch(r.y, r.h, source.y, source.h) {
            var m := r.(h := Max(r.y + r.h, source.y + source.h) - Min(r.y, source.y), y := Min(r.y, source.y));
            inactive := inactive[z := m];
            MergeCovers(old(inactive), z, source, m);
            return true;
          }
        }
        if r.y == source.y && r.h == source.h {
          if Touch(r.x, r.w, source.x, source.w) {
            var m := r.(w := Max(r.x + r.w, source.x + source.w) - Min(r.x, source.x), x := Min(r.x, source.x));
            inactive := inactive[z := m];
            MergeCovers(old(inactive), z, source, m);
            return true;
          }
        }
        z := z + 1;
      }
      return false;
    }

    // rectangle_end_line
    method EndLine(y: int, frameRate: int)
      requires forall i :: 0 <= i < |active| ==> active[i].h > 0
      modifies this
      ensures active == Kept(old(active), y)
      ensures frameRate <= 1 ==> inactive == old(inactive) + Retired(old(active), y)
      ensures forall i, j ::
                Covers(inactive, i, j) <==> old(Covers(inactive, i, j)) || Covers(Retired(old(active), y), i, j)
    {
      Retire(y, frameRate);
      Compress(y, old(active));
    }

    // Move the rectangles that did not grow on line y to the inactive list
    method Retire(y: int, frameRate: int)
      modifies this
      ensures |active| == |old(active)|
      ensures forall k :: 0 <= k < |active| ==>
                active[k] == if old(active[k]).y + old(active[k]).h == y + 1 then old(active[k])
                             else old(active[k]).(h := 0)
      ensures frameRate <= 1 ==> inactive == old(inactive) + Retired(old(active), y)
      ensures forall i, j ::
                Covers(inactive, i, j) <==> old(Covers(inactive, i, j)) || Covers(Retired(old(active), y), i, j)
    {
      ghost var a, b := active, inactive;
      var i := 0;
      while i < |active|
        invariant i <= |active| == |a|
        invariant forall k :: i <= k < |active| ==> active[k] == a[k]
        invariant forall k :: 0 <= k < i ==> active[k] == if a[k].y + a[k].h == y + 1 then a[k] else a[k].(h := 0)
        invariant frameRate <= 1 ==> inactive == b + Retired(a[..i], y)
        invariant forall x, j :: Covers(inactive, x, j) <==> Covers(b, x, j) || Covers(Retired(a[..i], y), x, j)
      {
        assert a[..i + 1][..i] == a[..i];
        ghost var now := inactive;
        if active[i].y + active[i].h != y + 1 {
          var merged := false;
          if frameRate > 1 { merged := CompareAndMerge(active[i]); }
          if !merged { inactive := inactive + [active[i]]; }
          RetireCovers(now, inactive, merged, b, Retired(a[..i], y), a[i]);
          active := active[i := active[i].(h := 0)];
        }
        i := i + 1;
      }
      assert a[..i] == a;
    }

    // Close the gaps that retired rectangles left in the active list
    method Compress(y: int, ghost a: seq<Rect>)
      requires |active| == |a| && forall k :: 0 <= k < |a| ==> a[k].h > 0
      requires forall k :: 0 <= k < |active| ==>
                 active[k] == if a[k].y + a[k].h == y + 1 then a[k] else a[k].(h := 0)
      modifies this`active
      ensures active == Kept(a, y)
    {
      var i, ptr := 0, 0;
      while i < |active|
        invariant ptr <= i <= |active| == |a|
        invariant active[..ptr] == Kept(a[..i], y)
        invariant forall k :: i <= k < |active| ==>
                    active[k] == if a[k].y + a[k].h == y + 1 then a[k] else a[k].(h := 0)
      {
        assert a[..i + 1][..i] == a[..i];
        if active[i].h != 0 {
          active := active[ptr := active[i]];
          ptr := ptr + 1;
        }
        i := i + 1;
      }
      assert a[..i] == a;
      active := active[..ptr];
    }
  }
}
