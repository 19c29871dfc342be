/** What can be read of the objects on the heap, as values, and what a store does to it. */
module GcLooks {
  import opened GcMark
  import opened Slices

  /** The payload of an object, and for an array its whole storage and its place in it. */
  datatype Look = Look(u: Payload, owner: Array?<CrbValue>, pos: nat, len: nat, cells: seq<CrbValue>) {
    /** Where the cells are. */
    ghost function Storage(): array?<CrbValue> {
      if owner == null then null else owner.data
    }

    /** What an array shows. */
    ghost function Shows(): seq<CrbValue> {
      if pos + len <= |cells| then cells[pos..pos + len] else []
    }

    ghost function At(index: nat): CrbValue {
      if pos + index < |cells| then cells[pos + index] else Plain(0)
    }

    /** The objects referred to. */
    ghost function Refs(): set<Obj> {
      if u.ArrayObject? then AllTargets(Shows()) else PlainKids(u)
    }
  }

  ghost function LookOf(o: Obj): Look
    reads o`u, Parts(o.u)
  {
    if o.u.ArrayObject?
    then Look(o.u, o.u.slice.data, o.u.slice.pos, o.u.slice.len, o.u.slice.data.data[..])
    else Look(o.u, null, 0, 0, [])
  }

  ghost function LooksOf(s: seq<Obj>): map<Obj, Look>
    reads (set o | o in s)`u, set o, x | o in s && x in Parts(o.u) :: x
  {
    map o | o in s :: LookOf(o)
  }

  lemma LookKids(o: Obj)
    ensures LookOf(o).Refs() == Kids(o.u)
  {
  }

  // ---------------------------------------------------------------- stores

  ghost function Written(cells: seq<CrbValue>, at: nat, value: CrbValue): seq<CrbValue> {
    if at < |cells| then cells[at := value] else cells
  }

  ghost function Gapless(cells: seq<CrbValue>, at: nat, end: nat): seq<CrbValue> {
    if at < end <= |cells| then GapClosed(cells, at, end) else cells
  }

  /** What an object looks like after a store in the array that looked like `x`. */
  ghost function SetLook(l: Look, x: Look, index: nat, value: CrbValue): Look {
    if l.Storage() == x.Storage() then l.(cells := Written(l.cells, x.pos + index, value)) else l
  }

  ghost function PopLook(l: Look, x: Look, index: nat, itself: bool): Look {
    if l.Storage() == x.Storage()
    then l.(cells := Gapless(l.cells, x.pos + index, x.pos + x.len),
            len := if itself && l.len > 0 then l.len - 1 else l.len)
    else l
  }

  ghost function AppendLook(l: Look, x: Look, value: CrbValue, itself: bool): Look {
    if l.Storage() == x.Storage()
    then l.(cells := Written(l.cells, x.pos + x.len, value), len := if itself then l.len + 1 else l.len)
    else l
  }

  /** The value is stored in the array `x`; every array on the same storage sees it. */
  ghost function SetLooks(was: map<Obj, Look>, x: Obj, index: nat, value: CrbValue): map<Obj, Look>
    requires x in was
  {
    map o | o in was :: SetLook(was[o], was[x], index, value)
  }

  /** The array `x` has lost an element; every array on the same storage sees the rest move down. */
  ghost function PopLooks(was: map<Obj, Look>, x: Obj, index: nat): map<Obj, Look>
    requires x in was
  {
    map o | o in was :: PopLook(was[o], was[x], index, o == x)
  }

  /** The array is on storage of its own, which starts with what was seen from its place on. */
  ghost predicate Regrown(was: Look, now: Look, value: CrbValue) {
    && now.u == was.u && now.pos == 0 && now.len == was.len + 1
    && now.Shows() == was.Shows() + [value] && |now.cells| == GrownCap(was.len, was.len + 1)
  }

  /** The array `x` has got one more element, in place while there is room behind what it shows. */
  ghost predicate AppendLooks(was: map<Obj, Look>, now: map<Obj, Look>, x: Obj, value: CrbValue) {
    && x in was && now.Keys == was.Keys
    && if was[x].pos + was[x].len < |was[x].cells|
       then now == map o | o in was :: AppendLook(was[o], was[x], value, o == x)
       else
         && Regrown(was[x], now[x], value)
         && forall o :: o in was && o != x ==> now[o] == was[o] && now[x].Storage() != was[o].Storage()
  }

  ghost function Filled(cells: seq<CrbValue>, from: nat, len: nat, index: nat, value: CrbValue): seq<CrbValue> {
    if from + len < |cells| && index <= len then Shifted(cells, from, len, index, value) else cells
  }

  ghost function InsertLook(l: Look, x: Look, index: nat, value: CrbValue, itself: bool): Look {
    if l.Storage() == x.Storage()
    then l.(cells := Filled(l.cells, x.pos, x.len, index, value), len := if itself then l.len + 1 else l.len)
    else l
  }

  /** The array is on storage of its own, which starts with what was seen from its place on, moved by the insertion. */
  ghost predicate RegrownBy(was: Look, now: Look, index: nat, value: CrbValue) {
    && now.u == was.u && now.pos == 0 && now.len == was.len + 1 && index <= |was.Shows()|
    && now.Shows() == Inserted(was.Shows(), now.At(was.len), index, value)
    && |now.cells| == GrownCap(was.len, was.len + 1) && was.len < |now.cells|
  }

  /** A value has been inserted in the array `x`, in place while there is room behind what it shows; every array on
      the same storage sees what that moves. */
  ghost predicate InsertLooks(was: map<Obj, Look>, now: map<Obj, Look>, x: Obj, index: nat, value: CrbValue) {
    && x in was && now.Keys == was.Keys
    && if was[x].pos + was[x].len < |was[x].cells|
       then now == map o | o in was :: InsertLook(was[o], was[x], index, value, o == x)
       else
         && RegrownBy(was[x], now[x], index, value)
         && forall o :: o in was && o != x ==> now[o] == was[o] && now[x].Storage() != was[o].Storage()
  }

  /** The cell behind the elements, or the first one that nobody has written in the new storage. */
  ghost function CellBehind(was: Look, now: Look): CrbValue {
    if was.pos + was.len < |was.cells| then was.At(was.len) else now.At(was.len)
  }

  /** What the cell behind refers to, if the insertion makes it an element. */
  ghost function Uncovered(index: nat, len: nat, behind: CrbValue): set<Obj> {
    if 0 < index < len then Targets(behind) else {}
  }

  /** What the array `x` may refer to after an insertion that no array and no value need have referred to before. */
  ghost function NewlyShown(was: map<Obj, Look>, now: map<Obj, Look>, x: Obj, index: nat): set<Obj> {
    if x in was && x in now then Uncovered(index, was[x].len, CellBehind(was[x], now[x])) else {}
  }

  lemma {:induction false} CellsWritten(was: seq<CrbValue>, now: seq<CrbValue>, values: seq<CrbValue>)
    requires forall x :: x in now ==> x in was || x in values
    ensures AllTargets(now) <= AllTargets(was) + AllTargets(values)
  {
    forall y | y in AllTargets(now)
      ensures y in AllTargets(was) + AllTargets(values)
    {
      var i :| 0 <= i < |now| && y in Targets(now[i]);
      assert now[i] in now;
      if now[i] in was {
        var j :| 0 <= j < |was| && was[j] == now[i];
      } else {
        var j :| 0 <= j < |values| && values[j] == now[i];
      }
    }
  }

  lemma {:induction false} OneCellWritten(was: seq<CrbValue>, now: seq<CrbValue>, value: CrbValue)
    requires forall x :: x in now ==> x in was || x == value
    ensures AllTargets(now) <= AllTargets(was) + Targets(value)
  {
    CellsWritten(was, now, [value]);
    assert [value][0] == value;
  }

  /** A window after a store shows what it showed and perhaps the value. */
  lemma {:induction false} WrittenWindow(cells: seq<CrbValue>, at: nat, value: CrbValue, lo: nat, hi: nat)
    requires lo <= hi <= |cells|
    ensures AllTargets(Written(cells, at, value)[lo..hi]) <= AllTargets(cells[lo..hi]) + Targets(value)
  {
    var was, now := cells[lo..hi], Written(cells, at, value)[lo..hi];
    forall x | x in now
      ensures x in was || x == value
    {
      var k :| 0 <= k < |now| && now[k] == x;
      assert lo + k != at ==> was[k] == now[k];
    }
    OneCellWritten(was, now, value);
  }

  /** Closing the gap brings nothing into the storage that was not in the stretch. */
  lemma {:induction false} GapValue(cells: seq<CrbValue>, from: nat, at: nat, end: nat, k: nat)
    requires from <= at < end <= |cells| && k < |cells|
    ensures GapClosed(cells, at, end)[k] == cells[k] || GapClosed(cells, at, end)[k] in cells[from..end]
  {
    if at <= k < end - 1 {
      assert GapClosed(cells, at, end)[k] == cells[k + 1] == cells[from..end][k + 1 - from];
    }
  }

  lemma {:induction false} GapWindow(cells: seq<CrbValue>, from: nat, at: nat, end: nat, lo: nat, hi: nat)
    requires from <= at < end <= |cells| && lo <= hi <= |cells|
    ensures AllTargets(GapClosed(cells, at, end)[lo..hi]) <= AllTargets(cells[lo..hi]) + AllTargets(cells[from..end])
  {
    var was, now := cells[lo..hi], GapClosed(cells, at, end)[lo..hi];
    forall x | x in now
      ensures x in was || x in cells[from..end]
    {
      var k :| 0 <= k < |now| && now[k] == x;
      GapValue(cells, from, at, end, lo + k);
      assert was[k] == cells[lo + k];
    }
    hide GapClosed, AllTargets;
    CellsWritten(was, now, cells[from..end]);
  }

  lemma {:induction false} Narrower(s: seq<CrbValue>, lo: nat, mid: nat, hi: nat)
    requires lo <= mid <= hi <= |s|
    ensures AllTargets(s[lo..mid]) <= AllTargets(s[lo..hi])
  {
    assert forall i :: 0 <= i < mid - lo ==> s[lo..mid][i] == s[lo..hi][i];
  }

  lemma {:induction false} PopWindow(cells: seq<CrbValue>, from: nat, at: nat, end: nat, lo: nat, hi: nat, hi': nat)
    requires from <= at < end <= |cells| && lo <= hi' <= hi <= |cells|
    ensures |GapClosed(cells, at, end)| == |cells|
    ensures AllTargets(GapClosed(cells, at, end)[lo..hi']) <= AllTargets(cells[lo..hi]) + AllTargets(cells[from..end])
  {
    hide AllTargets;
    GapWindow(cells, from, at, end, lo, hi);
    Narrower(GapClosed(cells, at, end), lo, hi', hi);
  }

  /** Arrays on the same storage see the same cells. */
  ghost predicate Coherent(looks: map<Obj, Look>) {
    forall o, p :: o in looks && p in looks && looks[o].Storage() == looks[p].Storage() ==>
      looks[o].cells == looks[p].cells
  }

  lemma {:induction false} LooksCoherent(s: seq<Obj>)
    ensures Coherent(LooksOf(s))
  {
  }

  ghost predicate Fits(l: Look) {
    l.pos + l.len <= |l.cells|
  }

  lemma {:induction false} SetRefs(l: Look, x: Look, index: nat, value: CrbValue)
    requires Fits(l)
    ensures SetLook(l, x, index, value).Refs() <= l.Refs() + Targets(value)
  {
    hide AllTargets, PlainKids;
    WrittenWindow(l.cells, x.pos + index, value, l.pos, l.pos + l.len);
  }

  lemma {:induction false} PopRefs(l: Look, x: Look, index: nat, itself: bool)
    requires Fits(l) && Fits(x) && index < x.len && x.u.ArrayObject?
    requires (l.Storage() == x.Storage() ==> l.cells == x.cells)
    ensures PopLook(l, x, index, itself).Refs() <= l.Refs() + x.Refs()
  {
    hide AllTargets, PlainKids, GapClosed;
    var now := PopLook(l, x, index, itself);
    if l.u.ArrayObject? && l.Storage() == x.Storage() {
      PopWindow(l.cells, x.pos, x.pos + index, x.pos + x.len, l.pos, l.pos + l.len, l.pos + now.len);
    }
  }

  // ---------------------------------------------------------------- insertions

  lemma InsertedValue(s: seq<CrbValue>, behind: CrbValue, index: nat, value: CrbValue, k: nat)
    requires index <= |s| && k <= |s|
    ensures var t := Inserted(s, behind, index, value);
      |t| == |s| + 1 && (t[k] in s || t[k] == value || (t[k] == behind && 0 < index < |s|))
    ensures 0 < index < |s| ==> Inserted(s, behind, index, value)[|s|] == behind
  {
  }

  /** What the elements refer to after an insertion: the last of them is the cell behind, unless the insertion is
      at one of the ends. */
  lemma {:induction false} InsertedRefs(s: seq<CrbValue>, behind: CrbValue, index: nat, value: CrbValue)
    requires index <= |s|
    ensures var all := AllTargets(Inserted(s, behind, index, value)); var shown := Uncovered(index, |s|, behind);
      shown <= all <= AllTargets(s) + Targets(value) + shown
  {
    var t := Inserted(s, behind, index, value);
    var values := if 0 < index < |s| then [value, behind] else [value];
    forall x | x in t
      ensures x in s || x in values
    {
      var k :| 0 <= k < |t| && t[k] == x;
      InsertedValue(s, behind, index, value, k);
      assert values[0] == value && (|values| == 2 ==> values[1] == behind);
    }
    InsertedValue(s, behind, index, value, |s|);
    hide Inserted;
    assert |t| == |s| + 1 && (0 < index < |s| ==> t[|s|] == behind);
    CellsWritten(s, t, values);
  }

  /** Moving and storing brings nothing else into any cell but the one behind. */
  lemma {:induction false} ShiftedValue(cells: seq<CrbValue>, from: nat, len: nat, index: nat, value: CrbValue, k: nat)
    requires from + len < |cells| && index <= len && k < |cells|
    ensures var t := Shifted(cells, from, len, index, value);
      |t| == |cells| && (t[k] == cells[k] || t[k] == value || t[k] in cells[from..from + len])
  {
    var s := cells[from..from + len];
    if from <= k <= from + len {
      InsertedValue(s, cells[from + len], index, value, k - from);
      InsertedBehind(s, cells[from + len], index, value);
    }
  }

  lemma InsertedBehind(s: seq<CrbValue>, behind: CrbValue, index: nat, value: CrbValue)
    requires index <= |s|
    ensures var t := Inserted(s, behind, index, value); forall k :: 0 <= k < |s| ==> t[k] in s || t[k] == value
  {
  }

  lemma {:induction false} ShiftedWindow(cells: seq<CrbValue>, from: nat, len: nat, index: nat, value: CrbValue,
                                         lo: nat, hi: nat)
    requires from + len < |cells| && index <= len && lo <= hi <= |cells|
    ensures |Shifted(cells, from, len, index, value)| == |cells|
    ensures AllTargets(Shifted(cells, from, len, index, value)[lo..hi])
         <= AllTargets(cells[lo..hi]) + AllTargets(cells[from..from + len]) + Targets(value)
  {
    hide Shifted, AllTargets;
    ShiftedValue(cells, from, len, index, value, 0);
    var t, s := Shifted(cells, from, len, index, value), cells[from..from + len];
    var was, now := cells[lo..hi], t[lo..hi];
    forall x | x in now
      ensures x in was || x in s + [value]
    {
      var k :| 0 <= k < |now| && now[k] == x;
      ShiftedValue(cells, from, len, index, value, lo + k);
      assert was[k] == cells[lo + k] && t[lo + k] == x && (s + [value])[|s|] == value;
    }
    CellsWritten(was, now, s + [value]);
    OneCellWritten(s, s + [value], value);
  }

  lemma {:induction false} ShiftedShown(cells: seq<CrbValue>, from: nat, len: nat, index: nat, value: CrbValue)
    requires from + len < |cells| && index <= len
    ensures |Shifted(cells, from, len, index, value)| == |cells|
    ensures Shifted(cells, from, len, index, value)[from..from + len + 1]
         == Inserted(cells[from..from + len], cells[from + len], index, value)
  {
    InsertedLength(cells[from..from + len], cells[from + len], index, value);
    hide Inserted;
  }

  lemma InsertedLength(s: seq<CrbValue>, behind: CrbValue, index: nat, value: CrbValue)
    requires index <= |s|
    ensures |Inserted(s, behind, index, value)| == |s| + 1
  {
  }

  lemma {:induction false} InsertRefs(l: Look, x: Look, index: nat, value: CrbValue, itself: bool)
    requires Fits(l) && Fits(x) && x.pos + x.len < |x.cells| && index <= x.len && x.u.ArrayObject?
    requires (l.Storage() == x.Storage() ==> l.cells == x.cells) && (itself ==> l == x)
    ensures Fits(InsertLook(l, x, index, value, itself))
    ensures var shown := Uncovered(index, x.len, x.At(x.len));
      && InsertLook(l, x, index, value, itself).Refs() <= l.Refs() + (x.Refs() + Targets(value) + shown)
      && (itself ==> shown <= InsertLook(l, x, index, value, itself).Refs())
  {
    hide AllTargets, PlainKids, Shifted, Uncovered, Targets;
    var shown := Uncovered(index, x.len, x.At(x.len));
    if itself {
      ShiftedShown(x.cells, x.pos, x.len, index, value);
      InsertedRefs(x.Shows(), x.At(x.len), index, value);
    } else if l.u.ArrayObject? && l.Storage() == x.Storage() {
      ShiftedWindow(l.cells, x.pos, x.len, index, value, l.pos, l.pos + l.len);
    } else if l.Storage() == x.Storage() {
      ShiftedShown(l.cells, x.pos, x.len, index, value);
    }
  }

  lemma {:induction false} RegrownByRefs(x: Look, now: Look, index: nat, value: CrbValue)
    requires RegrownBy(x, now, index, value) && Fits(x) && x.u.ArrayObject?
    ensures Fits(now)
    ensures var shown := Uncovered(index, x.len, now.At(x.len));
      shown <= now.Refs() <= x.Refs() + Targets(value) + shown
  {
    hide AllTargets, Uncovered, Targets, Inserted;
    InsertedRefs(x.Shows(), now.At(x.len), index, value);
    InsertedLength(x.Shows(), now.At(x.len), index, value);
  }

  lemma {:induction false} ShownRefs(was: map<Obj, Look>, now: map<Obj, Look>, x: Obj, index: nat, value: CrbValue)
    requires InsertLooks(was, now, x, index, value) && Fits(was[x]) && was[x].u.ArrayObject? && index <= was[x].len
    ensures x in now && NewlyShown(was, now, x, index) <= now[x].Refs()
  {
    if was[x].pos + was[x].len < |was[x].cells| {
      InsertRefs(was[x], was[x], index, value, true);
    } else {
      RegrownByRefs(was[x], now[x], index, value);
    }
    hide Look.Refs, Look.Shows, Targets, GrownCap, Filled, Inserted, Uncovered;
  }

  /** An insertion at the end is an append. */
  lemma {:induction false} FilledEnd(cells: seq<CrbValue>, from: nat, len: nat, value: CrbValue)
    ensures Filled(cells, from, len, len, value) == Written(cells, from + len, value)
  {
    hide Shifted;
    if from + len < |cells| {
      ShiftedEnd(cells, from, len, value);
    }
  }

  lemma {:induction false} InsertAtEnd(was: map<Obj, Look>, now: map<Obj, Look>, x: Obj, value: CrbValue)
    requires x in was && InsertLooks(was, now, x, was[x].len, value) && Fits(was[x])
    ensures AppendLooks(was, now, x, value)
  {
    hide Filled, Written, GrownCap, Look.At;
    var l := was[x];
    if l.pos + l.len < |l.cells| {
      forall o | o in was
        ensures now[o] == AppendLook(was[o], l, value, o == x)
      {
        FilledEnd(was[o].cells, l.pos, l.len, value);
      }
    } else {
      InsertedEnd(l.Shows(), now[x].At(l.len), value);
      hide Inserted;
    }
  }
}
