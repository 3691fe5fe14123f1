// Mutation in place: documents as containers that refer to each other, and what the
// edit of one container does to the value of the whole.
module Documents {
  import opened Wrappers
  import opened Json
  import opened Mutations

  type Id = nat

  /** What a list or dictionary holds: a plain value, or another container. */
  datatype Slot = Leaf(value: Value) | Ref(id: Id)

  datatype Cell = ListCell(items: seq<Slot>) | DictCell(members: map<string, Slot>)

  type Heap = map<Id, Cell>

  // ---------- the value of a document ----------

  predicate ListAt(h: Heap, s: Slot, n: nat) { s.Ref? && s.id in h && h[s.id].ListCell? && |h[s.id].items| == n }

  predicate DictAt(h: Heap, s: Slot, keys: set<string>) {
    s.Ref? && s.id in h && h[s.id].DictCell? && h[s.id].members.Keys == keys
  }

  /** The containers a value is made of. */
  ghost function Footprint(h: Heap, s: Slot, v: Value): set<Id>
    decreases v
  {
    match v
    case Arr(vs) =>
      if !ListAt(h, s, |vs|) then {}
      else {s.id} + set i, x | 0 <= i < |vs| && x in Footprint(h, h[s.id].items[i], vs[i]) :: x
    case Obj(ms) =>
      if !DictAt(h, s, ms.Keys) then {}
      else {s.id} + set k, x | k in ms && x in Footprint(h, h[s.id].members[k], ms[k]) :: x
    case _ => {}
  }

  /** The slot holds this value, and no container is used twice in it. */
  ghost predicate Stored(h: Heap, s: Slot, v: Value)
    decreases v
  {
    match v
    case Arr(vs) =>
      ListAt(h, s, |vs|) &&
      (forall i :: 0 <= i < |vs| ==> Stored(h, h[s.id].items[i], vs[i]) && s.id !in Footprint(h, h[s.id].items[i], vs[i])) &&
      (forall i, j :: 0 <= i < j < |vs| ==>
         Footprint(h, h[s.id].items[i], vs[i]) !! Footprint(h, h[s.id].items[j], vs[j]))
    case Obj(ms) =>
      DictAt(h, s, ms.Keys) &&
      (forall k :: k in ms ==> Stored(h, h[s.id].members[k], ms[k]) && s.id !in Footprint(h, h[s.id].members[k], ms[k])) &&
      (forall k, l :: k in ms && l in ms && k != l ==>
         Footprint(h, h[s.id].members[k], ms[k]) !! Footprint(h, h[s.id].members[l], ms[l]))
    case _ => s == Leaf(v)
  }

  predicate Agree(h: Heap, g: Heap, ids: set<Id>) { forall x :: x in ids ==> x in h && x in g && g[x] == h[x] }

  /** A value does not change where its containers do not. */
  lemma {:induction false} Frame(h: Heap, g: Heap, s: Slot, v: Value)
    requires Stored(h, s, v) && Agree(h, g, Footprint(h, s, v))
    ensures Stored(g, s, v) && Footprint(g, s, v) == Footprint(h, s, v)
    decreases v
  {
    match v
    case Arr(vs) =>
      forall i | 0 <= i < |vs|
        ensures Stored(g, h[s.id].items[i], vs[i])
        ensures Footprint(g, h[s.id].items[i], vs[i]) == Footprint(h, h[s.id].items[i], vs[i])
      {
        Frame(h, g, h[s.id].items[i], vs[i]);
      }
    case Obj(ms) =>
      forall k | k in ms
        ensures Stored(g, h[s.id].members[k], ms[k])
        ensures Footprint(g, h[s.id].members[k], ms[k]) == Footprint(h, h[s.id].members[k], ms[k])
      {
        Frame(h, g, h[s.id].members[k], ms[k]);
      }
    case _ =>
  }

  // ---------- one container rebuilt ----------

  /** Where each new element comes from: an old position, or -1 for the one new slot. */
  predicate Origins(origin: seq<int>, n: nat) {
    (forall k :: 0 <= k < |origin| ==> -1 <= origin[k] < n) && forall k, l :: 0 <= k < l < |origin| ==> origin[k] != origin[l]
  }

  predicate Arranged<T(==)>(origin: seq<int>, was: seq<T>, now: seq<T>, x: T)
    requires Origins(origin, |was|)
  {
    |now| == |origin| && forall k :: 0 <= k < |origin| ==> now[k] == if origin[k] == -1 then x else was[origin[k]]
  }

  /** The children that stay are untouched, and the new one is stored apart from them. */
  ghost predicate ListReady(h: Heap, g: Heap, s: Slot, vs: seq<Value>, origin: seq<int>, y: Slot, yv: Value)
    requires ListAt(h, s, |vs|) && Origins(origin, |vs|)
  {
    var slots := h[s.id].items;
    && (forall k :: 0 <= k < |origin| && origin[k] >= 0 ==> Agree(h, g, Footprint(h, slots[origin[k]], vs[origin[k]])))
    && ((exists k :: 0 <= k < |origin| && origin[k] == -1) ==> Stored(g, y, yv) && s.id !in Footprint(g, y, yv))
    && (forall k :: 0 <= k < |origin| && origin[k] >= 0 ==> Footprint(h, slots[origin[k]], vs[origin[k]]) !! Footprint(g, y, yv))
  }

  lemma ListRebuilt(h: Heap, g: Heap, s: Slot, vs: seq<Value>, origin: seq<int>, now: seq<Slot>, vs': seq<Value>, y: Slot, yv: Value)
    requires Stored(h, s, Arr(vs)) && Origins(origin, |vs|) && ListReady(h, g, s, vs, origin, y, yv)
    requires s.id in g && g[s.id] == ListCell(now)
    requires Arranged(origin, h[s.id].items, now, y) && Arranged(origin, vs, vs', yv)
    ensures Stored(g, s, Arr(vs'))
    ensures Footprint(g, s, Arr(vs')) <= Footprint(h, s, Arr(vs)) + Footprint(g, y, yv)
  {
    var slots := h[s.id].items;
    forall k | 0 <= k < |origin|
      ensures Stored(g, now[k], vs'[k]) && s.id !in Footprint(g, now[k], vs'[k])
      ensures Footprint(g, now[k], vs'[k]) ==
                if origin[k] == -1 then Footprint(g, y, yv) else Footprint(h, slots[origin[k]], vs[origin[k]])
    {
      if origin[k] >= 0 { Frame(h, g, slots[origin[k]], vs[origin[k]]); }
    }
    forall k, l | 0 <= k < l < |origin|
      ensures Footprint(g, now[k], vs'[k]) !! Footprint(g, now[l], vs'[l])
    {
      var a, b := origin[k], origin[l];
      if a >= 0 && b >= 0 {
        if a < b { assert Footprint(h, slots[a], vs[a]) !! Footprint(h, slots[b], vs[b]); }
        else { assert Footprint(h, slots[b], vs[b]) !! Footprint(h, slots[a], vs[a]); }
      }
    }
    forall x | x in Footprint(g, s, Arr(vs'))
      ensures x in Footprint(h, s, Arr(vs)) + Footprint(g, y, yv)
    {
      if x != s.id {
        var k :| 0 <= k < |vs'| && x in Footprint(g, now[k], vs'[k]);
        if origin[k] >= 0 { assert x in Footprint(h, slots[origin[k]], vs[origin[k]]); }
      }
    }
  }

  /** The same for a dictionary: of its keys some stay, and one may be given the new slot. */
  ghost predicate DictReady(h: Heap, g: Heap, s: Slot, ms: map<string, Value>, kept: set<string>, y: Slot, yv: Value)
    requires DictAt(h, s, ms.Keys) && kept <= ms.Keys
  {
    var slots := h[s.id].members;
    && (forall k :: k in kept ==> Agree(h, g, Footprint(h, slots[k], ms[k])))
    && Stored(g, y, yv) && s.id !in Footprint(g, y, yv)
    && (forall k :: k in kept ==> Footprint(h, slots[k], ms[k]) !! Footprint(g, y, yv))
  }

  predicate Kept<T(==)>(kept: set<string>, added: string, was: map<string, T>, now: map<string, T>, x: T)
    requires kept <= was.Keys && added !in kept
  {
    kept <= now.Keys && now.Keys <= kept + {added} &&
    (forall k :: k in kept ==> now[k] == was[k]) && (added in now ==> now[added] == x)
  }

  lemma DictChildren(h: Heap, g: Heap, s: Slot, ms: map<string, Value>, kept: set<string>, added: string,
                     now: map<string, Slot>, ms': map<string, Value>, y: Slot, yv: Value)
    requires Stored(h, s, Obj(ms)) && kept <= ms.Keys && added !in kept && DictReady(h, g, s, ms, kept, y, yv)
    requires now.Keys == ms'.Keys && Kept(kept, added, h[s.id].members, now, y) && Kept(kept, added, ms, ms', yv)
    ensures forall k :: k in ms' ==>
              Stored(g, now[k], ms'[k]) && s.id !in Footprint(g, now[k], ms'[k]) &&
              Footprint(g, now[k], ms'[k]) ==
                if k in kept then Footprint(h, h[s.id].members[k], ms[k]) else Footprint(g, y, yv)
  {
    forall k | k in ms'
      ensures Stored(g, now[k], ms'[k]) && s.id !in Footprint(g, now[k], ms'[k])
      ensures Footprint(g, now[k], ms'[k]) ==
                if k in kept then Footprint(h, h[s.id].members[k], ms[k]) else Footprint(g, y, yv)
    {
      if k in kept { Frame(h, g, h[s.id].members[k], ms[k]); } else { assert k == added; }
    }
  }

  lemma DictRebuilt(h: Heap, g: Heap, s: Slot, ms: map<string, Value>, kept: set<string>, added: string,
                    now: map<string, Slot>, ms': map<string, Value>, y: Slot, yv: Value)
    requires Stored(h, s, Obj(ms)) && kept <= ms.Keys && added !in kept && DictReady(h, g, s, ms, kept, y, yv)
    requires s.id in g && g[s.id] == DictCell(now) && now.Keys == ms'.Keys
    requires Kept(kept, added, h[s.id].members, now, y) && Kept(kept, added, ms, ms', yv)
    ensures Stored(g, s, Obj(ms'))
    ensures Footprint(g, s, Obj(ms')) <= Footprint(h, s, Obj(ms)) + Footprint(g, y, yv)
  {
    DictChildren(h, g, s, ms, kept, added, now, ms', y, yv);
    forall x | x in Footprint(g, s, Obj(ms'))
      ensures x in Footprint(h, s, Obj(ms)) + Footprint(g, y, yv)
    {
      if x != s.id {
        var k :| k in ms' && x in Footprint(g, now[k], ms'[k]);
        if k in kept { assert x in Footprint(h, h[s.id].members[k], ms[k]); }
      }
    }
  }

  // ---------- edits of one container ----------

  /** Which position each element of an edited list had. */
  function EditOrigins(toInt: Int, n: nat, final: string, op: Op): seq<int> {
    var index := toInt(final);
    if index.None? then []
    else
      var i := index.value;
      var at := if i >= 0 then i else if n + i >= 0 then n + i else 0;
      match op
      case Add => seq(n + 1, k requires 0 <= k < n + 1 => if k < at then k else if k == at then -1 else k - 1)
      case Replace => seq(n, k requires 0 <= k < n => if k == at then -1 else k)
      case Remove => if n == 0 then [] else seq(n - 1, k requires 0 <= k < n - 1 => if k < at then k else k + 1)
      case Unsupported => []
  }

  lemma EditListArranged<T>(toInt: Int, items: seq<T>, final: string, op: Op, x: T)
    requires EditList(toInt, items, final, op, x).Some?
    ensures Origins(EditOrigins(toInt, |items|, final, op), |items|)
    ensures Arranged(EditOrigins(toInt, |items|, final, op), items, EditList(toInt, items, final, op, x).value, x)
  {
  }

  lemma EditListAlike<S, T>(toInt: Int, a: seq<S>, b: seq<T>, final: string, op: Op, x: S, y: T)
    requires |a| == |b|
    ensures EditList(toInt, a, final, op, x).Some? <==> EditList(toInt, b, final, op, y).Some?
  {
  }

  function EditCell(toInt: Int, c: Cell, final: string, op: Op, x: Slot): Option<Cell> {
    match c
    case ListCell(items) =>
      var edited := EditList(toInt, items, final, op, x);
      if edited.None? then None else Some(ListCell(edited.value))
    case DictCell(members) =>
      var edited := EditDict(members, final, op, x);
      if edited.None? then None else Some(DictCell(edited.value))
  }

  /** The slot holds an edited value, made of the containers of the old one and of the new part. */
  ghost predicate Edited(h: Heap, g: Heap, s: Slot, v: Value, u: Value, x: Slot, xv: Value) {
    Stored(g, s, u) && Footprint(g, s, u) <= Footprint(h, s, v) + Footprint(h, x, xv)
  }

  /** A list whose elements are rearranged around one new slot. */
  lemma ListEdited(h: Heap, s: Slot, vs: seq<Value>, origin: seq<int>, now: seq<Slot>, vs': seq<Value>, x: Slot, xv: Value)
    requires Stored(h, s, Arr(vs)) && Stored(h, x, xv) && Footprint(h, s, Arr(vs)) !! Footprint(h, x, xv)
    requires Origins(origin, |vs|) && Arranged(origin, h[s.id].items, now, x) && Arranged(origin, vs, vs', xv)
    ensures Edited(h, h[s.id := ListCell(now)], s, Arr(vs), Arr(vs'), x, xv)
  {
    var g := h[s.id := ListCell(now)];
    FreshPart(h, g, s, x, xv, Footprint(h, s, Arr(vs)));
    forall k | 0 <= k < |origin| && origin[k] >= 0
      ensures Agree(h, g, Footprint(h, h[s.id].items[origin[k]], vs[origin[k]]))
      ensures Footprint(h, h[s.id].items[origin[k]], vs[origin[k]]) !! Footprint(g, x, xv)
    {
      ListChild(h, s, vs, origin[k]);
      StoredInHeap(h, h[s.id].items[origin[k]], vs[origin[k]]);
    }
    ListRebuilt(h, g, s, vs, origin, now, vs', x, xv);
  }

  /** The stored part keeps its place when another container changes. */
  lemma FreshPart(h: Heap, g: Heap, s: Slot, x: Slot, xv: Value, ids: set<Id>)
    requires s.Ref? && Stored(h, x, xv) && s.id in ids && ids !! Footprint(h, x, xv)
    requires g.Keys == h.Keys + {s.id} && forall i :: i in h && i != s.id ==> g[i] == h[i]
    ensures Stored(g, x, xv) && Footprint(g, x, xv) == Footprint(h, x, xv) && s.id !in Footprint(g, x, xv)
  {
    StoredInHeap(h, x, xv);
    Frame(h, g, x, xv);
  }

  lemma {:induction false} StoredInHeap(h: Heap, s: Slot, v: Value)
    requires Stored(h, s, v)
    ensures Footprint(h, s, v) <= h.Keys
    decreases v
  {
    match v
    case Arr(vs) =>
      forall i | 0 <= i < |vs| ensures Footprint(h, h[s.id].items[i], vs[i]) <= h.Keys { StoredInHeap(h, h[s.id].items[i], vs[i]); }
    case Obj(ms) =>
      forall k | k in ms ensures Footprint(h, h[s.id].members[k], ms[k]) <= h.Keys { StoredInHeap(h, h[s.id].members[k], ms[k]); }
    case _ =>
  }

  lemma ListChild(h: Heap, s: Slot, vs: seq<Value>, i: nat)
    requires Stored(h, s, Arr(vs)) && i < |vs|
    ensures Stored(h, h[s.id].items[i], vs[i]) && s.id !in Footprint(h, h[s.id].items[i], vs[i])
    ensures Footprint(h, h[s.id].items[i], vs[i]) <= Footprint(h, s, Arr(vs))
  {
  }

  lemma DictChild(h: Heap, s: Slot, ms: map<string, Value>, k: string)
    requires Stored(h, s, Obj(ms)) && k in ms
    ensures Stored(h, h[s.id].members[k], ms[k]) && s.id !in Footprint(h, h[s.id].members[k], ms[k])
    ensures Footprint(h, h[s.id].members[k], ms[k]) <= Footprint(h, s, Obj(ms))
  {
  }

  lemma EditListInPlace(toInt: Int, h: Heap, s: Slot, vs: seq<Value>, final: string, op: Op, x: Slot, xv: Value)
    requires Stored(h, s, Arr(vs)) && Stored(h, x, xv) && Footprint(h, s, Arr(vs)) !! Footprint(h, x, xv)
    requires EditList(toInt, vs, final, op, xv).Some?
    ensures EditList(toInt, h[s.id].items, final, op, x).Some?
    ensures Edited(h, h[s.id := ListCell(EditList(toInt, h[s.id].items, final, op, x).value)], s, Arr(vs),
                   Arr(EditList(toInt, vs, final, op, xv).value), x, xv)
  {
    var slots := h[s.id].items;
    EditListAlike(toInt, vs, slots, final, op, xv, x);
    EditListArranged(toInt, vs, final, op, xv);
    EditListArranged(toInt, slots, final, op, x);
    ListEdited(h, s, vs, EditOrigins(toInt, |vs|, final, op), EditList(toInt, slots, final, op, x).value,
               EditList(toInt, vs, final, op, xv).value, x, xv);
  }

  lemma DictEdited(h: Heap, s: Slot, ms: map<string, Value>, kept: set<string>, added: string,
                   now: map<string, Slot>, ms': map<string, Value>, x: Slot, xv: Value)
    requires Stored(h, s, Obj(ms)) && Stored(h, x, xv) && Footprint(h, s, Obj(ms)) !! Footprint(h, x, xv)
    requires kept <= ms.Keys && added !in kept && now.Keys == ms'.Keys
    requires Kept(kept, added, h[s.id].members, now, x) && Kept(kept, added, ms, ms', xv)
    ensures Edited(h, h[s.id := DictCell(now)], s, Obj(ms), Obj(ms'), x, xv)
  {
    var g := h[s.id := DictCell(now)];
    FreshPart(h, g, s, x, xv, Footprint(h, s, Obj(ms)));
    forall k | k in kept
      ensures Agree(h, g, Footprint(h, h[s.id].members[k], ms[k]))
      ensures Footprint(h, h[s.id].members[k], ms[k]) !! Footprint(g, x, xv)
    {
      DictChild(h, s, ms, k);
      StoredInHeap(h, h[s.id].members[k], ms[k]);
    }
    DictRebuilt(h, g, s, ms, kept, added, now, ms', x, xv);
  }

  lemma EditDictInPlace(h: Heap, s: Slot, ms: map<string, Value>, final: string, op: Op, x: Slot, xv: Value)
    requires Stored(h, s, Obj(ms)) && Stored(h, x, xv) && Footprint(h, s, Obj(ms)) !! Footprint(h, x, xv)
    requires EditDict(ms, final, op, xv).Some?
    ensures EditDict(h[s.id].members, final, op, x).Some?
    ensures Edited(h, h[s.id := DictCell(EditDict(h[s.id].members, final, op, x).value)], s, Obj(ms),
                   Obj(EditDict(ms, final, op, xv).value), x, xv)
  {
    var now := EditDict(h[s.id].members, final, op, x).value;
    DictEdited(h, s, ms, ms.Keys - {final}, final, now, EditDict(ms, final, op, xv).value, x, xv);
  }

  // ---------- along a path ----------

  function CellAt(h: Heap, s: Slot): Option<Cell> { if s.Ref? && s.id in h then Some(h[s.id]) else None }

  /** One step from container to container. */
  function StepDown(toInt: Int, h: Heap, s: Slot, token: string): Option<Slot> {
    match CellAt(h, s)
    case None => None
    case Some(ListCell(items)) =>
      PositionInRange(toInt, items, token);
      var at := PositionOf(toInt, items, token);
      if at.None? then None else Some(items[at.value])
    case Some(DictCell(members)) => if token in members then Some(members[token]) else None
  }

  function Walk(toInt: Int, h: Heap, s: Slot, path: seq<string>): Option<Slot>
    decreases |path|
  {
    if path == [] then Some(s)
    else
      var next := StepDown(toInt, h, s, path[0]);
      if next.None? then None else Walk(toInt, h, next.value, path[1..])
  }

  /** The heap after a mutation: one container is different. */
  function MutateHeap(toInt: Int, h: Heap, s: Slot, path: seq<string>, op: Op, x: Slot): Option<Heap> {
    if path == [] then None
    else
      var parent := Walk(toInt, h, s, path[..|path| - 1]);
      if parent.None? || CellAt(h, parent.value).None? then None
      else
        var edited := EditCell(toInt, h[parent.value.id], path[|path| - 1], op, x);
        if edited.None? then None else Some(h[parent.value.id := edited.value])
  }

  /** Stepping down a stored value finds its children, stored. */
  lemma StepIsChild(toInt: Int, h: Heap, s: Slot, v: Value, token: string)
    requires Stored(h, s, v)
    ensures StepDown(toInt, h, s, token).Some? <==> Child(toInt, v, token).Some?
    ensures StepDown(toInt, h, s, token).Some? ==>
              var (y, yv) := (StepDown(toInt, h, s, token).value, Child(toInt, v, token).value);
              Stored(h, y, yv) && s.id !in Footprint(h, y, yv) && Footprint(h, y, yv) <= Footprint(h, s, v)
  {
    match v
    case Arr(vs) =>
      var at := PositionOf(toInt, vs, token);
      PositionInRange(toInt, vs, token);
      if at.Some? { ListChild(h, s, vs, at.value); }
    case Obj(ms) => if token in ms { DictChild(h, s, ms, token); }
    case _ =>
  }

  /** Two heaps that differ in one container. */
  predicate DiffersAt(h: Heap, g: Heap, id: Id) {
    id in h && g.Keys == h.Keys && forall i :: i in h && i != id ==> g[i] == h[i]
  }

  /** Where one child's containers changed, its siblings did not, and stay apart from it. */
  lemma SiblingUntouched(h: Heap, g: Heap, s: Slot, vs: seq<Value>, at: nat, k: nat, id: Id, u: Value, x: Slot, xv: Value)
    requires Stored(h, s, Arr(vs)) && at < |vs| && k < |vs| && k != at && Footprint(h, s, Arr(vs)) !! Footprint(h, x, xv)
    requires DiffersAt(h, g, id) && id in Footprint(h, h[s.id].items[at], vs[at])
    requires Footprint(g, h[s.id].items[at], u) <= Footprint(h, h[s.id].items[at], vs[at]) + Footprint(h, x, xv)
    ensures Agree(h, g, Footprint(h, h[s.id].items[k], vs[k]))
    ensures Footprint(h, h[s.id].items[k], vs[k]) !! Footprint(g, h[s.id].items[at], u)
  {
    var slots := h[s.id].items;
    ListChild(h, s, vs, k);
    StoredInHeap(h, slots[k], vs[k]);
    if k < at { assert Footprint(h, slots[k], vs[k]) !! Footprint(h, slots[at], vs[at]); }
    else { assert Footprint(h, slots[at], vs[at]) !! Footprint(h, slots[k], vs[k]); }
  }

  function ReplaceOrigins(n: nat, at: nat): seq<int> {
    seq(n, k requires 0 <= k < n => if k == at then -1 else k)
  }

  lemma ReplacedAt<T>(items: seq<T>, at: nat, x: T)
    requires at < |items|
    ensures Origins(ReplaceOrigins(|items|, at), |items|)
    ensures Arranged(ReplaceOrigins(|items|, at), items, items[at := x], x)
  {
  }

  /** If a child was edited in place, so was its parent, without being written to. */
  lemma ListChildEdited(h: Heap, g: Heap, s: Slot, vs: seq<Value>, at: nat, id: Id, u: Value, x: Slot, xv: Value)
    requires Stored(h, s, Arr(vs)) && at < |vs| && Footprint(h, s, Arr(vs)) !! Footprint(h, x, xv)
    requires DiffersAt(h, g, id) && id in Footprint(h, h[s.id].items[at], vs[at])
    requires Edited(h, g, h[s.id].items[at], vs[at], u, x, xv)
    ensures Edited(h, g, s, Arr(vs), Arr(vs[at := u]), x, xv)
  {
    var slots := h[s.id].items;
    ReplacedAt(slots, at, slots[at]);
    ReplacedAt(vs, at, u);
    assert slots[at := slots[at]] == slots;
    ListChild(h, s, vs, at);
    forall k | 0 <= k < |vs| && k != at
      ensures Agree(h, g, Footprint(h, slots[k], vs[k])) && Footprint(h, slots[k], vs[k]) !! Footprint(g, slots[at], u)
    {
      SiblingUntouched(h, g, s, vs, at, k, id, u, x, xv);
    }
    ListRebuilt(h, g, s, vs, ReplaceOrigins(|vs|, at), slots, vs[at := u], slots[at], u);
  }

  lemma DictChildEdited(h: Heap, g: Heap, s: Slot, ms: map<string, Value>, key: string, id: Id, u: Value, x: Slot, xv: Value)
    requires Stored(h, s, Obj(ms)) && key in ms && Footprint(h, s, Obj(ms)) !! Footprint(h, x, xv)
    requires DiffersAt(h, g, id) && id in Footprint(h, h[s.id].members[key], ms[key])
    requires Edited(h, g, h[s.id].members[key], ms[key], u, x, xv)
    ensures Edited(h, g, s, Obj(ms), Obj(ms[key := u]), x, xv)
  {
    var slots := h[s.id].members;
    var y := slots[key];
    var kept := ms.Keys - {key};
    DictChild(h, s, ms, key);
    forall k | k in kept
      ensures Agree(h, g, Footprint(h, slots[k], ms[k])) && Footprint(h, slots[k], ms[k]) !! Footprint(g, y, u)
    {
      DictChild(h, s, ms, k);
      StoredInHeap(h, slots[k], ms[k]);
    }
    DictRebuilt(h, g, s, ms, kept, key, slots, ms[key := u], y, u);
  }

  lemma ChildEdited(toInt: Int, h: Heap, g: Heap, s: Slot, v: Value, token: string, id: Id, u: Value, x: Slot, xv: Value)
    requires Stored(h, s, v) && Child(toInt, v, token).Some? && Footprint(h, s, v) !! Footprint(h, x, xv)
    requires StepDown(toInt, h, s, token).Some?
    requires var (y, yv) := (StepDown(toInt, h, s, token).value, Child(toInt, v, token).value);
             DiffersAt(h, g, id) && id in Footprint(h, y, yv) && Edited(h, g, y, yv, u, x, xv)
    ensures Edited(h, g, s, v, WithChild(toInt, v, token, u), x, xv)
  {
    match v
    case Arr(vs) =>
      PositionInRange(toInt, vs, token);
      ListChildEdited(h, g, s, vs, PositionOf(toInt, vs, token).value, id, u, x, xv);
    case Obj(ms) => DictChildEdited(h, g, s, ms, token, id, u, x, xv);
  }

  /** Where the target's container is. */
  function ParentOf(toInt: Int, h: Heap, s: Slot, path: seq<string>): Option<Slot>
    requires path != []
  {
    Walk(toInt, h, s, path[..|path| - 1])
  }

  lemma WalkTail(toInt: Int, h: Heap, s: Slot, path: seq<string>)
    requires |path| > 1 && StepDown(toInt, h, s, path[0]).Some?
    ensures ParentOf(toInt, h, s, path) == ParentOf(toInt, h, StepDown(toInt, h, s, path[0]).value, path[1..])
  {
    assert path[..|path| - 1][1..] == path[1..][..|path[1..]| - 1];
  }

  /** The edit of a single container. */
  lemma EditInPlace(toInt: Int, h: Heap, s: Slot, v: Value, final: string, op: Op, x: Slot, xv: Value)
    requires Stored(h, s, v) && Stored(h, x, xv) && Footprint(h, s, v) !! Footprint(h, x, xv)
    ensures Edit(toInt, v, final, op, xv).Some? <==>
              CellAt(h, s).Some? && EditCell(toInt, CellAt(h, s).value, final, op, x).Some?
    ensures Edit(toInt, v, final, op, xv).Some? ==>
              s.id in Footprint(h, s, v) &&
              Edited(h, h[s.id := EditCell(toInt, h[s.id], final, op, x).value], s, v,
                     Edit(toInt, v, final, op, xv).value, x, xv)
  {
    match v
    case Arr(vs) =>
      EditListAlike(toInt, vs, h[s.id].items, final, op, xv, x);
      if EditList(toInt, vs, final, op, xv).Some? { EditListInPlace(toInt, h, s, vs, final, op, x, xv); }
    case Obj(ms) => if EditDict(ms, final, op, xv).Some? { EditDictInPlace(h, s, ms, final, op, x, xv); }
    case _ =>
  }

  /** The outcome on the heap, against the outcome on the value it holds. */
  ghost predicate Matches(h: Heap, s: Slot, v: Value, parent: Option<Slot>, r: Option<Heap>, u: Option<Value>, x: Slot, xv: Value) {
    && (r.Some? <==> u.Some?)
    && (r.Some? ==> parent.Some? && parent.value.Ref? && DiffersAt(h, r.value, parent.value.id) &&
                    parent.value.id in Footprint(h, s, v) && Edited(h, r.value, s, v, u.value, x, xv))
  }

  ghost predicate InPlace(toInt: Int, h: Heap, s: Slot, v: Value, path: seq<string>, op: Op, x: Slot, xv: Value)
    requires path != []
  {
    Matches(h, s, v, ParentOf(toInt, h, s, path), MutateHeap(toInt, h, s, path, op, x), Apply(toInt, v, path, op, xv), x, xv)
  }

  lemma OneStep(toInt: Int, h: Heap, s: Slot, v: Value, path: seq<string>, op: Op, x: Slot, xv: Value)
    requires |path| == 1 && Stored(h, s, v) && Stored(h, x, xv) && Footprint(h, s, v) !! Footprint(h, x, xv)
    ensures InPlace(toInt, h, s, v, path, op, x, xv)
  {
    assert path[..0] == [];
    EditInPlace(toInt, h, s, v, path[0], op, x, xv);
  }

  lemma MutateTail(toInt: Int, h: Heap, s: Slot, path: seq<string>, op: Op, x: Slot)
    requires |path| > 1
    ensures var y := StepDown(toInt, h, s, path[0]);
            MutateHeap(toInt, h, s, path, op, x) == if y.None? then None else MutateHeap(toInt, h, y.value, path[1..], op, x)
  {
    assert path[..|path| - 1][0] == path[0];
    if StepDown(toInt, h, s, path[0]).Some? {
      WalkTail(toInt, h, s, path);
      assert path[1..][|path[1..]| - 1] == path[|path| - 1];
    }
  }

  lemma ApplyTail(toInt: Int, v: Value, path: seq<string>, op: Op, xv: Value)
    requires |path| > 1
    ensures var c := Child(toInt, v, path[0]);
            Apply(toInt, v, path, op, xv) ==
              if c.None? || Apply(toInt, c.value, path[1..], op, xv).None? then None
              else Some(WithChild(toInt, v, path[0], Apply(toInt, c.value, path[1..], op, xv).value))
  {
  }

  /** What holds of a child holds of its parent. */
  lemma MatchesAbove(toInt: Int, h: Heap, s: Slot, v: Value, token: string, parent: Option<Slot>, r: Option<Heap>,
                     u: Option<Value>, x: Slot, xv: Value)
    requires Stored(h, s, v) && Footprint(h, s, v) !! Footprint(h, x, xv)
    requires StepDown(toInt, h, s, token).Some? && Child(toInt, v, token).Some?
    requires Matches(h, StepDown(toInt, h, s, token).value, Child(toInt, v, token).value, parent, r, u, x, xv)
    ensures Matches(h, s, v, parent, r, if u.None? then None else Some(WithChild(toInt, v, token, u.value)), x, xv)
  {
    StepIsChild(toInt, h, s, v, token);
    if r.Some? { ChildEdited(toInt, h, r.value, s, v, token, parent.value.id, u.value, x, xv); }
  }

  /**
   * Writing to the one container at the end of the path changes the value of the whole
   * document as the mutation of values does, provided no container is used twice.
   */
  lemma {:induction false} InPlaceIsApply(toInt: Int, h: Heap, s: Slot, v: Value, path: seq<string>, op: Op, x: Slot, xv: Value)
    requires path != [] && Stored(h, s, v) && Stored(h, x, xv) && Footprint(h, s, v) !! Footprint(h, x, xv)
    ensures InPlace(toInt, h, s, v, path, op, x, xv)
    decreases |path|
  {
    if |path| == 1 {
      OneStep(toInt, h, s, v, path, op, x, xv);
    } else {
      StepIsChild(toInt, h, s, v, path[0]);
      MutateTail(toInt, h, s, path, op, x);
      ApplyTail(toInt, v, path, op, xv);
      if StepDown(toInt, h, s, path[0]).Some? {
        InPlaceIsApply(toInt, h, StepDown(toInt, h, s, path[0]).value, Child(toInt, v, path[0]).value, path[1..], op, x, xv);
        WalkTail(toInt, h, s, path);
        MatchesAbove(toInt, h, s, v, path[0], ParentOf(toInt, h, s, path), MutateHeap(toInt, h, s, path, op, x),
                     Apply(toInt, Child(toInt, v, path[0]).value, path[1..], op, xv), x, xv);
      }
    }
  }

  /** A container used twice: what is written through one use is read through the other. */
  lemma SharedContainerSpreads(toInt: Int)
    requires toInt("0") == Some(0)
    ensures var h := map[0 := DictCell(map["a" := Ref(1), "b" := Ref(1)]), 1 := ListCell([Leaf(Num(0))])];
            var g := MutateHeap(toInt, h, Ref(0), ["a", "0"], Replace, Leaf(Num(7)));
            g.Some? && Walk(toInt, g.value, Ref(0), ["b", "0"]) == Some(Leaf(Num(7)))
  {
    var h := map[0 := DictCell(map["a" := Ref(1), "b" := Ref(1)]), 1 := ListCell([Leaf(Num(0))])];
    assert ["a", "0"][..1] == ["a"] && ["a"][1..] == [] && ["b", "0"][1..] == ["0"] && ["0"][1..] == [];
    assert Walk(toInt, h, Ref(0), ["a"]) == Some(Ref(1));
    var g := MutateHeap(toInt, h, Ref(0), ["a", "0"], Replace, Leaf(Num(7))).value;
    assert StepDown(toInt, g, Ref(0), "b") == Some(Ref(1));
    assert StepDown(toInt, g, Ref(1), "0") == Some(Leaf(Num(7)));
    assert Walk(toInt, g, Ref(1), ["0"]) == Walk(toInt, g, Leaf(Num(7)), []);
  }

  // ---------- the document object ----------

  /** The document and the values still to be used are stored, and share no container. */
  ghost predicate Unshared(h: Heap, root: Slot, v: Value, slots: seq<Slot>, ms: seq<Mutation>, i: nat)
    requires |slots| == |ms|
  {
    && Stored(h, root, v)
    && (forall j :: i <= j < |ms| ==> Stored(h, slots[j], ms[j].value) &&
                                      Footprint(h, root, v) !! Footprint(h, slots[j], ms[j].value))
    && (forall j, k :: i <= j < k < |ms| ==> Footprint(h, slots[j], ms[j].value) !! Footprint(h, slots[k], ms[k].value))
  }

  /** One container of the document was written to; the document now has this value. */
  ghost predicate Changed(h: Heap, g: Heap, root: Slot, v: Value, u: Value, x: Slot, xv: Value) {
    Edited(h, g, root, v, u, x, xv) && exists id :: id in Footprint(h, root, v) && DiffersAt(h, g, id)
  }

  lemma UnsharedNow(h: Heap, root: Slot, v: Value, slots: seq<Slot>, ms: seq<Mutation>, i: nat)
    requires |slots| == |ms| && i < |ms| && Unshared(h, root, v, slots, ms, i)
    ensures Stored(h, root, v) && Stored(h, slots[i], ms[i].value)
    ensures Footprint(h, root, v) !! Footprint(h, slots[i], ms[i].value)
  {
  }

  lemma UnsharedNext(h: Heap, g: Heap, root: Slot, v: Value, u: Value, slots: seq<Slot>, ms: seq<Mutation>, i: nat)
    requires |slots| == |ms| && i < |ms| && Unshared(h, root, v, slots, ms, i)
    requires Changed(h, g, root, v, u, slots[i], ms[i].value)
    ensures Unshared(g, root, u, slots, ms, i + 1)
  {
    var id :| id in Footprint(h, root, v) && DiffersAt(h, g, id);
    forall j | i < j < |ms|
      ensures Stored(g, slots[j], ms[j].value)
      ensures Footprint(g, slots[j], ms[j].value) == Footprint(h, slots[j], ms[j].value)
    {
      StoredInHeap(h, slots[j], ms[j].value);
      Frame(h, g, slots[j], ms[j].value);
    }
  }

  class Document {
    var heap: Heap
    const root: Slot

    constructor (heap: Heap, root: Slot)
      ensures this.heap == heap && this.root == root
    {
      this.heap, this.root := heap, root;
    }

    /** `_apply_mutation`: walk to the target's container and edit it; false means it raises. */
    method ApplyMutation(toInt: Int, tokens: seq<string>, op: Op, value: Slot, ghost v: Value, ghost xv: Value)
      returns (ok: bool)
      requires Stored(heap, root, v) && Stored(heap, value, xv) && Footprint(heap, root, v) !! Footprint(heap, value, xv)
      modifies this
      ensures var u := Apply(toInt, v, tokens, op, xv);
              (ok <==> u.Some?) && (!ok ==> heap == old(heap)) &&
              (ok ==> Changed(old(heap), heap, root, v, u.value, value, xv))
    {
      if tokens == [] { return false; }
      InPlaceIsApply(toInt, heap, root, v, tokens, op, value, xv);
      var parent := root;
      var i := 0;
      while i < |tokens| - 1
        invariant 0 <= i <= |tokens| - 1
        invariant Walk(toInt, heap, parent, tokens[i..|tokens| - 1]) == ParentOf(toInt, heap, root, tokens)
      {
        var next := StepDown(toInt, heap, parent, tokens[i]);
        assert tokens[i..|tokens| - 1][1..] == tokens[i + 1..|tokens| - 1];
        if next.None? { return false; }
        parent := next.value;
        i := i + 1;
      }
      assert tokens[i..|tokens| - 1] == [];
      var cell := CellAt(heap, parent);
      if cell.None? { return false; }
      var edited := EditCell(toInt, cell.value, tokens[|tokens| - 1], op, value);
      if edited.None? { return false; }
      heap := heap[parent.id := edited.value];
      return true;
    }

    /** One mutation of a list of them. */
    method MutateOne(toInt: Int, ms: seq<Mutation>, slots: seq<Slot>, i: nat, ghost v: Value) returns (ok: bool, ghost u: Value)
      requires |slots| == |ms| && i < |ms| && Unshared(heap, root, v, slots, ms, i)
      modifies this
      ensures ok <==> Apply(toInt, v, TokensOf(ms[i].path), ms[i].op, ms[i].value).Some?
      ensures ok ==> u == Apply(toInt, v, TokensOf(ms[i].path), ms[i].op, ms[i].value).value
      ensures ok ==> Unshared(heap, root, u, slots, ms, i + 1)
    {
      u := v;
      UnsharedNow(heap, root, v, slots, ms, i);
      ghost var before := heap;
      var tokens := TokensOf(ms[i].path);
      ok := ApplyMutation(toInt, tokens, ms[i].op, slots[i], v, ms[i].value);
      if ok {
        u := Apply(toInt, v, tokens, ms[i].op, ms[i].value).value;
        UnsharedNext(before, heap, root, v, u, slots, ms, i);
      }
    }

    /** The loop over a vector's mutations; false means that one of them raised. */
    method Mutate(toInt: Int, ms: seq<Mutation>, slots: seq<Slot>, ghost v: Value) returns (ok: bool, ghost u: Value)
      requires |slots| == |ms| && Unshared(heap, root, v, slots, ms, 0)
      modifies this
      ensures ok <==> ApplyAll(toInt, v, ms).Some?
      ensures ok ==> u == ApplyAll(toInt, v, ms).value && Stored(heap, root, u)
    {
      u := v;
      var i := 0;
      while i < |ms|
        invariant 0 <= i <= |ms| && Unshared(heap, root, u, slots, ms, i)
        invariant ApplyAll(toInt, v, ms[..i]) == Some(u)
      {
        ApplyAllNext(toInt, v, ms, i, u);
        ok, u := MutateOne(toInt, ms, slots, i, u);
        if !ok {
          FailureStays(toInt, v, ms, i + 1);
          return;
        }
        i := i + 1;
      }
      assert ms[..i] == ms;
      ok := true;
    }
  }
}
