// The iterative walk that rejects non-string object keys before serialization.
// Python containers form a finite graph: they may be shared and even cyclic,
// and are told apart by identity.
module KeyWalk {

  type Id = nat

  datatype Item = Leaf | Ref(id: Id)

  /** A dictionary entry, or an element of a list or tuple (its key then counts as text). */
  datatype Slot = Slot(textKey: bool, item: Item)

  type Graph = map<Id, seq<Slot>>

  /** Every reference leads to a container. */
  ghost predicate Closed(g: Graph) {
    forall c, i :: c in g && 0 <= i < |g[c]| && g[c][i].item.Ref? ==> g[c][i].item.id in g
  }

  ghost predicate Edge(g: Graph, a: Id, b: Id) {
    a in g && exists i :: 0 <= i < |g[a]| && g[a][i].item == Ref(b)
  }

  ghost predicate Path(g: Graph, p: seq<Id>) {
    p != [] && forall i :: 0 <= i < |p| - 1 ==> Edge(g, p[i], p[i + 1])
  }

  ghost predicate Reachable(g: Graph, from: Id, to: Id) {
    exists p :: Path(g, p) && p[0] == from && p[|p| - 1] == to
  }

  ghost predicate TextKeys(slots: seq<Slot>) {
    forall i :: 0 <= i < |slots| ==> slots[i].textKey
  }

  /** What the check promises: text keys in every container reachable from the value. */
  ghost predicate AllKeysText(g: Graph, value: Item) {
    value.Ref? ==> forall c :: c in g && Reachable(g, value.id, c) ==> TextKeys(g[c])
  }

  ghost predicate NoDuplicates(s: seq<Id>) {
    forall i, j :: 0 <= i < j < |s| ==> s[i] != s[j]
  }

  lemma ReachRoot(g: Graph, r: Id)
    ensures Reachable(g, r, r)
  {
    assert Path(g, [r]);
  }

  lemma ReachStep(g: Graph, r: Id, a: Id, b: Id)
    requires Reachable(g, r, a) && Edge(g, a, b)
    ensures Reachable(g, r, b)
  {
    var p :| Path(g, p) && p[0] == r && p[|p| - 1] == a;
    var q := p + [b];
    forall i | 0 <= i < |q| - 1
      ensures Edge(g, q[i], q[i + 1])
    {
      if i < |p| - 1 { assert Edge(g, p[i], p[i + 1]); }
    }
    assert Path(g, q) && q[0] == r && q[|q| - 1] == b;
  }

  /** A set that contains the root and is closed under edges contains all that is reachable. */
  lemma {:induction false} ClosedSetHoldsPath(g: Graph, s: set<Id>, p: seq<Id>)
    requires Path(g, p) && p[0] in s
    requires forall a, b :: a in s && Edge(g, a, b) ==> b in s
    ensures p[|p| - 1] in s
    decreases |p|
  {
    if |p| > 1 {
      var q := p[..|p| - 1];
      forall i | 0 <= i < |q| - 1
        ensures Edge(g, q[i], q[i + 1])
      {
        assert Edge(g, p[i], p[i + 1]);
      }
      ClosedSetHoldsPath(g, s, q);
      assert Edge(g, p[|p| - 2], p[|p| - 1]);
    }
  }

  // ---------- the walk ----------

  /** A container on the current path with the position of its generator. */
  datatype Frame = Frame(id: Id, next: nat)

  ghost function IdsOf(stack: seq<Frame>): set<Id> {
    set i | 0 <= i < |stack| :: stack[i].id
  }

  /** The first `n` slots were checked, and the containers in them were pushed. */
  ghost predicate Done(slots: seq<Slot>, n: nat, seen: set<Id>) {
    n <= |slots| &&
    forall i :: 0 <= i < n ==> slots[i].textKey && (slots[i].item.Ref? ==> slots[i].item.id in seen)
  }

  ghost predicate StackShape(g: Graph, stack: seq<Frame>, active: set<Id>, checked: set<Id>) {
    && active == IdsOf(stack)
    && active !! checked
    && active + checked <= g.Keys
    && forall i, j :: 0 <= i < j < |stack| ==> stack[i].id != stack[j].id
  }

  ghost predicate Progress(g: Graph, stack: seq<Frame>, checked: set<Id>, seen: set<Id>) {
    && (forall c :: c in checked ==> c in g && Done(g[c], |g[c]|, seen))
    && (forall k :: 0 <= k < |stack| ==> stack[k].id in g && Done(g[stack[k].id], stack[k].next, seen))
  }

  ghost predicate Trace(g: Graph, root: Id, pushed: seq<Id>, seen: set<Id>) {
    && NoDuplicates(pushed)
    && (forall c :: c in pushed <==> c in seen)
    && (forall c :: c in seen ==> Reachable(g, root, c))
    && root in seen
  }

  /** The stack after the top generator moved to `next` and a fresh container was pushed. */
  ghost function Pushed(stack: seq<Frame>, next: nat, id: Id): seq<Frame>
    requires stack != []
  {
    stack[|stack| - 1 := stack[|stack| - 1].(next := next)] + [Frame(id, 0)]
  }

  lemma PushKeepsShape(g: Graph, stack: seq<Frame>, active: set<Id>, checked: set<Id>, next: nat, id: Id)
    requires StackShape(g, stack, active, checked) && stack != []
    requires id in g && id !in active && id !in checked
    ensures StackShape(g, Pushed(stack, next, id), active + {id}, checked)
  {
    var s := Pushed(stack, next, id);
    assert forall i :: 0 <= i < |stack| ==> s[i].id == stack[i].id && stack[i].id in active;
    assert s[|stack|].id == id;
    assert forall c :: c in IdsOf(s) ==> c in active + {id};
    forall c | c in active + {id}
      ensures c in IdsOf(s)
    {
      if c != id {
        var i :| 0 <= i < |stack| && stack[i].id == c;
        assert s[i].id == c;
      }
    }
  }

  lemma PushKeepsProgress(g: Graph, stack: seq<Frame>, checked: set<Id>, seen: set<Id>, next: nat, id: Id)
    requires Progress(g, stack, checked, seen) && stack != [] && id in g
    requires Done(g[stack[|stack| - 1].id], next, seen + {id})
    ensures Progress(g, Pushed(stack, next, id), checked, seen + {id})
  {
    var s := Pushed(stack, next, id);
    forall k | 0 <= k < |s|
      ensures s[k].id in g && Done(g[s[k].id], s[k].next, seen + {id})
    {
      if k < |stack| { assert Done(g[stack[k].id], stack[k].next, seen); }
    }
  }

  lemma PushKeepsTrace(g: Graph, root: Id, pushed: seq<Id>, seen: set<Id>, from: Id, id: Id)
    requires Trace(g, root, pushed, seen) && from in seen && Edge(g, from, id) && id !in seen
    ensures Trace(g, root, pushed + [id], seen + {id})
  {
    ReachStep(g, root, from, id);
  }

  lemma PopKeeps(g: Graph, stack: seq<Frame>, active: set<Id>, checked: set<Id>)
    requires StackShape(g, stack, active, checked) && Progress(g, stack, checked, active + checked)
    requires stack != [] && Done(g[stack[|stack| - 1].id], |g[stack[|stack| - 1].id]|, active + checked)
    ensures var id := stack[|stack| - 1].id;
            StackShape(g, stack[..|stack| - 1], active - {id}, checked + {id}) &&
            Progress(g, stack[..|stack| - 1], checked + {id}, active + checked) &&
            (active - {id}) + (checked + {id}) == active + checked
  {
    var id := stack[|stack| - 1].id;
    var s := stack[..|stack| - 1];
    assert forall i :: 0 <= i < |s| ==> s[i] == stack[i];
    assert id in active;
    forall c | c in active && c != id
      ensures c in IdsOf(s)
    {
      var i :| 0 <= i < |stack| && stack[i].id == c;
      assert s[i].id == c;
    }
    assert IdsOf(s) == active - {id};
  }

  /** At the end the checked containers are closed under edges, so nothing was missed. */
  lemma WalkComplete(g: Graph, root: Id, checked: set<Id>)
    requires root in checked && checked <= g.Keys
    requires forall c :: c in checked ==> Done(g[c], |g[c]|, checked)
    ensures forall c :: Reachable(g, root, c) ==> c in checked
    ensures AllKeysText(g, Ref(root))
  {
    forall c | Reachable(g, root, c)
      ensures c in checked
    {
      var p :| Path(g, p) && p[0] == root && p[|p| - 1] == c;
      ClosedSetHoldsPath(g, checked, p);
    }
  }

  datatype Outcome = Exhausted | Descend(id: Id) | BadKey

  /** Resumes a container's generator until it ends, raises, or yields a fresh container. */
  method Scan(slots: seq<Slot>, next: nat, active: set<Id>, checked: set<Id>)
    returns (stop: nat, outcome: Outcome)
    requires next <= |slots| && Done(slots, next, active + checked)
    ensures outcome.BadKey? ==> exists i :: 0 <= i < |slots| && !slots[i].textKey
    ensures outcome.Exhausted? ==> stop == |slots| && Done(slots, stop, active + checked)
    ensures outcome.Descend? ==>
              outcome.id !in active + checked && Done(slots, stop, active + checked + {outcome.id}) &&
              exists i :: 0 <= i < |slots| && slots[i].item == Ref(outcome.id)
  {
    stop := next;
    while stop < |slots|
      invariant Done(slots, stop, active + checked)
    {
      var slot := slots[stop];
      if !slot.textKey { return stop, BadKey; }
      stop := stop + 1;
      if slot.item.Ref? && slot.item.id !in active && slot.item.id !in checked {
        return stop, Descend(slot.item.id);
      }
    }
    outcome := Exhausted;
  }

  /**
   * `_require_string_keys`: true means it returns, false that it raises.  The ghost
   * result lists the containers in the order they were pushed.
   */
  method RequireStringKeys(g: Graph, value: Item) returns (ok: bool, ghost pushed: seq<Id>)
    requires Closed(g) && (value.Ref? ==> value.id in g)
    ensures ok <==> AllKeysText(g, value)
    ensures NoDuplicates(pushed)
    ensures forall c :: c in pushed ==> value.Ref? && Reachable(g, value.id, c)
    ensures ok && value.Ref? ==> forall c :: Reachable(g, value.id, c) ==> c in pushed
  {
    pushed := [];
    if value.Leaf? { return true, pushed; }
    var active: set<Id> := {value.id};
    var checked: set<Id> := {};
    var stack := [Frame(value.id, 0)];
    pushed := [value.id];
    ReachRoot(g, value.id);
    assert stack[0].id == value.id;
    while stack != []
      invariant StackShape(g, stack, active, checked)
      invariant Progress(g, stack, checked, active + checked)
      invariant Trace(g, value.id, pushed, active + checked)
      decreases g.Keys - (active + checked), |stack|
    {
      var top := stack[|stack| - 1];
      assert top.id in active + checked;
      var stop, outcome := Scan(g[top.id], top.next, active, checked);
      match outcome
      case BadKey =>
        return false, pushed;
      case Descend(id) =>
        PushKeepsShape(g, stack, active, checked, stop, id);
        PushKeepsProgress(g, stack, checked, active + checked, stop, id);
        PushKeepsTrace(g, value.id, pushed, active + checked, top.id, id);
        assert (active + {id}) + checked == (active + checked) + {id};
        active := active + {id};
        stack := stack[|stack| - 1 := top.(next := stop)] + [Frame(id, 0)];
        pushed := pushed + [id];
      case Exhausted =>
        PopKeeps(g, stack, active, checked);
        stack := stack[..|stack| - 1];
        active := active - {top.id};
        checked := checked + {top.id};
    }
    assert active == {};
    assert active + checked == checked;
    WalkComplete(g, value.id, checked);
    ok := true;
  }
}
