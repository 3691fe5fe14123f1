// Forests of capability grants: what attenuation at every edge means for whole
// lineages.
module GrantForest {
  import opened Wrappers
  import opened ControlPlane

  /** A grant with its place in the forest. */
  datatype Node = Node(grant: Grant, runId: string, parent: Option<string>, createdAt: int)

  type Forest = map<string, Node>

  /** A node against the one it was delegated from. */
  predicate Attenuates(parent: Node, child: Node) {
    && child.runId == parent.runId
    && parent.grant.PermitsChild(child.grant)
    && child.createdAt < parent.grant.validUntil
  }

  predicate WellFormed(f: Forest) {
    && (forall id :: id in f ==> f[id].grant.Valid())
    && (forall id :: id in f && f[id].parent.Some? ==>
          f[id].parent.value in f && Attenuates(f[f[id].parent.value], f[id]))
  }

  lemma AddNode(f: Forest, id: string, n: Node)
    requires WellFormed(f) && id !in f && n.grant.Valid()
    requires n.parent.Some? ==> n.parent.value in f && Attenuates(f[n.parent.value], n)
    ensures WellFormed(f[id := n])
  {
  }

  /** From a grant upwards, each followed by its parent. */
  predicate Lineage(f: Forest, path: seq<string>) {
    && path != []
    && (forall i :: 0 <= i < |path| ==> path[i] in f)
    && (forall i :: 0 <= i < |path| - 1 ==> f[path[i]].parent == Some(path[i + 1]))
  }

  /** Every limit of the descendant is within the ancestor's, and they share run and case. */
  predicate Within(a: Node, d: Node) {
    && d.runId == a.runId
    && d.grant.capabilities <= a.grant.capabilities && d.grant.allowedEffects <= a.grant.allowedEffects
    && d.grant.tenantId == a.grant.tenantId && d.grant.caseId == a.grant.caseId
    && d.grant.maxToolCalls <= a.grant.maxToolCalls && d.grant.maxModelCalls <= a.grant.maxModelCalls
    && d.grant.validUntil <= a.grant.validUntil
  }

  /**
   * Along any lineage the grant stays within every ancestor, depths strictly
   * increase, and no proper ancestor had expired when the grant was created.
   */
  lemma {:induction false} AncestorsBound(f: Forest, path: seq<string>)
    requires WellFormed(f) && Lineage(f, path)
    ensures var d, a := f[path[0]], f[path[|path| - 1]];
            Within(a, d) &&
            d.grant.delegationDepth + |path| - 1 <= a.grant.delegationDepth &&
            (|path| > 1 ==> d.createdAt < a.grant.validUntil)
    decreases |path|
  {
    if |path| > 1 {
      SubLineage(f, path, 1, |path|);
      AncestorsBound(f, path[1..]);
      assert f[path[0]].parent == Some(path[1]);
    }
  }

  lemma SubLineage(f: Forest, path: seq<string>, i: nat, j: nat)
    requires Lineage(f, path) && i < j <= |path|
    ensures Lineage(f, path[i..j])
  {
    var q := path[i..j];
    assert forall k :: 0 <= k < |q| ==> q[k] == path[i + k];
  }

  /** No grant is its own ancestor, and a lineage is no longer than the top's depth allows. */
  lemma LineageAcyclic(f: Forest, path: seq<string>)
    requires WellFormed(f) && Lineage(f, path)
    ensures forall i, j :: 0 <= i < j < |path| ==> path[i] != path[j]
    ensures |path| - 1 <= f[path[|path| - 1]].grant.delegationDepth
  {
    forall i, j | 0 <= i < j < |path|
      ensures path[i] != path[j]
    {
      SubLineage(f, path, i, j + 1);
      AncestorsBound(f, path[i..j + 1]);
    }
    AncestorsBound(f, path);
  }

  /** Grants deeper than a given one: finitely many, and strictly fewer further up. */
  function Deeper(f: Forest, id: string): set<string>
    requires id in f
  {
    set x | x in f && f[x].grant.delegationDepth > f[id].grant.delegationDepth
  }

  /** Every grant descends from a root. */
  lemma {:induction false} RootExists(f: Forest, id: string) returns (path: seq<string>)
    requires WellFormed(f) && id in f
    ensures Lineage(f, path) && path[0] == id && f[path[|path| - 1]].parent == None
    decreases |Deeper(f, id)|
  {
    if f[id].parent.None? {
      path := [id];
    } else {
      var up := f[id].parent.value;
      StrictlyFewer(Deeper(f, up), Deeper(f, id), up);
      var rest := RootExists(f, up);
      path := [id] + rest;
      assert forall i :: 0 < i < |path| ==> path[i] == rest[i - 1];
    }
  }

  lemma StrictlyFewer(a: set<string>, b: set<string>, x: string)
    requires a <= b && x in b && x !in a
    ensures |a| < |b|
  {
    Smaller(a, b - {x});
  }

  lemma {:induction false} Smaller(a: set<string>, b: set<string>)
    requires a <= b
    ensures |a| <= |b|
    decreases |a|
  {
    if x :| x in a { Smaller(a - {x}, b - {x}); }
  }
}
