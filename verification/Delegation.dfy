// The stored grants as a forest, in every state delegation can reach.
module Delegation {
  import opened Wrappers
  import opened ControlPlane
  import opened GrantForest

  /** The authority a stored row stands for. */
  function Authority(p: Platform, row: GrantRow): Option<Grant> { GrantOf(p, row.document) }

  /** A row that agrees with its document and lies in an existing run. */
  predicate SoundRow(p: Platform, runs: map<string, RunRequest>, row: GrantRow, g: Grant) {
    && Authority(p, row) == Some(g)
    && row.grantHash == p.hash(row.document)
    && row.runId in runs
    && row.tenantId == g.tenantId == runs[row.runId].tenantId
    && row.caseId == g.caseId == runs[row.runId].caseId
    && row.validUntil == g.validUntil
  }

  function NodeOf(row: GrantRow, g: Grant): Node { Node(g, row.runId, row.parent, row.createdAt) }

  function SoundIn(p: Platform, runs: map<string, RunRequest>): (GrantRow, Grant) -> bool {
    (row: GrantRow, g: Grant) => SoundRow(p, runs, row, g)
  }

  /** Rows that are sound, one by one, and represent a well-formed forest. */
  predicate RepresentsBy(sound: (GrantRow, Grant) -> bool, rows: map<string, GrantRow>, f: Forest) {
    && f.Keys == rows.Keys
    && (forall id :: id in f ==> f[id] == NodeOf(rows[id], f[id].grant) && sound(rows[id], f[id].grant))
    && WellFormed(f)
  }

  predicate Represents(p: Platform, t: Tables, f: Forest) {
    RepresentsBy(SoundIn(p, t.runs), t.grants, f)
  }

  /** Inserting a root: done by an operator, not by the store's own code. */
  function InsertRoot(p: Platform, t: Tables, id: string, runId: string, g: Grant, now: int): Tables {
    if id in t.grants || runId !in t.runs || !g.Valid() ||
       (t.runs[runId].tenantId, t.runs[runId].caseId) != (g.tenantId, g.caseId) then t
    else
      var doc := DocumentOf(p, g);
      t.(grants := t.grants[id := GrantRow(g.tenantId, g.caseId, runId, None, doc, p.hash(doc), g.validUntil, None, now)])
  }

  lemma AddGrant(sound: (GrantRow, Grant) -> bool, rows: map<string, GrantRow>, f: Forest,
                 id: string, row: GrantRow, g: Grant)
    requires RepresentsBy(sound, rows, f) && id !in rows
    requires sound(row, g) && g.Valid()
    requires row.parent.Some? ==> row.parent.value in f && Attenuates(f[row.parent.value], NodeOf(row, g))
    ensures RepresentsBy(sound, rows[id := row], f[id := NodeOf(row, g)])
  {
    AddNode(f, id, NodeOf(row, g));
  }

  lemma RootKeepsGrants(p: Platform, t: Tables, f: Forest, id: string, runId: string, g: Grant, now: int)
    returns (f': Forest)
    requires p.Faithful() && Represents(p, t, f)
    ensures Represents(p, InsertRoot(p, t, id, runId, g, now), f')
  {
    f' := f;
    var u := InsertRoot(p, t, id, runId, g, now);
    if u != t {
      GrantRoundTrip(p, g);
      AddGrant(SoundIn(p, t.runs), t.grants, f, id, u.grants[id], g);
      f' := f[id := NodeOf(u.grants[id], g)];
    }
  }

  lemma InvalidGrantUnreadable(p: Platform, g: Grant)
    requires p.Faithful() && !g.Valid()
    ensures GrantOf(p, DocumentOf(p, g)) == None
  {
  }

  /** Delegation only proceeds for a readable child. */
  lemma ChildReadsBack(p: Platform, c: DelegationCall)
    requires p.Faithful() && GrantOf(p, DelegationRecord(p, c).document).Some?
    ensures GrantOf(p, DelegationRecord(p, c).document) == Some(c.child) && c.child.Valid()
  {
    if c.child.Valid() { GrantRoundTrip(p, c.child); } else { InvalidGrantUnreadable(p, c.child); }
  }

  /** What the checks against the stored parent establish. */
  lemma NotRefused(p: Platform, t: Tables, g: GrantRecord, child: Grant, parent: Grant, now: int)
    requires DelegationRefusal(p, t, g, now) == None && GrantOf(p, g.document) == Some(child)
    requires g.parent in t.grants ==> Authority(p, t.grants[g.parent]) == Some(parent)
    ensures g.runId in t.runs && g.parent in t.grants
    ensures t.runs[g.runId].tenantId == child.tenantId && t.runs[g.runId].caseId == child.caseId
    ensures t.grants[g.parent].runId == g.runId && now < t.grants[g.parent].validUntil
    ensures parent.PermitsChild(child)
  {
  }

  /** A record whose columns agree with its document, as the service builds it. */
  predicate Faithful(p: Platform, g: GrantRecord, child: Grant) {
    && GrantOf(p, g.document) == Some(child)
    && g.tenantId == child.tenantId && g.caseId == child.caseId
    && g.grantHash == p.hash(g.document) && g.validUntil == child.validUntil
  }

  lemma StoredIsSound(p: Platform, runs: map<string, RunRequest>, g: GrantRecord, child: Grant, now: int)
    requires Faithful(p, g, child) && g.runId in runs
    requires runs[g.runId].tenantId == child.tenantId && runs[g.runId].caseId == child.caseId
    ensures SoundIn(p, runs)(StoredGrant(g, now), child)
  {
  }

  /** A row that passed the checks is sound and attenuates its parent. */
  lemma NewRowSound(p: Platform, t: Tables, f: Forest, g: GrantRecord, child: Grant, now: int)
    requires Represents(p, t, f) && Faithful(p, g, child)
    requires DelegationRefusal(p, t, g, now) == None
    ensures SoundIn(p, t.runs)(StoredGrant(g, now), child)
    ensures g.parent in f && Attenuates(f[g.parent], NodeOf(StoredGrant(g, now), child))
  {
    ParentAuthority(p, t, f, g.parent);
    NotRefused(p, t, g, child, if g.parent in f then f[g.parent].grant else child, now);
    StoredIsSound(p, t.runs, g, child, now);
  }

  lemma ParentAuthority(p: Platform, t: Tables, f: Forest, id: string)
    requires Represents(p, t, f)
    ensures id in f <==> id in t.grants
    ensures id in f ==> Authority(p, t.grants[id]) == Some(f[id].grant) &&
                        f[id].runId == t.grants[id].runId && f[id].grant.validUntil == t.grants[id].validUntil
  {
    assert id in f ==> SoundIn(p, t.runs)(t.grants[id], f[id].grant);
  }

  lemma DelegateKeepsGrants(p: Platform, t: Tables, f: Forest, c: DelegationCall, now: int) returns (f': Forest)
    requires p.Faithful() && Represents(p, t, f)
    ensures Represents(p, Delegate(p, t, c, now).1, f')
  {
    f' := f;
    var g := DelegationRecord(p, c);
    DelegationWrites(p, t, g, c.eventId, c.outboxId, now);
    if Delegate(p, t, c, now).1 != t {
      ChildReadsBack(p, c);
      NewRowSound(p, t, f, g, c.child, now);
      AddGrant(SoundIn(p, t.runs), t.grants, f, g.grantId, StoredGrant(g, now), c.child);
      f' := f[g.grantId := NodeOf(StoredGrant(g, now), c.child)];
    }
  }
}
